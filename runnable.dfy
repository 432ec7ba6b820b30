/**
 * `ProteinProphetRunnable`: runs xinteract, then ProteinProphet, copies
 * each program's standard output and standard error line by line into
 * the two shared lists, and on success publishes the paths of the
 * protXML and xls reports.
 *
 * Starting a process and reading its streams is outside the model: a
 * `Launcher` says, for each command line, whether `start` throws and
 * otherwise which lines each stream delivers and whether reading it ends
 * in an `IOException`.
 */
module Runnable {
  import opened Wrappers
  import opened Text

  /** What `readLine` delivers from one stream: these lines, then end of stream, or an `IOException` when broken. */
  datatype Stream = Stream(lines: seq<string>, broken: bool)

  /** What `ProcessBuilder.start` makes of a command line. */
  datatype Launch = StartFailure | Started(stdout: Stream, stderr: Stream)

  type Launcher = seq<string> -> Launch

  /** The process `runningProcess` refers to, known by its command line. */
  datatype Process = Process(command: seq<string>)

  /** What the runnable does, in order. */
  datatype Event =
    | Launched(command: seq<string>)
    | StartFailed(command: seq<string>)
    | OutLine(line: string)
    | ErrLine(line: string)
    | ReadFailed
    | Released

  predicate IsLaunch(e: Event) {
    e.Launched? || e.StartFailed?
  }

  const OutputStem: string := "xinteractout"
  const PepXMLSuffix: string := ".pep.xml"
  const IproSuffix: string := ".ipro.pep.xml"
  const Stage1Output: string := OutputStem + PepXMLSuffix
  const Stage2Input: string := OutputStem + IproSuffix
  const ProtXMLName: string := "proteinprophet.protXML"
  const ExcelName: string := "proteinprophet.xls"

  /** The xinteract command line: fixed options, then every pepXML file in order. */
  function Stage1Command(execXinteract: string, fastaFile: Option<string>, enzyme: Option<string>,
                         decoyPrefix: Option<string>, threads: int, dir: string, pepXMLFiles: seq<string>): seq<string>
  {
    [execXinteract, "-D" + JavaStr(fastaFile), "-e" + JavaStr(enzyme), "-nP", "-Ot",
     "-d" + JavaStr(decoyPrefix), "-THREADS=" + IntToString(threads), "-i",
     "-N" + dir + Separator + Stage1Output] + pepXMLFiles
  }

  /** The ProteinProphet command line; `peptideProb` is the text of the `Double`. */
  function Stage2Command(execProteinProphet: string, dir: string, peptideProb: Option<string>): seq<string> {
    [execProteinProphet, dir + Separator + Stage2Input, dir + Separator + ProtXMLName,
     "IPROPHET", "MINPROB" + JavaStr(peptideProb), "NOPLOT", "EXCELPEPS"]
  }

  /** The value of the first argument that starts with `flag`, if any. */
  function FlagValue(command: seq<string>, flag: string): Option<string>
    decreases |command|
  {
    if command == [] then None
    else if |flag| <= |command[0]| && command[0][..|flag|] == flag then Some(command[0][|flag|..])
    else FlagValue(command[1..], flag)
  }

  /**
   * xinteract finds each setting behind its flag, and the pepXML files
   * after the nine fixed arguments, in order.
   */
  lemma Stage1Arguments(execXinteract: string, fastaFile: Option<string>, enzyme: Option<string>,
                        decoyPrefix: Option<string>, threads: int, dir: string, pepXMLFiles: seq<string>)
    ensures var c := Stage1Command(execXinteract, fastaFile, enzyme, decoyPrefix, threads, dir, pepXMLFiles);
      |c| == 9 + |pepXMLFiles| && c[0] == execXinteract && c[9..] == pepXMLFiles &&
      FlagValue(c[1..], "-D") == Some(JavaStr(fastaFile)) &&
      FlagValue(c[2..], "-e") == Some(JavaStr(enzyme)) &&
      FlagValue(c[5..], "-d") == Some(JavaStr(decoyPrefix)) &&
      FlagValue(c[6..], "-THREADS=") == Some(IntToString(threads)) &&
      FlagValue(c[8..], "-N") == Some(dir + Separator + Stage1Output) &&
      c[7] == "-i"
  {
    var c := Stage1Command(execXinteract, fastaFile, enzyme, decoyPrefix, threads, dir, pepXMLFiles);
    assert c[1] == "-D" + JavaStr(fastaFile);
    assert c[2] == "-e" + JavaStr(enzyme);
    assert c[5] == "-d" + JavaStr(decoyPrefix);
    assert c[6] == "-THREADS=" + IntToString(threads);
    assert c[8] == "-N" + (dir + Separator + Stage1Output);
  }

  /** The iProphet result xinteract writes beside a `.pep.xml` output. */
  function IproCompanion(pepXML: string): string
    requires |pepXML| >= |PepXMLSuffix|
  {
    pepXML[..|pepXML| - |PepXMLSuffix|] + IproSuffix
  }

  /**
   * ProteinProphet reads the iProphet file xinteract writes beside its
   * `-N` output (xinteract runs iProphet because of `-i`), writes the
   * report whose path the runnable publishes, with the xls beside it
   * because of `EXCELPEPS`, and gets the peptide probability behind
   * `MINPROB`.
   */
  lemma StagesConnect(execXinteract: string, fastaFile: Option<string>, enzyme: Option<string>,
                      decoyPrefix: Option<string>, threads: int, dir: string, pepXMLFiles: seq<string>,
                      execProteinProphet: string, peptideProb: Option<string>)
    ensures var c1 := Stage1Command(execXinteract, fastaFile, enzyme, decoyPrefix, threads, dir, pepXMLFiles);
      var c2 := Stage2Command(execProteinProphet, dir, peptideProb);
      var out := FlagValue(c1[8..], "-N");
      out.Some? && |out.value| >= |PepXMLSuffix| && |c2| == 7 && c1 != c2 &&
      c2[1] == IproCompanion(out.value) && c2[2] == dir + Separator + ProtXMLName &&
      c1[7] == "-i" && c2[6] == "EXCELPEPS" &&
      FlagValue(c2[4..], "MINPROB") == Some(JavaStr(peptideProb))
  {
    assert Stage2Command(execProteinProphet, dir, peptideProb)[4] == "MINPROB" + JavaStr(peptideProb);
    Stage1Arguments(execXinteract, fastaFile, enzyme, decoyPrefix, threads, dir, pepXMLFiles);
    var stem := dir + Separator + OutputStem;
    var out := dir + Separator + Stage1Output;
    assert out == stem + PepXMLSuffix by {
      AppendAssoc(dir + Separator, OutputStem, PepXMLSuffix);
    }
    DropSuffix(stem, PepXMLSuffix);
    assert dir + Separator + Stage2Input == stem + IproSuffix by {
      AppendAssoc(dir + Separator, OutputStem, IproSuffix);
    }
  }

  // ---------------------------------------------------------------------
  // The specification of run()
  // ---------------------------------------------------------------------

  function OutEvents(lines: seq<string>): (es: seq<Event>)
    ensures |es| == |lines| && forall i | 0 <= i < |lines| :: es[i] == OutLine(lines[i])
    decreases |lines|
  {
    if lines == [] then [] else OutEvents(lines[..|lines| - 1]) + [OutLine(lines[|lines| - 1])]
  }

  function ErrEvents(lines: seq<string>): (es: seq<Event>)
    ensures |es| == |lines| && forall i | 0 <= i < |lines| :: es[i] == ErrLine(lines[i])
    decreases |lines|
  {
    if lines == [] then [] else ErrEvents(lines[..|lines| - 1]) + [ErrLine(lines[|lines| - 1])]
  }

  /** One stage: what it adds to each list, whether it ended in an `IOException`, and its events. */
  datatype StageRun = StageRun(out: seq<string>, err: seq<string>, threw: bool, events: seq<Event>)

  /** Start, drain standard output to its end, then standard error. */
  function RunStage(command: seq<string>, launch: Launch): StageRun {
    match launch
    case StartFailure => StageRun([], [], true, [StartFailed(command)])
    case Started(o, e) =>
      if o.broken then StageRun(o.lines, [], true, [Launched(command)] + OutEvents(o.lines) + [ReadFailed])
      else StageRun(o.lines, e.lines, e.broken,
                    [Launched(command)] + OutEvents(o.lines) + ErrEvents(e.lines) + (if e.broken then [ReadFailed] else []))
  }

  /** The runnable's observable state. */
  datatype RunState = RunState(output: seq<string>, errorOutput: seq<string>, runningProcess: Option<Process>,
                               protXMLFile: Option<string>, excelFile: Option<string>, trace: seq<Event>)

  /** A stage that starts and whose streams both read to their end. */
  predicate Clean(launch: Launch) {
    launch.Started? && !launch.stdout.broken && !launch.stderr.broken
  }

  /** The state after `run()`, from the state before and the two command lines. */
  function RunSpec(s: RunState, launcher: Launcher, c1: seq<string>, c2: seq<string>, dir: string): RunState {
    var r1 := RunStage(c1, launcher(c1));
    var p1 := if launcher(c1).Started? then Some(Process(c1)) else s.runningProcess;
    if r1.threw then
      RunState(s.output + r1.out, s.errorOutput + r1.err, p1, None, None, s.trace + r1.events)
    else
      var r2 := RunStage(c2, launcher(c2));
      var p2 := if launcher(c2).Started? then Some(Process(c2)) else None;
      RunState(s.output + r1.out + r2.out, s.errorOutput + r1.err + r2.err, p2,
               if r2.threw then None else Some(dir + Separator + ProtXMLName),
               if r2.threw then None else Some(dir + Separator + ExcelName),
               s.trace + r1.events + [Released] + r2.events)
  }

  // ---------------------------------------------------------------------
  // The runnable
  // ---------------------------------------------------------------------

  class ProteinProphetRunner {
    const pepXMLFiles: seq<string>
    const fastaFile: Option<string>
    const enzyme: Option<string>
    const peptideProb: Option<string>
    const decoyPrefix: Option<string>
    const threads: int
    const execXinteract: string
    const execProteinProphet: string
    const executionDirectory: string

    var output: seq<string>
    var errorOutput: seq<string>
    var runningProcess: Option<Process>
    var protXMLFile: Option<string>
    var excelFile: Option<string>
    ghost var trace: seq<Event>

    ghost function State(): RunState
      reads this
    {
      RunState(output, errorOutput, runningProcess, protXMLFile, excelFile, trace)
    }

    function Stage1(): seq<string> {
      Stage1Command(execXinteract, fastaFile, enzyme, decoyPrefix, threads, executionDirectory, pepXMLFiles)
    }

    function Stage2(): seq<string> {
      Stage2Command(execProteinProphet, executionDirectory, peptideProb)
    }

    constructor(pepXMLFiles: seq<string>, fastaFile: Option<string>, enzyme: Option<string>, peptideProb: Option<string>,
                decoyPrefix: Option<string>, threads: int, execXinteract: string, execProteinProphet: string,
                executionDirectory: string, output: seq<string>, errorOutput: seq<string>)
      ensures this.pepXMLFiles == pepXMLFiles && this.fastaFile == fastaFile && this.enzyme == enzyme
      ensures this.peptideProb == peptideProb && this.decoyPrefix == decoyPrefix && this.threads == threads
      ensures this.execXinteract == execXinteract && this.execProteinProphet == execProteinProphet
      ensures this.executionDirectory == executionDirectory
      ensures State() == RunState(output, errorOutput, None, None, None, [])
    {
      this.pepXMLFiles := pepXMLFiles;
      this.fastaFile := fastaFile;
      this.enzyme := enzyme;
      this.peptideProb := peptideProb;
      this.decoyPrefix := decoyPrefix;
      this.threads := threads;
      this.execXinteract := execXinteract;
      this.execProteinProphet := execProteinProphet;
      this.executionDirectory := executionDirectory;
      this.output := output;
      this.errorOutput := errorOutput;
      this.runningProcess := None;
      this.protXMLFile := None;
      this.excelFile := None;
      this.trace := [];
    }

    /** `while ((s = stdOut.readLine()) != null) output.add(s)`; `threw` when reading ends in an `IOException`. */
    method DrainOutput(stream: Stream) returns (threw: bool)
      modifies this
      ensures threw == stream.broken
      ensures output == old(output) + stream.lines
      ensures trace == old(trace) + OutEvents(stream.lines) + (if stream.broken then [ReadFailed] else [])
      ensures errorOutput == old(errorOutput) && runningProcess == old(runningProcess)
      ensures protXMLFile == old(protXMLFile) && excelFile == old(excelFile)
    {
      var i := 0;
      while i < |stream.lines|
        invariant 0 <= i <= |stream.lines|
        invariant output == old(output) + stream.lines[..i]
        invariant trace == old(trace) + OutEvents(stream.lines[..i])
        invariant errorOutput == old(errorOutput) && runningProcess == old(runningProcess)
        invariant protXMLFile == old(protXMLFile) && excelFile == old(excelFile)
      {
        assert stream.lines[..i + 1][..i] == stream.lines[..i];
        output := output + [stream.lines[i]];
        trace := trace + [OutLine(stream.lines[i])];
        i := i + 1;
      }
      assert stream.lines[..i] == stream.lines;
      if stream.broken {
        trace := trace + [ReadFailed];
      }
      return stream.broken;
    }

    /** The same loop over standard error into `errorOutput`. */
    method DrainErrorOutput(stream: Stream) returns (threw: bool)
      modifies this
      ensures threw == stream.broken
      ensures errorOutput == old(errorOutput) + stream.lines
      ensures trace == old(trace) + ErrEvents(stream.lines) + (if stream.broken then [ReadFailed] else [])
      ensures output == old(output) && runningProcess == old(runningProcess)
      ensures protXMLFile == old(protXMLFile) && excelFile == old(excelFile)
    {
      var i := 0;
      while i < |stream.lines|
        invariant 0 <= i <= |stream.lines|
        invariant errorOutput == old(errorOutput) + stream.lines[..i]
        invariant trace == old(trace) + ErrEvents(stream.lines[..i])
        invariant output == old(output) && runningProcess == old(runningProcess)
        invariant protXMLFile == old(protXMLFile) && excelFile == old(excelFile)
      {
        assert stream.lines[..i + 1][..i] == stream.lines[..i];
        errorOutput := errorOutput + [stream.lines[i]];
        trace := trace + [ErrLine(stream.lines[i])];
        i := i + 1;
      }
      assert stream.lines[..i] == stream.lines;
      if stream.broken {
        trace := trace + [ReadFailed];
      }
      return stream.broken;
    }

    /** Start one stage and drain both of its streams; `threw` when any step throws. */
    method RunOneStage(command: seq<string>, launch: Launch) returns (threw: bool)
      modifies this
      ensures var r := RunStage(command, launch);
        threw == r.threw && output == old(output) + r.out && errorOutput == old(errorOutput) + r.err &&
        trace == old(trace) + r.events &&
        runningProcess == (if launch.Started? then Some(Process(command)) else old(runningProcess))
      ensures protXMLFile == old(protXMLFile) && excelFile == old(excelFile)
    {
      if launch.StartFailure? {
        trace := trace + [StartFailed(command)];
        return true;
      }
      runningProcess := Some(Process(command));
      ghost var t0 := trace;
      trace := trace + [Launched(command)];
      var o, e := launch.stdout, launch.stderr;
      threw := DrainOutput(o);
      if threw {
        JoinThree(t0, [Launched(command)], OutEvents(o.lines), [ReadFailed]);
        return;
      }
      threw := DrainErrorOutput(e);
      ghost var tail: seq<Event> := if e.broken then [ReadFailed] else [];
      JoinFour(t0, [Launched(command)], OutEvents(o.lines), ErrEvents(e.lines), tail);
    }

    /** `run()`: both stages, then the report paths; an `IOException` anywhere clears them. */
    method Run(launcher: Launcher)
      modifies this
      ensures State() == RunSpec(old(State()), launcher, Stage1(), Stage2(), executionDirectory)
    {
      var threw := RunOneStage(Stage1(), launcher(Stage1()));
      if !threw {
        runningProcess := None;
        trace := trace + [Released];
        threw := RunOneStage(Stage2(), launcher(Stage2()));
      }
      if threw {
        protXMLFile := None;
        excelFile := None;
      } else {
        protXMLFile := Some(executionDirectory + Separator + ProtXMLName);
        excelFile := Some(executionDirectory + Separator + ExcelName);
      }
    }
  }

  // ---------------------------------------------------------------------
  // Properties of run()
  // ---------------------------------------------------------------------

  /** The two lists are only appended to. */
  lemma OutputsOnlyGrow(s: RunState, launcher: Launcher, c1: seq<string>, c2: seq<string>, dir: string)
    ensures var r := RunSpec(s, launcher, c1, c2, dir);
      |s.output| <= |r.output| && r.output[..|s.output|] == s.output &&
      |s.errorOutput| <= |r.errorOutput| && r.errorOutput[..|s.errorOutput|] == s.errorOutput &&
      |s.trace| <= |r.trace| && r.trace[..|s.trace|] == s.trace
  {
    var r := RunSpec(s, launcher, c1, c2, dir);
    assert r.output == s.output + r.output[|s.output|..];
    assert r.errorOutput == s.errorOutput + r.errorOutput[|s.errorOutput|..];
    assert r.trace == s.trace + r.trace[|s.trace|..];
  }

  /**
   * The report paths are set exactly when both stages start and read both
   * streams to their end, and then they name the report files in the
   * working directory, the protXML one being ProteinProphet's output
   * argument; otherwise both are null.
   */
  lemma PathsSetExactlyOnSuccess(s: RunState, launcher: Launcher, c1: seq<string>, c2: seq<string>, dir: string,
                                 execProteinProphet: string, peptideProb: Option<string>)
    requires c2 == Stage2Command(execProteinProphet, dir, peptideProb)
    ensures var r := RunSpec(s, launcher, c1, c2, dir);
      (r.protXMLFile.Some? <==> Clean(launcher(c1)) && Clean(launcher(c2))) &&
      (r.excelFile.Some? <==> r.protXMLFile.Some?) &&
      (r.protXMLFile.Some? ==> r.protXMLFile.value == c2[2] && r.excelFile.value == dir + Separator + ExcelName)
  {
  }

  /** Which streams a stage reads: standard output fully, then standard error unless output broke. */
  lemma StageReads(command: seq<string>, launch: Launch)
    ensures var r := RunStage(command, launch);
      (launch.StartFailure? ==> r.out == [] && r.err == [] && r.threw) &&
      (launch.Started? ==> (r.out == launch.stdout.lines &&
        r.err == (if launch.stdout.broken then [] else launch.stderr.lines))) &&
      (r.threw <==> !Clean(launch))
  {
  }

  /** Events that launch a process. */
  function Launches(es: seq<Event>): (ls: seq<seq<string>>)
    decreases |es|
  {
    if es == [] then []
    else Launches(es[..|es| - 1]) + (if IsLaunch(es[|es| - 1]) then [es[|es| - 1].command] else [])
  }

  lemma {:induction false} LaunchesAppend(a: seq<Event>, b: seq<Event>)
    ensures Launches(a + b) == Launches(a) + Launches(b)
    decreases |b|
  {
    if b == [] {
      assert a + b == a;
    } else {
      assert (a + b)[..|a + b| - 1] == a + b[..|b| - 1];
      LaunchesAppend(a, b[..|b| - 1]);
    }
  }

  lemma {:induction false} NoLaunchInLines(lines: seq<string>)
    ensures Launches(OutEvents(lines)) == [] && Launches(ErrEvents(lines)) == []
    decreases |lines|
  {
    if lines != [] {
      var init := lines[..|lines| - 1];
      NoLaunchInLines(init);
      assert OutEvents(lines)[..|lines| - 1] == OutEvents(init);
      assert ErrEvents(lines)[..|lines| - 1] == ErrEvents(init);
    }
  }

  /** A stage tries to start exactly one process: its own. */
  lemma StageLaunchesOnce(command: seq<string>, launch: Launch)
    ensures Launches(RunStage(command, launch).events) == [command]
  {
    match launch
    case StartFailure =>
      assert Launches([StartFailed(command)]) == Launches([]) + [command];
    case Started(o, e) =>
      NoLaunchInLines(o.lines);
      NoLaunchInLines(e.lines);
      assert Launches([Launched(command)]) == Launches([]) + [command];
      assert Launches([ReadFailed]) == Launches([]) + [];
      var none: seq<Event> := [];
      assert Launches(none) == [];
      LaunchesAppend([Launched(command)], OutEvents(o.lines));
      if o.broken {
        LaunchesAppend([Launched(command)] + OutEvents(o.lines), [ReadFailed]);
      } else {
        LaunchesAppend([Launched(command)], OutEvents(o.lines));
        LaunchesAppend([Launched(command)] + OutEvents(o.lines), ErrEvents(e.lines));
        var tail: seq<Event> := if e.broken then [ReadFailed] else [];
        assert Launches(tail) == [];
        LaunchesAppend([Launched(command)] + OutEvents(o.lines) + ErrEvents(e.lines), tail);
      }
  }

  /**
   * xinteract is always tried first; ProteinProphet is tried after it,
   * and only when xinteract ran without an `IOException`.
   */
  lemma StagesInOrder(s: RunState, launcher: Launcher, c1: seq<string>, c2: seq<string>, dir: string)
    ensures var r := RunSpec(s, launcher, c1, c2, dir);
      Launches(r.trace[|s.trace|..]) == if Clean(launcher(c1)) then [c1, c2] else [c1]
  {
    var r := RunSpec(s, launcher, c1, c2, dir);
    var r1 := RunStage(c1, launcher(c1));
    StageLaunchesOnce(c1, launcher(c1));
    if r1.threw {
      assert r.trace[|s.trace|..] == r1.events;
    } else {
      var r2 := RunStage(c2, launcher(c2));
      StageLaunchesOnce(c2, launcher(c2));
      assert r.trace[|s.trace|..] == r1.events + [Released] + r2.events;
      LaunchesAppend(r1.events, [Released]);
      assert Launches([Released]) == Launches([]) + [];
      LaunchesAppend(r1.events + [Released], r2.events);
    }
  }

  /**
   * Within a stage, every standard-output line is copied before any
   * standard-error line.
   */
  predicate OutBeforeErr(es: seq<Event>) {
    forall i, j | 0 <= i < j < |es| :: !(es[i].ErrLine? && es[j].OutLine?)
  }

  lemma StageOutBeforeErr(command: seq<string>, launch: Launch)
    ensures OutBeforeErr(RunStage(command, launch).events)
  {
    match launch
    case StartFailure =>
    case Started(o, e) =>
      var es := RunStage(command, launch).events;
      var k := 1 + |o.lines|;
      assert forall i | 0 <= i < k :: !es[i].ErrLine?;
      assert forall j | k <= j < |es| :: !es[j].OutLine?;
  }

  /**
   * Over the whole run, standard-output lines follow standard-error
   * lines only across a `runningProcess = null` reset, that is, only
   * when stage 2's output follows stage 1's errors.
   */
  lemma RunOutBeforeErrPerStage(s: RunState, launcher: Launcher, c1: seq<string>, c2: seq<string>, dir: string)
    ensures var r := RunSpec(s, launcher, c1, c2, dir);
      var es := r.trace[|s.trace|..];
      forall i, j | 0 <= i < j < |es| && es[i].ErrLine? && es[j].OutLine? ::
        exists k | i < k < j :: es[k] == Released && es[k + 1] == Launched(c2)
  {
    var r := RunSpec(s, launcher, c1, c2, dir);
    var es := r.trace[|s.trace|..];
    var r1 := RunStage(c1, launcher(c1));
    StageOutBeforeErr(c1, launcher(c1));
    if !r1.threw {
      var r2 := RunStage(c2, launcher(c2));
      StageOutBeforeErr(c2, launcher(c2));
      assert es == r1.events + [Released] + r2.events;
      var m := |r1.events|;
      forall i, j | 0 <= i < j < |es| && es[i].ErrLine? && es[j].OutLine?
        ensures exists k | i < k < j :: es[k] == Released && es[k + 1] == Launched(c2)
      {
        if j < m {
          assert false;
        } else if i > m {
          assert false;
        } else {
          assert i < m < j;
          assert es[m] == Released;
          assert launcher(c2).Started? by {
            if launcher(c2).StartFailure? {
              assert false;
            }
          }
          assert es[m + 1] == r2.events[0] == Launched(c2);
        }
      }
    } else {
      assert es == r1.events;
    }
  }

  /** A stage's first event is its launch attempt, and no later event is one. */
  lemma StageStartsWithLaunch(command: seq<string>, launch: Launch)
    ensures var es := RunStage(command, launch).events;
      |es| > 0 && IsLaunch(es[0]) && es[0].command == command &&
      forall k | 0 < k < |es| :: !IsLaunch(es[k])
  {
  }

  /**
   * ProteinProphet is started only right after `runningProcess` has been
   * reset to null.
   */
  lemma ReleasedBeforeStage2(s: RunState, launcher: Launcher, c1: seq<string>, c2: seq<string>, dir: string)
    requires c1 != c2
    ensures var r := RunSpec(s, launcher, c1, c2, dir);
      var es := r.trace[|s.trace|..];
      forall k | 0 <= k < |es| && IsLaunch(es[k]) && es[k].command == c2 :: 0 < k && es[k - 1] == Released
  {
    var r := RunSpec(s, launcher, c1, c2, dir);
    var es := r.trace[|s.trace|..];
    var r1 := RunStage(c1, launcher(c1));
    StageStartsWithLaunch(c1, launcher(c1));
    if r1.threw {
      assert es == r1.events;
    } else {
      var r2 := RunStage(c2, launcher(c2));
      StageStartsWithLaunch(c2, launcher(c2));
      var m := |r1.events|;
      assert es == r1.events + [Released] + r2.events;
      forall k | 0 <= k < |es| && IsLaunch(es[k]) && es[k].command == c2
        ensures 0 < k && es[k - 1] == Released
      {
        if k < m {
          assert false;
        } else if k > m + 1 {
          assert false;
        }
      }
    }
  }

  /**
   * `runningProcess` refers to stage 1's process until stage 1 has been
   * drained; it is reset before stage 2 starts, so after a stage-2 start
   * failure it is null.
   */
  lemma RunningProcessAfterRun(s: RunState, launcher: Launcher, c1: seq<string>, c2: seq<string>, dir: string)
    ensures var r := RunSpec(s, launcher, c1, c2, dir);
      (!Clean(launcher(c1)) ==> r.runningProcess == if launcher(c1).Started? then Some(Process(c1)) else s.runningProcess) &&
      (Clean(launcher(c1)) ==> r.runningProcess == if launcher(c2).Started? then Some(Process(c2)) else None)
  {
  }

  // ---------------------------------------------------------------------
  // Proof helpers: regrouping concatenations for the solver
  // ---------------------------------------------------------------------

  lemma JoinThree(t: seq<Event>, a: seq<Event>, b: seq<Event>, c: seq<Event>)
    ensures t + a + b + c == t + (a + b + c)
  {
  }

  lemma JoinFour(t: seq<Event>, a: seq<Event>, b: seq<Event>, c: seq<Event>, d: seq<Event>)
    ensures t + a + b + c + d == t + (a + b + c + d)
  {
  }
}
