/**
 * `ProteinProphetNodeModel.execute`: creates a working directory, copies
 * and corrects the pepXML inputs into it, runs the two external stages
 * and turns the report paths into the node's two output ports, or fails
 * with the captured output marked as failed.
 */
module NodeModel {
  import opened Wrappers
  import opened Text
  import opened Enzymes
  import opened FileStore
  import opened Sanitiser
  import opened Workspace
  import opened Runnable

  /** Why `execute` throws. */
  datatype JobError =
    | NoWorkingDirectory            // every supplied draw named an existing path
    | InputFileError(error: IoError) // from `checkInputFile`
    | ExecutionFailed               // "Error while executing ProteinProphet."
    | NullExcelPath                 // `new File(null)` on a missing xls path

  /** The two output ports: the protXML files and the xls files. */
  datatype Ports = Ports(protXML: seq<string>, xls: seq<string>)

  /** Which of the node's two ways of publishing the external output was used. */
  datatype Report =
    | NoReport
    | Reported(output: seq<string>, errorOutput: seq<string>)
    | ReportedFailed(output: seq<string>, errorOutput: seq<string>)

  datatype Job = Job(result: Result<Ports, JobError>, report: Report)

  /** The FASTA file: the first file of the second port, or null when it has none. */
  function FirstFile(files: seq<string>): Option<string> {
    if files == [] then None else Some(files[0])
  }

  /** The loop over the second port that keeps its first file and breaks. */
  method FastaFile(files: seq<string>) returns (fastaFile: Option<string>)
    ensures fastaFile.Some? <==> files != []
    ensures fastaFile.Some? ==> fastaFile.value == files[0]
    ensures fastaFile == FirstFile(files)
  {
    fastaFile := None;
    for i := 0 to |files|
      invariant i == 0 && fastaFile == None
    {
      fastaFile := Some(files[i]);
      break;
    }
  }

  /**
   * The end of `execute`: success, with one protXML and one xls entry,
   * needs a non-null protXML path naming an existing file; otherwise the
   * output is published as failed output.
   */
  function Verdict(protXMLFile: Option<string>, excelFile: Option<string>, present: set<string>,
                   output: seq<string>, errorOutput: seq<string>): Job
  {
    if protXMLFile.Some? && protXMLFile.value in present then
      if excelFile.None? then Job(Err(NullExcelPath), NoReport)
      else Job(Ok(Ports([protXMLFile.value], [excelFile.value])), Reported(output, errorOutput))
    else Job(Err(ExecutionFailed), ReportedFailed(output, errorOutput))
  }

  /** Success exactly when the protXML path is non-null and exists (and the xls path is set). */
  lemma VerdictCases(protXMLFile: Option<string>, excelFile: Option<string>, present: set<string>,
                     output: seq<string>, errorOutput: seq<string>)
    ensures var j := Verdict(protXMLFile, excelFile, present, output, errorOutput);
      (j.result.Ok? <==> protXMLFile.Some? && protXMLFile.value in present && excelFile.Some?) &&
      (j.result.Ok? ==> j.result.value == Ports([protXMLFile.value], [excelFile.value]) &&
                        j.report == Reported(output, errorOutput)) &&
      (j.result == Err(ExecutionFailed) <==> !(protXMLFile.Some? && protXMLFile.value in present)) &&
      (j.result == Err(ExecutionFailed) ==> j.report == ReportedFailed(output, errorOutput))
  {
  }

  /** The state of a freshly constructed runnable whose lists are empty. */
  const FreshRun: RunState := RunState([], [], None, None, None, [])

  /** `dirs` after `mkdirs(dir)`. */
  function DirsAfterMakeDirs(files: map<string, string>, dirs: set<string>, dir: string): set<string> {
    if forall d | d in MakeDirsTargets(dir) :: d !in files then dirs + MakeDirsTargets(dir) else dirs
  }

  /** The two command lines for the sanitised inputs. */
  function Commands(dir: string, names: seq<string>, fastaFiles: seq<string>, enzyme: Option<string>,
                    decoyPrefix: Option<string>, threads: int, peptideProb: Option<string>,
                    execXinteract: string, execProteinProphet: string): (seq<string>, seq<string>)
  {
    (Stage1Command(execXinteract, FirstFile(fastaFiles), enzyme, decoyPrefix, threads, dir, names),
     Stage2Command(execProteinProphet, dir, peptideProb))
  }

  /** After the inputs are copied: the run and its verdict. */
  function RunAndJudge(dir: string, names: seq<string>, fastaFiles: seq<string>, enzyme: Option<string>,
                       decoyPrefix: Option<string>, threads: int, peptideProb: Option<string>,
                       execXinteract: string, execProteinProphet: string, launcher: Launcher,
                       present: set<string>): Job
  {
    var cs := Commands(dir, names, fastaFiles, enzyme, decoyPrefix, threads, peptideProb, execXinteract, execProteinProphet);
    var r := RunSpec(FreshRun, launcher, cs.0, cs.1, dir);
    Verdict(r.protXMLFile, r.excelFile, present, r.output, r.errorOutput)
  }

  /** What `execute` ends with once the working directory `dir` exists. */
  function AfterWorkingDir(files: map<string, string>, dirs: set<string>, dir: string,
                           inputFiles: seq<string>, fastaFiles: seq<string>, enzymeName: string,
                           decoyPrefix: Option<string>, threads: int, peptideProb: Option<string>,
                           execXinteract: string, execProteinProphet: string, launcher: Launcher,
                           produced: set<string>): Job
  {
    var enzyme := EnzymeShort(enzymeName);
    var b := SanitiseAll(files, dirs, inputFiles, enzyme, dir);
    if b.error.Some? then Job(Err(InputFileError(b.error.value)), NoReport)
    else RunAndJudge(dir, b.names, fastaFiles, enzyme, decoyPrefix, threads, peptideProb,
                     execXinteract, execProteinProphet, launcher, b.files.Keys + dirs + produced)
  }

  /** What `execute` ends with, from the store before it and its settings. */
  function ExecuteSpec(files: map<string, string>, dirs: set<string>, tmpRoot: string, draws: seq<Draw>,
                       inputFiles: seq<string>, fastaFiles: seq<string>, enzymeName: string,
                       decoyPrefix: Option<string>, threads: int, peptideProb: Option<string>,
                       execXinteract: string, execProteinProphet: string, launcher: Launcher,
                       produced: set<string>): Job
  {
    var dir := FreeName(files, dirs, tmpRoot, draws);
    if dir.None? then Job(Err(NoWorkingDirectory), NoReport)
    else AfterWorkingDir(files, DirsAfterMakeDirs(files, dirs, dir.value), dir.value, inputFiles, fastaFiles,
                         enzymeName, decoyPrefix, threads, peptideProb, execXinteract, execProteinProphet,
                         launcher, produced)
  }

  /**
   * `execute`. The input URIs arrive as absolute paths; the external
   * programs' effects on the file system are the paths in `produced`.
   */
  method Execute(store: Store, tmpRoot: string, draws: seq<Draw>, inputFiles: seq<string>, fastaFiles: seq<string>,
                 enzymeName: string, decoyPrefix: Option<string>, threads: int, peptideProb: Option<string>,
                 execXinteract: string, execProteinProphet: string, launcher: Launcher, produced: set<string>)
    returns (job: Job)
    modifies store
    ensures job == ExecuteSpec(old(store.files), old(store.dirs), tmpRoot, draws, inputFiles, fastaFiles, enzymeName,
                               decoyPrefix, threads, peptideProb, execXinteract, execProteinProphet, launcher, produced)
  {
    var dir := CreateWorkingDir(store, tmpRoot, draws);
    if dir.None? {
      return Job(Err(NoWorkingDirectory), NoReport);
    }
    job := ExecuteIn(store, dir.value, inputFiles, fastaFiles, enzymeName, decoyPrefix, threads, peptideProb,
                     execXinteract, execProteinProphet, launcher, produced);
  }

  /** `execute` from the FASTA lookup on, in the working directory `dir`. */
  method ExecuteIn(store: Store, dir: string, inputFiles: seq<string>, fastaFiles: seq<string>,
                   enzymeName: string, decoyPrefix: Option<string>, threads: int, peptideProb: Option<string>,
                   execXinteract: string, execProteinProphet: string, launcher: Launcher, produced: set<string>)
    returns (job: Job)
    modifies store
    ensures job == AfterWorkingDir(old(store.files), old(store.dirs), dir, inputFiles, fastaFiles, enzymeName,
                                   decoyPrefix, threads, peptideProb, execXinteract, execProteinProphet, launcher, produced)
  {
    var fastaFile := FastaFile(fastaFiles);
    var enzyme := EnzymeShort(enzymeName);
    var names, error := PrepareInputs(store, inputFiles, enzyme, dir);
    if error.Some? {
      return Job(Err(InputFileError(error.value)), NoReport);
    }
    job := RunJob(dir, names, fastaFile, fastaFiles, enzyme, decoyPrefix, threads, peptideProb,
                  execXinteract, execProteinProphet, launcher, store.files.Keys + store.dirs + produced);
  }

  /** The input list gathered into a mutable list, then each entry sanitised in place. */
  method PrepareInputs(store: Store, inputFiles: seq<string>, enzyme: Option<string>, dir: string)
    returns (names: seq<string>, error: Option<IoError>)
    modifies store
    ensures store.dirs == old(store.dirs)
    ensures Batch(names, store.files, error) == SanitiseAll(old(store.files), store.dirs, inputFiles, enzyme, dir)
  {
    var inputs := new string[|inputFiles|](i requires 0 <= i < |inputFiles| => inputFiles[i]);
    assert inputs[..] == inputFiles;
    error := SanitiseInputs(store, inputs, enzyme, dir);
    names := inputs[..];
  }

  /**
   * The runnable built, run on this thread, and judged; `present` is what
   * `Files.exists` sees afterwards.
   */
  method RunJob(dir: string, names: seq<string>, fastaFile: Option<string>, ghost fastaFiles: seq<string>,
                enzyme: Option<string>, decoyPrefix: Option<string>, threads: int, peptideProb: Option<string>,
                execXinteract: string, execProteinProphet: string, launcher: Launcher, present: set<string>)
    returns (job: Job)
    requires fastaFile == FirstFile(fastaFiles)
    ensures job == RunAndJudge(dir, names, fastaFiles, enzyme, decoyPrefix, threads, peptideProb,
                               execXinteract, execProteinProphet, launcher, present)
  {
    var runner := new ProteinProphetRunner(names, fastaFile, enzyme, peptideProb, decoyPrefix, threads,
                                           execXinteract, execProteinProphet, dir, [], []);
    runner.Run(launcher);
    job := Verdict(runner.protXMLFile, runner.excelFile, present, runner.output, runner.errorOutput);
  }

  // ---------------------------------------------------------------------
  // Properties of execute
  // ---------------------------------------------------------------------

  /** The runnable never leaves the xls path null beside a protXML path. */
  lemma NoNullExcelPath(dir: string, names: seq<string>, fastaFiles: seq<string>, enzyme: Option<string>,
                        decoyPrefix: Option<string>, threads: int, peptideProb: Option<string>,
                        execXinteract: string, execProteinProphet: string, launcher: Launcher, present: set<string>)
    ensures var j := RunAndJudge(dir, names, fastaFiles, enzyme, decoyPrefix, threads, peptideProb,
                                 execXinteract, execProteinProphet, launcher, present);
      j.result != Err(NullExcelPath) && j.report != NoReport
  {
    var cs := Commands(dir, names, fastaFiles, enzyme, decoyPrefix, threads, peptideProb, execXinteract, execProteinProphet);
    PathsSetExactlyOnSuccess(FreshRun, launcher, cs.0, cs.1, dir, execProteinProphet, peptideProb);
  }

  /**
   * After the copies, the job succeeds exactly when both stages run
   * cleanly and ProteinProphet's report exists; it then offers that
   * report and the xls file in the working directory, and publishes the
   * output; otherwise the output is published as failed.
   */
  lemma RunAndJudgeCases(dir: string, names: seq<string>, fastaFiles: seq<string>, enzyme: Option<string>,
                         decoyPrefix: Option<string>, threads: int, peptideProb: Option<string>,
                         execXinteract: string, execProteinProphet: string, launcher: Launcher, present: set<string>)
    ensures var cs := Commands(dir, names, fastaFiles, enzyme, decoyPrefix, threads, peptideProb, execXinteract, execProteinProphet);
      var j := RunAndJudge(dir, names, fastaFiles, enzyme, decoyPrefix, threads, peptideProb,
                           execXinteract, execProteinProphet, launcher, present);
      var report := dir + Separator + ProtXMLName;
      (j.result.Ok? <==> Clean(launcher(cs.0)) && Clean(launcher(cs.1)) && report in present) &&
      (j.result.Ok? ==> j.result.value == Ports([report], [dir + Separator + ExcelName]) && j.report.Reported?) &&
      (j.result.Err? ==> j.result == Err(ExecutionFailed) && j.report.ReportedFailed?)
  {
    var cs := Commands(dir, names, fastaFiles, enzyme, decoyPrefix, threads, peptideProb, execXinteract, execProteinProphet);
    PathsSetExactlyOnSuccess(FreshRun, launcher, cs.0, cs.1, dir, execProteinProphet, peptideProb);
    var r := RunSpec(FreshRun, launcher, cs.0, cs.1, dir);
    VerdictCases(r.protXMLFile, r.excelFile, present, r.output, r.errorOutput);
  }

  /** xinteract is given the copies, in the order of the input list, after its nine fixed arguments. */
  lemma XinteractGetsCopies(files: map<string, string>, dirs: set<string>, inputFiles: seq<string>,
                            enzyme: Option<string>, dir: string, fastaFiles: seq<string>, decoyPrefix: Option<string>,
                            threads: int, peptideProb: Option<string>, execXinteract: string, execProteinProphet: string)
    requires forall i | 0 <= i < |inputFiles| :: inputFiles[i] in files && Writable(dirs, dir, BaseName(inputFiles[i]))
    ensures var b := SanitiseAll(files, dirs, inputFiles, enzyme, dir);
      var c1 := Commands(dir, b.names, fastaFiles, enzyme, decoyPrefix, threads, peptideProb,
                         execXinteract, execProteinProphet).0;
      b.error.None? && |c1| == 9 + |inputFiles| &&
      forall i | 0 <= i < |inputFiles| :: c1[9 + i] == SanitisedPath(dir, inputFiles[i])
  {
    var b := SanitiseAll(files, dirs, inputFiles, enzyme, dir);
    SanitiseAllSucceeds(files, dirs, inputFiles, enzyme, dir);
    Stage1Arguments(execXinteract, FirstFile(fastaFiles), enzyme, decoyPrefix, threads, dir, b.names);
  }
}
