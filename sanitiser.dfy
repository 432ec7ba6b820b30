/**
 * `checkInputFile` and the loop over the input list that calls it: each
 * pepXML input is read twice, once to see whether it already declares a
 * `<sample_enzyme`, then line by line into a copy in the working
 * directory where every line is passed through the search-engine rewrite
 * and, when the input declares no enzyme, the enzyme block is inserted
 * after every line carrying `<msms_run_summary`.
 */
module Sanitiser {
  import opened Wrappers
  import opened Text
  import opened Lines
  import opened Enzymes
  import opened SearchEngine
  import opened FileStore

  const EnzymeMarker: string := "<sample_enzyme"
  const RunSummaryMarker: string := "<msms_run_summary"

  /** Some line declares an enzyme: what the pre-check pass looks for. */
  predicate HasEnzyme(lines: seq<string>) {
    exists i | 0 <= i < |lines| :: Contains(lines[i], EnzymeMarker)
  }

  /** The pre-check pass over the input's lines. */
  method PreScan(lines: seq<string>) returns (containsEnzyme: bool)
    ensures containsEnzyme <==> HasEnzyme(lines)
  {
    containsEnzyme := false;
    var i := 0;
    while i < |lines|
      invariant 0 <= i <= |lines|
      invariant containsEnzyme <==> HasEnzyme(lines[..i])
    {
      assert lines[..i + 1][i] == lines[i];
      assert forall k | 0 <= k < i :: lines[..i + 1][k] == lines[..i][k];
      if Contains(lines[i], EnzymeMarker) {
        containsEnzyme := true;
      }
      i := i + 1;
    }
    assert lines[..i] == lines;
  }

  // ---------------------------------------------------------------------
  // The copy pass
  // ---------------------------------------------------------------------

  /** Each line through the search-engine rewrite. */
  function Rewritten(lines: seq<string>): seq<string>
    decreases |lines|
  {
    if lines == [] then [] else Rewritten(lines[..|lines| - 1]) + [RewriteLine(lines[|lines| - 1])]
  }

  /** After writing this line, the copy pass appends the enzyme block. */
  predicate InjectsAfter(written: string, containsEnzyme: bool) {
    !containsEnzyme && Contains(written, RunSummaryMarker)
  }

  /** The written lines with `block` inserted after each one that calls for it. */
  function Inject(written: seq<string>, containsEnzyme: bool, block: seq<string>): seq<string>
    decreases |written|
  {
    if written == [] then []
    else
      var last := written[|written| - 1];
      Inject(written[..|written| - 1], containsEnzyme, block) +
      ([last] + (if InjectsAfter(last, containsEnzyme) then block else []))
  }

  /** The text the copy pass writes for an input text. */
  function CopyText(content: string, containsEnzyme: bool, enzyme: Option<string>): string {
    Render(Inject(Rewritten(ReadLines(content)), containsEnzyme, EnzymeTagLines(enzyme)))
  }

  /** The copy pass: each line is rewritten and written, then the block if it is due. */
  method CopyLines(lines: seq<string>, containsEnzyme: bool, enzyme: Option<string>) returns (out: string)
    ensures out == Render(Inject(Rewritten(lines), containsEnzyme, EnzymeTagLines(enzyme)))
  {
    out := "";
    var i := 0;
    while i < |lines|
      invariant 0 <= i <= |lines|
      invariant out == Render(Inject(Rewritten(lines[..i]), containsEnzyme, EnzymeTagLines(enzyme)))
    {
      CopyStep(lines, i, containsEnzyme, enzyme);
      var line := RewriteLine(lines[i]);
      out := out + line + "\n";
      if !containsEnzyme && Contains(line, RunSummaryMarker) {
        out := out + EnzymeTag(enzyme) + "\n";
      }
      i := i + 1;
    }
    assert lines[..i] == lines;
  }

  /** One more input line adds its rewrite and "\n", then the block with its "\n" when the line calls for it. */
  lemma CopyStep(lines: seq<string>, i: nat, containsEnzyme: bool, enzyme: Option<string>)
    requires i < |lines|
    ensures var before := Render(Inject(Rewritten(lines[..i]), containsEnzyme, EnzymeTagLines(enzyme)));
      var line := RewriteLine(lines[i]);
      Render(Inject(Rewritten(lines[..i + 1]), containsEnzyme, EnzymeTagLines(enzyme))) ==
        if !containsEnzyme && Contains(line, RunSummaryMarker) then before + line + "\n" + EnzymeTag(enzyme) + "\n"
        else before + line + "\n"
  {
    EnzymeTagRendered(enzyme);
    RewrittenSnoc(lines, i);
    RenderInjectSnoc(Rewritten(lines[..i]), RewriteLine(lines[i]), containsEnzyme, EnzymeTagLines(enzyme), EnzymeTag(enzyme));
  }


  lemma RewrittenSnoc(lines: seq<string>, i: nat)
    requires i < |lines|
    ensures Rewritten(lines[..i + 1]) == Rewritten(lines[..i]) + [RewriteLine(lines[i])]
  {
    assert lines[..i + 1][..i] == lines[..i];
  }

  lemma InjectSnoc(written: seq<string>, x: string, containsEnzyme: bool, block: seq<string>)
    ensures Inject(written + [x], containsEnzyme, block) ==
      Inject(written, containsEnzyme, block) + ([x] + (if InjectsAfter(x, containsEnzyme) then block else []))
  {
    assert (written + [x])[..|written|] == written;
  }

  /** Writing one more line appends it, and the block's text when it is due. */
  lemma RenderInjectSnoc(written: seq<string>, x: string, containsEnzyme: bool, block: seq<string>, tag: string)
    requires Render(block) == tag + "\n"
    ensures Render(Inject(written + [x], containsEnzyme, block)) ==
      if InjectsAfter(x, containsEnzyme) then Render(Inject(written, containsEnzyme, block)) + x + "\n" + tag + "\n"
      else Render(Inject(written, containsEnzyme, block)) + x + "\n"
  {
    var prev := Inject(written, containsEnzyme, block);
    InjectSnoc(written, x, containsEnzyme, block);
    if InjectsAfter(x, containsEnzyme) {
      RenderAppend(prev, [x] + block);
      RenderCons(x, block);
      AppendAssoc(Render(prev), x + "\n", tag + "\n");
    } else {
      assert [x] + [] == [x];
      RenderAppend(prev, [x]);
      RenderOne(x);
    }
  }

  // ---------------------------------------------------------------------
  // One call of checkInputFile
  // ---------------------------------------------------------------------

  /** Why `checkInputFile` throws: a stream that cannot be opened. */
  datatype IoError = FileNotFound(path: string) | CannotWrite(path: string)

  /** Where the copy of an input goes: its last path component in the working directory. */
  function SanitisedPath(tmpDir: string, fileName: string): string {
    tmpDir + Separator + BaseName(fileName)
  }

  /** `new FileWriter(tmpDir + "/" + base)` opens: its directory exists and it names no directory. */
  predicate Writable(dirs: set<string>, tmpDir: string, base: string) {
    tmpDir in dirs && base != [] && tmpDir + Separator + base !in dirs
  }

  /** The call's result together with the files afterwards. */
  datatype Outcome = Outcome(result: Result<string, IoError>, files: map<string, string>)

  /**
   * What one `checkInputFile(fileName, enzyme, tmpDir)` does to the files.
   * The writer truncates its target before the copy pass reads the input,
   * so an input that is its own target is read back empty.
   */
  function Sanitise(files: map<string, string>, dirs: set<string>, fileName: string,
                    enzyme: Option<string>, tmpDir: string): Outcome
  {
    if fileName !in files then Outcome(Err(FileNotFound(fileName)), files)
    else
      var containsEnzyme := HasEnzyme(ReadLines(files[fileName]));
      var path := SanitisedPath(tmpDir, fileName);
      if !Writable(dirs, tmpDir, BaseName(fileName)) then Outcome(Err(CannotWrite(path)), files)
      else
        var truncated := files[path := ""];
        Outcome(Ok(path), files[path := CopyText(truncated[fileName], containsEnzyme, enzyme)])
  }

  /** `checkInputFile` over the file store. */
  method CheckInputFile(store: Store, fileName: string, enzymeShort: Option<string>, tmpDir: string)
    returns (newFilename: Result<string, IoError>)
    modifies store
    ensures store.dirs == old(store.dirs)
    ensures Outcome(newFilename, store.files) == Sanitise(old(store.files), store.dirs, fileName, enzymeShort, tmpDir)
  {
    if fileName !in store.files {
      return Err(FileNotFound(fileName));
    }
    var containsEnzyme := PreScan(ReadLines(store.files[fileName]));
    var path := SanitisedPath(tmpDir, fileName);
    if !(tmpDir in store.dirs && BaseName(fileName) != [] && path !in store.dirs) {
      SanitiseRefused(store.files, store.dirs, fileName, enzymeShort, tmpDir);
      return Err(CannotWrite(path));
    }
    WriteCopy(store, fileName, path, containsEnzyme, enzymeShort);
    SanitiseWritten(old(store.files), store.dirs, fileName, enzymeShort, tmpDir, store.files[path]);
    return Ok(path);
  }

  /** Opening the writer truncates `path`; then the copy pass reads `fileName` and writes the copy there. */
  method WriteCopy(store: Store, fileName: string, path: string, containsEnzyme: bool, enzyme: Option<string>)
    requires fileName in store.files
    modifies store
    ensures store.dirs == old(store.dirs)
    ensures store.files == old(store.files)[path := CopyText(old(store.files)[path := ""][fileName], containsEnzyme, enzyme)]
  {
    store.files := store.files[path := ""];
    var content := store.files[fileName];
    var out := CopyLines(ReadLines(content), containsEnzyme, enzyme);
    assert out == CopyText(content, containsEnzyme, enzyme);
    store.files := store.files[path := out];
  }

  lemma SanitiseRefused(files: map<string, string>, dirs: set<string>, fileName: string,
                        enzyme: Option<string>, tmpDir: string)
    requires fileName in files && !Writable(dirs, tmpDir, BaseName(fileName))
    ensures Sanitise(files, dirs, fileName, enzyme, tmpDir)
         == Outcome(Err(CannotWrite(SanitisedPath(tmpDir, fileName))), files)
  {
  }

  lemma SanitiseWritten(files: map<string, string>, dirs: set<string>, fileName: string,
                        enzyme: Option<string>, tmpDir: string, out: string)
    requires fileName in files && Writable(dirs, tmpDir, BaseName(fileName))
    requires var truncated := files[SanitisedPath(tmpDir, fileName) := ""];
      out == CopyText(truncated[fileName], HasEnzyme(ReadLines(files[fileName])), enzyme)
    ensures Sanitise(files, dirs, fileName, enzyme, tmpDir)
         == Outcome(Ok(SanitisedPath(tmpDir, fileName)), files[SanitisedPath(tmpDir, fileName) := out])
  {
  }

  /** A call whose input exists and whose copy can be opened returns the copy's path and loses no file. */
  lemma SanitiseOk(files: map<string, string>, dirs: set<string>, fileName: string,
                   enzyme: Option<string>, tmpDir: string)
    requires fileName in files && Writable(dirs, tmpDir, BaseName(fileName))
    ensures var o := Sanitise(files, dirs, fileName, enzyme, tmpDir);
      o.result == Ok(SanitisedPath(tmpDir, fileName)) && o.files.Keys == files.Keys + {SanitisedPath(tmpDir, fileName)}
  {
  }

  /** A call changes no file but its copy's path, whether it succeeds or not. */
  lemma SanitiseOthers(files: map<string, string>, dirs: set<string>, fileName: string,
                       enzyme: Option<string>, tmpDir: string, f: string)
    requires f != SanitisedPath(tmpDir, fileName)
    ensures var o := Sanitise(files, dirs, fileName, enzyme, tmpDir);
      (f in o.files <==> f in files) && (f in files ==> o.files[f] == files[f])
  {
  }

  // ---------------------------------------------------------------------
  // Properties of one copy
  // ---------------------------------------------------------------------

  /** Each written line is the rewrite of the input line at the same index. */
  lemma {:induction false} RewrittenLines(lines: seq<string>)
    ensures |Rewritten(lines)| == |lines|
    ensures forall i | 0 <= i < |lines| :: Rewritten(lines)[i] == RewriteLine(lines[i])
    decreases |lines|
  {
    if lines != [] {
      var n := |lines| - 1;
      var init := lines[..n];
      RewrittenLines(init);
      var r := Rewritten(lines);
      assert r == Rewritten(init) + [RewriteLine(lines[n])];
      forall i | 0 <= i < |lines| ensures r[i] == RewriteLine(lines[i]) {
        if i < n {
          assert r[i] == Rewritten(init)[i] && init[i] == lines[i];
        }
      }
    }
  }

  lemma {:induction false} InjectAppend(a: seq<string>, b: seq<string>, containsEnzyme: bool, block: seq<string>)
    ensures Inject(a + b, containsEnzyme, block) == Inject(a, containsEnzyme, block) + Inject(b, containsEnzyme, block)
    decreases |b|
  {
    if b == [] {
      assert a + b == a;
    } else {
      var b0, x := b[..|b| - 1], b[|b| - 1];
      assert a + b == (a + b0) + [x];
      assert b == b0 + [x];
      InjectAppend(a, b0, containsEnzyme, block);
      InjectSnoc(a + b0, x, containsEnzyme, block);
      InjectSnoc(b0, x, containsEnzyme, block);
    }
  }

  /** Lines without breaks stay lines without breaks. */
  lemma {:induction false} InjectNoBreak(written: seq<string>, containsEnzyme: bool, block: seq<string>)
    requires AllNoBreak(written) && AllNoBreak(block)
    ensures AllNoBreak(Inject(written, containsEnzyme, block))
    decreases |written|
  {
    if written != [] {
      InjectNoBreak(written[..|written| - 1], containsEnzyme, block);
    }
  }

  /** How many written lines call for the block. */
  function Injections(written: seq<string>, containsEnzyme: bool): nat
    decreases |written|
  {
    if written == [] then 0
    else Injections(written[..|written| - 1], containsEnzyme) +
         (if InjectsAfter(written[|written| - 1], containsEnzyme) then 1 else 0)
  }

  /** The copy has one line per written line plus one block per run summary that calls for it. */
  lemma {:induction false} InjectLength(written: seq<string>, containsEnzyme: bool, block: seq<string>)
    ensures |Inject(written, containsEnzyme, block)| == |written| + |block| * Injections(written, containsEnzyme)
    ensures containsEnzyme ==> Injections(written, containsEnzyme) == 0
    decreases |written|
  {
    if written != [] {
      var pre, last := written[..|written| - 1], written[|written| - 1];
      InjectLength(pre, containsEnzyme, block);
      var before := Injections(pre, containsEnzyme);
      if InjectsAfter(last, containsEnzyme) {
        assert Inject(written, containsEnzyme, block) == Inject(pre, containsEnzyme, block) + ([last] + block);
        assert Injections(written, containsEnzyme) == before + 1;
        assert |block| * (before + 1) == |block| * before + |block|;
      } else {
        assert Inject(written, containsEnzyme, block) == Inject(pre, containsEnzyme, block) + [last];
        assert Injections(written, containsEnzyme) == before;
      }
    }
  }

  /**
   * Each written line appears in the copy, in order: line `i` comes right
   * after what the lines before it produced.
   */
  lemma InjectKeepsOrder(written: seq<string>, containsEnzyme: bool, block: seq<string>, i: nat)
    requires i < |written|
    ensures var copy := Inject(written, containsEnzyme, block);
      var pre := Inject(written[..i], containsEnzyme, block);
      |pre| < |Inject(written[..i + 1], containsEnzyme, block)| <= |copy| &&
      copy[..|pre|] == pre && copy[|pre|] == written[i]
  {
    var pre := Inject(written[..i], containsEnzyme, block);
    var step := Inject(written[..i + 1], containsEnzyme, block);
    assert written[..i + 1] == written[..i] + [written[i]];
    InjectSnoc(written[..i], written[i], containsEnzyme, block);
    assert written == written[..i + 1] + written[i + 1..];
    InjectAppend(written[..i + 1], written[i + 1..], containsEnzyme, block);
    var copy := Inject(written, containsEnzyme, block);
    assert copy[..|step|] == step;
    assert step[..|pre|] == pre;
  }

  /** Read back line by line, the copy holds exactly the lines written. */
  lemma CopyReadsBack(content: string, containsEnzyme: bool, enzyme: Option<string>)
    ensures ReadLines(CopyText(content, containsEnzyme, enzyme))
         == Inject(Rewritten(ReadLines(content)), containsEnzyme, EnzymeTagLines(enzyme))
  {
    var lines := ReadLines(content);
    ReadLinesNoBreak(content);
    RewrittenLines(lines);
    forall i | 0 <= i < |lines| ensures NoBreak(Rewritten(lines)[i]) {
      RewriteKeepsNoBreak(lines[i]);
    }
    EnzymeTagRendered(enzyme);
    InjectNoBreak(Rewritten(lines), containsEnzyme, EnzymeTagLines(enzyme));
    ReadRender(Inject(Rewritten(lines), containsEnzyme, EnzymeTagLines(enzyme)));
  }

  /** Where nothing calls for the block, nothing is inserted. */
  lemma {:induction false} InjectNothing(written: seq<string>, containsEnzyme: bool, block: seq<string>)
    requires forall i | 0 <= i < |written| :: !InjectsAfter(written[i], containsEnzyme)
    ensures Inject(written, containsEnzyme, block) == written
    decreases |written|
  {
    if written != [] {
      var n := |written| - 1;
      var init := written[..n];
      forall i | 0 <= i < |init| ensures !InjectsAfter(init[i], containsEnzyme) {
        assert init[i] == written[i];
      }
      InjectNothing(init, containsEnzyme, block);
      assert !InjectsAfter(written[n], containsEnzyme);
      assert init + [written[n]] == written;
    }
  }

  /** An input that already declares an enzyme is only rewritten, never extended. */
  lemma DeclaredEnzymeOnlyRewrites(lines: seq<string>, block: seq<string>)
    requires HasEnzyme(lines)
    ensures Inject(Rewritten(lines), HasEnzyme(lines), block) == Rewritten(lines)
  {
    InjectNothing(Rewritten(lines), true, block);
  }

  /**
   * Without a declared enzyme, the block follows each written line that
   * carries `<msms_run_summary`, right after it.
   */
  lemma BlockFollowsRunSummary(written: seq<string>, i: nat, block: seq<string>)
    requires i < |written| && Contains(written[i], RunSummaryMarker)
    ensures Inject(written, false, block) ==
      Inject(written[..i], false, block) + ([written[i]] + block) + Inject(written[i + 1..], false, block)
  {
    var pre, post := written[..i], written[i + 1..];
    assert written == (pre + [written[i]]) + post;
    InjectAppend(pre + [written[i]], post, false, block);
    InjectSnoc(pre, written[i], false, block);
  }

  /**
   * Once the block has been inserted, the copy declares an enzyme, so a
   * second pass over the copy inserts nothing more: it only rewrites.
   */
  lemma SecondPassInsertsNothing(written: seq<string>, i: nat, enzyme: Option<string>)
    requires i < |written| && Contains(written[i], RunSummaryMarker)
    ensures var copy := Inject(written, false, EnzymeTagLines(enzyme));
      HasEnzyme(copy) &&
      Inject(Rewritten(copy), HasEnzyme(copy), EnzymeTagLines(enzyme)) == Rewritten(copy)
  {
    var block := EnzymeTagLines(enzyme);
    BlockFollowsRunSummary(written, i, block);
    var copy := Inject(written, false, block);
    var j := |Inject(written[..i], false, block)| + 1;
    EnzymeTagRendered(enzyme);
    assert copy[j] == block[0];
    DeclaredEnzymeOnlyRewrites(copy, block);
  }

  /** An input that is its own copy target loses its contents: the writer truncates it first. */
  lemma SelfTargetIsEmptied(files: map<string, string>, dirs: set<string>, fileName: string,
                            enzyme: Option<string>, tmpDir: string)
    requires fileName in files && Writable(dirs, tmpDir, BaseName(fileName))
    requires SanitisedPath(tmpDir, fileName) == fileName
    ensures Sanitise(files, dirs, fileName, enzyme, tmpDir) == Outcome(Ok(fileName), files[fileName := ""])
  {
    var has := HasEnzyme(ReadLines(files[fileName]));
    assert ReadLines("") == [];
    assert Inject(Rewritten([]), has, EnzymeTagLines(enzyme)) == [];
  }

  /**
   * A successful copy of an input outside the working directory: only the
   * copy's path changes, and read back it holds the input's lines rewritten,
   * with the block after each run summary when no enzyme was declared.
   */
  lemma SanitiseCopies(files: map<string, string>, dirs: set<string>, fileName: string,
                       enzyme: Option<string>, tmpDir: string)
    requires fileName in files && Writable(dirs, tmpDir, BaseName(fileName))
    requires SanitisedPath(tmpDir, fileName) != fileName
    ensures var o := Sanitise(files, dirs, fileName, enzyme, tmpDir);
      var path := SanitisedPath(tmpDir, fileName);
      var lines := ReadLines(files[fileName]);
      o.result == Ok(path) && path in o.files &&
      (forall f | f != path :: (f in o.files <==> f in files) && (f in files ==> o.files[f] == files[f])) &&
      ReadLines(o.files[path]) == Inject(Rewritten(lines), HasEnzyme(lines), EnzymeTagLines(enzyme))
  {
    var lines := ReadLines(files[fileName]);
    CopyReadsBack(files[fileName], HasEnzyme(lines), enzyme);
  }

  /** The only ways a copy fails, and that nothing is written then. */
  lemma SanitiseFails(files: map<string, string>, dirs: set<string>, fileName: string,
                      enzyme: Option<string>, tmpDir: string)
    ensures var o := Sanitise(files, dirs, fileName, enzyme, tmpDir);
      (o.result == Err(FileNotFound(fileName)) <==> fileName !in files) &&
      (o.result == Err(CannotWrite(SanitisedPath(tmpDir, fileName))) <==>
         fileName in files && !Writable(dirs, tmpDir, BaseName(fileName))) &&
      (o.result.Err? ==> o.files == files)
  {
  }

  // ---------------------------------------------------------------------
  // The loop over the input list
  // ---------------------------------------------------------------------

  /** The input list and files after the loop, and the exception that stopped it. */
  datatype Batch = Batch(names: seq<string>, files: map<string, string>, error: Option<IoError>)

  /** One call in the loop, as a function of the files so far and the input name. */
  type Step = (map<string, string>, string) -> Outcome

  /**
   * The loop over the first `k` inputs in order, each name replaced by the
   * name the call returns; the first failure stops it and leaves the
   * remaining names as they were.
   */
  function FoldTo(files: map<string, string>, names: seq<string>, k: nat, step: Step): (b: Batch)
    requires k <= |names|
    ensures |b.names| == k
    decreases k
  {
    if k == 0 then Batch([], files, None)
    else
      var prev := FoldTo(files, names, k - 1, step);
      var n := names[k - 1];
      if prev.error.Some? then Batch(prev.names + [n], prev.files, prev.error)
      else
        var o := step(prev.files, n);
        match o.result
        case Ok(p) => Batch(prev.names + [p], o.files, None)
        case Err(e) => Batch(prev.names + [n], o.files, Some(e))
  }

  /** The loop over the whole list. */
  function Fold(files: map<string, string>, names: seq<string>, step: Step): (b: Batch)
    ensures |b.names| == |names|
  {
    FoldTo(files, names, |names|, step)
  }

  function SanitiseStep(dirs: set<string>, enzyme: Option<string>, tmpDir: string): Step {
    (files, name) => Sanitise(files, dirs, name, enzyme, tmpDir)
  }

  /** The input-list loop of `execute` with `checkInputFile` as its call. */
  function SanitiseAll(files: map<string, string>, dirs: set<string>, names: seq<string>,
                       enzyme: Option<string>, tmpDir: string): Batch
  {
    Fold(files, names, SanitiseStep(dirs, enzyme, tmpDir))
  }

  /** The loop over a prefix depends on that prefix only. */
  lemma {:induction false} FoldAgree(files: map<string, string>, a: seq<string>, b: seq<string>, k: nat, step: Step)
    requires k <= |a| && k <= |b| && a[..k] == b[..k]
    ensures FoldTo(files, a, k, step) == FoldTo(files, b, k, step)
    decreases k
  {
    if k > 0 {
      assert a[..k - 1] == a[..k][..k - 1] == b[..k][..k - 1] == b[..k - 1];
      assert a[k - 1] == a[..k][k - 1] == b[..k][k - 1] == b[k - 1];
      FoldAgree(files, a, b, k - 1, step);
    }
  }

  /**
   * The loop keeps the list's length and order and replaces entry `i`
   * only by what the call returns for entry `i`, here `target` of it.
   */
  lemma {:induction false} FoldNames(files: map<string, string>, names: seq<string>, k: nat, step: Step,
                                     target: string -> string)
    requires k <= |names|
    requires forall fs: map<string, string>, n: string | step(fs, n).result.Ok? :: step(fs, n).result.value == target(n)
    ensures var b := FoldTo(files, names, k, step);
      forall i | 0 <= i < k :: b.names[i] == names[i] || b.names[i] == target(names[i])
    decreases k
  {
    if k > 0 {
      FoldNames(files, names, k - 1, step, target);
      var prev := FoldTo(files, names, k - 1, step);
      var b := FoldTo(files, names, k, step);
      assert forall i | 0 <= i < k - 1 :: b.names[i] == prev.names[i];
    }
  }

  /** Entry `i` of the input list ends as itself or as the copy path of entry `i`. */
  lemma SanitiseAllNames(files: map<string, string>, dirs: set<string>, names: seq<string>,
                         enzyme: Option<string>, tmpDir: string)
    ensures var b := SanitiseAll(files, dirs, names, enzyme, tmpDir);
      |b.names| == |names| &&
      forall i | 0 <= i < |names| :: b.names[i] == names[i] || b.names[i] == SanitisedPath(tmpDir, names[i])
  {
    var step := SanitiseStep(dirs, enzyme, tmpDir);
    var target := n => SanitisedPath(tmpDir, n);
    forall fs: map<string, string>, n: string | step(fs, n).result.Ok?
      ensures step(fs, n).result.value == target(n)
    {
    }
    FoldNames(files, names, |names|, step, target);
  }

  /** One more input through the loop, after inputs that all succeeded. */
  lemma FoldNext(files: map<string, string>, names: seq<string>, i: nat, step: Step,
                 done: seq<string>, current: map<string, string>, o: Outcome)
    requires i < |names| && FoldTo(files, names, i, step) == Batch(done, current, None)
    requires step(current, names[i]) == o
    ensures FoldTo(files, names, i + 1, step) ==
      match o.result
      case Ok(p) => Batch(done + [p], o.files, None)
      case Err(e) => Batch(done + [names[i]], o.files, Some(e))
  {
  }

  /** A failure within the first `k` inputs carries through to the whole list. */
  lemma {:induction false} ErrorStops(files: map<string, string>, names: seq<string>, k: nat, m: nat, step: Step)
    requires k <= m <= |names| && FoldTo(files, names, k, step).error.Some?
    ensures var pre := FoldTo(files, names, k, step);
      FoldTo(files, names, m, step) == Batch(pre.names + names[k..m], pre.files, pre.error)
    decreases m
  {
    var pre := FoldTo(files, names, k, step);
    if m == k {
      assert pre.names + names[k..m] == pre.names;
    } else {
      ErrorStops(files, names, k, m - 1, step);
      assert pre.names + names[k..m - 1] + [names[m - 1]] == pre.names + names[k..m];
    }
  }

  /** One more input through `SanitiseAll`, when the inputs before it all succeeded. */
  lemma SanitiseAllSnoc(files: map<string, string>, dirs: set<string>, names: seq<string>,
                        enzyme: Option<string>, tmpDir: string)
    requires names != [] && SanitiseAll(files, dirs, names[..|names| - 1], enzyme, tmpDir).error.None?
    ensures var prev := SanitiseAll(files, dirs, names[..|names| - 1], enzyme, tmpDir);
      var last := names[|names| - 1];
      var o := Sanitise(prev.files, dirs, last, enzyme, tmpDir);
      SanitiseAll(files, dirs, names, enzyme, tmpDir) ==
        if o.result.Ok? then Batch(prev.names + [o.result.value], o.files, None)
        else Batch(prev.names + [last], o.files, Some(o.result.error))
  {
    var n := |names| - 1;
    assert names[..n][..n] == names[..n];
    FoldAgree(files, names[..n], names, n, SanitiseStep(dirs, enzyme, tmpDir));
  }

  /** Every call on `n`, whatever the files so far, returns `p` and keeps every file. */
  ghost predicate Succeeds(step: Step, n: string, p: string) {
    forall fs: map<string, string> {:trigger step(fs, n)} | n in fs :: step(fs, n).result == Ok(p) && fs.Keys <= step(fs, n).files.Keys
  }

  /**
   * A loop whose every call succeeds, returning `target` of its name and
   * keeping every file, runs to the end with every name replaced.
   */
  lemma {:induction false} FoldSucceeds(files: map<string, string>, names: seq<string>, k: nat, step: Step,
                                        target: string -> string)
    requires k <= |names|
    requires forall i | 0 <= i < k :: names[i] in files && Succeeds(step, names[i], target(names[i]))
    ensures var b := FoldTo(files, names, k, step);
      b.error.None? && files.Keys <= b.files.Keys &&
      forall i | 0 <= i < k :: b.names[i] == target(names[i])
    decreases k
  {
    if k > 0 {
      FoldSucceeds(files, names, k - 1, step, target);
      var prev := FoldTo(files, names, k - 1, step);
      var n := names[k - 1];
      assert n in prev.files && Succeeds(step, n, target(n));
      var b := FoldTo(files, names, k, step);
      assert b.names == prev.names + [target(n)];
    }
  }

  /**
   * When every input exists and every copy can be opened, the loop runs to
   * the end, each input name is replaced by its copy's path, and no file
   * is lost.
   */
  lemma SanitiseAllSucceeds(files: map<string, string>, dirs: set<string>, names: seq<string>,
                            enzyme: Option<string>, tmpDir: string)
    requires forall i | 0 <= i < |names| :: names[i] in files && Writable(dirs, tmpDir, BaseName(names[i]))
    ensures var b := SanitiseAll(files, dirs, names, enzyme, tmpDir);
      b.error.None? && files.Keys <= b.files.Keys &&
      forall i | 0 <= i < |names| :: b.names[i] == SanitisedPath(tmpDir, names[i])
  {
    var step := SanitiseStep(dirs, enzyme, tmpDir);
    var target := n => SanitisedPath(tmpDir, n);
    forall i | 0 <= i < |names| ensures Succeeds(step, names[i], target(names[i])) {
      forall fs: map<string, string> | names[i] in fs
        ensures step(fs, names[i]).result == Ok(target(names[i])) && fs.Keys <= step(fs, names[i]).files.Keys
      {
        SanitiseOk(fs, dirs, names[i], enzyme, tmpDir);
      }
    }
    FoldSucceeds(files, names, |names|, step, target);
  }

  /** Every call on `n`, whatever the files so far, leaves the file `f` as it was. */
  ghost predicate Keeps(step: Step, n: string, f: string) {
    forall fs: map<string, string> {:trigger step(fs, n)} ::
      (f in step(fs, n).files <==> f in fs) && (f in fs ==> step(fs, n).files[f] == fs[f])
  }

  /** A file that no call touches is left as it was by the loop. */
  lemma {:induction false} FoldKeeps(files: map<string, string>, names: seq<string>, k: nat, step: Step, f: string)
    requires k <= |names|
    requires forall i | 0 <= i < k :: Keeps(step, names[i], f)
    ensures var b := FoldTo(files, names, k, step);
      (f in b.files <==> f in files) && (f in files ==> b.files[f] == files[f])
    decreases k
  {
    if k > 0 {
      FoldKeeps(files, names, k - 1, step, f);
      assert Keeps(step, names[k - 1], f);
    }
  }

  /** `f` is where the copy of one of `names` goes. */
  predicate IsTarget(f: string, tmpDir: string, names: seq<string>) {
    exists i | 0 <= i < |names| :: f == SanitisedPath(tmpDir, names[i])
  }

  /** Files that are the copy target of no input are left as they were, and none appears. */
  lemma SanitiseAllFrame(files: map<string, string>, dirs: set<string>, names: seq<string>,
                         enzyme: Option<string>, tmpDir: string, f: string)
    requires !IsTarget(f, tmpDir, names)
    ensures var b := SanitiseAll(files, dirs, names, enzyme, tmpDir);
      (f in b.files <==> f in files) && (f in files ==> b.files[f] == files[f])
  {
    var step := SanitiseStep(dirs, enzyme, tmpDir);
    forall i | 0 <= i < |names| ensures Keeps(step, names[i], f) {
      forall fs: map<string, string>
        ensures (f in step(fs, names[i]).files <==> f in fs) && (f in fs ==> step(fs, names[i]).files[f] == fs[f])
      {
        SanitiseOthers(fs, dirs, names[i], enzyme, tmpDir, f);
      }
    }
    FoldKeeps(files, names, |names|, step, f);
  }

  /** Every call on `n`, whatever the files so far, writes `copy` of `n`'s text to `t` and nothing else. */
  ghost predicate CopiesTo(step: Step, n: string, t: string, copy: string -> string) {
    forall fs: map<string, string> {:trigger step(fs, n)} | n in fs :: step(fs, n) == Outcome(Ok(t), fs[t := copy(fs[n])])
  }

  /**
   * A loop whose every call writes `copy` of its input's text to the
   * input's `target` and nothing else, with distinct targets none of which
   * is an input: each target ends up holding the copy of its own input's
   * original text, and every other file is as it was.
   */
  lemma {:induction false} FoldCopies(files: map<string, string>, names: seq<string>, k: nat, step: Step,
                                      target: string -> string, copy: string -> string)
    requires k <= |names|
    requires forall i | 0 <= i < k :: names[i] in files && CopiesTo(step, names[i], target(names[i]), copy)
    requires forall i, j | 0 <= i < j < k :: target(names[i]) != target(names[j])
    requires forall i, j | 0 <= i < k && 0 <= j < k :: target(names[i]) != names[j]
    ensures var b := FoldTo(files, names, k, step);
      b.error.None? &&
      (forall g | g in files && (forall i | 0 <= i < k :: g != target(names[i])) ::
         g in b.files && b.files[g] == files[g]) &&
      forall i | 0 <= i < k :: target(names[i]) in b.files && b.files[target(names[i])] == copy(files[names[i]])
    decreases k
  {
    if k > 0 {
      var last := names[k - 1];
      FoldCopies(files, names, k - 1, step, target, copy);
      var prev := FoldTo(files, names, k - 1, step);
      assert forall i | 0 <= i < k - 1 :: target(names[i]) != last;
      assert prev.files[last] == files[last];
      var t := target(last);
      assert step(prev.files, last) == Outcome(Ok(t), prev.files[t := copy(files[last])]) by {
        assert CopiesTo(step, last, t, copy);
      }
      var b := FoldTo(files, names, k, step);
      assert b.error.None? && b.files == prev.files[t := copy(files[last])];
      forall g | g in files && (forall i | 0 <= i < k :: g != target(names[i]))
        ensures g in b.files && b.files[g] == files[g]
      {
        assert g != target(names[k - 1]);
      }
      forall i | 0 <= i < k
        ensures target(names[i]) in b.files && b.files[target(names[i])] == copy(files[names[i]])
      {
        if i < k - 1 {
          assert target(names[i]) != t;
        }
      }
    }
  }

  /**
   * When the copies go to distinct paths none of which is an input, each
   * copy holds the copy pass over its own input's original text.
   */
  lemma SanitiseAllContents(files: map<string, string>, dirs: set<string>, names: seq<string>,
                            enzyme: Option<string>, tmpDir: string)
    requires forall i | 0 <= i < |names| :: names[i] in files && Writable(dirs, tmpDir, BaseName(names[i]))
    requires forall i, j | 0 <= i < j < |names| :: SanitisedPath(tmpDir, names[i]) != SanitisedPath(tmpDir, names[j])
    requires forall i, j | 0 <= i < |names| && 0 <= j < |names| :: SanitisedPath(tmpDir, names[i]) != names[j]
    ensures var b := SanitiseAll(files, dirs, names, enzyme, tmpDir);
      forall i | 0 <= i < |names| ::
        var content := files[names[i]];
        SanitisedPath(tmpDir, names[i]) in b.files &&
        b.files[SanitisedPath(tmpDir, names[i])] == CopyText(content, HasEnzyme(ReadLines(content)), enzyme)
  {
    var step := SanitiseStep(dirs, enzyme, tmpDir);
    var target := n => SanitisedPath(tmpDir, n);
    var copy := c => CopyText(c, HasEnzyme(ReadLines(c)), enzyme);
    forall i | 0 <= i < |names| ensures CopiesTo(step, names[i], target(names[i]), copy) {
      forall fs: map<string, string> | names[i] in fs
        ensures step(fs, names[i]) == Outcome(Ok(target(names[i])), fs[target(names[i]) := copy(fs[names[i]])])
      {
        var path := SanitisedPath(tmpDir, names[i]);
        assert fs[path := ""][names[i]] == fs[names[i]];
        SanitiseWritten(fs, dirs, names[i], enzyme, tmpDir, copy(fs[names[i]]));
      }
    }
    FoldCopies(files, names, |names|, step, target, copy);
  }

  /** Replacing the element at `i` of a list whose suffix from `i` is `names`'s. */
  lemma SliceStep(arr: seq<string>, names: seq<string>, i: nat, x: string)
    requires |arr| == |names| && i < |arr| && arr[i..] == names[i..]
    ensures arr[i := x][..i + 1] == arr[..i] + [x]
    ensures arr[i := x][i + 1..] == names[i + 1..]
    ensures arr[i := x] == arr[..i] + [x] + names[i + 1..]
  {
    assert arr[i + 1..] == arr[i..][1..];
  }

  /**
   * When the call on entry `i` fails, the loop ends with the list as it
   * stands, entry `i` and those after it untouched.
   */
  lemma ErrorEnds(files: map<string, string>, names: seq<string>, i: nat, step: Step,
                  arr: seq<string>, after: map<string, string>, e: IoError)
    requires |arr| == |names| && i < |arr| && arr[i..] == names[i..]
    requires FoldTo(files, names, i + 1, step) == Batch(arr[..i] + [names[i]], after, Some(e))
    ensures Fold(files, names, step) == Batch(arr, after, Some(e))
  {
    ErrorStops(files, names, i + 1, |names|, step);
    assert arr == arr[..i] + arr[i..];
    assert arr[i..] == [names[i]] + names[i + 1..];
  }

  /** A turn of the loop whose call returns a path: entry `i` becomes that path, the rest is untouched. */
  lemma TurnSucceeds(files: map<string, string>, names: seq<string>, i: nat, dirs: set<string>, enzyme: Option<string>, tmpDir: string,
                     arr: seq<string>, current: map<string, string>, o: Outcome, p: string)
    requires |arr| == |names| && i < |arr| && arr[i..] == names[i..]
    requires FoldTo(files, names, i, SanitiseStep(dirs, enzyme, tmpDir)) == Batch(arr[..i], current, None)
    requires o == Sanitise(current, dirs, names[i], enzyme, tmpDir) && o.result == Ok(p)
    ensures FoldTo(files, names, i + 1, SanitiseStep(dirs, enzyme, tmpDir)) == Batch(arr[i := p][..i + 1], o.files, None)
    ensures arr[i := p][i + 1..] == names[i + 1..]
  {
    var step := SanitiseStep(dirs, enzyme, tmpDir);
    FoldNext(files, names, i, step, arr[..i], current, o);
    SliceStep(arr, names, i, p);
  }

  /** A turn of the loop whose call throws: the loop ends with the list as it is and the files after that call. */
  lemma TurnFails(files: map<string, string>, names: seq<string>, i: nat, dirs: set<string>, enzyme: Option<string>, tmpDir: string,
                  arr: seq<string>, current: map<string, string>, o: Outcome)
    requires |arr| == |names| && i < |arr| && arr[i..] == names[i..]
    requires FoldTo(files, names, i, SanitiseStep(dirs, enzyme, tmpDir)) == Batch(arr[..i], current, None)
    requires o == Sanitise(current, dirs, names[i], enzyme, tmpDir) && o.result.Err?
    ensures SanitiseAll(files, dirs, names, enzyme, tmpDir) == Batch(arr, o.files, Some(o.result.error))
  {
    var step := SanitiseStep(dirs, enzyme, tmpDir);
    FoldNext(files, names, i, step, arr[..i], current, o);
    ErrorEnds(files, names, i, step, arr, o.files, o.result.error);
  }

  /** One turn of the input-list loop: `checkInputFile` on entry `i`, whose path replaces the entry when it differs. */
  method SanitiseEntry(store: Store, inputFiles: array<string>, i: nat, enzyme: Option<string>, tmpDir: string)
    returns (newFile: Result<string, IoError>)
    requires i < inputFiles.Length
    modifies store, inputFiles
    ensures store.dirs == old(store.dirs)
    ensures Outcome(newFile, store.files) == Sanitise(old(store.files), store.dirs, old(inputFiles[i]), enzyme, tmpDir)
    ensures inputFiles[..] == if newFile.Ok? then old(inputFiles[..])[i := newFile.value] else old(inputFiles[..])
  {
    var file := inputFiles[i];
    newFile := CheckInputFile(store, file, enzyme, tmpDir);
    if newFile.Ok? && newFile.value != file {
      inputFiles[i] := newFile.value;
    }
  }

  /** The loop of `execute` that replaces each input by its sanitised copy, in place. */
  method SanitiseInputs(store: Store, inputFiles: array<string>, enzyme: Option<string>, tmpDir: string)
    returns (error: Option<IoError>)
    modifies store, inputFiles
    ensures store.dirs == old(store.dirs)
    ensures SanitiseAll(old(store.files), store.dirs, old(inputFiles[..]), enzyme, tmpDir)
         == Batch(inputFiles[..], store.files, error)
  {
    ghost var names := inputFiles[..];
    ghost var files0 := store.files;
    var i := 0;
    while i < inputFiles.Length
      invariant 0 <= i <= inputFiles.Length
      invariant store.dirs == old(store.dirs)
      invariant inputFiles[i..] == names[i..]
      invariant FoldTo(files0, names, i, SanitiseStep(store.dirs, enzyme, tmpDir)) == Batch(inputFiles[..i], store.files, None)
    {
      ghost var arr := inputFiles[..];
      ghost var current := store.files;
      assert arr[i] == names[i];
      var newFile := SanitiseEntry(store, inputFiles, i, enzyme, tmpDir);
      ghost var o := Outcome(newFile, store.files);
      if newFile.Err? {
        TurnFails(files0, names, i, store.dirs, enzyme, tmpDir, arr, current, o);
        return Some(newFile.error);
      }
      TurnSucceeds(files0, names, i, store.dirs, enzyme, tmpDir, arr, current, o, newFile.value);
      i := i + 1;
    }
    assert inputFiles[..i] == inputFiles[..];
    return None;
  }

}
