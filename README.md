# ProteinProphet node: a Dafny model

This project models the core of the KNIME node that runs the Trans-Proteomic Pipeline tools xinteract and ProteinProphet over a set of pepXML files and a FASTA database. It proves properties of that model.

The model has two halves.

**The node model (`ProteinProphetNodeModel`).** `execute`:
- creates a fresh working directory named `PPinference` plus a random number of at least six digits;
- copies every pepXML input into that directory through `checkInputFile`:
  - a pre-scan looks for `<sample_enzyme`;
  - on a line the pattern `.*search_engine="([^"]*)".*` matches, the copy pass replaces every `search_engine="…"` attribute by `search_engine="X-correct"`, where X is the value of the last attribute the whole-line match can use (the leading `.*` is greedy): the last one with no line terminator (\n, \r, U+0085, U+2028, U+2029) before it. So a line with one attribute `search_engine="X"` gets `search_engine="X-correct"`, and a terminator-free line with two gets the second value in both places;
  - the model inserts X literally; the code passes it to `replaceAll` as a template, which the "## Findings" section shows differs for values holding `$` or `\`;
  - when the input declares no enzyme, the copy pass inserts a synthesised `<sample_enzyme>` block after each `<msms_run_summary` line;
- replaces each entry of the input list by its copy's path;
- runs the runnable;
- either offers one protXML and one xls path on its two ports, or fails and publishes the captured output as failed output.

**The runnable (`ProteinProphetRunnable`).**
- Stage 1 builds the xinteract command line, starts it, and copies its standard output and then its standard error line by line into the two shared lists.
- It then resets `runningProcess`.
- Stage 2 does the same for ProteinProphet.
- On success it sets the two report paths. Any `IOException` clears them.

Modules, in dependency order:

| module | file | models |
|---|---|---|
| `Wrappers` | wrappers.dfy | `Option` and `Result` |
| `Text` | text.dfy | Java string conversions: `"" + null`, `%06d`, `Integer.toString`, `File.getName` |
| `Lines` | lines.dfy | `BufferedReader.readLine` over a text, and a writer that appends each record and `"\n"` |
| `Enzymes` | enzymes.dfy | `enzymeNameToShort` and `createEnzymeTag` |
| `SearchEngine` | search_engine.dfy | the search-engine regular expressions, both as intended and as written |
| `FileStore` | file_store.dfy | the file system as a class holding a map of files and a set of directories, with `mkdirs` |
| `Sanitiser` | sanitiser.dfy | `checkInputFile` and the input-list loop of `execute` |
| `Workspace` | workspace.dfy | the working-directory naming loop and `mkdirs` |
| `Runnable` | runnable.dfy | `ProteinProphetRunnable`: command lines, the class, and `run()` |
| `NodeModel` | node_model.dfy | `execute` end to end, and its verdict |

Inputs the model takes as parameters:
- The random draws are a sequence of `Draw` values.
- What each started process delivers comes from a `Launcher`. For a command line, it gives either a start failure, or the lines of standard output and standard error, each of which may end in an `IOException`.
- The files ProteinProphet writes are a set `produced` that `Files.exists` also sees.
- The `Double` peptide probability is its text, as an `Option<string>`.

Where the code and its written description disagree, the model follows the code:
- The search-engine rewrite is not idempotent. A second pass turns `X-correct` into `X-correct-correct` (`SearchEngine.RewriteTwiceTagsTwice`).
- The enzyme block is inserted after every line carrying `<msms_run_summary`, not just the first. The flag is never updated during the copy pass.
- Standard output is drained to its end before standard error is read. The draining is sequential, not concurrent.
- The copy path is not always different from the input path. If an input already sits in the working directory under its own name, the writer truncates it before the copy pass reads it, and the copy comes out empty (`Sanitiser.SelfTargetIsEmptied`).

## Model

N is `src/de/mpc/tools/knimeproteinprophet/ProteinProphetNodeModel.java`; R is `src/de/mpc/tools/knimeproteinprophet/ProteinProphetRunnable.java`.

| member | source | states |
|---|---|---|
| Enzymes.EnzymeShort | src/de/mpc/tools/knimeproteinprophet/ProteinProphetNodeModel.java:57-75 | definition: `enzymeNameToShort.get`, the code of a name in the table and null for any other name; its properties are `EnzymeTable` and `OnlyTrypsinIsDescribed` |
| Enzymes.EnzymeTable | src/de/mpc/tools/knimeproteinprophet/ProteinProphetNodeModel.java:57-75 | every name in the table has a one-character code, no two names share a code (the lookup is injective, so a code names one enzyme), and "Trypsin" has the code "T" |
| Enzymes.OnlyTrypsinIsDescribed | src/de/mpc/tools/knimeproteinprophet/ProteinProphetNodeModel.java:299-304 | of the fifteen table names, exactly "Trypsin" leads to a block with its attributes filled in |
| Enzymes.EnzymeTag | src/de/mpc/tools/knimeproteinprophet/ProteinProphetNodeModel.java:293-309 | definition: `createEnzymeTag`, the attributes filled in for "T" and left null otherwise, concatenated as `TagText`; its properties are `TrypsinTag`, `OtherCodesTag`, `EnzymeTagLayout` and `EnzymeTagRendered` |
| Enzymes.TagText | src/de/mpc/tools/knimeproteinprophet/ProteinProphetNodeModel.java:306-308 | definition: the string concatenated around the four attribute values, with its two inner line breaks; its layout is `TagTextLayout` |
| Enzymes.TrypsinTag | src/de/mpc/tools/knimeproteinprophet/ProteinProphetNodeModel.java:299-308 | for code "T" the block reads back as the three lines `<sample_enzyme name="trypsin">`, `<specificity cut="KR" no_cut="P" sense="C"/>`, `</sample_enzyme>` with their tab indentation |
| Enzymes.OtherCodesTag | src/de/mpc/tools/knimeproteinprophet/ProteinProphetNodeModel.java:293-308 | for any other code, or a failed lookup, every attribute holds the text "null" in the same three-line layout |
| Enzymes.EnzymeTagLayout | src/de/mpc/tools/knimeproteinprophet/ProteinProphetNodeModel.java:306-308 | read line by line, the tag is the fixed three-line layout holding the Java text of the four attributes |
| Enzymes.TagTextLayout | src/de/mpc/tools/knimeproteinprophet/ProteinProphetNodeModel.java:306-308 | for break-free attribute values, the tag text reads back as exactly its three lines |
| Enzymes.TagLinesDeclareEnzyme | src/de/mpc/tools/knimeproteinprophet/ProteinProphetNodeModel.java:306 | the first line of the block carries the `<sample_enzyme` marker the pre-scan looks for |
| Enzymes.EnzymeTagRendered | src/de/mpc/tools/knimeproteinprophet/ProteinProphetNodeModel.java:276-277 | writing the block's three lines, each with "\n", gives the tag text followed by "\n"; the lines hold no break, and the first declares an enzyme |
| Enzymes.TagLinesNoBreak | src/de/mpc/tools/knimeproteinprophet/ProteinProphetNodeModel.java:306-308 | none of the three lines of an enzyme block holds a line break when the attribute values hold none |
| Enzymes.TagLinesRendered | src/de/mpc/tools/knimeproteinprophet/ProteinProphetNodeModel.java:276-277 | for any break-free attribute values, writing the three lines each with "\n" gives the tag text followed by "\n", and the lines hold no break |
| Enzymes.EnzymeTagLines | src/de/mpc/tools/knimeproteinprophet/ProteinProphetNodeModel.java:306-308 | the block is three lines |
| Text.Format06 | src/de/mpc/tools/knimeproteinprophet/ProteinProphetNodeModel.java:131-133 | `%06d` of n is at least six decimal digits that denote n, and just n's digits when those are six or more |
| Text.Format06Injective | src/de/mpc/tools/knimeproteinprophet/ProteinProphetNodeModel.java:133 | two numbers with the same `%06d` text are equal |
| Text.DigitsRoundTrip | src/de/mpc/tools/knimeproteinprophet/ProteinProphetNodeModel.java:133 | the decimal digits of n denote n |
| Text.LeadingZeros | src/de/mpc/tools/knimeproteinprophet/ProteinProphetNodeModel.java:133 | zero padding keeps a digit string's value |
| Text.IntToString | src/de/mpc/tools/knimeproteinprophet/ProteinProphetRunnable.java:83 | the text of an int is a minus sign exactly for negative values, followed by digits denoting its magnitude |
| Text.LastIndexOf | src/de/mpc/tools/knimeproteinprophet/ProteinProphetNodeModel.java:258 | the result is -1 or an index holding the character, with no occurrence after it |
| Text.BaseName | src/de/mpc/tools/knimeproteinprophet/ProteinProphetNodeModel.java:258 | `getName` holds no separator and is either the whole path or what follows the path's last separator |
| Lines.ReadLines | src/de/mpc/tools/knimeproteinprophet/ProteinProphetNodeModel.java:244 | definition: the lines successive `readLine` calls deliver, each ending at "\n", "\r" or "\r\n", with no empty last line after a final break; its properties are `ReadLinesNoBreak`, `ReadLinesLine` and the round trip `ReadRender` |
| Lines.Render | src/de/mpc/tools/knimeproteinprophet/ProteinProphetNodeModel.java:270-271 | definition: the text a writer produces by appending each record and then "\n"; its properties are `RenderAppend` and `ReadRender` |
| Lines.BreakIndex | src/de/mpc/tools/knimeproteinprophet/ProteinProphetNodeModel.java:264 | the first line ends at the first `\n` or `\r`, or at the end of the text |
| Lines.ReadLinesNoBreak | src/de/mpc/tools/knimeproteinprophet/ProteinProphetNodeModel.java:244 | no line `readLine` delivers contains a line break |
| Lines.RenderAppend | src/de/mpc/tools/knimeproteinprophet/ProteinProphetNodeModel.java:270-271 | writing two runs of records one after the other is writing their concatenation |
| Lines.ReadLinesLine | src/de/mpc/tools/knimeproteinprophet/ProteinProphetNodeModel.java:264 | a break-free line followed by "\n" reads back as that line, then the rest |
| Lines.ReadTwo | src/de/mpc/tools/knimeproteinprophet/ProteinProphetNodeModel.java:306-308 | two break-free lines joined by "\n", the last non-empty, read back as those two lines |
| Lines.ReadThree | src/de/mpc/tools/knimeproteinprophet/ProteinProphetNodeModel.java:306-308 | three break-free lines joined by "\n" read back as those three lines |
| Lines.ReadRenderThen | src/de/mpc/tools/knimeproteinprophet/ProteinProphetNodeModel.java:270-271 | break-free records written with "\n", followed by more text, read back as those records and then the rest |
| Lines.ReadRender | src/de/mpc/tools/knimeproteinprophet/ProteinProphetNodeModel.java:270-271 | break-free records written each with "\n" read back as exactly those records |
| SearchEngine.RewriteLine | src/de/mpc/tools/knimeproteinprophet/ProteinProphetNodeModel.java:262-268 | definition: the corrected per-line rewrite, with the captured value inserted literally, which the copy pass of the model uses; its properties are `RewriteSingleAttribute`, `RewriteTwoAttributes`, `RewriteWithoutAttribute`, `RewriteTwiceTagsTwice` and `RewriteKeepsNoBreak` |
| SearchEngine.RewriteLineAsWritten | src/de/mpc/tools/knimeproteinprophet/ProteinProphetNodeModel.java:265-268 | definition: the per-line rewrite as written, where `replaceAll` reads the replacement as a template and may throw; its properties are `AsWrittenAgreesOnPlainValues`, `DollarValueThrows` and `BackslashValueDropped` |
| SearchEngine.LastMatchIsLast | src/de/mpc/tools/knimeproteinprophet/ProteinProphetNodeModel.java:262-266 | the greedy `.*` settles on the last attribute position at which the whole line matches; there is none exactly when no position matches |
| SearchEngine.RewriteSingleAttribute | src/de/mpc/tools/knimeproteinprophet/ProteinProphetNodeModel.java:262-268 | a line with one `search_engine="v"` between text free of line terminators (`NoTerminator`) has group 1 equal to v, and is rewritten with "-correct" after v and everything else kept |
| SearchEngine.LastAttributeIsCaptured | src/de/mpc/tools/knimeproteinprophet/ProteinProphetNodeModel.java:262-266 | when the last `search_engine="…"` on a line is a whole-line match, group 1 is its value: the greedy `.*` passes over every earlier attribute |
| SearchEngine.RewriteTwoAttributes | src/de/mpc/tools/knimeproteinprophet/ProteinProphetNodeModel.java:262-268 | a line with two attributes whose values and surrounding text are free of line terminators (`NoTerminator`) has group 1 equal to the SECOND value, and both attributes are replaced by that value with "-correct", everything around them kept |
| SearchEngine.RewriteWithoutAttribute | src/de/mpc/tools/knimeproteinprophet/ProteinProphetNodeModel.java:265-268 | a line without `search_engine="` does not match and is written unchanged |
| SearchEngine.RewriteBareAttribute | src/de/mpc/tools/knimeproteinprophet/ProteinProphetNodeModel.java:262-268 | the line `search_engine="v"` becomes `search_engine="v-correct"` |
| SearchEngine.RewriteTwiceTagsTwice | src/de/mpc/tools/knimeproteinprophet/ProteinProphetNodeModel.java:266-267 | rewriting a rewritten line appends "-correct" a second time |
| SearchEngine.RewriteKeepsNoBreak | src/de/mpc/tools/knimeproteinprophet/ProteinProphetNodeModel.java:265-268 | the rewrite never introduces a line break |
| SearchEngine.AsWrittenAgreesOnPlainValues | src/de/mpc/tools/knimeproteinprophet/ProteinProphetNodeModel.java:267 | when the captured value holds neither `$` nor `\`, the template-based `replaceAll` of the source gives exactly the literal rewrite |
| SearchEngine.DollarValueThrows | src/de/mpc/tools/knimeproteinprophet/ProteinProphetNodeModel.java:267 | for the value `$`, the literal rewrite gives `search_engine="$-correct"` where the code as written throws `IllegalArgumentException` |
| SearchEngine.BackslashValueDropped | src/de/mpc/tools/knimeproteinprophet/ProteinProphetNodeModel.java:267 | for the value `a\b`, the code as written writes `search_engine="ab-correct"`, dropping the backslash the literal rewrite keeps |
| SearchEngine.ExpandPlain | src/de/mpc/tools/knimeproteinprophet/ProteinProphetNodeModel.java:267 | a template without `$` or `\` expands to itself |
| SearchEngine.ReplaceAsWrittenPlain | src/de/mpc/tools/knimeproteinprophet/ProteinProphetNodeModel.java:267 | with such a template, the template-based replace equals the literal replace |
| Sanitiser.PreScan | src/de/mpc/tools/knimeproteinprophet/ProteinProphetNodeModel.java:243-249 | the flag is set exactly when some input line contains `<sample_enzyme` |
| Sanitiser.CopyStep | src/de/mpc/tools/knimeproteinprophet/ProteinProphetNodeModel.java:264-279 | one more input line adds its rewrite and "\n", then the enzyme block and "\n" exactly when the line holds `<msms_run_summary` and the input declares no enzyme |
| Sanitiser.CopyLines | src/de/mpc/tools/knimeproteinprophet/ProteinProphetNodeModel.java:264-279 | the copy pass writes each rewritten line with "\n", and writes the block with "\n" after each one that carries `<msms_run_summary` while the flag is false |
| Sanitiser.RewrittenLines | src/de/mpc/tools/knimeproteinprophet/ProteinProphetNodeModel.java:264-268 | the written lines correspond one to one, in order, to the input lines, each rewritten |
| Sanitiser.InjectKeepsOrder | src/de/mpc/tools/knimeproteinprophet/ProteinProphetNodeModel.java:264-278 | every written line appears in the copy, in order, right after what the earlier lines produced |
| Sanitiser.InjectLength | src/de/mpc/tools/knimeproteinprophet/ProteinProphetNodeModel.java:273-278 | the copy has one line per input line plus one block per run-summary line, and no block at all when the flag is set |
| Sanitiser.InjectNothing | src/de/mpc/tools/knimeproteinprophet/ProteinProphetNodeModel.java:273 | where no line calls for the block, the copy is exactly the written lines |
| Sanitiser.InjectAppend | src/de/mpc/tools/knimeproteinprophet/ProteinProphetNodeModel.java:264-278 | the copy pass over two runs of lines is the concatenation of the passes over each |
| Sanitiser.InjectNoBreak | src/de/mpc/tools/knimeproteinprophet/ProteinProphetNodeModel.java:270-277 | the copy pass over break-free lines and block yields break-free lines |
| Sanitiser.DeclaredEnzymeOnlyRewrites | src/de/mpc/tools/knimeproteinprophet/ProteinProphetNodeModel.java:244-278 | an input that declares an enzyme is copied with its lines rewritten and nothing inserted |
| Sanitiser.BlockFollowsRunSummary | src/de/mpc/tools/knimeproteinprophet/ProteinProphetNodeModel.java:273-278 | without a declared enzyme, the block comes immediately after each line carrying `<msms_run_summary` |
| Sanitiser.SecondPassInsertsNothing | src/de/mpc/tools/knimeproteinprophet/ProteinProphetNodeModel.java:244-278 | once a block was inserted, the copy declares an enzyme, so another pass over it inserts nothing |
| Sanitiser.CopyReadsBack | src/de/mpc/tools/knimeproteinprophet/ProteinProphetNodeModel.java:264-279 | read back line by line, the written copy holds exactly the rewritten lines with the blocks inserted |
| Sanitiser.Sanitise | src/de/mpc/tools/knimeproteinprophet/ProteinProphetNodeModel.java:233-285 | definition: one `checkInputFile` call as a function of the files: the missing-input and cannot-open throws, the truncation of the target, and the copy `CopyText` of the pre-scanned input; its properties are `SanitiseOk`, `SanitiseFails`, `SanitiseOthers`, `SanitiseCopies` and `SelfTargetIsEmptied` |
| Sanitiser.CheckInputFile | src/de/mpc/tools/knimeproteinprophet/ProteinProphetNodeModel.java:233-285 | one call over the file store, with the corrected line rewrite: it throws when the input is missing or the copy cannot be opened, and otherwise returns the copy's path and writes the copy there; directories are unchanged (the template exception of line 267 is listed under "## Left out") |
| Sanitiser.WriteCopy | src/de/mpc/tools/knimeproteinprophet/ProteinProphetNodeModel.java:254-281 | opening the writer empties the target, then the copy pass reads the input and leaves its output at the target, with no other file changed |
| Sanitiser.SanitiseOk | src/de/mpc/tools/knimeproteinprophet/ProteinProphetNodeModel.java:258-284 | with the corrected line rewrite, a call whose input exists and whose copy can be opened returns the working-directory path of the input's base name, and only that path is added |
| Sanitiser.SanitiseOthers | src/de/mpc/tools/knimeproteinprophet/ProteinProphetNodeModel.java:259 | a call changes no file other than its copy's path, whether it succeeds or not |
| Sanitiser.SanitiseFails | src/de/mpc/tools/knimeproteinprophet/ProteinProphetNodeModel.java:239-259 | of the I/O exceptions, a call throws `FileNotFound` exactly when the input is missing, and `CannotWrite` exactly when the input exists but the copy cannot be opened; a failing call writes nothing |
| Sanitiser.SanitiseCopies | src/de/mpc/tools/knimeproteinprophet/ProteinProphetNodeModel.java:254-284 | a successful copy of an input outside the working directory changes only the copy path, which reads back as the input's rewritten lines with the blocks inserted |
| Sanitiser.SelfTargetIsEmptied | src/de/mpc/tools/knimeproteinprophet/ProteinProphetNodeModel.java:254-259 | an input that is its own copy target is left empty |
| Sanitiser.SanitiseEntry | src/de/mpc/tools/knimeproteinprophet/ProteinProphetNodeModel.java:169-174 | one turn of the loop calls `checkInputFile` on the entry and leaves the files as that call does; the entry becomes the returned path when the call succeeds, and stays as it was when it throws |
| Sanitiser.TurnSucceeds | src/de/mpc/tools/knimeproteinprophet/ProteinProphetNodeModel.java:169-174 | after successful turns, a turn whose call returns a path extends the loop by that path and the files that call leaves, with the later entries untouched |
| Sanitiser.TurnFails | src/de/mpc/tools/knimeproteinprophet/ProteinProphetNodeModel.java:169-174 | after successful turns, a turn whose call throws ends the loop with the list as it stands and the files that call leaves |
| Sanitiser.SanitiseAll | src/de/mpc/tools/knimeproteinprophet/ProteinProphetNodeModel.java:167-175 | definition: the loop over the input list as a fold of `Sanitise` that replaces each entry by the returned path and stops at the first exception; its properties are `SanitiseAllNames`, `SanitiseAllSucceeds`, `SanitiseAllFrame`, `SanitiseAllContents` and `SanitiseAllSnoc` |
| Sanitiser.SanitiseInputs | src/de/mpc/tools/knimeproteinprophet/ProteinProphetNodeModel.java:167-175 | the in-place loop over the input list leaves the list and the files as the specification `SanitiseAll` says, and stops at the first exception |
| Sanitiser.FoldTo | src/de/mpc/tools/knimeproteinprophet/ProteinProphetNodeModel.java:167-175 | the first k turns of the loop leave a list of k entries |
| Sanitiser.Fold | src/de/mpc/tools/knimeproteinprophet/ProteinProphetNodeModel.java:167-175 | the loop keeps the list's length |
| Sanitiser.FoldAgree | src/de/mpc/tools/knimeproteinprophet/ProteinProphetNodeModel.java:167-175 | the first k turns depend only on the first k entries of the list |
| Sanitiser.FoldNext | src/de/mpc/tools/knimeproteinprophet/ProteinProphetNodeModel.java:167-175 | a turn after successful ones either replaces entry i by the returned path or records the exception and keeps entry i |
| Sanitiser.FoldSucceeds | src/de/mpc/tools/knimeproteinprophet/ProteinProphetNodeModel.java:167-175 | when every call returns its entry's target and loses no file, the first k turns raise nothing, lose no file and replace each entry by its target |
| Sanitiser.FoldKeeps | src/de/mpc/tools/knimeproteinprophet/ProteinProphetNodeModel.java:167-175 | a file that no call touches keeps its presence and its text through the loop |
| Sanitiser.FoldCopies | src/de/mpc/tools/knimeproteinprophet/ProteinProphetNodeModel.java:167-175 | with distinct targets none of which is an input, each target holds the copy of its own input's original text and every other file is as it was |
| Sanitiser.FoldNames | src/de/mpc/tools/knimeproteinprophet/ProteinProphetNodeModel.java:167-175 | entry i is replaced only by the value the call returns for entry i |
| Sanitiser.SanitiseAllNames | src/de/mpc/tools/knimeproteinprophet/ProteinProphetNodeModel.java:167-175 | the list keeps its length and order, and entry i ends as itself or as the copy path of entry i |
| Sanitiser.SanitiseAllSucceeds | src/de/mpc/tools/knimeproteinprophet/ProteinProphetNodeModel.java:167-175 | with the corrected line rewrite, when every input exists and every copy can be opened, the loop completes, entry i becomes the copy path of entry i, and no file is lost |
| Sanitiser.SanitiseAllFrame | src/de/mpc/tools/knimeproteinprophet/ProteinProphetNodeModel.java:167-175 | a path that is the copy target of no input is neither changed nor created |
| Sanitiser.SanitiseAllContents | src/de/mpc/tools/knimeproteinprophet/ProteinProphetNodeModel.java:167-175 | with distinct copy paths, none of which is an input, each copy holds the copy pass over its own input's original text |
| Sanitiser.ErrorStops | src/de/mpc/tools/knimeproteinprophet/ProteinProphetNodeModel.java:167-175 | after an exception, the remaining entries stay as they were and no further file is written |
| Sanitiser.ErrorEnds | src/de/mpc/tools/knimeproteinprophet/ProteinProphetNodeModel.java:167-175 | when turn i throws, the loop's final list is the current list with entry i and the rest untouched, and the files are those after turn i |
| Sanitiser.SanitiseAllSnoc | src/de/mpc/tools/knimeproteinprophet/ProteinProphetNodeModel.java:167-175 | one more input after successful ones is one more call on the files so far |
| FileStore.Ancestors | src/de/mpc/tools/knimeproteinprophet/ProteinProphetNodeModel.java:140 | the ancestors `mkdirs` creates are proper prefixes of the path ending at a separator |
| FileStore.Store.MakeDirs | src/de/mpc/tools/knimeproteinprophet/ProteinProphetNodeModel.java:140 | `mkdirs` adds the directory and its ancestors unless a regular file stands on one of them; files are unchanged |
| Workspace.WorkingDirNameInjective | src/de/mpc/tools/knimeproteinprophet/ProteinProphetNodeModel.java:130-138 | two draws give the same directory name exactly when they are equal |
| Workspace.FreeName | src/de/mpc/tools/knimeproteinprophet/ProteinProphetNodeModel.java:129-139 | definition: the first name `PPinference` plus a drawn number that names neither a file nor a directory; its properties are `FreeNameIsFirstFree` and `WorkingDirNameInjective` |
| Workspace.FirstFreeIsFirst | src/de/mpc/tools/knimeproteinprophet/ProteinProphetNodeModel.java:135-139 | the first free name of a list is free and preceded only by taken names; there is none exactly when every name is taken |
| Workspace.FreeNameIsFirstFree | src/de/mpc/tools/knimeproteinprophet/ProteinProphetNodeModel.java:135-139 | the loop settles on a free name whose draws before it were all taken, and on none only when every drawn name is taken |
| Workspace.FindWorkingDir | src/de/mpc/tools/knimeproteinprophet/ProteinProphetNodeModel.java:130-139 | the `while (dir.exists())` loop returns the name of the first draw that is free |
| Workspace.CreateWorkingDir | src/de/mpc/tools/knimeproteinprophet/ProteinProphetNodeModel.java:130-140 | the chosen directory and its ancestors exist afterwards unless a regular file is in the way, and no file changes |
| Runnable.Stage1Command | src/de/mpc/tools/knimeproteinprophet/ProteinProphetRunnable.java:76-86 | definition: the xinteract argument list, the settings appended to their flags as Java's `+` does with null, then the pepXML files; its properties are `Stage1Arguments` and `StagesConnect` |
| Runnable.Stage2Command | src/de/mpc/tools/knimeproteinprophet/ProteinProphetRunnable.java:111-118 | definition: the ProteinProphet argument list; its property is `StagesConnect` |
| Runnable.Stage1Arguments | src/de/mpc/tools/knimeproteinprophet/ProteinProphetRunnable.java:76-86 | the xinteract command is nine fixed arguments followed by every pepXML file in order, and each setting sits behind its flag: `-D` FASTA, `-e` enzyme, `-d` decoy prefix, `-THREADS=` threads, and `-N` the output file in the working directory; `-i` (run iProphet) is the eighth argument |
| Runnable.StagesConnect | src/de/mpc/tools/knimeproteinprophet/ProteinProphetRunnable.java:111-118 | the ProteinProphet command has seven arguments; its input is the `.ipro.pep.xml` companion of xinteract's `-N` output, its output is `proteinprophet.protXML` in the working directory; xinteract gets `-i`, which makes it write that companion; the peptide probability sits behind `MINPROB`; `EXCELPEPS`, which makes the xls file the runnable publishes, is the last argument; and the two command lines differ |
| Runnable.OutEvents | src/de/mpc/tools/knimeproteinprophet/ProteinProphetRunnable.java:101-103 | one event per standard-output line, in order |
| Runnable.ErrEvents | src/de/mpc/tools/knimeproteinprophet/ProteinProphetRunnable.java:104-106 | one event per standard-error line, in order |
| Runnable.ProteinProphetRunner.constructor | src/de/mpc/tools/knimeproteinprophet/ProteinProphetRunnable.java:55-71 | the settings are stored, the two lists are the caller's, and `runningProcess`, `protXMLFile` and `excelFile` are null |
| Runnable.ProteinProphetRunner.DrainOutput | src/de/mpc/tools/knimeproteinprophet/ProteinProphetRunnable.java:101-103 | every standard-output line is appended to `output`, in order, and it reports whether reading ended in an `IOException`; nothing else changes |
| Runnable.ProteinProphetRunner.DrainErrorOutput | src/de/mpc/tools/knimeproteinprophet/ProteinProphetRunnable.java:104-106 | the same for standard error into `errorOutput` |
| Runnable.ProteinProphetRunner.RunOneStage | src/de/mpc/tools/knimeproteinprophet/ProteinProphetRunnable.java:92-106 | one stage starts its process, points `runningProcess` at it, and drains standard output then standard error, stopping at the first exception |
| Runnable.RunSpec | src/de/mpc/tools/knimeproteinprophet/ProteinProphetRunnable.java:75-141 | definition: the state `run()` leaves, stage 1 then the reset then stage 2, with both paths set after two clean stages and cleared by any `IOException`; its properties are `PathsSetExactlyOnSuccess`, `OutputsOnlyGrow`, `StagesInOrder` and `RunningProcessAfterRun` |
| Runnable.ProteinProphetRunner.Run | src/de/mpc/tools/knimeproteinprophet/ProteinProphetRunnable.java:75-142 | `run()` leaves the object in the state `RunSpec` gives for the two command lines |
| Runnable.OutputsOnlyGrow | src/de/mpc/tools/knimeproteinprophet/ProteinProphetRunnable.java:100-133 | `output` and `errorOutput` are only appended to |
| Runnable.PathsSetExactlyOnSuccess | src/de/mpc/tools/knimeproteinprophet/ProteinProphetRunnable.java:135-141 | the report paths are set exactly when both stages start and read both streams to their end; the protXML path is then ProteinProphet's output argument and the xls path sits beside it; otherwise both are null |
| Runnable.StageReads | src/de/mpc/tools/knimeproteinprophet/ProteinProphetRunnable.java:92-106 | a stage that fails to start copies nothing; a started stage copies all of standard output, then standard error unless reading standard output failed; the stage throws exactly when it is not clean |
| Runnable.StageLaunchesOnce | src/de/mpc/tools/knimeproteinprophet/ProteinProphetRunnable.java:92 | a stage tries to start exactly one process, its own |
| Runnable.LaunchesAppend | src/de/mpc/tools/knimeproteinprophet/ProteinProphetRunnable.java:92-120 | the start attempts of two event runs are those of each, in order |
| Runnable.NoLaunchInLines | src/de/mpc/tools/knimeproteinprophet/ProteinProphetRunnable.java:101-106 | copying lines starts no process |
| Runnable.StagesInOrder | src/de/mpc/tools/knimeproteinprophet/ProteinProphetRunnable.java:88-141 | xinteract is tried first; ProteinProphet is tried after it, and only when xinteract raised no `IOException` |
| Runnable.StageOutBeforeErr | src/de/mpc/tools/knimeproteinprophet/ProteinProphetRunnable.java:101-106 | within a stage, every standard-output line is copied before any standard-error line |
| Runnable.RunOutBeforeErrPerStage | src/de/mpc/tools/knimeproteinprophet/ProteinProphetRunnable.java:100-133 | across the run, an output line follows an error line only across the reset between the stages, that is, stage 1 before stage 2 |
| Runnable.StageStartsWithLaunch | src/de/mpc/tools/knimeproteinprophet/ProteinProphetRunnable.java:92-106 | a stage's first event is its start attempt, and none of its later events is one |
| Runnable.ReleasedBeforeStage2 | src/de/mpc/tools/knimeproteinprophet/ProteinProphetRunnable.java:108-120 | ProteinProphet is started only right after `runningProcess` has been reset to null |
| Runnable.RunningProcessAfterRun | src/de/mpc/tools/knimeproteinprophet/ProteinProphetRunnable.java:92-120 | after a failed stage 1, `runningProcess` is its process if it started; after a clean stage 1 it is ProteinProphet's process, or null when that failed to start |
| NodeModel.FastaFile | src/de/mpc/tools/knimeproteinprophet/ProteinProphetNodeModel.java:152-160 | the loop over the second port that assigns and breaks yields its first file, and null exactly when the port is empty; this is `FirstFile`, the value the xinteract command line is built from |
| NodeModel.Verdict | src/de/mpc/tools/knimeproteinprophet/ProteinProphetNodeModel.java:201-219 | definition: the end of `execute`, from the report paths and what `Files.exists` sees; its properties are `VerdictCases` and `NoNullExcelPath` |
| NodeModel.VerdictCases | src/de/mpc/tools/knimeproteinprophet/ProteinProphetNodeModel.java:201-215 | the node succeeds with one protXML and one xls entry exactly when the protXML path is non-null and exists (and the xls path is set), publishing the output; when the path is null or missing it fails with "Error while executing ProteinProphet." and publishes the output as failed |
| NodeModel.NoNullExcelPath | src/de/mpc/tools/knimeproteinprophet/ProteinProphetNodeModel.java:205-207 | after a real run, the xls path is never null beside an existing protXML path, so the output is always published one way or the other |
| NodeModel.RunAndJudgeCases | src/de/mpc/tools/knimeproteinprophet/ProteinProphetNodeModel.java:181-215 | after the copies, the node succeeds exactly when both stages run cleanly and the protXML report exists; it then offers that report and the xls file of the working directory; otherwise it fails and reports the output as failed |
| NodeModel.XinteractGetsCopies | src/de/mpc/tools/knimeproteinprophet/ProteinProphetNodeModel.java:167-184 | when every input can be copied, xinteract receives the copies' paths, in the input order, after its nine fixed arguments |
| NodeModel.ExecuteSpec | src/de/mpc/tools/knimeproteinprophet/ProteinProphetNodeModel.java:126-221 | definition: what `execute` ends with, from the file store, the draws, the settings and the launcher; `Execute` is proved to end in it, and its parts are described by `RunAndJudgeCases` and `XinteractGetsCopies` |
| NodeModel.Execute | src/de/mpc/tools/knimeproteinprophet/ProteinProphetNodeModel.java:126-221 | `execute` ends as `ExecuteSpec` says: no free name means failure; otherwise the directory is created, the inputs are copied, the runnable is run and its result judged |
| NodeModel.ExecuteIn | src/de/mpc/tools/knimeproteinprophet/ProteinProphetNodeModel.java:143-221 | from the input gathering on, `execute` ends as `AfterWorkingDir` says; an exception from a copy ends it before anything runs |
| NodeModel.PrepareInputs | src/de/mpc/tools/knimeproteinprophet/ProteinProphetNodeModel.java:144-175 | the input list is gathered in order and sanitised in place, as `SanitiseAll` says |
| NodeModel.RunJob | src/de/mpc/tools/knimeproteinprophet/ProteinProphetNodeModel.java:181-215 | building the runnable from the sanitised list, running it and judging its paths give `RunAndJudge` |

## Left out

- Thread start, the `join(1000)` polling, `interrupt` and the KNIME cancellation check (N:186-198): this is concurrency. `run()` is modelled as completing on the calling thread.
- Process spawning and stream reading are an oracle (`Launcher`). Exit codes are not waited for, so they play no part. This matches the code, which never calls `waitFor`.
- What xinteract and ProteinProphet write: it is the parameter `produced`. This is the set of paths `Files.exists` sees in addition to the store.
- Character set decoding by `InputStreamReader` and `FileWriter`: files hold `seq<char>` directly.
- `java.io.File` path normalisation and `getAbsolutePath` are not modelled:
  - the separator is "/";
  - input URIs arrive as absolute paths;
  - `tmpDir.getAbsolutePath()` is the directory's name as built.
- `mkdirs` is modelled as all or nothing: when a regular file blocks the directory or one of its ancestors, no directory is created. The store does not carry the invariant that the parent of every file and directory is a directory.
- `deleteOnExit` and the temporary directory's lifetime are not modelled.
- Text conversion of the `Double` peptide probability (`"MINPROB" + peptide_prob`): floating point. The model takes its text, or null, as `Option<string>`.
- `execute` never passes a peptide probability: its call site gives ten arguments to an eleven-parameter constructor. The model builds the runnable with the constructor's full parameter set, and `Execute` takes the probability as a parameter.
- `createEnzymeTag` compares strings with `==`: this is modelled as value equality. The table's codes are interned literals.
- Workspace.FreeName: the random numbers come as a finite sequence of draws. Running out of draws ends `execute` with `NoWorkingDirectory`. This is an artefact of the model: the Java loop would draw again.
- The getters `getProtXMLFile` and `getExcelFile` (R:149-160) are reads of the `protXMLFile` and `excelFile` fields in `NodeModel.RunJob`.
- Logging (`logger.warn` and `logger.error`), port specs and URI wrapping, `configure`, the settings methods, the dialog and the factory are KNIME glue.
- Java regular expressions in general: only the two search-engine patterns are modelled. The matching of both is modelled as `java.util.regex` runs it; the template reading of the replacement string is modelled only in `SearchEngine.RewriteLineAsWritten` (see "## Findings").
- Sanitiser.Sanitise: the copy pass uses the corrected `SearchEngine.RewriteLine`, which inserts the captured value literally. On a line whose value holds `$`, the code at N:267 throws `IllegalArgumentException` or `IndexOutOfBoundsException` out of `checkInputFile` and `execute`, leaving a partly written copy; on a value holding `\`, it writes the value without that backslash. Neither is modelled at the file level.
- Sanitiser.CheckInputFile: for the same reason, it returns the copy's path and writes the full copy where the code throws the `replaceAll` exception or drops a backslash.
- Sanitiser.SanitiseOk: for the same reason, an existing input whose copy opens always yields the path; the code instead throws on a line whose captured value holds `$`.
- Sanitiser.SanitiseFails: for the same reason, the two I/O exceptions are the only ones modelled; the `IllegalArgumentException` and `IndexOutOfBoundsException` that `replaceAll` raises at N:267 are a third way to fail that the model leaves out.
- Sanitiser.SanitiseAllSucceeds: for the same reason, the loop is promised to complete when every input exists and every copy opens; the code stops with an exception at the first input holding a `$` value.
- Sanitiser.SanitiseAll: for the same reason, the exception that stops the loop is one of the two I/O exceptions, never the `replaceAll` exception.
- Enzymes.EnzymeTable: it does not state that the table has fifteen entries. Proving the size of the map needs its fifteen string keys told apart pairwise, a proof too costly for the solver.

## Findings

| source | as written | input that shows it | evidently intended | confidence | as-written member | corrected member |
|---|---|---|---|---|---|---|
| src/de/mpc/tools/knimeproteinprophet/ProteinProphetNodeModel.java:267 | the captured search-engine value is spliced into the replacement string of `replaceAll`, which reads `$` as a group reference and `\` as an escape | the line `search_engine="$"` makes `replaceAll` throw `IllegalArgumentException`; the line `search_engine="a\b"` is written as `search_engine="ab-correct"` | the value is inserted literally, as `Matcher.quoteReplacement` would do, giving `search_engine="$-correct"` and `search_engine="a\b-correct"` | not executed | SearchEngine.RewriteLineAsWritten (shown by SearchEngine.DollarValueThrows and SearchEngine.BackslashValueDropped) | SearchEngine.RewriteLine (agrees with the code wherever the value is plain: SearchEngine.AsWrittenAgreesOnPlainValues); the copy pass and the input loop of the model are built on it |
