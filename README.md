# robotkernel core in Dafny

This project models the core of the Robot Framework Jupyter kernel (`robotkernel`). The modelled parts are:

- **Builders** (`builders.dfy`): how a cell's code is merged into the kernel's long-lived test suite.
  - `populate_suite` appends the cell's imports, keywords, variables and tests. It then drops repeated keywords and variables by name; the last definition wins and takes the place where the name first appeared, as a Python `dict` does.
  - It then decides the RPA mode from the sections. With `*** Tasks ***` the suite is in RPA mode. With `*** Test Cases ***` it is not. A file with both is a `DataError`.
- **Executors** (`executors.dfy`): what happens to a merged suite.
  - The variables cache forgets the suite's own variables.
  - With tests, the suite is run. The run's listeners are chosen and the verdict becomes the reply.
  - The last return value is rendered. Screenshots of the output log are inlined as `data:` URIs, and the log button is sent.
  - Without tests, a widget is offered for each new keyword. Its arguments are normalised by `normalize_argument`, and running it builds a one-test suite from the widget's values (`execute_ipywidget`).
- **Completion finders** (`completion_finders.dfy`): `complete_libraries`, the case-sensitive prefix filter over the standard library names.
- **Kernel** (`kernel.dfy`): the `RobotKernel` object and the state it keeps between messages:
  - the cell history, an insertion-ordered dictionary from cell id to code, kept in sync with deleted cells by `init_metadata`;
  - the current cell id, the inspection docs, the variables seen so far, the suite-variables cache, the open connections, the keyword lists and the listeners;
  - `do_shutdown`, `do_complete` (needle extraction, the completion context, the `}` look-ahead, the reply span), `do_inspect` (needle extraction and the first accepted search hit) and `do_execute`.

Shared pieces:

- `common.dfy`: `Option`, `Result` and the Python exception kinds.
- `seqs.dfy`: distinctness, subsequence, `Uniq`.
- `strings.dfy`: character classes, prefix and substring search, `split(sep, 1)`, `strip`, `replace`, `join`.
- `ordered_dicts.dfy`: an insertion-ordered dictionary. Assigning to an existing key keeps its position; `del` removes the key from the order.

Robot Framework is not modelled, and neither is the rest of Python. Each value they produce is an input to the model:

- the parsed model of a cell (`Host.parse`: sections and reported errors);
- the outcome of `suite.run` (`RunOutcome`);
- the file system, Pillow and base64 (`Env`);
- the variable regexp, the lunr search and the selector completers (`Completers`, `hits`);
- `line_at_cursor` (its `(line, offset)` is passed in);
- `uuid4`, `format_exc`, `execute_python` and `execution_count` (the `Host` fields).

`Kernel.Split` models `re.split(r"\s{2,}|\t| \| ", text)` as Python's scanner runs it: at each position the alternatives are tried in order (the longest white-space run of two or more, a tab, ` | `), the leftmost match cuts, and the scan resumes after it. The needles of `do_complete` and `do_inspect` are computed by a direct left-to-right scan, and lemmas prove them equal to the pieces of `Split`.

Python's `str.lower` is modelled on ASCII letters only. `\w` is approximated by ASCII letters, digits, `_` and any non-ASCII character that is not white space.

## Model

| member | source | states |
|---|---|---|
| Builders.TaskFlagsSpec | src/robotkernel/builders.py:17 | a flag is among the collected `tasks` flags exactly when some test-case section carries it |
| Builders.RpaModeCases | src/robotkernel/builders.py:14-20 | the RPA mode is `None` exactly when there is no data or no test-case section; `True`/`False` exactly when every such section agrees on that flag; `DataError("One file cannot have both tests and tasks.")` exactly when they disagree |
| Builders.CollectSpec | src/robotkernel/builders.py:25-27 | the dict built by the loop has the distinct names in first-occurrence order as keys and maps each to the last item with that name |
| Builders.DedupNames | src/robotkernel/builders.py:23-28 | after stripping, names are distinct, in first-occurrence order, and exactly the names of the input |
| Builders.DedupLastWins | src/robotkernel/builders.py:23-28 | every kept item is the last input item with its name |
| Builders.DedupOfUnique | src/robotkernel/builders.py:23-28 | a list without repeated names is left as it is |
| Builders.DedupIdempotent | src/robotkernel/builders.py:23-28 | stripping twice is the same as stripping once |
| Builders.ItemList.StripDuplicateItems | src/robotkernel/builders.py:23-28 | the in-place loop leaves exactly the deduplicated list |
| Builders.ItemList.CleanItems | src/robotkernel/builders.py:31-33 | the list is emptied |
| Builders.Suite.Copy | src/robotkernel/executors.py:86 | the deep copy is a fresh suite with fresh item lists holding the same contents |
| Builders.PopulateSuite | src/robotkernel/builders.py:39-54 | a reported error raises the first error and leaves the suite untouched; otherwise imports and tests are appended, keywords and variables are appended then deduplicated, and the RPA mode is set, or its `DataError` is raised with the mode kept |
| Builders.HeadUnitExample | tests/test_builders.py:8-35 | the unit test's cell gives one keyword, one task and RPA mode on |
| OrderedDicts.Put | src/robotkernel/kernel.py:310 | assignment maps the key to the value; a present key keeps its place, a new key goes last |
| OrderedDicts.PutTwice | src/robotkernel/kernel.py:310 | assigning twice to a key equals assigning the later value once |
| OrderedDicts.Remove | src/robotkernel/kernel.py:229-230 | `del` removes the key from the order and from the mapping, nothing else |
| OrderedDicts.Values | src/robotkernel/kernel.py:265 | `values()` lists the value of each key in key order |
| Executors.StripNonWordSpec | src/robotkernel/executors.py:62 | the inner substitution gives the empty string exactly when the name has no word character, and otherwise a piece of the name with only non-word characters around it, starting and ending with a word character |
| Executors.Underscore | src/robotkernel/executors.py:62 | with a positive count, each non-word character is replaced by `_` exactly when fewer than `count` non-word characters come before it |
| Executors.UnderscoreAll | src/robotkernel/executors.py:62 | the intended substitution replaces every non-word character by `_` and keeps the rest, so only word characters remain |
| Executors.UnderscoreWithinCap | src/robotkernel/executors.py:62 | with at most `count` non-word characters, the capped substitution equals the uncapped one |
| Executors.UnderscoreBeyondCap | src/robotkernel/executors.py:62 | with more than `count` non-word characters, a non-word character survives the capped substitution |
| Executors.CapCounterexample | src/robotkernel/executors.py:62 | for `${a`, 33 hyphens, `b}`, the code as written returns an identifier that still holds a hyphen, and the corrected one does not |
| Executors.ArgumentIdentifier | src/robotkernel/executors.py:62 | the identifier consists of word characters only and is empty exactly when the name has none |
| Executors.NormalizeArgument | src/robotkernel/executors.py:54-64 | without `=` the name is kept with no default; with `=` it is split at the first `=` into the name and the default; the identifier is the corrected one computed from the name |
| Executors.ArgumentIdentifierWithinCap | src/robotkernel/executors.py:62 | when the stripped raw name has at most 32 non-word characters, the identifier (the one `NormalizeArgument` gives) equals the one the code as written computes |
| Executors.BracedArgument | src/robotkernel/executors.py:54-64 | `${inner}` with a non-empty all-word `inner` normalises to itself, `inner` and no default |
| Executors.UnderscoreAllWord | src/robotkernel/executors.py:62 | an identifier of word characters is not changed by the substitution |
| Executors.Header | src/robotkernel/executors.py:76 | the header is `Tasks` exactly when `rpa` is true and `Test Cases` otherwise |
| Executors.ArgumentValues | src/robotkernel/executors.py:82 | the values are looked up in argument order; the first identifier missing from `values` raises `KeyError` |
| Executors.WidgetCode | src/robotkernel/executors.py:76-83 | the generated cell is the header line, the keyword as test name, and one step calling it with the values joined by two spaces; a missing value raises the lookup's `KeyError` |
| Executors.ExecuteIpywidget | src/robotkernel/executors.py:67-88 | a fresh copy of the suite gets the generated cell merged and RPA mode on, or the error of the lookup or the merge is raised |
| Executors.WidgetSpecs | src/robotkernel/executors.py:158-171 | one widget per new keyword, in order, each with the keyword's name, its normalised arguments and the suite's RPA mode |
| Executors.JoinPath | src/robotkernel/executors.py:316-319 | joining with an absolute path gives that path |
| Executors.ImgSrcs | src/robotkernel/executors.py:313 | each found reference is non-empty, holds no quote and follows `img src="` in the log |
| Executors.ParseDataUri | src/robotkernel/executors.py:323-325 | a successful three-way split reassembles the URI, and its parts hold no separator an earlier split consumed |
| Executors.ParseFormatRoundTrip | src/robotkernel/executors.py:323-325 | the three splits give back any header whose parts hold no consumed separator |
| Executors.InlineSource | src/robotkernel/executors.py:320-333 | a reference is inlined exactly when it starts with `data:`, splits, and is base64 with an `image/` type; the URI is then `data:<mime>;base64,<payload>` |
| Executors.ResolveSource | src/robotkernel/executors.py:314-333 | a file is used exactly when one of the three candidates exists, namely the first existing one; otherwise the `data:` rule decides |
| Executors.FixMime | src/robotkernel/executors.py:337-339 | `image/apng` becomes `image/png` and every other type is kept |
| Executors.LoadImage | src/robotkernel/executors.py:314-341 | a found file loads as its bytes with Pillow's MIME type, `image/apng` fixed to `image/png`; a skipped reference loads nothing; an inline one loads exactly when its payload decodes, as the decoded bytes with the URI's MIME type |
| Executors.ProcessScreenshots | src/robotkernel/executors.py:309-355 | the loop's log and displays are those of handling every found reference in order |
| Executors.RewriteAbsent | src/robotkernel/executors.py:343-348 | the three replacements change nothing when the log does not mention the reference |
| Executors.RewriteEmbedded | src/robotkernel/executors.py:343-348 | rewriting a reference to itself changes nothing when no link or wide image mentions it |
| Executors.ReduceUnresolved | src/robotkernel/executors.py:313-333 | when no reference resolves, the log is unchanged |
| Executors.ReduceFixpoint | src/robotkernel/executors.py:313-348 | a log whose references are already the data URIs they resolve to is unchanged |
| Executors.RunListeners | src/robotkernel/executors.py:224-228 | the run's listeners are the kernel's, then the status listener when neither silent nor a widget, then the return-value listener when not silent |
| Executors.CollectedValues | src/robotkernel/executors.py:217-228 | without the return-value listener no value is collected |
| Executors.RenderedValue | src/robotkernel/executors.py:249-258 | the last return value is rendered exactly when nothing failed, there is one, it is not `None`, `""` or `b""`, and the run is not silent |
| Executors.SilentRunRendersNothing | src/robotkernel/executors.py:227-255 | a silent run collects and renders no value |
| Executors.VerdictMessages | src/robotkernel/executors.py:242-258 | a failure sends the error with the run's stdout (unless silent); a pass with a rendered value sends its MIME bundle and metadata when the bundle is non-empty, and nothing otherwise |
| Executors.RunMessages | src/robotkernel/executors.py:241-295 | a silent run sends nothing; otherwise the last message is the log button (a new display exactly for a widget run), and a failure's first message is the error with the run's stdout |
| Executors.RunRobotSuite | src/robotkernel/executors.py:209-306 | the reply is an error with the run's stdout as traceback exactly when a critical test failed, else ok with the execution count; the messages are `RunMessages`: the verdict, the screenshots and the log button, rendered with the suite's RPA mode and with the report link nulled |
| Executors.PurgeSuiteVariables | src/robotkernel/executors.py:186-189 | the cache loses exactly the suite's variable names and keeps the other values |
| Executors.ExecuteRobot | src/robotkernel/executors.py:174-206 | the variables listener purges the cache; with tests, no widget is offered, the reply is the run's verdict (an error with stdout as traceback exactly when something failed, else ok with the execution count) and the messages are exactly those of a non-widget run in the suite's RPA mode; without tests the reply is ok, nothing is sent and a widget is offered for every new keyword |
| CompletionFinders.CompleteLibraries | src/robotkernel/completion_finders.py:7-15 | the loop returns the libraries whose lower-cased name starts with the needle, in order |
| CompletionFinders.LibraryMatchesMembers | src/robotkernel/completion_finders.py:11-13 | a name is returned exactly when it is a library whose lower-cased name starts with the needle |
| CompletionFinders.LibraryMatchesOrdered | src/robotkernel/completion_finders.py:11-13 | the result is a subsequence of the library list |
| CompletionFinders.EmptyNeedleOffersAll | src/robotkernel/completion_finders.py:11-13 | the empty needle returns every library |
| CompletionFinders.UpperNeedleOffersNothing | src/robotkernel/completion_finders.py:12 | a needle with an upper-case letter matches nothing |
| Kernel.CellId | src/robotkernel/kernel.py:231 | the cell id is the metadata's `cellId` when present and non-empty, else `None` |
| Kernel.HistoryKey | src/robotkernel/kernel.py:310 | the history key is the cell id when there is one, else a fresh uuid |
| Kernel.QuittableMembers | src/robotkernel/kernel.py:103-105 | exactly the connections whose instance has `quit` are quit |
| Kernel.NewItems | src/robotkernel/kernel.py:302 | the new keywords are exactly the suite's keywords not among the previous ones |
| Kernel.NewItemsAppend | src/robotkernel/kernel.py:302 | the new-keyword filter distributes over concatenation |
| Kernel.NewItemsOfExtension | src/robotkernel/kernel.py:302-303 | extending the previous keywords by unseen ones makes exactly those new |
| Kernel.NoneNew | src/robotkernel/kernel.py:302 | keywords all seen before give no new ones |
| Kernel.AllNew | src/robotkernel/kernel.py:302 | keywords never seen before are all new, in order |
| Kernel.HistoryVariablesMembers | src/robotkernel/kernel.py:264-268 | every variable found in a historical cell is collected |
| Kernel.CollectVariables | src/robotkernel/kernel.py:264-269 | the variables are those of every historical cell in history order, then those of the cell |
| Kernel.EffectiveCursor | src/robotkernel/kernel.py:110 | a given cursor is kept; without one it is the code's length, and `None` for empty code |
| Kernel.NeedleShape | src/robotkernel/kernel.py:113 | the needle is a suffix of the text left of the cursor with no leading white space, tab, double white space or ` \| ` |
| Kernel.SeparatorForms | src/robotkernel/kernel.py:113 | a tab, two white-space characters and ` \| ` each start a separator match |
| Kernel.SegmentScanTable | src/robotkernel/kernel.py:113 | the left-to-right scan for the start of the last piece reads the same separator matches as `re.split` |
| Kernel.FirstSeparatorTable | src/robotkernel/kernel.py:198 | the leftmost separator match found on the text is the leftmost match `re.split` cuts at first |
| Kernel.ScanIsLastPiece | src/robotkernel/kernel.py:113 | skipping from match to match, left to right, ends at the start of the last piece `re.split` returns |
| Kernel.SplitLastPiece | src/robotkernel/kernel.py:113 | the last piece of `re.split` is the text from that start to the end |
| Kernel.LastSegmentSplit | src/robotkernel/kernel.py:113 | the segment the scan finds is the last element of the modelled `re.split` of the text |
| Kernel.NeedleSegment | src/robotkernel/kernel.py:113 | the completion needle is the left-stripped last element of the modelled `re.split` of the text left of the cursor |
| Kernel.OverlappingMatches | src/robotkernel/kernel.py:113 | in `x  \| y` the separator pattern matches two spaces at 1 and ` \| ` at 2, overlapping |
| Kernel.OverlappingSplit | src/robotkernel/kernel.py:113 | `re.split` of `x  \| y` is `["x", "\| y"]`: the earlier match cuts and the overlapping one is skipped |
| Kernel.OverlappingNeedle | src/robotkernel/kernel.py:113 | the completion needle of `x  \| y` is `\| y` |
| Kernel.InspectNeedleSegments | src/robotkernel/kernel.py:194-199 | the inspection needle is the last `re.split` piece left of the cursor, left-stripped and lower-cased, followed by the first piece right of it, right-stripped and lower-cased |
| Kernel.VariableMatches | src/robotkernel/kernel.py:119-129 | a scored candidate is kept exactly when it contains the needle, both lower-cased |
| Kernel.CompletionMatches | src/robotkernel/kernel.py:117-181 | variable needles get the variable matches, selector needles the selector's, library lines in settings the library matches of the lower-cased needle, everything else the keyword search |
| Kernel.FirstAccepted | src/robotkernel/kernel.py:213-219 | the first hit whose keyword name or ref, lower-cased, is the needle; a ref missing from the catalog before it raises `KeyError` |
| Kernel.AcceptFirst | src/robotkernel/kernel.py:213-219 | the loop stops at the first accepted hit or raises at the first missing ref |
| Kernel.DropDeletedCells | src/robotkernel/kernel.py:227-230 | the history loses exactly the deleted cell ids, keeps the order and values of the rest |
| Kernel.RobotKernel.constructor | src/robotkernel/kernel.py:59-96 | the kernel starts with empty history, docs, variables, cache, connections and keyword lists, no cell id, and an empty fresh suite |
| Kernel.RobotKernel.InitMetadata | src/robotkernel/kernel.py:223-232 | deleted cells leave the history and the cell id is taken from the metadata; nothing else changes |
| Kernel.RobotKernel.DoShutdown | src/robotkernel/kernel.py:98-106 | the connections with `quit` are quit, and history, variables, cache and connections are reset |
| Kernel.RobotKernel.DoComplete | src/robotkernel/kernel.py:108-191 | no cursor on empty code raises `TypeError`; otherwise the reply spans the needle, takes in a `}` just after a variable needle, and holds the matches of the needle's context |
| Kernel.RobotKernel.DoInspect | src/robotkernel/kernel.py:193-221 | no cursor on empty code raises `TypeError`; otherwise the first accepted hit's doc is added to the stored docs, `found` is whether any docs are stored, and only the docs change |
| Kernel.RobotKernel.InspectHits | src/robotkernel/kernel.py:201-219 | the reply and the stored docs follow the first accepted hit, and a missing ref raises `KeyError` with the docs kept |
| Kernel.RobotKernel.DoExecute | src/robotkernel/kernel.py:234-315 | a `%%python module` cell is handed over; otherwise variables and listeners are reset, a merge error is replied (and sent unless silent) with the suite kept, and a merged cell updates the keyword lists, runs, is saved under its id when the reply is ok, and leaves the suite without tests; with tests the reply is the run's verdict and the messages are exactly those of a run with the kernel's listeners; without tests the reply is ok, nothing is sent and the new keywords become widgets |
| Kernel.RobotKernel.ExecuteCell | src/robotkernel/kernel.py:262-315 | the same for a cell that is not a `%%python module` cell |
| Kernel.RobotKernel.RunCell | src/robotkernel/kernel.py:301-315 | the new keywords are those not seen before; the cache is purged; only an ok reply saves the cell; the tests are emptied; the reply, messages and widgets are those of `ExecuteRobot` with the kernel's listeners |
| Kernel.RobotKernel.RunTests | src/robotkernel/kernel.py:305-315 | the run part of `RunCell`: the cache is purged, the reply and messages are the run's, only an ok reply saves the cell, and the tests are emptied |
| Kernel.RerunOverwrites | src/robotkernel/kernel.py:309-310 | running a cell twice under one id leaves one entry holding the later code |

## Left out

- Robot Framework's parser, `ErrorReporter`, `SettingsBuilder` and `SuiteBuilder` are not part of this model. A cell's parse result (its sections, items and reported errors) is an input, and `PopulateSuite` models what the builders add to the suite.
- `suite.run`, `ResultWriter`, `to_mime_and_metadata`, `display_log` and `data_uri` are not part of this model. Their results (`RunOutcome`, `Env.toMime`, `Env.renderLog` given the reduced `output.xml` and the suite's `rpa`, `Env.dataUri`) are inputs.
- `TemporaryDirectory` and its `PermissionError` are left out. When a suite with tests hits that error in `execute_robot`, `reply` is unbound and Python raises; the model always replies with the run's verdict.
- `Image.open` errors that the `except` does not catch (a payload that decodes but is no image, or an unreadable file) are left out: decoding is the only way the model skips an inline image, and a found file always loads.
- `line_at_cursor`, `detect_robot_context`, lunr indexing and search (`get_lunr_completions`, `lunr_query`, `scored_results`) and the selector completers are not part of this model. Their answers are parameters.
- Clearing selector highlights and closing broken connections (`clear_selector_highlights`, `close_current_connection`) are left out: they act on live browser drivers.
- `get_keyword_doc` is left out; a catalog entry carries its result.
- The nbimporter module reload and the body of `execute_python` are left out. A `%%python module` cell's reply is an input.
- The keyword catalog update by `RobotKeywordsIndexerListener`, and the connection listeners filling `robot_connections`, are left out. Listeners are tags; only their order and the variables purge are modelled. A run is therefore modelled as opening no connections: `DoExecute` and the methods it calls keep `connections` as it was.
- `ProgressUpdater`, the stdout redirection and logging are left out (I/O).
- `inject_ipywidget` is left out: the widget controls and their callbacks are UI. A widget is modelled by its name and normalised arguments. `ExecuteIpywidget` models building the widget's suite; the `run_robot_suite(..., widget=True)` call on it is not composed with it (`RunRobotSuite` models that call on its own).
- `__init__`'s catalog population (`BuiltIn` and the context libraries) is left out, along with the nbreader injection.
- `STDLIBS` is a parameter, since its members and order belong to Robot Framework.
- `Strings.Lower` only lower-cases ASCII letters, and `Strings.IsWordChar` approximates Python's Unicode `\w`.
- `VARIABLE_REGEXP.findall(historical, re.U & re.M)` passes `0` as a start position, which changes nothing; `find` is called on the whole text.
- Executors.NormalizeArgument: the identifier is the corrected one (see Findings), so for names with more than 32 non-word characters left after stripping it differs from what executors.py:62 computes; `ArgumentIdentifierWithinCap` proves they agree up to that cap.
- Executors.WidgetSpecs: inherits the corrected identifier from `NormalizeArgument`.
- Executors.ReduceFixpoint: proves only that a log whose references already are the data URIs they resolve to is unchanged; that reducing a reduced log changes nothing is not proved, since it depends on `data_uri` and base64 decoding round-tripping and on no file being named like a data URI, which the oracles do not promise.
- Executors.ImgSrcs: the contract states that each found reference occurs in the log; it does not state that `findall` misses none.
- Executors.ResolveSource: `os.path.join` is modelled for POSIX paths only.

## Findings

| source | as written | input that shows it | evidently intended | confidence | as-written member | corrected member |
|---|---|---|---|---|---|---|
| src/robotkernel/executors.py:62 | `re.sub(r"\W", "_", ..., re.U)` passes `re.U` (32) as the positional `count`, so at most 32 non-word characters become `_` | the argument `${a` followed by 33 hyphens and `b}`: the identifier keeps its 33rd hyphen | every non-word character is replaced, so that the identifier is a valid name (the flag was meant as `flags=re.U`) | not executed | Executors.CapCounterexample | Executors.ArgumentIdentifier |
