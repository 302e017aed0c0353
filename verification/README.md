# GUI for Fortran: a Dafny model of the front end's core

The front end is a PySimpleGUI window around a Fortran transport simulation
(`test.exe`). It works on three input files in the working directory:

- `in_1.dat` ("File A") holds six variable values, one per line, followed by
  the observed concentration series.
- `in_2.dat` holds the time stamps.
- `in_3.dat` ("File C") holds the other 23 variables, in five rows of
  whitespace-separated fields.

The front end keeps a dictionary of 29 named variables, loads it from the
files and writes it back. It detects changed inputs by SHA-256 digest before
queueing a run of the executable, and sweeps the queue of runs to draw
finished ones. It imports pasted concentration and time-stamp series. For
parameter estimation, it asks which variables are fixed ("determined") and
which are estimated from an initial guess. It then writes the PEST inputs
(`in_1.tpl`, `in_1.par`, `output.ins`, `measure.obf`), rewrites the bounds,
command and file pairs of `test.pst`, and shows two sections of the PEST
record `test.rec`.

The model states all of this on values. The working directory is a map
`files` from path to text. The object's fields (`memory`, the run queue, the
variable dictionary, the two tables) are fields of the class
`Application.Gui`, updated in place by its methods. Loops that update
variables become methods with loop invariants, proved against a
specification function: reading and writing File A and File C, the queue
sweep, the grouping of `test.pst` and `test.rec` into sections, and the
rewrite of the parameter rows. Python text handling is modelled in module
`Text`:

- `split()`, `strip()` and `str.isspace`;
- `splitlines()`, `readline()`, `readlines()` and `read()`;
- `sep.join`, `in` on strings and `replace(c, "")`;
- `int()` of a base-10 numeral in ASCII digits (sign, surrounding whitespace,
  single underscores between digits), and `str()` of a natural number.

Python's `defaultdict(list)` is modelled in module `Sections`, as an
insertion-ordered store in which reading an absent key inserts it.

What the front end cannot see is given as parameters:

- `hash`: the digest of a file's text;
- `alive`: whether a run's thread is still running;
- `toFloat` and `conv`: Python's `float()` and the value conversions of the
  writer;
- `events`: what the status dialog receives;
- `choose`: the limit dialog;
- `pst` and `rec`: the texts `pestgen` and PEST leave behind.

An exception that escapes an operation is a result constructor
(`ImportFailed`, `Crashed`, `Raised`). An exception the `GUI_exception`
wrapper swallows becomes `None`, or a `complete` flag that is false.

Some exits in the code can never be taken, and the model shows why:

- `_refresh_utility` returns `True` whenever it returns at all, so the "no
  refresh required" exit of `refresh` (gui_base.py:462-463) is never taken. `Gui.RefreshUtility`
  proves it never returns `Some(false)`, and `Gui.Refresh` marks that
  branch `assert false`.
- The status dialog never returns `None`, so the "PE Mode was cancelled"
  exit after it (gui_base.py:690-692) is never taken. `StatusDialog.ReturnsAllSet` proves every
  returned map has every variable set.
- A run is queued before the tables are loaded. An import that fails
  raises out of `refresh` after the run was queued, and after the time-stamp
  table was filled if only the concentration import failed.

## Model

| member | source | states |
|---|---|---|
| Variables.IndexOfAllKeys | gui_base.py:151-181 | the dictionary order numbers all 29 variables 0..28 and every variable has exactly one index |
| Variables.AllKeysDistinct | gui_base.py:151-181 | the dictionary lists every variable exactly once |
| Variables.PlacesAgree | gui_func.py:185-224 | each variable has one place (a line of File A, or a row and column of File C) and each place of the six File A lines and the 2+6+3+6+6 File C fields holds one variable |
| Variables.ModesNameEveryVariable | gui_func.py:330-462 | the mode table has the four modes ADE, MIM, MPNE and DADE, and each gives a preset for every variable |
| VariableCodec.LoadFileA | gui_func.py:185-191 | the six File A lines, stripped, are assigned to their six variables in order and no key is dropped |
| VariableCodec.LoadFileC | gui_func.py:195-224 | every field read from File C's rows is assigned to its variable; `complete` holds exactly when all five rows have enough tokens, otherwise the fields before the first missing one are assigned |
| VariableCodec.UpdateVariableDictionary | gui_func.py:179-226 | the dictionary after loading File A then File C, equal to the specification `Loaded` for every key; the swallowed exception is reported exactly when a file is missing or File C is short |
| VariableCodec.WriteFileA | gui_func.py:235-245 | the text left in File A and whether all writes were made, equal to the write specification `Emit(FileAPieces(..))` |
| VariableCodec.WriteFileC | gui_func.py:247-270 | the text left in File C and whether all writes were made, equal to `Emit(RowsPieces(..))` |
| CodecLaws.FileAWritten | gui_func.py:235-245 | the File A write completes exactly when all six values exist; the file then holds the six values, one per line, followed by the old file from its seventh line on |
| CodecLaws.FileCWritten | gui_func.py:247-270 | the File C write completes exactly when every field exists; the file then holds exactly the five rows |
| CodecLaws.RowsWritten | gui_func.py:247-270 | by induction on rows: the writes of the first `n` rows complete exactly when their fields exist, and then leave one line per row |
| CodecLaws.LoadAText | gui_func.py:185-191 | loading a File A whose first six lines hold storable values gives each of its variables its own line |
| CodecLaws.LoadCText | gui_func.py:195-224 | loading a File C of storable rows completes and gives each field's variable its token |
| CodecLaws.FileAWriteLoad | gui_func.py:185-245 | write then load: File A's six variables read back the values written, for values that are one line with no `'\r'` and no surrounding whitespace |
| CodecLaws.FileARoundTrip | gui_func.py:185-245 | load then write: File A is written back unchanged when its values are storable and the count is already an integer |
| CodecLaws.FileCWriteLoad | gui_func.py:195-270 | write then load: every File C variable reads back the text written |
| CodecLaws.FileCRoundTrip | gui_func.py:195-270 | load then write: File C is written back unchanged when its rows are storable and the first row's fields are already integers |
| Series.Floats | gui_func.py:298 | the list comprehension of `float()` succeeds exactly when every line converts, and then gives each line's conversion |
| Series.ImportConcentration | gui_func.py:314-327 | the concentration import equals `ConcentrationOf`: the lines after the first six, each converted |
| Series.ImportTimestamps | gui_func.py:285-299 | the time-stamp import equals `TimestampsOf`: skip the integer on line one and that many lines, then convert each line |
| Series.DropHeader | gui_func.py:302-327 | skipping a header's lines in the exported text leaves exactly the exported values, for header lines holding no `'\n'` or `'\r'` |
| Series.ConcentrationRoundTrip | gui_func.py:302-327 | exporting a six-line header and the values, then importing, gives the values back, for header lines holding no `'\n'` or `'\r'` |
| Text.UnderscoreIgnored | gui_func.py:292 | `int()` of digits with one underscore between two runs equals `int()` of the digits alone |
| Text.UnderscoreMisplaced | gui_func.py:292 | `int()` fails on an underscore at either end or two underscores in a row |
| Series.TimestampsRoundTrip | gui_func.py:273-299 | exporting `n`, `n` header lines and the values, then importing, gives the values back, for header lines holding no `'\n'` or `'\r'` |
| Series.NonEmpty | gui_base.py:616-617 | the filter keeps exactly the non-empty lines |
| Series.NonEmptyAppend | gui_base.py:616-617 | the filter keeps order and repeats: filtering two pieces one after the other gives the filtered pieces one after the other, so row `i` is the `i`-th non-empty pasted line |
| Series.NonEmptyKeeps | gui_base.py:616-617 | lines that are all non-empty are kept unchanged, repeats included |
| Series.Numbered | gui_base.py:619 | row `i` of the table is `[i + 1, values[i]]` |
| Series.NumberedValues | gui_base.py:620 | reading the values back off a numbered table gives the series |
| Series.PastedLinesShape | gui_base.py:616-617 | the pasted lines are non-empty and contain no `'\n'` |
| Jobs.Sweep | gui_base.py:434-445 | `len(queue)` pops from the head, a live run re-queued at the tail: what is kept is `Live(queue)` and what is drawn is `Dead(queue)` |
| Jobs.SweepMembers | gui_base.py:434-445 | a run is kept exactly when it was queued and is alive, and drawn exactly when it was queued and has finished |
| Jobs.SweepPartitions | gui_base.py:434-445 | every queued run is kept or drawn, never both and never lost (multiset equality) |
| Jobs.LiveAppend | gui_base.py:434-445 | the sweep keeps queue order |
| Jobs.LiveAll | gui_base.py:434-445 | an all-alive queue is kept as is; an all-finished queue is emptied |
| Jobs.SweepDistinct | gui_base.py:434-445 | a queue without repeated runs leaves kept and drawn lists without repeats |
| Jobs.LaunchKeepsValid | gui_func.py:74-84 | queueing the next run number keeps the bookkeeping invariant (no run queued twice, none both queued and drawn, all below the next number) |
| Jobs.SweepKeepsValid | gui_base.py:434-445 | a sweep keeps the same invariant, so a drawn run is never queued or drawn again |
| Search.Matching | gui_base.py:549 | a name is listed exactly when it is a dictionary key that contains the folded query, and no more names than keys are listed |
| Search.SearchListShows | gui_base.py:547-552 | an empty query lists every key in order; any other query lists exactly the matching keys |
| Search.MatchingAppend | gui_base.py:549 | the filtered list keeps dictionary order |
| Search.SpacesListAll | gui_base.py:549 | a query of only spaces folds to nothing and lists every key |
| Search.FoldedIgnoresCase | gui_base.py:549 | the case of the query does not change what it lists |
| Search.FoldedIgnoresSpaces | gui_base.py:549 | spaces in the query do not change what it lists |
| StatusDialog.Initial | gui_radio.py:9 | the status map has exactly the given names, each without a status |
| StatusDialog.VariableSetter.constructor | gui_radio.py:7-9 | the dialog starts with its names and every status unset |
| StatusDialog.VariableSetter.Run | gui_radio.py:22-48 | the event loop's outcome and final statuses equal the run specification `RunOf` on the starting statuses; when the dialog returns or is still waiting, the dialog's statuses are the ones in the outcome |
| StatusDialog.ExitNeedsAll | gui_radio.py:25-29 | closing or submitting returns exactly when every variable has a status, and otherwise changes nothing |
| StatusDialog.ReturnsAllSet | gui_radio.py:22-48 | by induction on events: the dialog returns only a map in which every variable has a status |
| StatusDialog.RunKeepsStarting | gui_radio.py:22-48 | a returned map still has every variable the dialog started with |
| StatusDialog.RunKeepsNames | gui_radio.py:22-48 | for events about the dialog's own variables, a returned map has exactly those variables |
| StatusDialog.StepTouchesOnlyBase | gui_radio.py:31-45 | an event changes at most the variable its key names |
| StatusDialog.DeterminedSets | gui_radio.py:37-45 | pressing Determined sets that variable to `determined` |
| StatusDialog.GuessKeeps | gui_radio.py:37-43 | pressing Initial Guess changes no status |
| StatusDialog.ValueSets | gui_radio.py:32-36 | typing a number sets the variable to it; typing anything else changes nothing |
| PestInputs.EstimatedNames | gui_base.py:674-680 | the dialog is opened with the five estimated variables' names, in order |
| PestInputs.StartingCovers | gui_base.py:689-700 | a returned status map that kept the starting names covers every variable the writers look up |
| PestInputs.TemplateFirst | gui_base.py:695-696 | the template's first line is `ptf #` |
| PestInputs.TemplateVariables | gui_base.py:697-701 | lines 1 to 5 hold each estimated variable: its value when determined, its `# alias #` marker otherwise |
| PestInputs.TemplateCount | gui_base.py:702 | line 6 holds the row count |
| PestInputs.TemplateData | gui_base.py:703-704 | after the first seven lines come exactly the table's values |
| PestInputs.ParNamesAreAliases | gui_base.py:715-719 | each parameter line is named by the alias of a variable that is not determined, in dialog order, and gives its initial guess, `1.0` and `0.0` |
| PestInputs.ParametersMatchTemplate | gui_base.py:695-719 | a variable has a template marker exactly when it is not determined, and then, and only then, has a parameter line; no parameter has two |
| PestInputs.InstructionsMatchObservations | gui_base.py:726-738 | on a table numbered from 1, instruction line `i` reads observation `o(i+1)` and observation line `i` gives that name with the `i`-th value; the names are distinct |
| Sections.Append | gui_base.py:758 | `store[key].append(line)` keeps headers unique; a new key becomes the last header |
| Sections.Touch | gui_base.py:762 | reading a key never changes any key's lines; a present key leaves the headers as they were, an absent key becomes the last header, with no lines; headers stay unique |
| Sections.GetAppend | gui_base.py:758 | appending adds the line at the end of its key's lines and leaves every other key alone |
| Sections.GetSetLine | gui_base.py:776 | setting a line changes that line of that key and nothing else |
| PestControl.GroupControl | gui_base.py:751-758 | the grouping of `test.pst` lines never stores a header twice |
| PestControl.ReadControl | gui_base.py:748-758 | the grouping loop equals `GroupControl` |
| PestControl.PreambleIgnored | gui_base.py:754-758 | lines before the first header leave nothing behind |
| PestControl.SectionCollects | gui_base.py:754-758 | the lines after a header, up to the next header, are added in order to that header's section, and no other section changes |
| PestControl.WriteControl | gui_base.py:783-789 | the writing loop equals `ControlText`: `pcf`, then each header and its lines |
| PestControl.ControlRoundTrip | gui_base.py:748-789 | writing the sections and reading the file back gives the same sections in the same order, for header and body lines holding no `'\n'` or `'\r'` |
| PestControl.BoundsOf | gui_base.py:762-764 | the bounds extraction succeeds exactly when every parameter row has at least six tokens |
| PestControl.BoundsNamed | gui_base.py:762-764 | no name gets bounds unless a row names it: every name with bounds has a last row naming it |
| PestControl.BoundsOfLastRow | gui_base.py:762-764 | a later row for a name wins: each named parameter gets the fifth and sixth tokens of the last row that names it |
| PestControl.ReadBounds | gui_base.py:760-764 | the extraction loop equals `BoundsOf` |
| PestControl.RewriteRowTokens | gui_base.py:774-776 | a row can be rewritten exactly when it has at least four tokens and its name has chosen bounds; the rewritten row splits into its first four tokens, the chosen lower and upper bounds, and its tokens from the seventh on, so a row of six or more tokens keeps its count and every token but the two bounds |
| PestControl.RewriteParameters | gui_base.py:774-776 | every parameter row is replaced in place by its rewrite with the chosen bounds; no other section changes; it fails exactly when a row cannot be rewritten |
| PestControl.SetRunFiles | gui_base.py:779-781 | the command becomes `test` and the two file pairs are set; it fails exactly when a section is too short; nothing else changes |
| PestControl.PestSections | gui_base.py:748-762 | the sections of `test.pst`, with the parameter section inserted by its first read, have unique headers |
| PestControl.RevisedInTwoSteps | gui_base.py:774-781 | rewriting the rows, then setting the command and file pairs, is a revision of the first store |
| PestControl.ReviseControl | gui_base.py:748-789 | it is cancelled exactly when the bounds read and the limit dialog is cancelled; it is revised exactly when revisable; the text written is the revised store's |
| PestRecord.StripBreaks | gui_base.py:821-822 | every record line loses its `\n` and is kept in place |
| PestRecord.GroupRecord | gui_base.py:824-831 | the record's grouping never stores a header twice |
| PestRecord.ReadRecord | gui_base.py:824-831 | the grouping loop equals `GroupRecord` |
| PestRecord.SectionPresent | gui_base.py:824-831 | a marker's section has lines exactly when the marker line occurs, and then starts with that line |
| PestRecord.ResultsShown | gui_base.py:839-843 | the results are shown exactly when both marker lines occur in the record |
| PestRecord.Results | gui_base.py:839-843 | the two texts are shown exactly when both sections have lines; otherwise the error popup |
| PestRecord.ReadResults | gui_base.py:816-843 | reading `test.rec`: shown exactly when both markers occur, each text starting with its marker |
| Application.IfPresent | gui_base.py:137-140 | a path is kept exactly when its file exists |
| Application.Content | gui_func.py:51-53 | the text at a path, present exactly when the path is set and the file exists |
| Application.Placeholder | gui_base.py:183-184 | the starting table is rows 1 to 42, each `NA` |
| Application.Remembered | gui_func.py:55-65 | the three digests are recorded and every other path's digest is kept |
| Application.Recorded | gui_func.py:51-65 | a file that cannot be read leaves the memory unchanged |
| Application.RememberedChanges | gui_func.py:55-67 | recording changes the memory exactly when some digest differs from the one remembered |
| Application.RememberedTwice | gui_func.py:55-67 | recording twice on the same files changes nothing and finds no update |
| Application.DisplayOf | gui_base.py:816-843 | no record shows nothing; otherwise the two texts are shown exactly when the record holds both sections |
| Application.ImportedSeriesReadsBack | gui_base.py:615-624 | after a pasted concentration series is exported and File A's variable lines are written over the header, the concentration import gives back the pasted values, provided no header line or variable value holds a `'\n'` or `'\r'` |
| Application.Gui.constructor | gui_base.py:132-184 | the paths are set when their files exist; the memory and the run queue are empty; every variable is `None`; both tables hold the 42 placeholder rows |
| Application.Gui.RefreshUtility | gui_func.py:45-70 | succeeds exactly when all three files can be read, never returns `False`, records the digests, and reports an update exactly when a digest changed |
| Application.Gui.Launch | gui_func.py:74-84 | the next run is queued at the tail and the bookkeeping invariant is kept |
| Application.Gui.IsAnyThreadRunning | gui_base.py:434-445 | the queue becomes its live runs; the finished runs are drawn in order; the result is true exactly when runs are left; the invariant is kept |
| Application.Gui.Refresh | gui_base.py:448-477 | the first missing input stops it with its popup and no change; otherwise digests are recorded; a missing executable stops it; otherwise a run is queued under the next number and both tables are loaded, or an import failure escapes with the time-stamp table filled exactly when its import succeeded and the concentration table as it was |
| Application.Gui.LaunchAndLoad | gui_base.py:470-475 | one run is queued under the next number; the outcome is `Launched` exactly when both imports succeed; the time-stamp table is filled exactly when its import succeeds, the concentration table only when both do |
| Application.Gui.LoadTables | gui_base.py:472-475 | the time stamps are loaded, then the concentrations; a failed import leaves the tables not yet filled as they were |
| Application.Gui.WriteUpdatedValues | gui_func.py:230-270 | no File A changes nothing; otherwise File A is rewritten, and File C only when every File A write was made; the whole file store afterwards is `WrittenBack` of the store before, so no other path changes |
| Application.Gui.Export | gui_func.py:273-311 | the items joined by `\n` are written to the path when there is one |
| Application.Gui.ImportData | gui_base.py:612-634 | for concentrations: the table is the pasted lines numbered, the observation count is their number, and File A holds the new variable lines over the exported series, after which the whole file store is `WrittenBack` of it (File A rewritten with the variables, File C rewritten when every File A write was made, no other path touched); for time stamps: the table, and `in_2.dat` holds `1`, `16.87` and the series; any other key changes nothing |
| Application.Gui.RunParameterEstimation | gui_base.py:672-843 | no files change until the dialog returns; once it returns, every status is set and the estimation follows `Estimates` |
| Application.Gui.Estimate | gui_base.py:695-843 | the four PEST inputs are written; `test.pst` is written back exactly when revisable, with the revised sections; a cancelled limit dialog is reported; the record decides what is shown |

## Left out

- Layout, plotting, themes, the busy popup and button freezing: user interface only (gui_base.py:191-430, gui_func.py:88-176).
- Threads and subprocesses: running `test.exe`, `tempchek`, `inschek`, `pestgen`, `pestchek` and `pest` is not modelled. A run is a queued number, and the files `pestgen` and PEST write are the parameters `pst` and `rec`.
- GUILimitSetter and GUIModeInitializer are not part of this model. The limit dialog is the parameter `choose`. The mode table the mode dialog is opened with is modelled (`Variables.Modes`), but the choice of a mode is not (gui_base.py:396-410).
- The path setters (gui_base.py:515-545): each path is fixed when the front end starts, so the paths are constants of `Application.Gui`.
- `update_variable` and `edit_table_cells` (gui_base.py:554-592): both take their values from popups. Neither is modelled.
- Text.ParseInt: accepts ASCII digits only. Python's `int()` also reads other Unicode decimal digits, such as Arabic-Indic ones, but the model returns `None` for them. This reaches the skip count read by `Series.ImportTimestamps` (gui_func.py:292).
- The file store holds text exactly as written, and reading it assumes Python's newline translation is already done. A `'\r'` written inside a line would come back as a line end, so every read-back lemma (`CodecLaws.FileAWriteLoad`, `Application.ImportedSeriesReadsBack`, `Series.DropHeader`, `Series.ConcentrationRoundTrip`, `Series.TimestampsRoundTrip`, `PestControl.ControlRoundTrip`) excludes lines holding one. A pasted line may still end in `'\r'` (`Series.PastedLinesShape` excludes only `'\n'`); the exported file then holds `"\r\n"`, which Python reads as one line end while the model keeps the `'\r'` on the line.
- Search.Folded: `lower()` is modelled for ASCII letters only. Python's full Unicode case mapping is left out.
- Float parsing and formatting are left as parameters (`toFloat`, `conv`), and so is the SHA-256 digest (`hash`).
- The `.tmp` directory, `shutil`, `uuid` and `warnings` uses: file housekeeping with no effect on the modelled state.
- Application.Gui.RunParameterEstimation: the status dialog is given as its list of events. A dialog still waiting for events is the outcome `Asking`.
- Application.Gui.Estimate: pestgen and PEST are not run, so the model does not say that `test.pst` and `test.rec` are their outputs for the inputs written.
