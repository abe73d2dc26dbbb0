# IFCPropGetter extraction core, modelled in Dafny

IFCPropGetter reads an IFC building model and exports a table of element
properties. One extraction run does the following:

- it opens the model and enumerates its `IfcProduct` instances;
- it skips container and annotation classes;
- for every other element it resolves each requested property (`Pset.Prop`
  in one named set, or a bare name searched across all sets);
- it keeps the elements that have at least one real value, each with its
  GlobalId and Name columns when these are enabled;
- it orders the columns and names the output file from a sanitised base
  name, the date and the format's extension;
- it hands the table to a CSV or Excel writer.

Throughout, it reports progress on a queue as `log`, `status`, `error`,
`complete` and `finished` messages.

The project has five modules:

- `Wrappers` (`wrappers.dfy`): `Option` and `Result`.
- `Constants` (`constants.dfy`): the constants of `constants.py`.
- `Utils` (`utils.dfy`): `safe_str`, `clean_filename`, `make_output_filename`
  (with the parts of `str.strip`, `str.lstrip` and `strftime` it uses) and
  `extract_property_from_psets`.
- `Extractor` (`extractor.dfy`): `extract_properties`. It has two layers:
  - specification functions (`Judge`, `KeptRows`, `Warnings`, `ColumnOrder`,
    `WriteRequestFor`, `Stages`, `ExtractStage`, `ExportStage`, `Run`);
  - methods that follow the source's loops and early returns
    (`ResolveRequests`, `ProcessElement`, `ScanProducts`, `SelectColumns`,
    `RunStages`, `ExtractAndExport`, `ExportRows`, `ExtractProperties`). Each
    method is proved equal to its specification function.
- `ExtractorProperties` (`extractor_properties.dfy`): what a run promises,
  proved about those functions. It covers which elements give rows and
  warnings, the row shape, the column order, the written table, the one
  outcome each run reports, cancellation, `finished` coming last, and two
  worked runs.

The outside world is an input to the model:

- `Env.openResult` is the outcome of `ifcopenshell.open`, and inside it the
  outcome of `by_type("IfcProduct")`.
- `Element.psets` is the outcome of `get_psets` for that element.
- `Env.stopAt` is the stop flag: the number of the first `is_set()` check that
  sees it set. Check 0 follows the open, check `i + 1` precedes element `i`,
  and check `n + 1` precedes the write.
- `Env.today` is the clock, as month and day.
- `Env.writeError` is the writer's outcome.

A run returns the sequence of queue messages (`Event`) and the write request
it handed to the writer (path, Excel or not, and the table).

## Model

| member | source | states |
|---|---|---|
| Constants.SkipSetIsExact | IFCPropGetter/ifc_prop_getter/constants.py:15-18 | eight classes are skipped, by exact name: `IfcBuildingStorey` and `IfcStructuralItem` are among them, `IfcWall` and `IfcBeam` are not |
| Constants.InvalidCharsAreExact | IFCPropGetter/ifc_prop_getter/constants.py:27 | the invalid file-name characters are nine, the double quote among them; `.`, `_` and `-` are not invalid |
| Constants.DefaultsAreUnqualified | IFCPropGetter/ifc_prop_getter/constants.py:8-12 | no default request contains a dot |
| Utils.SafeStr | IFCPropGetter/ifc_prop_getter/utils.py:21-25 | `None` gives `N/A` and a value gives its text; the result differs from `N/A` exactly when a value is stored and its text is not `N/A` |
| Utils.LeadingSpacesRun | IFCPropGetter/ifc_prop_getter/utils.py:42 | the leading run `strip()` removes is all whitespace and ends at a non-space |
| Utils.TrailingSpacesRun | IFCPropGetter/ifc_prop_getter/utils.py:42 | the trailing run `strip()` removes is all whitespace and starts after a non-space |
| Utils.StripWindow | IFCPropGetter/ifc_prop_getter/utils.py:42 | `strip()` keeps a window of the string with only whitespace outside it and no whitespace at its ends; the result is empty exactly when the string is all whitespace |
| Utils.StripSlices | IFCPropGetter/ifc_prop_getter/utils.py:42 | the kept window starts after the leading run; everything outside it is whitespace and neither of its ends is |
| Utils.StripOutside | IFCPropGetter/ifc_prop_getter/utils.py:42 | every character outside the kept window is whitespace |
| Utils.StripEnds | IFCPropGetter/ifc_prop_getter/utils.py:42 | a non-empty stripped string starts and ends with a non-space |
| Utils.StripFixedPoint | IFCPropGetter/ifc_prop_getter/utils.py:42 | `strip()` leaves a string unchanged exactly when it has no whitespace at either end; stripping twice equals stripping once |
| Utils.Strip | IFCPropGetter/ifc_prop_getter/utils.py:42 | definition of `strip()`: it is never longer than its input; its properties are carried by `StripWindow`, `StripSlices`, `StripOutside`, `StripEnds` and `StripFixedPoint` |
| Utils.CleanChar | IFCPropGetter/ifc_prop_getter/utils.py:28-30 | the replacement of one character is never an invalid character |
| Utils.CleanFilename | IFCPropGetter/ifc_prop_getter/utils.py:28-30 | `clean_filename` keeps the length |
| Utils.CleanFilenameSpec | IFCPropGetter/ifc_prop_getter/utils.py:28-30 | every invalid character becomes `_`, every other character is kept, and no invalid character remains |
| Utils.CleanFilenameFixedPoint | IFCPropGetter/ifc_prop_getter/utils.py:28-30 | a name is unchanged exactly when it holds no invalid character; cleaning is idempotent |
| Utils.TwoDigits | IFCPropGetter/ifc_prop_getter/utils.py:41 | a `%m` or `%d` field is two digits that read back as the number |
| Utils.Strftime | IFCPropGetter/ifc_prop_getter/utils.py:41 | definition of `strftime` for the `%m` and `%d` directives; its properties for the date format are carried by `DateStampLayout` |
| Utils.DateStamp | IFCPropGetter/ifc_prop_getter/utils.py:41 | definition of the `strftime(DATE_FORMAT)` stamp; its layout and read-back are carried by `DateStampLayout` |
| Utils.DateStampLayout | IFCPropGetter/ifc_prop_getter/utils.py:41 | the `%m-%d` stamp is two digits, a hyphen and two digits, from which the month and the day read back |
| Utils.LStripDotsSuffix | IFCPropGetter/ifc_prop_getter/utils.py:43 | `lstrip('.')` removes a leading run of dots and keeps a suffix that does not start with a dot |
| Utils.LStripDots | IFCPropGetter/ifc_prop_getter/utils.py:43 | definition of `lstrip('.')`: never longer than its input, and never starting with a dot; `LStripDotsSuffix` adds that it is a suffix after a run of dots |
| Utils.OutputStemClean | IFCPropGetter/ifc_prop_getter/utils.py:42 | the sanitised base is never empty and holds no invalid character |
| Utils.OutputStem | IFCPropGetter/ifc_prop_getter/utils.py:42 | definition of the sanitised base: never empty; `OutputStemClean` and `OutputStemCases` carry the rest |
| Utils.OutputFilenameLayout | IFCPropGetter/ifc_prop_getter/utils.py:39-43 | the file name starts with the sanitised base `OutputStem(base)` (clean and non-empty), then `_`, the `MM-DD` stamp of the date, `.` and the extension without leading dots, each at a fixed position, so the stem, the date and the extension read back |
| Utils.OutputStemCases | IFCPropGetter/ifc_prop_getter/utils.py:42 | a blank base gives `ifc_properties_export`; a trimmed base free of invalid characters is kept verbatim |
| Utils.OutputFilenameExample | IFCPropGetter/ifc_prop_getter/utils.py:39-43 | `My:Data*1` with `xlsx` on 7 March gives `My_Data_1_03-07.xlsx` |
| Utils.MakeOutputFilename | IFCPropGetter/ifc_prop_getter/utils.py:39-43 | definition of `make_output_filename`; its properties are carried by `OutputFilenameLayout` and `OutputFilenameExample` |
| Utils.Lookup | IFCPropGetter/ifc_prop_getter/utils.py:94 | a dictionary lookup is `None` exactly when the key is absent, and otherwise yields the value of the key's first occurrence |
| Utils.LookupUnique | IFCPropGetter/ifc_prop_getter/utils.py:94 | with unique keys, the lookup finds the one value stored under the key |
| Utils.FirstDot | IFCPropGetter/ifc_prop_getter/utils.py:92-93 | the position found is a dot with no dot before it |
| Utils.SplitFirstDot | IFCPropGetter/ifc_prop_getter/utils.py:93 | `split('.', 1)` gives parts that rejoin with a dot to the request, the first part without a dot |
| Utils.SplitJoin | IFCPropGetter/ifc_prop_getter/utils.py:93 | splitting inverts joining whenever the set name has no dot, so the property name keeps every later dot |
| Utils.QualifiedRequest | IFCPropGetter/ifc_prop_getter/utils.py:92-97 | `S.P` gives `N/A` when set S is absent or empty, when P is absent from it or when P is null; otherwise it gives P's value |
| Utils.QualifiedRequestFindsStored | IFCPropGetter/ifc_prop_getter/utils.py:92-97 | in well-formed sets, `S.P` gives the stringified value stored under S and P |
| Utils.UnqualifiedRequest | IFCPropGetter/ifc_prop_getter/utils.py:98-102 | a bare name gives the stringified value of the first set holding it (`N/A` if that value is null, whatever later sets hold) and `N/A` when no set holds it |
| Utils.SearchAllFirst | IFCPropGetter/ifc_prop_getter/utils.py:99-102 | the search across sets returns at the first set holding the name, and gives `N/A` when none does |
| Utils.SearchAll | IFCPropGetter/ifc_prop_getter/utils.py:99-102 | definition of the search across all sets; its properties are carried by `SearchAllFirst` and `UnqualifiedRequest` |
| Utils.ResolverExamples | IFCPropGetter/ifc_prop_getter/utils.py:90-102 | in `{"Pset_A": {"Mark": "X1"}}`, `Pset_A.Mark` and `Mark` give `X1`; `Pset_B.Mark` and `Missing` give `N/A` |
| Utils.SplitsAtFirstDotOnly | IFCPropGetter/ifc_prop_getter/utils.py:92-93 | `A.B.C` asks set `A` for property `B.C` |
| Utils.SentinelIsAmbiguous | IFCPropGetter/ifc_prop_getter/utils.py:96-102 | a stored `N/A`, a null and an absent property resolve alike; a null in the first holder hides a later real value |
| Utils.DefaultsSearchAllSets | IFCPropGetter/ifc_prop_getter/utils.py:98-102 | every default request takes the search across all sets |
| Utils.ExtractProperty | IFCPropGetter/ifc_prop_getter/utils.py:90-102 | definition of `extract_property_from_psets`; its properties are carried by `QualifiedRequest`, `QualifiedRequestFindsStored`, `UnqualifiedRequest`, `SentinelIsAmbiguous` and `ResolverExamples` |
| Extractor.ResolveRow | IFCPropGetter/ifc_prop_getter/extractor.py:58-62 | the row has exactly the requested keys, each holding that request's resolved value |
| Extractor.Judge | IFCPropGetter/ifc_prop_getter/extractor.py:50-73 | an element is skipped exactly when its class is in the skip set; it faults exactly when it is not skipped and fetching its sets failed; it is kept exactly when it is not skipped, its sets were fetched and some request resolves to a real value |
| Extractor.AddIdentity | IFCPropGetter/ifc_prop_getter/extractor.py:64-68 | definition of the identity columns of a kept row; what the row then holds is carried by `KeptRowShape` |
| Extractor.KeptRows | IFCPropGetter/ifc_prop_getter/extractor.py:45-73 | definition of the rows a scan keeps; their order and contents are carried by `KeptRowsFollowElements`, `KeptRowsCarry` and `ScanStep` |
| Extractor.Warnings | IFCPropGetter/ifc_prop_getter/extractor.py:71-73 | every message of the scan apart from progress is a warning about a faulted element |
| Extractor.ScanStep | IFCPropGetter/ifc_prop_getter/extractor.py:45-73 | scanning one more element appends its rows and its warnings |
| Extractor.ResolveRequests | IFCPropGetter/ifc_prop_getter/extractor.py:55-62 | the inner loop builds the resolved row and sets `has_valid` exactly when some request resolves to a real value |
| Extractor.ProcessElement | IFCPropGetter/ifc_prop_getter/extractor.py:50-73 | one element's pass adds its kept row, or its warning, or nothing |
| Extractor.ScanProducts | IFCPropGetter/ifc_prop_getter/extractor.py:45-73 | the element loop is cancelled exactly when the flag is first seen before some element, and then it logs the warnings up to that element and the cancellation; otherwise it yields the kept rows and all warnings in element order |
| Extractor.PresentColumns | IFCPropGetter/ifc_prop_getter/extractor.py:86 | the filtered requests are exactly the requests that some row carries, never more of them; `PresentColumnsInOrder` adds that they keep request order |
| Extractor.ColumnOrder | IFCPropGetter/ifc_prop_getter/extractor.py:86-90 | definition of the final column order; `SelectColumns` computes it and `ColumnsOfFullRows` states it for kept rows |
| Extractor.SelectColumns | IFCPropGetter/ifc_prop_getter/extractor.py:86-90 | the columns are GlobalId, then Name (each if enabled and present), then the present requests in request order |
| Extractor.Project | IFCPropGetter/ifc_prop_getter/extractor.py:91 | `df[cols]` has those columns and one record per row, and each cell holds the row's value under its column |
| Extractor.Extension | IFCPropGetter/ifc_prop_getter/extractor.py:95 | the extension is `xlsx` exactly when the format is `Excel`, and `csv` for any other format |
| Extractor.CancelIndex | IFCPropGetter/ifc_prop_getter/extractor.py:46-48 | the element before which the flag is first seen is within the scan, and the flag was not seen at the check before |
| Extractor.WriteRequestFor | IFCPropGetter/ifc_prop_getter/extractor.py:84-103 | definition of the write call of a run; what it holds is carried by `WrittenFile`, `WriteRequestContents` and `ExampleWrite` |
| Extractor.Stages | IFCPropGetter/ifc_prop_getter/extractor.py:18-112 | definition of the body of the outer `try`; `RunStages` computes it and `StagesNotices` states its notices |
| Extractor.ExtractStage | IFCPropGetter/ifc_prop_getter/extractor.py:33-112 | definition of the stages after enumeration; `ExtractAndExport` computes it and `ExtractStageNotices` states its notices |
| Extractor.ExportStage | IFCPropGetter/ifc_prop_getter/extractor.py:75-112 | definition of the stages after the scan; `ExportRows` computes it and `ExportStageNotices` states its notices |
| Extractor.Run | IFCPropGetter/ifc_prop_getter/extractor.py:15-118 | definition of a whole run; `ExtractProperties` computes it, and `RunNotices`, `FinishedOnceAtEnd`, `ErrorReported` and `RunWrites` carry its properties |
| Extractor.RunStages | IFCPropGetter/ifc_prop_getter/extractor.py:18-112 | the body of the outer `try` with its early returns produces the stage-by-stage events, write and escaped fault |
| Extractor.ExtractAndExport | IFCPropGetter/ifc_prop_getter/extractor.py:33-112 | after enumeration, the count, the empty-model error, the scan and the export give the stage's events and write |
| Extractor.ExportRows | IFCPropGetter/ifc_prop_getter/extractor.py:75-112 | after the scan, the count, the no-data error, the column order, the last stop check and the write give the stage's events and write |
| Extractor.ExtractProperties | IFCPropGetter/ifc_prop_getter/extractor.py:15-118 | `extract_properties` produces the run's events and write, and its last event is `finished` |
| ExtractorProperties.IndicesExact | IFCPropGetter/ifc_prop_getter/extractor.py:45 | the positions listed for a verdict are ascending and are exactly the elements with that verdict |
| ExtractorProperties.IndicesAscending | IFCPropGetter/ifc_prop_getter/extractor.py:45 | the listed positions are in strictly increasing scan order |
| ExtractorProperties.IndicesMembership | IFCPropGetter/ifc_prop_getter/extractor.py:45 | a position is listed exactly when its element's verdict matches |
| ExtractorProperties.KeptRowsFollowElements | IFCPropGetter/ifc_prop_getter/extractor.py:45-69 | row `k` is the row of the `k`-th kept element, in element order, one row per kept element |
| ExtractorProperties.WarningsFollowFaults | IFCPropGetter/ifc_prop_getter/extractor.py:45-73 | warning `k` names the GlobalId and the fault of the `k`-th faulted element, one warning per faulted element, and the scan goes on |
| ExtractorProperties.SkippedContributeNothing | IFCPropGetter/ifc_prop_getter/extractor.py:50-51 | an element of a skipped class gives neither a row nor a warning |
| ExtractorProperties.KeptRowShape | IFCPropGetter/ifc_prop_getter/extractor.py:58-68 | a kept row's keys are exactly the requests plus the enabled identity columns; the identity columns hold `safe_str` of GlobalId and Name, and the other requests hold their resolved values |
| ExtractorProperties.PresentColumnsKeepsAll | IFCPropGetter/ifc_prop_getter/extractor.py:86 | when one row carries every request, no request is filtered out |
| ExtractorProperties.PresentColumnsInOrder | IFCPropGetter/ifc_prop_getter/extractor.py:86 | the filtered requests are the requests at strictly increasing positions, so the filter keeps request order |
| ExtractorProperties.KeptRowsCarry | IFCPropGetter/ifc_prop_getter/extractor.py:58-69 | every kept row carries every request and every enabled identity column |
| ExtractorProperties.ColumnsOfFullRows | IFCPropGetter/ifc_prop_getter/extractor.py:86-90 | for such rows the column order is the enabled identity columns, then every request in order |
| ExtractorProperties.ExportedTable | IFCPropGetter/ifc_prop_getter/extractor.py:84-91 | the table has those columns and one record per row, in row order, whose cells are the row's values |
| ExtractorProperties.OutcomeOf | IFCPropGetter/ifc_prop_getter/extractor.py:24-112 | definition of the run's end state, read from the inputs: open failure, cancellation, escaped fault, empty model, or the export's outcome; `RunNotices`, `CompletionReported`, `ErrorReported`, `RunWrites` and `CancelledRunIsQuiet` are stated against it |
| ExtractorProperties.ExportOutcome | IFCPropGetter/ifc_prop_getter/extractor.py:75-112 | definition of the end state after the scan: no rows, a stop before the write, a failed write, or an export of that path and row count; `ExportStageNotices` and `ExportStageWrites` are stated against it |
| ExtractorProperties.Notices | IFCPropGetter/ifc_prop_getter/extractor.py:15-118 | the notices of a run are its error, completion and finished messages |
| ExtractorProperties.NoticesAppend | IFCPropGetter/ifc_prop_getter/extractor.py:15-118 | the notices of a concatenation are the concatenated notices |
| ExtractorProperties.NoticesOfProgress | IFCPropGetter/ifc_prop_getter/extractor.py:15-118 | log and status messages are never notices |
| ExtractorProperties.NoticeMembership | IFCPropGetter/ifc_prop_getter/extractor.py:15-118 | a notice occurs among the messages exactly when it occurs among their notices |
| ExtractorProperties.ExportStageNotices | IFCPropGetter/ifc_prop_getter/extractor.py:75-112 | the export stage reports exactly its outcome: the no-data error, nothing when stopped, the write error, or the completion with its path and row count |
| ExtractorProperties.ExtractStageNotices | IFCPropGetter/ifc_prop_getter/extractor.py:33-112 | after enumeration, the stages report exactly the run's outcome: the empty-model error, nothing on cancellation, or the export's outcome |
| ExtractorProperties.StagesNotices | IFCPropGetter/ifc_prop_getter/extractor.py:18-112 | the outer `try` body reports exactly the run's outcome, except for a fault that escapes to the outer handler, which it leaves unreported |
| ExtractorProperties.RunNotices | IFCPropGetter/ifc_prop_getter/extractor.py:15-118 | every run's error and completion messages are exactly its outcome's single message (none for a cancellation), followed by `finished` |
| ExtractorProperties.FinishedOnceAtEnd | IFCPropGetter/ifc_prop_getter/extractor.py:117-118 | `finished` is the last message of every run and appears nowhere else |
| ExtractorProperties.CompletionReported | IFCPropGetter/ifc_prop_getter/extractor.py:99-112 | a run sends `complete` with a path and count exactly when it wrote that file with that many rows |
| ExtractorProperties.ErrorReported | IFCPropGetter/ifc_prop_getter/extractor.py:24-116 | a run sends an error exactly when that error is its outcome's message, so it sends at most one error, and none when it completes or is cancelled |
| ExtractorProperties.CancellationLogged | IFCPropGetter/ifc_prop_getter/extractor.py:30-93 | the cancellation is logged exactly when the flag is first seen before an element; seen after the open or before the write, the run ends silently |
| ExtractorProperties.CancellationLoggedOnce | IFCPropGetter/ifc_prop_getter/extractor.py:46-48 | a cancelled scan logs the cancellation exactly once, as the message just before `finished` |
| ExtractorProperties.CancelledRunIsQuiet | IFCPropGetter/ifc_prop_getter/extractor.py:30-93 | a cancelled run writes nothing and sends neither an error nor `complete` |
| ExtractorProperties.RunWrites | IFCPropGetter/ifc_prop_getter/extractor.py:93-112 | a run calls the writer exactly when it ends by a write failure or a completion, and a completion reports the path written |
| ExtractorProperties.ExtractStageWrites | IFCPropGetter/ifc_prop_getter/extractor.py:45-112 | the write happens only after a full scan that kept rows, with the table of those rows |
| ExtractorProperties.WrittenFile | IFCPropGetter/ifc_prop_getter/extractor.py:84-103 | what is written has the path `output_dir` plus the dated, sanitised file name, uses the Excel writer exactly for `Excel`, and holds the enabled identity columns, then every request, as columns, with one record per kept element in scan order |
| ExtractorProperties.ExtractStageCancelLog | IFCPropGetter/ifc_prop_getter/extractor.py:36-112 | after enumeration, the cancellation is logged exactly when the scan of a non-empty model sees the flag |
| ExtractorProperties.ExportStageSilent | IFCPropGetter/ifc_prop_getter/extractor.py:75-112 | the stages after the scan never log a cancellation |
| ExtractorProperties.ExportStageWrites | IFCPropGetter/ifc_prop_getter/extractor.py:77-112 | after the scan, the writer is called exactly when there are rows and no stop before writing, with the table of those rows |
| ExtractorProperties.RunAfterEnumeration | IFCPropGetter/ifc_prop_getter/extractor.py:19-118 | once the products are enumerated and no stop is seen after the open, a run is its start messages, the later stages and `finished` |
| ExtractorProperties.ExtractAfterFullScan | IFCPropGetter/ifc_prop_getter/extractor.py:34-75 | a scan that runs to the end sends the count, the extraction status and its warnings, then the stage after the scan follows |
| ExtractorProperties.ExportWithoutFault | IFCPropGetter/ifc_prop_getter/extractor.py:75-112 | with rows, no stop and a writer that succeeds, the stage sends the row count, the writing status and `complete`, and writes the table |
| ExtractorProperties.SiteSkipped | IFCPropGetter/ifc_prop_getter/extractor.py:50-51 | an `IfcSite` is skipped, whatever its property sets hold |
| ExtractorProperties.NoSetsDiscarded | IFCPropGetter/ifc_prop_getter/extractor.py:53-64 | an element of a class that is not skipped and has no property sets resolves nothing and is discarded without a warning |
| ExtractorProperties.BeamKept | IFCPropGetter/ifc_prop_getter/extractor.py:53-69 | the marked beam is kept with its GlobalId and its mark |
| ExtractorProperties.ExampleWrite | IFCPropGetter/ifc_prop_getter/extractor.py:84-103 | the beam's row is written to `out/My_Data_1_03-07.xlsx` with the Excel writer, the columns GlobalId and `Pset_A.Mark`, and the record `B1`, `X1` |
| ExtractorProperties.EmptyModelRun | IFCPropGetter/ifc_prop_getter/extractor.py:19-118 | a model without products gives start, scanning, count 0, the no-products error and `finished`, and writes nothing |
| ExtractorProperties.QuietCompleteRun | IFCPropGetter/ifc_prop_getter/extractor.py:15-118 | a run without stop, warnings or write error that keeps rows sends the progress of each stage, `complete` and `finished`, and writes the table of its rows |
| ExtractorProperties.ExampleScan | IFCPropGetter/ifc_prop_getter/extractor.py:45-73 | of a site, a wall without sets and a marked beam, only the beam gives a row and nothing warns |
| ExtractorProperties.ExampleRun | IFCPropGetter/ifc_prop_getter/extractor.py:15-118 | that model with `Pset_A.Mark`, GlobalId on and Excel writes `out/My_Data_1_03-07.xlsx` with columns GlobalId, `Pset_A.Mark` and the one record `B1`, `X1`, and sends the exact event sequence shown |

## Left out

- `gui.py` is not part of this model. That leaves out the window, the dialogs, the polling of the queue, and the worker thread.
- Threads, the shared queue and the shared stop flag are not modelled as concurrency. The queue is an appended sequence of messages. The flag is an input, the first numbered check that sees it set, and once set it stays set.
- `ifcopenshell.open`, `by_type` and `get_psets` are foreign calls and become inputs. A fault is modelled where the source can see one:
  - at `open` (handled at extractor.py:26-28);
  - at `by_type` (escapes to the outer handler);
  - at `get_psets` (handled per element).

  Faults anywhere else are left out: in `str()` of a value, in `len`, in pandas, or in `os.path.join`.
- `str()` of non-string property values is left out. A stored value is its text already (`Some(text)`), or `None`.
- pandas is reduced to the parts the run uses: `DataFrame(results)`, `c in df.columns`, and `df[cols]` (`Project`). The CSV encoding, `index=False` and all of `export_to_excel_with_format` (sheet name, fonts, fills, borders, widths) are left out. The write is an abstract call, described by the `WriteRequest` it receives, that fails or succeeds.
- `datetime.now()` is the input `Env.today`. It holds month and day only, because only `%m-%d` is used. `Strftime` handles only the `%m` and `%d` directives and copies any other character.
- `os.path.join` is left out. The path is kept as the pair `OutputPath(dir, filename)`.
- The message texts are left out. Messages are structured values carrying the same data:
  - the path;
  - the counts;
  - the GlobalId of a faulted element;
  - the fault text;
  - the format.
- The traceback text of the outer handler is left out. `Traceback(reason)` stands in for it.
- `format_timestamp`, `get_default_output_dir` and `CHUNK_SIZE` are left out. They are not used by the extraction run.
- Which characters count as whitespace for `strip()` is modelled by code point, as Python's `str.isspace` defines it for the characters listed in `IsSpace`. Unicode normalisation is not modelled.
- Requests named `GlobalId` or `Name` are modelled as written. The window (gui.py:243-253) rejects only blank and duplicate requests, so either name can be requested. When `include_globalid` (or `include_name`) is on, the identity column overwrites the value of that request (extractor.py:65-68), and the name appears twice in the column list (extractor.py:87-90). When the flag is off, the request is resolved like any other. The model does not assume distinct requests either, and `KeptRowShape` states what the row holds in each case.

Facts about the code that the model follows:

- The invalid file-name characters include the double quote (constants.py:27).
- The default base name is used when the stripped base is empty (utils.py:42), not when the cleaned base is. The two conditions coincide, because cleaning keeps the length.
- A cancellation is logged only when the flag is seen inside the element loop (extractor.py:46-48). Seen right after opening (extractor.py:30) or just before writing (extractor.py:93), the run returns without a message. `CancellationLogged` states this.
