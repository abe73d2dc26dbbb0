/** The extraction run (extractor.py): scan the model's products, skip
    container types, resolve every requested property per element, keep the
    elements with at least one real value, order the columns, name the output
    file and hand the table to the writer, reporting progress as a sequence of
    events that always ends with `Finished`.

    The foreign calls are inputs: `Env.openResult` is the outcome of opening the
    file (and, inside it, of enumerating its products), each `Element.psets`
    the outcome of fetching that element's property sets, `Env.stopAt` the
    cancellation flag, `Env.today` the clock and `Env.writeError` the
    writer's outcome. */
module Extractor {
  import opened Wrappers
  import opened Constants
  import opened Utils

  // ---------------------------------------------------------------------------
  // Inputs
  // ---------------------------------------------------------------------------

  /** One product of the model: its entity class (`is_a()`), its GlobalId and
      Name attributes, and the outcome of fetching its property sets, which is
      either the sets or the fault raised while fetching them. */
  datatype Element = Element(
    typeTag: string,
    globalId: Option<string>,
    name: Option<string>,
    psets: Result<PropertySets, string>)

  /** An opened model: enumerating its products either yields them or raises. */
  datatype IfcFile = IfcFile(products: Result<seq<Element>, string>)

  /** The job parameters the window passes to one run. */
  datatype Job = Job(
    ifcPath: string,
    properties: seq<string>,
    includeGlobalId: bool,
    includeName: bool,
    outputDir: string,
    baseFilename: string,
    fileFormat: string)

  /** What the world answers during one run. The stop flag is read at
      numbered checks: check 0 right after opening, check `i + 1` before
      element `i`, and check `n + 1` before writing (for `n` products). Once
      set the flag stays set, so `stopAt` is the number of the first check
      that sees it set (`None`: never). */
  datatype Env = Env(
    openResult: Result<IfcFile, string>,
    stopAt: Option<nat>,
    today: Date,
    writeError: Option<string>)

  /** Whether the stop-flag check numbered `check` sees the flag set. */
  predicate StopObserved(stopAt: Option<nat>, check: nat) {
    stopAt.Some? && stopAt.value <= check
  }

  // ---------------------------------------------------------------------------
  // Outputs
  // ---------------------------------------------------------------------------

  /** One extracted row: column name to cell text. */
  type Row = map<string, string>

  /** The table handed to the writer: a header and one record per row, each
      record in column order. */
  datatype Table = Table(columns: seq<string>, records: seq<seq<string>>)

  /** The output directory and file name that `os.path.join` combines. */
  datatype OutputPath = OutputPath(dir: string, filename: string)

  /** One call of the writer: where, which format (`excel`: the formatted
      workbook writer, otherwise CSV), and what. */
  datatype WriteRequest = WriteRequest(path: OutputPath, excel: bool, table: Table)

  datatype LogMessage =
    | Started(ifcPath: string)
    | ProductsFound(count: nat)
    | CancelledByUser
    | ElementFailed(globalId: Option<string>, reason: string)
    | ExtractionDone(rowCount: nat)
    | Traceback(reason: string)

  datatype StatusMessage = Scanning | Extracting | Writing(fileFormat: string)

  datatype ErrorMessage =
    | OpenFailed(reason: string)
    | NoProducts
    | NoValidData
    | WriteFailed(reason: string)
    | Uncaught(reason: string)

  /** The messages put on the queue. */
  datatype Event =
    | Log(log: LogMessage)
    | Status(status: StatusMessage)
    | Error(error: ErrorMessage)
    | Complete(filepath: OutputPath, rowCount: nat)
    | Finished

  const GlobalIdColumn: string := "GlobalId"
  const NameColumn: string := "Name"

  // ---------------------------------------------------------------------------
  // One element (extractor.py:50-73)
  // ---------------------------------------------------------------------------

  /** The requested properties resolved against one element's sets. */
  function ResolveRow(psets: PropertySets, properties: seq<string>): (row: Row)
    ensures forall p :: p in row <==> p in properties
    ensures forall p :: p in properties ==> row[p] == ExtractProperty(psets, p)
  {
    map p | p in properties :: ExtractProperty(psets, p)
  }

  /** Some requested property resolves to a real value. */
  predicate HasRealValue(psets: PropertySets, properties: seq<string>) {
    exists p :: p in properties && ExtractProperty(psets, p) != NotAvailable
  }

  /** The identity columns a kept row receives, each the `safe_str` of the
      element attribute, GlobalId first. */
  function AddIdentity(job: Job, e: Element, row: Row): Row {
    var withId := if job.includeGlobalId then row[GlobalIdColumn := SafeStr(e.globalId)] else row;
    if job.includeName then withId[NameColumn := SafeStr(e.name)] else withId
  }

  /** What the scan does with one element. */
  datatype Verdict = Skipped | Faulted(reason: string) | Discarded | Kept(row: Row)

  /** The fate of one element: skipped by class, faulted while fetching its
      sets, discarded for lack of a real value, or kept with its row. */
  function Judge(job: Job, e: Element): (v: Verdict)
    ensures v == Skipped <==> e.typeTag in SkipEntityTypes
    ensures v.Faulted? <==> e.typeTag !in SkipEntityTypes && e.psets.Failure?
    ensures v.Faulted? ==> v.reason == e.psets.error
    ensures v.Kept? <==> && e.typeTag !in SkipEntityTypes && e.psets.Success?
                         && HasRealValue(e.psets.value, job.properties)
  {
    if e.typeTag in SkipEntityTypes then Skipped
    else match e.psets
      case Failure(reason) => Faulted(reason)
      case Success(psets) =>
        if HasRealValue(psets, job.properties)
        then Kept(AddIdentity(job, e, ResolveRow(psets, job.properties)))
        else Discarded
  }

  /** The rows one element contributes: its row if kept, else none. */
  function RowsOf(job: Job, e: Element): seq<Row> {
    match Judge(job, e)
    case Kept(row) => [row]
    case _ => []
  }

  /** The events one element contributes: a warning naming its GlobalId if
      fetching its sets faulted, else none. */
  function WarningsOf(job: Job, e: Element): seq<Event> {
    match Judge(job, e)
    case Faulted(reason) => [Log(ElementFailed(e.globalId, reason))]
    case _ => []
  }

  /** The rows of a scan over `es`, in element order. */
  function KeptRows(job: Job, es: seq<Element>): seq<Row> {
    if es == [] then [] else KeptRows(job, es[..|es| - 1]) + RowsOf(job, es[|es| - 1])
  }

  /** The warnings of a scan over `es`, in element order; each is a log
      event about a faulted element. */
  function Warnings(job: Job, es: seq<Element>): (ws: seq<Event>)
    ensures forall k :: 0 <= k < |ws| ==> ws[k].Log? && ws[k].log.ElementFailed?
  {
    if es == [] then [] else Warnings(job, es[..|es| - 1]) + WarningsOf(job, es[|es| - 1])
  }

  /** Scanning one more element appends its contribution. */
  lemma ScanStep(job: Job, es: seq<Element>, i: nat)
    requires i < |es|
    ensures KeptRows(job, es[..i + 1]) == KeptRows(job, es[..i]) + RowsOf(job, es[i])
    ensures Warnings(job, es[..i + 1]) == Warnings(job, es[..i]) + WarningsOf(job, es[i])
  {
    assert es[..i + 1][..i] == es[..i];
  }

  /** The inner loop of extractor.py:58-62: resolve each request in order,
      recording its value and whether any value is real. */
  method ResolveRequests(psets: PropertySets, properties: seq<string>) returns (row: Row, hasValid: bool)
    ensures row == ResolveRow(psets, properties)
    ensures hasValid <==> HasRealValue(psets, properties)
  {
    row, hasValid := map[], false;
    for i := 0 to |properties|
      invariant row == ResolveRow(psets, properties[..i])
      invariant hasValid <==> HasRealValue(psets, properties[..i])
    {
      var propName := properties[i];
      assert properties[..i + 1] == properties[..i] + [propName];
      var value := ExtractProperty(psets, propName);
      if value != NotAvailable {
        hasValid := true;
      }
      row := row[propName := value];
    }
    assert properties[..|properties|] == properties;
  }

  // ---------------------------------------------------------------------------
  // Columns (extractor.py:84-91)
  // ---------------------------------------------------------------------------

  /** `c in df.columns`: some row has the column. */
  predicate InSomeRow(rows: seq<Row>, c: string) {
    exists k :: 0 <= k < |rows| && c in rows[k]
  }

  /** `[c for c in properties if c in df.columns]`: the requests that some
      row carries, in request order. */
  function PresentColumns(properties: seq<string>, rows: seq<Row>): (cols: seq<string>)
    ensures forall c :: c in cols <==> c in properties && InSomeRow(rows, c)
    ensures |cols| <= |properties|
  {
    if properties == [] then []
    else
      var last := properties[|properties| - 1];
      assert properties == properties[..|properties| - 1] + [last];
      PresentColumns(properties[..|properties| - 1], rows) + (if InSomeRow(rows, last) then [last] else [])
  }

  /** The final column order: GlobalId, then Name (each only when enabled and
      present), then the present requests in request order. */
  function ColumnOrder(properties: seq<string>, rows: seq<Row>, includeGlobalId: bool, includeName: bool): seq<string> {
    (if includeGlobalId && InSomeRow(rows, GlobalIdColumn) then [GlobalIdColumn] else [])
    + (if includeName && InSomeRow(rows, NameColumn) then [NameColumn] else [])
    + PresentColumns(properties, rows)
  }

  /** The column selection of extractor.py:86-90: filter the requests, then
      insert Name and GlobalId at the front. */
  method SelectColumns(properties: seq<string>, rows: seq<Row>, includeGlobalId: bool, includeName: bool)
    returns (cols: seq<string>)
    ensures cols == ColumnOrder(properties, rows, includeGlobalId, includeName)
  {
    cols := [];
    for i := 0 to |properties|
      invariant cols == PresentColumns(properties[..i], rows)
    {
      assert properties[..i + 1][..i] == properties[..i];
      if InSomeRow(rows, properties[i]) {
        cols := cols + [properties[i]];
      }
    }
    assert properties[..|properties|] == properties;
    if includeName && InSomeRow(rows, NameColumn) {
      cols := [NameColumn] + cols;
    }
    if includeGlobalId && InSomeRow(rows, GlobalIdColumn) {
      cols := [GlobalIdColumn] + cols;
    }
  }

  /** One cell of `df[cols]`; a row without the column would give an empty
      cell. */
  function Cell(row: Row, column: string): string {
    if column in row then row[column] else ""
  }

  /** `df[cols]`: every row projected onto the columns, in order. */
  function Project(rows: seq<Row>, columns: seq<string>): (t: Table)
    ensures t.columns == columns && |t.records| == |rows|
    ensures forall k :: 0 <= k < |rows| ==> |t.records[k]| == |columns|
    ensures forall k, j :: 0 <= k < |rows| && 0 <= j < |columns| && columns[j] in rows[k] ==>
              t.records[k][j] == rows[k][columns[j]]
  {
    Table(columns, seq(|rows|, k requires 0 <= k < |rows| =>
                         seq(|columns|, j requires 0 <= j < |columns| => Cell(rows[k], columns[j]))))
  }

  // ---------------------------------------------------------------------------
  // Output naming (extractor.py:95-97)
  // ---------------------------------------------------------------------------

  /** `"xlsx"` for the format `Excel`, `"csv"` for any other format string. */
  function Extension(fileFormat: string): (ext: string)
    ensures ext == "xlsx" <==> fileFormat == "Excel"
    ensures ext == "csv" <==> fileFormat != "Excel"
  {
    if fileFormat == "Excel" then "xlsx" else "csv"
  }

  /** The write a run with these rows hands to the writer. */
  function WriteRequestFor(job: Job, today: Date, rows: seq<Row>): WriteRequest {
    var cols := ColumnOrder(job.properties, rows, job.includeGlobalId, job.includeName);
    var filename := MakeOutputFilename(job.baseFilename, Extension(job.fileFormat), today);
    WriteRequest(OutputPath(job.outputDir, filename), job.fileFormat == "Excel", Project(rows, cols))
  }

  // ---------------------------------------------------------------------------
  // The run as a specification
  // ---------------------------------------------------------------------------

  /** The element before which the stop flag is first seen during a scan of
      `n` products, if any; check `i + 1` precedes element `i`. */
  function CancelIndex(stopAt: Option<nat>, n: nat): (c: Option<nat>)
    ensures c.Some? ==> c.value < n && StopObserved(stopAt, c.value + 1)
    ensures c.Some? ==> c.value == 0 || !StopObserved(stopAt, c.value)
    ensures c.None? && !StopObserved(stopAt, 0) ==> !StopObserved(stopAt, n)
  {
    if stopAt.Some? && 1 <= stopAt.value <= n then Some(stopAt.value - 1) else None
  }

  /** What the body of the outer `try` leaves behind: the events it put, the
      write it attempted, and the fault that escaped to the outer handler. */
  datatype StagesOutcome = StagesOutcome(events: seq<Event>, written: Option<WriteRequest>, fault: Option<string>)

  /** The body of the outer `try` (extractor.py:19-112), stage by stage. */
  function Stages(job: Job, env: Env): StagesOutcome {
    var scanning := [Log(Started(job.ifcPath))] + [Status(Scanning)];
    match env.openResult
    case Failure(reason) => StagesOutcome(scanning + [Error(OpenFailed(reason))], None, None)
    case Success(ifcFile) =>
      if StopObserved(env.stopAt, 0) then StagesOutcome(scanning, None, None)
      else match ifcFile.products
        case Failure(reason) => StagesOutcome(scanning, None, Some(reason))
        case Success(products) =>
          var extracted := ExtractStage(job, env, products);
          StagesOutcome(scanning + extracted.events, extracted.written, None)
  }

  /** The stages from the product count on (extractor.py:33-112), once the
      products are enumerated: fail on an empty model, otherwise scan and,
      unless cancelled, export. */
  function ExtractStage(job: Job, env: Env, products: seq<Element>): StagesOutcome {
    var found := [Log(ProductsFound(|products|))];
    if |products| == 0 then StagesOutcome(found + [Error(NoProducts)], None, None)
    else
      var extracting := found + [Status(Extracting)];
      match CancelIndex(env.stopAt, |products|)
      case Some(c) =>
        StagesOutcome(extracting + Warnings(job, products[..c]) + [Log(CancelledByUser)], None, None)
      case None =>
        var exported := ExportStage(job, env, KeptRows(job, products), |products|);
        StagesOutcome(extracting + Warnings(job, products) + exported.events, exported.written, None)
  }

  /** The stages after a completed scan of `n` products that kept `rows`
      (extractor.py:75-112): report the count, fail on no rows, otherwise
      order the columns, check the stop flag a last time and write. */
  function ExportStage(job: Job, env: Env, rows: seq<Row>, n: nat): StagesOutcome {
    var done := [Log(ExtractionDone(|rows|))];
    if rows == [] then StagesOutcome(done + [Error(NoValidData)], None, None)
    else
      var writing := done + [Status(Writing(job.fileFormat))];
      if StopObserved(env.stopAt, n + 1) then StagesOutcome(writing, None, None)
      else
        var request := WriteRequestFor(job, env.today, rows);
        match env.writeError
        case Some(reason) => StagesOutcome(writing + [Error(WriteFailed(reason))], Some(request), None)
        case None => StagesOutcome(writing + [Complete(request.path, |rows|)], Some(request), None)
  }

  /** The events of a whole run and the write it attempted. */
  datatype RunResult = RunResult(events: seq<Event>, written: Option<WriteRequest>)

  /** A whole run: the stages, the outer handler's error and traceback for
      an escaped fault, then `Finished` from the `finally` clause. */
  function Run(job: Job, env: Env): RunResult {
    var s := Stages(job, env);
    var handled := match s.fault
      case Some(reason) => s.events + [Error(Uncaught(reason)), Log(Traceback(reason))]
      case None => s.events;
    RunResult(handled + [Finished], s.written)
  }

  // ---------------------------------------------------------------------------
  // The run (extractor.py:15-118)
  // ---------------------------------------------------------------------------

  /** The body of the element loop after the stop check
      (extractor.py:50-73): skip container classes, resolve the requests, keep
      the row if some value is real, and turn a failure to fetch the sets
      into a warning. */
  method ProcessElement(job: Job, element: Element) returns (rows: seq<Row>, warnings: seq<Event>)
    ensures rows == RowsOf(job, element) && warnings == WarningsOf(job, element)
  {
    rows, warnings := [], [];
    if element.typeTag in SkipEntityTypes {
      return;
    }
    match element.psets
    case Failure(reason) =>
      warnings := [Log(ElementFailed(element.globalId, reason))];
    case Success(psets) =>
      var row, hasValid := ResolveRequests(psets, job.properties);
      if hasValid {
        if job.includeGlobalId {
          row := row[GlobalIdColumn := SafeStr(element.globalId)];
        }
        if job.includeName {
          row := row[NameColumn := SafeStr(element.name)];
        }
        rows := [row];
      }
  }

  /** The element loop of extractor.py:45-73: check the stop flag before
      each element and process it. When the flag is seen, it logs the
      cancellation and reports `cancelled`. */
  method ScanProducts(job: Job, allProducts: seq<Element>, stopAt: Option<nat>)
    returns (results: seq<Row>, events: seq<Event>, cancelled: bool)
    requires !StopObserved(stopAt, 0)
    ensures cancelled <==> CancelIndex(stopAt, |allProducts|).Some?
    ensures cancelled ==> var c := CancelIndex(stopAt, |allProducts|).value;
      events == Warnings(job, allProducts[..c]) + [Log(CancelledByUser)]
    ensures !cancelled ==> results == KeptRows(job, allProducts) && events == Warnings(job, allProducts)
  {
    results, events, cancelled := [], [], false;
    for i := 0 to |allProducts|
      invariant !StopObserved(stopAt, i)
      invariant results == KeptRows(job, allProducts[..i])
      invariant events == Warnings(job, allProducts[..i])
    {
      if StopObserved(stopAt, i + 1) {
        CancelledBefore(stopAt, |allProducts|, i);
        events := events + [Log(CancelledByUser)];
        cancelled := true;
        return;
      }
      var rows, warnings := ProcessElement(job, allProducts[i]);
      ScanStep(job, allProducts, i);
      results := results + rows;
      events := events + warnings;
    }
    NotCancelled(stopAt, |allProducts|);
    assert allProducts[..|allProducts|] == allProducts;
  }

  /** The flag first seen at check `i + 1` cancels before element `i`. */
  lemma CancelledBefore(stopAt: Option<nat>, n: nat, i: nat)
    requires i < n && !StopObserved(stopAt, i) && StopObserved(stopAt, i + 1)
    ensures CancelIndex(stopAt, n) == Some(i)
  {
  }

  /** A flag not seen by check `n` cancels no element. */
  lemma NotCancelled(stopAt: Option<nat>, n: nat)
    requires !StopObserved(stopAt, n)
    ensures CancelIndex(stopAt, n).None?
  {
  }

  /** The body of the outer `try` (extractor.py:19-112), with its early
      returns. `fault` is a fault that escapes to the outer handler. */
  method RunStages(job: Job, env: Env) returns (events: seq<Event>, written: Option<WriteRequest>, fault: Option<string>)
    ensures StagesOutcome(events, written, fault) == Stages(job, env)
  {
    written, fault := None, None;
    events := [Log(Started(job.ifcPath))];
    events := events + [Status(Scanning)];

    if env.openResult.Failure? {
      events := events + [Error(OpenFailed(env.openResult.error))];
      return;
    }
    var ifcFile := env.openResult.value;

    if StopObserved(env.stopAt, 0) {
      return;
    }

    if ifcFile.products.Failure? {
      // `by_type` raised: nothing handles it before the outer `except`
      fault := Some(ifcFile.products.error);
      return;
    }
    var allProducts := ifcFile.products.value;
    var extractEvents;
    extractEvents, written := ExtractAndExport(job, env, allProducts);
    events := events + extractEvents;
  }

  /** The rest of the run once the products are enumerated
      (extractor.py:33-112). */
  method ExtractAndExport(job: Job, env: Env, allProducts: seq<Element>)
    returns (events: seq<Event>, written: Option<WriteRequest>)
    requires !StopObserved(env.stopAt, 0)
    ensures StagesOutcome(events, written, None) == ExtractStage(job, env, allProducts)
  {
    written := None;
    var totalCount := |allProducts|;
    events := [Log(ProductsFound(totalCount))];

    if totalCount == 0 {
      events := events + [Error(NoProducts)];
      return;
    }

    events := events + [Status(Extracting)];
    var results, scanEvents, cancelled := ScanProducts(job, allProducts, env.stopAt);
    ghost var extracting := events;
    events := events + scanEvents;
    if cancelled {
      return;
    }

    var exportEvents;
    exportEvents, written := ExportRows(job, env, results, |allProducts|);
    events := events + exportEvents;
    assert events == extracting + Warnings(job, allProducts) + exportEvents;
  }

  /** The stages after the scan (extractor.py:75-112), for `results` kept
      from `productCount` products. */
  method ExportRows(job: Job, env: Env, results: seq<Row>, productCount: nat)
    returns (events: seq<Event>, written: Option<WriteRequest>)
    ensures StagesOutcome(events, written, None) == ExportStage(job, env, results, productCount)
  {
    written := None;
    events := [Log(ExtractionDone(|results|))];

    if results == [] {
      events := events + [Error(NoValidData)];
      return;
    }

    events := events + [Status(Writing(job.fileFormat))];

    var cols := SelectColumns(job.properties, results, job.includeGlobalId, job.includeName);
    var table := Project(results, cols);

    if StopObserved(env.stopAt, productCount + 1) {
      return;
    }

    var ext := Extension(job.fileFormat);
    var filename := MakeOutputFilename(job.baseFilename, ext, env.today);
    var filepath := OutputPath(job.outputDir, filename);

    written := Some(WriteRequest(filepath, job.fileFormat == "Excel", table));
    if env.writeError.Some? {
      events := events + [Error(WriteFailed(env.writeError.value))];
      return;
    }

    events := events + [Complete(filepath, |results|)];
  }

  /** `extract_properties`: the stages, then the outer handler (an error event
      and a traceback log for an escaped fault), then `Finished`. */
  method ExtractProperties(job: Job, env: Env) returns (events: seq<Event>, written: Option<WriteRequest>)
    ensures RunResult(events, written) == Run(job, env)
    ensures |events| > 0 && events[|events| - 1] == Finished
  {
    var fault;
    events, written, fault := RunStages(job, env);
    if fault.Some? {
      events := events + [Error(Uncaught(fault.value)), Log(Traceback(fault.value))];
    }
    events := events + [Finished];
  }
}
