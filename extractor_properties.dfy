/** What a run of the extractor promises, proved about the specification
    functions of module Extractor: which elements give rows and warnings, the
    shape of a row, the column order of the export, and the one outcome every
    run reports before it finishes. */
module ExtractorProperties {
  import opened Wrappers
  import opened Constants
  import opened Utils
  import opened Extractor

  // ---------------------------------------------------------------------------
  // The scan (extractor.py:45-73)
  // ---------------------------------------------------------------------------

  predicate IsKept(v: Verdict) { v.Kept? }
  predicate IsFaulted(v: Verdict) { v.Faulted? }

  /** The positions of the elements whose verdict satisfies `p`, ascending. */
  function Indices(job: Job, es: seq<Element>, p: Verdict -> bool): (ix: seq<nat>)
    ensures forall k :: 0 <= k < |ix| ==> ix[k] < |es|
  {
    if es == [] then []
    else Indices(job, es[..|es| - 1], p) + (if p(Judge(job, es[|es| - 1])) then [|es| - 1] else [])
  }

  /** `Indices` lists exactly the matching positions, in increasing order. */
  lemma IndicesExact(job: Job, es: seq<Element>, p: Verdict -> bool)
    ensures var ix := Indices(job, es, p);
      && (forall k, l :: 0 <= k < l < |ix| ==> ix[k] < ix[l])
      && (forall i :: 0 <= i < |es| ==> (i in ix <==> p(Judge(job, es[i]))))
  {
    IndicesAscending(job, es, p);
    IndicesMembership(job, es, p);
  }

  predicate Ascending(ix: seq<nat>) {
    forall k, l :: 0 <= k < l < |ix| ==> ix[k] < ix[l]
  }

  /** The positions come in strictly increasing order. */
  lemma {:induction false} IndicesAscending(job: Job, es: seq<Element>, p: Verdict -> bool)
    ensures Ascending(Indices(job, es, p))
  {
    if es != [] {
      var head := Indices(job, es[..|es| - 1], p);
      IndicesAscending(job, es[..|es| - 1], p);
      var tail: seq<nat> := if p(Judge(job, es[|es| - 1])) then [|es| - 1] else [];
      var ix := Indices(job, es, p);
      assert ix == head + tail;
      forall k, l | 0 <= k < l < |ix|
        ensures ix[k] < ix[l]
      {
        assert ix[k] == head[k] && head[k] < |es| - 1;
        if l < |head| {
          assert ix[l] == head[l] && head[k] < head[l];
        } else {
          assert ix[l] == |es| - 1;
        }
      }
    }
  }

  /** A position is listed exactly when its element's verdict satisfies `p`. */
  lemma {:induction false} IndicesMembership(job: Job, es: seq<Element>, p: Verdict -> bool)
    ensures forall i :: 0 <= i < |es| ==> (i in Indices(job, es, p) <==> p(Judge(job, es[i])))
  {
    if es != [] {
      var init := es[..|es| - 1];
      IndicesMembership(job, init, p);
      assert forall i :: 0 <= i < |init| ==> init[i] == es[i];
    }
  }

  /** The kept rows are the rows of the kept elements, one each, in element
      order: row `k` is the row of the `k`-th kept element. */
  lemma {:induction false} KeptRowsFollowElements(job: Job, es: seq<Element>)
    ensures var ix := Indices(job, es, IsKept);
      && |KeptRows(job, es)| == |ix|
      && forall k :: 0 <= k < |ix| ==> Judge(job, es[ix[k]]) == Kept(KeptRows(job, es)[k])
  {
    if es != [] {
      var init := es[..|es| - 1];
      KeptRowsFollowElements(job, init);
      assert forall i :: 0 <= i < |init| ==> init[i] == es[i];
    }
  }

  /** The warnings are one per faulted element, in element order, each naming
      the element's GlobalId and the fault. */
  lemma {:induction false} WarningsFollowFaults(job: Job, es: seq<Element>)
    ensures var ix := Indices(job, es, IsFaulted);
      && |Warnings(job, es)| == |ix|
      && forall k :: 0 <= k < |ix| ==>
           var e := es[ix[k]];
           e.psets.Failure? && Warnings(job, es)[k] == Log(ElementFailed(e.globalId, e.psets.error))
  {
    if es != [] {
      var init := es[..|es| - 1];
      WarningsFollowFaults(job, init);
      assert forall i :: 0 <= i < |init| ==> init[i] == es[i];
    }
  }

  /** Elements of a skipped class contribute neither a row nor a warning,
      wherever they stand in the scan. */
  lemma SkippedContributeNothing(job: Job, es: seq<Element>, i: nat)
    requires i < |es| && es[i].typeTag in SkipEntityTypes
    ensures i !in Indices(job, es, IsKept) && i !in Indices(job, es, IsFaulted)
  {
    IndicesExact(job, es, IsKept);
    IndicesExact(job, es, IsFaulted);
  }

  /** A kept row holds exactly the requests plus the enabled identity
      columns; the identity columns carry the stringified attributes and the
      other requests their resolved values. */
  lemma KeptRowShape(job: Job, e: Element)
    requires Judge(job, e).Kept?
    ensures var row := Judge(job, e).row;
      && (forall c :: c in row <==>
            c in job.properties || (job.includeGlobalId && c == GlobalIdColumn) || (job.includeName && c == NameColumn))
      && (job.includeName ==> row[NameColumn] == SafeStr(e.name))
      && (job.includeGlobalId ==> row[GlobalIdColumn] == SafeStr(e.globalId))
      && (forall p :: p in job.properties && !(job.includeGlobalId && p == GlobalIdColumn)
                      && !(job.includeName && p == NameColumn) ==>
            row[p] == ExtractProperty(e.psets.value, p))
  {
  }

  // ---------------------------------------------------------------------------
  // The columns (extractor.py:84-91)
  // ---------------------------------------------------------------------------

  /** The identity columns a run places first: GlobalId, then Name, each when
      enabled. */
  function IdentityColumns(job: Job): seq<string> {
    (if job.includeGlobalId then [GlobalIdColumn] else []) + (if job.includeName then [NameColumn] else [])
  }

  /** The positions of the requests that survive the column filter. */
  function PresentIndices(properties: seq<string>, rows: seq<Row>): seq<nat> {
    if properties == [] then []
    else
      PresentIndices(properties[..|properties| - 1], rows)
      + (if InSomeRow(rows, properties[|properties| - 1]) then [|properties| - 1] else [])
  }

  /** The filter keeps request order: the surviving columns are the requests
      at strictly increasing positions, each one present in some row. */
  lemma {:induction false} PresentColumnsInOrder(properties: seq<string>, rows: seq<Row>)
    ensures var cols, ix := PresentColumns(properties, rows), PresentIndices(properties, rows);
      && |ix| == |cols| && Ascending(ix)
      && forall k :: 0 <= k < |ix| ==> ix[k] < |properties| && properties[ix[k]] == cols[k]
  {
    if properties != [] {
      var init, last := properties[..|properties| - 1], properties[|properties| - 1];
      PresentColumnsInOrder(init, rows);
      var head, cols0 := PresentIndices(init, rows), PresentColumns(init, rows);
      var ix := PresentIndices(properties, rows);
      assert ix == head + (if InSomeRow(rows, last) then [|properties| - 1] else []);
      forall k, l | 0 <= k < l < |ix|
        ensures ix[k] < ix[l]
      {
        assert ix[k] == head[k] && head[k] < |init|;
        if l < |head| {
          assert ix[l] == head[l] && head[k] < head[l];
        } else {
          assert ix[l] == |init|;
        }
      }
      forall k | 0 <= k < |ix|
        ensures ix[k] < |properties| && properties[ix[k]] == PresentColumns(properties, rows)[k]
      {
        if k < |head| {
          assert ix[k] == head[k] && init[head[k]] == cols0[k];
        }
      }
    }
  }

  /** When one row carries every request, no request is filtered out. */
  lemma {:induction false} PresentColumnsKeepsAll(properties: seq<string>, rows: seq<Row>, k: nat)
    requires k < |rows| && forall p :: p in properties ==> p in rows[k]
    ensures PresentColumns(properties, rows) == properties
  {
    if properties != [] {
      var init := properties[..|properties| - 1];
      assert forall p :: p in init ==> p in properties;
      PresentColumnsKeepsAll(init, rows, k);
      var last := properties[|properties| - 1];
      assert last in rows[k];
      assert InSomeRow(rows, last);
      assert PresentColumns(properties, rows) == PresentColumns(init, rows) + [last];
      assert init + [last] == properties;
    }
  }

  /** A row has a value under every request and every enabled identity
      column. */
  predicate Carries(job: Job, row: Row) {
    && (forall p :: p in job.properties ==> p in row)
    && (job.includeGlobalId ==> GlobalIdColumn in row)
    && (job.includeName ==> NameColumn in row)
  }

  /** Every row a scan keeps carries every column. */
  lemma {:induction false} KeptRowsCarry(job: Job, es: seq<Element>)
    ensures forall k :: 0 <= k < |KeptRows(job, es)| ==> Carries(job, KeptRows(job, es)[k])
  {
    if es != [] {
      KeptRowsCarry(job, es[..|es| - 1]);
      var e := es[|es| - 1];
      if Judge(job, e).Kept? {
        KeptRowShape(job, e);
      }
    }
  }

  /** For rows that all carry every column (as kept rows do, by
      `KeptRowsCarry`), the export's columns are the enabled identity columns
      followed by every request in request order. */
  lemma ColumnsOfFullRows(job: Job, rows: seq<Row>)
    requires rows != [] && forall k :: 0 <= k < |rows| ==> Carries(job, rows[k])
    ensures ColumnOrder(job.properties, rows, job.includeGlobalId, job.includeName)
            == IdentityColumns(job) + job.properties
  {
    assert Carries(job, rows[0]);
    PresentColumnsKeepsAll(job.properties, rows, 0);
    assert job.includeGlobalId ==> InSomeRow(rows, GlobalIdColumn);
    assert job.includeName ==> InSomeRow(rows, NameColumn);
  }

  /** The table written for such rows has one record per row, in row order,
      whose cells are the row's values under that column order. */
  lemma ExportedTable(job: Job, rows: seq<Row>)
    requires rows != [] && forall k :: 0 <= k < |rows| ==> Carries(job, rows[k])
    ensures var t := Project(rows, ColumnOrder(job.properties, rows, job.includeGlobalId, job.includeName));
      && t.columns == IdentityColumns(job) + job.properties
      && |t.records| == |rows|
      && forall k, j :: 0 <= k < |rows| && 0 <= j < |t.columns| ==>
           t.columns[j] in rows[k] && t.records[k][j] == rows[k][t.columns[j]]
  {
    ColumnsOfFullRows(job, rows);
    var cols := IdentityColumns(job) + job.properties;
    var t := Project(rows, cols);
    forall k, j | 0 <= k < |rows| && 0 <= j < |cols| ensures cols[j] in rows[k] && t.records[k][j] == rows[k][cols[j]] {
      assert Carries(job, rows[k]);
      if j >= |IdentityColumns(job)| {
        assert cols[j] in job.properties;
      }
    }
  }

  // ---------------------------------------------------------------------------
  // The outcome of a run (extractor.py:15-118)
  // ---------------------------------------------------------------------------

  /** How a run ends, as the window sees it. */
  datatype Outcome =
    | OpenFailure(reason: string)
    | CancelledRun
    | Crashed(reason: string)
    | EmptyModel
    | NoRows
    | WriteFailure(reason: string)
    | Exported(path: OutputPath, count: nat)

  /** The outcome, read off the inputs: the first failing step, the stop
      flag seen at any of its checks, or the export of the kept rows. */
  function OutcomeOf(job: Job, env: Env): Outcome {
    match env.openResult
    case Failure(reason) => OpenFailure(reason)
    case Success(ifcFile) =>
      if StopObserved(env.stopAt, 0) then CancelledRun
      else match ifcFile.products
        case Failure(reason) => Crashed(reason)
        case Success(products) =>
          if products == [] then EmptyModel
          else if StopObserved(env.stopAt, |products|) then CancelledRun
          else ExportOutcome(job, env, KeptRows(job, products), |products|)
  }

  /** The outcome once a scan of `n` products kept `rows`. */
  function ExportOutcome(job: Job, env: Env, rows: seq<Row>, n: nat): Outcome {
    if rows == [] then NoRows
    else if StopObserved(env.stopAt, n + 1) then CancelledRun
    else match env.writeError
      case Some(reason) => WriteFailure(reason)
      case None => Exported(WriteRequestFor(job, env.today, rows).path, |rows|)
  }

  /** The error or completion message that reports an outcome; a
      cancellation reports none. */
  function OutcomeNotice(o: Outcome): seq<Event> {
    match o
    case OpenFailure(reason) => [Error(OpenFailed(reason))]
    case CancelledRun => []
    case Crashed(reason) => [Error(Uncaught(reason))]
    case EmptyModel => [Error(NoProducts)]
    case NoRows => [Error(NoValidData)]
    case WriteFailure(reason) => [Error(WriteFailed(reason))]
    case Exported(path, count) => [Complete(path, count)]
  }

  /** Events other than progress: errors, completion and the final
      `Finished`. */
  predicate IsNotice(e: Event) { !e.Log? && !e.Status? }

  /** The notices among `es`, in order. */
  function Notices(es: seq<Event>): (ns: seq<Event>)
    ensures forall k :: 0 <= k < |ns| ==> IsNotice(ns[k])
  {
    if es == [] then []
    else Notices(es[..|es| - 1]) + (if IsNotice(es[|es| - 1]) then [es[|es| - 1]] else [])
  }

  /** The notices of a concatenation are the concatenated notices. */
  lemma {:induction false} NoticesAppend(a: seq<Event>, b: seq<Event>)
    ensures Notices(a + b) == Notices(a) + Notices(b)
  {
    if b != [] {
      var init := b[..|b| - 1];
      NoticesAppend(a, init);
      assert (a + b)[..|a + b| - 1] == a + init;
      assert (a + b)[|a + b| - 1] == b[|b| - 1];
    } else {
      assert a + b == a;
    }
  }

  /** The notices of one event. */
  lemma NoticesOfOne(x: Event)
    ensures Notices([x]) == if IsNotice(x) then [x] else []
  {
    assert [x][..0] == [];
  }

  /** A sequence of progress events has no notices. */
  lemma {:induction false} NoticesOfProgress(es: seq<Event>)
    requires forall k :: 0 <= k < |es| ==> es[k].Log? || es[k].Status?
    ensures Notices(es) == []
  {
    if es != [] {
      NoticesOfProgress(es[..|es| - 1]);
    }
  }

  /** A notice occurs in the events exactly when it occurs among their
      notices. */
  lemma {:induction false} NoticeMembership(es: seq<Event>, x: Event)
    requires IsNotice(x)
    ensures x in es <==> x in Notices(es)
  {
    if es != [] {
      var init := es[..|es| - 1];
      NoticeMembership(init, x);
      assert es == init + [es[|es| - 1]];
    }
  }

  /** Progress events followed by one more event: the notices are that
      event, if it is one. */
  lemma NoticesAfterProgress(a: seq<Event>, x: Event)
    requires forall k :: 0 <= k < |a| ==> a[k].Log? || a[k].Status?
    ensures Notices(a + [x]) == if IsNotice(x) then [x] else []
  {
    NoticesOfProgress(a);
    NoticesAppend(a, [x]);
    NoticesOfOne(x);
  }

  /** The export stage reports its outcome and nothing else. */
  lemma ExportStageNotices(job: Job, env: Env, rows: seq<Row>, n: nat)
    ensures var s := ExportStage(job, env, rows, n);
      s.fault.None? && Notices(s.events) == OutcomeNotice(ExportOutcome(job, env, rows, n))
  {
    var done := [Log(ExtractionDone(|rows|))];
    if rows == [] {
      NoticesAfterProgress(done, Error(NoValidData));
    } else if StopObserved(env.stopAt, n + 1) {
      NoticesOfProgress(done + [Status(Writing(job.fileFormat))]);
    } else {
      WriteNotices(job, env, rows, n);
    }
  }

  /** Once the write is attempted, its failure or its completion is
      reported. */
  lemma WriteNotices(job: Job, env: Env, rows: seq<Row>, n: nat)
    requires rows != [] && !StopObserved(env.stopAt, n + 1)
    ensures Notices(ExportStage(job, env, rows, n).events) == OutcomeNotice(ExportOutcome(job, env, rows, n))
  {
    if env.writeError.Some? {
      WriteFailedNotices(job, env, rows, n);
    } else {
      WriteDoneNotices(job, env, rows, n);
    }
  }

  /** A failed write is reported by its error. */
  lemma WriteFailedNotices(job: Job, env: Env, rows: seq<Row>, n: nat)
    requires rows != [] && !StopObserved(env.stopAt, n + 1) && env.writeError.Some?
    ensures ExportOutcome(job, env, rows, n) == WriteFailure(env.writeError.value)
    ensures Notices(ExportStage(job, env, rows, n).events) == [Error(WriteFailed(env.writeError.value))]
  {
    var writing := [Log(ExtractionDone(|rows|))] + [Status(Writing(job.fileFormat))];
    NoticesAfterProgress(writing, Error(WriteFailed(env.writeError.value)));
  }

  /** A successful write is reported by its completion. */
  lemma WriteDoneNotices(job: Job, env: Env, rows: seq<Row>, n: nat)
    requires rows != [] && !StopObserved(env.stopAt, n + 1) && env.writeError.None?
    ensures ExportOutcome(job, env, rows, n) == Exported(WriteRequestFor(job, env.today, rows).path, |rows|)
    ensures Notices(ExportStage(job, env, rows, n).events) == [Complete(WriteRequestFor(job, env.today, rows).path, |rows|)]
  {
    var writing := [Log(ExtractionDone(|rows|))] + [Status(Writing(job.fileFormat))];
    NoticesAfterProgress(writing, Complete(WriteRequestFor(job, env.today, rows).path, |rows|));
  }

  /** Once the products are enumerated, the remaining stages report the
      run's outcome and nothing else. */
  lemma ExtractStageNotices(job: Job, env: Env, products: seq<Element>)
    requires env.openResult == Success(IfcFile(Success(products)))
    requires !StopObserved(env.stopAt, 0)
    ensures var s := ExtractStage(job, env, products);
      s.fault.None? && Notices(s.events) == OutcomeNotice(OutcomeOf(job, env))
  {
    if products == [] {
      EmptyModelNotices(job, env, products);
    } else if CancelIndex(env.stopAt, |products|).Some? {
      ScanCancelledNotices(job, env, products);
    } else {
      ScanCompletedNotices(job, env, products);
      ExportStageNotices(job, env, KeptRows(job, products), |products|);
    }
  }

  /** An empty model is reported by its error. */
  lemma EmptyModelNotices(job: Job, env: Env, products: seq<Element>)
    requires env.openResult == Success(IfcFile(Success(products)))
    requires !StopObserved(env.stopAt, 0) && products == []
    ensures OutcomeOf(job, env) == EmptyModel
    ensures Notices(ExtractStage(job, env, products).events) == [Error(NoProducts)]
  {
    NoticesAfterProgress([Log(ProductsFound(0))], Error(NoProducts));
  }

  /** A scan cut short by the stop flag reports nothing. */
  lemma ScanCancelledNotices(job: Job, env: Env, products: seq<Element>)
    requires env.openResult == Success(IfcFile(Success(products)))
    requires !StopObserved(env.stopAt, 0) && products != []
    requires CancelIndex(env.stopAt, |products|).Some?
    ensures OutcomeOf(job, env) == CancelledRun
    ensures Notices(ExtractStage(job, env, products).events) == []
  {
    var c := CancelIndex(env.stopAt, |products|).value;
    var extracting := [Log(ProductsFound(|products|))] + [Status(Extracting)];
    NoticesOfProgress(extracting + Warnings(job, products[..c]) + [Log(CancelledByUser)]);
  }

  /** After a full scan, the notices are those of the export stage. */
  lemma ScanCompletedNotices(job: Job, env: Env, products: seq<Element>)
    requires env.openResult == Success(IfcFile(Success(products)))
    requires !StopObserved(env.stopAt, 0) && products != []
    requires CancelIndex(env.stopAt, |products|).None?
    ensures OutcomeOf(job, env) == ExportOutcome(job, env, KeptRows(job, products), |products|)
    ensures var exported := ExportStage(job, env, KeptRows(job, products), |products|);
      var s := ExtractStage(job, env, products);
      s.fault.None? && s.written == exported.written && Notices(s.events) == Notices(exported.events)
  {
    var extracting := [Log(ProductsFound(|products|))] + [Status(Extracting)];
    var exported := ExportStage(job, env, KeptRows(job, products), |products|);
    NoticesOfProgress(extracting + Warnings(job, products));
    NoticesAppend(extracting + Warnings(job, products), exported.events);
  }

  /** The body of the outer `try` reports the run's outcome, except for a
      fault that escapes it, which it leaves unreported. */
  lemma StagesNotices(job: Job, env: Env)
    ensures var s := Stages(job, env);
      && (s.fault.None? ==> Notices(s.events) == OutcomeNotice(OutcomeOf(job, env)))
      && (s.fault.Some? ==> OutcomeOf(job, env) == Crashed(s.fault.value) && Notices(s.events) == [])
  {
    var scanning := [Log(Started(job.ifcPath))] + [Status(Scanning)];
    NoticesOfProgress(scanning);
    match env.openResult
    case Failure(reason) =>
      NoticesAfterProgress(scanning, Error(OpenFailed(reason)));
    case Success(ifcFile) =>
      if !StopObserved(env.stopAt, 0) {
        match ifcFile.products
        case Failure(reason) =>
        case Success(products) =>
          ExtractStageNotices(job, env, products);
          NoticesAppend(scanning, ExtractStage(job, env, products).events);
      }
  }

  /** Every run reports exactly the message of its outcome (none for a
      cancellation) and then `Finished`. */
  lemma RunNotices(job: Job, env: Env)
    ensures Notices(Run(job, env).events) == OutcomeNotice(OutcomeOf(job, env)) + [Finished]
  {
    var s := Stages(job, env);
    StagesNotices(job, env);
    match s.fault
    case Some(reason) => CaughtNotices(s.events, reason);
    case None => FinishedNotices(s.events);
  }

  /** Closing a run with `Finished` adds it to the notices. */
  lemma FinishedNotices(es: seq<Event>)
    ensures Notices(es + [Finished]) == Notices(es) + [Finished]
  {
    NoticesAppend(es, [Finished]);
    NoticesOfOne(Finished);
  }

  /** The outer handler adds the error of an uncaught fault and its
      traceback, and the run then closes with `Finished`. */
  lemma CaughtNotices(es: seq<Event>, reason: string)
    ensures Notices(es + [Error(Uncaught(reason)), Log(Traceback(reason))] + [Finished])
            == Notices(es) + [Error(Uncaught(reason))] + [Finished]
  {
    var caught := [Error(Uncaught(reason)), Log(Traceback(reason))];
    FinishedNotices(es + caught);
    NoticesAppend(es, caught);
    NoticesAppend([Error(Uncaught(reason))], [Log(Traceback(reason))]);
    NoticesOfOne(Error(Uncaught(reason)));
    NoticesOfOne(Log(Traceback(reason)));
    assert [Error(Uncaught(reason))] + [Log(Traceback(reason))] == caught;
  }

  /** `Finished` is the last event of every run and occurs nowhere else. */
  lemma FinishedOnceAtEnd(job: Job, env: Env)
    ensures var es := Run(job, env).events;
      && |es| > 0 && es[|es| - 1] == Finished
      && forall k :: 0 <= k < |es| - 1 ==> es[k] != Finished
  {
    RunNotices(job, env);
    FinishedOfOutcome(Run(job, env).events, OutcomeOf(job, env));
  }

  /** The error and completion events of a run are the notice of its outcome:
      a run completes with `(path, count)` exactly when its outcome is that
      export. */
  lemma CompletionReported(job: Job, env: Env, path: OutputPath, count: nat)
    ensures Complete(path, count) in Run(job, env).events <==> OutcomeOf(job, env) == Exported(path, count)
  {
    RunNotices(job, env);
    NoticeOfOutcome(Run(job, env).events, OutcomeOf(job, env), Complete(path, count));
    CompleteInNotice(OutcomeOf(job, env), path, count);
  }

  /** A run reports the error `m` exactly when `m` is its outcome's notice;
      so it reports at most one error, and none when it completes or is
      cancelled. */
  lemma ErrorReported(job: Job, env: Env, m: ErrorMessage)
    ensures Error(m) in Run(job, env).events <==> OutcomeNotice(OutcomeOf(job, env)) == [Error(m)]
  {
    RunNotices(job, env);
    NoticeOfOutcome(Run(job, env).events, OutcomeOf(job, env), Error(m));
    ErrorInNotice(OutcomeOf(job, env), m);
  }

  /** In events whose notices are an outcome's notice and `Finished`, a
      notice occurs exactly when it is one of those. */
  lemma NoticeOfOutcome(es: seq<Event>, o: Outcome, x: Event)
    requires Notices(es) == OutcomeNotice(o) + [Finished]
    requires IsNotice(x)
    ensures x in es <==> x in OutcomeNotice(o) + [Finished]
  {
    NoticeMembership(es, x);
  }

  /** Only an export is reported by a completion, and by its own. */
  lemma CompleteInNotice(o: Outcome, path: OutputPath, count: nat)
    ensures Complete(path, count) in OutcomeNotice(o) + [Finished] <==> o == Exported(path, count)
  {
  }

  /** An error is reported only as an outcome's whole notice. */
  lemma ErrorInNotice(o: Outcome, m: ErrorMessage)
    ensures Error(m) in OutcomeNotice(o) + [Finished] <==> OutcomeNotice(o) == [Error(m)]
  {
  }

  /** No outcome is reported by `Finished`. */
  lemma FinishedNotInNotice(o: Outcome)
    ensures Finished !in OutcomeNotice(o)
  {
  }

  /** Events ending in `Finished` whose notices are an outcome's notice and
      `Finished` hold no earlier `Finished`. */
  lemma FinishedOfOutcome(es: seq<Event>, o: Outcome)
    requires Notices(es) == OutcomeNotice(o) + [Finished]
    requires |es| > 0 && es[|es| - 1] == Finished
    ensures forall k :: 0 <= k < |es| - 1 ==> es[k] != Finished
  {
    var handled := es[..|es| - 1];
    DropFinished(es, OutcomeNotice(o));
    FinishedNotInNotice(o);
    NoticeMembership(handled, Finished);
    assert forall k :: 0 <= k < |es| - 1 ==> es[k] == handled[k];
  }

  /** Dropping a final `Finished` drops it from the notices. */
  lemma DropFinished(es: seq<Event>, ns: seq<Event>)
    requires Notices(es) == ns + [Finished]
    requires |es| > 0 && es[|es| - 1] == Finished
    ensures Notices(es[..|es| - 1]) == ns
  {
    var hs := Notices(es[..|es| - 1]);
    assert Notices(es) == hs + [Finished];
    assert hs == (hs + [Finished])[..|hs|];
  }

  // ---------------------------------------------------------------------------
  // Cancellation (extractor.py:30, 46-48, 93)
  // ---------------------------------------------------------------------------

  /** The stop flag is first seen at the check before one of the products. */
  predicate CancelledInScan(env: Env) {
    && env.openResult.Success?
    && !StopObserved(env.stopAt, 0)
    && env.openResult.value.products.Success?
    && env.openResult.value.products.value != []
    && CancelIndex(env.stopAt, |env.openResult.value.products.value|).Some?
  }

  /** The cancellation is logged exactly when the flag is first seen inside
      the element loop; seen right after opening or just before writing it
      ends the run without a word. */
  lemma CancellationLogged(job: Job, env: Env)
    ensures Log(CancelledByUser) in Run(job, env).events <==> CancelledInScan(env)
  {
    var scanning := [Log(Started(job.ifcPath))] + [Status(Scanning)];
    match env.openResult
    case Failure(reason) =>
      assert Run(job, env).events == scanning + [Error(OpenFailed(reason))] + [Finished];
    case Success(ifcFile) =>
      if StopObserved(env.stopAt, 0) {
        assert Run(job, env).events == scanning + [Finished];
      } else {
        match ifcFile.products
        case Failure(reason) =>
          assert Run(job, env).events == scanning + [Error(Uncaught(reason)), Log(Traceback(reason))] + [Finished];
        case Success(products) =>
          assert Run(job, env).events == scanning + ExtractStage(job, env, products).events + [Finished];
          ExtractStageCancelLog(job, env, products);
      }
  }

  /** A cancelled scan logs the cancellation once, as the last message
      before `Finished`. */
  lemma CancellationLoggedOnce(job: Job, env: Env)
    ensures var es := Run(job, env).events;
      CancelledInScan(env) ==>
        && |es| >= 2 && es[|es| - 2] == Log(CancelledByUser)
        && forall k :: 0 <= k < |es| - 2 ==> es[k] != Log(CancelledByUser)
  {
    if CancelledInScan(env) {
      var products := env.openResult.value.products.value;
      var c := CancelIndex(env.stopAt, |products|).value;
      var head := [Log(Started(job.ifcPath))] + [Status(Scanning)]
                  + [Log(ProductsFound(|products|))] + [Status(Extracting)];
      assert Run(job, env).events == head + Warnings(job, products[..c]) + [Log(CancelledByUser)] + [Finished];
      SingleCancelLog(head, Warnings(job, products[..c]));
    }
  }

  /** Progress messages and element warnings, then the cancellation and
      `Finished`, hold the cancellation only in its one place. */
  lemma SingleCancelLog(head: seq<Event>, ws: seq<Event>)
    requires Log(CancelledByUser) !in head
    requires forall k :: 0 <= k < |ws| ==> ws[k].Log? && ws[k].log.ElementFailed?
    ensures var es := head + ws + [Log(CancelledByUser)] + [Finished];
      es[|es| - 2] == Log(CancelledByUser) && forall k :: 0 <= k < |es| - 2 ==> es[k] != Log(CancelledByUser)
  {
    var es := head + ws + [Log(CancelledByUser)] + [Finished];
    forall k | 0 <= k < |es| - 2
      ensures es[k] != Log(CancelledByUser)
    {
      if k < |head| {
        assert es[k] == head[k];
      } else {
        assert es[k] == ws[k - |head|];
      }
    }
  }

  /** Within the stages after enumeration, the cancellation log appears
      exactly when the element loop sees the flag. */
  lemma ExtractStageCancelLog(job: Job, env: Env, products: seq<Element>)
    ensures Log(CancelledByUser) in ExtractStage(job, env, products).events
            <==> products != [] && CancelIndex(env.stopAt, |products|).Some?
  {
    var extracting := [Log(ProductsFound(|products|))] + [Status(Extracting)];
    if products != [] && CancelIndex(env.stopAt, |products|).None? {
      var exported := ExportStage(job, env, KeptRows(job, products), |products|);
      assert ExtractStage(job, env, products).events == extracting + Warnings(job, products) + exported.events;
      assert Log(CancelledByUser) !in Warnings(job, products);
      ExportStageSilent(job, env, KeptRows(job, products), |products|);
    }
  }

  /** The export stage never logs a cancellation. */
  lemma ExportStageSilent(job: Job, env: Env, rows: seq<Row>, n: nat)
    ensures Log(CancelledByUser) !in ExportStage(job, env, rows, n).events
  {
    var events := ExportStage(job, env, rows, n).events;
    var done := [Log(ExtractionDone(|rows|))];
    var writing := done + [Status(Writing(job.fileFormat))];
    if rows == [] {
      assert events == done + [Error(NoValidData)];
      SilentProgress(done, Error(NoValidData));
    } else if StopObserved(env.stopAt, n + 1) {
      assert events == writing;
    } else {
      var request := WriteRequestFor(job, env.today, rows);
      match env.writeError
      case Some(reason) =>
        assert events == writing + [Error(WriteFailed(reason))];
        SilentProgress(writing, Error(WriteFailed(reason)));
      case None =>
        assert events == writing + [Complete(request.path, |rows|)];
        SilentProgress(writing, Complete(request.path, |rows|));
    }
  }

  /** Progress messages followed by a notice hold no cancellation log. */
  lemma SilentProgress(progress: seq<Event>, notice: Event)
    requires Log(CancelledByUser) !in progress && IsNotice(notice)
    ensures Log(CancelledByUser) !in progress + [notice]
  {
  }

  /** A cancelled run reports no error and no completion and writes nothing. */
  lemma CancelledRunIsQuiet(job: Job, env: Env)
    requires OutcomeOf(job, env) == CancelledRun
    ensures Run(job, env).written.None?
    ensures forall e :: e in Run(job, env).events ==> !e.Error? && !e.Complete?
  {
    RunNotices(job, env);
    RunWrites(job, env);
    forall e | e in Run(job, env).events && (e.Error? || e.Complete?)
      ensures false
    {
      NoticeMembership(Run(job, env).events, e);
    }
  }

  // ---------------------------------------------------------------------------
  // The write (extractor.py:84-106)
  // ---------------------------------------------------------------------------

  /** A run hands a table to the writer exactly when its outcome is a failed
      or a completed write, and a completed run reports the path it wrote. */
  lemma RunWrites(job: Job, env: Env)
    ensures var w, o := Run(job, env).written, OutcomeOf(job, env);
      && (w.Some? <==> o.WriteFailure? || o.Exported?)
      && (o.Exported? ==> w.value.path == o.path)
  {
    match env.openResult
    case Failure(_) =>
    case Success(ifcFile) =>
      if !StopObserved(env.stopAt, 0) {
        match ifcFile.products
        case Failure(_) =>
        case Success(products) =>
          ExtractStageWrites(job, env, products);
      }
  }

  /** After enumeration, the write happens after a scan that ran to the end,
      with the table of the rows it kept. */
  lemma ExtractStageWrites(job: Job, env: Env, products: seq<Element>)
    requires env.openResult == Success(IfcFile(Success(products)))
    requires !StopObserved(env.stopAt, 0)
    ensures var w, o := ExtractStage(job, env, products).written, OutcomeOf(job, env);
      && (w.Some? <==> o.WriteFailure? || o.Exported?)
      && (w.Some? ==> KeptRows(job, products) != [] && w.value == WriteRequestFor(job, env.today, KeptRows(job, products)))
      && (o.Exported? ==> w.value.path == o.path)
  {
    if products != [] && CancelIndex(env.stopAt, |products|).None? {
      ExportStageWrites(job, env, KeptRows(job, products), |products|);
    }
  }

  /** The export stage writes the table of its rows exactly when it reaches
      the writer. */
  lemma ExportStageWrites(job: Job, env: Env, rows: seq<Row>, n: nat)
    ensures var w, o := ExportStage(job, env, rows, n).written, ExportOutcome(job, env, rows, n);
      && (w.Some? <==> o.WriteFailure? || o.Exported?)
      && (w.Some? ==> rows != [] && w.value == WriteRequestFor(job, env.today, rows))
      && (o.Exported? ==> w.value.path == o.path)
  {
  }

  /** What a run writes: the file named from the base name, the format's
      extension and the date, in the output directory; the workbook writer
      for `Excel`; and a table with the identity columns, then every request,
      holding one record per kept element in scan order. */
  lemma WrittenFile(job: Job, env: Env, products: seq<Element>)
    requires env.openResult == Success(IfcFile(Success(products)))
    ensures var w := Run(job, env).written;
      w.Some? ==> ScanWrite(job, env.today, products, w.value)
  {
    if !StopObserved(env.stopAt, 0) {
      ExtractStageWrites(job, env, products);
      if ExtractStage(job, env, products).written.Some? {
        WriteRequestContents(job, env.today, products);
      }
    }
  }

  /** The write of a scan over `products` that kept some rows: its target
      and its table. */
  predicate ScanWrite(job: Job, today: Date, products: seq<Element>, w: WriteRequest) {
    && w.path == OutputPath(job.outputDir, MakeOutputFilename(job.baseFilename, Extension(job.fileFormat), today))
    && (w.excel <==> job.fileFormat == "Excel")
    && ScanTable(job, products, w.table)
  }

  /** The identity columns, then every request; one record per kept row,
      in scan order, holding that row's values. */
  predicate ScanTable(job: Job, products: seq<Element>, t: Table) {
    var rows := KeptRows(job, products);
    && t.columns == IdentityColumns(job) + job.properties
    && |t.records| == |rows| == |Indices(job, products, IsKept)|
    && (forall k :: 0 <= k < |t.records| ==> |t.records[k]| == |t.columns|)
    && forall k, j :: 0 <= k < |rows| && 0 <= j < |t.columns| ==>
         t.columns[j] in rows[k] && t.records[k][j] == rows[k][t.columns[j]]
  }

  /** The write request of a scan that kept rows is that scan's write. */
  lemma WriteRequestContents(job: Job, today: Date, products: seq<Element>)
    requires KeptRows(job, products) != []
    ensures ScanWrite(job, today, products, WriteRequestFor(job, today, KeptRows(job, products)))
  {
    ScanTableOfKeptRows(job, products);
  }

  /** The projection of the kept rows onto their column order is the scan's table. */
  lemma ScanTableOfKeptRows(job: Job, products: seq<Element>)
    requires KeptRows(job, products) != []
    ensures var rows := KeptRows(job, products);
      ScanTable(job, products, Project(rows, ColumnOrder(job.properties, rows, job.includeGlobalId, job.includeName)))
  {
    var rows := KeptRows(job, products);
    KeptRowsCarry(job, products);
    KeptRowsFollowElements(job, products);
    ExportedTable(job, rows);
  }

  // ---------------------------------------------------------------------------
  // Worked runs
  // ---------------------------------------------------------------------------

  /** A model without products: the run reports the count, the error and
      `Finished`, and writes nothing. */
  lemma EmptyModelRun(job: Job, env: Env)
    requires env.openResult == Success(IfcFile(Success([]))) && env.stopAt.None?
    ensures Run(job, env) == RunResult(
      [Log(Started(job.ifcPath)), Status(Scanning), Log(ProductsFound(0)), Error(NoProducts), Finished], None)
  {
    assert ExtractStage(job, env, []).events == [Log(ProductsFound(0))] + [Error(NoProducts)];
  }

  /** The job of the worked run: one qualified request, GlobalId on, Name
      off, an Excel export of base name `My:Data*1`. */
  predicate ExampleJob(job: Job) {
    job == Job("model.ifc", ["Pset_A.Mark"], true, false, "out", "My:Data*1", "Excel")
  }

  /** The products of the worked run: a site (skipped although it carries
      the property), a wall without property sets and a beam marked `X1`. */
  predicate ExampleProducts(products: seq<Element>) {
    products == [Element("IfcSite", Some("S1"), None, Success(ExampleSets())),
                 Element("IfcWall", Some("W1"), None, Success([])),
                 Element("IfcBeam", Some("B1"), Some("Beam"), Success(ExampleSets()))]
  }

  /** The property sets of the marked elements. */
  function ExampleSets(): PropertySets {
    [("Pset_A", [("Mark", Some("X1"))])]
  }

  /** The beam's row: its GlobalId and its mark. */
  function ExampleRow(): Row {
    map["Pset_A.Mark" := "X1", GlobalIdColumn := "B1"]
  }

  /** An element of a skipped class is skipped, whatever its sets. */
  lemma SiteSkipped(job: Job, e: Element)
    requires e.typeTag == "IfcSite"
    ensures Judge(job, e) == Skipped
  {
  }

  /** An element without property sets resolves nothing and is discarded. */
  lemma NoSetsDiscarded(job: Job, e: Element)
    requires e.typeTag !in SkipEntityTypes && e.psets == Success([])
    ensures Judge(job, e) == Discarded
  {
    forall p | p in job.properties ensures ExtractProperty([], p) == NotAvailable {
    }
  }

  /** The marked beam is kept with its GlobalId and its mark. */
  lemma BeamKept(job: Job, e: Element)
    requires ExampleJob(job)
    requires e == Element("IfcBeam", Some("B1"), Some("Beam"), Success(ExampleSets()))
    ensures Judge(job, e) == Kept(ExampleRow())
  {
    SkipSetIsExact();
    var row := ResolveRow(ExampleSets(), job.properties);
    MarkResolved(ExampleSets(), job.properties);
    assert Judge(job, e) == Kept(AddIdentity(job, e, row));
    assert AddIdentity(job, e, row) == row[GlobalIdColumn := "B1"];
  }

  /** The request `Pset_A.Mark` resolves to the mark, a real value. */
  lemma MarkResolved(psets: PropertySets, properties: seq<string>)
    requires psets == ExampleSets() && properties == ["Pset_A.Mark"]
    ensures ResolveRow(psets, properties) == map["Pset_A.Mark" := "X1"]
    ensures HasRealValue(psets, properties)
  {
    QualifiedExample(psets, "Pset_A.Mark");
    assert |NotAvailable| != |"X1"|;
    SingleRequestRow(psets, "Pset_A.Mark", "X1");
  }

  /** A single request that resolves to a real value gives a one-entry row
      and a kept element. */
  lemma SingleRequestRow(psets: PropertySets, request: string, value: string)
    requires ExtractProperty(psets, request) == value && value != NotAvailable
    ensures ResolveRow(psets, [request]) == map[request := value]
    ensures HasRealValue(psets, [request])
  {
    assert request in [request];
  }

  /** The scan keeps the beam's row alone and warns about nothing. */
  lemma ExampleScan(job: Job, products: seq<Element>)
    requires ExampleJob(job) && ExampleProducts(products)
    ensures KeptRows(job, products) == [ExampleRow()]
    ensures Warnings(job, products) == []
  {
    SiteSkipped(job, products[0]);
    SkipSetIsExact();
    NoSetsDiscarded(job, products[1]);
    BeamKept(job, products[2]);
    ScanOfThree(job, products);
    assert RowsOf(job, products[2]) == [ExampleRow()];
  }

  /** A scan of three elements collects their contributions in order. */
  lemma ScanOfThree(job: Job, es: seq<Element>)
    requires |es| == 3
    ensures KeptRows(job, es) == RowsOf(job, es[0]) + RowsOf(job, es[1]) + RowsOf(job, es[2])
    ensures Warnings(job, es) == WarningsOf(job, es[0]) + WarningsOf(job, es[1]) + WarningsOf(job, es[2])
  {
    ScanStep(job, es, 0);
    ScanStep(job, es, 1);
    ScanStep(job, es, 2);
    assert es[..3] == es;
    assert KeptRows(job, es[..0]) == [] && Warnings(job, es[..0]) == [];
    AppendThree(KeptRows(job, es[..0]), KeptRows(job, es[..1]), KeptRows(job, es[..2]), KeptRows(job, es[..3]),
                RowsOf(job, es[0]), RowsOf(job, es[1]), RowsOf(job, es[2]));
    AppendThree(Warnings(job, es[..0]), Warnings(job, es[..1]), Warnings(job, es[..2]), Warnings(job, es[..3]),
                WarningsOf(job, es[0]), WarningsOf(job, es[1]), WarningsOf(job, es[2]));
  }

  /** Three appends to an empty sequence give the three parts in order. */
  lemma AppendThree<T>(s0: seq<T>, s1: seq<T>, s2: seq<T>, s3: seq<T>, a: seq<T>, b: seq<T>, c: seq<T>)
    requires s0 == [] && s1 == s0 + a && s2 == s1 + b && s3 == s2 + c
    ensures s3 == a + b + c
  {
    assert s1 == a;
  }

  /** The write: the identity column, then the request, one record, in the
      sanitised, dated workbook file. */
  lemma ExampleWrite(job: Job, rows: seq<Row>)
    requires ExampleJob(job) && rows == [ExampleRow()]
    ensures WriteRequestFor(job, Date(3, 7), rows)
            == WriteRequest(OutputPath("out", "My_Data_1_03-07.xlsx"), true,
                            Table(["GlobalId", "Pset_A.Mark"], [["B1", "X1"]]))
  {
    ExampleColumns(job, rows);
    ExampleTable(rows);
    OutputFilenameExample("My:Data*1", "xlsx", Date(3, 7));
  }

  /** The beam's row carries both columns, GlobalId first. */
  lemma ExampleColumns(job: Job, rows: seq<Row>)
    requires ExampleJob(job) && rows == [ExampleRow()]
    ensures ColumnOrder(job.properties, rows, job.includeGlobalId, job.includeName) == ["GlobalId", "Pset_A.Mark"]
  {
    assert Carries(job, rows[0]);
    ColumnsOfFullRows(job, rows);
  }

  /** Projecting the beam's row gives its one record. */
  lemma ExampleTable(rows: seq<Row>)
    requires rows == [ExampleRow()]
    ensures Project(rows, ["GlobalId", "Pset_A.Mark"]) == Table(["GlobalId", "Pset_A.Mark"], [["B1", "X1"]])
  {
    var t := Project(rows, ["GlobalId", "Pset_A.Mark"]);
    assert t.records[0] == ["B1", "X1"];
  }

  /** The whole worked run, event by event. */
  lemma ExampleRun(job: Job, env: Env, products: seq<Element>)
    requires ExampleJob(job) && ExampleProducts(products)
    requires env == Env(Success(IfcFile(Success(products))), None, Date(3, 7), None)
    ensures var path := OutputPath("out", "My_Data_1_03-07.xlsx");
      Run(job, env) == RunResult(
        [Log(Started("model.ifc")), Status(Scanning), Log(ProductsFound(3)), Status(Extracting),
         Log(ExtractionDone(1)), Status(Writing("Excel")), Complete(path, 1), Finished],
        Some(WriteRequest(path, true, Table(["GlobalId", "Pset_A.Mark"], [["B1", "X1"]]))))
  {
    ExampleScan(job, products);
    ExampleWrite(job, [ExampleRow()]);
    QuietCompleteRun(job, env, products);
  }

  /** A run that enumerates its products, is never stopped, warns about
      nothing, keeps some rows and writes them without fault: its events are
      the progress of each stage, the completion and `Finished`. */
  lemma QuietCompleteRun(job: Job, env: Env, products: seq<Element>)
    requires env.openResult == Success(IfcFile(Success(products))) && env.stopAt.None?
    requires products != [] && Warnings(job, products) == [] && KeptRows(job, products) != []
    requires env.writeError.None?
    ensures var rows := KeptRows(job, products);
      var w := WriteRequestFor(job, env.today, rows);
      Run(job, env) == RunResult(
        [Log(Started(job.ifcPath)), Status(Scanning), Log(ProductsFound(|products|)), Status(Extracting),
         Log(ExtractionDone(|rows|)), Status(Writing(job.fileFormat)), Complete(w.path, |rows|), Finished],
        Some(w))
  {
    var rows := KeptRows(job, products);
    var w := WriteRequestFor(job, env.today, rows);
    RunAfterEnumeration(job, env, products);
    ExtractAfterFullScan(job, env, products);
    ExportWithoutFault(job, env, rows, |products|);
    EventsInOrder(Log(Started(job.ifcPath)), Status(Scanning), Log(ProductsFound(|products|)), Status(Extracting),
                  Log(ExtractionDone(|rows|)), Status(Writing(job.fileFormat)), Complete(w.path, |rows|), Finished);
  }

  /** The stage sequences of a quiet complete run, flattened. */
  lemma EventsInOrder(a: Event, b: Event, c: Event, d: Event, e: Event, f: Event, g: Event, h: Event)
    ensures [a, b] + ([c] + [d] + [] + [e, f, g]) + [h] == [a, b, c, d, e, f, g, h]
  {
  }

  /** Once the products are enumerated and no stop is seen at check 0, the
      run is the start, the later stages and `Finished`. */
  lemma RunAfterEnumeration(job: Job, env: Env, products: seq<Element>)
    requires env.openResult == Success(IfcFile(Success(products))) && !StopObserved(env.stopAt, 0)
    ensures var x := ExtractStage(job, env, products);
      Run(job, env) == RunResult([Log(Started(job.ifcPath)), Status(Scanning)] + x.events + [Finished], x.written)
  {
  }

  /** A scan that runs to the end is followed by the export of its rows. */
  lemma ExtractAfterFullScan(job: Job, env: Env, products: seq<Element>)
    requires products != [] && CancelIndex(env.stopAt, |products|).None?
    ensures var x := ExportStage(job, env, KeptRows(job, products), |products|);
      ExtractStage(job, env, products)
      == StagesOutcome([Log(ProductsFound(|products|))] + [Status(Extracting)] + Warnings(job, products) + x.events,
                       x.written, None)
  {
  }

  /** With rows, no stop and a writer that succeeds, the export writes and
      completes. */
  lemma ExportWithoutFault(job: Job, env: Env, rows: seq<Row>, n: nat)
    requires rows != [] && !StopObserved(env.stopAt, n + 1) && env.writeError.None?
    ensures var w := WriteRequestFor(job, env.today, rows);
      ExportStage(job, env, rows, n)
      == StagesOutcome([Log(ExtractionDone(|rows|)), Status(Writing(job.fileFormat)), Complete(w.path, |rows|)],
                       Some(w), None)
  {
  }
}
