/**
 The derived `runs` table beside the chain (`audit/src/store.rs`): rows written in place as
 runs start and end, the rebuild from the chain, and the cross-check of the two.
 */
module RunIndex {
  import opened Wrappers
  import opened RunMarkers
  import opened RunFold

  type Table = map<string, RunRecord>

  // ----- Rows and tables ----------------------------------------------------------------------------

  /** Plain `INSERT`s into an empty table, in order; `None` is a primary-key violation. */
  function InsertAll(rows: seq<RunRecord>): Option<Table> {
    if rows == [] then Some(map[])
    else
      var last := rows[|rows| - 1];
      match InsertAll(rows[..|rows| - 1])
      case Some(t) => if last.runId in t then None else Some(t[last.runId := last])
      case None => None
  }

  /** The table holds exactly these rows. */
  predicate Holds(table: Table, rows: seq<RunRecord>) {
    && (forall i :: 0 <= i < |rows| ==> rows[i].runId in table && table[rows[i].runId] == rows[i])
    && (forall id :: id in table ==> HasRow(rows, id))
  }

  lemma {:induction false} InsertAllIsExact(rows: seq<RunRecord>)
    ensures InsertAll(rows).Some? <==> UniqueIds(rows)
    ensures InsertAll(rows).Some? ==> Holds(InsertAll(rows).value, rows)
  {
    if rows != [] {
      var front, last := rows[..|rows| - 1], rows[|rows| - 1];
      InsertAllIsExact(front);
      if InsertAll(front).Some? {
        InsertStep(InsertAll(front).value, front, last);
        assert rows == front + [last];
      }
    }
  }

  lemma InsertStep(t: Table, front: seq<RunRecord>, last: RunRecord)
    requires Holds(t, front) && UniqueIds(front)
    ensures last.runId !in t <==> UniqueIds(front + [last])
    ensures last.runId !in t ==> Holds(t[last.runId := last], front + [last])
  {
    var rows := front + [last];
    forall i | 0 <= i < |front| ensures rows[i] == front[i] && HasRow(rows, front[i].runId) {
    }
    if last.runId in t {
      var i :| 0 <= i < |front| && front[i].runId == last.runId;
      assert rows[i].runId == rows[|front|].runId;
    } else {
      assert rows[|front|] == last;
      forall id | id in t ensures HasRow(rows, id) {
        var i :| 0 <= i < |front| && front[i].runId == id;
        assert rows[i].runId == id;
      }
    }
  }

  lemma NotSmaller(table: Table, rows: seq<RunRecord>)
    requires Holds(table, rows) && UniqueIds(rows)
    ensures |table| == |rows|
  {
    if rows == [] {
      if id :| id in table {
        assert HasRow(rows, id);
      }
    } else {
      var front, last := rows[..|rows| - 1], rows[|rows| - 1];
      var less := table - {last.runId};
      forall id | id in less ensures HasRow(front, id) {
        var i :| 0 <= i < |rows| && rows[i].runId == id;
        assert front[i].runId == id;
      }
      NotSmaller(less, front);
      assert table.Keys == less.Keys + {last.runId};
      assert |table| == |table.Keys| && |less| == |less.Keys|;
    }
  }

  /** A table holds rows and what they grew into only if nothing changed. */
  lemma HoldsBothWays(table: Table, before: seq<RunRecord>, after: seq<RunRecord>)
    requires Holds(table, before) && Holds(table, after) && UniqueIds(before) && UniqueIds(after)
    requires Continues(before, after)
    ensures before == after
  {
    NotSmaller(table, before);
    NotSmaller(table, after);
    forall i | 0 <= i < |before| ensures before[i] == after[i] {
      assert SameStart(before[i], after[i]);
    }
  }

  // ----- What the log says about a run, without deriving anything --------------------------------------

  /** The run a marker is about. */
  function RunOf(e: Mark): Option<string> {
    match e.marker
    case StartOf(p) => Some(p.runId)
    case EndOf(id, _) => Some(id)
    case AbandonOf(id) => Some(id)
    case _ => None
  }

  predicate Started(log: seq<Mark>, id: string) {
    exists p :: 0 <= p < |log| && StartsRun(log[p], id)
  }

  predicate Ended(log: seq<Mark>, id: string) {
    exists p, q :: 0 <= p < q < |log| && StartsRun(log[p], id) && EndsRun(log[q], id)
  }

  predicate Abandoned(log: seq<Mark>, id: string) {
    exists p, q :: 0 <= p < q < |log| && StartsRun(log[p], id) && AbandonsRun(log[q], id)
  }

  /** The event changes no derived row: a second start, a stray end, a stray or repeated abandon. */
  predicate AddsNothing(log: seq<Mark>, e: Mark) {
    match e.marker
    case StartOf(p) => Started(log, p.runId)
    case EndOf(id, _) => !Started(log, id) || Ended(log, id)
    case AbandonOf(id) => !Started(log, id) || Ended(log, id) || Abandoned(log, id)
    case _ => true
  }

  lemma RowsSayWhatTheLogSays(log: seq<Mark>, id: string)
    ensures var rows := Derive(log).rows;
      && (HasRow(rows, id) <==> Started(log, id))
      && forall i :: 0 <= i < |rows| && rows[i].runId == id ==>
           && (rows[i].endSeq.Some? <==> Ended(log, id))
           && (rows[i].endSeq.None? ==> rows[i].status == if Abandoned(log, id) then RunAbandoned else RunOpen)
  {
    var rows := Derive(log).rows;
    DerivedRowsMean(log);
    hide RowMeans, Ended, Abandoned;
    forall i | 0 <= i < |rows| && rows[i].runId == id
      ensures Started(log, id) && (rows[i].endSeq.Some? <==> Ended(log, id))
      ensures rows[i].endSeq.None? ==> rows[i].status == if Abandoned(log, id) then RunAbandoned else RunOpen
    {
      assert HasMeaning(log, rows[i]);
      var p: nat :| RowMeans(log, rows[i], p);
      OneRowSays(log, rows[i], p);
    }
  }

  lemma OneRowSays(log: seq<Mark>, row: RunRecord, p: nat)
    requires RowMeans(log, row, p)
    ensures Started(log, row.runId) && (row.endSeq.Some? <==> Ended(log, row.runId))
    ensures row.endSeq.None? ==> row.status == if Abandoned(log, row.runId) then RunAbandoned else RunOpen
  {
    var id := row.runId;
    if row.endSeq.Some? {
      var q: nat :| ClosedBy(log, row, p, q);
      assert StartsRun(log[p], id) && EndsRun(log[q], id);
    } else {
      if a, b :| 0 <= a < b < |log| && StartsRun(log[a], id) && AbandonsRun(log[b], id) {
        assert p <= a;
      }
      if b :| p < b < |log| && AbandonsRun(log[b], id) {
        assert StartsRun(log[p], id);
      }
    }
  }

  /** A derived row keeps its place exactly when the event says nothing new. */
  lemma QuietExactly(log: seq<Mark>, e: Mark)
    ensures Step(Derive(log), e).rows == Derive(log).rows <==> AddsNothing(log, e)
  {
    var d := Derive(log);
    match e.marker
    case StartOf(p) =>
      RowsSayWhatTheLogSays(log, p.runId);
    case EndOf(id, _) =>
      RowsSayWhatTheLogSays(log, id);
      QuietOpenRow(log, id);
    case AbandonOf(id) =>
      RowsSayWhatTheLogSays(log, id);
      QuietOpenRow(log, id);
    case _ =>
  }

  lemma QuietOpenRow(log: seq<Mark>, id: string)
    ensures OpenRow(Derive(log).rows, id).Some? <==> Started(log, id) && !Ended(log, id)
  {
    var rows := Derive(log).rows;
    RowsSayWhatTheLogSays(log, id);
    if Started(log, id) {
      var i :| 0 <= i < |rows| && rows[i].runId == id;
      RunIdsAreUnique(log);
    }
  }

  // ----- The counters of the report -----------------------------------------------------------------------------

  function ReadableStarts(log: seq<Mark>): nat {
    if log == [] then 0
    else ReadableStarts(log[..|log| - 1]) + if log[|log| - 1].marker.StartOf? then 1 else 0
  }

  function EndedRows(rows: seq<RunRecord>): nat {
    if rows == [] then 0
    else EndedRows(rows[..|rows| - 1]) + if rows[|rows| - 1].endSeq.Some? then 1 else 0
  }

  /** Abandon markers that name a run that has started and not ended. */
  function LiveAbandons(log: seq<Mark>): nat {
    if log == [] then 0
    else
      var front, e := log[..|log| - 1], log[|log| - 1];
      LiveAbandons(front) +
        if e.marker.AbandonOf? && Started(front, e.marker.runId) && !Ended(front, e.marker.runId) then 1 else 0
  }

  lemma {:induction false} EndedRowsUpdate(rows: seq<RunRecord>, i: nat, row: RunRecord)
    requires i < |rows|
    ensures EndedRows(rows[i := row]) + (if rows[i].endSeq.Some? then 1 else 0) ==
            EndedRows(rows) + (if row.endSeq.Some? then 1 else 0)
  {
    var n := |rows| - 1;
    if i == n {
      assert rows[i := row][..n] == rows[..n];
    } else {
      EndedRowsUpdate(rows[..n], i, row);
      assert rows[i := row][..n] == rows[..n][i := row];
    }
  }

  lemma EndedRowsStep(d: Derived, e: Mark)
    ensures EndedRows(Step(d, e).rows) == EndedRows(d.rows) +
      if e.marker.EndOf? && OpenRow(d.rows, e.marker.runId).Some? then 1 else 0
  {
    match e.marker
    case StartOf(p) =>
      assert (d.rows + [RowFor(p, e)])[..|d.rows|] == d.rows;
    case EndOf(id, status) =>
      var slot := OpenRow(d.rows, id);
      if slot.Some? {
        EndedRowsUpdate(d.rows, slot.value, Closed(d.rows[slot.value], e, status));
      }
    case AbandonOf(id) =>
      var slot := OpenRow(d.rows, id);
      if slot.Some? {
        EndedRowsUpdate(d.rows, slot.value, d.rows[slot.value].(status := RunAbandoned));
      }
    case _ =>
  }

  /** Every counter of the report, read off the log and the rows; orphans are all other markers. */
  lemma {:induction false} CountersAreExact(log: seq<Mark>)
    ensures var d := Derive(log);
      && d.starts == ReadableStarts(log) && d.ends == EndedRows(d.rows) && d.abandoned == LiveAbandons(log)
      && d.orphans == MarkersSeen(log) - |d.rows| - d.ends - d.abandoned
  {
    hide OpenRow, Started, Ended, HasRow, RowFor, Closed;
    MarkersAreConserved(log);
    if log != [] {
      var front, e := log[..|log| - 1], log[|log| - 1];
      CountersAreExact(front);
      EndedRowsStep(Derive(front), e);
      if RunOf(e).Some? {
        QuietOpenRow(front, RunOf(e).value);
      }
    }
  }

  // ----- The index maintained step by step -------------------------------------------------------------

  datatype Book = Book(log: seq<Mark>, table: Table)

  /**
   What a host does to chain and index. `Note` is an append with no index write: any other
   event, an abandon mark, or a start or end whose index write failed. `Rebuild(read)` clears
   and refills the table from the first `read` events; others may append after it reads.
   */
  datatype Op =
    | Begin(start: Mark)
    | Finish(end: Mark)
    | Note(event: Mark)
    | Rebuild(read: nat)

  /** `index_run_start`: insert or replace. */
  function IndexRunStart(table: Table, row: RunRecord): Table { table[row.runId := row] }

  /** `index_run_end`: an unconditional update of the row, if there is one. */
  function IndexRunEnd(table: Table, id: string, endSeq: int, endedAtMs: int, status: RunStatus): Table {
    if id in table
    then table[id := table[id].(endSeq := Some(endSeq), endedAtMs := Some(endedAtMs), status := status)]
    else table
  }

  function DerivedRows(log: seq<Mark>): seq<RunRecord> { Derive(log).rows }

  predicate Possible(b: Book, op: Op) {
    match op
    case Begin(e) => e.marker.StartOf? && Ordered(b.log + [e])
    case Finish(e) => e.marker.EndOf? && Ordered(b.log + [e])
    case Note(e) => Ordered(b.log + [e])
    case Rebuild(read) => read <= |b.log|
  }

  function Do(b: Book, op: Op): Book
    requires Possible(b, op)
  {
    match op
    case Begin(e) => Book(b.log + [e], IndexRunStart(b.table, RowFor(e.marker.payload, e)))
    case Finish(e) =>
      Book(b.log + [e], IndexRunEnd(b.table, e.marker.runId, e.id, e.timestampMs, e.marker.status))
    case Note(e) => b.(log := b.log + [e])
    case Rebuild(read) =>
      match InsertAll(DerivedRows(b.log[..read]))
      case Some(t) => b.(table := t)
      case None => b
  }

  /** The index is what the chain derives. */
  predicate Agrees(b: Book) { Holds(b.table, DerivedRows(b.log)) }

  /** Nothing appended since the first `read` events says anything new. */
  predicate QuietSince(log: seq<Mark>, read: nat)
    requires read <= |log|
  {
    forall k :: read <= k < |log| ==> AddsNothing(log[..k], log[k])
  }

  /** Start once, end at most once and only what was started, and index every event that says something. */
  predicate Disciplined(b: Book, op: Op)
    requires Possible(b, op)
  {
    match op
    case Begin(e) => !Started(b.log, e.marker.payload.runId)
    case Finish(e) => !Ended(b.log, e.marker.runId)
    case Note(e) => AddsNothing(b.log, e)
    case Rebuild(read) => QuietSince(b.log, read)
  }

  lemma LastStep(log: seq<Mark>, e: Mark)
    ensures DerivedRows(log + [e]) == Step(Derive(log), e).rows
    ensures Continues(DerivedRows(log), DerivedRows(log + [e]))
    ensures UniqueIds(DerivedRows(log)) && UniqueIds(DerivedRows(log + [e]))
  {
    assert (log + [e])[..|log|] == log;
    StepContinues(Derive(log), e);
    RunIdsAreUnique(log);
    RunIdsAreUnique(log + [e]);
  }

  lemma NoteStep(b: Book, e: Mark)
    requires Agrees(b) && Possible(b, Note(e))
    ensures Agrees(Do(b, Note(e))) <==> Disciplined(b, Note(e))
  {
    hide Holds, AddsNothing, Continues, UniqueIds, Step;
    LastStep(b.log, e);
    QuietExactly(b.log, e);
    if Agrees(Do(b, Note(e))) {
      HoldsBothWays(b.table, DerivedRows(b.log), DerivedRows(b.log + [e]));
    }
  }

  lemma AppendedHolds(table: Table, rows: seq<RunRecord>, row: RunRecord)
    requires Holds(table, rows) && !HasRow(rows, row.runId)
    ensures Holds(table[row.runId := row], rows + [row])
  {
    var all := rows + [row];
    assert all[|rows|] == row;
    forall id | id in table ensures HasRow(all, id) {
      var i :| 0 <= i < |rows| && rows[i].runId == id;
      assert all[i].runId == id;
    }
  }

  lemma BeginStep(b: Book, e: Mark)
    requires Agrees(b) && Possible(b, Begin(e))
    ensures Agrees(Do(b, Begin(e))) <==> Disciplined(b, Begin(e))
  {
    hide Started, Continues, UniqueIds, StartsIncrease;
    var p := e.marker.payload;
    var rows := DerivedRows(b.log);
    var row := RowFor(p, e);
    LastStep(b.log, e);
    RowsSayWhatTheLogSays(b.log, p.runId);
    if HasRow(rows, p.runId) {
      var i :| 0 <= i < |rows| && rows[i].runId == p.runId;
      StartsAreBelow(b.log, e);
      assert rows[i].startSeq < e.id;
    } else {
      AppendedHolds(b.table, rows, row);
    }
  }

  lemma StartsAreBelow(log: seq<Mark>, e: Mark)
    requires Ordered(log + [e])
    ensures StartsBelow(DerivedRows(log), e.id)
  {
    assert forall i :: 0 <= i < |log| ==> log[i] == (log + [e])[i];
    StartsAreIncreasing(log);
    if log != [] {
      assert (log + [e])[|log| - 1].id < (log + [e])[|log|].id;
    }
  }

  lemma ChangedHolds(table: Table, rows: seq<RunRecord>, i: nat, row: RunRecord)
    requires Holds(table, rows) && UniqueIds(rows) && i < |rows| && row.runId == rows[i].runId
    ensures Holds(table[row.runId := row], rows[i := row])
  {
    var all := rows[i := row];
    forall id | id in table ensures HasRow(all, id) {
      var k :| 0 <= k < |rows| && rows[k].runId == id;
      assert all[k].runId == id;
    }
  }

  lemma FinishStep(b: Book, e: Mark)
    requires Agrees(b) && Possible(b, Finish(e))
    ensures Agrees(Do(b, Finish(e))) <==> Disciplined(b, Finish(e))
  {
    hide Started, Ended, Abandoned, Continues, Ordered;
    var id := e.marker.runId;
    var rows := DerivedRows(b.log);
    LastStep(b.log, e);
    RowsSayWhatTheLogSays(b.log, id);
    QuietOpenRow(b.log, id);
    var slot := OpenRow(rows, id);
    if slot.Some? {
      ChangedHolds(b.table, rows, slot.value, Closed(rows[slot.value], e, e.marker.status));
    } else if Ended(b.log, id) {
      EndedIsStarted(b.log, id);
      var i :| 0 <= i < |rows| && rows[i].runId == id;
      EndsAreBelow(b.log, e, i);
    } else {
      assert id !in b.table;
    }
  }

  lemma EndedIsStarted(log: seq<Mark>, id: string)
    requires Ended(log, id)
    ensures Started(log, id)
  {
  }

  lemma EndsAreBelow(log: seq<Mark>, e: Mark, i: nat)
    requires Ordered(log + [e]) && i < |DerivedRows(log)| && DerivedRows(log)[i].endSeq.Some?
    ensures DerivedRows(log)[i].endSeq.value < e.id
  {
    var row := DerivedRows(log)[i];
    DerivedRowsMean(log);
    assert HasMeaning(log, row);
    var p: nat :| RowMeans(log, row, p);
    var q: nat :| ClosedBy(log, row, p, q);
    assert (log + [e])[q].id < (log + [e])[|log|].id;
  }

  // ----- Rebuilding ---------------------------------------------------------------------------------------

  /** How far a row has come: it only ever moves on. */
  function Stage(r: RunRecord): nat {
    if r.endSeq.Some? then 3 else if r.status.RunAbandoned? then 2 else 1
  }

  function Progress(rows: seq<RunRecord>): nat {
    if rows == [] then 0 else Progress(rows[..|rows| - 1]) + Stage(rows[|rows| - 1])
  }

  lemma {:induction false} ProgressOfUpdate(rows: seq<RunRecord>, i: nat, row: RunRecord)
    requires i < |rows| && Stage(row) >= Stage(rows[i])
    ensures Progress(rows[i := row]) == Progress(rows) + (Stage(row) - Stage(rows[i]))
  {
    var n := |rows| - 1;
    if i == n {
      assert rows[i := row][..n] == rows[..n];
    } else {
      ProgressOfUpdate(rows[..n], i, row);
      assert rows[i := row][..n] == rows[..n][i := row];
    }
  }

  lemma StepProgresses(d: Derived, e: Mark)
    ensures Progress(Step(d, e).rows) >= Progress(d.rows)
    ensures Progress(Step(d, e).rows) == Progress(d.rows) ==> Step(d, e).rows == d.rows || e.marker.AbandonOf?
  {
    match e.marker
    case StartOf(p) =>
      assert (d.rows + [RowFor(p, e)])[..|d.rows|] == d.rows;
    case EndOf(id, status) =>
      var slot := OpenRow(d.rows, id);
      if slot.Some? {
        ProgressOfUpdate(d.rows, slot.value, Closed(d.rows[slot.value], e, status));
      }
    case AbandonOf(id) =>
      var slot := OpenRow(d.rows, id);
      if slot.Some? {
        ProgressOfUpdate(d.rows, slot.value, d.rows[slot.value].(status := RunAbandoned));
      }
    case _ =>
  }

  lemma AbandonProgresses(log: seq<Mark>, e: Mark)
    requires e.marker.AbandonOf? && !AddsNothing(log, e)
    ensures Progress(Step(Derive(log), e).rows) > Progress(DerivedRows(log))
  {
    var id := e.marker.runId;
    var d := Derive(log);
    RowsSayWhatTheLogSays(log, id);
    QuietOpenRow(log, id);
    var slot := OpenRow(d.rows, id);
    ProgressOfUpdate(d.rows, slot.value, d.rows[slot.value].(status := RunAbandoned));
  }

  /** Rows that came to be the same again never changed in between. */
  lemma {:induction false} QuietSinceExactly(log: seq<Mark>, read: nat)
    requires read <= |log|
    ensures Progress(DerivedRows(log[..read])) <= Progress(DerivedRows(log))
    ensures DerivedRows(log[..read]) == DerivedRows(log) <==> QuietSince(log, read)
    ensures Progress(DerivedRows(log[..read])) == Progress(DerivedRows(log)) ==> QuietSince(log, read)
    decreases |log|
  {
    hide AddsNothing, Progress, Step;
    if read == |log| {
      assert log[..read] == log;
    } else {
      var front, e := log[..|log| - 1], log[|log| - 1];
      assert log == front + [e] && front[..read] == log[..read];
      QuietSinceExactly(front, read);
      LastStep(front, e);
      QuietExactly(front, e);
      StepProgresses(Derive(front), e);
      assert QuietSince(log, read) <==> QuietSince(front, read) && AddsNothing(front, e) by {
        assert forall k :: read <= k < |front| ==> log[..k] == front[..k] && log[k] == front[k];
        assert log[..|front|] == front;
      }
      if !AddsNothing(front, e) && e.marker.AbandonOf? {
        AbandonProgresses(front, e);
      }
    }
  }

  /**
   A rebuild never meets the primary key; it makes index and chain agree exactly when nothing
   that says something new was appended after it read the chain.
   */
  lemma RebuildStep(b: Book, read: nat)
    requires Possible(b, Rebuild(read))
    ensures InsertAll(DerivedRows(b.log[..read])).Some?
    ensures Agrees(Do(b, Rebuild(read))) <==> Disciplined(b, Rebuild(read))
  {
    hide Holds, QuietSince, Progress, UniqueIds, Continues, InsertAll;
    var before := DerivedRows(b.log[..read]);
    RunIdsAreUnique(b.log[..read]);
    RunIdsAreUnique(b.log);
    InsertAllIsExact(before);
    QuietSinceExactly(b.log, read);
    assert b.log == b.log[..read] + b.log[read..];
    DeriveIsMonotone(b.log[..read], b.log[read..]);
    var after := Do(b, Rebuild(read));
    if Agrees(after) {
      HoldsBothWays(after.table, before, DerivedRows(b.log));
    }
  }

  /** Rebuilding again changes nothing. */
  lemma RebuildTwice(b: Book)
    ensures Agrees(Do(b, Rebuild(|b.log|)))
    ensures Do(Do(b, Rebuild(|b.log|)), Rebuild(|b.log|)) == Do(b, Rebuild(|b.log|))
  {
    RebuildStep(b, |b.log|);
  }

  // ----- Whole runs -------------------------------------------------------------------------------------------

  /** One step keeps index and chain in agreement exactly when it follows the discipline. */
  lemma StepKeepsAgreement(b: Book, op: Op)
    requires Agrees(b) && Possible(b, op)
    ensures Agrees(Do(b, op)) <==> Disciplined(b, op)
  {
    hide Agrees, Do, Disciplined, Possible;
    match op
    case Begin(e) => BeginStep(b, e);
    case Finish(e) => FinishStep(b, e);
    case Note(e) => NoteStep(b, e);
    case Rebuild(read) => RebuildStep(b, read);
  }

  ghost predicate History(books: seq<Book>, ops: seq<Op>) {
    && |books| == |ops| + 1 && books[0] == Book([], map[])
    && forall k :: 0 <= k < |ops| ==> Possible(books[k], ops[k]) && books[k + 1] == Do(books[k], ops[k])
  }

  /** Index and chain agree all along exactly when every step follows the discipline. */
  lemma {:induction false} AgreementIsDiscipline(books: seq<Book>, ops: seq<Op>)
    requires History(books, ops)
    ensures (forall k :: 0 <= k < |books| ==> Agrees(books[k])) <==>
            (forall k :: 0 <= k < |ops| ==> Disciplined(books[k], ops[k]))
  {
    hide Do, Disciplined, Possible;
    if forall k :: 0 <= k < |ops| ==> Disciplined(books[k], ops[k]) {
      for n := 0 to |ops|
        invariant forall k :: 0 <= k <= n ==> Agrees(books[k])
      {
        StepKeepsAgreement(books[n], ops[n]);
      }
    }
    if forall k :: 0 <= k < |books| ==> Agrees(books[k]) {
      forall k | 0 <= k < |ops| ensures Disciplined(books[k], ops[k]) {
        assert Agrees(books[k]) && Agrees(books[k + 1]);
        StepKeepsAgreement(books[k], ops[k]);
      }
    }
  }

  // ----- The cross-check -----------------------------------------------------------------------------------------

  datatype Finding =
    | Missing(runId: string, startSeq: int)
    | Differs(runId: string, stored: RunRecord, derived: RunRecord)
    | NotInChain(runId: string, startSeq: int)

  function FindRow(rows: seq<RunRecord>, id: string): (r: Option<RunRecord>)
    ensures r.None? <==> !HasRow(rows, id)
    ensures r.Some? ==> r.value in rows && r.value.runId == id
  {
    if rows == [] then None
    else if rows[0].runId == id then Some(rows[0])
    else
      assert forall i :: 1 <= i < |rows| ==> rows[i] == rows[1..][i - 1];
      assert HasRow(rows, id) <==> HasRow(rows[1..], id) by {
        if HasRow(rows, id) {
          var i :| 0 <= i < |rows| && rows[i].runId == id;
          assert rows[1..][i - 1].runId == id;
        }
      }
      FindRow(rows[1..], id)
  }

  function FindingFor(row: RunRecord, stored: seq<RunRecord>): Option<Finding> {
    match FindRow(stored, row.runId)
    case None => Some(Missing(row.runId, row.startSeq))
    case Some(s) => if s != row then Some(Differs(row.runId, s, row)) else None
  }

  function ExtraFor(row: RunRecord, derived: seq<RunRecord>): Option<Finding> {
    if HasRow(derived, row.runId) then None else Some(NotInChain(row.runId, row.startSeq))
  }

  /** What the first loop, then the second, finds after `n` rows. */
  function Mismatches(derived: seq<RunRecord>, stored: seq<RunRecord>, n: nat): seq<Finding>
    requires n <= |derived|
  {
    if n == 0 then []
    else
      var f := FindingFor(derived[n - 1], stored);
      Mismatches(derived, stored, n - 1) + if f.Some? then [f.value] else []
  }

  function Extras(derived: seq<RunRecord>, stored: seq<RunRecord>, n: nat): seq<Finding>
    requires n <= |stored|
  {
    if n == 0 then []
    else
      var f := ExtraFor(stored[n - 1], derived);
      Extras(derived, stored, n - 1) + if f.Some? then [f.value] else []
  }

  function CheckRunIndex(derived: seq<RunRecord>, stored: seq<RunRecord>): seq<Finding> {
    Mismatches(derived, stored, |derived|) + Extras(derived, stored, |stored|)
  }

  lemma {:induction false} MismatchesAreExact(derived: seq<RunRecord>, stored: seq<RunRecord>, n: nat, f: Finding)
    requires n <= |derived|
    ensures f in Mismatches(derived, stored, n) <==>
            exists i :: 0 <= i < n && FindingFor(derived[i], stored) == Some(f)
  {
    if n > 0 {
      MismatchesAreExact(derived, stored, n - 1, f);
    }
  }

  lemma {:induction false} ExtrasAreExact(derived: seq<RunRecord>, stored: seq<RunRecord>, n: nat, f: Finding)
    requires n <= |stored|
    ensures f in Extras(derived, stored, n) <==>
            exists i :: 0 <= i < n && ExtraFor(stored[i], derived) == Some(f)
  {
    if n > 0 {
      ExtrasAreExact(derived, stored, n - 1, f);
    }
  }

  /** Every finding names a real difference between the rows, and every difference is found. */
  ghost predicate IsDiscrepancy(derived: seq<RunRecord>, stored: seq<RunRecord>, f: Finding) {
    match f
    case Missing(id, at) =>
      !HasRow(stored, id) && exists i :: 0 <= i < |derived| && derived[i].runId == id && derived[i].startSeq == at
    case Differs(id, s, d) => s in stored && d in derived && s.runId == id == d.runId && s != d
    case NotInChain(id, at) =>
      !HasRow(derived, id) && exists i :: 0 <= i < |stored| && stored[i].runId == id && stored[i].startSeq == at
  }

  lemma FoundByItsId(rows: seq<RunRecord>, row: RunRecord)
    requires UniqueIds(rows) && row in rows
    ensures FindRow(rows, row.runId) == Some(row)
  {
    var i :| 0 <= i < |rows| && rows[i] == row;
    var k :| 0 <= k < |rows| && rows[k] == FindRow(rows, row.runId).value;
  }

  lemma CheckIsExact(derived: seq<RunRecord>, stored: seq<RunRecord>, f: Finding)
    requires UniqueIds(derived) && UniqueIds(stored)
    ensures f in CheckRunIndex(derived, stored) <==> IsDiscrepancy(derived, stored, f)
  {
    MismatchesAreExact(derived, stored, |derived|, f);
    ExtrasAreExact(derived, stored, |stored|, f);
    hide FindRow, UniqueIds;
    if IsDiscrepancy(derived, stored, f) {
      match f
      case Missing(id, at) =>
        var i :| 0 <= i < |derived| && derived[i].runId == id && derived[i].startSeq == at;
        assert FindingFor(derived[i], stored) == Some(f);
      case Differs(id, s, d) =>
        FoundByItsId(stored, s);
        var i :| 0 <= i < |derived| && derived[i] == d;
        assert FindingFor(derived[i], stored) == Some(f);
      case NotInChain(id, at) =>
        var i :| 0 <= i < |stored| && stored[i].runId == id && stored[i].startSeq == at;
        assert ExtraFor(stored[i], derived) == Some(f);
    }
  }

  /** The check is silent exactly when the table holds the derived rows. */
  lemma CheckDecidesAgreement(table: Table, derived: seq<RunRecord>, stored: seq<RunRecord>)
    requires UniqueIds(derived) && UniqueIds(stored) && Holds(table, stored)
    ensures CheckRunIndex(derived, stored) == [] <==> Holds(table, derived)
  {
    hide UniqueIds, CheckRunIndex;
    if CheckRunIndex(derived, stored) != [] {
      var f := CheckRunIndex(derived, stored)[0];
      CheckIsExact(derived, stored, f);
      DiscrepancyShows(table, derived, stored, f);
    } else {
      forall i | 0 <= i < |derived|
        ensures derived[i].runId in table && table[derived[i].runId] == derived[i]
      {
        NoDiscrepancy(table, derived, stored, i);
      }
      forall id | id in table ensures HasRow(derived, id) {
        var k :| 0 <= k < |stored| && stored[k].runId == id;
        CheckIsExact(derived, stored, NotInChain(id, stored[k].startSeq));
      }
    }
  }

  lemma NoDiscrepancy(table: Table, derived: seq<RunRecord>, stored: seq<RunRecord>, i: nat)
    requires UniqueIds(derived) && UniqueIds(stored) && Holds(table, stored)
    requires CheckRunIndex(derived, stored) == [] && i < |derived|
    ensures derived[i].runId in table && table[derived[i].runId] == derived[i]
  {
    var d := derived[i];
    hide UniqueIds, CheckRunIndex;
    CheckIsExact(derived, stored, Missing(d.runId, d.startSeq));
    var k :| 0 <= k < |stored| && stored[k].runId == d.runId;
    CheckIsExact(derived, stored, Differs(d.runId, stored[k], d));
  }

  lemma DiscrepancyShows(table: Table, derived: seq<RunRecord>, stored: seq<RunRecord>, f: Finding)
    requires Holds(table, stored) && IsDiscrepancy(derived, stored, f)
    ensures !Holds(table, derived)
  {
    match f
    case Missing(id, _) =>
      assert id !in table;
    case Differs(id, s, d) =>
      assert table[id] == s;
    case NotInChain(id, _) =>
      assert id in table;
  }
}
