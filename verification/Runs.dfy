/**
 Runs derived from the chain, and the event that closes a run (`audit/src/run.rs`).
 */
module Runs {
  import opened Wrappers
  import opened Json
  import opened Chain
  import opened RunMarkers
  import opened RunFold

  function DeriveRuns(events: seq<StoredEvent>): Derived { Derive(Marks(events)) }

  /** The loop of `derive_runs_from`, editing rows and counters in place. */
  method DeriveRunsFrom(events: seq<StoredEvent>) returns (rows: seq<RunRecord>, report: RebuildReport)
    ensures rows == DeriveRuns(events).rows && report == ReportOf(DeriveRuns(events))
  {
    hide ParseRunStart, GetStr, ParseStatus, OpenRow, RowFor, Closed, HasRow;
    rows := [];
    var starts, ends, abandoned, orphans := 0, 0, 0, 0;
    for n := 0 to |events|
      invariant Derived(rows, starts, ends, abandoned, orphans) == Derive(Marks(events)[..n])
    {
      var stored := events[n];
      ghost var ms := Marks(events);
      assert ms[..n + 1][..n] == ms[..n] && ms[..n + 1][n] == MarkOf(stored);
      var detail := stored.event.detail;
      if stored.event.action == ACTION_RUN_START {
        var payload := ParseRunStart(detail);
        if payload.None? {
          orphans := orphans + 1;
          continue;
        }
        starts := starts + 1;
        if HasRow(rows, payload.value.runId) {
          orphans := orphans + 1;
          continue;
        }
        rows := rows + [RowFor(payload.value, MarkOf(stored))];
      } else if stored.event.action == ACTION_RUN_END {
        var id := GetStr(detail, "run_id");
        if id.None? {
          orphans := orphans + 1;
          continue;
        }
        var word := GetStr(detail, "status");
        var status := if word.Some? then ParseStatus(word.value) else RunFailed;
        var slot := OpenRow(rows, id.value);
        if slot.Some? {
          rows := rows[slot.value := Closed(rows[slot.value], MarkOf(stored), status)];
          ends := ends + 1;
        } else {
          orphans := orphans + 1;
        }
      } else if stored.event.action == ACTION_RUN_ABANDONED {
        var id := GetStr(detail, "run_id");
        var slot := OpenRow(rows, if id.Some? then id.value else "");
        if slot.Some? {
          rows := rows[slot.value := rows[slot.value].(status := RunAbandoned)];
          abandoned := abandoned + 1;
        } else {
          orphans := orphans + 1;
        }
      }
    }
    assert Marks(events)[..|events|] == Marks(events);
    report := RebuildReport(|rows|, starts, ends, abandoned, orphans);
  }

  // ----- Where a run's record ends -------------------------------------------------------------------------

  datatype RunEndError = EndBeforeStart(end: int) | NoAbandonMarker | NotEnded(status: RunStatus)

  predicate LaterStart(e: StoredEvent, after: int) {
    e.id > after && e.event.action == ACTION_RUN_START
  }

  /** The smallest id after `after` of any `run.start` event, readable or not. */
  function NextStart(chain: seq<StoredEvent>, after: int): (r: Option<int>)
    ensures r.None? ==> forall i :: 0 <= i < |chain| ==> !LaterStart(chain[i], after)
    ensures r.Some? ==> exists i :: 0 <= i < |chain| && chain[i].id == r.value && LaterStart(chain[i], after)
    ensures r.Some? ==> forall i :: 0 <= i < |chain| && LaterStart(chain[i], after) ==> r.value <= chain[i].id
  {
    if chain == [] then None
    else
      var rest := NextStart(chain[..|chain| - 1], after);
      var e := chain[|chain| - 1];
      if LaterStart(e, after) && (rest.None? || e.id <= rest.value) then Some(e.id) else rest
  }

  predicate InWindow(e: StoredEvent, after: int, bound: Option<int>) {
    e.id > after && (bound.Some? ==> e.id < bound.value)
  }

  predicate MarksEnd(e: StoredEvent, record: RunRecord, bound: Option<int>) {
    InWindow(e, record.startSeq, bound) && NamesAbandoned(e, record.runId)
  }

  /** The position of the first marker for `record` in the window, from `i` on. */
  function FirstMarker(chain: seq<StoredEvent>, i: nat, record: RunRecord, bound: Option<int>): (r: Option<nat>)
    requires i <= |chain|
    decreases |chain| - i
    ensures r.None? ==> forall j :: i <= j < |chain| ==> !MarksEnd(chain[j], record, bound)
    ensures r.Some? ==> i <= r.value < |chain| && MarksEnd(chain[r.value], record, bound) &&
                        forall j :: i <= j < r.value ==> !MarksEnd(chain[j], record, bound)
  {
    if i == |chain| then None
    else if MarksEnd(chain[i], record, bound) then Some(i)
    else FirstMarker(chain, i + 1, record, bound)
  }

  function AbandonedEnd(chain: seq<StoredEvent>, record: RunRecord): Option<int> {
    match FirstMarker(chain, 0, record, NextStart(chain, record.startSeq))
    case Some(k) => Some(chain[k].id)
    case None => None
  }

  function RunEnd(record: RunRecord, chain: seq<StoredEvent>): Result<int, RunEndError> {
    if record.endSeq.Some? then
      if record.endSeq.value >= record.startSeq then Ok(record.endSeq.value)
      else Err(EndBeforeStart(record.endSeq.value))
    else if record.status == RunAbandoned then
      match AbandonedEnd(chain, record) { case Some(end) => Ok(end) case None => Err(NoAbandonMarker) }
    else Err(NotEnded(record.status))
  }

  /** Some marker names the run after its start and before any later `run.start`. */
  ghost predicate MarkedInTime(chain: seq<StoredEvent>, record: RunRecord) {
    exists i :: 0 <= i < |chain| && chain[i].id > record.startSeq && NamesAbandoned(chain[i], record.runId) &&
      forall j :: 0 <= j < |chain| && LaterStart(chain[j], record.startSeq) ==> chain[i].id < chain[j].id
  }

  lemma MarkedInTimeIsFound(chain: seq<StoredEvent>, record: RunRecord)
    ensures AbandonedEnd(chain, record).Some? <==> MarkedInTime(chain, record)
  {
    hide NamesAbandoned;
    var bound := NextStart(chain, record.startSeq);
    if bound.Some? {
      var k :| 0 <= k < |chain| && chain[k].id == bound.value && LaterStart(chain[k], record.startSeq);
    }
    if AbandonedEnd(chain, record).Some? {
      var i := FirstMarker(chain, 0, record, bound).value;
      forall j | 0 <= j < |chain| && LaterStart(chain[j], record.startSeq) ensures chain[i].id < chain[j].id {
      }
    }
  }

  /** The mark behind a derived record: its first readable start. */
  lemma RecordHasStart(chain: seq<StoredEvent>, record: RunRecord) returns (p: nat)
    requires record in DeriveRuns(chain).rows
    ensures RowMeans(Marks(chain), record, p)
    ensures p < |chain| && chain[p].id == record.startSeq && chain[p].event.action == ACTION_RUN_START
  {
    hide MarkerOf;
    DerivedRowsMean(Marks(chain));
    var i :| 0 <= i < |DeriveRuns(chain).rows| && DeriveRuns(chain).rows[i] == record;
    assert HasMeaning(Marks(chain), DeriveRuns(chain).rows[i]);
    p :| RowMeans(Marks(chain), record, p);
    MarkerActions(chain[p]);
  }

  predicate ClosingEvent(e: StoredEvent, record: RunRecord) {
    if record.endSeq.Some? then EndsRun(MarkOf(e), record.runId) else NamesAbandoned(e, record.runId)
  }

  /** `end` is the first event after the record's start that closes its run. */
  ghost predicate ClosesAt(chain: seq<StoredEvent>, record: RunRecord, end: int) {
    && (exists q :: 0 <= q < |chain| && chain[q].id == end && ClosingEvent(chain[q], record))
    && (forall q :: 0 <= q < |chain| && record.startSeq < chain[q].id && ClosingEvent(chain[q], record) ==>
          end <= chain[q].id)
  }

  lemma EndedClosesAt(chain: seq<StoredEvent>, record: RunRecord)
    requires InOrder(chain) && record in DeriveRuns(chain).rows && record.endSeq.Some?
    ensures record.startSeq < record.endSeq.value && ClosesAt(chain, record, record.endSeq.value)
  {
    hide MarkerOf;
    var p := RecordHasStart(chain, record);
    var q: nat :| ClosedBy(Marks(chain), record, p, q);
    assert chain[p].id < chain[q].id;
    assert chain[q].id == record.endSeq.value && ClosingEvent(chain[q], record);
    forall k | 0 <= k < |chain| && record.startSeq < chain[k].id && ClosingEvent(chain[k], record)
      ensures chain[q].id <= chain[k].id
    {
      assert EndsRun(Marks(chain)[k], record.runId);
    }
  }

  lemma AbandonedClosesAt(chain: seq<StoredEvent>, record: RunRecord)
    requires InOrder(chain) && record.endSeq.None? && AbandonedEnd(chain, record).Some?
    ensures record.startSeq < AbandonedEnd(chain, record).value
    ensures ClosesAt(chain, record, AbandonedEnd(chain, record).value)
  {
    hide NamesAbandoned, MarkerOf;
    var bound := NextStart(chain, record.startSeq);
    var q := FirstMarker(chain, 0, record, bound).value;
    assert ClosingEvent(chain[q], record);
    forall k | 0 <= k < |chain| && record.startSeq < chain[k].id && ClosingEvent(chain[k], record)
      ensures chain[q].id <= chain[k].id
    {
      assert k < q ==> !MarksEnd(chain[k], record, bound);
    }
  }

  /**
   For every derived record: the end is found exactly when the chain ended the run, or
   marked it abandoned in time; it lies after the start and is that run's first closing event.
   */
  lemma RunEndIsExact(chain: seq<StoredEvent>, record: RunRecord)
    requires InOrder(chain) && record in DeriveRuns(chain).rows
    ensures RunEnd(record, chain).Ok? <==>
      record.endSeq.Some? || (record.status == RunAbandoned && MarkedInTime(chain, record))
    ensures RunEnd(record, chain).Ok? ==>
      record.startSeq < RunEnd(record, chain).value && ClosesAt(chain, record, RunEnd(record, chain).value)
  {
    hide MarkerOf, NextStart, FirstMarker;
    MarkedInTimeIsFound(chain, record);
    if record.endSeq.Some? {
      EndedClosesAt(chain, record);
    } else if RunEnd(record, chain).Ok? {
      AbandonedClosesAt(chain, record);
    }
  }

  /** An abandoned interval stops before any later run starts. */
  lemma AbandonedStopsBeforeNextStart(chain: seq<StoredEvent>, a: RunRecord, b: RunRecord)
    requires a in DeriveRuns(chain).rows && b in DeriveRuns(chain).rows
    requires a.endSeq.None? && RunEnd(a, chain).Ok? && a.startSeq < b.startSeq
    ensures RunEnd(a, chain).value < b.startSeq
  {
    var p := RecordHasStart(chain, b);
    assert LaterStart(chain[p], a.startSeq);
  }

  lemma {:induction false} AbandonedIntervalsAreDisjoint(chain: seq<StoredEvent>, i: nat, j: nat)
    requires InOrder(chain) && i < j < |DeriveRuns(chain).rows|
    requires var rows := DeriveRuns(chain).rows;
      rows[i].endSeq.None? && rows[j].endSeq.None? && RunEnd(rows[i], chain).Ok? && RunEnd(rows[j], chain).Ok?
    ensures var rows := DeriveRuns(chain).rows;
      rows[i].startSeq < RunEnd(rows[i], chain).value < rows[j].startSeq < RunEnd(rows[j], chain).value
  {
    StartsAreIncreasing(Marks(chain));
    RunEndIsExact(chain, DeriveRuns(chain).rows[i]);
    RunEndIsExact(chain, DeriveRuns(chain).rows[j]);
    AbandonedStopsBeforeNextStart(chain, DeriveRuns(chain).rows[i], DeriveRuns(chain).rows[j]);
  }

  // ----- Appending never moves an end ----------------------------------------------------------------------

  /** Called abandoned by markers that do not name the run, with no later start to close the window. */
  ghost predicate EndMayMove(chain: seq<StoredEvent>, record: RunRecord) {
    record.endSeq.None? && record.status == RunAbandoned &&
    !NamedAfterStart(chain, record) && NextStart(chain, record.startSeq).None?
  }

  /** Appending events never moves the end of a record, unless it is of that one kind. */
  lemma RunEndIsStable(xs: seq<StoredEvent>, ys: seq<StoredEvent>, record: RunRecord)
    requires InOrder(xs + ys) && !EndMayMove(xs, record)
    ensures RunEnd(record, xs) == RunEnd(record, xs + ys)
  {
    if record.endSeq.None? && record.status == RunAbandoned {
      NextStartGrows(xs, ys, record.startSeq);
      MarkersKeep(xs, ys, record);
    }
  }

  /** A marker that names the run, just after the chain. */
  function NamingMarker(chain: seq<StoredEvent>, runId: string): StoredEvent {
    StoredEvent(
      if chain == [] then 1 else chain[|chain| - 1].id + 1,
      Event(0, "host", ACTION_RUN_ABANDONED, Object([Member("run_id", Str(runId))]), None), "", "")
  }

  /** The end of a record of that kind does move, though the record stays as it was. */
  lemma NamingMovesEnd(chain: seq<StoredEvent>, record: RunRecord)
    requires InOrder(chain) && record in DeriveRuns(chain).rows && EndMayMove(chain, record)
    ensures var longer := chain + [NamingMarker(chain, record.runId)];
      && InOrder(longer) && record in DeriveRuns(longer).rows
      && RunEnd(record, longer) != RunEnd(record, chain)
  {
    var y := NamingMarker(chain, record.runId);
    NamingIsNext(chain, record.runId);
    NamedMarker(y, record.runId);
    hide MarkerOf, NextStart, NamedAfterStart, NamesAbandoned, NamingMarker, DeriveRuns, RunEnd;
    var _ := RecordHasStart(chain, record);
    MarkedAgainStays(chain, record, y);
    EndAppears(chain, record, y);
  }

  lemma NamingIsNext(chain: seq<StoredEvent>, runId: string)
    requires InOrder(chain)
    ensures InOrder(chain + [NamingMarker(chain, runId)]) && NamesAbandoned(NamingMarker(chain, runId), runId)
    ensures forall i :: 0 <= i < |chain| ==> chain[i].id < NamingMarker(chain, runId).id
  {
  }

  lemma MarkedAgainStays(chain: seq<StoredEvent>, record: RunRecord, y: StoredEvent)
    requires record in DeriveRuns(chain).rows && record.endSeq.None? && record.status == RunAbandoned
    requires MarkerOf(y) == AbandonOf(record.runId)
    ensures record in DeriveRuns(chain + [y]).rows
  {
    hide MarkerOf;
    assert Marks(chain + [y])[..|chain|] == Marks(chain) && Marks(chain + [y])[|chain|] == MarkOf(y);
    RunIdsAreUnique(Marks(chain));
    MarkAgain(DeriveRuns(chain), MarkOf(y), record);
  }

  lemma EndAppears(chain: seq<StoredEvent>, record: RunRecord, y: StoredEvent)
    requires InOrder(chain + [y]) && EndMayMove(chain, record) && record.startSeq < y.id
    requires NamesAbandoned(y, record.runId) && y.event.action != ACTION_RUN_START
    ensures RunEnd(record, chain + [y]).Ok? && RunEnd(record, chain).Err?
  {
    hide NamesAbandoned;
    var longer := chain + [y];
    var bound := NextStart(longer, record.startSeq);
    assert !LaterStart(y, record.startSeq);
    assert NextStart(longer, record.startSeq).None? by {
      assert longer[..|longer| - 1] == chain;
    }
    assert MarksEnd(longer[|chain|], record, bound);
    MarkedInTimeIsFound(chain, record);
  }

  lemma MarkAgain(d: Derived, e: Mark, record: RunRecord)
    requires UniqueIds(d.rows) && record in d.rows && record.endSeq.None? && record.status == RunAbandoned
    requires e.marker == AbandonOf(record.runId)
    ensures Step(d, e).rows == d.rows
  {
    var i :| 0 <= i < |d.rows| && d.rows[i] == record;
    assert OpenRow(d.rows, record.runId) == Some(i);
  }

  /** The end of a derived record stays put under every append exactly when it is not of that kind. */
  lemma {:induction false} EndStaysExactly(chain: seq<StoredEvent>, record: RunRecord)
    requires InOrder(chain) && record in DeriveRuns(chain).rows
    ensures !EndMayMove(chain, record) <==>
      forall y :: InOrder(chain + [y]) && record in DeriveRuns(chain + [y]).rows ==>
        RunEnd(record, chain + [y]) == RunEnd(record, chain)
  {
    if EndMayMove(chain, record) {
      NamingMovesEnd(chain, record);
    } else {
      forall y | InOrder(chain + [y]) ensures RunEnd(record, chain + [y]) == RunEnd(record, chain) {
        RunEndIsStable(chain, [y], record);
      }
    }
  }

  /** Only a run whose id is the empty string can be of that kind. */
  lemma OnlyEmptyIdMoves(chain: seq<StoredEvent>, record: RunRecord)
    requires InOrder(chain) && record in DeriveRuns(chain).rows && EndMayMove(chain, record)
    ensures record.runId == ""
  {
    if record.runId != "" {
      AbandonedWasNamed(chain, record);
    }
  }

  ghost predicate NamedAfterStart(chain: seq<StoredEvent>, record: RunRecord) {
    exists q :: 0 <= q < |chain| && chain[q].id > record.startSeq && NamesAbandoned(chain[q], record.runId)
  }

  /** A derived record that says abandoned has an event that names its run. */
  lemma AbandonedWasNamed(chain: seq<StoredEvent>, record: RunRecord)
    requires InOrder(chain) && record in DeriveRuns(chain).rows && record.runId != ""
    requires record.endSeq.None? && record.status == RunAbandoned
    ensures NamedAfterStart(chain, record)
  {
    hide MarkerOf, NamesAbandoned;
    var p := RecordHasStart(chain, record);
    var q :| p < q < |Marks(chain)| && AbandonsRun(Marks(chain)[q], record.runId);
    MarkerActions(chain[q]);
    assert chain[p].id < chain[q].id && NamesAbandoned(chain[q], record.runId);
  }

  lemma NextStartGrows(xs: seq<StoredEvent>, ys: seq<StoredEvent>, after: int)
    requires InOrder(xs + ys)
    ensures NextStart(xs, after).Some? ==> NextStart(xs + ys, after) == NextStart(xs, after)
    ensures NextStart(xs, after).None? && NextStart(xs + ys, after).Some? ==>
      forall i :: 0 <= i < |xs| ==> xs[i].id < NextStart(xs + ys, after).value
  {
    var all := xs + ys;
    var a, b := NextStart(xs, after), NextStart(all, after);
    if a.Some? {
      var i :| 0 <= i < |xs| && xs[i].id == a.value && LaterStart(xs[i], after);
      assert LaterStart(all[i], after);
    }
    if b.Some? {
      var j :| 0 <= j < |all| && all[j].id == b.value && LaterStart(all[j], after);
      if j < |xs| {
        assert LaterStart(xs[j], after);
      } else {
        forall i | 0 <= i < |xs| ensures xs[i].id < b.value {
          assert all[i].id < all[j].id;
        }
      }
    }
  }

  /** The window is the same for the old rows, and empty after them once it is closed. */
  lemma SameWindow(xs: seq<StoredEvent>, ys: seq<StoredEvent>, after: int, a: Option<int>, b: Option<int>, i: nat)
    requires InOrder(xs + ys) && a == NextStart(xs, after) && i < |xs + ys|
    requires if a.Some? then b == a else b.Some? ==> forall k :: 0 <= k < |xs| ==> xs[k].id < b.value
    ensures i < |xs| ==> InWindow(xs[i], after, a) == InWindow((xs + ys)[i], after, b)
    ensures i >= |xs| && a.Some? ==> !InWindow((xs + ys)[i], after, b)
  {
    if a.Some? && i >= |xs| {
      var k :| 0 <= k < |xs| && xs[k].id == a.value && LaterStart(xs[k], after);
      assert (xs + ys)[k].id < (xs + ys)[i].id;
    }
  }

  lemma MarkersKeep(xs: seq<StoredEvent>, ys: seq<StoredEvent>, record: RunRecord)
    requires InOrder(xs + ys) && (NamedAfterStart(xs, record) || NextStart(xs, record.startSeq).Some?)
    requires var a, b := NextStart(xs, record.startSeq), NextStart(xs + ys, record.startSeq);
      if a.Some? then b == a else b.Some? ==> forall i :: 0 <= i < |xs| ==> xs[i].id < b.value
    ensures AbandonedEnd(xs, record) == AbandonedEnd(xs + ys, record)
  {
    hide FirstMarker, InOrder, NamesAbandoned;
    var all := xs + ys;
    var a, b := NextStart(xs, record.startSeq), NextStart(all, record.startSeq);
    hide NextStart;
    forall i | 0 <= i < |all|
      ensures i < |xs| ==> MarksEnd(all[i], record, b) == MarksEnd(xs[i], record, a)
      ensures i >= |xs| && a.Some? ==> !MarksEnd(all[i], record, b)
    {
      SameWindow(xs, ys, record.startSeq, a, b, i);
    }
    if a.None? {
      var q :| 0 <= q < |xs| && xs[q].id > record.startSeq && NamesAbandoned(xs[q], record.runId);
      assert MarksEnd(xs[q], record, a);
    }
    SameFirst(xs, ys, record, a, b);
  }

  lemma SameFirst(xs: seq<StoredEvent>, ys: seq<StoredEvent>, record: RunRecord, a: Option<int>, b: Option<int>)
    requires forall i :: 0 <= i < |xs| ==> MarksEnd((xs + ys)[i], record, b) == MarksEnd(xs[i], record, a)
    requires a.Some? ==> forall i :: |xs| <= i < |xs + ys| ==> !MarksEnd((xs + ys)[i], record, b)
    requires a.None? ==> exists q :: 0 <= q < |xs| && MarksEnd(xs[q], record, a)
    ensures FirstMarker(xs, 0, record, a) == FirstMarker(xs + ys, 0, record, b)
  {
    hide MarksEnd, FirstMarker;
    var all := xs + ys;
    var m, n := FirstMarker(xs, 0, record, a), FirstMarker(all, 0, record, b);
    if m.Some? {
      assert MarksEnd(all[m.value], record, b);
    }
  }

  lemma NamedMarker(e: StoredEvent, id: string)
    requires NamesAbandoned(e, id)
    ensures MarkerOf(e) == AbandonOf(id) && e.event.action != ACTION_RUN_START
  {
    assert |ACTION_RUN_ABANDONED| != |ACTION_RUN_START| && |ACTION_RUN_ABANDONED| != |ACTION_RUN_END|;
  }

  // ----- The one kind of record whose end can move ----------------------------------------------------------

  /** It exists: a start with an empty id, then a marker that names no run. */
  lemma EmptyRunIdMayMove(start: StoredEvent, unnamed: StoredEvent, p: RunStartPayload)
    requires p.runId == "" && MarkerOf(start) == StartOf(p) && start.id < unnamed.id
    requires unnamed.event.action == ACTION_RUN_ABANDONED && unnamed.event.detail == Null
    ensures var r := RowFor(p, MarkOf(start)).(status := RunAbandoned);
      r in DeriveRuns([start, unnamed]).rows && EndMayMove([start, unnamed], r)
  {
    UnnamedMarker(unnamed);
    hide MarkerOf, NamesAbandoned;
    var two := [start, unnamed];
    var r := RowFor(p, MarkOf(start)).(status := RunAbandoned);
    var ms := Marks(two);
    assert ms[..1] == [ms[0]] && [ms[0]][..0] == [];
    assert Derive([ms[0]]).rows == [RowFor(p, ms[0])];
    assert DeriveRuns(two).rows[0] == r;
    assert NextStart(two, start.id).None?;
  }

  lemma UnnamedMarker(e: StoredEvent)
    requires e.event.action == ACTION_RUN_ABANDONED && e.event.detail == Null
    ensures MarkerOf(e) == AbandonOf("") && !NamesAbandoned(e, "") && e.event.action != ACTION_RUN_START
  {
    assert |ACTION_RUN_ABANDONED| != |ACTION_RUN_START| && |ACTION_RUN_ABANDONED| != |ACTION_RUN_END|;
  }
}
