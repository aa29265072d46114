/**
 The derivation of runs (`derive_runs_from` in `audit/src/run.rs`) as a fold over marks,
 what it keeps, and what each row means without any fold.
 */
module RunFold {
  import opened Wrappers
  import opened RunMarkers

  // ----- The derivation --------------------------------------------------------------------------

  /** The rows so far and the counters of `RebuildReport` (its `runs` is the number of rows). */
  datatype Derived = Derived(
    rows: seq<RunRecord>, starts: nat, ends: nat, abandoned: nat, orphans: nat)

  function RowFor(p: RunStartPayload, e: Mark): RunRecord {
    RunRecord(p.runId, p.sessionId, p.parentRunId, p.resumedFromSnapshot, p.fingerprint,
              p.fingerprintSchema, e.timestampMs, None, e.id, None, RunOpen)
  }

  function Closed(row: RunRecord, e: Mark, status: RunStatus): RunRecord {
    row.(endSeq := Some(e.id), endedAtMs := Some(e.timestampMs), status := status)
  }

  predicate HasRow(rows: seq<RunRecord>, runId: string) {
    exists i :: 0 <= i < |rows| && rows[i].runId == runId
  }

  /** `find(|r| r.run_id == run_id && r.end_seq.is_none())`. */
  function OpenRow(rows: seq<RunRecord>, runId: string): (r: Option<nat>)
    ensures r.Some? ==> r.value < |rows| && rows[r.value].runId == runId && rows[r.value].endSeq.None?
    ensures r.None? ==> forall i :: 0 <= i < |rows| && rows[i].runId == runId ==> rows[i].endSeq.Some?
  {
    if rows == [] then None
    else if rows[0].runId == runId && rows[0].endSeq.None? then Some(0)
    else match OpenRow(rows[1..], runId)
      case Some(i) => Some(i + 1)
      case None => None
  }

  function Step(d: Derived, e: Mark): Derived {
    match e.marker
    case StartOf(p) =>
      if HasRow(d.rows, p.runId) then d.(starts := d.starts + 1, orphans := d.orphans + 1)
      else d.(starts := d.starts + 1, rows := d.rows + [RowFor(p, e)])
    case EndOf(id, status) =>
      (match OpenRow(d.rows, id)
       case Some(i) => d.(rows := d.rows[i := Closed(d.rows[i], e, status)], ends := d.ends + 1)
       case None => d.(orphans := d.orphans + 1))
    case AbandonOf(id) =>
      (match OpenRow(d.rows, id)
       case Some(i) =>
         d.(rows := d.rows[i := d.rows[i].(status := RunAbandoned)], abandoned := d.abandoned + 1)
       case None => d.(orphans := d.orphans + 1))
    case Unreadable => d.(orphans := d.orphans + 1)
    case NoMarker => d
  }

  function Derive(marks: seq<Mark>): Derived {
    if marks == [] then Derived([], 0, 0, 0, 0)
    else Step(Derive(marks[..|marks| - 1]), marks[|marks| - 1])
  }

  datatype RebuildReport = RebuildReport(
    runs: nat, starts: nat, ends: nat, abandoned: nat, orphans: nat)

  function ReportOf(d: Derived): RebuildReport {
    RebuildReport(|d.rows|, d.starts, d.ends, d.abandoned, d.orphans)
  }

  // ----- What the derivation keeps ------------------------------------------------------------------

  predicate UniqueIds(rows: seq<RunRecord>) {
    forall i, j :: 0 <= i < j < |rows| ==> rows[i].runId != rows[j].runId
  }

  predicate Ordered(marks: seq<Mark>) {
    forall i, j :: 0 <= i < j < |marks| ==> marks[i].id < marks[j].id
  }

  predicate StartsIncrease(rows: seq<RunRecord>) {
    forall i, j :: 0 <= i < j < |rows| ==> rows[i].startSeq < rows[j].startSeq
  }

  lemma {:induction false} RunIdsAreUnique(marks: seq<Mark>)
    ensures UniqueIds(Derive(marks).rows)
  {
    if marks != [] {
      RunIdsAreUnique(marks[..|marks| - 1]);
    }
  }

  predicate StartsBelow(rows: seq<RunRecord>, bound: int) {
    forall i :: 0 <= i < |rows| ==> rows[i].startSeq < bound
  }

  lemma StartsStep(d: Derived, e: Mark)
    requires StartsIncrease(d.rows) && StartsBelow(d.rows, e.id)
    ensures StartsIncrease(Step(d, e).rows) && StartsBelow(Step(d, e).rows, e.id + 1)
  {
  }

  lemma {:induction false} StartsAreIncreasing(marks: seq<Mark>)
    requires Ordered(marks)
    ensures StartsIncrease(Derive(marks).rows)
    ensures marks != [] ==> StartsBelow(Derive(marks).rows, marks[|marks| - 1].id + 1)
  {
    if marks != [] {
      var n := |marks| - 1;
      StartsAreIncreasing(marks[..n]);
      if n > 0 {
        assert marks[n - 1].id < marks[n].id;
      }
      StartsStep(Derive(marks[..n]), marks[n]);
    }
  }

  function MarkersSeen(marks: seq<Mark>): nat {
    if marks == [] then 0
    else MarkersSeen(marks[..|marks| - 1]) + if marks[|marks| - 1].marker.NoMarker? then 0 else 1
  }

  /** Every marker is accounted for once: it made a row, ended one, abandoned one, or is an orphan. */
  lemma {:induction false} MarkersAreConserved(marks: seq<Mark>)
    ensures var d := Derive(marks);
      MarkersSeen(marks) == |d.rows| + d.ends + d.abandoned + d.orphans && |d.rows| <= d.starts
  {
    if marks != [] {
      MarkersAreConserved(marks[..|marks| - 1]);
    }
  }

  /** The columns a `run.start` sets. */
  predicate SameStart(r: RunRecord, q: RunRecord) {
    r.(endedAtMs := None, endSeq := None, status := RunOpen) ==
    q.(endedAtMs := None, endSeq := None, status := RunOpen)
  }

  /** Later marks leave rows in place, with their start; an ended row never changes again. */
  predicate Continues(before: seq<RunRecord>, after: seq<RunRecord>) {
    |before| <= |after| &&
    forall i :: 0 <= i < |before| ==>
      SameStart(before[i], after[i]) && (before[i].endSeq.Some? ==> after[i] == before[i])
  }

  lemma StepContinues(d: Derived, e: Mark)
    ensures Continues(d.rows, Step(d, e).rows)
  {
  }

  lemma ContinuesTransitive(a: seq<RunRecord>, b: seq<RunRecord>, c: seq<RunRecord>)
    requires Continues(a, b) && Continues(b, c)
    ensures Continues(a, c)
  {
    forall i | 0 <= i < |a| ensures SameStart(a[i], c[i]) && (a[i].endSeq.Some? ==> c[i] == a[i]) {
      assert SameStart(a[i], b[i]) && SameStart(b[i], c[i]);
    }
  }

  lemma {:induction false} DeriveIsMonotone(xs: seq<Mark>, ys: seq<Mark>)
    ensures Continues(Derive(xs).rows, Derive(xs + ys).rows)
  {
    if ys == [] {
      assert xs + ys == xs;
    } else {
      var n := |ys| - 1;
      DeriveIsMonotone(xs, ys[..n]);
      assert (xs + ys)[..|xs + ys| - 1] == xs + ys[..n];
      StepContinues(Derive(xs + ys[..n]), ys[n]);
      ContinuesTransitive(Derive(xs).rows, Derive(xs + ys[..n]).rows, Derive(xs + ys).rows);
    }
  }

  // ----- What a derived row means -----------------------------------------------------------------------

  predicate StartsRun(e: Mark, id: string) {
    e.marker.StartOf? && e.marker.payload.runId == id
  }

  predicate EndsRun(e: Mark, id: string) { e.marker.EndOf? && e.marker.runId == id }

  predicate AbandonsRun(e: Mark, id: string) { e.marker == AbandonOf(id) }

  predicate FirstStart(marks: seq<Mark>, p: nat, id: string) {
    p < |marks| && StartsRun(marks[p], id) && forall j :: 0 <= j < p ==> !StartsRun(marks[j], id)
  }

  predicate FirstEnd(marks: seq<Mark>, p: nat, q: nat, id: string) {
    p < q < |marks| && EndsRun(marks[q], id) && forall j :: p < j < q ==> !EndsRun(marks[j], id)
  }

  /** The run that starts at `p`, closed by its first end after that, at `q`. */
  ghost predicate ClosedBy(marks: seq<Mark>, row: RunRecord, p: nat, q: nat) {
    && p < |marks| && marks[p].marker.StartOf?
    && FirstEnd(marks, p, q, row.runId)
    && row == Closed(RowFor(marks[p].marker.payload, marks[p]), marks[q], marks[q].marker.status)
  }

  /**
   Without any fold: a row is its id's first readable start at `p`, closed by the first end
   after it, else abandoned if some marker after it says so, else open.
   */
  ghost predicate RowMeans(marks: seq<Mark>, row: RunRecord, p: nat) {
    && FirstStart(marks, p, row.runId)
    && SameStart(row, RowFor(marks[p].marker.payload, marks[p]))
    && (row.endSeq.Some? ==> exists q: nat :: ClosedBy(marks, row, p, q))
    && (row.endSeq.None? ==>
          && row.endedAtMs.None?
          && (forall q :: p < q < |marks| ==> !EndsRun(marks[q], row.runId))
          && row.status == if exists q :: p < q < |marks| && AbandonsRun(marks[q], row.runId)
                           then RunAbandoned else RunOpen)
  }

  ghost predicate HasMeaning(marks: seq<Mark>, row: RunRecord) { exists p: nat :: RowMeans(marks, row, p) }

  ghost predicate RowsMean(marks: seq<Mark>, rows: seq<RunRecord>) {
    && (forall i :: 0 <= i < |rows| ==> HasMeaning(marks, rows[i]))
    && (forall p :: 0 <= p < |marks| && marks[p].marker.StartOf? ==>
          HasRow(rows, marks[p].marker.payload.runId))
  }

  /** An event that says nothing about an open row's run leaves its meaning; so does anything once it ended. */
  lemma MeaningSurvives(marks: seq<Mark>, e: Mark, row: RunRecord, p: nat)
    requires RowMeans(marks, row, p)
    requires row.endSeq.Some? || (!EndsRun(e, row.runId) && !AbandonsRun(e, row.runId))
    ensures RowMeans(marks + [e], row, p)
  {
    var all := marks + [e];
    assert FirstStart(all, p, row.runId);
    if row.endSeq.Some? {
      var q: nat :| ClosedBy(marks, row, p, q);
      assert ClosedBy(all, row, p, q);
    } else if q :| p < q < |marks| && AbandonsRun(marks[q], row.runId) {
      assert AbandonsRun(all[q], row.runId);
    }
  }

  lemma MeaningOfEnd(marks: seq<Mark>, e: Mark, row: RunRecord, p: nat)
    requires RowMeans(marks, row, p) && row.endSeq.None? && EndsRun(e, row.runId)
    ensures RowMeans(marks + [e], Closed(row, e, e.marker.status), p)
  {
    var all := marks + [e];
    assert FirstStart(all, p, row.runId);
    assert ClosedBy(all, Closed(row, e, e.marker.status), p, |marks|);
  }

  lemma MeaningOfAbandon(marks: seq<Mark>, e: Mark, row: RunRecord, p: nat)
    requires RowMeans(marks, row, p) && row.endSeq.None? && AbandonsRun(e, row.runId)
    ensures RowMeans(marks + [e], row.(status := RunAbandoned), p)
  {
    var all := marks + [e];
    assert FirstStart(all, p, row.runId);
    assert AbandonsRun(all[|marks|], row.runId);
  }

  lemma MeaningOfStart(marks: seq<Mark>, e: Mark)
    requires e.marker.StartOf?
    requires forall j :: 0 <= j < |marks| ==> !StartsRun(marks[j], e.marker.payload.runId)
    ensures RowMeans(marks + [e], RowFor(e.marker.payload, e), |marks|)
  {
    assert FirstStart(marks + [e], |marks|, e.marker.payload.runId);
  }

  lemma {:induction false} DerivedRowsMean(marks: seq<Mark>)
    ensures RowsMean(marks, Derive(marks).rows)
  {
    if marks != [] {
      var n := |marks| - 1;
      assert marks == marks[..n] + [marks[n]];
      DerivedRowsMean(marks[..n]);
      RunIdsAreUnique(marks[..n]);
      RowsMeanStep(marks[..n], marks[n], Derive(marks[..n]));
    }
  }

  lemma RowsMeanStep(xs: seq<Mark>, e: Mark, d: Derived)
    requires RowsMean(xs, d.rows) && UniqueIds(d.rows)
    ensures RowsMean(xs + [e], Step(d, e).rows)
  {
    var all, after := xs + [e], Step(d, e).rows;
    forall i | 0 <= i < |after| ensures HasMeaning(all, after[i]) {
      if i == |d.rows| {
        NewRowMeans(xs, e, d);
      } else {
        assert HasMeaning(xs, d.rows[i]);
        var p: nat :| RowMeans(xs, d.rows[i], p);
        RowStepMeans(xs, e, d, i, p);
      }
    }
    forall p | 0 <= p < |all| && all[p].marker.StartOf?
      ensures HasRow(after, all[p].marker.payload.runId)
    {
      StartedHasRow(xs, e, d, p);
    }
  }

  lemma NewRowMeans(xs: seq<Mark>, e: Mark, d: Derived)
    requires RowsMean(xs, d.rows) && |Step(d, e).rows| > |d.rows|
    ensures RowMeans(xs + [e], Step(d, e).rows[|d.rows|], |xs|)
  {
    forall j | 0 <= j < |xs| ensures !StartsRun(xs[j], e.marker.payload.runId) {
    }
    MeaningOfStart(xs, e);
  }

  lemma StartedHasRow(xs: seq<Mark>, e: Mark, d: Derived, p: nat)
    requires RowsMean(xs, d.rows) && p < |xs + [e]| && (xs + [e])[p].marker.StartOf?
    ensures HasRow(Step(d, e).rows, (xs + [e])[p].marker.payload.runId)
  {
    hide HasMeaning;
    StepContinues(d, e);
    if p < |xs| {
      assert HasRow(d.rows, xs[p].marker.payload.runId);
      RowsStay(d.rows, Step(d, e).rows, xs[p].marker.payload.runId);
    } else {
      StartMakesRow(d, e);
    }
  }

  lemma RowsStay(before: seq<RunRecord>, after: seq<RunRecord>, id: string)
    requires Continues(before, after) && HasRow(before, id)
    ensures HasRow(after, id)
  {
    var k :| 0 <= k < |before| && before[k].runId == id;
    assert SameStart(before[k], after[k]);
  }

  lemma StartMakesRow(d: Derived, e: Mark)
    requires e.marker.StartOf?
    ensures HasRow(Step(d, e).rows, e.marker.payload.runId)
  {
    if !HasRow(d.rows, e.marker.payload.runId) {
      assert Step(d, e).rows[|d.rows|].runId == e.marker.payload.runId;
    }
  }

  lemma RowStepMeans(xs: seq<Mark>, e: Mark, d: Derived, i: nat, p: nat)
    requires i < |d.rows| && UniqueIds(d.rows) && RowMeans(xs, d.rows[i], p)
    ensures RowMeans(xs + [e], Step(d, e).rows[i], p)
  {
    var row := d.rows[i];
    if row.endSeq.None? && EndsRun(e, row.runId) {
      MeaningOfEnd(xs, e, row, p);
    } else if row.endSeq.None? && AbandonsRun(e, row.runId) {
      MeaningOfAbandon(xs, e, row, p);
    } else {
      MeaningSurvives(xs, e, row, p);
    }
  }

  /** The columns a row has from the start it was made by, one by one. */
  predicate HasColumns(row: RunRecord, p: RunStartPayload, e: Mark) {
    && row.runId == p.runId && row.sessionId == p.sessionId && row.parentRunId == p.parentRunId
    && row.resumedFromSnapshot == p.resumedFromSnapshot && row.fingerprint == p.fingerprint
    && row.fingerprintSchema == p.fingerprintSchema && row.startedAtMs == e.timestampMs && row.startSeq == e.id
  }

  /** And from the end that closed it. */
  predicate HasEnd(row: RunRecord, e: Mark) {
    && e.marker.EndOf? && e.marker.runId == row.runId
    && row.endSeq == Some(e.id) && row.endedAtMs == Some(e.timestampMs) && row.status == e.marker.status
  }

  /** Each column of a derived row is the one its own start, or its first end, wrote. */
  lemma {:induction false} ColumnsAreRead(marks: seq<Mark>, i: nat)
    requires i < |Derive(marks).rows|
    ensures var row := Derive(marks).rows[i];
      exists p: nat ::
        && FirstStart(marks, p, row.runId) && HasColumns(row, marks[p].marker.payload, marks[p])
        && (row.endSeq.Some? ==> exists q: nat :: FirstEnd(marks, p, q, row.runId) && HasEnd(row, marks[q]))
  {
    var row := Derive(marks).rows[i];
    DerivedRowsMean(marks);
    assert HasMeaning(marks, row);
    var p: nat :| RowMeans(marks, row, p);
    if row.endSeq.Some? {
      var q: nat :| ClosedBy(marks, row, p, q);
      assert FirstEnd(marks, p, q, row.runId) && HasEnd(row, marks[q]);
    }
    assert FirstStart(marks, p, row.runId) && HasColumns(row, marks[p].marker.payload, marks[p]);
  }

  /** The meaning leaves no freedom: one row per id that ever started. */
  lemma MeaningDeterminesRow(marks: seq<Mark>, r: RunRecord, q: RunRecord, p: nat, p': nat)
    requires RowMeans(marks, r, p) && RowMeans(marks, q, p') && r.runId == q.runId
    ensures r == q
  {
    assert p == p';
    if r.endSeq.Some? {
      var i: nat :| ClosedBy(marks, r, p, i);
      assert EndsRun(marks[i], q.runId);
    }
    if q.endSeq.Some? {
      var j: nat :| ClosedBy(marks, q, p, j);
      assert EndsRun(marks[j], r.runId);
    }
  }
}
