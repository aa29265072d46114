/**
 How a host records its runs in the store (`begin_run`, `finish_run`, `abandon_stale_runs`
 in `host-core/src/state.rs`): append first, then write the index, best effort.
 */
module Host {
  import opened Wrappers
  import opened Json
  import Text
  import opened Chain
  import opened Ledger
  import opened RunMarkers
  import opened RunFold
  import opened Runs
  import opened RunIndex
  import opened Database

  /** Chain and index, as `RunIndex` sees them. */
  function BookOf(store: AuditStore): Book
    reads store
  {
    Book(Marks(store.chain), store.runs)
  }

  predicate InSync(store: AuditStore)
    reads store
  {
    CountsFromOne(store.chain) && Agrees(BookOf(store))
  }

  /** The step happened, whatever chain and index were like before. */
  predicate Becomes(before: Book, op: Op, after: Book) { Possible(before, op) && after == Do(before, op) }

  lemma AppendedMark(chain: seq<StoredEvent>, row: StoredEvent)
    requires CountsFromOne(chain) && row.id == |chain| + 1
    ensures Marks(chain + [row]) == Marks(chain) + [MarkOf(row)]
    ensures CountsFromOne(chain + [row]) && Ordered(Marks(chain) + [MarkOf(row)])
  {
  }

  function HostRunEvent(stamp: int, action: string, detail: Json, agentId: string): Event {
    Event(stamp, "host", action, detail, Some(agentId))
  }

  /** Append `run.start` and index it; a failed append gives no run, a failed index write is let pass. */
  method BeginRun(
      store: AuditStore, payload: RunStartPayload, stamp: int, agentId: string, answers: Attempts, indexed: bool)
    returns (runId: Option<string>)
    requires CountsFromOne(store.chain)
    modifies store
    ensures CountsFromOne(store.chain)
    ensures runId.None? ==> BookOf(store) == old(BookOf(store))
    ensures runId.Some? ==>
      var mark := Mark(|old(store.chain)| + 1, stamp, StartOf(payload));
      runId.value == payload.runId &&
      Becomes(old(BookOf(store)), if indexed then Begin(mark) else Note(mark), BookOf(store))
    ensures runId.Some? && old(InSync(store)) ==>
      (InSync(store) <==> indexed != old(Started(BookOf(store).log, payload.runId)))
  {
    hide Agrees, Started, RunStartDetail, ParseRunStart, Ordered, Ledger.Append;
    ghost var before := BookOf(store);
    ghost var chain := store.chain;
    var event := HostRunEvent(stamp, ACTION_RUN_START, RunStartDetail(payload), agentId);
    AppendAnswers(store.codec, chain, event, answers);
    var stored := store.Append(event, answers);
    if stored.Err? {
      return None;
    }
    ghost var mark := MarkOf(stored.value);
    RunStartRoundTrip(payload);
    assert mark == Mark(|chain| + 1, stamp, StartOf(payload));
    AppendedMark(chain, stored.value);
    if indexed {
      store.IndexRunStart(RunRecord(
        payload.runId, payload.sessionId, payload.parentRunId, payload.resumedFromSnapshot,
        payload.fingerprint, payload.fingerprintSchema, stored.value.event.timestampMs, None,
        stored.value.id, None, RunOpen));
      assert BookOf(store) == Do(before, Begin(mark));
    } else {
      assert BookOf(store) == Do(before, Note(mark));
    }
    if Agrees(before) {
      StepKeepsAgreement(before, if indexed then Begin(mark) else Note(mark));
    }
    return Some(payload.runId);
  }

  /** Append `run.end` and close the index row. */
  method FinishRun(
      store: AuditStore, runId: string, status: RunStatus, reason: string,
      stamp: int, agentId: string, answers: Attempts, indexed: bool) returns (recorded: bool)
    requires CountsFromOne(store.chain)
    modifies store
    ensures CountsFromOne(store.chain)
    ensures !recorded ==> BookOf(store) == old(BookOf(store))
    ensures recorded ==>
      var mark := Mark(|old(store.chain)| + 1, stamp, EndOf(runId, status));
      Becomes(old(BookOf(store)), if indexed then Finish(mark) else Note(mark), BookOf(store))
    ensures recorded && old(InSync(store)) ==>
      (InSync(store) <==>
        if indexed then !old(Ended(BookOf(store).log, runId))
        else !old(Started(BookOf(store).log, runId)) || old(Ended(BookOf(store).log, runId)))
  {
    hide Agrees, Started, Ended, RunEndDetail, Ordered, Ledger.Append;
    ghost var before := BookOf(store);
    ghost var chain := store.chain;
    var event := HostRunEvent(stamp, ACTION_RUN_END, RunEndDetail(runId, status, reason), agentId);
    AppendAnswers(store.codec, chain, event, answers);
    var stored := store.Append(event, answers);
    if stored.Err? {
      return false;
    }
    ghost var mark := MarkOf(stored.value);
    RunEndRoundTrip(stored.value, runId, status, reason);
    AppendedMark(chain, stored.value);
    if indexed {
      var _ := store.IndexRunEnd(runId, stored.value.id, stored.value.event.timestampMs, status);
      assert BookOf(store) == Do(before, Finish(mark));
    } else {
      assert BookOf(store) == Do(before, Note(mark));
    }
    if Agrees(before) {
      StepKeepsAgreement(before, if indexed then Finish(mark) else Note(mark));
    }
    return true;
  }

  // ----- Abandoning what a previous process left open ----------------------------------------------------

  /** Started before this process, and neither ended nor abandoned yet. */
  predicate IsStale(row: RunRecord, startupSeq: int) {
    row.endSeq.None? && row.status == RunOpen && row.startSeq <= startupSeq
  }

  /** Stale is what the log says started by then, and neither ended nor abandoned since. */
  lemma StaleIsSaidByTheLog(log: seq<Mark>, i: nat, startupSeq: int)
    requires i < |DerivedRows(log)|
    ensures var row := DerivedRows(log)[i];
      IsStale(row, startupSeq) <==>
        && !Ended(log, row.runId) && !Abandoned(log, row.runId)
        && exists p: nat :: FirstStart(log, p, row.runId) && log[p].id <= startupSeq
  {
    hide Ended, Abandoned, Started;
    var row := DerivedRows(log)[i];
    RowsSayWhatTheLogSays(log, row.runId);
    ColumnsAreRead(log, i);
    var p: nat :| FirstStart(log, p, row.runId) && HasColumns(row, log[p].marker.payload, log[p]);
    forall q: nat | FirstStart(log, q, row.runId) ensures q == p {
    }
  }

  /** The rows with the named runs marked abandoned. */
  function MarkedAbandoned(rows: seq<RunRecord>, ids: seq<string>): (marked: seq<RunRecord>)
    ensures |marked| == |rows|
    ensures forall i :: 0 <= i < |rows| ==> marked[i] == AbandonedIf(rows[i], ids)
  {
    seq(|rows|, i requires 0 <= i < |rows| => AbandonedIf(rows[i], ids))
  }

  function AbandonedIf(row: RunRecord, ids: seq<string>): RunRecord {
    if row.runId in ids then row.(status := RunAbandoned) else row
  }

  function AbandonDetail(id: string, now: int): Json {
    Object([Member("run_id", Str(id)), Member("detected_at_ms", Number(Text.IntText(now)))])
  }

  /** One abandon marker marks that row and no other. */
  lemma AbandonStep(d: Derived, rows: seq<RunRecord>, done: seq<string>, i: nat, e: Mark)
    requires UniqueIds(rows) && i < |rows| && rows[i].endSeq.None? && rows[i].runId !in done
    requires d.rows == MarkedAbandoned(rows, done) && e.marker == AbandonOf(rows[i].runId)
    ensures Step(d, e).rows == MarkedAbandoned(rows, done + [rows[i].runId])
  {
    var id := rows[i].runId;
    assert d.rows[i].runId == id && d.rows[i].endSeq.None?;
    var slot := OpenRow(d.rows, id);
    assert slot.Some? && d.rows[slot.value].runId == rows[slot.value].runId == id;
    assert slot.value == i;
  }

  /** The last event before this process, its clock, its name, and what the database answers. */
  datatype AbandonIo = AbandonIo(startupSeq: int, clock: nat -> int, agentId: string, answers: nat -> Attempts)

  function AbandonEvent(id: string, now: int, agentId: string): Event {
    HostRunEvent(now, ACTION_RUN_ABANDONED, AbandonDetail(id, now), agentId)
  }

  lemma AbandonReads(e: StoredEvent, id: string, now: int, agentId: string)
    requires e.event == AbandonEvent(id, now, agentId)
    ensures MarkOf(e).marker == AbandonOf(id)
  {
  }

  /** The `k`-th append of the call did not go through, on the chain as it stood then. */
  ghost predicate AbandonFailed(c: Codec, chain: seq<StoredEvent>, k: nat, id: string, io: AbandonIo) {
    exists n: nat :: n <= |chain| &&
      Ledger.Append(c, chain[..n], AbandonEvent(id, io.clock(k), io.agentId), io.answers(k)).Err?
  }

  /** Every abandoned run is a stale one among the first `k`. */
  predicate OnlyStale(rows: seq<RunRecord>, k: nat, abandoned: seq<string>, startupSeq: int)
    requires k <= |rows|
  {
    forall id :: id in abandoned ==> exists i :: 0 <= i < k && rows[i].runId == id && IsStale(rows[i], startupSeq)
  }

  /** Every stale run among the first `k` was abandoned, or its append failed. */
  ghost predicate AllStale(
      c: Codec, chain: seq<StoredEvent>, rows: seq<RunRecord>, k: nat, abandoned: seq<string>, io: AbandonIo)
    requires k <= |rows|
  {
    forall i :: 0 <= i < k && IsStale(rows[i], io.startupSeq) ==>
      rows[i].runId in abandoned || AbandonFailed(c, chain, i, rows[i].runId, io)
  }

  /** What the loop has done with the first `k` rows. */
  ghost predicate AbandonedSoFar(
      c: Codec, chain: seq<StoredEvent>, rows: seq<RunRecord>, k: nat, abandoned: seq<string>, io: AbandonIo)
    requires k <= |rows|
  {
    && CountsFromOne(chain) && Derive(Marks(chain)).rows == MarkedAbandoned(rows, abandoned)
    && OnlyStale(rows, k, abandoned, io.startupSeq) && AllStale(c, chain, rows, k, abandoned, io)
  }

  /**
   For each stale run one `host.run.abandoned`, then a rebuild if there was any. The chain
   then derives every run as before except the abandoned ones; a stale run is left over only
   if its append failed. Whatever the index was like, the rebuild puts it right.
   */
  method AbandonStaleRuns(
      store: AuditStore, io: AbandonIo, commit: Option<DbError>) returns (abandoned: seq<string>)
    requires CountsFromOne(store.chain)
    modifies store
    ensures old(store.chain) <= store.chain
    ensures var rows := DeriveRuns(old(store.chain)).rows;
      AbandonedSoFar(store.codec, store.chain, rows, |rows|, abandoned, io)
    ensures commit.None? && abandoned != [] ==> InSync(store)
    ensures commit.Some? || abandoned == [] ==> store.runs == old(store.runs)
    ensures abandoned == [] ==> store.chain == old(store.chain)
  {
    hide Derive, AbandonedSoFar, Holds, Marks, CountsFromOne, Ledger.Append;
    var runs, _ := DeriveRunsFrom(store.chain);
    RunIdsAreUnique(Marks(store.chain));
    abandoned := [];
    NothingAbandonedYet(store.codec, store.chain, runs, io);
    for k := 0 to |runs|
      invariant AbandonedSoFar(store.codec, store.chain, runs, k, abandoned, io)
      invariant old(store.chain) <= store.chain && store.runs == old(store.runs)
      invariant abandoned == [] ==> store.chain == old(store.chain)
    {
      var run := runs[k];
      ghost var chain := store.chain;
      if run.endSeq.Some? || run.status != RunOpen || run.startSeq > io.startupSeq {
        NotStale(store.codec, chain, runs, k, abandoned, io);
        continue;
      }
      var stored := store.Append(AbandonEvent(run.runId, io.clock(k), io.agentId), io.answers(k));
      OneMoreStale(store.codec, chain, runs, k, abandoned, io, stored);
      if stored.Ok? {
        abandoned := abandoned + [run.runId];
      }
    }
    if abandoned != [] {
      var _ := store.RebuildRunIndex(commit);
    }
    StillCounts(store.codec, store.chain, runs, abandoned, io);
  }

  lemma NothingAbandonedYet(
      c: Codec, chain: seq<StoredEvent>, rows: seq<RunRecord>, io: AbandonIo)
    requires CountsFromOne(chain) && Derive(Marks(chain)).rows == rows
    ensures AbandonedSoFar(c, chain, rows, 0, [], io)
  {
    assert MarkedAbandoned(rows, []) == rows;
  }

  lemma NotStale(
      c: Codec, chain: seq<StoredEvent>, rows: seq<RunRecord>, k: nat, abandoned: seq<string>, io: AbandonIo)
    requires k < |rows| && !IsStale(rows[k], io.startupSeq)
    requires AbandonedSoFar(c, chain, rows, k, abandoned, io)
    ensures AbandonedSoFar(c, chain, rows, k + 1, abandoned, io)
  {
    hide AbandonFailed;
  }

  lemma FailureStays(
      c: Codec, chain: seq<StoredEvent>, longer: seq<StoredEvent>, k: nat, id: string, io: AbandonIo)
    requires chain <= longer && AbandonFailed(c, chain, k, id, io)
    ensures AbandonFailed(c, longer, k, id, io)
  {
    hide Ledger.Append;
    var n: nat :| n <= |chain| &&
      Ledger.Append(c, chain[..n], AbandonEvent(id, io.clock(k), io.agentId), io.answers(k)).Err?;
    assert longer[..n] == chain[..n];
  }

  /** One more row: stale and abandoned now, and what failed before still has. */
  lemma OneMoreDone(
      c: Codec, chain: seq<StoredEvent>, longer: seq<StoredEvent>, rows: seq<RunRecord>, k: nat,
      abandoned: seq<string>, io: AbandonIo)
    requires chain <= longer && k < |rows| && IsStale(rows[k], io.startupSeq)
    requires OnlyStale(rows, k, abandoned, io.startupSeq) && AllStale(c, chain, rows, k, abandoned, io)
    ensures OnlyStale(rows, k + 1, abandoned + [rows[k].runId], io.startupSeq)
    ensures AllStale(c, longer, rows, k + 1, abandoned + [rows[k].runId], io)
  {
    hide AbandonFailed;
    forall i | 0 <= i < k && AbandonFailed(c, chain, i, rows[i].runId, io)
      ensures AbandonFailed(c, longer, i, rows[i].runId, io)
    {
      FailureStays(c, chain, longer, i, rows[i].runId, io);
    }
  }

  lemma OneMoreStale(
      c: Codec, chain: seq<StoredEvent>, rows: seq<RunRecord>, k: nat, abandoned: seq<string>,
      io: AbandonIo, stored: Result<StoredEvent, AuditError>)
    requires UniqueIds(rows) && k < |rows| && IsStale(rows[k], io.startupSeq)
    requires AbandonedSoFar(c, chain, rows, k, abandoned, io)
    requires stored == Ledger.Append(c, chain, AbandonEvent(rows[k].runId, io.clock(k), io.agentId), io.answers(k))
    ensures AbandonedSoFar(c, After(chain, stored), rows, k + 1,
                           if stored.Ok? then abandoned + [rows[k].runId] else abandoned, io)
  {
    hide Ledger.Append, AbandonFailed, MarkedAbandoned, AbandonEvent, MarkOf, UniqueIds, CountsFromOne, Derive, Marks;
    if stored.Ok? {
      OneMoreMarked(c, chain, rows, k, abandoned, io, stored.value);
    } else {
      FailedNow(c, chain, k, rows[k].runId, io);
    }
  }

  lemma OneMoreMarked(
      c: Codec, chain: seq<StoredEvent>, rows: seq<RunRecord>, k: nat, abandoned: seq<string>,
      io: AbandonIo, stored: StoredEvent)
    requires UniqueIds(rows) && k < |rows| && IsStale(rows[k], io.startupSeq)
    requires AbandonedSoFar(c, chain, rows, k, abandoned, io)
    requires Ok(stored) ==
      Ledger.Append(c, chain, AbandonEvent(rows[k].runId, io.clock(k), io.agentId), io.answers(k))
    ensures AbandonedSoFar(c, chain + [stored], rows, k + 1, abandoned + [rows[k].runId], io)
  {
    hide Ledger.Append, MarkedAbandoned, AbandonEvent, MarkOf, UniqueIds, CountsFromOne, OnlyStale, AllStale;
    var id := rows[k].runId;
    OneMoreDone(c, chain, chain + [stored], rows, k, abandoned, io);
    NotYetAbandoned(c, chain, rows, k, abandoned, io);
    AppendAnswers(c, chain, AbandonEvent(id, io.clock(k), io.agentId), io.answers(k));
    OneMarkerMore(chain, rows, k, abandoned, stored, io.clock(k), io.agentId);
  }

  lemma OneMarkerMore(
      chain: seq<StoredEvent>, rows: seq<RunRecord>, k: nat, abandoned: seq<string>,
      stored: StoredEvent, now: int, agentId: string)
    requires UniqueIds(rows) && k < |rows| && rows[k].endSeq.None? && rows[k].runId !in abandoned
    requires CountsFromOne(chain) && Derive(Marks(chain)).rows == MarkedAbandoned(rows, abandoned)
    requires stored.id == |chain| + 1 && stored.event == AbandonEvent(rows[k].runId, now, agentId)
    ensures CountsFromOne(chain + [stored])
    ensures Derive(Marks(chain + [stored])).rows == MarkedAbandoned(rows, abandoned + [rows[k].runId])
  {
    AbandonReads(stored, rows[k].runId, now, agentId);
    AppendedMark(chain, stored);
    hide AbandonEvent, MarkOf, MarkedAbandoned, Step;
    assert (Marks(chain) + [MarkOf(stored)])[..|chain|] == Marks(chain);
    AbandonStep(Derive(Marks(chain)), rows, abandoned, k, MarkOf(stored));
  }

  lemma NotYetAbandoned(
      c: Codec, chain: seq<StoredEvent>, rows: seq<RunRecord>, k: nat, abandoned: seq<string>, io: AbandonIo)
    requires UniqueIds(rows) && k < |rows|
    requires AbandonedSoFar(c, chain, rows, k, abandoned, io)
    ensures rows[k].runId !in abandoned
  {
  }

  lemma FailedNow(
      c: Codec, chain: seq<StoredEvent>, k: nat, id: string, io: AbandonIo)
    requires Ledger.Append(c, chain, AbandonEvent(id, io.clock(k), io.agentId), io.answers(k)).Err?
    ensures AbandonFailed(c, chain, k, id, io)
  {
    assert chain[..|chain|] == chain;
  }

  lemma StillCounts(
      c: Codec, chain: seq<StoredEvent>, rows: seq<RunRecord>, abandoned: seq<string>, io: AbandonIo)
    requires AbandonedSoFar(c, chain, rows, |rows|, abandoned, io)
    ensures CountsFromOne(chain)
  {
  }

  /**
   Two starts in a row: no run is abandoned twice, and a second start that looks no further
   than the first finds nothing at all if every append of the first went through.
   */
  method StartTwice(
      store: AuditStore, first: AbandonIo, firstCommit: Option<DbError>,
      second: AbandonIo, secondCommit: Option<DbError>) returns (before: seq<string>, after: seq<string>)
    requires CountsFromOne(store.chain)
    modifies store
    ensures forall id :: id in before ==> id !in after
    ensures var rows := DeriveRuns(old(store.chain)).rows;
      second.startupSeq <= first.startupSeq && NoneLeft(rows, before, first.startupSeq) ==> after == []
  {
    hide Derive, AbandonFailed, Marks, CountsFromOne, AllStale, OnlyStale, MarkedAbandoned, IsStale;
    ghost var rows := DeriveRuns(store.chain).rows;
    before := AbandonStaleRuns(store, first, firstCommit);
    after := AbandonStaleRuns(store, second, secondCommit);
    MarkedAreNotStale(rows, before, after, first.startupSeq, second.startupSeq);
  }

  /** Every stale run is among those abandoned. */
  predicate NoneLeft(rows: seq<RunRecord>, abandoned: seq<string>, startupSeq: int) {
    forall i :: 0 <= i < |rows| && IsStale(rows[i], startupSeq) ==> rows[i].runId in abandoned
  }

  /** What a second start can still find stale was neither abandoned before nor stale to the first. */
  lemma MarkedAreNotStale(
      rows: seq<RunRecord>, before: seq<string>, after: seq<string>, firstSeq: int, secondSeq: int)
    requires OnlyStale(MarkedAbandoned(rows, before), |rows|, after, secondSeq)
    ensures forall id :: id in before ==> id !in after
    ensures secondSeq <= firstSeq && NoneLeft(rows, before, firstSeq) ==> after == []
  {
    assert after != [] ==> after[0] in after;
  }
}
