/**
 One opened audit file (`AuditStore` in `audit/src/store.rs`), updated in place. Each method
 is proved against the functions of `Ledger`, `Segments`, `RunIndex`, about which the
 properties are proved; its last argument says what the database answers to each statement.
 */
module Database {
  import opened Wrappers
  import opened Json
  import opened Chain
  import opened Ledger
  import opened SegmentIds
  import opened Segments
  import opened RunMarkers
  import opened RunFold
  import opened Runs
  import opened RunIndex

  class AuditStore {
    const codec: Codec
    var chain: seq<StoredEvent>          // audit_events, in id order
    var segments: map<string, Segment>
    var runs: Table

    constructor (codec: Codec)
      ensures this.codec == codec && chain == [] && segments == map[] && runs == map[] && Keyed(runs)
    {
      this.codec := codec;
      chain := [];
      segments := map[];
      runs := map[];
    }

    /** Chain and segment table, as the functions of `Segments` see them. */
    function View(): Store
      reads this
    {
      Store(chain, segments)
    }

    // ----- Appending -----------------------------------------------------------------------------

    /** One attempt, inside one immediate transaction. */
    method AppendOnce(event: Event, answer: Option<DbError>) returns (r: Result<StoredEvent, AuditError>)
      modifies this`chain
      ensures chain == After(old(chain), r)
      ensures r == match answer
        case Some(e) => Err(Db(e))
        case None =>
          var row := NextStored(codec, old(chain), event);
          if HashUsed(old(chain), row.hash) then Err(DuplicateHash) else Ok(row)
    {
      if answer.Some? {
        return Err(Db(answer.value));
      }
      var prev := LastHash(chain);
      var prevHash := if prev.Some? then prev.value else GENESIS_PREV_HASH;
      var hash := ComputeHash(
        codec.digest, prevHash, event.timestampMs, event.actor, event.action, codec.print_(event.detail));
      if exists i :: 0 <= i < |chain| && chain[i].hash == hash {
        return Err(DuplicateHash);
      }
      var row := StoredEvent(|chain| + 1, event, prevHash, hash);
      chain := chain + [row];
      return Ok(row);
    }

    /** Only a lock is tried again, and only within the budget. */
    method AppendWith(event: Event, attempts: nat, answers: Attempts) returns (r: Result<StoredEvent, AuditError>)
      modifies this`chain
      ensures r == AppendWithin(codec, old(chain), event, answers, if attempts < 1 then 1 else attempts)
      ensures chain == After(old(chain), r)
      ensures var budget := if attempts < 1 then 1 else attempts;
        && (r.Ok? <==>
              GetsThrough(answers, 1, budget) && !HashUsed(old(chain), NextStored(codec, old(chain), event).hash))
        && (forall e :: r == Err(Db(e)) <==> GivesUpWith(answers, 1, budget, e))
    {
      hide NextStored, HashUsed, GetsThrough, GivesUpWith;
      var budget := if attempts < 1 then 1 else attempts;
      var attempt := 1;
      ExhaustedExactly(answers, 1, budget);
      while true
        invariant 1 <= attempt <= budget && chain == old(chain)
        invariant Exhausted(answers, attempt, budget) == Exhausted(answers, 1, budget)
        decreases budget - attempt
      {
        r := AppendOnce(event, answers(attempt));
        if r.Ok? {
          return;
        }
        if attempt >= budget || !(r.error.Db? && r.error.e.Locked?) {
          return;
        }
        attempt := attempt + 1;
      }
    }

    method Append(event: Event, answers: Attempts) returns (r: Result<StoredEvent, AuditError>)
      modifies this`chain
      ensures r == Ledger.Append(codec, old(chain), event, answers)
      ensures chain == After(old(chain), r)
    {
      r := AppendWith(event, APPEND_MAX_ATTEMPTS, answers);
    }

    // ----- Segments --------------------------------------------------------------------------------

    method OpenSegment(kind: SegmentKind, owner: Option<string>, io: OpenIo)
      returns (r: Result<Segment, AuditError>)
      modifies this`chain, this`segments
      ensures (View(), r) == Segments.OpenSegment(codec, old(View()), kind, owner, io)
    {
      hide Ledger.Append, FreeSegmentId;
      if io.read.Some? {
        return Err(Db(io.read.value));
      }
      var id := MintFreeId(segments.Keys, owner, io.now);
      if id.None? {
        return Err(Refused(NoFreeId));
      }
      var segment := Segment(
        id.value, kind, None, LastHash(chain), LastId(chain), Some(io.now), None, SegOpen, None);
      if io.insert.Some? {
        return Err(Db(io.insert.value));
      }
      ghost var before := segments;
      segments := segments[segment.segmentId := segment];
      var appended := Append(OpenedEvent(io.stamp, segment), io.append);
      if appended.Err? {
        if io.delete.Some? {
          return Err(Db(io.delete.value));
        }
        segments := segments - {segment.segmentId};
        assert segments == before;
        return Err(appended.error);
      }
      return Ok(segment);
    }

    method SetSegmentState(id: string, state: SegmentState, closedAtMs: Option<int>)
      requires id in segments
      modifies this`segments
      ensures segments == old(segments)[id := old(segments)[id].(state := state, closedAtMs := closedAtMs)]
    {
      segments := segments[id := segments[id].(state := state, closedAtMs := closedAtMs)];
    }

    method CloseSegment(id: string, io: CloseIo) returns (r: Result<Segment, AuditError>)
      modifies this`chain, this`segments
      ensures (View(), r) == Segments.CloseSegment(codec, old(View()), id, io)
    {
      hide Ledger.Append;
      if io.read.Some? {
        return Err(Db(io.read.value));
      }
      if id !in segments {
        return Err(Refused(NoSegment(id)));
      }
      var segment := segments[id];
      if io.update.Some? {
        return Err(Db(io.update.value));
      }
      SetSegmentState(id, SegClosed, Some(io.now));
      var appended := Append(ClosedEvent(io.stamp, id, io.now), io.append);
      if appended.Err? {
        if io.undo.Some? {
          return Err(Db(io.undo.value));
        }
        SetSegmentState(id, SegOpen, None);
        assert segments == old(segments)[id := segment.(state := SegOpen, closedAtMs := None)];
        return Err(appended.error);
      }
      return Ok(segment.(state := SegClosed, closedAtMs := Some(io.now)));
    }

    method AdoptSegment(id: string, prevChain: Option<string>, prevLength: Option<int>, io: AdoptIo)
      returns (r: Result<(), AuditError>)
      modifies this`segments
      ensures (View(), r) == Segments.AdoptSegment(old(View()), id, prevChain, prevLength, io)
    {
      if io.read.Some? {
        return Err(Db(io.read.value));
      }
      if id in segments {
        return Ok(());
      }
      if io.insert.Some? {
        return Err(Db(io.insert.value));
      }
      segments := segments[id := Segment(
        id, Temporary, None, prevChain, prevLength, None, None, SegClosed, Some("adopted from another node"))];
      return Ok(());
    }

    /** Scan for a `segment_merged` event that names the segment. */
    method HasMergedMarker(id: string) returns (found: bool)
      ensures found == MergedAlready(chain, id)
    {
      for k := 0 to |chain|
        invariant forall j :: 0 <= j < k ==> !IsMergedMarker(chain[j].event, id)
      {
        if chain[k].event.action == ACTION_SEGMENT_MERGED && GetStr(chain[k].event.detail, "segment_id") == Some(id) {
          return true;
        }
      }
      return false;
    }

    /** The first row with the same actor, action and detail as the segment's event, cleared. */
    method MainChainRowWith(e: StoredEvent) returns (r: Option<nat>)
      ensures r == FirstClash(codec, chain, e, 0)
    {
      hide Canonicalize, Outgoing;
      var cleared := Outgoing(codec, e.event).detail;
      for k := 0 to |chain|
        invariant FirstClash(codec, chain, e, k) == FirstClash(codec, chain, e, 0)
      {
        var row := chain[k].event;
        if row.actor == e.event.actor && row.action == e.event.action
          && SameDetail(ReadBack(codec, row.detail), cleared)
        {
          return Some(k);
        }
      }
      return None;
    }

    method FindConflict(events: seq<StoredEvent>) returns (r: Option<(nat, nat)>)
      ensures r == FirstConflict(codec, chain, events, 0)
    {
      hide Clashes;
      for i := 0 to |events|
        invariant FirstConflict(codec, chain, events, i) == FirstConflict(codec, chain, events, 0)
      {
        var row := MainChainRowWith(events[i]);
        if row.Some? {
          return Some((i, row.value));
        }
      }
      return None;
    }

    /** What a merge decides before it writes, reading only. */
    method JudgeMerge(id: string, events: seq<StoredEvent>) returns (v: Verdict)
      ensures v == Judge(codec, View(), id, events)
    {
      hide MergedAlready, FirstConflict;
      if id !in segments {
        return Refuse(NoSegment(id));
      }
      var segment := segments[id];
      if segment.kind != Temporary {
        return Refuse(NotTemporary(id));
      }
      if segment.state != SegOpen && segment.state != SegClosed {
        return Refuse(NotMergeable(id, segment.state.AsStr()));
      }
      var merged := HasMergedMarker(id);
      if merged {
        return Refuse(AlreadyMerged(id));
      }
      if segment.note.Some? && PartialMergeRecorded(segment.note) {
        return Refuse(PartialMerge(id, segment.note.value));
      }
      var conflict := FindConflict(events);
      if conflict.Some? {
        return Conflict(conflict.value.0, conflict.value.1);
      }
      return Clear;
    }

    /** Transcribe the segment's file into this chain, or record the conflict that stops it. */
    method MergeSegment(id: string, segmentStore: AuditStore, io: MergeIo)
      returns (r: Result<MergeOutcome, AuditError>)
      requires segmentStore != this
      modifies this`chain, this`segments
      ensures (View(), r) == Segments.MergeSegment(codec, old(View()), id, segmentStore.chain, io)
    {
      hide Judge, Ledger.Append, Transcribe;
      if io.read.Some? {
        return Err(Db(io.read.value));
      }
      var events := segmentStore.chain;
      var verdict := JudgeMerge(id, events);
      match verdict
      case Refuse(why) =>
        return Err(Refused(why));
      case Conflict(i, k) =>
        r := RecordFork(id, chain[k], io);
      case Clear =>
        r := TranscribeInto(id, events, io);
    }

    method RecordFork(id: string, clash: StoredEvent, io: MergeIo) returns (r: Result<MergeOutcome, AuditError>)
      requires id in segments
      modifies this`chain, this`segments
      ensures (View(), r) == Fork(codec, old(View()), id, clash, io)
    {
      hide Ledger.Append;
      var segment := segments[id];
      var reason := ForkReason(clash);
      var forked := Append(ForkedEvent(io.stamp, id, segment.kind, io.now, reason, clash.id), io.append(0));
      if forked.Err? {
        return Err(forked.error);
      }
      if io.mark.Some? {
        return Err(Db(io.mark.value));
      }
      segments := segments[id := segment.(state := SegForked, note := Some(reason))];
      return Ok(Forked(reason));
    }

    method TranscribeInto(id: string, events: seq<StoredEvent>, io: MergeIo)
      returns (r: Result<MergeOutcome, AuditError>)
      requires id in segments
      modifies this`chain, this`segments
      ensures (View(), r) == Fold(codec, old(View()), id, events, io)
    {
      hide Ledger.Append, Outgoing;
      var segment := segments[id];
      var merged := 0;
      while merged < |events|
        invariant merged <= |events| && segments == old(segments)
        invariant Transcribe(codec, chain, events, merged, io.append) ==
                  Transcribe(codec, old(chain), events, 0, io.append)
      {
        var appended := Append(Outgoing(codec, events[merged].event), io.append(merged));
        if appended.Err? {
          if io.note.None? {
            segments := segments[id := segment.(note := Some(PartialNote(merged, |events|, appended.error)))];
          }
          return Err(appended.error);
        }
        merged := merged + 1;
      }
      var marked := Append(MergedEvent(io.stamp, id, segment.kind, io.now, merged), io.append(|events|));
      if marked.Err? {
        return Err(marked.error);
      }
      if io.mark.Some? {
        return Err(Db(io.mark.value));
      }
      segments := segments[id := segment.(state := SegFolded, headHash := LastHash(chain))];
      return Ok(Folded(merged));
    }

    // ----- The run index -----------------------------------------------------------------------------

    method IndexRunStart(record: RunRecord)
      modifies this`runs
      ensures old(Keyed(runs)) ==> Keyed(runs)
      ensures runs == RunIndex.IndexRunStart(old(runs), record)
    {
      runs := runs[record.runId := record];
    }

    method IndexRunEnd(id: string, endSeq: int, endedAtMs: int, status: RunStatus) returns (changed: bool)
      modifies this`runs
      ensures old(Keyed(runs)) ==> Keyed(runs)
      ensures runs == RunIndex.IndexRunEnd(old(runs), id, endSeq, endedAtMs, status)
      ensures changed == (id in old(runs))
    {
      changed := id in runs;
      if changed {
        runs := runs[id := runs[id].(endSeq := Some(endSeq), endedAtMs := Some(endedAtMs), status := status)];
      }
    }

    /** Clear and refill in one transaction; a row whose key is taken would undo all of it. */
    method RebuildRunIndex(commit: Option<DbError>) returns (r: Result<RebuildReport, AuditError>)
      modifies this`runs
      ensures commit.Some? ==> r == Err(Db(commit.value)) && runs == old(runs)
      ensures commit.None? ==> r == Ok(ReportOf(DeriveRuns(chain))) && Holds(runs, DeriveRuns(chain).rows)
      ensures commit.None? ==> Keyed(runs)
    {
      hide Derive, Holds, UniqueIds, Marks;
      var rows, report := DeriveRunsFrom(chain);
      var table: Table := map[];
      RunIdsAreUnique(Marks(chain));
      InsertAllIsExact(rows);
      for n := 0 to |rows|
        invariant InsertAll(rows[..n]) == Some(table) && runs == old(runs)
      {
        assert rows[..n + 1][..n] == rows[..n];
        PrefixIsUnique(rows, n + 1);
        InsertAllIsExact(rows[..n + 1]);
        table := table[rows[n].runId := rows[n]];
      }
      assert rows[..|rows|] == rows;
      if commit.Some? {
        return Err(Db(commit.value));
      }
      runs := table;
      HeldIsKeyed(runs, rows);
      return Ok(report);
    }

    /** The two loops of `check_run_index`: silent exactly when table and chain agree. */
    method CheckRunIndex() returns (findings: seq<Finding>)
      requires Keyed(runs)
      ensures findings == [] <==> Holds(runs, DeriveRuns(chain).rows)
      ensures exists stored :: IsListing(runs, stored) &&
                findings == RunIndex.CheckRunIndex(DeriveRuns(chain).rows, stored)
    {
      hide Derive, Holds, UniqueIds, Marks, FindRow, HasRow;
      var derived, _ := DeriveRunsFrom(chain);
      var stored := AllRuns();
      findings := [];
      for n := 0 to |derived|
        invariant findings == Mismatches(derived, stored, n)
      {
        var row := derived[n];
        var s := FindRow(stored, row.runId);
        if s.None? {
          findings := findings + [Missing(row.runId, row.startSeq)];
        } else if s.value != row {
          findings := findings + [Differs(row.runId, s.value, row)];
        }
      }
      for n := 0 to |stored|
        invariant findings == Mismatches(derived, stored, |derived|) + Extras(derived, stored, n)
      {
        if !HasRow(derived, stored[n].runId) {
          findings := findings + [NotInChain(stored[n].runId, stored[n].startSeq)];
        }
      }
      RunIdsAreUnique(Marks(chain));
      CheckDecidesAgreement(runs, derived, stored);
    }

    /** Every row of the index, oldest start first. */
    method AllRuns() returns (rows: seq<RunRecord>)
      requires Keyed(runs)
      ensures IsListing(runs, rows)
      ensures forall i, j :: 0 <= i < j < |rows| ==> rows[i].startSeq <= rows[j].startSeq
    {
      rows := [];
      var left := runs.Keys;
      while left != {}
        invariant left <= runs.Keys && Listed(runs, left, rows)
        decreases left
      {
        EarliestExists(runs, left);
        var id :| id in left && forall k :: k in left ==> runs[id].startSeq <= runs[k].startSeq;
        ListedStep(runs, left, rows, id);
        rows := rows + [runs[id]];
        left := left - {id};
      }
    }
  }

  /** The rows of the table, each once. */
  predicate IsListing(runs: Table, rows: seq<RunRecord>) { UniqueIds(rows) && Holds(runs, rows) }

  /** Every row stands under its own id: `run_id` is the primary key. */
  predicate Keyed(runs: Table) { forall id :: id in runs ==> runs[id].runId == id }

  /** The rows taken so far, in order of their start, with none of those left before them. */
  predicate Listed(runs: Table, left: set<string>, rows: seq<RunRecord>)
    requires left <= runs.Keys
  {
    && UniqueIds(rows)
    && (forall i :: 0 <= i < |rows| ==> rows[i].runId in runs && runs[rows[i].runId] == rows[i])
    && (forall i :: 0 <= i < |rows| ==> rows[i].runId !in left)
    && (forall id :: id in runs && id !in left ==> HasRow(rows, id))
    && (forall i, j :: 0 <= i < j < |rows| ==> rows[i].startSeq <= rows[j].startSeq)
    && (forall i, id :: 0 <= i < |rows| && id in left ==> rows[i].startSeq <= runs[id].startSeq)
    && Keyed(runs)
  }

  lemma ListedStep(runs: Table, left: set<string>, rows: seq<RunRecord>, id: string)
    requires left <= runs.Keys && Listed(runs, left, rows) && id in left
    requires forall k :: k in left ==> runs[id].startSeq <= runs[k].startSeq
    ensures Listed(runs, left - {id}, rows + [runs[id]])
  {
    var all := rows + [runs[id]];
    assert all[|rows|].runId == id;
    forall k | k in runs && k !in left - {id} ensures HasRow(all, k) {
      if k != id {
        var i :| 0 <= i < |rows| && rows[i].runId == k;
        assert all[i].runId == k;
      }
    }
  }

  lemma {:induction false} EarliestExists(runs: Table, left: set<string>)
    requires left <= runs.Keys && left != {}
    ensures exists id :: id in left && forall k :: k in left ==> runs[id].startSeq <= runs[k].startSeq
  {
    var id :| id in left;
    if left != {id} {
      EarliestExists(runs, left - {id});
      var best :| best in left - {id} && forall k :: k in left - {id} ==> runs[best].startSeq <= runs[k].startSeq;
      var first := if runs[id].startSeq < runs[best].startSeq then id else best;
      forall k | k in left ensures runs[first].startSeq <= runs[k].startSeq {
        assert k == id || k in left - {id};
      }
    }
  }

  lemma HeldIsKeyed(table: Table, rows: seq<RunRecord>)
    requires Holds(table, rows)
    ensures Keyed(table)
  {
  }

  lemma PrefixIsUnique(rows: seq<RunRecord>, n: nat)
    requires UniqueIds(rows) && n <= |rows|
    ensures UniqueIds(rows[..n])
  {
  }
}
