/** Run markers (`audit/src/run.rs`): what an event on the chain says about runs. */
module RunMarkers {
  import opened Wrappers
  import opened Json
  import opened Chain

  const ACTION_RUN_START := "run.start"
  const ACTION_RUN_END := "run.end"
  const ACTION_RUN_ABANDONED := "host.run.abandoned"

  datatype RunStatus = RunOpen | RunOk | RunFailed | RunInterrupted | RunAbandoned {
    function AsStr(): string {
      match this
      case RunOpen => "open"
      case RunOk => "ok"
      case RunFailed => "failed"
      case RunInterrupted => "interrupted"
      case RunAbandoned => "abandoned"
    }
  }

  /** Anything unknown reads as failed. */
  function ParseStatus(raw: string): RunStatus {
    if raw == "open" then RunOpen
    else if raw == "ok" then RunOk
    else if raw == "interrupted" then RunInterrupted
    else if raw == "abandoned" then RunAbandoned
    else RunFailed
  }

  /** The word stored in the index reads back as the status written. */
  lemma StatusWordRoundTrip(s: RunStatus)
    ensures ParseStatus(s.AsStr()) == s
    ensures forall raw :: ParseStatus(raw) == RunOk ==> raw == "ok"
  {
  }

  datatype RunRecord = RunRecord(
    runId: string, sessionId: Option<string>, parentRunId: Option<string>,
    resumedFromSnapshot: Option<string>, fingerprint: string, fingerprintSchema: string,
    startedAtMs: int, endedAtMs: Option<int>, startSeq: int, endSeq: Option<int>, status: RunStatus)

  datatype RunStartPayload = RunStartPayload(
    runId: string, fingerprint: string, fingerprintSchema: string, fingerprintJson: string,
    sessionId: Option<string>, parentRunId: Option<string>, resumedFromSnapshot: Option<string>,
    sandbox: Option<string>, instance: Option<string>)

  /** The detail of a `run.start` event. */
  function RunStartDetail(p: RunStartPayload): Json {
    Object([
      Member("run_id", Str(p.runId)),
      Member("fingerprint", Str(p.fingerprint)),
      Member("fingerprint_schema", Str(p.fingerprintSchema)),
      Member("fingerprint_json", Str(p.fingerprintJson)),
      Member("session_id", OrNull(p.sessionId)),
      Member("parent_run_id", OrNull(p.parentRunId)),
      Member("resumed_from_snapshot", OrNull(p.resumedFromSnapshot)),
      Member("sandbox", OrNull(p.sandbox)),
      Member("instance", OrNull(p.instance))])
  }

  function ParseRunStart(detail: Json): Option<RunStartPayload> {
    var id, f, schema, text := GetStr(detail, "run_id"), GetStr(detail, "fingerprint"),
      GetStr(detail, "fingerprint_schema"), GetStr(detail, "fingerprint_json");
    if id.None? || f.None? || schema.None? || text.None? then None
    else Some(RunStartPayload(
      id.value, f.value, schema.value, text.value,
      GetStr(detail, "session_id"), GetStr(detail, "parent_run_id"),
      GetStr(detail, "resumed_from_snapshot"), GetStr(detail, "sandbox"), GetStr(detail, "instance")))
  }

  function RunEndDetail(runId: string, status: RunStatus, reason: string): Json {
    Object([
      Member("run_id", Str(runId)), Member("status", Str(status.AsStr())), Member("reason", Str(reason))])
  }

  lemma FindAt(ms: seq<Member>, i: nat)
    requires i < |ms| && DistinctKeys(ms)
    ensures Find(ms, ms[i].key) == Some(ms[i].value)
  {
    FindFirst(ms, i);
  }

  lemma StartKeysAreDistinct(p: RunStartPayload)
    ensures DistinctKeys(RunStartDetail(p).members)
  {
    var ms := RunStartDetail(p).members;
    assert |ms[0].key| == 6 && |ms[1].key| == 11 && |ms[2].key| == 18 && |ms[3].key| == 16;
    assert |ms[4].key| == 10 && |ms[5].key| == 13 && |ms[6].key| == 21 && |ms[7].key| == 7 && |ms[8].key| == 8;
  }

  /** Nine members, in any object that holds them, decode to the payload. */
  lemma MembersDecode(ms: seq<Member>, p: RunStartPayload)
    requires |ms| == 9 && DistinctKeys(ms)
    requires ms[0] == Member("run_id", Str(p.runId))
    requires ms[1] == Member("fingerprint", Str(p.fingerprint))
    requires ms[2] == Member("fingerprint_schema", Str(p.fingerprintSchema))
    requires ms[3] == Member("fingerprint_json", Str(p.fingerprintJson))
    requires ms[4] == Member("session_id", OrNull(p.sessionId))
    requires ms[5] == Member("parent_run_id", OrNull(p.parentRunId))
    requires ms[6] == Member("resumed_from_snapshot", OrNull(p.resumedFromSnapshot))
    requires ms[7] == Member("sandbox", OrNull(p.sandbox))
    requires ms[8] == Member("instance", OrNull(p.instance))
    ensures ParseRunStart(Object(ms)) == Some(p)
  {
    hide Find;
    FindAt(ms, 0);
    FindAt(ms, 1);
    FindAt(ms, 2);
    FindAt(ms, 3);
    FindAt(ms, 4);
    FindAt(ms, 5);
    FindAt(ms, 6);
    FindAt(ms, 7);
    FindAt(ms, 8);
  }

  /** What was written into a `run.start` is what the derivation reads out of it. */
  lemma {:induction false} RunStartRoundTrip(p: RunStartPayload)
    ensures ParseRunStart(RunStartDetail(p)) == Some(p)
  {
    StartKeysAreDistinct(p);
    MembersDecode(RunStartDetail(p).members, p);
  }

  // ----- Markers ------------------------------------------------------------------------------

  /** What an event says about runs. */
  datatype Marker =
    | StartOf(payload: RunStartPayload)
    | EndOf(runId: string, status: RunStatus)
    | AbandonOf(runId: string)
    | Unreadable                              // a start or end that does not decode
    | NoMarker

  function MarkerOf(e: StoredEvent): Marker {
    var detail := e.event.detail;
    if e.event.action == ACTION_RUN_START then
      match ParseRunStart(detail) { case Some(p) => StartOf(p) case None => Unreadable }
    else if e.event.action == ACTION_RUN_END then
      match GetStr(detail, "run_id")
      case Some(id) =>
        EndOf(id, match GetStr(detail, "status") { case Some(w) => ParseStatus(w) case None => RunFailed })
      case None => Unreadable
    else if e.event.action == ACTION_RUN_ABANDONED then
      AbandonOf(match GetStr(detail, "run_id") { case Some(id) => id case None => "" })
    else NoMarker
  }

  lemma MarkerActions(e: StoredEvent)
    ensures MarkerOf(e).StartOf? ==> e.event.action == ACTION_RUN_START
    ensures forall id :: MarkerOf(e) == AbandonOf(id) && id != "" ==> NamesAbandoned(e, id)
  {
  }

  /** Exactly the four required members must be strings; a start or end without them is unreadable. */
  lemma UnreadableExactly(e: StoredEvent)
    ensures var d := e.event.detail;
      MarkerOf(e).Unreadable? <==>
        || (e.event.action == "run.start" &&
            (GetStr(d, "run_id").None? || GetStr(d, "fingerprint").None? ||
             GetStr(d, "fingerprint_schema").None? || GetStr(d, "fingerprint_json").None?))
        || (e.event.action == "run.end" && GetStr(d, "run_id").None?)
  {
    hide GetStr;
  }

  /** An end is ok only by its word: no word, and any word that is none of the five, reads as failed. */
  lemma EndReads(e: StoredEvent)
    requires e.event.action == "run.end" && GetStr(e.event.detail, "run_id").Some?
    ensures MarkerOf(e).EndOf? && MarkerOf(e).runId == GetStr(e.event.detail, "run_id").value
    ensures MarkerOf(e).status == match GetStr(e.event.detail, "status")
      case None => RunFailed
      case Some(word) =>
        if word == "ok" then RunOk
        else if word == "open" then RunOpen
        else if word == "interrupted" then RunInterrupted
        else if word == "abandoned" then RunAbandoned
        else RunFailed
  {
    hide GetStr;
    assert ACTION_RUN_END != ACTION_RUN_START;
  }

  /** A `host.run.abandoned` event that names `id`. */
  predicate NamesAbandoned(e: StoredEvent, id: string) {
    e.event.action == ACTION_RUN_ABANDONED && GetStr(e.event.detail, "run_id") == Some(id)
  }

  lemma RunEndRoundTrip(e: StoredEvent, runId: string, status: RunStatus, reason: string)
    requires e.event.action == ACTION_RUN_END && e.event.detail == RunEndDetail(runId, status, reason)
    ensures MarkerOf(e) == EndOf(runId, status)
  {
    var ms := e.event.detail.members;
    assert ms[0].key != ms[1].key && |ms[0].key| == |ms[1].key| == |ms[2].key| by {
      assert ms[0].key[0] != ms[1].key[0];
    }
    assert ms[0].key[2] != ms[2].key[2] && ms[1].key[0] != ms[2].key[0];
    FindAt(ms, 0);
    FindAt(ms, 1);
    StatusWordRoundTrip(status);
  }

  /** An event reduced to what the derivation uses of it. */
  datatype Mark = Mark(id: int, timestampMs: int, marker: Marker)

  function MarkOf(e: StoredEvent): Mark { Mark(e.id, e.event.timestampMs, MarkerOf(e)) }

  function Marks(events: seq<StoredEvent>): (ms: seq<Mark>)
    ensures |ms| == |events| && forall i :: 0 <= i < |ms| ==> ms[i] == MarkOf(events[i])
  {
    seq(|events|, i requires 0 <= i < |events| => MarkOf(events[i]))
  }
}
