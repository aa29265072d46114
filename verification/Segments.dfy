/**
 Segments beside the main chain (`audit/src/segment.rs` and the segment methods of
 `audit/src/store.rs`), as functions of the store and of what every fallible call answers.
 */
module Segments {
  import opened Wrappers
  import opened Text
  import opened Json
  import opened Chain
  import opened Ledger
  import opened SegmentIds

  const ACTION_SEGMENT_OPENED := "host.audit.segment_opened"
  const ACTION_SEGMENT_CLOSED := "host.audit.segment_closed"
  const ACTION_SEGMENT_MERGED := "host.audit.segment_merged"
  const ACTION_SEGMENT_FORKED := "host.audit.segment_forked"
  const PARTIAL_MERGE_PREFIX := "merge failed after "
  const PROVISIONAL := "provisional"

  datatype SegmentKind = Main | Temporary {
    function AsStr(): string { if Main? then "main" else "temporary" }
  }

  datatype SegmentState = SegOpen | SegClosed | SegFolded | SegForked {
    function AsStr(): string {
      match this
      case SegOpen => "open"
      case SegClosed => "closed"
      case SegFolded => "folded"
      case SegForked => "forked"
    }
  }

  datatype Segment = Segment(
    segmentId: string, kind: SegmentKind, headHash: Option<string>, headPrevChain: Option<string>,
    headPrevLength: Option<int>, openedAtMs: Option<int>, closedAtMs: Option<int>,
    state: SegmentState, note: Option<string>)

  /** The main chain and the `segments` table. */
  datatype Store = Store(chain: seq<StoredEvent>, segments: map<string, Segment>)

  /** How many rows a call appended. */
  function Added(s: Store, t: Store): nat {
    if |t.chain| > |s.chain| then |t.chain| - |s.chain| else 0
  }

  datatype MergeOutcome = Folded(merged: nat) | Forked(reason: string)

  // ----- Details --------------------------------------------------------------------------------

  /** The detail with its `provisional` member removed. */
  function ClearedDetail(detail: Json): Json {
    if detail.Object? then Object(Without(detail.members, PROVISIONAL)) else detail
  }

  /** `serde_json` equality: the same value up to member order. */
  predicate SameDetail(a: Json, b: Json) { Canonicalize(a) == Canonicalize(b) }

  function PartialMergeRecorded(note: Option<string>): bool {
    note.Some? && PARTIAL_MERGE_PREFIX <= note.value
  }

  function HostEvent(stamp: int, action: string, detail: Json): Event {
    Event(stamp, "host", action, detail, None)
  }

  function OpenedEvent(stamp: int, s: Segment): Event {
    HostEvent(stamp, ACTION_SEGMENT_OPENED, Object([
      Member("segment_id", Str(s.segmentId)), Member("kind", Str(s.kind.AsStr())),
      Member("head_prev_chain", OrNull(s.headPrevChain))]))
  }

  function ClosedEvent(stamp: int, id: string, now: int): Event {
    HostEvent(stamp, ACTION_SEGMENT_CLOSED, Object([
      Member("segment_id", Str(id)), Member("closed_at_ms", Number(IntText(now)))]))
  }

  function MergedEvent(stamp: int, id: string, kind: SegmentKind, now: int, count: nat): Event {
    HostEvent(stamp, ACTION_SEGMENT_MERGED, Object([
      Member("segment_id", Str(id)), Member("kind", Str(kind.AsStr())),
      Member("merged_at_ms", Number(IntText(now))), Member("event_count", Number(NatText(count)))]))
  }

  function ForkedEvent(stamp: int, id: string, kind: SegmentKind, now: int, reason: string, at: int): Event {
    HostEvent(stamp, ACTION_SEGMENT_FORKED, Object([
      Member("segment_id", Str(id)), Member("kind", Str(kind.AsStr())),
      Member("forked_at_ms", Number(IntText(now))), Member("reason", Str(reason)),
      Member("conflicting_event_id", Number(IntText(at)))]))
  }

  // ----- Open, close, adopt ------------------------------------------------------------------------

  /** What one call meets: the clock twice, then each fallible step. */
  datatype OpenIo = OpenIo(
    now: nat, stamp: int, read: Option<DbError>, insert: Option<DbError>,
    append: Attempts, delete: Option<DbError>)

  /** The row an open writes: its anchor is the head as it stands before the opening event. */
  function OpenedRow(s: Store, id: string, kind: SegmentKind, now: nat): Segment {
    Segment(id, kind, None, LastHash(s.chain), LastId(s.chain), Some(now), None, SegOpen, None)
  }

  function OpenSegment(
      c: Codec, s: Store, kind: SegmentKind, owner: Option<string>, io: OpenIo): (Store, Result<Segment, AuditError>)
  {
    if io.read.Some? then (s, Err(Db(io.read.value)))
    else match FreeSegmentId(s.segments.Keys, owner, io.now)
      case None => (s, Err(Refused(NoFreeId)))
      case Some(id) =>
        if io.insert.Some? then (s, Err(Db(io.insert.value)))
        else
          var row := OpenedRow(s, id, kind, io.now);
          match Append(c, s.chain, OpenedEvent(io.stamp, row), io.append)
          case Ok(e) => (Store(s.chain + [e], s.segments[id := row]), Ok(row))
          case Err(error) =>
            if io.delete.Some? then (s.(segments := s.segments[id := row]), Err(Db(io.delete.value)))
            else (s, Err(error))
  }

  datatype CloseIo = CloseIo(
    now: int, stamp: int, read: Option<DbError>, update: Option<DbError>,
    append: Attempts, undo: Option<DbError>)

  function CloseSegment(c: Codec, s: Store, id: string, io: CloseIo): (Store, Result<Segment, AuditError>) {
    if io.read.Some? then (s, Err(Db(io.read.value)))
    else if id !in s.segments then (s, Err(Refused(NoSegment(id))))
    else if io.update.Some? then (s, Err(Db(io.update.value)))
    else
      var row := s.segments[id].(state := SegClosed, closedAtMs := Some(io.now));
      match Append(c, s.chain, ClosedEvent(io.stamp, id, io.now), io.append)
      case Ok(e) => (Store(s.chain + [e], s.segments[id := row]), Ok(row))
      case Err(error) =>
        if io.undo.Some? then (s.(segments := s.segments[id := row]), Err(Db(io.undo.value)))
        else (s.(segments := s.segments[id := row.(state := SegOpen, closedAtMs := None)]), Err(error))
  }

  datatype AdoptIo = AdoptIo(read: Option<DbError>, insert: Option<DbError>)

  function AdoptedRow(id: string, prevChain: Option<string>, prevLength: Option<int>): Segment {
    Segment(id, Temporary, None, prevChain, prevLength, None, None, SegClosed,
            Some("adopted from another node"))
  }

  function AdoptSegment(
      s: Store, id: string, prevChain: Option<string>, prevLength: Option<int>, io: AdoptIo)
    : (Store, Result<(), AuditError>)
  {
    if io.read.Some? then (s, Err(Db(io.read.value)))
    else if id in s.segments then (s, Ok(()))
    else if io.insert.Some? then (s, Err(Db(io.insert.value)))
    else (s.(segments := s.segments[id := AdoptedRow(id, prevChain, prevLength)]), Ok(()))
  }

  // ----- What they leave, column by column ------------------------------------------------------------------

  /** The columns a close does not touch. */
  predicate SameButState(a: Segment, b: Segment) {
    a.segmentId == b.segmentId && a.kind == b.kind && a.headHash == b.headHash &&
    a.headPrevChain == b.headPrevChain && a.headPrevLength == b.headPrevLength &&
    a.openedAtMs == b.openedAtMs && a.note == b.note
  }

  predicate OneRowMore(s: Store, t: Store) { |t.chain| == |s.chain| + 1 && s.chain <= t.chain }

  /** Only the row under `id` may differ. */
  predicate OnlyRow(s: Store, t: Store, id: string) {
    t.segments.Keys == s.segments.Keys + {id} &&
    forall k :: k in s.segments && k != id ==> t.segments[k] == s.segments[k]
  }

  predicate SaysClosed(e: Event, id: string, now: int) {
    e.actor == "host" && e.action == "host.audit.segment_closed" &&
    GetStr(e.detail, "segment_id") == Some(id) && Get(e.detail, "closed_at_ms") == Some(Number(IntText(now)))
  }

  lemma ClosedReads(stamp: int, id: string, now: int)
    ensures SaysClosed(ClosedEvent(stamp, id, now), id, now)
  {
    hide Find, IntText;
    var ms := ClosedEvent(stamp, id, now).detail.members;
    assert |ms[0].key| == 10 && |ms[1].key| == 12;
    FindFirst(ms, 0);
    FindFirst(ms, 1);
  }

  /**
   A close that answers Ok has closed the row and said so once on the chain. One whose append
   failed leaves the chain alone and the row open, or closed if the undo failed too. Any other
   failure changes nothing.
   */
  lemma CloseIsExact(c: Codec, s: Store, id: string, io: CloseIo)
    ensures var (t, r) := CloseSegment(c, s, id, io);
      if r.Ok? then
        && id in s.segments && id in t.segments && OneRowMore(s, t) && OnlyRow(s, t, id)
        && SaysClosed(t.chain[|s.chain|].event, id, io.now)
        && t.segments[id] == r.value && SameButState(r.value, s.segments[id])
        && r.value.state == SegClosed && r.value.closedAtMs == Some(io.now)
      else if io.read.Some? || id !in s.segments || io.update.Some? then
        t == s && (io.read.None? && id !in s.segments ==> r == Err(Refused(NoSegment(id))))
      else
        && t.chain == s.chain && id in t.segments && OnlyRow(s, t, id)
        && SameButState(t.segments[id], s.segments[id])
        && t.segments[id].state == (if io.undo.None? then SegOpen else SegClosed)
        && t.segments[id].closedAtMs == (if io.undo.None? then None else Some(io.now))
  {
    hide Append, ClosedEvent, SaysClosed;
    AppendAnswers(c, s.chain, ClosedEvent(io.stamp, id, io.now), io.append);
    ClosedReads(io.stamp, id, io.now);
  }

  predicate SaysOpened(e: Event, row: Segment) {
    && e.actor == "host" && e.action == "host.audit.segment_opened"
    && GetStr(e.detail, "segment_id") == Some(row.segmentId)
    && GetStr(e.detail, "kind") == Some(if row.kind.Main? then "main" else "temporary")
    && Get(e.detail, "head_prev_chain") ==
       Some(if row.headPrevChain.Some? then Str(row.headPrevChain.value) else Null)
  }

  lemma OpenedReads(stamp: int, row: Segment)
    ensures SaysOpened(OpenedEvent(stamp, row), row)
  {
    hide Find;
    var ms := OpenedEvent(stamp, row).detail.members;
    assert |ms[0].key| == 10 && |ms[1].key| == 4 && |ms[2].key| == 15;
    FindFirst(ms, 0);
    FindFirst(ms, 1);
    FindFirst(ms, 2);
  }

  /** A row as an open writes it: open, new, and anchored at the last row of the chain. */
  predicate FreshlyOpened(chain: seq<StoredEvent>, row: Segment, id: string, kind: SegmentKind, now: nat) {
    && row.segmentId == id && row.kind == kind && row.state == SegOpen
    && row.openedAtMs == Some(now) && row.closedAtMs.None? && row.headHash.None? && row.note.None?
    && (if chain == [] then row.headPrevChain.None? && row.headPrevLength.None?
        else row.headPrevChain == Some(chain[|chain| - 1].hash) && row.headPrevLength == Some(chain[|chain| - 1].id))
  }

  /**
   An open that answers Ok has written one new row and one event that describes it. One that
   does not leaves the chain alone, and the table too unless the undo failed.
   */
  lemma {:induction false} OpenIsExact(c: Codec, s: Store, kind: SegmentKind, owner: Option<string>, io: OpenIo)
    ensures var (t, r) := OpenSegment(c, s, kind, owner, io);
      if r.Ok? then
        var id := r.value.segmentId;
        && Some(id) == FreeSegmentId(s.segments.Keys, owner, io.now) && id in t.segments
        && OneRowMore(s, t) && OnlyRow(s, t, id) && t.segments[id] == r.value
        && FreshlyOpened(s.chain, r.value, id, kind, io.now) && SaysOpened(t.chain[|s.chain|].event, r.value)
      else
        t.chain == s.chain &&
        (t.segments == s.segments ||
         (io.delete.Some? && exists id ::
            id !in s.segments && id in t.segments && OnlyRow(s, t, id) &&
            FreshlyOpened(s.chain, t.segments[id], id, kind, io.now)))
  {
    hide Append, OpenedEvent, SaysOpened, FreeSegmentId;
    var free := FreeSegmentId(s.segments.Keys, owner, io.now);
    if free.Some? {
      var row := OpenedRow(s, free.value, kind, io.now);
      AppendAnswers(c, s.chain, OpenedEvent(io.stamp, row), io.append);
      OpenedReads(io.stamp, row);
      var (t, r) := OpenSegment(c, s, kind, owner, io);
      assert t.segments != s.segments ==>
        OnlyRow(s, t, free.value) && FreshlyOpened(s.chain, t.segments[free.value], free.value, kind, io.now);
    }
  }

  /** An adoption never touches the chain nor a row there is; a new row is closed and holds the anchor reported. */
  lemma AdoptIsExact(s: Store, id: string, prevChain: Option<string>, prevLength: Option<int>, io: AdoptIo)
    ensures var (t, r) := AdoptSegment(s, id, prevChain, prevLength, io);
      if r.Err? || id in s.segments then t == s && (id in s.segments && io.read.None? ==> r.Ok?)
      else
        && t.chain == s.chain && id in t.segments && OnlyRow(s, t, id)
        && var row := t.segments[id];
        && row.segmentId == id && row.kind == Temporary && row.state == SegClosed
        && row.headPrevChain == prevChain && row.headPrevLength == prevLength
        && row.headHash.None? && row.openedAtMs.None? && row.closedAtMs.None?
        && row.note == Some("adopted from another node")
  {
  }

  // ----- Merge ---------------------------------------------------------------------------------------

  predicate IsMergedMarker(e: Event, id: string) {
    e.action == ACTION_SEGMENT_MERGED && GetStr(e.detail, "segment_id") == Some(id)
  }

  predicate MergedAlready(chain: seq<StoredEvent>, id: string) {
    exists i :: 0 <= i < |chain| && IsMergedMarker(chain[i].event, id)
  }

  /** What a segment's event becomes on the main chain. */
  function Outgoing(c: Codec, e: Event): Event { e.(detail := ClearedDetail(ReadBack(c, e.detail))) }

  /** The row holds the act already, as both are read back: same actor, action and cleared detail. */
  predicate Clashes(c: Codec, row: StoredEvent, e: StoredEvent) { Meets(c, row.event, e.event) }

  predicate Meets(c: Codec, written: Event, e: Event) {
    written.actor == e.actor && written.action == e.action &&
    SameDetail(ReadBack(c, written.detail), Outgoing(c, e).detail)
  }

  /** The cleared detail reads back as it was written. */
  predicate ReadsBack(c: Codec, e: Event) {
    SameDetail(ReadBack(c, Outgoing(c, e).detail), Outgoing(c, e).detail)
  }

  /** Two details are the same exactly when they mean the same: member order is no difference, all else is. */
  lemma SameDetailExactly(a: Json, b: Json)
    requires WellFormed(a) && WellFormed(b)
    ensures SameDetail(a, b) <==> Meaning(a) == Meaning(b)
  {
    CanonicalFormDecidesMeaning(a, b);
  }

  /** A row clashes exactly if it is the same act: same actor, same action, and the same detail once cleared. */
  lemma ClashesExactly(c: Codec, row: StoredEvent, e: StoredEvent)
    requires WellFormed(ReadBack(c, row.event.detail)) && WellFormed(Outgoing(c, e.event).detail)
    ensures Clashes(c, row, e) <==>
      && row.event.actor == e.event.actor && row.event.action == e.event.action
      && Meaning(ReadBack(c, row.event.detail)) == Meaning(Outgoing(c, e.event).detail)
  {
    hide Meaning, WellFormed, Outgoing;
    SameDetailExactly(ReadBack(c, row.event.detail), Outgoing(c, e.event).detail);
  }

  function FirstClash(c: Codec, chain: seq<StoredEvent>, e: StoredEvent, k: nat): (r: Option<nat>)
    requires k <= |chain|
    decreases |chain| - k
    ensures r.None? ==> forall j :: k <= j < |chain| ==> !Clashes(c, chain[j], e)
    ensures r.Some? ==> k <= r.value < |chain| && Clashes(c, chain[r.value], e) &&
                        forall j :: k <= j < r.value ==> !Clashes(c, chain[j], e)
  {
    if k == |chain| then None
    else if Clashes(c, chain[k], e) then Some(k)
    else FirstClash(c, chain, e, k + 1)
  }

  ghost predicate OnChain(c: Codec, chain: seq<StoredEvent>, e: StoredEvent) {
    exists k :: 0 <= k < |chain| && Clashes(c, chain[k], e)
  }

  /** Some event of the segment is already on the main chain. */
  ghost predicate Conflicts(c: Codec, chain: seq<StoredEvent>, events: seq<StoredEvent>) {
    exists i :: 0 <= i < |events| && OnChain(c, chain, events[i])
  }

  /** The first event that clashes, with the row it clashes with. */
  function FirstConflict(c: Codec, chain: seq<StoredEvent>, events: seq<StoredEvent>, i: nat): (r: Option<(nat, nat)>)
    requires i <= |events|
    decreases |events| - i
    ensures r.None? ==> forall j :: i <= j < |events| ==> !OnChain(c, chain, events[j])
    ensures r.Some? ==> i <= r.value.0 < |events| && r.value.1 < |chain| &&
                        Clashes(c, chain[r.value.1], events[r.value.0])
    ensures r.Some? ==> forall j :: i <= j < r.value.0 ==> !OnChain(c, chain, events[j])
    ensures r.Some? ==> forall k :: 0 <= k < r.value.1 ==> !Clashes(c, chain[k], events[r.value.0])
  {
    if i == |events| then None
    else match FirstClash(c, chain, events[i], 0)
      case Some(k) => Some((i, k))
      case None => FirstConflict(c, chain, events, i + 1)
  }

  datatype Verdict =
    | Refuse(why: Refusal)
    | Conflict(event: nat, row: nat)
    | Clear

  /** What a merge decides before it writes anything. */
  function Judge(c: Codec, s: Store, id: string, events: seq<StoredEvent>): (v: Verdict)
    ensures !v.Refuse? ==> id in s.segments
    ensures v.Conflict? ==> v.event < |events| && v.row < |s.chain| && Clashes(c, s.chain[v.row], events[v.event])
  {
    if id !in s.segments then Refuse(NoSegment(id))
    else
      var row := s.segments[id];
      if row.kind != Temporary then Refuse(NotTemporary(id))
      else if row.state != SegOpen && row.state != SegClosed then Refuse(NotMergeable(id, row.state.AsStr()))
      else if MergedAlready(s.chain, id) then Refuse(AlreadyMerged(id))
      else if PartialMergeRecorded(row.note) then Refuse(PartialMerge(id, row.note.value))
      else match FirstConflict(c, s.chain, events, 0)
        case Some((i, k)) => Conflict(i, k)
        case None => Clear
  }

  /** `append(k)` is what the database says to the `k`-th append of the call. */
  datatype MergeIo = MergeIo(
    now: int, stamp: int, read: Option<DbError>, append: nat -> Attempts,
    note: Option<DbError>, mark: Option<DbError>)

  function ForkReason(row: StoredEvent): string {
    "conflicts with the main chain at event " + IntText(row.id) + ": " + row.event.actor + " " +
    row.event.action + "; not merged"
  }

  function PartialNote(merged: nat, total: nat, error: AuditError): string {
    PARTIAL_MERGE_PREFIX + (NatText(merged) + " of " + NatText(total) + " events: " + ErrorText(error))
  }

  datatype Transcript = Transcript(chain: seq<StoredEvent>, merged: nat, error: Option<AuditError>)

  /** Append the segment's events from the `i`-th on, stopping at the first failure. */
  function Transcribe(
      c: Codec, chain: seq<StoredEvent>, events: seq<StoredEvent>, i: nat, append: nat -> Attempts): Transcript
    requires i <= |events|
    decreases |events| - i
  {
    if i == |events| then Transcript(chain, i, None)
    else match Append(c, chain, Outgoing(c, events[i].event), append(i))
      case Ok(row) => Transcribe(c, chain + [row], events, i + 1, append)
      case Err(error) => Transcript(chain, i, Some(error))
  }

  function MergeSegment(
      c: Codec, s: Store, id: string, events: seq<StoredEvent>, io: MergeIo)
    : (Store, Result<MergeOutcome, AuditError>)
  {
    if io.read.Some? then (s, Err(Db(io.read.value)))
    else match Judge(c, s, id, events)
      case Refuse(why) => (s, Err(Refused(why)))
      case Conflict(i, k) => Fork(c, s, id, s.chain[k], io)
      case Clear => Fold(c, s, id, events, io)
  }

  /** The chain records the fork first, then the row. */
  function Fork(
      c: Codec, s: Store, id: string, clash: StoredEvent, io: MergeIo): (Store, Result<MergeOutcome, AuditError>)
    requires id in s.segments
  {
    var row := s.segments[id];
    var reason := ForkReason(clash);
    match Append(c, s.chain, ForkedEvent(io.stamp, id, row.kind, io.now, reason, clash.id), io.append(0))
    case Err(error) => (s, Err(error))
    case Ok(e) =>
      var t := s.(chain := s.chain + [e]);
      if io.mark.Some? then (t, Err(Db(io.mark.value)))
      else (t.(segments := s.segments[id := row.(state := SegForked, note := Some(reason))]), Ok(Forked(reason)))
  }

  function Fold(
      c: Codec, s: Store, id: string, events: seq<StoredEvent>, io: MergeIo)
    : (Store, Result<MergeOutcome, AuditError>)
    requires id in s.segments
  {
    var row := s.segments[id];
    var done := Transcribe(c, s.chain, events, 0, io.append);
    var t := s.(chain := done.chain);
    if done.error.Some? then
      // Writing the note may fail too; that failure is ignored.
      var note := PartialNote(done.merged, |events|, done.error.value);
      (if io.note.Some? then t else t.(segments := s.segments[id := row.(note := Some(note))]),
       Err(done.error.value))
    else match Append(c, t.chain, MergedEvent(io.stamp, id, row.kind, io.now, done.merged), io.append(|events|))
      case Err(error) => (t, Err(error))
      case Ok(e) =>
        var u := t.(chain := t.chain + [e]);
        if io.mark.Some? then (u, Err(Db(io.mark.value)))
        else (u.(segments := s.segments[id := row.(state := SegFolded, headHash := LastHash(u.chain))]),
              Ok(Folded(done.merged)))
  }

  // ----- A merge is exact ---------------------------------------------------------------------------------

  /** `rows` are the transcriptions of the first `|rows|` events, in order. */
  ghost predicate Transcribed(c: Codec, rows: seq<StoredEvent>, events: seq<StoredEvent>) {
    |rows| <= |events| &&
    forall j :: 0 <= j < |rows| ==>
      rows[j].event == Outgoing(c, events[j].event) && IsClearedCopy(rows[j].event, Reread(c, events[j].event))
  }

  /** The event as the merge reads it. */
  function Reread(c: Codec, e: Event): Event { e.(detail := ReadBack(c, e.detail)) }

  /** The same event without its mark: every other column and every other member is kept. */
  ghost predicate IsClearedCopy(written: Event, e: Event) {
    && written.timestampMs == e.timestampMs && written.actor == e.actor
    && written.action == e.action && written.agentId == e.agentId
    && Get(written.detail, "provisional").None?
    && (forall k :: k != "provisional" ==> Get(written.detail, k) == Get(e.detail, k))
    && (if e.detail.Object? then written.detail.Object? else written.detail == e.detail)
  }

  /** Clearing takes the mark away and leaves the rest. */
  lemma {:induction false} ClearingTakesTheMark(c: Codec, e: Event)
    ensures IsClearedCopy(Outgoing(c, e), Reread(c, e))
  {
    var detail := ReadBack(c, e.detail);
    if detail.Object? {
      forall k ensures Find(Without(detail.members, PROVISIONAL), k) ==
                       if k == PROVISIONAL then None else Find(detail.members, k) {
        WithoutReads(detail.members, PROVISIONAL, k);
      }
    }
  }

  lemma {:induction false} TranscribeIsExact(
      c: Codec, chain: seq<StoredEvent>, events: seq<StoredEvent>, i: nat, append: nat -> Attempts)
    requires i <= |events|
    ensures var t := Transcribe(c, chain, events, i, append);
      && i <= t.merged <= |events| && (t.error.None? <==> t.merged == |events|)
      && (t.error.Some? ==> !t.error.value.Refused?)
      && chain <= t.chain && |t.chain| == |chain| + (t.merged - i)
      && Transcribed(c, t.chain[|chain|..], events[i..])
    decreases |events| - i
  {
    hide Append, Outgoing;
    if i < |events| {
      var r := Append(c, chain, Outgoing(c, events[i].event), append(i));
      AppendAnswers(c, chain, Outgoing(c, events[i].event), append(i));
      if r.Ok? {
        TranscribeIsExact(c, chain + [r.value], events, i + 1, append);
        TranscribedCons(c, chain, r.value, Transcribe(c, chain, events, i, append).chain, events, i);
      }
    }
  }

  lemma TranscribedCons(
      c: Codec, chain: seq<StoredEvent>, row: StoredEvent, all: seq<StoredEvent>, events: seq<StoredEvent>, i: nat)
    requires i < |events| && row.event == Outgoing(c, events[i].event) && chain + [row] <= all
    requires Transcribed(c, all[|chain| + 1..], events[i + 1..])
    ensures Transcribed(c, all[|chain|..], events[i..])
  {
    ClearingTakesTheMark(c, events[i].event);
    hide Outgoing, IsClearedCopy;
    assert all[|chain|] == row;
    var rows, rest := all[|chain|..], all[|chain| + 1..];
    forall j | 0 <= j < |rows|
      ensures rows[j].event == Outgoing(c, events[i..][j].event)
      ensures IsClearedCopy(rows[j].event, Reread(c, events[i..][j].event))
    {
      assert j > 0 ==> rows[j] == rest[j - 1] && events[i..][j] == events[i + 1..][j - 1];
    }
  }

  lemma {:induction false} TranscribeKeepsWhole(
      c: Codec, chain: seq<StoredEvent>, events: seq<StoredEvent>, i: nat, append: nat -> Attempts)
    requires i <= |events| && Whole(c, chain)
    ensures Whole(c, Transcribe(c, chain, events, i, append).chain)
    decreases |events| - i
  {
    if i < |events| {
      AppendKeepsWhole(c, chain, Outgoing(c, events[i].event), append(i));
      var r := Append(c, chain, Outgoing(c, events[i].event), append(i));
      if r.Ok? {
        TranscribeKeepsWhole(c, chain + [r.value], events, i + 1, append);
      }
    }
  }

  /** Every other segment's row is as it was. */
  predicate OthersKept(s: Store, t: Store, id: string) {
    t.segments.Keys == s.segments.Keys && forall k :: k in s.segments && k != id ==> t.segments[k] == s.segments[k]
  }

  /**
   What each answer of a merge means. Folded: exactly the segment's events, cleared and in
   order, then one marker, and the row points at it. Forked: exactly one marker, and some
   event was on the chain already. An error: nothing, one fork marker, an exact prefix, or
   everything with the row not updated; only a failure inside the loop writes a note.
   */
  ghost predicate MergeMeans(
      c: Codec, s: Store, id: string, events: seq<StoredEvent>, t: Store, r: Result<MergeOutcome, AuditError>)
  {
    && s.chain <= t.chain && OthersKept(s, t, id)
    && AnswerMeans(c, s, id, events, t, t.chain[|s.chain|..], r)
  }

  ghost predicate AnswerMeans(
      c: Codec, s: Store, id: string, events: seq<StoredEvent>, t: Store, added: seq<StoredEvent>,
      r: Result<MergeOutcome, AuditError>)
  {
    match r
    case Ok(Folded(merged)) =>
      && merged == |events| && |added| == merged + 1 && Transcribed(c, added[..merged], events)
      && IsMergedMarker(added[merged].event, id) && CountsEvents(added[merged].event, merged)
      && !Conflicts(c, s.chain, events)
      && id in s.segments && id in t.segments
      && t.segments[id] == s.segments[id].(state := SegFolded, headHash := Some(added[merged].hash))
    case Ok(Forked(reason)) =>
      && |added| == 1 && IsForkMarker(added[0].event, id, reason) && Explains(c, s, events, reason, added[0].event)
      && id in s.segments && id in t.segments
      && t.segments[id] == s.segments[id].(state := SegForked, note := Some(reason))
    case Err(Refused(_)) => t == s
    case Err(error) =>
      if |added| == |events| + 1 && !Conflicts(c, s.chain, events) then
        && Transcribed(c, added[..|events|], events)
        && IsMergedMarker(added[|events|].event, id) && CountsEvents(added[|events|].event, |events|)
        && t.segments == s.segments
      else if Conflicts(c, s.chain, events) then
        && t.segments == s.segments && |added| <= 1
        && (|added| == 1 ==> exists reason ::
              IsForkMarker(added[0].event, id, reason) && Explains(c, s, events, reason, added[0].event))
      else
        Transcribed(c, added, events) &&
        (t.segments == s.segments ||
         (|added| < |events| && OnlyNoted(s, t, id, PartialNote(|added|, |events|, error))))
  }

  /** The row says how far the merge got and why it stopped, and nothing else changed. */
  ghost predicate OnlyNoted(s: Store, t: Store, id: string, note: string) {
    id in s.segments && PartialMergeRecorded(Some(note)) &&
    t.segments == s.segments[id := s.segments[id].(note := Some(note))]
  }

  predicate IsForkMarker(e: Event, id: string, reason: string) {
    e.action == ACTION_SEGMENT_FORKED && GetStr(e.detail, "segment_id") == Some(id) &&
    GetStr(e.detail, "reason") == Some(reason)
  }

  /** Reason and marker name a row of the chain that holds the act of one of the events. */
  ghost predicate Explains(c: Codec, s: Store, events: seq<StoredEvent>, reason: string, marker: Event) {
    exists i, k ::
      0 <= i < |events| && 0 <= k < |s.chain| && Clashes(c, s.chain[k], events[i]) &&
      reason == ForkReason(s.chain[k]) && NamesRow(marker, s.chain[k].id)
  }

  predicate NamesRow(marker: Event, at: int) {
    marker.actor == "host" && Get(marker.detail, "conflicting_event_id") == Some(Number(IntText(at)))
  }

  /** The words of a reason. */
  lemma ForkReasonIsWorded(row: StoredEvent)
    ensures ForkReason(row) ==
      "conflicts with the main chain at event " +
      (IntText(row.id) + (": " + (row.event.actor + (" " + (row.event.action + "; not merged")))))
  {
    hide IntText;
  }

  /** The words of a note. */
  lemma PartialNoteIsWorded(merged: nat, total: nat, error: AuditError)
    ensures PartialNote(merged, total, error) ==
      "merge failed after " + (NatText(merged) + (" of " + (NatText(total) + (" events: " + ErrorText(error)))))
  {
    hide NatText, ErrorText;
  }

  lemma ExplainedIsConflict(c: Codec, s: Store, events: seq<StoredEvent>, reason: string, marker: Event)
    requires Explains(c, s, events, reason, marker)
    ensures Conflicts(c, s.chain, events)
  {
    var i, k :| 0 <= i < |events| && 0 <= k < |s.chain| && Clashes(c, s.chain[k], events[i]);
    assert OnChain(c, s.chain, events[i]);
  }

  lemma ForkMarkerReads(id: string, kind: SegmentKind, now: int, stamp: int, reason: string, at: int)
    ensures IsForkMarker(ForkedEvent(stamp, id, kind, now, reason, at), id, reason)
    ensures NamesRow(ForkedEvent(stamp, id, kind, now, reason, at), at)
  {
    hide Find, IntText;
    var ms := ForkedEvent(stamp, id, kind, now, reason, at).detail.members;
    assert |ms[0].key| == 10 && |ms[1].key| == 4 && |ms[2].key| == 12 && |ms[3].key| == 6 && |ms[4].key| == 20;
    FindFirst(ms, 0);
    FindFirst(ms, 3);
    FindFirst(ms, 4);
  }

  /** The host's own word for how many events were merged. */
  predicate CountsEvents(e: Event, count: nat) {
    e.actor == "host" && Get(e.detail, "event_count") == Some(Number(NatText(count)))
  }

  lemma MarkerReads(id: string, kind: SegmentKind, now: int, stamp: int, count: nat)
    ensures forall k :: IsMergedMarker(MergedEvent(stamp, id, kind, now, count), k) <==> k == id
    ensures CountsEvents(MergedEvent(stamp, id, kind, now, count), count)
  {
    hide Find, IntText, NatText;
    var ms := MergedEvent(stamp, id, kind, now, count).detail.members;
    assert |ms[0].key| == 10 && |ms[1].key| == 4 && |ms[2].key| == 12 && |ms[3].key| == 11;
    FindFirst(ms, 0);
    FindFirst(ms, 3);
  }

  lemma FoldMeans(c: Codec, s: Store, id: string, events: seq<StoredEvent>, io: MergeIo)
    requires id in s.segments && !Conflicts(c, s.chain, events)
    ensures MergeMeans(c, s, id, events, Fold(c, s, id, events, io).0, Fold(c, s, id, events, io).1)
  {
    hide Transcribe, Conflicts, Append, IsMergedMarker, CountsEvents, MergedEvent, Transcribed;
    TranscribeIsExact(c, s.chain, events, 0, io.append);
    assert events[0..] == events;
    var done := Transcribe(c, s.chain, events, 0, io.append);
    if done.error.Some? {
      StoppedMeans(c, s, id, events, done, io);
    } else {
      FoldedMeans(c, s, id, events, done, io);
    }
  }

  lemma StoppedMeans(c: Codec, s: Store, id: string, events: seq<StoredEvent>, done: Transcript, io: MergeIo)
    requires id in s.segments && !Conflicts(c, s.chain, events)
    requires done == Transcribe(c, s.chain, events, 0, io.append) && done.error.Some?
    requires !done.error.value.Refused? && s.chain <= done.chain
    requires |done.chain| - |s.chain| == done.merged < |events| && Transcribed(c, done.chain[|s.chain|..], events)
    ensures MergeMeans(c, s, id, events, Fold(c, s, id, events, io).0, Fold(c, s, id, events, io).1)
  {
    hide Transcribe, Conflicts, Append, MergedEvent, Transcribed, PartialNote, IsMergedMarker, CountsEvents;
    NoteIsPartial(done.merged, |events|, done.error.value);
  }

  lemma FoldedMeans(c: Codec, s: Store, id: string, events: seq<StoredEvent>, done: Transcript, io: MergeIo)
    requires id in s.segments && !Conflicts(c, s.chain, events)
    requires done == Transcribe(c, s.chain, events, 0, io.append) && done.error.None?
    requires done.merged == |events| == |done.chain| - |s.chain| && s.chain <= done.chain
    requires Transcribed(c, done.chain[|s.chain|..], events)
    ensures MergeMeans(c, s, id, events, Fold(c, s, id, events, io).0, Fold(c, s, id, events, io).1)
  {
    hide Transcribe, Conflicts, Append, IsMergedMarker, CountsEvents, MergedEvent, Transcribed;
    var rows := done.chain[|s.chain|..];
    var marker := MergedEvent(io.stamp, id, s.segments[id].kind, io.now, done.merged);
    var r := Append(c, done.chain, marker, io.append(|events|));
    AppendAnswers(c, done.chain, marker, io.append(|events|));
    if r.Ok? {
      MarkerReads(id, s.segments[id].kind, io.now, io.stamp, done.merged);
      var all := done.chain + [r.value];
      assert all[|s.chain|..] == rows + [r.value] && (rows + [r.value])[..|events|] == rows;
    }
  }

  lemma ForkMeans(c: Codec, s: Store, id: string, events: seq<StoredEvent>, i: nat, k: nat, io: MergeIo)
    requires id in s.segments && i < |events| && k < |s.chain| && Clashes(c, s.chain[k], events[i])
    ensures MergeMeans(c, s, id, events, Fork(c, s, id, s.chain[k], io).0, Fork(c, s, id, s.chain[k], io).1)
  {
    hide Conflicts, Clashes, Append, IsForkMarker, NamesRow, ForkedEvent, ForkReason;
    var row, reason := s.segments[id], ForkReason(s.chain[k]);
    var marker := ForkedEvent(io.stamp, id, row.kind, io.now, reason, s.chain[k].id);
    var (t, r) := Fork(c, s, id, s.chain[k], io);
    ForkMarkerReads(id, row.kind, io.now, io.stamp, reason, s.chain[k].id);
    assert Explains(c, s, events, reason, marker);
    ExplainedIsConflict(c, s, events, reason, marker);
    AppendAnswers(c, s.chain, marker, io.append(0));
    assert |t.chain| > |s.chain| ==> t.chain[|s.chain|..] == [t.chain[|s.chain|]];
  }

  /** Why a merge may be refused, each reason with its condition. */
  ghost predicate Refusable(s: Store, id: string, why: Refusal) {
    match why
    case NoSegment(k) => k == id && id !in s.segments
    case NotTemporary(k) => k == id && id in s.segments && s.segments[id].kind == Main
    case NotMergeable(k, word) =>
      && k == id && id in s.segments
      && (if word == "folded" then s.segments[id].state == SegFolded
          else word == "forked" && s.segments[id].state == SegForked)
    case AlreadyMerged(k) => k == id && MergedAlready(s.chain, id)
    case PartialMerge(k, note) =>
      k == id && id in s.segments && s.segments[id].note == Some(note) && "merge failed after " <= note
    case NoFreeId => false
  }

  /**
   The judgement and the conditions it decides. A merge is refused exactly when some reason
   holds, and gives one that does; otherwise it is a conflict exactly when some act is on the
   chain already, and names the first event that is, with the first row that holds it.
   */
  lemma JudgeIsExact(c: Codec, s: Store, id: string, events: seq<StoredEvent>)
    ensures var v := Judge(c, s, id, events);
      && (v.Refuse? <==> exists why :: Refusable(s, id, why)) && (v.Refuse? ==> Refusable(s, id, v.why))
      && (!v.Refuse? ==> (v.Conflict? <==> Conflicts(c, s.chain, events)) && !MergedAlready(s.chain, id))
      && (v.Conflict? ==>
            && (forall i :: 0 <= i < v.event ==> !OnChain(c, s.chain, events[i]))
            && (forall k :: 0 <= k < v.row ==> !Clashes(c, s.chain[k], events[v.event])))
  {
    hide MergedAlready, Clashes;
    ConflictIsFound(c, s.chain, events);
    var v := Judge(c, s, id, events);
    if v.Refuse? {
      assert Refusable(s, id, v.why);
    }
  }

  /** Whatever the database answers, a merge means what it says and keeps the chain whole. */
  lemma {:induction false} MergeIsExact(c: Codec, s: Store, id: string, events: seq<StoredEvent>, io: MergeIo)
    ensures var (t, r) := MergeSegment(c, s, id, events, io);
      MergeMeans(c, s, id, events, t, r) && (Whole(c, s.chain) ==> Whole(c, t.chain))
  {
    hide Judge, Fork, Fold, Whole;
    JudgeIsExact(c, s, id, events);
    match Judge(c, s, id, events)
    case Refuse(_) =>
    case Conflict(i, k) =>
      ForkMeans(c, s, id, events, i, k, io);
      ForkKeepsWhole(c, s, id, s.chain[k], io);
    case Clear =>
      FoldMeans(c, s, id, events, io);
      FoldKeepsWhole(c, s, id, events, io);
  }

  lemma ForkKeepsWhole(c: Codec, s: Store, id: string, clash: StoredEvent, io: MergeIo)
    requires id in s.segments
    ensures Whole(c, s.chain) ==> Whole(c, Fork(c, s, id, clash, io).0.chain)
  {
    if Whole(c, s.chain) {
      AppendKeepsWhole(c, s.chain,
        ForkedEvent(io.stamp, id, s.segments[id].kind, io.now, ForkReason(clash), clash.id), io.append(0));
    }
  }

  lemma FoldKeepsWhole(c: Codec, s: Store, id: string, events: seq<StoredEvent>, io: MergeIo)
    requires id in s.segments
    ensures Whole(c, s.chain) ==> Whole(c, Fold(c, s, id, events, io).0.chain)
  {
    if Whole(c, s.chain) {
      hide Whole;
      var done := Transcribe(c, s.chain, events, 0, io.append);
      TranscribeKeepsWhole(c, s.chain, events, 0, io.append);
      AppendKeepsWhole(c, done.chain,
        MergedEvent(io.stamp, id, s.segments[id].kind, io.now, done.merged), io.append(|events|));
    }
  }

  // ----- Retrying a failed merge --------------------------------------------------------------------------

  /** One of the first `n` events, once transcribed, is itself a marker that the segment was merged. */
  ghost predicate ForgesMarker(c: Codec, events: seq<StoredEvent>, n: nat, id: string) {
    exists j :: 0 <= j < n && j < |events| && IsMergedMarker(Outgoing(c, events[j].event), id)
  }

  /** One of the first `n` events, once transcribed, holds the act of some event of the segment. */
  ghost predicate MeetsItself(c: Codec, events: seq<StoredEvent>, n: nat) {
    exists j, i ::
      0 <= j < n && j < |events| && 0 <= i < |events| && Meets(c, Outgoing(c, events[j].event), events[i].event)
  }

  /** It does as soon as one of them reads back as it was written. */
  lemma ReadingBackMeets(c: Codec, events: seq<StoredEvent>, n: nat, j: nat)
    requires j < n <= |events| && ReadsBack(c, events[j].event)
    ensures MeetsItself(c, events, n)
  {
    assert Meets(c, Outgoing(c, events[j].event), events[j].event);
  }

  lemma ConflictIsFound(c: Codec, chain: seq<StoredEvent>, events: seq<StoredEvent>)
    ensures FirstConflict(c, chain, events, 0).Some? <==> Conflicts(c, chain, events)
  {
    var r := FirstConflict(c, chain, events, 0);
    if r.Some? {
      assert OnChain(c, chain, events[r.value.0]);
    }
  }

  lemma MergedByOwnRows(
      c: Codec, chain: seq<StoredEvent>, rows: seq<StoredEvent>, events: seq<StoredEvent>, id: string)
    requires !MergedAlready(chain, id) && Transcribed(c, rows, events)
    ensures MergedAlready(chain + rows, id) <==> ForgesMarker(c, events, |rows|, id)
  {
    hide IsMergedMarker, Outgoing, IsClearedCopy;
    var all := chain + rows;
    forall i | |chain| <= i < |all| ensures all[i].event == Outgoing(c, events[i - |chain|].event) {
      assert all[i] == rows[i - |chain|];
    }
    if ForgesMarker(c, events, |rows|, id) {
      var j :| 0 <= j < |rows| && IsMergedMarker(Outgoing(c, events[j].event), id);
      assert IsMergedMarker(all[|chain| + j].event, id);
    }
  }

  /** What clashes after transcribing is one of the new rows, and only what meets itself clashes. */
  lemma OwnRowsConflict(c: Codec, chain: seq<StoredEvent>, rows: seq<StoredEvent>, events: seq<StoredEvent>)
    requires !Conflicts(c, chain, events) && Transcribed(c, rows, events)
    ensures var r := FirstConflict(c, chain + rows, events, 0);
      && (r.Some? <==> MeetsItself(c, events, |rows|))
      && (r.Some? ==> r.value.1 >= |chain|)
  {
    hide Outgoing, Meets, FirstConflict, IsClearedCopy;
    assert forall j :: 0 <= j < |rows| ==> rows[j].event == Outgoing(c, events[j].event);
    hide Transcribed;
    var all := chain + rows;
    ConflictIsFound(c, all, events);
    var r := FirstConflict(c, all, events, 0);
    if r.Some? {
      var (i, k) := r.value;
      assert Meets(c, rows[k - |chain|].event, events[i].event);
    }
    if MeetsItself(c, events, |rows|) {
      var j, i :| 0 <= j < |rows| && 0 <= i < |events| && Meets(c, Outgoing(c, events[j].event), events[i].event);
      assert Clashes(c, all[|chain| + j], events[i]);
      assert OnChain(c, all, events[i]);
    }
  }

  /** What a merge that found no conflict and then failed, `written` rows in, is judged to be when tried again. */
  ghost predicate JudgedAfterFold(
      c: Codec, s: Store, id: string, events: seq<StoredEvent>, io: MergeIo, written: nat, again: Verdict)
  {
    if written == |events| + 1 || ForgesMarker(c, events, written, id) then again == Refuse(AlreadyMerged(id))
    else if written < |events| && io.note.None? then again.Refuse? && again.why.PartialMerge?
    else if MeetsItself(c, events, written) then again.Conflict? && again.row >= |s.chain|
    else again.Clear?
  }

  /** What such a merge leaves: the transcript, then a note on the row or the marker, if anything. */
  lemma FoldLeaves(c: Codec, s: Store, id: string, events: seq<StoredEvent>, io: MergeIo)
    requires io.read.None? && Judge(c, s, id, events).Clear?
    requires MergeSegment(c, s, id, events, io).1.Err?
    ensures var done := Transcribe(c, s.chain, events, 0, io.append);
      var t := MergeSegment(c, s, id, events, io).0;
      if done.error.Some? && io.note.None? then
        t == Noted(s, id, done.chain, PartialNote(done.merged, |events|, done.error.value))
      else
        t.segments == s.segments &&
        (t.chain == done.chain ||
         (done.error.None? &&
          exists row: StoredEvent :: IsMergedMarker(row.event, id) && t.chain == done.chain + [row]))
  {
    hide Judge, Append, Transcribe, IsMergedMarker, MergedEvent, PartialNote;
    var done := Transcribe(c, s.chain, events, 0, io.append);
    var marker := MergedEvent(io.stamp, id, s.segments[id].kind, io.now, done.merged);
    AppendAnswers(c, done.chain, marker, io.append(|events|));
    MarkerReads(id, s.segments[id].kind, io.now, io.stamp, done.merged);
  }

  function Noted(s: Store, id: string, chain: seq<StoredEvent>, note: string): Store
    requires id in s.segments
  {
    Store(chain, s.segments[id := s.segments[id].(note := Some(note))])
  }

  /** The checks in order, once the chain has grown. */
  lemma JudgedLater(c: Codec, s: Store, id: string, events: seq<StoredEvent>, chain: seq<StoredEvent>, note: string)
    requires Judge(c, s, id, events).Clear? && PartialMergeRecorded(Some(note))
    ensures var v := Judge(c, Store(chain, s.segments), id, events);
      if MergedAlready(chain, id) then v == Refuse(AlreadyMerged(id))
      else match FirstConflict(c, chain, events, 0)
        case Some((i, k)) => v == Conflict(i, k)
        case None => v.Clear?
    ensures var v := Judge(c, Noted(s, id, chain, note), id, events);
      if MergedAlready(chain, id) then v == Refuse(AlreadyMerged(id)) else v.Refuse? && v.why.PartialMerge?
  {
    ClearNote(c, s, id, events);
    hide MergedAlready, FirstConflict, PartialMergeRecorded;
  }

  lemma TranscriptRows(c: Codec, chain: seq<StoredEvent>, events: seq<StoredEvent>, append: nat -> Attempts)
      returns (rows: seq<StoredEvent>)
    ensures var done := Transcribe(c, chain, events, 0, append);
      && done.chain == chain + rows && |rows| == done.merged <= |events|
      && (done.error.None? <==> done.merged == |events|) && Transcribed(c, rows, events)
  {
    hide Transcribe, Transcribed;
    TranscribeIsExact(c, chain, events, 0, append);
    assert events[0..] == events;
    rows := Transcribe(c, chain, events, 0, append).chain[|chain|..];
  }

  /** What the transcript alone says to a merge tried again. */
  lemma TranscriptJudged(c: Codec, s: Store, id: string, events: seq<StoredEvent>, append: nat -> Attempts)
    requires Judge(c, s, id, events).Clear?
    ensures var done := Transcribe(c, s.chain, events, 0, append);
      var r := FirstConflict(c, done.chain, events, 0);
      && done.merged <= |events| && (done.error.None? <==> done.merged == |events|)
      && |done.chain| == |s.chain| + done.merged
      && (MergedAlready(done.chain, id) <==> ForgesMarker(c, events, done.merged, id))
      && (r.Some? <==> MeetsItself(c, events, done.merged)) && (r.Some? ==> r.value.1 >= |s.chain|)
  {
    JudgeIsExact(c, s, id, events);
    var rows := TranscriptRows(c, s.chain, events, append);
    hide Judge, Conflicts, FirstConflict, ForgesMarker, MergedAlready, Transcribe, MeetsItself, Transcribed;
    MergedByOwnRows(c, s.chain, rows, events, id);
    OwnRowsConflict(c, s.chain, rows, events);
  }

  lemma RetryAfterFold(c: Codec, s: Store, id: string, events: seq<StoredEvent>, io: MergeIo)
    requires io.read.None? && Judge(c, s, id, events).Clear?
    requires MergeSegment(c, s, id, events, io).1.Err?
    ensures var t := MergeSegment(c, s, id, events, io).0;
      JudgedAfterFold(c, s, id, events, io, Added(s, t), Judge(c, t, id, events))
  {
    FoldLeaves(c, s, id, events, io);
    TranscriptJudged(c, s, id, events, io.append);
    hide Judge, MergeSegment, Append, IsMergedMarker, FirstConflict, ForgesMarker, MergedAlready, Transcribe,
      MeetsItself, PartialNote;
    var done := Transcribe(c, s.chain, events, 0, io.append);
    var t := MergeSegment(c, s, id, events, io).0;
    if done.error.Some? {
      var note := PartialNote(done.merged, |events|, done.error.value);
      NoteIsPartial(done.merged, |events|, done.error.value);
      JudgedLater(c, s, id, events, done.chain, note);
      assert io.note.Some? ==> t == Store(done.chain, s.segments);
    } else {
      JudgedLater(c, s, id, events, t.chain, PARTIAL_MERGE_PREFIX);
      assert t == Store(t.chain, s.segments);
      if t.chain != done.chain {
        var row: StoredEvent :| IsMergedMarker(row.event, id) && t.chain == done.chain + [row];
        MarkerIsSeen(done.chain, row, id);
      }
    }
  }

  lemma NoteIsPartial(merged: nat, total: nat, error: AuditError)
    ensures PartialMergeRecorded(Some(PartialNote(merged, total, error)))
  {
    assert PARTIAL_MERGE_PREFIX <= PartialNote(merged, total, error);
  }

  lemma RetryAfterFork(c: Codec, s: Store, id: string, events: seq<StoredEvent>, io: MergeIo)
    requires io.read.None? && Judge(c, s, id, events).Conflict?
    requires MergeSegment(c, s, id, events, io).1.Err?
    ensures var t := MergeSegment(c, s, id, events, io).0;
      t.segments == s.segments && Added(s, t) <= 1 && Judge(c, t, id, events).Conflict?
  {
    var v := Judge(c, s, id, events);
    var clash := s.chain[v.row];
    var row := s.segments[id];
    var marker := ForkedEvent(io.stamp, id, row.kind, io.now, ForkReason(clash), clash.id);
    AppendAnswers(c, s.chain, marker, io.append(0));
    assert !IsMergedMarker(marker, id) && marker.action == ACTION_SEGMENT_FORKED;
    var t := MergeSegment(c, s, id, events, io).0;
    assert s.chain <= t.chain;
    hide Append, ForkedEvent, ForkReason, Clashes, IsMergedMarker;
    assert OnChain(c, t.chain, events[v.event]) by {
      assert Clashes(c, t.chain[v.row], events[v.event]);
    }
    ConflictIsFound(c, t.chain, events);
  }

  /**
   A failed merge is answered, when tried again, by what the failure left. Before anything was
   written: the same. A fork whose marker or row update failed: a conflict still. Otherwise:
   refused as merged when only the row update was missing (or an event imitates the marker),
   refused as partial when the loop failed and the note was written, even if nothing had been
   transcribed, and called a conflict exactly when its own transcribed events meet it again,
   as any that reads back as it was written does.
   */
  lemma {:induction false} RetryAfterFailure(c: Codec, s: Store, id: string, events: seq<StoredEvent>, io: MergeIo)
    requires MergeSegment(c, s, id, events, io).1.Err?
    ensures var t := MergeSegment(c, s, id, events, io).0;
      var v, again := Judge(c, s, id, events), Judge(c, t, id, events);
      if io.read.Some? || v.Refuse? then t == s
      else if v.Conflict? then t.segments == s.segments && Added(s, t) <= 1 && again.Conflict?
      else JudgedAfterFold(c, s, id, events, io, Added(s, t), again)
  {
    if io.read.None? {
      match Judge(c, s, id, events)
      case Refuse(_) =>
      case Conflict(_, _) => RetryAfterFork(c, s, id, events, io);
      case Clear => RetryAfterFold(c, s, id, events, io);
    }
  }

  /** A fork whose row update failed is marked on the chain once more when it is tried again. */
  lemma {:induction false} ForkIsMarkedAgain(
      c: Codec, s: Store, id: string, events: seq<StoredEvent>, io: MergeIo, io2: MergeIo)
    requires io.read.None? && Judge(c, s, id, events).Conflict?
    requires MergeSegment(c, s, id, events, io).1.Err?
    requires MergeSegment(c, MergeSegment(c, s, id, events, io).0, id, events, io2).1.Ok?
    ensures var t := MergeSegment(c, s, id, events, io).0;
      var (u, r) := MergeSegment(c, t, id, events, io2);
      r.value.Forked? && Added(t, u) == 1 && IsForkMarker(u.chain[|t.chain|].event, id, r.value.reason)
  {
    RetryAfterFork(c, s, id, events, io);
    var t := MergeSegment(c, s, id, events, io).0;
    MergeIsExact(c, t, id, events, io2);
    JudgeIsExact(c, t, id, events);
    hide MergeSegment, Conflicts, Explains, IsForkMarker, Judge, Whole;
    var (u, r) := MergeSegment(c, t, id, events, io2);
    assert u.chain[|t.chain|..] != [] ==> u.chain[|t.chain|..][0] == u.chain[|t.chain|];
  }

  // ----- Writing an event twice -----------------------------------------------------------------------------

  /** The merge from `s` to `t` transcribed the segment's first event. */
  ghost predicate WritesFirst(c: Codec, s: Store, id: string, events: seq<StoredEvent>, t: Store) {
    && events != [] && Judge(c, s, id, events).Clear? && s.chain < t.chain
    && t.chain[|s.chain|].event == Outgoing(c, events[0].event)
  }

  /** The database lets the append through, and the row's hash is new. */
  predicate GoesThrough(c: Codec, chain: seq<StoredEvent>, e: Event, io: Attempts) {
    Append(c, chain, e, io) == Ok(NextStored(c, chain, e))
  }

  lemma TranscriptFirst(c: Codec, s: Store, id: string, events: seq<StoredEvent>, io: MergeIo)
    requires Judge(c, s, id, events).Clear?
    ensures var done := Transcribe(c, s.chain, events, 0, io.append);
      var t := MergeSegment(c, s, id, events, io).0;
      if io.read.Some? then t == s
      else done.chain <= t.chain && (done.error.Some? ==> t.chain == done.chain)
  {
    hide Transcribe, Append, MergedEvent, Judge, ErrorText, PartialNote;
  }

  lemma FirstRowIsWritten(c: Codec, s: Store, id: string, events: seq<StoredEvent>, io: MergeIo)
    requires io.read.None? && events != [] && Judge(c, s, id, events).Clear?
    requires GoesThrough(c, s.chain, Outgoing(c, events[0].event), io.append(0))
    ensures WritesFirst(c, s, id, events, MergeSegment(c, s, id, events, io).0)
  {
    hide Append, Judge, Outgoing, MergeSegment;
    var row := NextStored(c, s.chain, Outgoing(c, events[0].event));
    TranscriptFirst(c, s, id, events, io);
    TranscribeIsExact(c, s.chain + [row], events, 1, io.append);
    var done := Transcribe(c, s.chain, events, 0, io.append);
    var t := MergeSegment(c, s, id, events, io).0;
    assert done == Transcribe(c, s.chain + [row], events, 1, io.append);
    hide Transcribe;
    assert s.chain + [row] <= done.chain <= t.chain;
    assert t.chain[|s.chain|] == (s.chain + [row])[|s.chain|];
  }

  /** The first append of a merge goes through, and neither the next nor the note does. */
  lemma OnlyFirstIsWritten(c: Codec, s: Store, id: string, events: seq<StoredEvent>, io: MergeIo)
    requires io.read.None? && events != [] && Judge(c, s, id, events).Clear?
    requires GoesThrough(c, s.chain, Outgoing(c, events[0].event), io.append(0))
    requires Exhausted(io.append(1), 1, APPEND_MAX_ATTEMPTS).Some? && io.note.Some?
    ensures var (t, r) := MergeSegment(c, s, id, events, io);
      r.Err? && t == s.(chain := s.chain + [NextStored(c, s.chain, Outgoing(c, events[0].event))])
  {
    var row := NextStored(c, s.chain, Outgoing(c, events[0].event));
    var chain := s.chain + [row];
    assert forall e :: Append(c, chain, e, io.append(1)).Err?;
    hide Append, MergedEvent, Judge, Outgoing, NextStored, ErrorText, PartialNote;
    assert Transcribe(c, s.chain, events, 0, io.append) == Transcribe(c, chain, events, 1, io.append);
    assert Transcribe(c, chain, events, 1, io.append).chain == chain;
  }

  /**
   When the first append of a merge goes through and neither the next nor the note does, the
   merge tried again writes the first event a second time exactly when its transcription meets
   no event of the segment and is no merged marker. If it meets one, it is a conflict.
   */
  lemma {:induction false} RetryWritesTwiceExactly(
      c: Codec, s: Store, id: string, events: seq<StoredEvent>, io: MergeIo, io2: MergeIo)
    requires io.read.None? && io2.read.None? && events != [] && Judge(c, s, id, events).Clear?
    requires GoesThrough(c, s.chain, Outgoing(c, events[0].event), io.append(0))
    requires Exhausted(io.append(1), 1, APPEND_MAX_ATTEMPTS).Some? && io.note.Some?
    requires GoesThrough(c, s.chain + [NextStored(c, s.chain, Outgoing(c, events[0].event))],
                         Outgoing(c, events[0].event), io2.append(0))
    ensures var t := MergeSegment(c, s, id, events, io).0;
      var u := MergeSegment(c, t, id, events, io2).0;
      && WritesFirst(c, s, id, events, t)
      && (WritesFirst(c, t, id, events, u) <==> !MeetsItself(c, events, 1) && !ForgesMarker(c, events, 1, id))
      && (MeetsItself(c, events, 1) && !ForgesMarker(c, events, 1, id) ==> Judge(c, t, id, events).Conflict?)
  {
    OnlyFirstIsWritten(c, s, id, events, io);
    FirstRowIsWritten(c, s, id, events, io);
    RetryAfterFold(c, s, id, events, io);
    hide MergeSegment, Judge, GoesThrough, MeetsItself, ForgesMarker, Outgoing, NextStored, Exhausted;
    var t := MergeSegment(c, s, id, events, io).0;
    if Judge(c, t, id, events).Clear? {
      FirstRowIsWritten(c, t, id, events, io2);
    }
  }

  lemma MoreMeet(c: Codec, events: seq<StoredEvent>, id: string, n: nat)
    requires n >= 1
    ensures MeetsItself(c, events, 1) ==> MeetsItself(c, events, n)
    ensures ForgesMarker(c, events, 1, id) ==> ForgesMarker(c, events, n, id)
  {
    hide Meets, Outgoing, IsMergedMarker;
  }

  /**
   When its transcription does meet one, no retry of a merge that failed after it, whatever
   fails and however, transcribes anything again: it adds at most a fork marker.
   */
  lemma {:induction false} MetIsNeverWrittenAgain(
      c: Codec, s: Store, id: string, events: seq<StoredEvent>, io: MergeIo, io2: MergeIo)
    requires Judge(c, s, id, events).Clear? && MergeSegment(c, s, id, events, io).1.Err?
    requires Added(s, MergeSegment(c, s, id, events, io).0) >= 1
    requires MeetsItself(c, events, 1) || ForgesMarker(c, events, 1, id)
    ensures var t := MergeSegment(c, s, id, events, io).0;
      var u := MergeSegment(c, t, id, events, io2).0;
      && !Judge(c, t, id, events).Clear? && Added(t, u) <= 1
      && (Added(t, u) == 1 ==> exists reason :: IsForkMarker(u.chain[|t.chain|].event, id, reason))
  {
    var t := MergeSegment(c, s, id, events, io).0;
    RetryAfterFailure(c, s, id, events, io);
    MoreMeet(c, events, id, Added(s, t));
    hide Judge, MeetsItself, ForgesMarker;
    NotClearTranscribesNothing(c, t, id, events, io2);
  }

  lemma NotClearTranscribesNothing(c: Codec, s: Store, id: string, events: seq<StoredEvent>, io: MergeIo)
    requires !Judge(c, s, id, events).Clear?
    ensures var t := MergeSegment(c, s, id, events, io).0;
      && Added(s, t) <= 1
      && (Added(s, t) == 1 ==> exists reason :: IsForkMarker(t.chain[|s.chain|].event, id, reason))
  {
    MergeIsExact(c, s, id, events, io);
    JudgeIsExact(c, s, id, events);
    hide Conflicts, Explains, IsForkMarker, Judge, Whole, Fork, Fold;
    var t := MergeSegment(c, s, id, events, io).0;
    assert t.chain[|s.chain|..] != [] ==> t.chain[|s.chain|..][0] == t.chain[|s.chain|];
  }

  lemma ClearNote(c: Codec, s: Store, id: string, events: seq<StoredEvent>)
    requires Judge(c, s, id, events).Clear?
    ensures id in s.segments && s.segments[id].kind == Temporary && !PartialMergeRecorded(s.segments[id].note)
    ensures s.segments[id].state == SegOpen || s.segments[id].state == SegClosed
  {
  }

  lemma MarkerIsSeen(chain: seq<StoredEvent>, row: StoredEvent, id: string)
    requires IsMergedMarker(row.event, id)
    ensures MergedAlready(chain + [row], id)
  {
    assert (chain + [row])[|chain|] == row;
  }
}
