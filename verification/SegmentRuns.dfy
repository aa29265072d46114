/**
 Whole runs of the segment operations (`audit/src/store.rs`): any sequence of opens,
 closes, adoptions, merges, appends to the main chain and deliveries into segment files,
 with any fallible step failing. One caller at a time holds the store.
 */
module SegmentRuns {
  import opened Wrappers
  import opened Json
  import opened Chain
  import opened Ledger
  import opened SegmentIds
  import opened Segments

  /** Where a row of the main chain came from. */
  datatype Origin = Native | FromSegment(id: string, index: nat)

  /** How a row of the `segments` table came to be; `Stray` is an open that could not be undone. */
  datatype Birth = Opened(at: nat) | Adopted | Stray

  datatype Answer = Answer(id: string, result: Result<MergeOutcome, AuditError>)

  /** The store and the segment files, with a record of what happened. */
  datatype World = World(
    store: Store, files: map<string, seq<StoredEvent>>,
    origins: seq<Origin>, births: map<string, Birth>, answers: seq<Answer>)

  datatype Op =
    | Open(kind: SegmentKind, owner: Option<string>, openIo: OpenIo)
    | Close(id: string, closeIo: CloseIo)
    | Adopt(id: string, prevChain: Option<string>, prevLength: Option<int>, adoptIo: AdoptIo)
    | Merge(id: string, mergeIo: MergeIo)
    | AppendMain(event: Event, attempts: Attempts)
    | Deliver(id: string, event: Event, attempts: Attempts)   // an append to the segment's own file

  /** A file that does not exist yet is created empty by whoever opens it. */
  function FileOf(w: World, id: string): seq<StoredEvent> {
    if id in w.files then w.files[id] else []
  }

  /** New rows: transcriptions first when the merge went ahead, then markers. */
  function NewOrigins(v: Verdict, id: string, total: nat, added: nat): (os: seq<Origin>)
    ensures |os| == added
    ensures forall j :: 0 <= j < added ==> os[j] == if v.Clear? && j < total then FromSegment(id, j) else Native
  {
    seq(added, j requires 0 <= j < added => if v.Clear? && j < total then FromSegment(id, j) else Native)
  }

  function Natives(n: nat): (os: seq<Origin>)
    ensures |os| == n && forall j :: 0 <= j < n ==> os[j].Native?
  {
    seq(n, j => Native)
  }

  /** The world after an operation that transcribes nothing left the store as `t`. */
  function Settled(w: World, t: Store): World {
    w.(store := t, origins := w.origins + Natives(Added(w.store, t)))
  }

  function BornFrom(w: World, owner: Option<string>, io: OpenIo, t: Store, ok: bool): map<string, Birth> {
    match FreeSegmentId(w.store.segments.Keys, owner, io.now)
    case Some(id) =>
      if id in t.segments then w.births[id := if ok then Opened(|w.store.chain|) else Stray] else w.births
    case None => w.births
  }

  function Apply(c: Codec, w: World, op: Op): World {
    match op
    case Open(kind, owner, io) =>
      var (t, r) := OpenSegment(c, w.store, kind, owner, io);
      Settled(w, t).(births := BornFrom(w, owner, io, t, r.Ok?))
    case Close(id, io) => Settled(w, CloseSegment(c, w.store, id, io).0)
    case Adopt(id, prevChain, prevLength, io) =>
      var (t, _) := AdoptSegment(w.store, id, prevChain, prevLength, io);
      Settled(w, t).(births := if id in t.segments && id !in w.births then w.births[id := Adopted] else w.births)
    case Merge(id, io) =>
      var events := FileOf(w, id);
      var (t, r) := MergeSegment(c, w.store, id, events, io);
      w.(store := t,
         origins := w.origins + NewOrigins(Judge(c, w.store, id, events), id, |events|, Added(w.store, t)),
         answers := w.answers + [Answer(id, r)])
    case AppendMain(e, attempts) =>
      Settled(w, w.store.(chain := After(w.store.chain, Append(c, w.store.chain, e, attempts))))
    case Deliver(id, e, attempts) =>
      w.(files := w.files[id := After(FileOf(w, id), Append(c, FileOf(w, id), e, attempts))])
  }

  const EMPTY := World(Store([], map[]), map[], [], map[], [])

  /** A run from the beginning: the worlds before, between and after its operations. */
  ghost predicate History(c: Codec, worlds: seq<World>, ops: seq<Op>) {
    && |worlds| == |ops| + 1 && worlds[0] == EMPTY
    && forall k :: 0 <= k < |ops| ==> worlds[k + 1] == Apply(c, worlds[k], ops[k])
  }

  // ----- What every operation keeps ------------------------------------------------------------------

  ghost predicate AllWhole(c: Codec, w: World) {
    Whole(c, w.store.chain) && forall id :: Whole(c, FileOf(w, id))
  }

  /** A transcribed row is the cleared form of the event it names. */
  ghost predicate OriginOk(c: Codec, w: World, p: nat)
    requires p < |w.origins| && p < |w.store.chain|
  {
    w.origins[p].FromSegment? ==>
      w.origins[p].index < |FileOf(w, w.origins[p].id)| &&
      w.store.chain[p].event == Outgoing(c, FileOf(w, w.origins[p].id)[w.origins[p].index].event)
  }

  /** Some event of the segment stands on the main chain twice. */
  predicate HoldsTwice(origins: seq<Origin>, id: string) {
    exists p, q :: 0 <= p < q < |origins| && FromIt(origins[p], id) && origins[p] == origins[q]
  }

  predicate FromIt(o: Origin, id: string) { o.FromSegment? && o.id == id }

  /** The segment's first event has been transcribed. */
  predicate Begun(origins: seq<Origin>, id: string) {
    exists p :: 0 <= p < |origins| && origins[p] == FromSegment(id, 0)
  }

  /** Transcription starts with the first event. */
  predicate AllBegun(origins: seq<Origin>) {
    forall p :: 0 <= p < |origins| && origins[p].FromSegment? ==> Begun(origins, origins[p].id)
  }

  predicate AnsweredFolded(a: Answer) { a.result.Ok? && a.result.value.Folded? }

  predicate AnsweredForked(a: Answer) { a.result.Ok? && a.result.value.Forked? }

  /** The evidence an answer leaves on the chain. */
  ghost predicate AnswerOk(c: Codec, w: World, a: Answer) {
    && (AnsweredFolded(a) ==> MergedAlready(w.store.chain, a.id))
    && (AnsweredForked(a) ==> Conflicts(c, w.store.chain, FileOf(w, a.id)))
  }

  /** Once folded, every later merge is refused; once forked, none ever folds. */
  predicate AnswersInOrder(answers: seq<Answer>) {
    forall j, k :: 0 <= j < k < |answers| && answers[j].id == answers[k].id ==>
      (AnsweredFolded(answers[j]) ==> answers[k].result.Err?) &&
      (AnsweredForked(answers[j]) ==> !AnsweredFolded(answers[k]))
  }

  predicate IsOpeningOf(e: Event, id: string) {
    e.action == ACTION_SEGMENT_OPENED && GetStr(e.detail, "segment_id") == Some(id)
  }

  /** The row's anchor names the row just before its opening event, which is on the chain. */
  ghost predicate Anchored(s: Store, row: Segment, at: nat) {
    && at < |s.chain| && IsOpeningOf(s.chain[at].event, row.segmentId)
    && row.headPrevChain == LastHash(s.chain[..at]) && row.headPrevLength == LastId(s.chain[..at])
  }

  ghost predicate BirthOk(w: World, id: string)
    requires id in w.births && id in w.store.segments
  {
    var row := w.store.segments[id];
    && row.segmentId == id
    && (w.births[id].Opened? ==> Anchored(w.store, row, w.births[id].at))
    && (w.births[id].Adopted? <==> row.openedAtMs.None?)
  }

  ghost predicate Inv(c: Codec, w: World) {
    && AllWhole(c, w) && |w.origins| == |w.store.chain|
    && (forall p :: 0 <= p < |w.origins| ==> OriginOk(c, w, p))
    && AllBegun(w.origins)
    && (forall k :: 0 <= k < |w.answers| ==> AnswerOk(c, w, w.answers[k]))
    && AnswersInOrder(w.answers)
    && BirthsOk(w)
  }

  ghost predicate BirthsOk(w: World) {
    w.births.Keys == w.store.segments.Keys && forall id :: id in w.births ==> BirthOk(w, id)
  }

  /** Chain and files are only ever appended to. */
  ghost predicate Grows(w: World, v: World) {
    w.store.chain <= v.store.chain && forall id :: FileOf(w, id) <= FileOf(v, id)
  }

  // ----- Evidence survives growth ------------------------------------------------------------------------

  lemma MergedStays(chain: seq<StoredEvent>, longer: seq<StoredEvent>, id: string)
    requires chain <= longer && MergedAlready(chain, id)
    ensures MergedAlready(longer, id)
  {
    var i :| 0 <= i < |chain| && IsMergedMarker(chain[i].event, id);
    assert IsMergedMarker(longer[i].event, id);
  }

  lemma ConflictStays(
      c: Codec, chain: seq<StoredEvent>, longer: seq<StoredEvent>, events: seq<StoredEvent>, more: seq<StoredEvent>)
    requires chain <= longer && events <= more && Conflicts(c, chain, events)
    ensures Conflicts(c, longer, more)
  {
    var i :| 0 <= i < |events| && OnChain(c, chain, events[i]);
    var k :| 0 <= k < |chain| && Clashes(c, chain[k], events[i]);
    assert Clashes(c, longer[k], more[i]);
    assert OnChain(c, longer, more[i]);
  }

  lemma AnswerStays(c: Codec, w: World, v: World, a: Answer)
    requires Grows(w, v) && AnswerOk(c, w, a)
    ensures AnswerOk(c, v, a)
  {
    if AnsweredFolded(a) {
      MergedStays(w.store.chain, v.store.chain, a.id);
    }
    if AnsweredForked(a) {
      ConflictStays(c, w.store.chain, v.store.chain, FileOf(w, a.id), FileOf(v, a.id));
    }
  }

  lemma AnchorStays(s: Store, t: Store, row: Segment, row': Segment, at: nat)
    requires s.chain <= t.chain && Anchored(s, row, at)
    requires row'.segmentId == row.segmentId
    requires row'.headPrevChain == row.headPrevChain && row'.headPrevLength == row.headPrevLength
    ensures Anchored(t, row', at)
  {
    assert t.chain[..at] == s.chain[..at];
  }

  /** The columns no operation changes once a row exists. */
  predicate SameAnchor(a: Segment, b: Segment) {
    a.segmentId == b.segmentId && a.headPrevChain == b.headPrevChain &&
    a.headPrevLength == b.headPrevLength && a.openedAtMs == b.openedAtMs
  }

  ghost predicate RowsKept(s: Store, t: Store) {
    forall id :: id in s.segments ==> id in t.segments && SameAnchor(s.segments[id], t.segments[id])
  }

  lemma BirthStays(w: World, v: World, id: string)
    requires id in w.births && id in w.store.segments && BirthOk(w, id)
    requires id in v.births && v.births[id] == w.births[id]
    requires w.store.chain <= v.store.chain && RowsKept(w.store, v.store)
    ensures id in v.store.segments && BirthOk(v, id)
  {
    if w.births[id].Opened? {
      AnchorStays(w.store, v.store, w.store.segments[id], v.store.segments[id], w.births[id].at);
    }
  }

  /** Rows kept, births kept: what is known of each row still holds. */
  lemma BirthsStay(w: World, v: World)
    requires BirthsOk(w) && v.births == w.births && v.store.segments.Keys == w.store.segments.Keys
    requires w.store.chain <= v.store.chain && RowsKept(w.store, v.store)
    ensures BirthsOk(v)
  {
    forall k | k in v.births ensures BirthOk(v, k) {
      BirthStays(w, v, k);
    }
  }

  /** The same with one new row. */
  lemma BirthsGrow(w: World, v: World, id: string, birth: Birth)
    requires BirthsOk(w) && id !in w.births && v.births == w.births[id := birth]
    requires v.store.segments.Keys == w.store.segments.Keys + {id}
    requires w.store.chain <= v.store.chain && RowsKept(w.store, v.store) && BirthOk(v, id)
    ensures BirthsOk(v)
  {
    forall k | k in v.births ensures BirthOk(v, k) {
      if k != id {
        BirthStays(w, v, k);
      }
    }
  }

  lemma OriginsStay(c: Codec, w: World, v: World)
    requires Grows(w, v) && |w.origins| == |w.store.chain| && |v.origins| == |v.store.chain|
    requires v.origins == w.origins + Natives(|v.store.chain| - |w.store.chain|)
    requires forall p :: 0 <= p < |w.origins| ==> OriginOk(c, w, p)
    requires AllBegun(w.origins)
    ensures forall p :: 0 <= p < |v.origins| ==> OriginOk(c, v, p)
    ensures AllBegun(v.origins)
  {
    hide Outgoing;
    forall p | 0 <= p < |v.origins| ensures OriginOk(c, v, p) {
      if p < |w.origins| {
        assert OriginOk(c, w, p);
        assert v.origins[p] == w.origins[p];
      }
    }
    forall p | 0 <= p < |v.origins| && v.origins[p].FromSegment?
      ensures Begun(v.origins, v.origins[p].id)
    {
      assert Begun(w.origins, w.origins[p].id);
      var q :| 0 <= q < |w.origins| && w.origins[q] == FromSegment(w.origins[p].id, 0);
      assert v.origins[q] == w.origins[q];
    }
  }

  /** An operation that transcribes nothing keeps the record, whatever it does to rows. */
  lemma QuietStep(c: Codec, w: World, v: World)
    requires Inv(c, w) && Grows(w, v) && AllWhole(c, v) && BirthsOk(v)
    requires v.answers == w.answers
    requires v.origins == w.origins + Natives(|v.store.chain| - |w.store.chain|)
    ensures Inv(c, v)
  {
    hide OriginOk, AllBegun, AnswerOk, BirthsOk, AllWhole;
    OriginsStay(c, w, v);
    forall k | 0 <= k < |v.answers| ensures AnswerOk(c, v, v.answers[k]) {
      AnswerStays(c, w, v, w.answers[k]);
    }
  }

  // ----- Each operation -------------------------------------------------------------------------------------

  lemma OpenReads(stamp: int, row: Segment)
    ensures IsOpeningOf(OpenedEvent(stamp, row), row.segmentId)
  {
  }

  lemma OpenKeepsInv(c: Codec, w: World, kind: SegmentKind, owner: Option<string>, io: OpenIo)
    requires Inv(c, w)
    ensures Inv(c, Apply(c, w, Open(kind, owner, io)))
  {
    hide Whole, Append, OpenedEvent, IsOpeningOf, FreeSegmentId;
    var s := w.store;
    var (t, r) := OpenSegment(c, s, kind, owner, io);
    var v := Apply(c, w, Open(kind, owner, io));
    var free := FreeSegmentId(s.segments.Keys, owner, io.now);
    if t != s {
      var id := free.value;
      var row := OpenedRow(s, id, kind, io.now);
      var e := OpenedEvent(io.stamp, row);
      AppendKeepsWhole(c, s.chain, e, io.append);
      AppendAnswers(c, s.chain, e, io.append);
      OpenReads(io.stamp, row);
      assert r.Ok? ==> t.chain[..|s.chain|] == s.chain;
      assert BirthOk(v, id);
      hide BirthOk;
      BirthsGrow(w, v, id, v.births[id]);
    } else {
      assert free.Some? ==> free.value !in t.segments;
      BirthsStay(w, v);
    }
    QuietStep(c, w, v);
  }

  lemma CloseKeepsInv(c: Codec, w: World, id: string, io: CloseIo)
    requires Inv(c, w)
    ensures Inv(c, Apply(c, w, Close(id, io)))
  {
    hide Whole, Append, ClosedEvent;
    var v := Apply(c, w, Close(id, io));
    AppendKeepsWhole(c, w.store.chain, ClosedEvent(io.stamp, id, io.now), io.append);
    BirthsStay(w, v);
    QuietStep(c, w, v);
  }

  lemma AdoptKeepsInv(
      c: Codec, w: World, id: string, prevChain: Option<string>, prevLength: Option<int>, io: AdoptIo)
    requires Inv(c, w)
    ensures Inv(c, Apply(c, w, Adopt(id, prevChain, prevLength, io)))
  {
    hide Whole;
    var v := Apply(c, w, Adopt(id, prevChain, prevLength, io));
    if v.store == w.store {
      BirthsStay(w, v);
    } else {
      assert BirthOk(v, id);
      BirthsGrow(w, v, id, Adopted);
    }
    QuietStep(c, w, v);
  }

  lemma AppendKeepsInv(c: Codec, w: World, e: Event, attempts: Attempts)
    requires Inv(c, w)
    ensures Inv(c, Apply(c, w, AppendMain(e, attempts)))
  {
    hide Whole, Append;
    var v := Apply(c, w, AppendMain(e, attempts));
    AppendKeepsWhole(c, w.store.chain, e, attempts);
    BirthsStay(w, v);
    QuietStep(c, w, v);
  }

  lemma DeliverKeepsInv(c: Codec, w: World, id: string, e: Event, attempts: Attempts)
    requires Inv(c, w)
    ensures Inv(c, Apply(c, w, Deliver(id, e, attempts)))
  {
    hide Whole, Append;
    var v := Apply(c, w, Deliver(id, e, attempts));
    assert Whole(c, FileOf(w, id));
    AppendKeepsWhole(c, FileOf(w, id), e, attempts);
    forall k ensures FileOf(w, k) <= FileOf(v, k) && Whole(c, FileOf(v, k)) {
      assert Whole(c, FileOf(w, k));
    }
    BirthsStay(w, v);
    QuietStep(c, w, v);
  }

  /** What the whole-run argument needs to know of one merge. */
  lemma MergeFacts(c: Codec, s: Store, id: string, events: seq<StoredEvent>, io: MergeIo)
    ensures var (t, r) := MergeSegment(c, s, id, events, io);
      && s.chain <= t.chain && RowsKept(s, t) && t.segments.Keys == s.segments.Keys
      && (Whole(c, s.chain) ==> Whole(c, t.chain))
      && (r.Ok? && r.value.Folded? ==> MergedAlready(t.chain, id))
      && (r.Ok? && r.value.Forked? ==> Conflicts(c, s.chain, events))
      && (MergedAlready(s.chain, id) ==> r.Err?)
      && (Conflicts(c, s.chain, events) ==> !(r.Ok? && r.value.Folded?))
  {
    MergeIsExact(c, s, id, events, io);
    MergeRowsKept(c, s, id, events, io);
    if MergedAlready(s.chain, id) {
      MergedIsRefused(c, s, id, events, io);
    }
    hide MergeSegment, Conflicts, Whole, IsMergedMarker, MergedAlready, Transcribed, RowsKept;
    var (t, r) := MergeSegment(c, s, id, events, io);
    if r.Ok? && r.value.Folded? {
      FoldedIsMarked(c, s, id, events, t, r.value.merged);
    }
  }

  lemma FoldedIsMarked(c: Codec, s: Store, id: string, events: seq<StoredEvent>, t: Store, n: nat)
    requires MergeMeans(c, s, id, events, t, Ok(Folded(n)))
    ensures MergedAlready(t.chain, id)
  {
    hide Conflicts, IsMergedMarker, MergedAlready, Transcribed;
    var added := t.chain[|s.chain|..];
    assert t.chain == t.chain[..|s.chain| + n] + [added[n]];
    MarkerIsSeen(t.chain[..|s.chain| + n], added[n], id);
  }

  /** A merge that goes ahead writes the segment's events first, in order. */
  lemma ClearRows(c: Codec, s: Store, id: string, events: seq<StoredEvent>, io: MergeIo)
    requires Judge(c, s, id, events).Clear?
    ensures !Conflicts(c, s.chain, events)
    ensures var t := MergeSegment(c, s, id, events, io).0;
      s.chain <= t.chain && forall j :: 0 <= j < |t.chain| - |s.chain| && j < |events| ==>
        t.chain[|s.chain| + j].event == Outgoing(c, events[j].event)
  {
    JudgeIsExact(c, s, id, events);
    TranscribeIsExact(c, s.chain, events, 0, io.append);
    assert events[0..] == events;
    TranscriptFirst(c, s, id, events, io);
    hide Transcribe, Append, MergedEvent, Outgoing, Judge, Conflicts, MergeSegment;
    var done := Transcribe(c, s.chain, events, 0, io.append);
    var t := MergeSegment(c, s, id, events, io).0;
    if io.read.None? {
      var rows := done.chain[|s.chain|..];
      forall j | 0 <= j < |t.chain| - |s.chain| && j < |events|
        ensures t.chain[|s.chain| + j].event == Outgoing(c, events[j].event)
      {
        assert t.chain[|s.chain| + j] == rows[j];
      }
    }
  }

  lemma MergeRowsKept(c: Codec, s: Store, id: string, events: seq<StoredEvent>, io: MergeIo)
    ensures RowsKept(s, MergeSegment(c, s, id, events, io).0)
    ensures MergeSegment(c, s, id, events, io).0.segments.Keys == s.segments.Keys
  {
    hide Append, Transcribe, FirstConflict, MergedAlready, ForkReason;
  }

  lemma MergedIsRefused(c: Codec, s: Store, id: string, events: seq<StoredEvent>, io: MergeIo)
    requires MergedAlready(s.chain, id)
    ensures MergeSegment(c, s, id, events, io).1.Err?
  {
    hide MergedAlready, FirstConflict;
  }

  lemma MergeOrigins(c: Codec, w: World, id: string, io: MergeIo)
    requires Inv(c, w)
    ensures var v := Apply(c, w, Merge(id, io));
      && w.store.chain <= v.store.chain && |v.origins| == |v.store.chain|
      && AllBegun(v.origins)
      && forall p :: 0 <= p < |v.origins| ==> OriginOk(c, v, p)
  {
    hide Whole, MergeSegment, Judge, Conflicts, Outgoing, MergedAlready;
    var v := Apply(c, w, Merge(id, io));
    var events := FileOf(w, id);
    var n := |w.origins|;
    MergeFacts(c, w.store, id, events, io);
    if Judge(c, w.store, id, events).Clear? {
      ClearRows(c, w.store, id, events, io);
    }
    forall p | 0 <= p < |v.origins| ensures OriginOk(c, v, p) {
      if p < n {
        assert OriginOk(c, w, p) && v.origins[p] == w.origins[p];
      } else if v.origins[p].FromSegment? {
        assert v.origins[p] == FromSegment(id, p - n);
      }
    }
    MergeBegins(w.origins, v.origins, id);
  }

  lemma MergeBegins(before: seq<Origin>, after: seq<Origin>, id: string)
    requires before <= after && AllBegun(before)
    requires forall p :: |before| <= p < |after| && after[p].FromSegment? ==>
      after[p].id == id && after[|before|] == FromSegment(id, 0)
    ensures AllBegun(after)
  {
    forall p | 0 <= p < |after| && after[p].FromSegment? ensures Begun(after, after[p].id) {
      if p < |before| {
        assert Begun(before, before[p].id);
        var q :| 0 <= q < |before| && before[q] == FromSegment(before[p].id, 0);
        assert after[q] == before[q];
      }
    }
  }

  lemma MergeAnswers(c: Codec, w: World, id: string, io: MergeIo)
    requires Inv(c, w)
    ensures var v := Apply(c, w, Merge(id, io));
      && AnswersInOrder(v.answers)
      && forall k :: 0 <= k < |v.answers| ==> AnswerOk(c, v, v.answers[k])
  {
    hide Whole, MergeSegment, Judge, Conflicts, MergedAlready, OriginOk;
    var v := Apply(c, w, Merge(id, io));
    MergeFacts(c, w.store, id, FileOf(w, id), io);
    var n := |w.answers|;
    forall k | 0 <= k < |v.answers| ensures AnswerOk(c, v, v.answers[k]) {
      if k < n {
        AnswerStays(c, w, v, w.answers[k]);
      } else if AnsweredForked(v.answers[k]) {
        ConflictStays(c, w.store.chain, v.store.chain, FileOf(w, id), FileOf(v, id));
      }
    }
    forall j, k | 0 <= j < k < |v.answers| && v.answers[j].id == v.answers[k].id
      ensures AnsweredFolded(v.answers[j]) ==> v.answers[k].result.Err?
      ensures AnsweredForked(v.answers[j]) ==> !AnsweredFolded(v.answers[k])
    {
      if k == n {
        assert AnswerOk(c, w, w.answers[j]);
      }
    }
  }

  lemma MergeKeepsInv(c: Codec, w: World, id: string, io: MergeIo)
    requires Inv(c, w)
    ensures Inv(c, Apply(c, w, Merge(id, io)))
  {
    var v := Apply(c, w, Merge(id, io));
    MergeFacts(c, w.store, id, FileOf(w, id), io);
    MergeOrigins(c, w, id, io);
    MergeAnswers(c, w, id, io);
    hide Whole, MergeSegment, Judge, Conflicts, OriginOk, AnswerOk, BirthOk, AllBegun, AnswersInOrder;
    assert forall k :: FileOf(v, k) == FileOf(w, k);
    BirthsStay(w, v);
  }

  lemma {:induction false} ApplyKeepsInv(c: Codec, w: World, op: Op)
    requires Inv(c, w)
    ensures Inv(c, Apply(c, w, op))
  {
    hide Inv, Apply;
    match op
    case Open(kind, owner, io) => OpenKeepsInv(c, w, kind, owner, io);
    case Close(id, io) => CloseKeepsInv(c, w, id, io);
    case Adopt(id, prevChain, prevLength, io) => AdoptKeepsInv(c, w, id, prevChain, prevLength, io);
    case Merge(id, io) => MergeKeepsInv(c, w, id, io);
    case AppendMain(e, attempts) => AppendKeepsInv(c, w, e, attempts);
    case Deliver(id, e, attempts) => DeliverKeepsInv(c, w, id, e, attempts);
  }

  lemma {:induction false} RunKeepsInv(c: Codec, worlds: seq<World>, ops: seq<Op>, n: nat)
    requires History(c, worlds, ops) && n <= |ops|
    ensures Inv(c, worlds[n])
  {
    hide Inv, Apply;
    if n == 0 {
      EmptyKeepsInv(c);
    } else {
      RunKeepsInv(c, worlds, ops, n - 1);
      ApplyKeepsInv(c, worlds[n - 1], ops[n - 1]);
    }
  }

  lemma EmptyKeepsInv(c: Codec)
    ensures Inv(c, EMPTY)
  {
    assert Whole(c, []);
    assert forall id :: FileOf(EMPTY, id) == [];
  }

  // ----- The results, at every point of every run ------------------------------------------------------------

  /** A merge of a segment that was transcribed from before goes ahead again. */
  predicate Repeats(c: Codec, w: World, op: Op, id: string) {
    && op.Merge? && op.id == id && Begun(w.origins, id) && Judge(c, w.store, id, FileOf(w, id)).Clear?
    && Added(w.store, Apply(c, w, op).store) > 0
  }

  /**
   Every row that came from a segment is the cleared form of the event it stands for, and an
   event stands on the chain twice exactly when some merge repeated what one before it began.
   */
  lemma {:induction false} TranscribedTwiceExactly(c: Codec, worlds: seq<World>, ops: seq<Op>, n: nat, id: string)
    requires History(c, worlds, ops) && n <= |ops|
    ensures var w := worlds[n];
      && |w.origins| == |w.store.chain| && (forall p :: 0 <= p < |w.origins| ==> OriginOk(c, w, p))
      && (HoldsTwice(w.origins, id) <==> exists k :: 0 <= k < n && Repeats(c, worlds[k], ops[k], id))
  {
    hide Apply, Repeats, HoldsTwice;
    RunKeepsInv(c, worlds, ops, n);
    if n == 0 {
      NothingTwice(id);
    } else {
      TranscribedTwiceExactly(c, worlds, ops, n - 1, id);
      RunKeepsInv(c, worlds, ops, n - 1);
      TwiceStep(c, worlds[n - 1], ops[n - 1], id);
    }
  }

  lemma NothingTwice(id: string)
    ensures !HoldsTwice(EMPTY.origins, id)
  {
  }

  lemma TwiceStep(c: Codec, w: World, op: Op, id: string)
    requires Inv(c, w)
    ensures HoldsTwice(Apply(c, w, op).origins, id) <==> HoldsTwice(w.origins, id) || Repeats(c, w, op, id)
  {
    var v := Apply(c, w, op);
    if op.Merge? && op.id == id {
      MergeTwice(c, w, id, op.mergeIo);
    } else {
      OthersAreAdded(c, w, op, id);
      SameTwice(w.origins, v.origins, id);
    }
  }

  /** Any other operation adds no row of the segment. */
  lemma OthersAreAdded(c: Codec, w: World, op: Op, id: string)
    requires !(op.Merge? && op.id == id)
    ensures var v := Apply(c, w, op);
      w.origins <= v.origins && forall p :: |w.origins| <= p < |v.origins| ==> !FromIt(v.origins[p], id)
  {
    hide Append, OpenSegment, CloseSegment, MergeSegment, Judge, FreeSegmentId;
  }

  lemma SameTwice(before: seq<Origin>, after: seq<Origin>, id: string)
    requires before <= after && forall p :: |before| <= p < |after| ==> !FromIt(after[p], id)
    ensures HoldsTwice(after, id) <==> HoldsTwice(before, id)
  {
    if HoldsTwice(before, id) {
      var p, q :| 0 <= p < q < |before| && FromIt(before[p], id) && before[p] == before[q];
      assert FromIt(after[p], id) && after[p] == after[q];
    }
    if HoldsTwice(after, id) {
      var p, q :| 0 <= p < q < |after| && FromIt(after[p], id) && after[p] == after[q];
      assert FromIt(after[q], id);
      assert before[p] == before[q];
    }
  }

  lemma MergeTwice(c: Codec, w: World, id: string, io: MergeIo)
    requires Inv(c, w)
    ensures HoldsTwice(Apply(c, w, Merge(id, io)).origins, id) <==>
            HoldsTwice(w.origins, id) || Repeats(c, w, Merge(id, io), id)
  {
    hide MergeSegment, Judge, OriginOk;
    var v := Apply(c, w, Merge(id, io));
    var events := FileOf(w, id);
    var added := NewOrigins(Judge(c, w.store, id, events), id, |events|, Added(w.store, v.store));
    assert v.origins == w.origins + added;
    if Begun(w.origins, id) {
      BegunHasEvents(c, w, id);
    }
    assert Judge(c, w.store, id, events).Clear? && events != [] && |added| > 0 ==> added[0] == FromSegment(id, 0);
    RowsOfOneMerge(w.origins, added, id);
  }

  lemma BegunHasEvents(c: Codec, w: World, id: string)
    requires Begun(w.origins, id) && |w.origins| == |w.store.chain|
    requires forall p :: 0 <= p < |w.origins| ==> OriginOk(c, w, p)
    ensures FileOf(w, id) != []
  {
    var p :| 0 <= p < |w.origins| && w.origins[p] == FromSegment(id, 0);
    assert OriginOk(c, w, p);
  }

  /** Rows of one merge are all different; they repeat old ones exactly when they begin again. */
  lemma RowsOfOneMerge(before: seq<Origin>, added: seq<Origin>, id: string)
    requires AllBegun(before)
    requires forall j :: 0 <= j < |added| && added[j].FromSegment? ==> added[j] == FromSegment(id, j)
    requires forall j :: 0 <= j < |added| && added[j].FromSegment? ==> added[0] == FromSegment(id, 0)
    ensures HoldsTwice(before + added, id) <==>
      HoldsTwice(before, id) || (Begun(before, id) && |added| > 0 && added[0] == FromSegment(id, 0))
  {
    var all, n := before + added, |before|;
    if HoldsTwice(before, id) {
      var p, q :| 0 <= p < q < n && FromIt(before[p], id) && before[p] == before[q];
      assert FromIt(all[p], id) && all[p] == all[q];
    }
    if Begun(before, id) && |added| > 0 && added[0] == FromSegment(id, 0) {
      var p :| 0 <= p < n && before[p] == FromSegment(id, 0);
      assert FromIt(all[p], id) && all[p] == all[n];
    }
    if HoldsTwice(all, id) {
      var p, q :| 0 <= p < q < |all| && FromIt(all[p], id) && all[p] == all[q];
      if q < n {
        assert FromIt(before[p], id) && before[p] == before[q];
      } else {
        assert all[q] == added[q - n];
        if p < n {
          assert before[p].FromSegment? && Begun(before, before[p].id);
        } else {
          assert all[p] == added[p - n];
        }
      }
    }
  }

  /** When a merge begins again, the segment's first event meets none of its events as it stands. */
  lemma {:induction false} RepeatsMeetNothing(c: Codec, w: World, op: Op, id: string)
    requires Inv(c, w) && Repeats(c, w, op, id)
    ensures !MeetsItself(c, FileOf(w, id), 1)
  {
    hide Apply, Judge;
    JudgeIsExact(c, w.store, id, FileOf(w, id));
    hide MeetsItself, Conflicts, Meets, Outgoing;
    var p :| 0 <= p < |w.origins| && w.origins[p] == FromSegment(id, 0);
    assert OriginOk(c, w, p);
    WrittenMeetsNothing(c, w.store.chain, FileOf(w, id), p);
  }

  lemma WrittenMeetsNothing(c: Codec, chain: seq<StoredEvent>, events: seq<StoredEvent>, p: nat)
    requires p < |chain| && events != [] && chain[p].event == Outgoing(c, events[0].event)
    requires !Conflicts(c, chain, events)
    ensures !MeetsItself(c, events, 1)
  {
    hide Meets, Outgoing;
    forall i | 0 <= i < |events| ensures !Meets(c, Outgoing(c, events[0].event), events[i].event) {
      assert !OnChain(c, chain, events[i]);
      assert !Clashes(c, chain[p], events[i]);
    }
  }

  /**
   Each event of a segment reaches the main chain at most once if, whenever a merge is tried
   on it again, the first event as it was transcribed meets some event of the file.
   */
  lemma {:induction false} TranscribedAtMostOnce(c: Codec, worlds: seq<World>, ops: seq<Op>, n: nat, id: string)
    requires History(c, worlds, ops) && n <= |ops|
    requires forall k :: 0 <= k < n && ops[k].Merge? && ops[k].id == id && Begun(worlds[k].origins, id) ==>
      MeetsItself(c, FileOf(worlds[k], id), 1)
    ensures !HoldsTwice(worlds[n].origins, id)
  {
    hide Apply, HoldsTwice, MeetsItself, Inv;
    TranscribedTwiceExactly(c, worlds, ops, n, id);
    if k :| 0 <= k < n && Repeats(c, worlds[k], ops[k], id) {
      RunKeepsInv(c, worlds, ops, k);
      RepeatsMeetNothing(c, worlds[k], ops[k], id);
    }
  }

  /**
   At most one merge of a segment answers Folded, every later one is an error, and a segment
   that was forked never folds, although a close resets its state.
   */
  lemma {:induction false} MergeAnswersAreFinal(c: Codec, worlds: seq<World>, ops: seq<Op>, n: nat)
    requires History(c, worlds, ops) && n <= |ops|
    ensures AnswersInOrder(worlds[n].answers)
  {
    RunKeepsInv(c, worlds, ops, n);
  }

  /**
   The main chain and every segment file verify, and every segment row that was opened here
   has its opening event on the chain right after the row its anchor names.
   */
  lemma {:induction false} AnchorsHold(c: Codec, worlds: seq<World>, ops: seq<Op>, n: nat)
    requires History(c, worlds, ops) && n <= |ops|
    ensures AllWhole(c, worlds[n]) && BirthsOk(worlds[n])
  {
    RunKeepsInv(c, worlds, ops, n);
  }

  // ----- Rows without their opening event ----------------------------------------------------------------------

  predicate IsOpening(e: Event) {
    e.action == ACTION_SEGMENT_OPENED && GetStr(e.detail, "segment_id").Some?
  }

  /** Nobody but an open writes an opening event, and none is merged in. */
  predicate Plain(c: Codec, op: Op) {
    match op
    case AppendMain(e, _) => !IsOpening(e)
    case Deliver(_, e, _) => !IsOpening(Outgoing(c, e))
    case _ => true
  }

  /** An opened segment whose opening event is nowhere on the chain. */
  ghost predicate LacksOpening(s: Store, id: string) {
    id in s.segments && s.segments[id].openedAtMs.Some? && forall at: nat :: !Anchored(s, s.segments[id], at)
  }

  /** The open of `id` wrote its row, could not append its event, and could not take the row back. */
  predicate LeavesStray(c: Codec, w: World, op: Op, id: string) {
    op.Open? && op.openIo.read.None? && op.openIo.insert.None? && op.openIo.delete.Some? &&
    FreeSegmentId(w.store.segments.Keys, op.owner, op.openIo.now) == Some(id) &&
    Append(c, w.store.chain, OpenedEvent(op.openIo.stamp, OpenedRow(w.store, id, op.kind, op.openIo.now)),
           op.openIo.append).Err?
  }

  predicate IsStray(w: World, id: string) { id in w.births && w.births[id].Stray? }

  /** Each opening event on the chain belongs to the open that wrote it. */
  ghost predicate OpeningsOwned(w: World) {
    forall p, id :: 0 <= p < |w.store.chain| && IsOpeningOf(w.store.chain[p].event, id) ==>
      id in w.births && w.births[id] == Opened(p)
  }

  ghost predicate FilesPlain(c: Codec, w: World) {
    forall id, i :: 0 <= i < |FileOf(w, id)| ==> !IsOpening(Outgoing(c, FileOf(w, id)[i].event))
  }

  lemma StrayLacks(w: World, id: string)
    requires BirthsOk(w) && OpeningsOwned(w)
    ensures LacksOpening(w.store, id) <==> IsStray(w, id)
  {
    if id in w.births {
      assert BirthOk(w, id);
      var row := w.store.segments[id];
      if w.births[id].Opened? {
        assert Anchored(w.store, row, w.births[id].at);
      }
      forall at: nat | Anchored(w.store, row, at) ensures w.births[id] == Opened(at) {
      }
    }
  }

  lemma StrayStep(c: Codec, w: World, op: Op, id: string)
    requires w.births.Keys == w.store.segments.Keys
    ensures IsStray(Apply(c, w, op), id) <==> IsStray(w, id) || LeavesStray(c, w, op, id)
  {
    hide Append, FreeSegmentId, MergeSegment, CloseSegment, OpenedEvent;
  }

  /** Rows an operation adds, other than an open's, are no opening events. */
  lemma NewRowsArePlain(c: Codec, w: World, op: Op)
    requires FilesPlain(c, w) && Plain(c, op) && !op.Open?
    ensures var v := Apply(c, w, op);
      w.store.chain <= v.store.chain &&
      forall p :: |w.store.chain| <= p < |v.store.chain| ==> !IsOpening(v.store.chain[p].event)
  {
    hide Append, Outgoing, ClosedEvent, MergeSegment, FilesPlain, IsOpening;
    match op
    case Close(id, io) =>
      AppendAnswers(c, w.store.chain, ClosedEvent(io.stamp, id, io.now), io.append);
      ClosedIsPlain(io.stamp, id, io.now);
    case AppendMain(e, attempts) =>
      AppendAnswers(c, w.store.chain, e, attempts);
    case Merge(id, io) =>
      MergeIsExact(c, w.store, id, FileOf(w, id), io);
      var (t, r) := MergeSegment(c, w.store, id, FileOf(w, id), io);
      MergeRowsArePlain(c, w, id, t, r);
    case _ =>
  }

  lemma ClosedIsPlain(stamp: int, id: string, now: int)
    ensures !IsOpening(ClosedEvent(stamp, id, now))
  {
  }

  lemma MergeRowsArePlain(c: Codec, w: World, id: string, t: Store, r: Result<MergeOutcome, AuditError>)
    requires FilesPlain(c, w) && MergeMeans(c, w.store, id, FileOf(w, id), t, r)
    ensures forall p :: |w.store.chain| <= p < |t.chain| ==> !IsOpening(t.chain[p].event)
  {
    var added := t.chain[|w.store.chain|..];
    var events := FileOf(w, id);
    RowsAreKnown(c, w.store, id, events, t, added, r);
    hide MergeMeans, Outgoing, IsMergedMarker, IsForkMarker;
    forall p | |w.store.chain| <= p < |t.chain| ensures !IsOpening(t.chain[p].event) {
      var j := p - |w.store.chain|;
      assert t.chain[p] == added[j];
      if j < |events| && added[j].event == Outgoing(c, events[j].event) {
        assert !IsOpening(Outgoing(c, FileOf(w, id)[j].event));
      } else {
        MarkersArePlain(added[j].event, id);
      }
    }
  }

  predicate IsSomeMarker(e: Event, id: string) {
    IsMergedMarker(e, id) || e.action == ACTION_SEGMENT_FORKED
  }

  lemma MarkersArePlain(e: Event, id: string)
    requires IsSomeMarker(e, id)
    ensures !IsOpening(e)
  {
  }

  /** Every row a merge adds is a transcription or a marker. */
  lemma RowsAreKnown(
      c: Codec, s: Store, id: string, events: seq<StoredEvent>, t: Store, added: seq<StoredEvent>,
      r: Result<MergeOutcome, AuditError>)
    requires s.chain <= t.chain && added == t.chain[|s.chain|..] && AnswerMeans(c, s, id, events, t, added, r)
    ensures forall j :: 0 <= j < |added| ==>
      (j < |events| && added[j].event == Outgoing(c, events[j].event)) || IsSomeMarker(added[j].event, id)
  {
    hide Outgoing, Conflicts, Explains, IsMergedMarker, PartialNote, OnlyNoted;
  }

  lemma OpeningsStayOwned(c: Codec, w: World, op: Op)
    requires Inv(c, w) && OpeningsOwned(w) && FilesPlain(c, w) && Plain(c, op)
    ensures OpeningsOwned(Apply(c, w, op)) && FilesPlain(c, Apply(c, w, op))
  {
    FilesStayPlain(c, w, op);
    if op.Open? {
      OpenIsOwned(c, w, op.kind, op.owner, op.openIo);
    } else {
      NewRowsArePlain(c, w, op);
      BirthsAreKept(c, w, op);
      hide Apply, Inv, FilesPlain, Plain;
      StillOwned(w, Apply(c, w, op));
    }
  }

  lemma StillOwned(w: World, v: World)
    requires OpeningsOwned(w) && w.store.chain <= v.store.chain
    requires forall p :: |w.store.chain| <= p < |v.store.chain| ==> !IsOpening(v.store.chain[p].event)
    requires forall id :: id in w.births ==> id in v.births && v.births[id] == w.births[id]
    ensures OpeningsOwned(v)
  {
    hide GetStr;
  }

  lemma BirthsAreKept(c: Codec, w: World, op: Op)
    requires w.births.Keys == w.store.segments.Keys
    ensures forall id :: id in w.births ==> id in Apply(c, w, op).births && Apply(c, w, op).births[id] == w.births[id]
  {
    hide Append, FreeSegmentId, MergeSegment, CloseSegment, OpenedEvent;
  }

  lemma FilesStayPlain(c: Codec, w: World, op: Op)
    requires FilesPlain(c, w) && Plain(c, op)
    ensures FilesPlain(c, Apply(c, w, op))
  {
    hide Append, MergeSegment, OpenSegment, CloseSegment, Outgoing, IsOpening;
    var v := Apply(c, w, op);
    if op.Deliver? {
      AppendAnswers(c, FileOf(w, op.id), op.event, op.attempts);
    }
    forall id, i | 0 <= i < |FileOf(v, id)| ensures !IsOpening(Outgoing(c, FileOf(v, id)[i].event)) {
      assert i < |FileOf(w, id)| ==> FileOf(v, id)[i] == FileOf(w, id)[i];
    }
  }

  lemma OpenIsOwned(c: Codec, w: World, kind: SegmentKind, owner: Option<string>, io: OpenIo)
    requires w.births.Keys == w.store.segments.Keys && OpeningsOwned(w)
    ensures OpeningsOwned(Apply(c, w, Open(kind, owner, io)))
  {
    hide Append, FreeSegmentId, OpenedEvent, IsOpeningOf;
    var v := Apply(c, w, Open(kind, owner, io));
    var free := FreeSegmentId(w.store.segments.Keys, owner, io.now);
    if |v.store.chain| > |w.store.chain| {
      var row := OpenedRow(w.store, free.value, kind, io.now);
      AppendAnswers(c, w.store.chain, OpenedEvent(io.stamp, row), io.append);
      OpensOnly(io.stamp, row);
    }
  }

  lemma OpensOnly(stamp: int, row: Segment)
    ensures forall id :: IsOpeningOf(OpenedEvent(stamp, row), id) <==> id == row.segmentId
  {
  }

  lemma {:induction false} RunOwnsOpenings(c: Codec, worlds: seq<World>, ops: seq<Op>, n: nat)
    requires History(c, worlds, ops) && n <= |ops| && forall k :: 0 <= k < n ==> Plain(c, ops[k])
    ensures OpeningsOwned(worlds[n]) && FilesPlain(c, worlds[n])
  {
    hide Apply, OpeningsOwned, FilesPlain, Plain, Inv;
    if n == 0 {
      NothingOpened(c);
    } else {
      RunOwnsOpenings(c, worlds, ops, n - 1);
      RunKeepsInv(c, worlds, ops, n - 1);
      OpeningsStayOwned(c, worlds[n - 1], ops[n - 1]);
    }
  }

  lemma NothingOpened(c: Codec)
    ensures OpeningsOwned(EMPTY) && FilesPlain(c, EMPTY)
  {
    assert forall id :: FileOf(EMPTY, id) == [];
  }

  lemma {:induction false} StraysAreLeft(c: Codec, worlds: seq<World>, ops: seq<Op>, n: nat, id: string)
    requires History(c, worlds, ops) && n <= |ops|
    ensures IsStray(worlds[n], id) <==> exists k :: 0 <= k < n && LeavesStray(c, worlds[k], ops[k], id)
  {
    hide LeavesStray, Apply;
    if n > 0 {
      StraysAreLeft(c, worlds, ops, n - 1, id);
      RunKeepsInv(c, worlds, ops, n - 1);
      StrayStep(c, worlds[n - 1], ops[n - 1], id);
    }
  }

  /**
   An opened segment has no opening event on the chain exactly when its open could neither
   append nor take its row back.
   */
  lemma {:induction false} StrayExactly(c: Codec, worlds: seq<World>, ops: seq<Op>, n: nat, id: string)
    requires History(c, worlds, ops) && n <= |ops| && forall k :: 0 <= k < n ==> Plain(c, ops[k])
    ensures LacksOpening(worlds[n].store, id) <==>
            exists k :: 0 <= k < n && LeavesStray(c, worlds[k], ops[k], id)
  {
    hide LeavesStray, Apply, Plain;
    RunKeepsInv(c, worlds, ops, n);
    RunOwnsOpenings(c, worlds, ops, n);
    StrayLacks(worlds[n], id);
    StraysAreLeft(c, worlds, ops, n, id);
  }

  /** An open of an empty store that can insert, but neither append nor delete. */
  function DoomedOpen(kind: SegmentKind, now: nat): Op {
    Open(kind, None, OpenIo(now, now, None, None, _ => Some(Failed("")), Some(Failed(""))))
  }

  /** It leaves a row without its opening event. */
  lemma OpenMayLeaveRow(c: Codec, kind: SegmentKind, now: nat)
    ensures var w := Apply(c, EMPTY, DoomedOpen(kind, now));
      w.store.chain == [] && LacksOpening(w.store, MintId(None, now, None))
  {
    assert FreeIndex({}, None, now, 0) == Some(0);
  }
}
