/**
 Reading the chain back (`audit/src/store.rs`): filtered lists with a limit, paging from the
 newest end with a cursor, and the export that stands on its own.
 */
module Query {
  import opened Wrappers
  import opened Json
  import opened Chain
  import opened Ledger

  const TWO_63 := 0x8000_0000_0000_0000
  const USIZE_MAX := 2 * TWO_63 - 1

  datatype EventFilter = EventFilter(
    actor: Option<string>, actionPrefix: Option<string>, fromMs: Option<int>, toMs: Option<int>,
    fromId: Option<int>, toId: Option<int>, descending: bool)

  const EVERYTHING := EventFilter(None, None, None, None, None, None, false)

  predicate AtLeast(bound: Option<int>, x: int) { bound.Some? ==> bound.value <= x }

  predicate AtMost(bound: Option<int>, x: int) { bound.Some? ==> x <= bound.value }

  predicate Matches(f: EventFilter, e: StoredEvent) {
    && (f.actor.Some? ==> e.event.actor == f.actor.value)
    && (f.actionPrefix.Some? ==> f.actionPrefix.value <= e.event.action)
    && AtLeast(f.fromMs, e.event.timestampMs) && AtMost(f.toMs, e.event.timestampMs)
    && AtLeast(f.fromId, e.id) && AtMost(f.toId, e.id)
  }

  /** The filter that asks for an event's own columns, and for a prefix of its action. */
  function OwnFilter(e: StoredEvent, n: nat): EventFilter
    requires n <= |e.event.action|
  {
    EventFilter(Some(e.event.actor), Some(e.event.action[..n]), Some(e.event.timestampMs), Some(e.event.timestampMs),
                Some(e.id), Some(e.id), false)
  }

  /** Bounds are inclusive, the actor must be the same, and the action must begin with the prefix. */
  lemma OwnFilterFindsIt(e: StoredEvent, n: nat, x: StoredEvent)
    requires n <= |e.event.action|
    ensures Matches(OwnFilter(e, n), x) <==>
      && x.id == e.id && x.event.timestampMs == e.event.timestampMs && x.event.actor == e.event.actor
      && n <= |x.event.action| && forall i :: 0 <= i < n ==> x.event.action[i] == e.event.action[i]
  {
  }

  /** Each part of a filter is one more demand, and an absent part is none. */
  lemma EachPartIsADemand(f: EventFilter, e: StoredEvent)
    ensures Matches(EVERYTHING, e)
    ensures Matches(f, e) <==>
      && Matches(EVERYTHING.(actor := f.actor), e) && Matches(EVERYTHING.(actionPrefix := f.actionPrefix), e)
      && Matches(EVERYTHING.(fromMs := f.fromMs), e) && Matches(EVERYTHING.(toMs := f.toMs), e)
      && Matches(EVERYTHING.(fromId := f.fromId), e) && Matches(EVERYTHING.(toId := f.toId), e)
    ensures forall x: int ::
      && (Matches(EVERYTHING.(fromMs := Some(x)), e) <==> e.event.timestampMs >= x)
      && (Matches(EVERYTHING.(toMs := Some(x)), e) <==> e.event.timestampMs <= x)
      && (Matches(EVERYTHING.(fromId := Some(x)), e) <==> e.id >= x)
      && (Matches(EVERYTHING.(toId := Some(x)), e) <==> e.id <= x)
  {
  }

  /** `limit as i64`: the upper half of the range turns negative. */
  function AsI64(limit: nat): int
    requires limit <= USIZE_MAX
  {
    if limit < TWO_63 then limit else limit - 2 * TWO_63
  }

  /** SQL's `LIMIT`: a negative one bounds nothing. */
  function Limited(rows: seq<StoredEvent>, limit: int): seq<StoredEvent> {
    if 0 <= limit < |rows| then rows[..limit] else rows
  }

  function OldestFirst(chain: seq<StoredEvent>, f: EventFilter): seq<StoredEvent> {
    if chain == [] then []
    else
      var last := chain[|chain| - 1];
      OldestFirst(chain[..|chain| - 1], f) + if Matches(f, last) then [last] else []
  }

  function NewestFirst(chain: seq<StoredEvent>, f: EventFilter): seq<StoredEvent> {
    if chain == [] then []
    else
      var last := chain[|chain| - 1];
      (if Matches(f, last) then [last] else []) + NewestFirst(chain[..|chain| - 1], f)
  }

  function List(chain: seq<StoredEvent>, f: EventFilter, limit: nat): seq<StoredEvent>
    requires limit <= USIZE_MAX
  {
    Limited(if f.descending then NewestFirst(chain, f) else OldestFirst(chain, f), AsI64(limit))
  }

  predicate IdsFall(rows: seq<StoredEvent>) {
    forall i, j :: 0 <= i < j < |rows| ==> rows[i].id > rows[j].id
  }

  predicate Mirror(up: seq<StoredEvent>, down: seq<StoredEvent>) {
    |up| == |down| && forall i :: 0 <= i < |up| ==> up[i] == down[|down| - 1 - i]
  }

  /** Newest first holds every match once, by falling id; oldest first is its mirror. */
  lemma {:induction false} ListsAreExact(chain: seq<StoredEvent>, f: EventFilter)
    requires InOrder(chain)
    ensures forall e :: e in NewestFirst(chain, f) <==> e in chain && Matches(f, e)
    ensures IdsFall(NewestFirst(chain, f)) && Mirror(OldestFirst(chain, f), NewestFirst(chain, f))
  {
    hide Matches;
    if chain != [] {
      var front, last := chain[..|chain| - 1], chain[|chain| - 1];
      ListsAreExact(front, f);
      assert chain == front + [last];
      if Matches(f, last) {
        OneMore(front, last, NewestFirst(front, f), OldestFirst(front, f));
      }
    }
  }

  /** The number of rows a limit leaves; the upper half of its range leaves all. */
  function Kept(limit: nat, total: nat): nat { if limit < TWO_63 && limit < total then limit else total }

  /** `e` comes before `x` in the order the filter asks for. */
  predicate Precedes(f: EventFilter, e: StoredEvent, x: StoredEvent) {
    if f.descending then e.id > x.id else e.id < x.id
  }

  /**
   A list holds matches only, in the order asked for, as many as the limit allows, and every
   match it leaves out comes after all it holds.
   */
  lemma ListIsExact(chain: seq<StoredEvent>, f: EventFilter, limit: nat)
    requires InOrder(chain) && limit <= USIZE_MAX
    ensures var r := List(chain, f, limit);
      && (forall e :: e in r ==> e in chain && Matches(f, e))
      && InListOrder(f, r)
      && |r| == Kept(limit, |NewestFirst(chain, f)|)
      && (forall e, x :: e in chain && Matches(f, e) && e !in r && x in r ==> Precedes(f, x, e))
  {
    ListsAreExact(chain, f);
    hide Matches, NewestFirst, OldestFirst, InOrder, Precedes, IdsFall, Mirror;
    var down, up := NewestFirst(chain, f), OldestFirst(chain, f);
    AllPrecede(f, up, down);
    NearestAreKept(f, if f.descending then down else up, List(chain, f, limit));
    forall e ensures e in (if f.descending then down else up) <==> e in chain && Matches(f, e) {
      MirrorHoldsTheSame(up, down, e);
    }
  }

  predicate InListOrder(f: EventFilter, rows: seq<StoredEvent>) {
    forall i, j :: 0 <= i < j < |rows| ==> Precedes(f, rows[i], rows[j])
  }

  lemma AllPrecede(f: EventFilter, up: seq<StoredEvent>, down: seq<StoredEvent>)
    requires IdsFall(down) && Mirror(up, down)
    ensures InListOrder(f, if f.descending then down else up) && |up| == |down|
  {
  }

  /** What a limit cuts off comes after what it leaves. */
  lemma NearestAreKept(f: EventFilter, all: seq<StoredEvent>, r: seq<StoredEvent>)
    requires InListOrder(f, all) && r <= all
    ensures InListOrder(f, r) && forall e, x :: e in all && e !in r && x in r ==> Precedes(f, x, e)
  {
    hide Precedes;
    forall e, x | e in all && e !in r && x in r ensures Precedes(f, x, e) {
      var j :| 0 <= j < |all| && all[j] == e;
      var i :| 0 <= i < |r| && r[i] == x;
      assert j >= |r|;
    }
  }

  lemma MirrorHoldsTheSame(up: seq<StoredEvent>, down: seq<StoredEvent>, e: StoredEvent)
    requires Mirror(up, down)
    ensures e in up <==> e in down
  {
    if e in down {
      var i :| 0 <= i < |down| && down[i] == e;
      assert up[|down| - 1 - i] == e;
    }
  }

  lemma OneMore(front: seq<StoredEvent>, last: StoredEvent, down: seq<StoredEvent>, up: seq<StoredEvent>)
    requires IdsFall(down) && Mirror(up, down)
    requires InOrder(front + [last]) && forall e :: e in down ==> e in front
    ensures IdsFall([last] + down) && Mirror(up + [last], [last] + down)
  {
    var all := front + [last];
    forall j | 0 <= j < |down| ensures down[j].id < last.id {
      assert down[j] in front;
      var k :| 0 <= k < |front| && front[k] == down[j];
      assert all[k].id < all[|front|].id;
    }
  }

  // ----- Paging ----------------------------------------------------------------------------------------

  /** What one page request meets: the chain as it stands by then, and the page size asked for. */
  datatype View = View(chain: seq<StoredEvent>, limit: nat)

  /** Ask for the next page below the last id seen, until a page comes back empty. */
  function Walk(f: EventFilter, views: seq<View>): seq<StoredEvent>
    requires forall k :: 0 <= k < |views| ==> views[k].limit <= USIZE_MAX
    decreases |views|
  {
    if views == [] then []
    else
      var page := List(views[0].chain, f.(descending := true), views[0].limit);
      if page == [] then []
      else page + Walk(f.(toId := Some(page[|page| - 1].id - 1)), views[1..])
  }

  /** The chain only grows between pages, and every page asks for something. */
  predicate Growing(views: seq<View>) {
    && (forall k :: 0 <= k < |views| ==> 1 <= views[k].limit <= USIZE_MAX && InOrder(views[k].chain))
    && (forall j, k :: 0 <= j <= k < |views| ==> views[j].chain <= views[k].chain)
  }

  lemma {:induction false} AboveTheCursor(chain: seq<StoredEvent>, longer: seq<StoredEvent>, f: EventFilter)
    requires chain <= longer && forall k :: |chain| <= k < |longer| ==> !Matches(f, longer[k])
    ensures NewestFirst(longer, f) == NewestFirst(chain, f)
    decreases |longer|
  {
    if |longer| == |chain| {
      assert longer == chain;
    } else {
      AboveTheCursor(chain, longer[..|longer| - 1], f);
    }
  }

  /** Lowering the bound to just above every row changes nothing. */
  lemma {:induction false} LooseBound(chain: seq<StoredEvent>, f: EventFilter, c: int)
    requires forall k :: 0 <= k < |chain| ==> chain[k].id <= c && AtMost(f.toId, chain[k].id)
    ensures NewestFirst(chain, f.(toId := Some(c))) == NewestFirst(chain, f)
  {
    if chain != [] {
      LooseBound(chain[..|chain| - 1], f, c);
    }
  }

  lemma TailOfCons(last: StoredEvent, rest: seq<StoredEvent>, n: nat)
    requires 1 <= n <= |rest| + 1
    ensures ([last] + rest)[n..] == rest[n - 1..]
    ensures ([last] + rest)[n - 1] == if n == 1 then last else rest[n - 2]
  {
  }

  lemma NewestStep(chain: seq<StoredEvent>, f: EventFilter)
    requires chain != []
    ensures var last := chain[|chain| - 1];
      NewestFirst(chain, f) == (if Matches(f, last) then [last] else []) + NewestFirst(chain[..|chain| - 1], f)
  {
  }

  /** Neither a row at or above the cursor nor one the filter refuses comes with the next page. */
  lemma NoneAtOrAbove(f: EventFilter, e: StoredEvent, x: StoredEvent)
    requires Matches(f, x)
    ensures Matches(f.(toId := Some(x.id - 1)), e) ==> Matches(f, e) && e.id < x.id
  {
  }

  lemma Nth(chain: seq<StoredEvent>, f: EventFilter, n: nat)
    requires InOrder(chain) && 0 < n <= |NewestFirst(chain, f)|
    ensures var x := NewestFirst(chain, f)[n - 1];
      chain != [] && Matches(f, x) && x in chain && x.id <= chain[|chain| - 1].id
  {
    hide Matches;
    ListsAreExact(chain, f);
    assert NewestFirst(chain, f)[n - 1] in NewestFirst(chain, f);
  }

  /** The cursor under the newest row leaves exactly the rows before it. */
  lemma BelowNewest(chain: seq<StoredEvent>, f: EventFilter)
    requires InOrder(chain) && chain != [] && Matches(f, chain[|chain| - 1])
    ensures NewestFirst(chain, f.(toId := Some(chain[|chain| - 1].id - 1))) == NewestFirst(chain[..|chain| - 1], f)
  {
    hide NewestFirst, Matches, InOrder, AtMost;
    var front, last := chain[..|chain| - 1], chain[|chain| - 1];
    NoneAtOrAbove(f, last, last);
    FrontFits(chain, f);
    NewestStep(chain, f.(toId := Some(last.id - 1)));
    LooseBound(front, f, last.id - 1);
  }

  lemma FrontFits(chain: seq<StoredEvent>, f: EventFilter)
    requires InOrder(chain) && chain != [] && Matches(f, chain[|chain| - 1])
    ensures var front, last := chain[..|chain| - 1], chain[|chain| - 1];
      forall k :: 0 <= k < |front| ==> front[k].id <= last.id - 1 && AtMost(f.toId, front[k].id)
  {
  }

  /** The rows below the `n`-th are what a cursor just under it asks for. */
  lemma {:induction false} BelowTheCursor(chain: seq<StoredEvent>, f: EventFilter, n: nat)
    requires InOrder(chain) && 0 < n <= |NewestFirst(chain, f)|
    ensures var down := NewestFirst(chain, f);
      NewestFirst(chain, f.(toId := Some(down[n - 1].id - 1))) == down[n..]
  {
    hide Matches, NewestFirst;
    Nth(chain, f, n);
    NewestStep(chain, f);
    var front, last := chain[..|chain| - 1], chain[|chain| - 1];
    var rest := NewestFirst(front, f);
    var x := NewestFirst(chain, f)[n - 1];
    if Matches(f, last) && n == 1 {
      BelowNewest(chain, f);
      TailOfCons(last, rest, 1);
    } else {
      NewestStep(chain, f.(toId := Some(x.id - 1)));
      NoneAtOrAbove(f, last, x);
      if Matches(f, last) {
        TailOfCons(last, rest, n);
        Nth(front, f, n - 1);
        BelowTheCursor(front, f, n - 1);
      } else {
        BelowTheCursor(front, f, n);
      }
    }
  }

  lemma NextPage(chain: seq<StoredEvent>, longer: seq<StoredEvent>, f: EventFilter, n: nat)
    requires InOrder(longer) && chain <= longer && 0 < n <= |NewestFirst(chain, f)|
    ensures var down := NewestFirst(chain, f);
      NewestFirst(longer, f.(toId := Some(down[n - 1].id - 1))) == down[n..]
  {
    hide NewestFirst;
    var x := NewestFirst(chain, f)[n - 1];
    var g := f.(toId := Some(x.id - 1));
    BelowTheCursor(chain, f, n);
    Nth(chain, f, n);
    var i :| 0 <= i < |chain| && chain[i] == x;
    forall k | |chain| <= k < |longer| ensures !Matches(g, longer[k]) {
      assert longer[i].id < longer[k].id;
    }
    AboveTheCursor(chain, longer, g);
  }

  /**
   Paging newest-first visits, in falling id order, the matches the chain had when the first
   page was read: a prefix of them, at least one a page, hence all of them in the end.
   */
  lemma {:induction false} PagingVisitsOnce(f: EventFilter, views: seq<View>)
    requires views != [] && Growing(views)
    ensures var all := NewestFirst(views[0].chain, f);
      && Walk(f, views) <= all
      && (|Walk(f, views)| >= |views| || Walk(f, views) == all)
    decreases |views|
  {
    hide NewestFirst, Walk, Matches, InOrder;
    var chain := views[0].chain;
    SameRowsDescending(chain, f);
    var all := NewestFirst(chain, f);
    var page := List(chain, f.(descending := true), views[0].limit);
    WalkStep(f, views, page);
    assert page <= all && (page == [] ==> all == []);
    if page != [] && |views| > 1 {
      var g := f.(toId := Some(page[|page| - 1].id - 1));
      NextPage(chain, views[1].chain, f, |page|);
      assert page[|page| - 1] == all[|page| - 1];
      PagingVisitsOnce(g, views[1..]);
      assert all == page + all[|page|..];
    } else if page != [] {
      WalkNothing(f.(toId := Some(page[|page| - 1].id - 1)), views[1..]);
    }
  }

  lemma WalkNothing(f: EventFilter, views: seq<View>)
    requires views == []
    ensures Walk(f, views) == []
  {
  }

  lemma WalkStep(f: EventFilter, views: seq<View>, page: seq<StoredEvent>)
    requires views != [] && forall k :: 0 <= k < |views| ==> views[k].limit <= USIZE_MAX
    requires page == List(views[0].chain, f.(descending := true), views[0].limit)
    ensures Walk(f, views) ==
      if page == [] then [] else page + Walk(f.(toId := Some(page[|page| - 1].id - 1)), views[1..])
  {
    hide List;
  }

  lemma {:induction false} SameRowsDescending(chain: seq<StoredEvent>, f: EventFilter)
    ensures NewestFirst(chain, f.(descending := true)) == NewestFirst(chain, f)
  {
    if chain != [] {
      SameRowsDescending(chain[..|chain| - 1], f);
    }
  }

  // ----- The export that stands on its own -------------------------------------------------------------------

  function SelfContained(chain: seq<StoredEvent>, toId: int): seq<StoredEvent> {
    List(chain, EVERYTHING.(toId := Some(toId)), USIZE_MAX)
  }

  function Within(x: int, bound: nat): nat { if x < 0 then 0 else if x > bound then bound else x }

  lemma {:induction false} PrefixRows(chain: seq<StoredEvent>, toId: int)
    requires CountsFromOne(chain)
    ensures OldestFirst(chain, EVERYTHING.(toId := Some(toId))) == chain[..Within(toId, |chain|)]
  {
    if chain != [] {
      var n := |chain| - 1;
      PrefixRows(chain[..n], toId);
      assert chain[..n + 1] == chain[..n] + [chain[n]];
    }
  }

  /** The export up to an id is the chain's prefix: the largest limit cuts nothing off. */
  lemma ExportIsThePrefix(chain: seq<StoredEvent>, toId: int)
    requires CountsFromOne(chain)
    ensures SelfContained(chain, toId) == chain[..Within(toId, |chain|)]
  {
    PrefixRows(chain, toId);
  }

  function Decoded(c: Codec, rows: seq<RawRow>): (chain: seq<StoredEvent>)
    ensures |chain| == |rows|
    ensures forall i :: 0 <= i < |rows| ==> chain[i] == DecodedRow(c, rows[i])
  {
    seq(|rows|, i requires 0 <= i < |rows| => DecodedRow(c, rows[i]))
  }

  function DecodedRow(c: Codec, r: RawRow): StoredEvent {
    StoredEvent(r.id, Event(r.timestampMs, r.actor, r.action, c.parse(r.detailJson), r.agentId), r.prevHash, r.hash)
  }

  /** The stored text of the detail is what printing its parsed value gives. */
  predicate Survives(c: Codec, r: RawRow) { c.print_(c.parse(r.detailJson)) == r.detailJson }

  /**
   Written out and read into an empty database, the export verifies exactly when every detail
   in it survives parsing and printing, and then its rows are the chain's first rows.
   */
  lemma {:induction false} ExportVerifiesExactly(c: Codec, rows: seq<RawRow>, toId: int)
    requires HexDigest(c.digest) && Intact(c.digest, rows) && GapFree(rows)
    ensures var n := Within(toId, |rows|);
      var out := Raws(c, SelfContained(Decoded(c, rows), toId));
      && ((forall k :: 0 <= k < n ==> Survives(c, rows[k])) ==>
            out == rows[..n] && Intact(c.digest, out))
      && (Intact(c.digest, out) ==>
            (forall k :: 0 <= k < n ==> Survives(c, rows[k])) ||
            HashBreak(c.digest, Texts(rows) + Texts(out)))
  {
    hide HashBreak, Texts, HexDigest, RowText, Intact, Survives;
    var n := Within(toId, |rows|);
    var chain := Decoded(c, rows);
    ExportIsThePrefix(chain, toId);
    var out := Raws(c, SelfContained(chain, toId));
    if forall k :: 0 <= k < n ==> Survives(c, rows[k]) {
      forall k | 0 <= k < n ensures out[k] == rows[k] {
        SurvivorIsKept(c, rows[k]);
      }
      IntactPrefix(c.digest, rows, n);
    }
    if Intact(c.digest, out) && !HashBreak(c.digest, Texts(rows) + Texts(out)) {
      forall k | 0 <= k < n ensures Survives(c, rows[k]) {
        SurvivesIfOk(c, rows, out, k);
      }
    }
  }

  lemma SurvivorIsKept(c: Codec, r: RawRow)
    requires Survives(c, r)
    ensures Raw(c, DecodedRow(c, r)) == r
  {
  }

  lemma SurvivesIfOk(c: Codec, rows: seq<RawRow>, out: seq<RawRow>, k: nat)
    requires HexDigest(c.digest) && Intact(c.digest, rows) && Intact(c.digest, out)
    requires !HashBreak(c.digest, Texts(rows) + Texts(out))
    requires k < |rows| && k < |out| && out[k] == Raw(c, DecodedRow(c, rows[k]))
    ensures Survives(c, rows[k])
  {
    hide HashBreak, RowText, HexDigest;
    var r, q := rows[k], out[k];
    PrevHashIsPipeFree(c.digest, rows, k);
    assert RowOk(c.digest, rows, k) && RowOk(c.digest, out, k);
    assert RowText(r) in Texts(rows) && RowText(q) in Texts(out);
    WithoutBreak(c.digest, Texts(rows) + Texts(out), RowText(r), RowText(q));
    PreImageHeadIsReadable(r, q);
    var head := r.actor + ['|'] + r.action + ['|'];
    assert Joined(r.actor, r.action, r.detailJson)[|head|..] == r.detailJson;
    assert Joined(q.actor, q.action, q.detailJson)[|head|..] == q.detailJson;
  }
}
