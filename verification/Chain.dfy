/**
 The hash chain and its verification (`audit/src/hash.rs`).

 The digest is a parameter. Nothing below assumes it free of collisions (no function
 onto 64 hex characters is): each tamper-evidence result says "or these very rows
 exhibit a collision, or a text that hashes to the genesis value".
 */
module Chain {
  import opened Wrappers
  import opened Text
  import opened Json

  /** 64 zeros: the `prev_hash` of the very first event. */
  const GENESIS_PREV_HASH: string := Zeros(64)

  function Zeros(n: nat): (s: string)
    ensures |s| == n && forall i :: 0 <= i < n ==> s[i] == '0'
  {
    if n == 0 then "" else Zeros(n - 1) + "0"
  }

  /** What a caller submits. */
  datatype Event = Event(
    timestampMs: int, actor: string, action: string, detail: Json, agentId: Option<string>)

  /** A row of `audit_events`, with the detail kept as the text that was hashed. */
  datatype RawRow = RawRow(
    id: int, timestampMs: int, actor: string, action: string, detailJson: string,
    prevHash: string, hash: string, agentId: Option<string>)

  /** An event as read back: its position in the chain and its decoded detail. */
  datatype StoredEvent = StoredEvent(id: int, event: Event, prevHash: string, hash: string)

  predicate InOrder(chain: seq<StoredEvent>) {
    forall i, j :: 0 <= i < j < |chain| ==> chain[i].id < chain[j].id
  }

  predicate CountsFromOne(chain: seq<StoredEvent>) {
    forall i :: 0 <= i < |chain| ==> chain[i].id == i + 1
  }

  type Digest = string -> string

  predicate IsHex(c: char) { '0' <= c <= '9' || 'a' <= c <= 'f' }

  /** `hex::encode` of a 32-byte digest. */
  ghost predicate HexDigest(h: Digest) {
    forall x: string :: |h(x)| == 64 && forall i :: 0 <= i < 64 ==> IsHex(h(x)[i])
  }

  // ----- The pre-image ----------------------------------------------------------------

  /** The three free-text fields, joined. */
  function Joined(actor: string, action: string, detail: string): string {
    actor + "|" + (action + "|" + detail)
  }

  function PreImage(prev: string, ts: int, actor: string, action: string, detail: string): string {
    prev + "|" + (IntText(ts) + "|" + Joined(actor, action, detail))
  }

  /** Five fields with a bar between each two, in the order they are hashed. */
  lemma PreImageIsJoined(prev: string, ts: int, actor: string, action: string, detail: string)
    ensures PreImage(prev, ts, actor, action, detail) == Join([prev, IntText(ts), actor, action, detail], '|')
  {
    hide IntText;
    var parts := [prev, IntText(ts), actor, action, detail];
    assert parts[1..] == [IntText(ts), actor, action, detail];
    assert parts[1..][1..] == [actor, action, detail];
    assert parts[1..][1..][1..] == [action, detail] && parts[1..][1..][1..][1..] == [detail];
    assert Join([action, detail], '|') == action + "|" + detail;
    assert Join([actor, action, detail], '|') == actor + "|" + Join([action, detail], '|');
    assert Join([IntText(ts), actor, action, detail], '|') == IntText(ts) + "|" + Join([actor, action, detail], '|');
  }

  function ComputeHash(
      h: Digest, prev: string, ts: int, actor: string, action: string, detail: string): string {
    h(PreImage(prev, ts, actor, action, detail))
  }

  function RowText(r: RawRow): string {
    PreImage(r.prevHash, r.timestampMs, r.actor, r.action, r.detailJson)
  }

  /** The previous hash, the timestamp and the joined tail can always be read back. */
  lemma PreImageHeadIsReadable(r: RawRow, q: RawRow)
    requires Free('|', r.prevHash) && Free('|', q.prevHash)
    requires RowText(r) == RowText(q)
    ensures r.prevHash == q.prevHash && r.timestampMs == q.timestampMs
    ensures Joined(r.actor, r.action, r.detailJson) == Joined(q.actor, q.action, q.detailJson)
  {
    var rTail := IntText(r.timestampMs) + "|" + Joined(r.actor, r.action, r.detailJson);
    var qTail := IntText(q.timestampMs) + "|" + Joined(q.actor, q.action, q.detailJson);
    FirstCutIsUnique('|', r.prevHash, rTail, q.prevHash, qTail);
    IntTextIsFree(r.timestampMs, '|');
    IntTextIsFree(q.timestampMs, '|');
    FirstCutIsUnique('|', IntText(r.timestampMs), Joined(r.actor, r.action, r.detailJson),
                     IntText(q.timestampMs), Joined(q.actor, q.action, q.detailJson));
    IntTextInjective(r.timestampMs, q.timestampMs);
  }

  /** Pipe-free actors and actions make the joined text unambiguous. */
  lemma JoinedInjective(a: string, b: string, d: string, a': string, b': string, d': string)
    requires Free('|', a) && Free('|', b) && Free('|', a') && Free('|', b')
    requires Joined(a, b, d) == Joined(a', b', d')
    ensures a == a' && b == b' && d == d'
  {
    FirstCutIsUnique('|', a, b + "|" + d, a', b' + "|" + d');
    FirstCutIsUnique('|', b, d, b', d');
  }

  ghost predicate OnlyReading(a: string, b: string, d: string) {
    forall a', b', d' :: Joined(a', b', d') == Joined(a, b, d) ==> a' == a && b' == b && d' == d
  }

  /**
   Without that discipline the text is ambiguous: a triple is the only reading of its
   joined text exactly when none of its three parts holds a pipe.
   */
  lemma ReadingIsUniqueIff(a: string, b: string, d: string)
    ensures OnlyReading(a, b, d) <==> Free('|', a) && Free('|', b) && Free('|', d)
  {
    if !Free('|', a) {
      var i :| 0 <= i < |a| && a[i] == '|';
      assert a == a[..i] + "|" + a[i + 1..];
      assert Joined(a[..i], a[i + 1..], b + "|" + d) == Joined(a, b, d);
    } else if !Free('|', b) {
      var i :| 0 <= i < |b| && b[i] == '|';
      assert b == b[..i] + "|" + b[i + 1..];
      assert Joined(a, b[..i], b[i + 1..] + "|" + d) == Joined(a, b, d);
    } else if !Free('|', d) {
      var i :| 0 <= i < |d| && d[i] == '|';
      assert d == d[..i] + "|" + d[i + 1..];
      assert Joined(a + "|" + b, d[..i], d[i + 1..]) == Joined(a, b, d);
    } else {
      forall a', b', d' | Joined(a', b', d') == Joined(a, b, d)
        ensures a' == a && b' == b && d' == d
      {
        PipesIn(a', b', d');
        PipesIn(a, b, d);
        JoinedInjective(a, b, d, a', b', d');
      }
    }
  }

  function Pipes(s: string): nat {
    if s == "" then 0 else (if s[0] == '|' then 1 else 0) + Pipes(s[1..])
  }

  lemma {:induction false} PipesOfConcat(s: string, t: string)
    ensures Pipes(s + t) == Pipes(s) + Pipes(t)
  {
    if s == "" {
      assert s + t == t;
    } else {
      assert (s + t)[1..] == s[1..] + t;
      PipesOfConcat(s[1..], t);
    }
  }

  lemma {:induction false} NoPipes(s: string)
    ensures Pipes(s) == 0 <==> Free('|', s)
  {
    if s != "" {
      NoPipes(s[1..]);
      assert s == [s[0]] + s[1..];
    }
  }

  lemma PipesIn(a: string, b: string, d: string)
    ensures Pipes(Joined(a, b, d)) == 2 <==> Free('|', a) && Free('|', b) && Free('|', d)
  {
    PipesOfConcat(a + "|", b + "|" + d);
    PipesOfConcat(a, "|");
    PipesOfConcat(b + "|", d);
    PipesOfConcat(b, "|");
    NoPipes(a);
    NoPipes(b);
    NoPipes(d);
  }

  // ----- Intact chains ----------------------------------------------------------------

  /** The hash a new row links to. */
  function Head(rows: seq<RawRow>): string {
    if rows == [] then GENESIS_PREV_HASH else rows[|rows| - 1].hash
  }

  predicate RowOk(h: Digest, rows: seq<RawRow>, k: nat)
    requires k < |rows|
  {
    rows[k].prevHash == Head(rows[..k]) && h(RowText(rows[k])) == rows[k].hash
  }

  predicate Intact(h: Digest, rows: seq<RawRow>) {
    forall k :: 0 <= k < |rows| ==> RowOk(h, rows, k)
  }

  lemma IntactPrefix(h: Digest, rows: seq<RawRow>, n: nat)
    requires Intact(h, rows) && n <= |rows|
    ensures Intact(h, rows[..n])
  {
    forall k | 0 <= k < n ensures RowOk(h, rows[..n], k) {
      assert RowOk(h, rows, k);
      assert rows[..n][..k] == rows[..k];
    }
  }

  lemma IntactExtend(h: Digest, rows: seq<RawRow>, row: RawRow)
    requires Intact(h, rows)
    requires row.prevHash == Head(rows) && row.hash == h(RowText(row))
    ensures Intact(h, rows + [row])
  {
    var all := rows + [row];
    forall k | 0 <= k < |all| ensures RowOk(h, all, k) {
      assert all[..k] == rows[..k];
      assert k < |rows| ==> RowOk(h, rows, k);
      assert rows[..|rows|] == rows;
    }
  }

  datatype Reason =
    | PrevHashMismatch(expected: string, found: string)
    | HashMismatch(expected: string, found: string)

  datatype ChainStatus =
    | ChainIntact(length: nat)
    | ChainBroken(atId: int, reason: Reason)

  /** Row `k` is the first to fail: everything before it is an intact chain. */
  predicate FirstFailure(h: Digest, rows: seq<RawRow>, k: nat) {
    k < |rows| && Intact(h, rows[..k]) && !RowOk(h, rows, k)
  }

  /** The walk of `verify_chain`: linkage first, then the recomputed hash. */
  method VerifyChain(h: Digest, rows: seq<RawRow>) returns (status: ChainStatus)
    ensures status.ChainIntact? <==> Intact(h, rows)
    ensures status.ChainIntact? ==> status.length == |rows|
    ensures status.ChainBroken? ==> exists k: nat ::
      FirstFailure(h, rows, k) && status.atId == rows[k].id &&
      status.reason ==
        if rows[k].prevHash != Head(rows[..k])
        then PrevHashMismatch(Head(rows[..k]), rows[k].prevHash)
        else HashMismatch(h(RowText(rows[k])), rows[k].hash)
  {
    var expectedPrev := GENESIS_PREV_HASH;
    for i := 0 to |rows|
      invariant Intact(h, rows[..i]) && expectedPrev == Head(rows[..i])
    {
      var row := rows[i];
      if row.prevHash != expectedPrev {
        assert FirstFailure(h, rows, i);
        return ChainBroken(row.id, PrevHashMismatch(expectedPrev, row.prevHash));
      }
      var recomputed := ComputeHash(
        h, row.prevHash, row.timestampMs, row.actor, row.action, row.detailJson);
      if recomputed != row.hash {
        assert FirstFailure(h, rows, i);
        return ChainBroken(row.id, HashMismatch(recomputed, row.hash));
      }
      IntactExtend(h, rows[..i], row);
      assert rows[..i + 1] == rows[..i] + [row];
      expectedPrev := row.hash;
    }
    assert rows[..|rows|] == rows;
    status := ChainIntact(|rows|);
  }

  /** The answer names one row only, and there is one exactly when the chain is not intact. */
  lemma FirstFailureIsUnique(h: Digest, rows: seq<RawRow>, k: nat)
    requires FirstFailure(h, rows, k)
    ensures !Intact(h, rows) && forall j :: FirstFailure(h, rows, j) ==> j == k
    ensures forall j :: k < j <= |rows| ==> !Intact(h, rows[..j])
  {
    forall j | 0 <= j < k ensures RowOk(h, rows, j) {
      assert RowOk(h, rows[..k], j) && rows[..k][..j] == rows[..j];
    }
    forall j | k < j <= |rows| ensures !Intact(h, rows[..j]) {
      assert rows[..j][..k] == rows[..k];
      assert !RowOk(h, rows[..j], k);
    }
  }

  // ----- Tamper evidence --------------------------------------------------------------

  ghost function Texts(rows: seq<RawRow>): set<string> {
    set i | 0 <= i < |rows| :: RowText(rows[i])
  }

  /** The hashed texts, in chain order. */
  function TextsInOrder(rows: seq<RawRow>): (ts: seq<string>)
    ensures |ts| == |rows| && forall i :: 0 <= i < |ts| ==> ts[i] == RowText(rows[i])
  {
    seq(|rows|, i requires 0 <= i < |rows| => RowText(rows[i]))
  }

  /** Two different texts with one hash, or a text that hashes to the genesis value. */
  ghost predicate HashBreak(h: Digest, texts: set<string>) {
    (exists x, y :: x in texts && y in texts && x != y && h(x) == h(y)) ||
    (exists x :: x in texts && h(x) == GENESIS_PREV_HASH)
  }

  lemma WithoutBreak(h: Digest, texts: set<string>, x: string, y: string)
    requires !HashBreak(h, texts) && x in texts && y in texts
    ensures h(x) != GENESIS_PREV_HASH && (h(x) == h(y) ==> x == y)
  {
  }

  lemma PrefixTexts(rows: seq<RawRow>, n: nat)
    requires n <= |rows|
    ensures Texts(rows[..n]) <= Texts(rows)
  {
  }

  lemma PrevHashIsPipeFree(h: Digest, rows: seq<RawRow>, k: nat)
    requires HexDigest(h) && Intact(h, rows) && k < |rows|
    ensures Free('|', rows[k].prevHash)
  {
    assert RowOk(h, rows, k);
    if k > 0 {
      assert RowOk(h, rows, k - 1);
      assert rows[..k][k - 1] == rows[k - 1];
    }
  }

  /** Two intact chains with one head hashed the same texts, in the same places. */
  lemma {:induction false} OneHeadOneChain(
      h: Digest, xs: seq<RawRow>, ys: seq<RawRow>, texts: set<string>)
    requires HexDigest(h) && Intact(h, xs) && Intact(h, ys)
    requires Head(xs) == Head(ys)
    requires Texts(xs) <= texts && Texts(ys) <= texts && !HashBreak(h, texts)
    ensures TextsInOrder(xs) == TextsInOrder(ys)
  {
    hide RowText, HashBreak, HexDigest;
    var m, n := |xs|, |ys|;
    if m > 0 && n > 0 {
      LastRowsAgree(h, xs, ys, texts);
      IntactPrefix(h, xs, m - 1);
      IntactPrefix(h, ys, n - 1);
      PrefixTexts(xs, m - 1);
      PrefixTexts(ys, n - 1);
      OneHeadOneChain(h, xs[..m - 1], ys[..n - 1], texts);
    } else if m > 0 {
      HeadIsNotGenesis(h, xs, texts);
    } else if n > 0 {
      HeadIsNotGenesis(h, ys, texts);
    }
  }

  lemma HeadIsNotGenesis(h: Digest, rows: seq<RawRow>, texts: set<string>)
    requires rows != [] && Intact(h, rows) && Texts(rows) <= texts && !HashBreak(h, texts)
    ensures Head(rows) != GENESIS_PREV_HASH
  {
    assert RowOk(h, rows, |rows| - 1);
    assert RowText(rows[|rows| - 1]) in Texts(rows);
  }

  lemma LastRowsAgree(h: Digest, xs: seq<RawRow>, ys: seq<RawRow>, texts: set<string>)
    requires HexDigest(h) && Intact(h, xs) && Intact(h, ys)
    requires xs != [] && ys != [] && Head(xs) == Head(ys)
    requires Texts(xs) <= texts && Texts(ys) <= texts && !HashBreak(h, texts)
    ensures RowText(xs[|xs| - 1]) == RowText(ys[|ys| - 1])
    ensures Head(xs[..|xs| - 1]) == Head(ys[..|ys| - 1])
  {
    var x, y := xs[|xs| - 1], ys[|ys| - 1];
    assert RowOk(h, xs, |xs| - 1) && RowOk(h, ys, |ys| - 1);
    assert RowText(x) in Texts(xs) && RowText(y) in Texts(ys);
    WithoutBreak(h, texts, RowText(x), RowText(y));
    PrevHashIsPipeFree(h, xs, |xs| - 1);
    PrevHashIsPipeFree(h, ys, |ys| - 1);
    PreImageHeadIsReadable(x, y);
  }

  ghost predicate PipeFree(rows: seq<RawRow>) {
    forall i :: 0 <= i < |rows| ==> Free('|', rows[i].actor) && Free('|', rows[i].action)
  }

  /** Equal in everything the hash covers. */
  predicate SameRecord(r: RawRow, q: RawRow) {
    r.timestampMs == q.timestampMs && r.actor == q.actor && r.action == q.action &&
    r.detailJson == q.detailJson && r.prevHash == q.prevHash && r.hash == q.hash
  }

  ghost predicate SameRecords(xs: seq<RawRow>, ys: seq<RawRow>) {
    |xs| == |ys| && forall i :: 0 <= i < |xs| ==> SameRecord(xs[i], ys[i])
  }

  /**
   The head commits to the whole log: an intact chain that ends in the hash of row
   `n - 1` of another is, row by row, that chain's first `n` rows.
   */
  lemma HeadCommitsToHistory(h: Digest, xs: seq<RawRow>, n: nat, ys: seq<RawRow>)
    requires HexDigest(h) && Intact(h, xs) && Intact(h, ys) && PipeFree(xs) && PipeFree(ys)
    requires n <= |xs| && Head(ys) == Head(xs[..n])
    ensures SameRecords(xs[..n], ys) || HashBreak(h, Texts(xs) + Texts(ys))
  {
    var us := xs[..n];
    IntactPrefix(h, xs, n);
    if !HashBreak(h, Texts(xs) + Texts(ys)) {
      PrefixTexts(xs, n);
      OneHeadOneChain(h, us, ys, Texts(xs) + Texts(ys));
      assert |TextsInOrder(us)| == |TextsInOrder(ys)|;
      forall i | 0 <= i < n ensures SameRecord(us[i], ys[i]) {
        PrevHashIsPipeFree(h, us, i);
        PrevHashIsPipeFree(h, ys, i);
        assert TextsInOrder(us)[i] == TextsInOrder(ys)[i];
        PreImageHeadIsReadable(us[i], ys[i]);
        JoinedInjective(us[i].actor, us[i].action, us[i].detailJson,
                        ys[i].actor, ys[i].action, ys[i].detailJson);
        assert RowOk(h, us, i) && RowOk(h, ys, i);
      }
    }
  }

  /** Altering a row in place is reported, unless it is the last row and its hash changes too. */
  lemma AlterationIsReported(h: Digest, xs: seq<RawRow>, i: nat, row: RawRow)
    requires HexDigest(h) && Intact(h, xs) && PipeFree(xs) && i < |xs|
    requires Free('|', row.actor) && Free('|', row.action)
    requires !SameRecord(row, xs[i])
    requires i < |xs| - 1 || row.hash == xs[i].hash
    ensures !Intact(h, xs[i := row]) || HashBreak(h, Texts(xs) + Texts(xs[i := row]))
  {
    var ys := xs[i := row];
    if Intact(h, ys) {
      assert xs[..|xs|] == xs;
      HeadCommitsToHistory(h, xs, |xs|, ys);
    }
  }

  /** The last row may be rewritten, if it is linked and hashed again: nothing commits to it yet. */
  lemma LastRowMayBeRewritten(h: Digest, xs: seq<RawRow>, row: RawRow)
    requires Intact(h, xs) && xs != []
    ensures var n := |xs| - 1;
      Intact(h, xs[n := row]) <==> row.prevHash == Head(xs[..n]) && row.hash == h(RowText(row))
  {
    hide RowText;
    var n := |xs| - 1;
    var ys := xs[n := row];
    assert ys[..n] == xs[..n];
    IntactPrefix(h, xs, n);
    if row.prevHash == Head(xs[..n]) && row.hash == h(RowText(row)) {
      IntactExtend(h, xs[..n], row);
      assert ys == xs[..n] + [row];
    }
    if Intact(h, ys) {
      assert RowOk(h, ys, n);
    }
  }

  /**
   An altered row goes unreported exactly when it records the same, or is the last and was
   linked and hashed again.
   */
  lemma AlterationIsExact(h: Digest, xs: seq<RawRow>, i: nat, row: RawRow)
    requires HexDigest(h) && Intact(h, xs) && PipeFree(xs) && i < |xs|
    requires Free('|', row.actor) && Free('|', row.action)
    ensures HashBreak(h, Texts(xs) + Texts(xs[i := row])) ||
      (Intact(h, xs[i := row]) <==>
        SameRecord(row, xs[i]) ||
        (i == |xs| - 1 && row.prevHash == Head(xs[..i]) && row.hash == h(RowText(row))))
  {
    if SameRecord(row, xs[i]) {
      SameRecordIsUnreported(h, xs, i, row);
    } else if i == |xs| - 1 {
      LastRowMayBeRewritten(h, xs, row);
    } else {
      AlterationIsReported(h, xs, i, row);
    }
  }

  lemma SameRecordIsUnreported(h: Digest, xs: seq<RawRow>, i: nat, row: RawRow)
    requires Intact(h, xs) && i < |xs| && SameRecord(row, xs[i])
    ensures Intact(h, xs[i := row])
  {
    var ys := xs[i := row];
    forall k | 0 <= k < |ys| ensures RowOk(h, ys, k) {
      assert RowOk(h, xs, k);
      assert k > 0 ==> ys[..k][k - 1] == ys[k - 1] && xs[..k][k - 1] == xs[k - 1];
    }
  }

  /** The rows of an intact chain have pairwise different hashes. */
  lemma HashesAreDistinct(h: Digest, rows: seq<RawRow>, i: nat, j: nat)
    requires HexDigest(h) && Intact(h, rows) && i < j < |rows|
    ensures rows[i].hash != rows[j].hash || HashBreak(h, Texts(rows))
  {
    if rows[i].hash == rows[j].hash && !HashBreak(h, Texts(rows)) {
      PrefixHeadsDiffer(h, rows, i + 1, j + 1);
      assert false;
    }
  }

  lemma PrefixHeadsDiffer(h: Digest, rows: seq<RawRow>, m: nat, n: nat)
    requires HexDigest(h) && Intact(h, rows) && m <= |rows| && n <= |rows|
    requires Head(rows[..m]) == Head(rows[..n])
    requires !HashBreak(h, Texts(rows))
    ensures m == n
  {
    IntactPrefix(h, rows, m);
    IntactPrefix(h, rows, n);
    PrefixTexts(rows, m);
    PrefixTexts(rows, n);
    OneHeadOneChain(h, rows[..m], rows[..n], Texts(rows));
    assert |TextsInOrder(rows[..m])| == |TextsInOrder(rows[..n])|;
  }

  /** Some row of `xs` records the same, under whatever id. */
  predicate RecordedIn(row: RawRow, xs: seq<RawRow>) {
    exists j :: 0 <= j < |xs| && SameRecord(row, xs[j])
  }

  predicate MadeOf(ys: seq<RawRow>, xs: seq<RawRow>) {
    forall i :: 0 <= i < |ys| ==> RecordedIn(ys[i], xs)
  }

  /**
   Deleting, repeating or reordering records, under any ids, is reported: the only intact
   chains made of an intact chain's records are its prefixes.
   */
  lemma {:induction false} RearrangementIsAPrefix(h: Digest, xs: seq<RawRow>, ys: seq<RawRow>)
    requires HexDigest(h) && Intact(h, xs) && Intact(h, ys) && MadeOf(ys, xs)
    ensures (|ys| <= |xs| && SameRecords(ys, xs[..|ys|])) || HashBreak(h, Texts(xs))
  {
    hide HashBreak, HexDigest, Texts, Intact, RecordedIn;
    if ys != [] {
      var n := |ys| - 1;
      IntactPrefix(h, ys, n);
      RearrangementIsAPrefix(h, xs, ys[..n]);
      if !HashBreak(h, Texts(xs)) {
        NextRecordIsForced(h, xs, ys);
      }
    }
  }

  lemma NextRecordIsForced(h: Digest, xs: seq<RawRow>, ys: seq<RawRow>)
    requires HexDigest(h) && Intact(h, xs) && Intact(h, ys) && !HashBreak(h, Texts(xs))
    requires ys != [] && MadeOf(ys, xs)
    requires |ys| - 1 <= |xs| && SameRecords(ys[..|ys| - 1], xs[..|ys| - 1])
    ensures |ys| <= |xs| && SameRecords(ys, xs[..|ys|])
  {
    hide RowText, HashBreak, HexDigest, Texts, Intact;
    var n := |ys| - 1;
    assert RecordedIn(ys[n], xs);
    var j :| 0 <= j < |xs| && SameRecord(ys[n], xs[j]);
    LinkIsHead(h, xs, j);
    LinkIsHead(h, ys, n);
    SameHeads(ys[..n], xs[..n]);
    PrefixHeadsDiffer(h, xs, n, j);
    forall i | 0 <= i <= n ensures SameRecord(ys[i], xs[..n + 1][i]) {
      assert i < n ==> SameRecord(ys[..n][i], xs[..n][i]);
    }
  }

  lemma LinkIsHead(h: Digest, rows: seq<RawRow>, k: nat)
    requires Intact(h, rows) && k < |rows|
    ensures rows[k].prevHash == Head(rows[..k])
  {
    assert RowOk(h, rows, k);
  }

  lemma SameHeads(xs: seq<RawRow>, ys: seq<RawRow>)
    requires SameRecords(xs, ys)
    ensures Head(xs) == Head(ys)
  {
    assert xs != [] ==> SameRecord(xs[|xs| - 1], ys[|ys| - 1]);
  }

  // ----- Appending ----------------------------------------------------------------------

  type Printer = Json -> string

  /** The row for an event, on top of the head `prev`. */
  function RowOn(h: Digest, print_: Printer, prev: string, id: int, e: Event): RawRow {
    var text := print_(e.detail);
    RawRow(id, e.timestampMs, e.actor, e.action, text, prev,
           ComputeHash(h, prev, e.timestampMs, e.actor, e.action, text), e.agentId)
  }

  /** The row `append_once` inserts on top of `rows`; ids count from 1 without gaps. */
  function NextRow(h: Digest, print_: Printer, rows: seq<RawRow>, e: Event): RawRow {
    RowOn(h, print_, Head(rows), |rows| + 1, e)
  }

  /** The `UNIQUE` constraint on `hash`. */
  predicate HashTaken(rows: seq<RawRow>, hash: string) {
    exists i :: 0 <= i < |rows| && rows[i].hash == hash
  }

  predicate GapFree(rows: seq<RawRow>) {
    forall i :: 0 <= i < |rows| ==> rows[i].id == i + 1
  }

  lemma AppendKeepsIntact(h: Digest, print_: Printer, rows: seq<RawRow>, e: Event)
    requires Intact(h, rows) && GapFree(rows)
    ensures Intact(h, rows + [NextRow(h, print_, rows, e)])
    ensures GapFree(rows + [NextRow(h, print_, rows, e)])
  {
    IntactExtend(h, rows, NextRow(h, print_, rows, e));
  }

  /** An intact chain never refuses an append for its hash, short of a break. */
  lemma UniqueNeverRejects(h: Digest, print_: Printer, rows: seq<RawRow>, e: Event)
    requires HexDigest(h) && Intact(h, rows)
    ensures !HashTaken(rows, NextRow(h, print_, rows, e).hash) ||
      HashBreak(h, Texts(rows + [NextRow(h, print_, rows, e)]))
  {
    var all := rows + [NextRow(h, print_, rows, e)];
    IntactExtend(h, rows, NextRow(h, print_, rows, e));
    forall i | 0 <= i < |rows|
      ensures rows[i].hash != all[|rows|].hash || HashBreak(h, Texts(all))
    {
      HashesAreDistinct(h, all, i, |rows|);
    }
  }
}
