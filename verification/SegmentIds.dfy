/**
 Segment ids (`safe_owner` in `audit/src/segment.rs`, `free_segment_id` in
 `audit/src/store.rs`).
 */
module SegmentIds {
  import opened Wrappers
  import opened Text

  const OWNER_MAX_CHARS := 48
  const U32_MAX := 0xFFFF_FFFF

  // ----- The owner's part of an id ---------------------------------------------------------

  predicate SafeChar(ch: char) {
    '0' <= ch <= '9' || 'a' <= ch <= 'z' || 'A' <= ch <= 'Z' || ch == '-' || ch == '_' || ch == '.'
  }

  function Safe(ch: char): char { if SafeChar(ch) then ch else '_' }

  /** The first 48 characters, each made safe. */
  function SafePrefix(owner: string, n: nat): (s: string)
    requires n <= |owner|
    ensures |s| == n && forall i :: 0 <= i < n ==> s[i] == Safe(owner[i])
  {
    if n == 0 then "" else SafePrefix(owner, n - 1) + [Safe(owner[n - 1])]
  }

  function StripDots(s: string): (r: string)
    ensures r <= s && (r != "" ==> r[|r| - 1] != '.')
    ensures forall i :: |r| <= i < |s| ==> s[i] == '.'
  {
    if s != "" && s[|s| - 1] == '.' then StripDots(s[..|s| - 1]) else s
  }

  function SafeOwner(owner: string): string {
    var n := if |owner| < OWNER_MAX_CHARS then |owner| else OWNER_MAX_CHARS;
    var s := StripDots(SafePrefix(owner, n));
    if s == "" then "node" else s
  }

  /** The two loops of `safe_owner`. */
  method SafeOwnerLoop(owner: string) returns (out: string)
    ensures out == SafeOwner(owner)
  {
    out := "";
    var i := 0;
    while i < |owner|
      invariant 0 <= i <= |owner| && i <= OWNER_MAX_CHARS && out == SafePrefix(owner, i)
      invariant i == OWNER_MAX_CHARS ==> i == |owner|
    {
      out := out + [Safe(owner[i])];
      i := i + 1;
      if |out| >= OWNER_MAX_CHARS {
        break;
      }
    }
    ghost var full := out;
    while out != "" && out[|out| - 1] == '.'
      invariant StripDots(out) == StripDots(full)
      decreases |out|
    {
      out := out[..|out| - 1];
    }
    if out == "" {
      out := "node";
    }
  }

  /** A name already usable as it stands. */
  predicate IsSafeOwner(s: string) {
    0 < |s| <= OWNER_MAX_CHARS && s[|s| - 1] != '.' && forall i :: 0 <= i < |s| ==> SafeChar(s[i])
  }

  /**
   The result can always name a file, cannot steer a path, and a usable name is kept:
   the usable names are exactly the fixed points.
   */
  lemma SafeOwnerIsSafe(owner: string)
    ensures IsSafeOwner(SafeOwner(owner)) && '/' !in SafeOwner(owner) && '\\' !in SafeOwner(owner)
    ensures SafeOwner(owner) == owner <==> IsSafeOwner(owner)
  {
    var n := if |owner| < OWNER_MAX_CHARS then |owner| else OWNER_MAX_CHARS;
    StrippedIsSafe(SafePrefix(owner, n));
    SafeHasNoSlash(SafeOwner(owner));
    if IsSafeOwner(owner) {
      assert SafePrefix(owner, n) == owner;
      hide SafePrefix, StripDots, SafeChar;
      StripsNothing(owner);
    }
  }

  lemma SafeHasNoSlash(s: string)
    ensures IsSafeOwner(s) ==> '/' !in s && '\\' !in s
  {
  }

  lemma StripsNothing(s: string)
    requires s != "" && s[|s| - 1] != '.'
    ensures StripDots(s) == s
  {
  }

  lemma StrippedIsSafe(s: string)
    requires |s| <= OWNER_MAX_CHARS && forall i :: 0 <= i < |s| ==> SafeChar(s[i])
    ensures StripDots(s) != "" ==> IsSafeOwner(StripDots(s))
  {
    hide SafeChar;
  }

  /** `r` is the first `m` of at most 48 characters, each safe, and only dots follow; or `node` if none are left. */
  predicate MadeSafe(owner: string, m: nat, r: string) {
    var n := if |owner| < 48 then |owner| else 48;
    && m <= n && (forall i :: m <= i < n ==> owner[i] == '.') && (m > 0 ==> owner[m - 1] != '.')
    && if m == 0 then r == "node"
       else |r| == m && forall i :: 0 <= i < m ==> r[i] == if SafeChar(owner[i]) then owner[i] else '_'
  }

  /** Letters, digits, dashes, underscores and dots of the first 48 are kept, others become `_`; trailing dots go. */
  lemma SafeOwnerExactly(owner: string)
    ensures exists m: nat :: MadeSafe(owner, m, SafeOwner(owner))
  {
    var n := if |owner| < 48 then |owner| else 48;
    var m := |StripDots(SafePrefix(owner, n))|;
    assert forall i :: m <= i < n ==> SafePrefix(owner, n)[i] == '.';
    assert m > 0 ==> StripDots(SafePrefix(owner, n))[m - 1] == SafePrefix(owner, n)[m - 1];
    assert MadeSafe(owner, m, SafeOwner(owner));
  }

  // ----- Minting ---------------------------------------------------------------------------------

  /** `seg-<owner>-` or `seg-`, then the millisecond, then a suffix from 2 on. */
  function Stem(owner: Option<string>): string {
    match owner
    case Some(o) => "seg-" + SafeOwner(o) + "-"
    case None => "seg-"
  }

  function MintId(owner: Option<string>, now: nat, suffix: Option<nat>): string {
    Stem(owner) + NatText(now) + (if suffix.Some? then "-" + NatText(suffix.value) else "")
  }

  /** The `k`-th name tried: no suffix, then 2, 3, ... */
  function Candidate(owner: Option<string>, now: nat, k: nat): string {
    MintId(owner, now, if k == 0 then None else Some(k + 1))
  }

  lemma CandidatesDiffer(owner: Option<string>, now: nat, j: nat, k: nat)
    requires j < k
    ensures Candidate(owner, now, j) != Candidate(owner, now, k)
  {
    hide NatText, Stem;
    var base := Stem(owner) + NatText(now);
    assert Candidate(owner, now, k)[|base| + 1..] == NatText(k + 1);
    if j > 0 {
      assert Candidate(owner, now, j)[|base| + 1..] == NatText(j + 1);
      NatTextInjective(j + 1, k + 1);
    }
  }

  /** The first free candidate from the `k`-th on; there are `U32_MAX` in all. */
  function FreeIndex(taken: set<string>, owner: Option<string>, now: nat, k: nat): (r: Option<nat>)
    requires k <= U32_MAX
    decreases U32_MAX - k
    ensures r.None? ==> forall j :: k <= j < U32_MAX ==> Candidate(owner, now, j) in taken
    ensures r.Some? ==> k <= r.value < U32_MAX && Candidate(owner, now, r.value) !in taken &&
                        forall j :: k <= j < r.value ==> Candidate(owner, now, j) in taken
  {
    if k == U32_MAX then None
    else if Candidate(owner, now, k) !in taken then Some(k)
    else FreeIndex(taken, owner, now, k + 1)
  }

  /** The first free name, if any is. */
  function FreeSegmentId(taken: set<string>, owner: Option<string>, now: nat): (r: Option<string>)
    ensures r.Some? ==> r.value !in taken
  {
    match FreeIndex(taken, owner, now, 0)
    case Some(k) => Some(Candidate(owner, now, k))
    case None => None
  }

  /** The search of `free_segment_id`: the bare name, then suffixes 2 to `u32::MAX`. */
  method MintFreeId(taken: set<string>, owner: Option<string>, now: nat) returns (r: Option<string>)
    ensures r == FreeSegmentId(taken, owner, now)
  {
    var base := MintId(owner, now, None);
    if base !in taken {
      return Some(base);
    }
    for n := 2 to U32_MAX + 1
      invariant FreeIndex(taken, owner, now, 0) == FreeIndex(taken, owner, now, n - 1)
    {
      var candidate := MintId(owner, now, Some(n));
      if candidate !in taken {
        return Some(candidate);
      }
    }
    return None;
  }

  lemma {:induction false} PigeonHole(taken: set<string>, owner: Option<string>, now: nat, n: nat)
    requires forall j :: 0 <= j < n ==> Candidate(owner, now, j) in taken
    ensures |taken| >= n
  {
    if n > 0 {
      var last := Candidate(owner, now, n - 1);
      forall j | 0 <= j < n - 1 ensures Candidate(owner, now, j) in taken - {last} {
        CandidatesDiffer(owner, now, j, n - 1);
      }
      PigeonHole(taken - {last}, owner, now, n - 1);
    }
  }

  /** Minting cannot fail while the table has fewer than `u32::MAX` rows. */
  lemma MintingSucceeds(taken: set<string>, owner: Option<string>, now: nat)
    requires |taken| < U32_MAX
    ensures FreeSegmentId(taken, owner, now).Some?
  {
    if FreeSegmentId(taken, owner, now).None? {
      PigeonHole(taken, owner, now, U32_MAX);
    }
  }

  predicate FirstSuffix(taken: set<string>, owner: Option<string>, now: nat, n: nat, id: string) {
    2 <= n <= U32_MAX && id == MintId(owner, now, Some(n)) &&
    forall m :: 2 <= m < n ==> MintId(owner, now, Some(m)) in taken
  }

  /** The id found is the bare one if that is free, or else the first free of the suffixes from 2 on. */
  lemma FirstFreeExactly(taken: set<string>, owner: Option<string>, now: nat)
    ensures match FreeSegmentId(taken, owner, now)
      case None =>
        MintId(owner, now, None) in taken && forall n :: 2 <= n <= U32_MAX ==> MintId(owner, now, Some(n)) in taken
      case Some(id) =>
        && id !in taken
        && (id == MintId(owner, now, None) ||
            (MintId(owner, now, None) in taken && exists n: nat :: FirstSuffix(taken, owner, now, n, id)))
  {
    hide MintId;
    var r := FreeIndex(taken, owner, now, 0);
    var last := match r { case Some(k) => k case None => U32_MAX };
    forall m | 2 <= m <= last ensures MintId(owner, now, Some(m)) in taken {
      assert Candidate(owner, now, m - 1) in taken;
    }
    if r == Some(0) || r.None? {
      assert r.None? ==> Candidate(owner, now, 0) in taken;
    } else {
      var n := r.value + 1;
      assert Candidate(owner, now, 0) in taken && Candidate(owner, now, r.value) == MintId(owner, now, Some(n));
      assert FirstSuffix(taken, owner, now, n, FreeSegmentId(taken, owner, now).value);
    }
  }

  /** An id is `seg`, the owner if any, the millisecond and the suffix if any, with a dash between each two. */
  lemma MintIdIsJoined(owner: Option<string>, now: nat, suffix: Option<nat>)
    ensures MintId(owner, now, suffix) == Join(
      ["seg"] + (match owner { case Some(o) => [SafeOwner(o)] case None => [] }) + [NatText(now)] +
      (match suffix { case Some(n) => [NatText(n)] case None => [] }), '-')
  {
    hide NatText, SafeOwner;
    var tail := [NatText(now)] + match suffix { case Some(n) => [NatText(n)] case None => [] };
    assert tail[1..] == match suffix { case Some(n) => [NatText(n)] case None => [] };
    var text := NatText(now) + if suffix.Some? then "-" + NatText(suffix.value) else "";
    assert Join(tail, '-') == text;
    match owner
    case Some(o) =>
      var parts := ["seg", SafeOwner(o)] + tail;
      assert parts[1..] == [SafeOwner(o)] + tail && parts[1..][1..] == tail;
      assert Join(parts, '-') == "seg" + ['-'] + (SafeOwner(o) + ['-'] + text);
      assert MintId(owner, now, suffix) == Join(parts, '-');
      assert ["seg"] + [SafeOwner(o)] + [NatText(now)] + tail[1..] == parts;
    case None =>
      var parts := ["seg"] + tail;
      assert parts[1..] == tail;
      assert MintId(owner, now, suffix) == Join(parts, '-');
      assert ["seg"] + [] + [NatText(now)] + tail[1..] == parts;
  }

  // ----- Reading an id back ----------------------------------------------------------------------

  /** What an id says: the millisecond is too large for a suffix, so the last number tells. */
  predicate Dated(now: nat, suffix: Option<nat>) {
    now > U32_MAX && (suffix.Some? ==> suffix.value <= U32_MAX)
  }

  /** An id up to its millisecond. */
  function Left(owner: Option<string>): (s: string)
    ensures owner.Some? ==> |s| > 4 && s[4..] == SafeOwner(owner.value)
    ensures owner.None? ==> |s| == 3
  {
    match owner
    case Some(o) => SafeOwnerIsSafe(o); "seg-" + SafeOwner(o)
    case None => "seg"
  }

  lemma BareIdShape(owner: Option<string>, now: nat)
    ensures MintId(owner, now, None) == Left(owner) + "-" + NatText(now)
  {
    assert Stem(owner) == Left(owner) + "-";
    assert Stem(owner) + NatText(now) + "" == Stem(owner) + NatText(now);
  }

  /** An id without its suffix, cut at its last dash. */
  lemma BareIdInjective(owner: Option<string>, now: nat, owner': Option<string>, now': nat)
    requires MintId(owner, now, None) == MintId(owner', now', None)
    ensures now == now' && owner.Some? == owner'.Some?
    ensures owner.Some? ==> SafeOwner(owner.value) == SafeOwner(owner'.value)
  {
    hide MintId, NatText;
    BareIdShape(owner, now);
    BareIdShape(owner', now');
    DigitsAreFree(NatText(now), '-');
    DigitsAreFree(NatText(now'), '-');
    LastCutIsUnique('-', Left(owner), NatText(now), Left(owner'), NatText(now'));
    NatTextInjective(now, now');
  }

  /** The last number of an id: its suffix, or the millisecond. */
  lemma LastNumber(owner: Option<string>, now: nat, suffix: Option<nat>) returns (left: string)
    ensures MintId(owner, now, suffix) == left + "-" + NatText(if suffix.Some? then suffix.value else now)
    ensures left == if suffix.Some? then MintId(owner, now, None) else Left(owner)
  {
    hide NatText, Stem, Left;
    if suffix.Some? {
      left := MintId(owner, now, None);
      assert left == Stem(owner) + NatText(now);
    } else {
      left := Left(owner);
      BareIdShape(owner, now);
    }
  }

  /** Owners an id cannot tell apart. */
  predicate SameOwner(owner: Option<string>, owner': Option<string>) {
    owner.Some? == owner'.Some? && (owner.Some? ==> SafeOwner(owner.value) == SafeOwner(owner'.value))
  }

  /** A suffixed id read as a bare one: its suffix for a millisecond, the rest for an owner. */
  predicate ReadsAsBare(owner: Option<string>, now: nat, suffix: nat, owner': Option<string>, now': nat) {
    suffix == now' && MintId(owner, now, None) == Left(owner')
  }

  /**
   For any two ids: they are equal exactly when they name the same safe owner, millisecond
   and suffix, or one has a suffix that reads as the other's millisecond.
   */
  lemma SegmentIdsEqualExactly(
      owner: Option<string>, now: nat, suffix: Option<nat>,
      owner': Option<string>, now': nat, suffix': Option<nat>)
    ensures MintId(owner, now, suffix) == MintId(owner', now', suffix') <==>
      match (suffix, suffix')
      case (Some(n), None) => ReadsAsBare(owner, now, n, owner', now')
      case (None, Some(n')) => ReadsAsBare(owner', now', n', owner, now)
      case _ => now == now' && suffix == suffix' && SameOwner(owner, owner')
  {
    hide NatText, Stem, Left, SafeOwner;
    var left := LastNumber(owner, now, suffix);
    var left' := LastNumber(owner', now', suffix');
    var n := if suffix.Some? then suffix.value else now;
    var n' := if suffix'.Some? then suffix'.value else now';
    DigitsAreFree(NatText(n), '-');
    DigitsAreFree(NatText(n'), '-');
    if MintId(owner, now, suffix) == MintId(owner', now', suffix') {
      LastCutIsUnique('-', left, NatText(n), left', NatText(n'));
      NatTextInjective(n, n');
    }
    hide MintId;
    if suffix.Some? == suffix'.Some? {
      BareIdsEqualExactly(owner, now, owner', now');
    }
  }

  lemma BareIdsEqualExactly(owner: Option<string>, now: nat, owner': Option<string>, now': nat)
    ensures MintId(owner, now, None) == MintId(owner', now', None) <==> now == now' && SameOwner(owner, owner')
  {
    if MintId(owner, now, None) == MintId(owner', now', None) {
      BareIdInjective(owner, now, owner', now');
    }
  }

  /** Which does happen: `seg-5-7` is an unnamed owner's second id of millisecond 5, and owner `5`'s of 7. */
  lemma SmallMillisecondsMeet()
    ensures MintId(None, 5, Some(7)) == MintId(Some("5"), 7, None)
  {
    SafeOwnerIsSafe("5");
  }

  /**
   Ids minted after 1970-02-19 (milliseconds past `u32::MAX`) are injective: equal ids have
   the same safe owner, millisecond and suffix.
   */
  lemma {:induction false} SegmentIdsInjective(
      owner: Option<string>, now: nat, suffix: Option<nat>,
      owner': Option<string>, now': nat, suffix': Option<nat>)
    requires Dated(now, suffix) && Dated(now', suffix')
    requires MintId(owner, now, suffix) == MintId(owner', now', suffix')
    ensures now == now' && suffix == suffix' && SameOwner(owner, owner')
  {
    hide MintId;
    SegmentIdsEqualExactly(owner, now, suffix, owner', now', suffix');
  }

  /**
   The owner is only kept as far as it is safe: two nodes share an id in one millisecond
   exactly when their names have the same safe form, as `a/b` and `a_b` do.
   */
  lemma {:induction false} OwnersCollideIff(a: string, b: string, now: nat)
    ensures MintId(Some(a), now, None) == MintId(Some(b), now, None) <==> SafeOwner(a) == SafeOwner(b)
    ensures SafeOwner("a/b") == SafeOwner("a_b")
  {
    if MintId(Some(a), now, None) == MintId(Some(b), now, None) {
      BareIdInjective(Some(a), now, Some(b), now);
    }
    assert SafePrefix("a/b", 3) == "a_b" == SafePrefix("a_b", 3);
  }
}
