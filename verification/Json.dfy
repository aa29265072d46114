/**
 JSON values and their canonical form (`audit/src/run.rs`).

 An object is the list of its members in iteration order, so the model covers both
 map implementations `serde_json` can be built with. What an object *means* is the
 finite map from its keys to the meanings of its values: two values mean the same
 exactly when they are equal up to the order of object members, at every depth.
 */
module Json {
  import opened Wrappers

  datatype Member = Member(key: string, value: Json)

  datatype Json =
    | Null
    | Bool(b: bool)
    | Number(text: string)
    | Str(s: string)
    | Array(items: seq<Json>)
    | Object(members: seq<Member>)

  datatype Value =
    | NullValue
    | BoolValue(b: bool)
    | NumberValue(text: string)
    | StrValue(s: string)
    | ArrayValue(items: seq<Value>)
    | ObjectValue(members: map<string, Value>)

  ghost predicate DistinctKeys(ms: seq<Member>) {
    forall i, j :: 0 <= i < j < |ms| ==> ms[i].key != ms[j].key
  }

  /** What `serde_json::Value` guarantees: no object repeats a key. */
  ghost predicate WellFormed(v: Json) {
    match v
    case Array(items) => forall x :: x in items ==> WellFormed(x)
    case Object(ms) => DistinctKeys(ms) && forall m :: m in ms ==> WellFormed(m.value)
    case _ => true
  }

  ghost function Keys(ms: seq<Member>): set<string> { set i | 0 <= i < |ms| :: ms[i].key }

  ghost function IndexOf(ms: seq<Member>, key: string): (i: nat)
    requires key in Keys(ms)
    ensures i < |ms| && ms[i].key == key
  {
    var i :| 0 <= i < |ms| && ms[i].key == key; i
  }

  ghost function Meaning(v: Json): Value
    requires WellFormed(v)
  {
    match v
    case Null => NullValue
    case Bool(b) => BoolValue(b)
    case Number(t) => NumberValue(t)
    case Str(s) => StrValue(s)
    case Array(items) =>
      ArrayValue(seq(|items|, i requires 0 <= i < |items| => Meaning(items[i])))
    case Object(ms) =>
      ObjectValue(map k | k in Keys(ms) :: Meaning(ms[IndexOf(ms, k)].value))
  }

  // ----- Reading members ------------------------------------------------------------

  function OrNull(s: Option<string>): Json { if s.Some? then Str(s.value) else Null }

  function Find(ms: seq<Member>, key: string): (r: Option<Json>)
    ensures r.Some? <==> exists m :: m in ms && m.key == key
    ensures r.Some? ==> Member(key, r.value) in ms
  {
    if ms == [] then None
    else if ms[0].key == key then Some(ms[0].value)
    else Find(ms[1..], key)
  }

  /** The first member under its key is the one found. */
  lemma {:induction false} FindFirst(ms: seq<Member>, i: nat)
    requires i < |ms| && forall j :: 0 <= j < i ==> ms[j].key != ms[i].key
    ensures Find(ms, ms[i].key) == Some(ms[i].value)
  {
    if i > 0 {
      FindFirst(ms[1..], i - 1);
    }
  }

  /** `value.get(key)`: `None` unless the value is an object with that member. */
  function Get(v: Json, key: string): Option<Json> {
    if v.Object? then Find(v.members, key) else None
  }

  /** `value.get(key).and_then(as_str)`. */
  function GetStr(v: Json, key: string): Option<string> {
    match Get(v, key)
    case Some(Str(s)) => Some(s)
    case _ => None
  }

  function Without(ms: seq<Member>, key: string): (r: seq<Member>)
    ensures forall m :: m in r <==> m in ms && m.key != key
  {
    if ms == [] then []
    else if ms[0].key == key then Without(ms[1..], key)
    else [ms[0]] + Without(ms[1..], key)
  }

  /** What is read from an object without a member: nothing under that key, the rest as before. */
  lemma {:induction false} WithoutReads(ms: seq<Member>, key: string, k: string)
    ensures Find(Without(ms, key), k) == if k == key then None else Find(ms, k)
  {
    if ms != [] {
      WithoutReads(ms[1..], key, k);
      if ms[0].key != key {
        assert ([ms[0]] + Without(ms[1..], key))[1..] == Without(ms[1..], key);
      }
    }
  }

  // ----- Key order --------------------------------------------------------------------

  /** Strict lexicographic order, the order `keys.sort()` uses. */
  predicate Before(a: string, b: string) {
    b != "" && (a == "" || a[0] < b[0] || (a[0] == b[0] && Before(a[1..], b[1..])))
  }

  lemma {:induction false} BeforeIsTotalOrder(a: string, b: string)
    ensures Before(a, b) || a == b || Before(b, a)
    ensures Before(a, b) ==> a != b && !Before(b, a)
  {
    if a != "" && b != "" {
      BeforeIsTotalOrder(a[1..], b[1..]);
      assert a == [a[0]] + a[1..] && b == [b[0]] + b[1..];
    }
  }

  lemma {:induction false} BeforeTransitive(a: string, b: string, c: string)
    requires Before(a, b) && Before(b, c)
    ensures Before(a, c)
  {
    if a != "" && a[0] == b[0] == c[0] {
      BeforeTransitive(a[1..], b[1..], c[1..]);
    }
  }

  ghost predicate SortedKeys(ms: seq<Member>) {
    forall i, j :: 0 <= i < j < |ms| ==> Before(ms[i].key, ms[j].key)
  }

  function InsertByKey(m: Member, ms: seq<Member>): seq<Member> {
    if ms == [] || Before(m.key, ms[0].key) then [m] + ms
    else [ms[0]] + InsertByKey(m, ms[1..])
  }

  function SortByKey(ms: seq<Member>): seq<Member> {
    if ms == [] then [] else InsertByKey(ms[0], SortByKey(ms[1..]))
  }

  lemma {:induction false} InsertKeepsSorted(m: Member, ms: seq<Member>)
    requires SortedKeys(ms)
    requires forall x :: x in ms ==> x.key != m.key
    ensures SortedKeys(InsertByKey(m, ms))
    ensures forall x :: x in InsertByKey(m, ms) <==> x == m || x in ms
  {
    if ms == [] {
    } else if Before(m.key, ms[0].key) {
      forall j | 0 < j < |ms| ensures Before(m.key, ms[j].key) {
        BeforeTransitive(m.key, ms[0].key, ms[j].key);
      }
    } else {
      BeforeIsTotalOrder(m.key, ms[0].key);
      assert ms[0] in ms;
      InsertKeepsSorted(m, ms[1..]);
      assert ms == [ms[0]] + ms[1..];
      var rest := InsertByKey(m, ms[1..]);
      forall j | 0 <= j < |rest| ensures Before(ms[0].key, rest[j].key) {
        assert rest[j] in rest;
      }
    }
  }

  lemma {:induction false} SortSorts(ms: seq<Member>)
    requires DistinctKeys(ms)
    ensures SortedKeys(SortByKey(ms))
    ensures forall x :: x in SortByKey(ms) <==> x in ms
  {
    if ms != [] {
      SortSorts(ms[1..]);
      assert ms == [ms[0]] + ms[1..];
      InsertKeepsSorted(ms[0], SortByKey(ms[1..]));
    }
  }

  // ----- Canonical form ---------------------------------------------------------------

  /** Object keys sorted at every depth; everything else as it was. */
  function Canonicalize(v: Json): Json {
    match v
    case Array(items) =>
      Array(seq(|items|, i requires 0 <= i < |items| => Canonicalize(items[i])))
    case Object(ms) =>
      Object(SortByKey(seq(|ms|, i requires 0 <= i < |ms| => CanonicalMember(ms[i]))))
    case _ => v
  }

  function CanonicalMember(m: Member): Member { Member(m.key, Canonicalize(m.value)) }

  ghost predicate IsCanonical(v: Json) {
    match v
    case Array(items) => forall x :: x in items ==> IsCanonical(x)
    case Object(ms) => SortedKeys(ms) && forall m :: m in ms ==> IsCanonical(m.value)
    case _ => true
  }

  lemma SortedAreDistinct(ms: seq<Member>)
    requires SortedKeys(ms)
    ensures DistinctKeys(ms)
  {
    forall i, j | 0 <= i < j < |ms| ensures ms[i].key != ms[j].key {
      BeforeIsTotalOrder(ms[i].key, ms[j].key);
    }
  }

  lemma {:induction false} CanonicalIsWellFormed(v: Json)
    requires IsCanonical(v)
    ensures WellFormed(v)
  {
    match v
    case Array(items) =>
      forall x | x in items ensures WellFormed(x) { CanonicalIsWellFormed(x); }
    case Object(ms) =>
      SortedAreDistinct(ms);
      forall m | m in ms ensures WellFormed(m.value) { CanonicalIsWellFormed(m.value); }
    case _ =>
  }

  /** Canonicalizing sorts every object and changes no meaning. */
  lemma {:induction false} CanonicalizeKeepsMeaning(v: Json)
    requires WellFormed(v)
    ensures IsCanonical(Canonicalize(v)) && WellFormed(Canonicalize(v))
    ensures Meaning(Canonicalize(v)) == Meaning(v)
  {
    match v
    case Array(items) =>
      forall i | 0 <= i < |items|
        ensures IsCanonical(Canonicalize(items[i])) && WellFormed(Canonicalize(items[i]))
        ensures Meaning(Canonicalize(items[i])) == Meaning(items[i])
      {
        CanonicalizeKeepsMeaning(items[i]);
      }
    case Object(ms) =>
      var mapped := seq(|ms|, i requires 0 <= i < |ms| => CanonicalMember(ms[i]));
      SortSorts(mapped);
      var sorted := SortByKey(mapped);
      forall i | 0 <= i < |ms|
        ensures IsCanonical(mapped[i].value) && WellFormed(mapped[i].value)
        ensures Meaning(mapped[i].value) == Meaning(ms[i].value)
      {
        CanonicalizeKeepsMeaning(ms[i].value);
      }
      SortedAreDistinct(sorted);
      assert forall m :: m in sorted ==> m in mapped;
      assert forall i :: 0 <= i < |ms| ==> mapped[i] in sorted;
      SameMembersSameMeaning(ms, mapped, sorted);
    case _ =>
  }

  lemma SameMembersSameMeaning(ms: seq<Member>, mapped: seq<Member>, sorted: seq<Member>)
    requires WellFormed(Object(ms)) && WellFormed(Object(sorted))
    requires |mapped| == |ms|
    requires forall i :: 0 <= i < |ms| ==>
      mapped[i].key == ms[i].key && WellFormed(mapped[i].value) &&
      Meaning(mapped[i].value) == Meaning(ms[i].value)
    requires forall m :: m in sorted <==> m in mapped
    ensures Meaning(Object(ms)) == Meaning(Object(sorted))
  {
    ObjectMeaning(ms);
    ObjectMeaning(sorted);
    forall i, j | 0 <= i < |ms| && 0 <= j < |sorted| && sorted[j] == mapped[i]
      ensures WellFormed(sorted[j].value) && Meaning(ms[i].value) == Meaning(sorted[j].value)
    {
    }
    SameTable(mapped, sorted, Meaning(Object(ms)).members, Meaning(Object(sorted)).members);
  }

  lemma SameTable(ms: seq<Member>, ns: seq<Member>, f: map<string, Value>, g: map<string, Value>)
    requires f.Keys == Keys(ms) && g.Keys == Keys(ns)
    requires forall m :: m in ns <==> m in ms
    requires forall i, j :: 0 <= i < |ms| && 0 <= j < |ns| && ns[j] == ms[i] ==> f[ms[i].key] == g[ns[j].key]
    ensures f == g
  {
    forall k | k in f ensures k in g && g[k] == f[k] {
      var i :| 0 <= i < |ms| && ms[i].key == k;
      assert ms[i] in ns;
      var j :| 0 <= j < |ns| && ns[j] == ms[i];
    }
    forall k | k in g ensures k in f {
      var j :| 0 <= j < |ns| && ns[j].key == k;
      assert ns[j] in ms;
    }
    assert f == g;
  }

  ghost predicate Binds(f: map<string, Value>, k: string, v: Value) { k in f && f[k] == v }

  /** An object's meaning binds each of its members, and no other key. */
  lemma ObjectMeaning(ms: seq<Member>)
    requires WellFormed(Object(ms))
    ensures Meaning(Object(ms)).ObjectValue? && Meaning(Object(ms)).members.Keys == Keys(ms)
    ensures forall i :: 0 <= i < |ms| ==>
      Binds(Meaning(Object(ms)).members, ms[i].key, Meaning(ms[i].value))
  {
  }

  /** A meaning has exactly one canonical form. */
  lemma {:induction false} CanonicalIsUnique(a: Json, b: Json)
    requires IsCanonical(a) && IsCanonical(b)
    requires WellFormed(a) && WellFormed(b)
    requires Meaning(a) == Meaning(b)
    ensures a == b
    decreases a, 1
  {
    match a
    case Array(xs) =>
      forall i | 0 <= i < |xs| ensures xs[i] == b.items[i] {
        assert Meaning(a).items[i] == Meaning(b).items[i];
        CanonicalIsUnique(xs[i], b.items[i]);
      }
      assert xs == b.items;
    case Object(ms) =>
      CanonicalMembersAreUnique(ms, b.members);
    case _ =>
  }

  lemma NoKeysNoMembers(ms: seq<Member>)
    ensures Keys(ms) == {} ==> ms == []
  {
    assert ms != [] ==> ms[0].key in Keys(ms);
  }

  lemma {:induction false} CanonicalMembersAreUnique(ms: seq<Member>, ns: seq<Member>)
    requires IsCanonical(Object(ms)) && IsCanonical(Object(ns))
    requires WellFormed(Object(ms)) && WellFormed(Object(ns))
    requires Meaning(Object(ms)) == Meaning(Object(ns))
    ensures ms == ns
    decreases ms, 0
  {
    hide Meaning, WellFormed, IsCanonical;
    ObjectMeaning(ms);
    ObjectMeaning(ns);
    NoKeysNoMembers(ns);
    if ms == [] {
      assert Keys(ms) == {};
    } else {
      FirstKeysAgree(ms, ns);
      CanonicalIsUnique(ms[0].value, ns[0].value);
      assert ms == [ms[0]] + ms[1..] && ns == [ns[0]] + ns[1..];
      TailIsCanonical(ms);
      TailIsCanonical(ns);
      TailMeaning(ms);
      TailMeaning(ns);
      CanonicalMembersAreUnique(ms[1..], ns[1..]);
    }
  }

  lemma FirstKeysAgree(ms: seq<Member>, ns: seq<Member>)
    requires IsCanonical(Object(ms)) && IsCanonical(Object(ns)) && ms != []
    requires WellFormed(Object(ms)) && WellFormed(Object(ns))
    requires Meaning(Object(ms)) == Meaning(Object(ns))
    ensures ns != [] && ms[0].key == ns[0].key
    ensures IsCanonical(ms[0].value) && IsCanonical(ns[0].value)
    ensures WellFormed(ms[0].value) && WellFormed(ns[0].value)
    ensures Meaning(ms[0].value) == Meaning(ns[0].value)
  {
    ObjectMeaning(ms);
    ObjectMeaning(ns);
    assert ms[0].key in Keys(ns);
    var j :| 0 <= j < |ns| && ns[j].key == ms[0].key;
    assert ns[0].key in Keys(ms);
    var i :| 0 <= i < |ms| && ms[i].key == ns[0].key;
    BeforeIsTotalOrder(ms[0].key, ns[0].key);
    assert ms[0] in ms && ns[0] in ns;
  }

  lemma TailIsCanonical(ms: seq<Member>)
    requires ms != [] && IsCanonical(Object(ms)) && WellFormed(Object(ms))
    ensures IsCanonical(Object(ms[1..])) && WellFormed(Object(ms[1..]))
  {
    var tail := ms[1..];
    assert forall m :: m in tail ==> m in ms;
  }

  lemma TailMeaning(ms: seq<Member>)
    requires ms != [] && WellFormed(Object(ms)) && WellFormed(Object(ms[1..]))
    ensures Meaning(Object(ms[1..])).ObjectValue? && Meaning(Object(ms)).ObjectValue?
    ensures Meaning(Object(ms[1..])).members == Meaning(Object(ms)).members - {ms[0].key}
  {
    ObjectMeaning(ms);
    ObjectMeaning(ms[1..]);
    forall i | 0 < i < |ms|
      ensures Binds(Meaning(Object(ms[1..])).members, ms[i].key, Meaning(ms[i].value))
    {
      assert ms[1..][i - 1] == ms[i];
    }
    TailOfTable(ms, Meaning(Object(ms)).members, Meaning(Object(ms[1..])).members);
  }

  lemma TailOfTable(ms: seq<Member>, f: map<string, Value>, g: map<string, Value>)
    requires ms != [] && DistinctKeys(ms) && f.Keys == Keys(ms) && g.Keys == Keys(ms[1..])
    requires forall i :: 0 < i < |ms| ==> ms[i].key in g && g[ms[i].key] == f[ms[i].key]
    ensures g == f - {ms[0].key}
  {
    forall k | k in f && k != ms[0].key ensures k in g && g[k] == f[k] {
      var i :| 0 <= i < |ms| && ms[i].key == k;
    }
    forall k | k in g ensures k in f && k != ms[0].key {
      var i :| 0 <= i < |ms[1..]| && ms[1..][i].key == k;
      assert ms[i + 1].key == k;
    }
    assert g == f - {ms[0].key};
  }

  /** The canonical form keeps everything but member order, and nothing else is lost. */
  lemma {:induction false} CanonicalFormDecidesMeaning(a: Json, b: Json)
    requires WellFormed(a) && WellFormed(b)
    ensures Canonicalize(a) == Canonicalize(b) <==> Meaning(a) == Meaning(b)
  {
    CanonicalizeKeepsMeaning(a);
    CanonicalizeKeepsMeaning(b);
    if Meaning(a) == Meaning(b) {
      CanonicalIsUnique(Canonicalize(a), Canonicalize(b));
    }
  }

  lemma CanonicalizeIdempotent(v: Json)
    requires WellFormed(v)
    ensures Canonicalize(Canonicalize(v)) == Canonicalize(v)
  {
    CanonicalizeKeepsMeaning(v);
    CanonicalFormDecidesMeaning(Canonicalize(v), v);
  }

  // ----- Fingerprints -----------------------------------------------------------------

  /** `fingerprint(config)`, for a printer and a digest. */
  function Fingerprint(digest: string -> string, print_: Json -> string, config: Json): string {
    digest(print_(Canonicalize(config)))
  }

  /**
   Fingerprints ignore member order; two that agree on configurations that mean different
   things mean that the two canonical texts are equal, or collide.
   */
  lemma {:induction false} FingerprintIgnoresOnlyMemberOrder(
      digest: string -> string, print_: Json -> string, a: Json, b: Json)
    requires WellFormed(a) && WellFormed(b)
    ensures Meaning(a) == Meaning(b) ==> Fingerprint(digest, print_, a) == Fingerprint(digest, print_, b)
    ensures Fingerprint(digest, print_, a) == Fingerprint(digest, print_, b) && Meaning(a) != Meaning(b) ==>
      var x, y := Canonicalize(a), Canonicalize(b);
      && IsCanonical(x) && IsCanonical(y) && x != y
      && (print_(x) == print_(y) || digest(print_(x)) == digest(print_(y)))
  {
    CanonicalFormDecidesMeaning(a, b);
    CanonicalizeKeepsMeaning(a);
    CanonicalizeKeepsMeaning(b);
  }
}
