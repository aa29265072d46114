/**
 Cutting a text to a number of bytes without cutting a character in two (`truncate` in
 `agent/src/agent.rs`). Texts are held as UTF-8.
 */
module Truncate {
  import opened Text

  /** A continuation byte: `10xxxxxx`. */
  predicate IsContinuation(b: nat) { 0x80 <= b < 0xC0 }

  /** The UTF-8 form of one character: a leading byte, then only continuation bytes. */
  function Encode(c: char): (bs: seq<nat>)
    ensures 1 <= |bs| <= 4 && !IsContinuation(bs[0])
    ensures forall k :: 1 <= k < |bs| ==> IsContinuation(bs[k])
  {
    var n := c as int;
    if n < 0x80 then [n]
    else if n < 0x800 then [0xC0 + n / 0x40, 0x80 + n % 0x40]
    else if n < 0x10000 then [0xE0 + n / 0x1000, 0x80 + n / 0x40 % 0x40, 0x80 + n % 0x40]
    else [0xF0 + n / 0x40000, 0x80 + n / 0x1000 % 0x40, 0x80 + n / 0x40 % 0x40, 0x80 + n % 0x40]
  }

  function Utf8(s: string): seq<nat> {
    if s == "" then [] else Utf8(s[..|s| - 1]) + Encode(s[|s| - 1])
  }

  /** `is_char_boundary`: the end, or a byte that does not continue a character. */
  predicate IsBoundary(bytes: seq<nat>, at: nat) {
    at == 0 || at == |bytes| || (at < |bytes| && !IsContinuation(bytes[at]))
  }

  /** The longest prefix of whole characters that fits. */
  function Fitting(s: string, max: nat): string {
    if |Utf8(s)| <= max then s else Fitting(s[..|s| - 1], max)
  }

  function Note(length: nat): string { "\U{2026}[truncated " + NatText(length) + " bytes]" }

  function Truncated(s: string, max: nat): string {
    if |Utf8(s)| <= max then s else Fitting(s, max) + Note(|Utf8(s)|)
  }

  lemma {:induction false} Utf8OfPrefix(s: string, k: nat)
    requires k <= |s|
    ensures Utf8(s[..k]) <= Utf8(s)
    decreases |s|
  {
    if k == |s| {
      assert s[..k] == s;
    } else {
      Utf8OfPrefix(s[..|s| - 1], k);
      assert s[..|s| - 1][..k] == s[..k];
    }
  }

  /** What fits is a prefix, fits, and is the longest that does. */
  lemma {:induction false} FittingIsLongest(s: string, max: nat)
    ensures Fitting(s, max) <= s && |Utf8(Fitting(s, max))| <= max
    ensures forall k :: |Fitting(s, max)| < k <= |s| ==> |Utf8(s[..k])| > max
  {
    if |Utf8(s)| > max {
      var front := s[..|s| - 1];
      FittingIsLongest(front, max);
      forall k | |Fitting(s, max)| < k <= |s| ensures |Utf8(s[..k])| > max {
        if k == |s| {
          assert s[..k] == s;
        } else {
          assert s[..k] == front[..k];
        }
      }
    } else {
      assert s[..|s|] == s;
    }
  }

  /** `r` is the first `k` characters of `s`, as many as fit, and a note of its length. */
  predicate CutAt(s: string, max: nat, k: nat, r: string) {
    k < |s| && |Utf8(s[..k])| <= max < |Utf8(s[..k + 1])| &&
    r == s[..k] + ("\U{2026}[truncated " + NatText(|Utf8(s)|) + " bytes]")
  }

  /** `r` is `s` if that fits, or else the longest cut that does. */
  ghost predicate IsCut(s: string, max: nat, r: string) {
    if |Utf8(s)| <= max then r == s else exists k: nat :: CutAt(s, max, k, r)
  }

  lemma TruncatedIsCut(s: string, max: nat)
    ensures IsCut(s, max, Truncated(s, max))
  {
    if |Utf8(s)| > max {
      hide Utf8, NatText, Fitting;
      FittingIsLongest(s, max);
      var k := |Fitting(s, max)|;
      assert s[..k] == Fitting(s, max) && s[..|s|] == s;
      assert CutAt(s, max, k, Truncated(s, max));
    }
  }

  /** There is only one such cut. */
  lemma CutIsUnique(s: string, max: nat, r: string, q: string)
    requires IsCut(s, max, r) && IsCut(s, max, q)
    ensures r == q
  {
    if |Utf8(s)| > max {
      hide Utf8, NatText;
      var j: nat :| CutAt(s, max, j, r);
      var k: nat :| CutAt(s, max, k, q);
      FitsBefore(s, max, j, k);
      FitsBefore(s, max, k, j);
    }
  }

  lemma FitsBefore(s: string, max: nat, j: nat, k: nat)
    requires j < |s| && k <= |s| && |Utf8(s[..k])| <= max < |Utf8(s[..j + 1])|
    ensures k <= j
  {
    if j + 1 < k {
      LengthNamesPrefix(s, j + 1, k);
    }
  }

  /** A boundary inside the text is where some prefix of characters ends. */
  lemma {:induction false} BoundaryEndsPrefix(s: string, at: nat) returns (k: nat)
    requires at <= |Utf8(s)| && IsBoundary(Utf8(s), at)
    ensures k <= |s| && |Utf8(s[..k])| == at
  {
    if at == |Utf8(s)| {
      k := |s|;
      assert s[..k] == s;
    } else {
      var front := s[..|s| - 1];
      k := BoundaryEndsPrefix(front, at);
      assert s[..k] == front[..k];
    }
  }

  /** Where a prefix of characters ends is a boundary. */
  lemma {:induction false} PrefixEndsAtBoundary(s: string, k: nat)
    requires k <= |s|
    ensures |Utf8(s[..k])| <= |Utf8(s)| && IsBoundary(Utf8(s), |Utf8(s[..k])|)
    decreases |s|
  {
    Utf8OfPrefix(s, k);
    if k == |s| {
      assert s[..k] == s;
    } else {
      var front := s[..|s| - 1];
      PrefixEndsAtBoundary(front, k);
      assert s[..k] == front[..k];
      var at := |Utf8(s[..k])|;
      if at == |Utf8(front)| {
        assert Utf8(s)[at] == Encode(s[|s| - 1])[0];
      } else {
        assert Utf8(s)[at] == Utf8(front)[at];
      }
    }
  }

  /** Prefixes with as many bytes are the same prefix. */
  lemma LengthNamesPrefix(s: string, j: nat, k: nat)
    requires j < k <= |s|
    ensures |Utf8(s[..j])| < |Utf8(s[..k])|
  {
    assert s[..k][..k - 1] == s[..k - 1];
    Utf8OfPrefix(s[..k - 1], j);
    assert s[..k - 1][..j] == s[..j];
  }

  /** Walk `end` down from `max` to a boundary; the text before it is what fits. */
  method TruncateText(s: string, max: nat) returns (r: string)
    ensures r == Truncated(s, max)
  {
    hide Encode;
    var bytes := Utf8(s);
    if |bytes| <= max {
      return s;
    }
    var end: nat := max;
    while !IsBoundary(bytes, end)
      invariant end <= max
      invariant forall at: nat :: end < at <= max ==> !IsBoundary(bytes, at)
      decreases end
    {
      end := end - 1;
    }
    r := Before(s, end) + Note(|bytes|);
    BoundaryIsFitting(s, max, end);
  }

  lemma BoundaryIsFitting(s: string, max: nat, end: nat)
    requires end <= max < |Utf8(s)| && IsBoundary(Utf8(s), end)
    requires forall at: nat :: end < at <= max ==> !IsBoundary(Utf8(s), at)
    ensures Before(s, end) == Fitting(s, max)
  {
    hide Utf8, IsBoundary, Fitting;
    FittingIsLongest(s, max);
    var n := |Fitting(s, max)|;
    var k := BoundaryEndsPrefix(s, end);
    PrefixEndsAtBoundary(s, n);
    assert s[..n] == Fitting(s, max);
    BeforeIsPrefix(s, k);
    if k < n {
      LengthNamesPrefix(s, k, n);
    }
  }

  /** `&s[..end]`: the characters whose bytes come before `end`. */
  function Before(s: string, end: nat): string {
    if s == "" || |Utf8(s)| <= end then s else Before(s[..|s| - 1], end)
  }

  lemma {:induction false} BeforeIsPrefix(s: string, k: nat)
    requires k <= |s|
    ensures Before(s, |Utf8(s[..k])|) == s[..k]
    decreases |s|
  {
    if k == |s| {
      assert s[..k] == s;
    } else {
      LengthNamesPrefix(s, k, |s|);
      assert s[..|s|] == s;
      BeforeIsPrefix(s[..|s| - 1], k);
      assert s[..|s| - 1][..k] == s[..k];
    }
  }
}
