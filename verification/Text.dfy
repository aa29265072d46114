/**
 Strings as the repository uses them: decimal text, separators, trimming.

 A Rust `&str` is UTF-8 bytes; here it is the sequence of its characters. UTF-8 is
 injective and orders strings exactly as their code points do, so nothing below
 depends on the difference.
 */
module Text {

  // ----- Decimal text (`to_string` of an integer) ---------------------------------

  function Digit(d: nat): char
    requires d < 10
  {
    "0123456789"[d]
  }

  predicate IsDigit(c: char) { '0' <= c <= '9' }

  predicate AllDigits(s: string) { forall i :: 0 <= i < |s| ==> IsDigit(s[i]) }

  function NatText(n: nat): (s: string)
    ensures |s| > 0 && AllDigits(s)
  {
    if n < 10 then [Digit(n)] else NatText(n / 10) + [Digit(n % 10)]
  }

  function IntText(n: int): string {
    if n < 0 then "-" + NatText(-n) else NatText(n)
  }

  /** The reader that undoes `NatText`. */
  function NatValue(s: string): nat
    requires AllDigits(s)
  {
    if s == "" then 0
    else NatValue(s[..|s| - 1]) * 10 + (s[|s| - 1] as int - '0' as int)
  }

  lemma {:induction false} NatTextRoundTrip(n: nat)
    ensures NatValue(NatText(n)) == n
  {
    if n >= 10 {
      NatTextRoundTrip(n / 10);
      var s := NatText(n);
      assert s[..|s| - 1] == NatText(n / 10);
      assert s[|s| - 1] == Digit(n % 10);
    } else {
      assert [Digit(n)][..0] == "";
    }
  }

  lemma NatTextInjective(m: nat, n: nat)
    ensures NatText(m) == NatText(n) <==> m == n
  {
    NatTextRoundTrip(m);
    NatTextRoundTrip(n);
  }

  lemma IntTextSign(n: int)
    ensures (IntText(n)[0] == '-') == (n < 0)
    ensures n < 0 ==> IntText(n)[1..] == NatText(-n)
  {
  }

  lemma IntTextInjective(m: int, n: int)
    ensures IntText(m) == IntText(n) <==> m == n
  {
    hide NatText;
    if IntText(m) == IntText(n) {
      IntTextSign(m);
      IntTextSign(n);
      if m < 0 {
        NatTextInjective(-m, -n);
      } else {
        NatTextInjective(m, n);
      }
    }
  }

  // ----- Separators -----------------------------------------------------------------

  predicate Free(sep: char, s: string) { sep !in s }

  lemma DigitsAreFree(s: string, sep: char)
    requires AllDigits(s) && !IsDigit(sep)
    ensures Free(sep, s)
  {
  }

  lemma IntTextIsFree(n: int, sep: char)
    requires !IsDigit(sep) && sep != '-'
    ensures Free(sep, IntText(n))
  {
    if n < 0 {
      DigitsAreFree(NatText(-n), sep);
    }
  }

  /** Text cut at its first separator: the left part determines the cut. */
  lemma FirstCutIsUnique(sep: char, a: string, b: string, a': string, b': string)
    requires Free(sep, a) && Free(sep, a')
    requires a + [sep] + b == a' + [sep] + b'
    ensures a == a' && b == b'
  {
    var s := a + [sep] + b;
    assert s[|a|] == sep && s[|a'|] == sep;
    assert s[..|a|] == a && s[..|a'|] == a';
    assert s[|a| + 1..] == b && s[|a'| + 1..] == b';
  }

  /** Text cut at its last separator: the right part determines the cut. */
  lemma LastCutIsUnique(sep: char, a: string, b: string, a': string, b': string)
    requires Free(sep, b) && Free(sep, b')
    requires a + [sep] + b == a' + [sep] + b'
    ensures a == a' && b == b'
  {
    var s := a + [sep] + b;
    assert s[|a|] == sep && s[|a'|] == sep;
    assert s[..|a|] == a && s[..|a'|] == a';
    assert s[|a| + 1..] == b && s[|a'| + 1..] == b';
  }

  // ----- Splitting and joining lines ----------------------------------------------

  /** `parts.join(sep)` for a one-character separator. */
  function Join(parts: seq<string>, sep: char): string {
    if parts == [] then ""
    else if |parts| == 1 then parts[0]
    else parts[0] + [sep] + Join(parts[1..], sep)
  }

  /** The pieces between separators; always at least one. */
  function Split(s: string, sep: char): (parts: seq<string>)
    ensures |parts| > 0
  {
    if s == "" then [""]
    else
      var rest := Split(s[1..], sep);
      if s[0] == sep then [""] + rest else [[s[0]] + rest[0]] + rest[1..]
  }

  lemma {:induction false} JoinSplit(s: string, sep: char)
    ensures Join(Split(s, sep), sep) == s
    ensures forall p :: p in Split(s, sep) ==> Free(sep, p)
  {
    if s != "" {
      JoinSplit(s[1..], sep);
      var rest := Split(s[1..], sep);
      if s[0] == sep {
        assert ([""] + rest)[1..] == rest;
      } else if |rest| > 1 {
        assert ([[s[0]] + rest[0]] + rest[1..])[1..] == rest[1..];
        assert rest[0] in rest;
      } else {
        assert rest == [rest[0]];
        assert rest[0] in rest;
      }
    }
  }

  /** Separator-free pieces are recovered exactly: joining loses nothing. */
  lemma {:induction false} JoinInjective(xs: seq<string>, ys: seq<string>, sep: char)
    requires xs != [] && ys != []
    requires forall p :: p in xs ==> Free(sep, p)
    requires forall p :: p in ys ==> Free(sep, p)
    requires Join(xs, sep) == Join(ys, sep)
    ensures xs == ys
  {
    assert |xs| > 1 ==> Join(xs, sep)[|xs[0]|] == sep;
    assert |ys| > 1 ==> Join(ys, sep)[|ys[0]|] == sep;
    assert xs[0] in xs && ys[0] in ys;
    if |xs| > 1 && |ys| > 1 {
      FirstCutIsUnique(sep, xs[0], Join(xs[1..], sep), ys[0], Join(ys[1..], sep));
      JoinInjective(xs[1..], ys[1..], sep);
      assert xs == [xs[0]] + xs[1..] && ys == [ys[0]] + ys[1..];
    }
  }

  // ----- Trimming -------------------------------------------------------------------

  /** Unicode `White_Space`, what `str::trim` removes. */
  predicate IsSpace(c: char) {
    '\U{9}' <= c <= '\U{D}' || c == ' ' || c == '\U{85}' || c == '\U{A0}' || c == '\U{1680}' ||
    '\U{2000}' <= c <= '\U{200A}' || c == '\U{2028}' || c == '\U{2029}' || c == '\U{202F}' ||
    c == '\U{205F}' || c == '\U{3000}'
  }

  function TrimStart(s: string): string {
    if s != "" && IsSpace(s[0]) then TrimStart(s[1..]) else s
  }

  function TrimEnd(s: string): string {
    if s != "" && IsSpace(s[|s| - 1]) then TrimEnd(s[..|s| - 1]) else s
  }

  function Trim(s: string): string { TrimEnd(TrimStart(s)) }

  /** Trimming leaves nothing exactly of white space. */
  lemma {:induction false} TrimIsEmpty(s: string)
    ensures Trim(s) == "" <==> forall i :: 0 <= i < |s| ==> IsSpace(s[i])
    decreases |s|
  {
    if s != "" {
      if IsSpace(s[0]) {
        TrimIsEmpty(s[1..]);
      } else {
        TrimEndKeepsFirst(s);
      }
    }
  }

  lemma {:induction false} TrimEndKeepsFirst(s: string)
    requires s != "" && !IsSpace(s[0])
    ensures TrimEnd(s) != ""
  {
    if |s| > 1 {
      TrimEndKeepsFirst(s[..|s| - 1]);
    }
  }

  lemma {:induction false} TrimStartSkips(ws: string, s: string)
    requires forall i :: 0 <= i < |ws| ==> IsSpace(ws[i])
    requires s != "" && !IsSpace(s[0])
    ensures TrimStart(ws + s) == s
  {
    if ws == "" {
      assert ws + s == s;
    } else {
      TrimStartSkips(ws[1..], s);
      assert (ws + s)[1..] == ws[1..] + s;
    }
  }
}
