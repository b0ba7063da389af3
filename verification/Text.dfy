/** Characters and strings: white space, trimming, and decimal integers as Rust prints and parses them. */
module Text {
  import opened Wrappers

  /** The Unicode `White_Space` characters. */
  predicate IsWhitespace(c: char) {
    || '\t' <= c <= '\r' || c == ' ' || c == '\U{85}' || c == '\U{A0}' || c == '\U{1680}'
    || '\U{2000}' <= c <= '\U{200A}' || c == '\U{2028}' || c == '\U{2029}' || c == '\U{202F}'
    || c == '\U{205F}' || c == '\U{3000}'
  }

  predicate Blank(s: string) {
    forall i :: 0 <= i < |s| ==> IsWhitespace(s[i])
  }

  function TrimStart(s: string): (r: string)
    ensures |r| <= |s| && r == s[|s| - |r|..] && Blank(s[..|s| - |r|])
    ensures r != [] ==> !IsWhitespace(r[0])
  {
    if s != [] && IsWhitespace(s[0]) then TrimStart(s[1..]) else s
  }

  function TrimEnd(s: string): (r: string)
    ensures r <= s && Blank(s[|r|..])
    ensures r != [] ==> !IsWhitespace(r[|r| - 1])
  {
    if s != [] && IsWhitespace(s[|s| - 1]) then
      var r := TrimEnd(s[..|s| - 1]);
      assert s[|r|..] == s[..|s| - 1][|r|..] + [s[|s| - 1]];
      r
    else s
  }

  function Trim(s: string): string {
    TrimEnd(TrimStart(s))
  }

  /** Neither end is white space. */
  predicate Trimmed(s: string) {
    s != [] ==> !IsWhitespace(s[0]) && !IsWhitespace(s[|s| - 1])
  }

  /** What trimming cuts off is blank, and what it leaves does not start or end with white space. */
  lemma TrimCutsBlanks(s: string)
    ensures Trimmed(Trim(s))
    ensures exists i, j :: 0 <= i <= j <= |s| && Blank(s[..i]) && Blank(s[j..]) && Trim(s) == s[i..j]
  {
    hide IsWhitespace, Blank, TrimStart, TrimEnd;
    var t := TrimStart(s);
    var r := TrimEnd(t);
    var i := |s| - |t|;
    var j := i + |r|;
    assert t == s[i..];
    assert s[i..][|r|..] == s[j..];
    assert s[i..][..|r|] == s[i..j] == r;
    assert Blank(s[..i]) && Blank(s[j..]);
    if r != [] { assert r[0] == t[0]; }
  }

  /** Nothing is left of white space alone, and of nothing else. */
  lemma TrimIsEmpty(s: string)
    ensures Trim(s) == [] <==> Blank(s)
  {
    hide IsWhitespace;
    var t := TrimStart(s);
    assert s == s[..|s| - |t|] + t && t[0..] == t;
    assert Blank(s) ==> Blank(t);
  }

  lemma TrimmedIsFixed(s: string)
    requires Trimmed(s)
    ensures Trim(s) == s && TrimStart(s) == s && TrimEnd(s) == s
  {}

  lemma {:induction false} TrimEndOfJoin(a: string, b: string)
    requires a != [] && !IsWhitespace(a[|a| - 1])
    ensures TrimEnd(a + b) == a + TrimEnd(b)
  {
    hide IsWhitespace, TrimEnd, Blank;
    if b == [] {
      TrimEndStep(a);
      TrimEndStep(b);
      assert a + b == a;
    } else {
      var n := |b| - 1;
      TrimEndOfJoin(a, b[..n]);
      TrimEndStep(b);
      TrimEndStep(a + b);
      assert (a + b)[..|a + b| - 1] == a + b[..n];
    }
  }

  lemma TrimEndStep(s: string)
    ensures TrimEnd(s) == if s != [] && IsWhitespace(s[|s| - 1]) then TrimEnd(s[..|s| - 1]) else s
  {
    hide IsWhitespace, Blank;
  }

  lemma {:induction false} TrimEndOfCons(c: char, v: string)
    ensures TrimEnd([c] + v) == if TrimEnd(v) != [] || !IsWhitespace(c) then [c] + TrimEnd(v) else []
  {
    hide IsWhitespace;
    if v == [] {
      assert [c] + v == [c] && [c][..0] == [];
    } else {
      var n := |v| - 1;
      TrimEndOfCons(c, v[..n]);
      assert ([c] + v)[..n + 1] == [c] + v[..n];
    }
  }

  lemma TrimOfSpaced(c: char, v: string)
    requires IsWhitespace(c)
    ensures Trim([c] + v) == Trim(v)
  {
    hide IsWhitespace;
    assert ([c] + v)[1..] == v;
  }

  /** White space at the end makes no difference to trimming. */
  lemma {:induction false} TrimIgnoresEnd(u: string)
    ensures Trim(TrimEnd(u)) == Trim(u)
  {
    hide IsWhitespace;
    if u != [] {
      var c, v := u[0], u[1..];
      assert u == [c] + v;
      TrimEndOfCons(c, v);
      if IsWhitespace(c) {
        TrimIgnoresEnd(v);
        TrimOfSpaced(c, v);
        TrimOfSpaced(c, TrimEnd(v));
      } else {
        TrimEndTwice(u);
      }
    }
  }

  lemma TrimEndTwice(u: string)
    ensures TrimEnd(TrimEnd(u)) == TrimEnd(u)
  {
    hide IsWhitespace;
  }

  // ── Decimal integers ────────────────────────────────────────────────────────

  const DIGITS := "0123456789"

  predicate IsDigit(c: char) { '0' <= c <= '9' }

  predicate AllDigits(s: string) {
    forall i :: 0 <= i < |s| ==> IsDigit(s[i])
  }

  function DigitValue(c: char): (n: nat)
    requires IsDigit(c)
    ensures n < 10
  {
    c as int - '0' as int
  }

  function ShowNat(n: nat): (s: string)
    ensures s != [] && AllDigits(s)
  {
    if n < 10 then [DIGITS[n]] else ShowNat(n / 10) + [DIGITS[n % 10]]
  }

  function ShowInt(n: int): string {
    if n < 0 then ['-'] + ShowNat(-n) else ShowNat(n)
  }

  function DigitsValue(s: string): nat
    requires AllDigits(s)
  {
    if s == [] then 0 else 10 * DigitsValue(s[..|s| - 1]) + DigitValue(s[|s| - 1])
  }

  lemma {:induction false} ShownNatValue(n: nat)
    ensures DigitsValue(ShowNat(n)) == n
  {
    if n >= 10 {
      ShownNatValue(n / 10);
      assert ShowNat(n)[..|ShowNat(n)| - 1] == ShowNat(n / 10);
    } else {
      assert ShowNat(n)[..0] == [];
    }
  }

  lemma ShownNatParses(n: nat)
    ensures ParseDigits(ShowNat(n)) == Some(n)
    ensures ShowNat(n)[0] != '-' && ShowNat(n)[0] != '+'
  {
    ShownNatValue(n);
    assert IsDigit(ShowNat(n)[0]);
  }

  const I64_MIN := -0x8000_0000_0000_0000
  const I64_MAX := 0x7fff_ffff_ffff_ffff
  const USIZE_MAX := 0xffff_ffff_ffff_ffff

  function ParseDigits(s: string): Option<nat> {
    if s != [] && AllDigits(s) then Some(DigitsValue(s)) else None
  }

  function Within(n: int, lo: int, hi: int): Option<int> {
    if lo <= n <= hi then Some(n) else None
  }

  /** `str::parse::<i64>`: an optional sign, then digits, within range. */
  function ParseI64(s: string): (r: Option<int>)
    ensures r.Some? ==> I64_MIN <= r.value <= I64_MAX
  {
    if s != [] && s[0] == '-' then
      match ParseDigits(s[1..])
      case Some(n) => Within(-(n as int), I64_MIN, I64_MAX)
      case None => None
    else
      match ParseDigits(if s != [] && s[0] == '+' then s[1..] else s)
      case Some(n) => Within(n, I64_MIN, I64_MAX)
      case None => None
  }

  /** `str::parse::<usize>` on a 64-bit target: an optional `+`, then digits, within range. */
  function ParseUsize(s: string): (r: Option<nat>)
    ensures r.Some? ==> r.value <= USIZE_MAX
  {
    match ParseDigits(if s != [] && s[0] == '+' then s[1..] else s)
    case Some(n) => if n <= USIZE_MAX then Some(n) else None
    case None => None
  }

  lemma ShownI64Parses(n: int)
    requires I64_MIN <= n <= I64_MAX
    ensures ParseI64(ShowInt(n)) == Some(n)
  {
    if n < 0 {
      ShownNatParses(-n);
      var s := ShowNat(-n);
      assert (['-'] + s)[1..] == s;
    } else {
      ShownNatParses(n);
    }
  }

  lemma ShownUsizeParses(n: nat)
    requires n <= USIZE_MAX
    ensures ParseUsize(ShowNat(n)) == Some(n)
  {
    ShownNatParses(n);
  }
}
