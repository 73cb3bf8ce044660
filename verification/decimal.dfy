/** Decimal text for matrix entries: what `stream << int` writes and what
    `std::stoi` accepts, for a 32-bit `int`. */
module Decimal {
  import opened Errors

  const IntMin: int := -0x8000_0000
  const IntMax: int := 0x7FFF_FFFF

  predicate IsInt32(v: int) {
    IntMin <= v <= IntMax
  }

  predicate IsDigit(c: char) {
    '0' <= c <= '9'
  }

  function DigitChar(d: nat): (c: char)
    requires d < 10
    ensures IsDigit(c)
  {
    ('0' as int + d) as char
  }

  function DigitValue(c: char): (d: nat)
    requires IsDigit(c)
    ensures d < 10 && DigitChar(d) == c
  {
    c as int - '0' as int
  }

  /** Digits of a natural number, most significant first, no leading zero. */
  function ShowNat(n: nat): (s: string)
    ensures |s| > 0
    ensures forall k | 0 <= k < |s| :: IsDigit(s[k])
    ensures |s| > 1 ==> s[0] != '0'
    decreases n
  {
    if n < 10 then [DigitChar(n)] else ShowNat(n / 10) + [DigitChar(n % 10)]
  }

  /** The text `stream << v` writes: a minus sign for negative values, then
      the digits of the magnitude. */
  function Show(v: int): (s: string)
    ensures |s| > 0
    ensures forall k | 0 <= k < |s| :: IsDigit(s[k]) || (k == 0 && s[k] == '-')
    ensures s[0] == '-' <==> v < 0
  {
    if v < 0 then "-" + ShowNat(-v) else ShowNat(v)
  }

  /** The number a run of digits denotes. */
  function Value(ds: string): nat
    requires forall k | 0 <= k < |ds| :: IsDigit(ds[k])
  {
    if |ds| == 0 then 0 else Value(ds[..|ds| - 1]) * 10 + DigitValue(ds[|ds| - 1])
  }

  /** Reading the digits of `n` back gives `n`. */
  lemma {:induction false} ValueShowNat(n: nat)
    ensures Value(ShowNat(n)) == n
    decreases n
  {
    if n >= 10 {
      var s := ShowNat(n);
      ValueShowNat(n / 10);
      assert s[..|s| - 1] == ShowNat(n / 10);
    }
  }

  /** The white space `std::isspace` recognises in the C locale. */
  predicate IsSpace(c: char) {
    c == ' ' || '\t' <= c <= '\r'
  }

  /** `s` without its leading white space. */
  function SkipSpaces(s: string): (t: string)
    ensures |t| <= |s| && t == s[|s| - |t|..]
    ensures |t| > 0 ==> !IsSpace(t[0])
    ensures forall k | 0 <= k < |s| - |t| :: IsSpace(s[k])
  {
    if |s| > 0 && IsSpace(s[0]) then SkipSpaces(s[1..]) else s
  }

  /** Length of the run of digits at the start of `s`. */
  function DigitRun(s: string): (n: nat)
    ensures n <= |s|
    ensures forall k | 0 <= k < n :: IsDigit(s[k])
    ensures n < |s| ==> !IsDigit(s[n])
  {
    if |s| > 0 && IsDigit(s[0]) then 1 + DigitRun(s[1..]) else 0
  }

  /** `std::stoi(s)`: leading white space, an optional sign and the longest
      run of decimal digits; anything after the digits is ignored. No digit
      at all, or a value outside `int`, raises an exception. */
  function Stoi(s: string): (r: Result<int>)
    ensures r.Ok? ==> IsInt32(r.value)
    ensures r.Err? ==> r.error == MalformedNumber
  {
    var t := SkipSpaces(s);
    var signed := |t| > 0 && (t[0] == '-' || t[0] == '+');
    var u := if signed then t[1..] else t;
    var n := DigitRun(u);
    if n == 0 then Err(MalformedNumber)
    else
      var magnitude: int := Value(u[..n]);
      var v: int := if signed && t[0] == '-' then -magnitude else magnitude;
      if IsInt32(v) then Ok(v) else Err(MalformedNumber)
  }

  lemma {:induction false} SkipBlanks(pad: string, x: string)
    requires forall k | 0 <= k < |pad| :: pad[k] == ' '
    requires |x| > 0 && !IsSpace(x[0])
    ensures SkipSpaces(pad + x) == x
  {
    if |pad| > 0 {
      assert (pad + x)[1..] == pad[1..] + x;
      SkipBlanks(pad[1..], x);
    }
  }

  lemma StoiShowUnpadded(v: int)
    requires IsInt32(v)
    ensures Stoi(Show(v)) == Ok(v)
  {
    var t := Show(v);
    assert SkipSpaces(t) == t;
    var digits := if v < 0 then ShowNat(-v) else ShowNat(v);
    var u := if v < 0 then t[1..] else t;
    assert u == digits;
    assert DigitRun(u) == |digits|;
    assert u[..|digits|] == digits;
    ValueShowNat(if v < 0 then -v else v);
  }

  /** A value written by `stream << v`, after any blanks, reads back as `v`. */
  lemma StoiShow(pad: string, v: int)
    requires forall k | 0 <= k < |pad| :: pad[k] == ' '
    requires IsInt32(v)
    ensures Stoi(pad + Show(v)) == Ok(v)
  {
    SkipBlanks(pad, Show(v));
    StoiShowUnpadded(v);
    assert SkipSpaces(pad + Show(v)) == SkipSpaces(Show(v));
  }
}
