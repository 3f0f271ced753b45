/**
 * 32-bit integers and their decimal text: `int.ToString()` and
 * `int.TryParse(string, out int)` with the default `NumberStyles.Integer`
 * (leading and trailing white space, an optional leading sign, decimal digits),
 * in the invariant culture.
 */
module Int32Text {
  import opened Nullable

  const MinInt32: int := -0x8000_0000
  const MaxInt32: int := 0x7FFF_FFFF

  /** C#'s `int`. */
  type Int32 = x: int | MinInt32 <= x <= MaxInt32

  predicate IsDigit(c: char) { '0' <= c <= '9' }

  predicate AllDigits(s: string) { forall i :: 0 <= i < |s| ==> IsDigit(s[i]) }

  /** The white space `NumberStyles.AllowLeadingWhite`/`AllowTrailingWhite` skip: U+0009..U+000D and U+0020. */
  predicate IsWhite(c: char) { c == ' ' || '\t' <= c <= '\r' }

  /** A character `NumberStyles.Integer` admits nowhere. */
  predicate Stray(c: char) { !IsWhite(c) && !IsDigit(c) && c != '-' && c != '+' }

  function DigitChar(d: nat): (c: char)
    requires d < 10
    ensures IsDigit(c)
  {
    ('0' as int + d) as char
  }

  function DigitValue(c: char): (d: nat)
    requires IsDigit(c)
    ensures d < 10 && DigitChar(d) == c
  {
    c as int - '0' as int
  }

  /** The decimal digits of `n`, most significant first, without leading zeros. */
  function NatDigits(n: nat): (r: string)
    ensures |r| >= 1 && AllDigits(r)
    ensures r[0] == '0' ==> n == 0
  {
    if n < 10 then [DigitChar(n)] else NatDigits(n / 10) + [DigitChar(n % 10)]
  }

  /** The number a non-empty run of decimal digits denotes. */
  function DigitsValue(s: string): nat
    requires AllDigits(s)
  {
    if s == [] then 0 else DigitsValue(s[..|s| - 1]) * 10 + DigitValue(s[|s| - 1])
  }

  /** `n.ToString()`: a minus sign for negative numbers, then the digits of the magnitude. */
  function ToDecimal(n: int): (r: string)
    ensures |r| >= 1
    ensures r[0] == '-' <==> n < 0
    ensures n >= 0 ==> AllDigits(r)
    ensures n < 0 ==> |r| >= 2 && AllDigits(r[1..])
    ensures IsDigit(r[|r| - 1])
  {
    if n < 0 then "-" + NatDigits(-n) else NatDigits(n)
  }

  function TrimStart(s: string): (r: string)
    ensures |r| <= |s| && r == s[|s| - |r|..]
    ensures r == [] || !IsWhite(r[0])
    ensures forall i :: 0 <= i < |s| - |r| ==> IsWhite(s[i])
  {
    if s != [] && IsWhite(s[0]) then TrimStart(s[1..]) else s
  }

  function TrimEnd(s: string): (r: string)
    ensures |r| <= |s| && r == s[..|r|]
    ensures r == [] || !IsWhite(r[|r| - 1])
    ensures forall i :: |r| <= i < |s| ==> IsWhite(s[i])
  {
    if s != [] && IsWhite(s[|s| - 1]) then TrimEnd(s[..|s| - 1]) else s
  }

  /** The signed value of optional sign and digits, before the range check. */
  function SignedValue(t: string): Option<int>
  {
    if t != [] && (t[0] == '-' || t[0] == '+') then
      var digits := t[1..];
      if digits != [] && AllDigits(digits) then
        var v: int := if t[0] == '-' then -(DigitsValue(digits) as int) else DigitsValue(digits);
        Some(v)
      else None
    else if t != [] && AllDigits(t) then Some(DigitsValue(t))
    else None
  }

  /**
   * `int.TryParse(s, out n)`: `None` stands for `false` (a null string, no digits,
   * a character out of place, or a value outside the range of `int`).
   */
  function TryParse(s: Option<string>): (r: Option<Int32>)
    ensures s.None? ==> r.None?
    ensures s.Some? && TrimEnd(TrimStart(s.value)) == [] ==> r.None?
    ensures s.Some? && (exists i :: 0 <= i < |s.value| && Stray(s.value[i])) ==> r.None?
  {
    match s
    case None => None
    case Some(text) =>
      StrayRejected(text);
      match SignedValue(TrimEnd(TrimStart(text)))
      case Some(v) => if MinInt32 <= v <= MaxInt32 then Some(v) else None
      case None => None
  }

  lemma StrayRejected(text: string)
    ensures (exists i :: 0 <= i < |text| && Stray(text[i])) ==> SignedValue(TrimEnd(TrimStart(text))).None?
  {
    if i :| 0 <= i < |text| && Stray(text[i]) {
      var a := TrimStart(text);
      assert i >= |text| - |a|;
      var j := i - (|text| - |a|);
      StrayInTrimmed(a, j);
    }
  }

  lemma StrayInTrimmed(a: string, j: nat)
    requires j < |a| && Stray(a[j])
    ensures SignedValue(TrimEnd(a)).None?
  {
    var t := TrimEnd(a);
    assert j < |t|;
    assert t[j] == a[j];
    if t[0] == '-' || t[0] == '+' {
      assert j >= 1;
      assert t[1..][j - 1] == t[j];
      assert !AllDigits(t[1..]);
    } else {
      assert !AllDigits(t);
    }
  }

  lemma {:induction false} DigitsValueOfNatDigits(n: nat)
    ensures DigitsValue(NatDigits(n)) == n
  {
    var s := NatDigits(n);
    if n < 10 {
      assert s[..|s| - 1] == [];
    } else {
      assert s[..|s| - 1] == NatDigits(n / 10);
      DigitsValueOfNatDigits(n / 10);
    }
  }

  /** Printing an `int` and parsing the text back gives the same `int`. */
  lemma ParseToDecimal(n: Int32)
    ensures TryParse(Some(ToDecimal(n))) == Some(n)
  {
    var s := ToDecimal(n);
    assert !IsWhite(s[0]);
    assert TrimStart(s) == s;
    assert !IsWhite(s[|s| - 1]);
    assert TrimEnd(s) == s;
    if n < 0 {
      var m: nat := -(n as int);
      assert s[1..] == NatDigits(m);
      DigitsValueOfNatDigits(m);
      assert SignedValue(s) == Some(n);
    } else {
      DigitsValueOfNatDigits(n);
      assert SignedValue(s) == Some(n);
    }
  }

  /** Distinct `int`s print differently. */
  lemma ToDecimalInjective(a: Int32, b: Int32)
    requires ToDecimal(a) == ToDecimal(b)
    ensures a == b
  {
    ParseToDecimal(a);
    ParseToDecimal(b);
  }
}
