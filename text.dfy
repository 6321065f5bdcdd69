/** The string handling the scripts rely on: Python's `str.strip()` and
    `str.lower()` (as far as matching fixed ASCII words goes), decimal
    rendering of integers, `{n:05d}` zero padding and `int(s)` parsing. */
module Text {
  import opened Wrappers

  /** The characters Python's `str.isspace()` accepts, which `strip()` removes. */
  predicate IsSpace(c: char) {
    var n := c as int;
    n in {0x09, 0x0A, 0x0B, 0x0C, 0x0D, 0x1C, 0x1D, 0x1E, 0x1F, 0x20, 0x85, 0xA0, 0x1680,
          0x2028, 0x2029, 0x202F, 0x205F, 0x3000}
    || 0x2000 <= n <= 0x200A
  }

  function StripLeft(s: string): (r: string)
    ensures |r| <= |s| && r == s[|s| - |r|..]
    ensures r == [] || !IsSpace(r[0])
    ensures forall k | 0 <= k < |s| - |r| :: IsSpace(s[k])
  {
    if s != [] && IsSpace(s[0]) then StripLeft(s[1..]) else s
  }

  function StripRight(s: string): (r: string)
    ensures |r| <= |s| && r == s[..|r|]
    ensures r == [] || !IsSpace(r[|r| - 1])
    ensures forall k | |r| <= k < |s| :: IsSpace(s[k])
  {
    if s != [] && IsSpace(s[|s| - 1]) then StripRight(s[..|s| - 1]) else s
  }

  lemma StripLeftSpace(c: char, s: string)
    requires IsSpace(c)
    ensures StripLeft([c] + s) == StripLeft(s)
  {
    var t := [c] + s;
    assert t[0] == c && t[1..] == s;
  }

  lemma StripLeftStops(c: char, s: string)
    requires !IsSpace(c)
    ensures StripLeft([c] + s) == [c] + s
  {
  }

  lemma StripRightSpace(s: string, c: char)
    requires IsSpace(c)
    ensures StripRight(s + [c]) == StripRight(s)
  {
    assert (s + [c])[..|s|] == s;
  }

  lemma StripRightStops(s: string, c: char)
    requires !IsSpace(c)
    ensures StripRight(s + [c]) == s + [c]
  {
  }

  /** `s.strip()`: drops leading and trailing whitespace, keeps the rest. */
  function Strip(s: string): string {
    StripRight(StripLeft(s))
  }

  const KelvinSign: int := 0x212A

  /** One character of `str.lower()`. Besides A-Z, the Kelvin sign is the only
      character whose lower case is an ASCII letter; every other character is
      kept, which decides membership in a set of lower-case ASCII words exactly
      as Python's full case mapping does. */
  function LowerChar(c: char): (r: char)
    ensures 'a' <= r <= 'z' ==> 'a' <= c <= 'z' || 'A' <= c <= 'Z' || c as int == KelvinSign
  {
    if 'A' <= c <= 'Z' then (c as int + 32) as char
    else if c as int == KelvinSign then 'k'
    else c
  }

  function Lower(s: string): (r: string)
    ensures |r| == |s|
    ensures forall k | 0 <= k < |s| :: r[k] == LowerChar(s[k])
  {
    seq(|s|, k requires 0 <= k < |s| => LowerChar(s[k]))
  }

  predicate IsDigit(c: char) {
    '0' <= c <= '9'
  }

  function DigitChar(d: nat): (c: char)
    requires d < 10
    ensures IsDigit(c)
  {
    ('0' as int + d) as char
  }

  function DigitValue(c: char): (d: nat)
    requires IsDigit(c)
    ensures d < 10 && DigitChar(d) == c
  {
    c as int - '0' as int
  }

  predicate AllDigits(s: string) {
    forall k | 0 <= k < |s| :: IsDigit(s[k])
  }

  /** The value of a string of decimal digits, most significant first. */
  function DigitsValue(s: string): nat
    requires AllDigits(s)
  {
    if s == [] then 0 else 10 * DigitsValue(s[..|s| - 1]) + DigitValue(s[|s| - 1])
  }

  /** `str(n)` for a natural number. */
  function NatToString(n: nat): (r: string)
    ensures |r| > 0 && AllDigits(r)
    ensures r[0] == '0' ==> n == 0
  {
    if n < 10 then [DigitChar(n)] else NatToString(n / 10) + [DigitChar(n % 10)]
  }

  /** `str(i)` for any integer. */
  function IntToString(i: int): (r: string)
    ensures |r| > 0
    ensures i < 0 <==> r[0] == '-'
  {
    if i < 0 then "-" + NatToString(-i) else NatToString(i)
  }

  lemma {:induction false} NatToStringValue(n: nat)
    ensures DigitsValue(NatToString(n)) == n
  {
    if n >= 10 {
      NatToStringValue(n / 10);
      var s := NatToString(n);
      assert s[..|s| - 1] == NatToString(n / 10);
    }
  }

  /** Leading zeros do not change the value of a digit string. */
  lemma {:induction false} LeadingZeroValue(s: string)
    requires AllDigits(s)
    ensures AllDigits("0" + s) && DigitsValue("0" + s) == DigitsValue(s)
  {
    if s != [] {
      var t := "0" + s;
      assert t[..|t| - 1] == "0" + s[..|s| - 1];
      LeadingZeroValue(s[..|s| - 1]);
    }
  }

  function Zeros(k: nat): (r: string)
    ensures |r| == k && forall j | 0 <= j < k :: r[j] == '0'
  {
    if k == 0 then "" else "0" + Zeros(k - 1)
  }

  /** `format(n, '0{width}d')` for a natural number: left-padded with zeros
      to at least `width` characters. */
  function ZeroPadded(n: nat, width: nat): (r: string)
    ensures AllDigits(r)
    ensures |r| == if |NatToString(n)| >= width then |NatToString(n)| else width
  {
    var digits := NatToString(n);
    if |digits| >= width then digits else Zeros(width - |digits|) + digits
  }

  lemma {:induction false} ZerosValue(k: nat, s: string)
    requires AllDigits(s)
    ensures AllDigits(Zeros(k) + s) && DigitsValue(Zeros(k) + s) == DigitsValue(s)
  {
    if k > 0 {
      var z := Zeros(k - 1);
      var rest := z + s;
      ZerosValue(k - 1, s);
      LeadingZeroValue(rest);
      assert Zeros(k) + s == "0" + rest by {
        assert Zeros(k) == "0" + z;
        assert ("0" + z) + s == "0" + (z + s);
      }
    } else {
      assert Zeros(k) + s == s;
    }
  }

  /** Zero padding loses nothing: the padded digits still denote `n`, so
      distinct numbers never share a padded rendering. */
  lemma ZeroPaddedValue(n: nat, width: nat)
    ensures DigitsValue(ZeroPadded(n, width)) == n
  {
    NatToStringValue(n);
    var digits, padded := NatToString(n), ZeroPadded(n, width);
    if |digits| < width {
      assert padded == Zeros(width - |digits|) + digits;
      ZerosValue(width - |digits|, digits);
    } else {
      assert padded == digits;
    }
  }

  lemma ZeroPaddedInjective(m: nat, n: nat, width: nat)
    requires ZeroPadded(m, width) == ZeroPadded(n, width)
    ensures m == n
  {
    ZeroPaddedValue(m, width);
    ZeroPaddedValue(n, width);
  }

  /** A run of decimal digits in which single underscores may separate two
      digits, as Python's `int()` accepts them. */
  predicate IsDigitGroup(s: string) {
    |s| > 0 && IsDigit(s[0]) && IsDigit(s[|s| - 1]) &&
    forall k | 0 <= k < |s| :: IsDigit(s[k]) || (s[k] == '_' && 0 < k < |s| - 1 && IsDigit(s[k + 1]))
  }

  function DropUnderscores(s: string): (r: string)
    ensures |r| <= |s|
    ensures (forall k | 0 <= k < |s| :: IsDigit(s[k]) || s[k] == '_') ==> AllDigits(r)
  {
    if s == [] then [] else (if s[0] == '_' then [] else [s[0]]) + DropUnderscores(s[1..])
  }

  /** `int(s)` for a string with no surrounding whitespace: an optional sign and
      a digit group. Non-ASCII digits, which Python also accepts, are not modelled. */
  function ParseInt(s: string): (r: Option<int>)
    ensures r.Some? ==> |s| > 0
  {
    var sign := if s != [] && (s[0] == '-' || s[0] == '+') then s[0] else ' ';
    var body := if sign == ' ' then s else s[1..];
    if !IsDigitGroup(body) then None
    else
      assert forall k | 0 <= k < |body| :: IsDigit(body[k]) || body[k] == '_';
      var v: int := DigitsValue(DropUnderscores(body));
      Some(if sign == '-' then -v else v)
  }

  lemma DropUnderscoresOfDigits(s: string)
    requires AllDigits(s)
    ensures DropUnderscores(s) == s
  {
    if s != [] {
      DropUnderscoresOfDigits(s[1..]);
    }
  }

  /** `int(str(n))` gives `n` back. */
  lemma ParseIntNatToString(n: nat)
    ensures ParseInt(NatToString(n)) == Some(n)
  {
    NatToStringValue(n);
    ParseIntDigits(NatToString(n));
  }

  /** A non-empty run of plain digits parses to its value. */
  lemma ParseIntDigits(s: string)
    requires |s| > 0 && AllDigits(s)
    ensures ParseInt(s) == Some(DigitsValue(s))
  {
    assert IsDigit(s[0]) && IsDigit(s[|s| - 1]);
    assert IsDigitGroup(s);
    DropUnderscoresOfDigits(s);
  }
}
