/** The number conversions the scrapers apply to page text: `parseInt` with and without a
    radix, the NaN test of `parseFloat`, and `Number.prototype.toString` on integers.
    Floating-point values themselves are not modelled: for `parseFloat` only the choice
    between "a number" and "NaN" is. */
module JsNumber {
  import opened Wrappers
  import Text

  predicate IsDigit(c: char) {
    '0' <= c <= '9'
  }

  predicate AllDigits(s: string) {
    forall i :: 0 <= i < |s| ==> IsDigit(s[i])
  }

  function DigitValue(c: char): nat
    requires IsDigit(c)
  {
    c as int - '0' as int
  }

  function DigitChar(d: nat): (c: char)
    requires d < 10
    ensures IsDigit(c) && DigitValue(c) == d
  {
    ('0' as int + d) as char
  }

  /** `s.replace(/[^\d]/g, '')`: the decimal digits of `s`, in order. */
  function KeepDigits(s: string): (r: string)
    ensures AllDigits(r)
    ensures |r| <= |s|
    ensures r == [] <==> (forall i :: 0 <= i < |s| ==> !IsDigit(s[i]))
  {
    if s == [] then []
    else if IsDigit(s[0]) then [s[0]] + KeepDigits(s[1..])
    else
      var r := KeepDigits(s[1..]);
      assert forall i :: 1 <= i < |s| ==> s[i] == s[1..][i - 1];
      r
  }

  /** The value of a string of decimal digits. */
  function DecimalValue(ds: string): nat
    requires AllDigits(ds)
  {
    if ds == [] then 0 else 10 * DecimalValue(ds[..|ds| - 1]) + DigitValue(ds[|ds| - 1])
  }

  /** The decimal digits of `n`, without leading zeros. */
  function DecimalDigits(n: nat): (r: string)
    ensures r != [] && AllDigits(r)
    ensures |r| > 1 ==> r[0] != '0'
  {
    if n < 10 then [DigitChar(n)] else DecimalDigits(n / 10) + [DigitChar(n % 10)]
  }

  lemma {:induction false} DecimalDigitsValue(n: nat)
    ensures DecimalValue(DecimalDigits(n)) == n
  {
    if n >= 10 {
      var r := DecimalDigits(n);
      assert r[..|r| - 1] == DecimalDigits(n / 10);
      DecimalDigitsValue(n / 10);
    }
  }

  /** `String(n)` for an integer. */
  function IntToString(n: int): (r: string)
    ensures r != []
  {
    if n < 0 then "-" + DecimalDigits(-n) else DecimalDigits(n)
  }

  /** The longest prefix of `s` made of decimal digits. */
  function DigitPrefix(s: string): (r: string)
    ensures AllDigits(r) && |r| <= |s| && r == s[..|r|]
    ensures |r| < |s| ==> !IsDigit(s[|r|])
  {
    if s == [] || !IsDigit(s[0]) then [] else [s[0]] + DigitPrefix(s[1..])
  }

  predicate IsHexDigit(c: char) {
    IsDigit(c) || 'a' <= c <= 'f' || 'A' <= c <= 'F'
  }

  function HexDigitValue(c: char): nat
    requires IsHexDigit(c)
  {
    if IsDigit(c) then DigitValue(c)
    else if 'a' <= c <= 'f' then c as int - 'a' as int + 10
    else c as int - 'A' as int + 10
  }

  /** The longest prefix of `s` made of hexadecimal digits. */
  function HexPrefix(s: string): (r: string)
    ensures |r| <= |s| && r == s[..|r|]
    ensures forall i :: 0 <= i < |r| ==> IsHexDigit(r[i])
  {
    if s == [] || !IsHexDigit(s[0]) then [] else [s[0]] + HexPrefix(s[1..])
  }

  function HexValue(hs: string): nat
    requires forall i :: 0 <= i < |hs| ==> IsHexDigit(hs[i])
  {
    if hs == [] then 0 else 16 * HexValue(hs[..|hs| - 1]) + HexDigitValue(hs[|hs| - 1])
  }

  /** The text after an optional leading sign. */
  function Unsigned(t: string): string {
    if t != [] && (t[0] == '-' || t[0] == '+') then t[1..] else t
  }

  /** The magnitude `parseInt` reads after the sign: a `0x`/`0X` prefix selects base 16,
      otherwise base 10; the longest run of digits of the base is read, and `None` (NaN)
      means there was none. */
  function ParseMagnitude(u: string): Option<nat> {
    if |u| >= 2 && u[0] == '0' && (u[1] == 'x' || u[1] == 'X') then
      var hs := HexPrefix(u[2..]);
      if hs == [] then None else Some(HexValue(hs))
    else
      var ds := DigitPrefix(u);
      if ds == [] then None else Some(DecimalValue(ds))
  }

  /** `parseInt(s)` with no radix: leading white space is skipped, then an optional sign,
      then the magnitude. */
  function ParseInt(s: string): Option<int> {
    var t := Text.TrimStart(s);
    var negative := t != [] && t[0] == '-';
    match ParseMagnitude(Unsigned(t))
    case None => None
    case Some(m) => var v: int := m; Some(if negative then -v else v)
  }

  lemma DigitPrefixOfDigits(ds: string)
    requires AllDigits(ds)
    ensures DigitPrefix(ds) == ds
  {
  }

  lemma MagnitudeOfDigits(m: nat)
    ensures ParseMagnitude(DecimalDigits(m)) == Some(m)
  {
    var ds := DecimalDigits(m);
    DecimalDigitsValue(m);
    DigitPrefixOfDigits(ds);
    assert !(|ds| >= 2 && ds[0] == '0');
  }

  /** `parseInt` reads back every integer `String` writes. */
  lemma ParseIntOfString(n: int)
    ensures ParseInt(IntToString(n)) == Some(n)
  {
    var s := IntToString(n);
    var m: nat := if n < 0 then -n else n;
    var ds := DecimalDigits(m);
    MagnitudeOfDigits(m);
    assert !Text.IsSpace(s[0]);
    assert Text.TrimStart(s) == s;
    if n < 0 {
      assert s[1..] == ds;
      assert Unsigned(s) == ds;
    } else {
      assert Unsigned(s) == ds;
    }
  }

  /** `parseInt(s, 10)` on a text of decimal digits only: NaN exactly for the empty text. */
  function ParseDigits(ds: string): Option<nat>
    requires AllDigits(ds)
  {
    if ds == [] then None else Some(DecimalValue(ds))
  }

  /** `Number.isNaN(parseFloat(s))`: after leading white space and an optional sign there
      is neither a digit, nor a `.` followed by a digit, nor `Infinity`. */
  predicate ParseFloatIsNaN(s: string) {
    var u := Unsigned(Text.TrimStart(s));
    !(|u| >= 1 && IsDigit(u[0]))
    && !(|u| >= 2 && u[0] == '.' && IsDigit(u[1]))
    && !Text.StartsWith(u, "Infinity")
  }

  /** What `parseFloat` looks at is a suffix of its input. */
  lemma UnsignedSuffix(s: string)
    ensures |Unsigned(Text.TrimStart(s))| <= |s|
    ensures Unsigned(Text.TrimStart(s)) == s[|s| - |Unsigned(Text.TrimStart(s))|..]
  {
    var t := Text.TrimStart(s);
    if t != [] && (t[0] == '-' || t[0] == '+') {
      assert t[1..] == s[|s| - |t| + 1..];
    }
  }

  lemma NoDigitAfterSign(s: string)
    requires forall i :: 0 <= i < |s| ==> !IsDigit(s[i])
    ensures forall j :: 0 <= j < |Unsigned(Text.TrimStart(s))| ==> !IsDigit(Unsigned(Text.TrimStart(s))[j])
  {
    var u := Unsigned(Text.TrimStart(s));
    UnsignedSuffix(s);
    var k := |s| - |u|;
    forall j | 0 <= j < |u| ensures !IsDigit(u[j]) {
      assert u[j] == s[k + j];
    }
  }

  lemma InfinityAfterSign(s: string)
    requires Text.StartsWith(Unsigned(Text.TrimStart(s)), "Infinity")
    ensures Text.Contains(s, "Infinity")
  {
    var u := Unsigned(Text.TrimStart(s));
    UnsignedSuffix(s);
    Text.SuffixStartsWith(s, |s| - |u|, "Infinity");
  }

  /** A text with no digit that does not spell `Infinity` is NaN to `parseFloat`. */
  lemma NoDigitIsNaN(s: string)
    requires forall i :: 0 <= i < |s| ==> !IsDigit(s[i])
    requires !Text.Contains(s, "Infinity")
    ensures ParseFloatIsNaN(s)
  {
    NoDigitAfterSign(s);
    if Text.StartsWith(Unsigned(Text.TrimStart(s)), "Infinity") {
      InfinityAfterSign(s);
    }
  }

  /** A text that starts with a digit is a number to `parseFloat`. */
  lemma LeadingDigitIsNumber(s: string)
    requires |s| > 0 && IsDigit(s[0])
    ensures !ParseFloatIsNaN(s)
  {
    assert !Text.IsSpace(s[0]);
    assert Text.TrimStart(s) == s;
  }
}
