/** The slice of PHP's value model the markup engine relies on: scalar values
    and null, their string conversion, `empty()` truthiness, and array keys. */
module Php {

  /** A PHP scalar or null. Floats, resources and objects are not modelled. */
  datatype Value = Null | Bool(b: bool) | Int(i: int) | Str(s: string)

  /** A PHP array key: an integer or a string. */
  datatype Key = IntKey(n: int) | StrKey(name: string)

  function DigitChar(d: nat): (c: char)
    requires d < 10
    ensures '0' <= c <= '9'
  {
    "0123456789"[d]
  }

  function DigitValue(c: char): nat
  {
    if '0' <= c <= '9' then (c as int - '0' as int) as nat else 0
  }

  ghost predicate AllDigits(s: string)
  {
    forall i :: 0 <= i < |s| ==> '0' <= s[i] <= '9'
  }

  /** Decimal notation of a natural number, without leading zeros. */
  function NatToString(n: nat): (s: string)
    ensures 1 <= |s|
    ensures AllDigits(s)
    ensures n < 10 <==> |s| == 1
    decreases n
  {
    if n < 10 then [DigitChar(n)] else NatToString(n / 10) + [DigitChar(n % 10)]
  }

  /** The number a string of decimal digits denotes. */
  function DigitsValue(s: string): nat
  {
    if |s| == 0 then 0 else 10 * DigitsValue(s[..|s| - 1]) + DigitValue(s[|s| - 1])
  }

  /** Reading back the decimal notation yields the number itself. */
  lemma {:induction false} NatToStringRoundTrip(n: nat)
    ensures DigitsValue(NatToString(n)) == n
    decreases n
  {
    if n >= 10 {
      var s := NatToString(n);
      NatToStringRoundTrip(n / 10);
      assert s[..|s| - 1] == NatToString(n / 10);
      assert DigitValue(s[|s| - 1]) == n % 10 by {
        assert s[|s| - 1] == DigitChar(n % 10);
      }
    } else {
      assert DigitValue(DigitChar(n)) == n;
    }
  }

  /** PHP's decimal rendering of an integer, with a leading '-' when negative. */
  function IntToString(i: int): string
  {
    if i < 0 then "-" + NatToString(-i) else NatToString(i)
  }

  /** `(string) $v` for a scalar or null. */
  function ToStr(v: Value): string
  {
    match v
    case Null => ""
    case Bool(b) => if b then "1" else ""
    case Int(i) => IntToString(i)
    case Str(s) => s
  }

  /** `empty($s)` for a string. */
  predicate IsEmptyString(s: string)
  {
    s == "" || s == "0"
  }

  /** `empty($v)` for a scalar or null. */
  predicate IsEmpty(v: Value)
  {
    match v
    case Null => true
    case Bool(b) => !b
    case Int(i) => i == 0
    case Str(s) => IsEmptyString(s)
  }

  /** For every scalar, `empty()` agrees with the emptiness of its string form. */
  lemma EmptyAgreesWithString(v: Value)
    ensures IsEmpty(v) <==> IsEmptyString(ToStr(v))
  {
    if v.Int? {
      var i := v.i;
      if i < 0 {
        assert ToStr(v)[0] == '-';
      } else if i >= 10 {
        assert |NatToString(i)| >= 2;
      } else if i != 0 {
        assert NatToString(i) == [DigitChar(i)];
        assert DigitChar(i) != '0';
      }
    }
  }

  /** `(string)` of a non-null value different from `false`/`""` is never the empty string. */
  lemma ToStrEmptyOnlyFor(v: Value)
    ensures ToStr(v) == "" <==> v == Null || v == Bool(false) || v == Str("")
  {
    if v.Int? && v.i < 0 {
      assert ToStr(v)[0] == '-';
    }
  }

  // ---------------------------------------------------------------------
  // Numeric strings and loose comparison (PHP 7)

  predicate IsDigit(c: char) { '0' <= c <= '9' }

  /** The characters PHP skips before a number: space, tab, newline,
      carriage return, vertical tab and form feed. */
  predicate IsLeadingSpace(c: char)
  {
    c == ' ' || c == '\t' || c == '\n' || c == '\r' || c as int == 11 || c as int == 12
  }

  /** The first position at or after `i` that is not leading whitespace. */
  function SkipSpace(s: string, i: nat): (j: nat)
    requires i <= |s|
    ensures i <= j <= |s|
    ensures forall k :: i <= k < j ==> IsLeadingSpace(s[k])
    ensures j < |s| ==> !IsLeadingSpace(s[j])
    decreases |s| - i
  {
    if i < |s| && IsLeadingSpace(s[i]) then SkipSpace(s, i + 1) else i
  }

  /** The first position at or after `i` that is not a digit. */
  function DigitRun(s: string, i: nat): (j: nat)
    requires i <= |s|
    ensures i <= j <= |s|
    ensures forall k :: i <= k < j ==> IsDigit(s[k])
    ensures j < |s| ==> !IsDigit(s[j])
    decreases |s| - i
  {
    if i < |s| && IsDigit(s[i]) then DigitRun(s, i + 1) else i
  }

  function Pow10(n: nat): (r: nat)
    ensures r >= 1
  {
    if n == 0 then 1 else 10 * Pow10(n - 1)
  }

  /** What scanning a string for a leading number finds: nothing, or the
      number's exact value and the position where it ends. */
  datatype Scan = NoNumber | Number(value: real, end: nat)

  /** The exponent at `i`, if one is there (`e` or `E`, an optional sign and
      at least one digit): its scale factor and where it ends. Without one
      the factor is 1 and nothing is consumed. */
  function ExponentAt(s: string, i: nat): (r: (real, nat))
    requires i <= |s|
    ensures i <= r.1 <= |s|
    ensures r.0 > 0.0
    ensures r.1 == i ==> r.0 == 1.0
  {
    if i < |s| && (s[i] == 'e' || s[i] == 'E') then
      var signed := i + 1 < |s| && (s[i + 1] == '+' || s[i + 1] == '-');
      var j := if signed then i + 2 else i + 1;
      var k := DigitRun(s, j);
      if k == j then (1.0, i)
      else
        var p := Pow10(DigitsValue(s[j..k])) as real;
        (if signed && s[i + 1] == '-' then 1.0 / p else p, k)
    else (1.0, i)
  }

  /** PHP 7's scan for a number at the start of a string: leading
      whitespace, an optional sign, digits with an optional fraction (at
      least one digit in all; a lone `.` is no number), then an exponent
      when digits follow it. */
  function ScanNumber(s: string): (r: Scan)
    ensures r.Number? ==> r.end <= |s|
    ensures r.Number? ==> exists k :: 0 <= k < r.end && IsDigit(s[k])
  {
    var a := SkipSpace(s, 0);
    var b := if a < |s| && (s[a] == '+' || s[a] == '-') then a + 1 else a;
    var c := DigitRun(s, b);
    var dot := c < |s| && s[c] == '.';
    var d := if dot then DigitRun(s, c + 1) else c;
    var fractionStart := if dot then c + 1 else c;
    if c == b && d == fractionStart then NoNumber
    else
      var mantissa := DigitsValue(s[b..c]) as real + DigitsValue(s[fractionStart..d]) as real / Pow10(d - fractionStart) as real;
      var sign := if b == a + 1 && s[a] == '-' then -1.0 else 1.0;
      var (scale, end) := ExponentAt(s, d);
      assert IsDigit(s[if c > b then b else fractionStart]);
      Number(sign * mantissa * scale, end)
  }

  /** `is_numeric` in PHP 7: the whole string is one number, with leading
      but no trailing whitespace. */
  predicate IsNumericString(s: string)
  {
    ScanNumber(s).Number? && ScanNumber(s).end == |s|
  }

  /** The number a string converts to when compared with an integer: its
      leading number, or 0 when it starts with none. */
  function LeadingNumber(s: string): real
  {
    match ScanNumber(s)
    case NoNumber => 0.0
    case Number(v, _) => v
  }

  /** PHP 7's loose `$value == $s` for a string `$s`: null equals only the
      empty string; a boolean compares with the string's truthiness; an
      integer with the string's leading number; two numeric strings by
      value, and other strings byte for byte. Numbers are compared exactly. */
  predicate LooseEquals(v: Value, s: string)
  {
    match v
    case Null => s == ""
    case Bool(b) => b == !IsEmptyString(s)
    case Int(i) => LeadingNumber(s) == i as real
    case Str(x) => if IsNumericString(x) && IsNumericString(s) then ScanNumber(x).value == ScanNumber(s).value else x == s
  }

  /** Loose comparison differs from identity: `0 == "abc"`, `true == "x"`
      and `"10" == "1e1"` all hold, while `null == "0"` does not. */
  lemma LooseEqualsExamples()
    ensures LooseEquals(Int(0), "abc")
    ensures LooseEquals(Bool(true), "x")
    ensures LooseEquals(Str("10"), "1e1")
    ensures !LooseEquals(Null, "0")
  {
    TenScans();
    TenAsExponentScans();
  }

  lemma TenScans()
    ensures IsNumericString("10") && ScanNumber("10").value == 10.0
  {
    ScanSignedDigits("10", 0);
    assert "10"[0..] == "10";
    assert DigitsValue("10") == 10;
  }

  lemma TenAsExponentScans()
    ensures IsNumericString("1e1") && ScanNumber("1e1").value == 10.0
  {
    var s := "1e1";
    assert SkipSpace(s, 0) == 0;
    assert DigitRun(s, 0) == 1;
    assert s[0..1] == "1" && s[1..1] == "";
    assert DigitRun(s, 2) == 3;
    assert s[2..3] == "1";
    assert DigitsValue("1") == 1;
    assert ExponentAt(s, 1) == (10.0, 3);
  }

  /** A sign-free or `-`-prefixed run of digits scans as its whole self. */
  lemma ScanSignedDigits(s: string, b: nat)
    requires b <= 1 && b < |s| && AllDigits(s[b..])
    requires b == 1 ==> s[0] == '-'
    ensures ScanNumber(s) == Number((if b == 1 then -1.0 else 1.0) * DigitsValue(s[b..]) as real, |s|)
  {
    assert s[b] == s[b..][0];
    assert SkipSpace(s, 0) == 0;
    DigitRunToEnd(s, b);
    assert s[b..|s|] == s[b..];
    assert s[|s|..|s|] == "";
    assert ExponentAt(s, |s|) == (1.0, |s|);
  }

  /** A string that is not numeric matches another string only if the two
      are identical. */
  lemma LooseEqualsText(x: string, s: string)
    requires !IsNumericString(s)
    ensures LooseEquals(Str(x), s) <==> x == s
  {
  }

  /** An integer loosely equals its own decimal rendering, which is a
      numeric string. */
  lemma IntMatchesItsDecimal(i: int)
    ensures IsNumericString(IntToString(i))
    ensures LooseEquals(Int(i), IntToString(i))
  {
    var n: nat := if i < 0 then -i else i;
    var digits := NatToString(n);
    var s := IntToString(i);
    var b: nat := if i < 0 then 1 else 0;
    assert s == (if i < 0 then "-" else "") + digits;
    assert s[b..] == digits;
    ScanSignedDigits(s, b);
    NatToStringRoundTrip(n);
  }

  lemma DigitRunToEnd(s: string, b: nat)
    requires b <= |s| && AllDigits(s[b..])
    ensures DigitRun(s, b) == |s|
    decreases |s| - b
  {
    if b < |s| {
      assert s[b] == s[b..][0];
      assert s[b + 1..] == s[b..][1..];
      DigitRunToEnd(s, b + 1);
    }
  }
}
