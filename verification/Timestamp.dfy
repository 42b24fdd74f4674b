/**
 * Timestamps as text: printed by the query mutator (mutator.cc, write_text) and
 * parsed by its input stream (input_stream.cc, process_line).
 */
module Timestamp {
  import opened Common

  datatype Stamp = Stamp(seconds: int, microseconds: int)

  // ---- Decimal numbers ----

  predicate IsDigit(c: char) { '0' <= c <= '9' }

  predicate AllDigits(s: string) { forall i :: 0 <= i < |s| ==> IsDigit(s[i]) }

  function DigitChar(d: nat): (c: char)
    requires d < 10
    ensures IsDigit(c) && DigitValue(c) == d
  {
    (d + 48) as char
  }

  function DigitValue(c: char): (d: nat)
    requires IsDigit(c)
    ensures d < 10
  {
    c as int - 48
  }

  function Pow10(k: nat): (p: nat)
    ensures p >= 1
  {
    if k == 0 then 1 else 10 * Pow10(k - 1)
  }

  function Decimal(n: nat): (s: string)
    ensures s != "" && AllDigits(s)
  {
    if n < 10 then [DigitChar(n)] else Decimal(n / 10) + [DigitChar(n % 10)]
  }

  // to_string on a signed number.
  function ToString(n: int): (s: string)
    ensures s != ""
  {
    if n < 0 then "-" + Decimal(-n) else Decimal(n)
  }

  function Value(s: string): nat
    requires AllDigits(s)
  {
    if s == "" then 0 else 10 * Value(s[..|s| - 1]) + DigitValue(s[|s| - 1])
  }

  lemma {:induction false} ValueOfDecimal(n: nat)
    ensures Value(Decimal(n)) == n
  {
    var s := Decimal(n);
    if n < 10 {
      assert s[..0] == "";
      assert Value(s[..|s| - 1]) == 0;
    } else {
      ValueOfDecimal(n / 10);
      assert s[..|s| - 1] == Decimal(n / 10);
    }
  }

  lemma {:induction false} DecimalLength(n: nat, k: nat)
    requires k >= 1
    ensures |Decimal(n)| <= k <==> n < Pow10(k)
  {
    if k == 1 {
      assert Pow10(1) == 10 * Pow10(0);
    } else if n >= 10 {
      DecimalLength(n / 10, k - 1);
      assert n < 10 * Pow10(k - 1) <==> n / 10 < Pow10(k - 1);
    } else {
      assert Pow10(k) == 10 * Pow10(k - 1);
    }
  }

  function Zeros(k: nat): (s: string)
    ensures |s| == k && AllDigits(s)
    ensures forall i :: 0 <= i < k ==> s[i] == '0'
  {
    seq(k, _ => '0')
  }

  lemma {:induction false} ValueZeros(k: nat)
    ensures Value(Zeros(k)) == 0
  {
    if k > 0 {
      assert Zeros(k)[..k - 1] == Zeros(k - 1);
      ValueZeros(k - 1);
    }
  }

  lemma {:induction false} LeadingZeros(k: nat, s: string)
    requires AllDigits(s)
    ensures Value(Zeros(k) + s) == Value(s)
    decreases |s|
  {
    var t := Zeros(k) + s;
    if s == "" {
      assert t == Zeros(k);
      ValueZeros(k);
    } else {
      assert t[..|t| - 1] == Zeros(k) + s[..|s| - 1];
      LeadingZeros(k, s[..|s| - 1]);
    }
  }

  // ---- stoi ----

  const INT_MAX: int := 0x7FFF_FFFF

  predicate IsInt(n: int) { -INT_MAX - 1 <= n <= INT_MAX }

  // The end of the digits that start at `i`.
  function DigitsEnd(s: string, i: nat): (j: nat)
    requires i <= |s|
    ensures i <= j <= |s|
    ensures forall k :: i <= k < j ==> IsDigit(s[k])
    ensures j < |s| ==> !IsDigit(s[j])
    decreases |s| - i
  {
    if i < |s| && IsDigit(s[i]) then DigitsEnd(s, i + 1) else i
  }

  predicate IsSpace(c: char) { c == ' ' || '\t' <= c <= '\r' }

  function SkipSpace(s: string): string {
    if s != "" && IsSpace(s[0]) then SkipSpace(s[1..]) else s
  }

  // An optional sign, then as many digits as there are; no digits or an overflow throws.
  function Stoi(s: string): Option<int> {
    var t := SkipSpace(s);
    var signed := t != "" && (t[0] == '-' || t[0] == '+');
    var start := if signed then 1 else 0;
    var end := DigitsEnd(t, start);
    var n: int := Value(t[start..end]);
    var v := if signed && t[0] == '-' then -n else n;
    if end == start || !IsInt(v) then None else Some(v)
  }

  lemma StoiDigits(s: string, tail: string)
    requires s != "" && AllDigits(s)
    requires tail == "" || !IsDigit(tail[0])
    ensures Stoi(s + tail) == if IsInt(Value(s)) then Some(Value(s) as int) else None
  {
    var t := s + tail;
    assert IsDigit(t[0]);
    assert t[..|s|] == s;
    DigitsStop(t, 0, |s|);
  }

  lemma StoiMinus(s: string)
    requires s != "" && AllDigits(s)
    ensures Stoi("-" + s) == if IsInt(-(Value(s) as int)) then Some(-(Value(s) as int)) else None
  {
    var t := "-" + s;
    assert t[1..|t|] == s;
    DigitsStop(t, 1, |t|);
  }

  lemma {:induction false} DigitsStop(t: string, i: nat, j: nat)
    requires i <= j <= |t|
    requires forall k :: i <= k < j ==> IsDigit(t[k])
    requires j < |t| ==> !IsDigit(t[j])
    ensures DigitsEnd(t, i) == j
    decreases j - i
  {
    if i < j { DigitsStop(t, i + 1, j); }
  }

  // ---- Parsing ----

  function Dots(s: string): nat {
    if s == "" then 0 else (if s[0] == '.' then 1 else 0) + Dots(s[1..])
  }

  function FirstDot(s: string): (i: nat)
    ensures i <= |s|
    ensures i < |s| ==> s[i] == '.'
    ensures forall k :: 0 <= k < i ==> s[k] != '.'
  {
    if s == "" || s[0] == '.' then 0 else 1 + FirstDot(s[1..])
  }

  function StoiOrZero(s: string): Option<int> {
    if s == "" then Some(0) else Stoi(s)
  }

  // None where the program stops.
  function Parse(s: string): Option<Stamp>
  {
    if Dots(s) > 1 then None
    else
      var i := FirstDot(s);
      var sec := if i < |s| then StoiOrZero(s[..i]) else Stoi(s);
      var usec := if i < |s| then StoiOrZero(s[i + 1..]) else Some(0);
      if sec.Some? && usec.Some? then Some(Stamp(sec.value, usec.value)) else None
  }

  // ---- Printing ----

  const SIZE_RANGE: int := 0x1_0000_0000_0000_0000
  const UINT_MAX: int := 0xFFFF_FFFF

  /** How many zeros the loop is asked for: an unsigned difference, which wraps for more
      than six characters. */
  function Wanted(length: nat): nat { (6 - length) % SIZE_RANGE }

  function Padded(usec: int): string
    requires |ToString(usec)| <= 6
  {
    Zeros(6 - |ToString(usec)|) + ToString(usec)
  }

  // None when the loop, whose counter has 32 bits, never ends.
  function Print(t: Stamp): Option<string> {
    if |ToString(t.microseconds)| <= 6 then Some(ToString(t.seconds) + "." + Padded(t.microseconds)) else None
  }

  method WriteStamp(t: Stamp) returns (l: Option<string>)
    requires IsInt(t.microseconds)
    ensures l == Print(t)
  {
    hide Decimal;
    IntIsShort(t.microseconds);
    var line := ToString(t.seconds) + ".";
    var usec := ToString(t.microseconds);
    var wanted := Wanted(|usec|);
    if wanted > UINT_MAX { return None; }
    var i := 0;
    while i < wanted
      invariant 0 <= i <= wanted
      invariant line == ToString(t.seconds) + "." + Zeros(i)
    {
      line := line + "0";
      i := i + 1;
      assert Zeros(i) == Zeros(i - 1) + "0";
    }
    assert wanted == 6 - |usec|;
    assert line + usec == ToString(t.seconds) + "." + (Zeros(i) + usec);
    return Some(line + usec);
  }

  lemma IntIsShort(n: int)
    requires IsInt(n)
    ensures |ToString(n)| <= 11
  {
    Pow10Six();
    assert Pow10(7) == 10000000 && Pow10(8) == 100000000 && Pow10(9) == 1000000000 && Pow10(10) == 10000000000;
    DecimalLength(if n < 0 then -n else n, 10);
  }

  // ---- The round trip ----

  predicate NoDot(s: string) { forall i :: 0 <= i < |s| ==> s[i] != '.' }

  lemma {:induction false} DotsNone(s: string)
    requires NoDot(s)
    ensures Dots(s) == 0
  {
    if s != "" { DotsNone(s[1..]); }
  }

  lemma {:induction false} DotsConcat(a: string, b: string)
    ensures Dots(a + b) == Dots(a) + Dots(b)
    decreases |a|
  {
    if a == "" {
      assert a + b == b;
    } else {
      assert (a + b)[1..] == a[1..] + b;
      DotsConcat(a[1..], b);
    }
  }

  lemma ParseJoined(a: string, b: string)
    requires NoDot(a) && NoDot(b) && a != ""
    ensures Parse(a + "." + b) ==
      if Stoi(a).Some? && StoiOrZero(b).Some? then Some(Stamp(Stoi(a).value, StoiOrZero(b).value)) else None
  {
    hide Stoi;
    var s := a + "." + b;
    DotsNone(a);
    DotsNone(b);
    DotsConcat(a, ".");
    DotsConcat(a + ".", b);
    assert Dots(".") == 1;
    assert s[|a|] == '.';
    assert forall k :: 0 <= k < |a| ==> s[k] == a[k];
    assert FirstDot(s) == |a|;
    assert s[..|a|] == a && s[|a| + 1..] == b;
  }

  lemma ToStringNoDot(n: int)
    ensures NoDot(ToString(n))
  {
    var d := Decimal(if n < 0 then -n else n);
    assert forall i :: 0 <= i < |d| ==> IsDigit(d[i]);
  }

  lemma StoiToString(n: int)
    ensures Stoi(ToString(n)) == if IsInt(n) then Some(n) else None
  {
    hide Stoi, Decimal, Value;
    if n < 0 {
      ValueOfDecimal(-n);
      StoiMinus(Decimal(-n));
    } else {
      ValueOfDecimal(n);
      StoiDigits(Decimal(n), "");
      assert Decimal(n) + "" == Decimal(n);
    }
  }

  // A negative number keeps its sign through padding only when there is no padding.
  lemma StoiPadded(usec: int)
    requires |ToString(usec)| <= 6
    ensures Stoi(Padded(usec)).Some?
    ensures Stoi(Padded(usec)) == Some(usec) <==> usec >= 0 || |ToString(usec)| == 6
  {
    hide Stoi, Value, Decimal;
    var k := 6 - |ToString(usec)|;
    ShortIsSmall(usec);
    if usec >= 0 {
      var d := Decimal(usec);
      ValueOfDecimal(usec);
      LeadingZeros(k, d);
      StoiDigits(Zeros(k) + d, "");
      assert Zeros(k) + d + "" == Zeros(k) + d;
    } else if k == 0 {
      assert Zeros(k) + ToString(usec) == ToString(usec);
      StoiToString(usec);
    } else {
      ValueZeros(k);
      StoiDigits(Zeros(k), ToString(usec));
    }
  }

  lemma ShortIsSmall(usec: int)
    ensures |ToString(usec)| <= 6 <==> -100000 < usec < 1000000
    ensures usec < 0 ==> (|ToString(usec)| <= 5 <==> -10000 < usec)
  {
    Pow10Six();
    if usec < 0 {
      DecimalLength(-usec, 5);
      DecimalLength(-usec, 4);
    } else {
      DecimalLength(usec, 6);
    }
  }

  lemma Pow10Six()
    ensures Pow10(6) == 1000000 && Pow10(5) == 100000 && Pow10(4) == 10000
  {
    assert Pow10(1) == 10 && Pow10(2) == 100 && Pow10(3) == 1000;
  }

  /**
   * Which timestamps survive printing and parsing: the seconds fit an int, and the microseconds are
   * normalised, or negative with exactly five digits, so that no zero is put before the sign.
   */
  lemma PrintParseIff(t: Stamp)
    ensures (Print(t).Some? && Parse(Print(t).value) == Some(t)) <==>
              -2147483648 <= t.seconds <= 2147483647
              && (0 <= t.microseconds < 1000000 || -100000 < t.microseconds <= -10000)
  {
    hide Stoi, Parse, ToString;
    ShortIsSmall(t.microseconds);
    if Print(t).Some? {
      var a, b := ToString(t.seconds), Padded(t.microseconds);
      ToStringNoDot(t.seconds);
      ToStringNoDot(t.microseconds);
      ParseJoined(a, b);
      StoiToString(t.seconds);
      StoiPadded(t.microseconds);
    }
  }

  /**
   * The parser takes the digits after the dot as a whole number of microseconds, which is the decimal
   * fraction they denote exactly when there are six of them or they are all zero.
   */
  lemma FractionIsExactIff(sec: nat, digits: string)
    requires IsInt(sec) && AllDigits(digits)
    ensures var t := Parse(Decimal(sec) + "." + digits);
            (t.Some? && t.value.seconds == sec && t.value.microseconds * Pow10(|digits|) == Value(digits) * Pow10(6))
            <==> |digits| == 6 || Value(digits) == 0
  {
    hide Stoi, Parse, Value, Decimal, Pow10;
    ToStringNoDot(sec);
    ParseJoined(Decimal(sec), digits);
    StoiToString(sec);
    ScaleFixes(Value(digits), |digits|);
    SixDigitsFit(digits);
    if digits == "" {
      EmptyIsZero();
    } else {
      StoiDigits(digits, "");
      assert digits + "" == digits;
    }
  }

  lemma EmptyIsZero()
    ensures Value("") == 0
  {
  }

  lemma SixDigitsFit(digits: string)
    requires AllDigits(digits)
    ensures |digits| == 6 || Value(digits) == 0 ==> IsInt(Value(digits))
  {
    ValueBound(digits);
    Pow10Six();
  }

  lemma ScaleFixes(v: nat, k: nat)
    ensures v * Pow10(k) == v * Pow10(6) <==> k == 6 || v == 0
  {
    hide Pow10;
    Pow10Strict(k, 6);
    SameProduct(v, Pow10(k), Pow10(6));
  }

  lemma SameProduct(v: nat, a: nat, b: nat)
    ensures v * a == v * b <==> a == b || v == 0
  {
    assert v * a - v * b == v * (a - b);
  }

  lemma {:induction false} ValueBound(s: string)
    requires AllDigits(s)
    ensures Value(s) < Pow10(|s|)
  {
    if s != "" { ValueBound(s[..|s| - 1]); }
  }

  lemma {:induction false} Pow10Strict(j: nat, k: nat)
    ensures Pow10(j) < Pow10(k) <==> j < k
    ensures Pow10(j) == Pow10(k) <==> j == k
    decreases j + k
  {
    if j > 0 && k > 0 { Pow10Strict(j - 1, k - 1); }
  }

  // "1.5" is read as 1 second and 5 microseconds.
  lemma HalfSecondMisread()
    ensures Parse("1.5") == Some(Stamp(1, 5))
  {
    assert Decimal(1) == "1" && Decimal(5) == "5";
    ValueOfDecimal(1);
    ValueOfDecimal(5);
    StoiToString(1);
    StoiToString(5);
    ParseJoined("1", "5");
    assert "1" + "." + "5" == "1.5";
  }

  /** A normalised stamp is printed as the decimal number of its seconds: the fraction has six digits and
      is worth its microseconds. */
  lemma PrintedIsDecimal(t: Stamp)
    requires t.seconds >= 0 && 0 <= t.microseconds < 1000000
    ensures Print(t).Some?
    ensures var line, whole := Print(t).value, Decimal(t.seconds);
            && |line| == |whole| + 7 && line[..|whole|] == whole && line[|whole|] == '.'
            && AllDigits(line[|whole| + 1..]) && Value(line[|whole| + 1..]) == t.microseconds && Value(whole) == t.seconds
  {
    hide Value, Decimal;
    ShortIsSmall(t.microseconds);
    var d := Decimal(t.microseconds);
    var k := 6 - |d|;
    ValueOfDecimal(t.microseconds);
    ValueOfDecimal(t.seconds);
    LeadingZeros(k, d);
    var line, whole := Print(t).value, Decimal(t.seconds);
    assert line[|whole| + 1..] == Zeros(k) + d;
  }

  /** A stamp without a dot is whole seconds; more than one dot stops the program; an empty half counts
      as zero. */
  lemma ParseCases(a: string, b: string, c: string)
    requires NoDot(a) && NoDot(b)
    ensures Parse(a) == if Stoi(a).Some? then Some(Stamp(Stoi(a).value, 0)) else None
    ensures Parse(a + "." + b + "." + c) == None
    ensures Parse("." + b) == if b == "" then Some(Stamp(0, 0)) else if Stoi(b).Some? then Some(Stamp(0, Stoi(b).value)) else None
    ensures Stoi(a).Some? ==> Parse(a + ".") == Some(Stamp(Stoi(a).value, 0))
  {
    hide Stoi;
    DotsNone(a);
    assert FirstDot(a) == |a|;
    TwoDots(a, b, c);
    EmptyFirst(b);
    if Stoi(a).Some? {
      NoNumber();
      ParseJoined(a, "");
      assert a + "." + "" == a + ".";
    }
  }

  lemma NoNumber()
    ensures Stoi("").None?
  {
  }

  lemma TwoDots(a: string, b: string, c: string)
    ensures Dots(a + "." + b + "." + c) >= 2
  {
    DotsConcat(a + "." + b + ".", c);
    DotsConcat(a + "." + b, ".");
    DotsConcat(a + ".", b);
    DotsConcat(a, ".");
    assert Dots(".") == 1;
  }

  lemma EmptyFirst(b: string)
    requires NoDot(b)
    ensures Parse("." + b) == if b == "" then Some(Stamp(0, 0)) else if Stoi(b).Some? then Some(Stamp(0, Stoi(b).value)) else None
  {
    hide Stoi;
    var s := "." + b;
    DotsNone(b);
    DotsConcat(".", b);
    assert Dots(".") == 1;
    assert FirstDot(s) == 0;
    assert s[..0] == "" && s[1..] == b;
  }

  /** Leading space and a plus sign do not matter to the conversion. */
  lemma StoiPrefixes(s: string, c: char, digits: string)
    requires IsSpace(c) && AllDigits(digits) && digits != ""
    ensures Stoi([c] + s) == Stoi(s)
    ensures Stoi("+" + digits) == Stoi(digits)
  {
    assert ([c] + s)[1..] == s;
    var t := "+" + digits;
    assert t[1..|t|] == digits;
    DigitsStop(t, 1, |t|);
    StoiDigits(digits, "");
    assert digits + "" == digits;
  }
}
