/** Resource quantities: decimal texts with units, read as exact whole numbers. */
module ResourceQuantity {
  import opened Wrappers
  import opened Text
  import Paths

  const MAX_INT64 := 0x7FFF_FFFF_FFFF_FFFF

  predicate IsDigit(c: char) {
    '0' <= c <= '9'
  }

  predicate Digits(s: string) {
    forall c | c in s :: IsDigit(c)
  }

  function DigitOf(c: char): nat {
    if IsDigit(c) then c as int - '0' as int else 0
  }

  function Pow10(n: nat): (p: nat)
    ensures p >= 1
  {
    if n == 0 then 1 else 10 * Pow10(n - 1)
  }

  /** A digit string as a number. */
  function Numeral(s: string): nat {
    if s == "" then 0 else 10 * Numeral(s[..|s| - 1]) + DigitOf(s[|s| - 1])
  }

  // ---------------------------------------------------------------------------
  // Reading
  // ---------------------------------------------------------------------------

  function StripPlus(s: string): string {
    if s != "" && s[0] == '+' then s[1..] else s
  }

  predicate EndsWith(s: string, suffix: string) {
    |s| >= |suffix| && s[|s| - |suffix|..] == suffix
  }

  /** The digits before and after the point; a missing whole part is zero. */
  function ShapeOf(value: string): Option<(string, string)> {
    var parts := Paths.Split(value, '.');
    if |parts| > 2 || (parts[0] == "" && |parts| == 1) then None
    else
      var whole := if parts[0] == "" then "0" else parts[0];
      var fraction := if |parts| == 2 then parts[1] else "";
      if fraction == "" && EndsWith(value, ".") then None else Some((whole, fraction))
  }

  function Shape(text: string): Option<(string, string)> {
    if TrimSpace(text) == "" then None else ShapeOf(StripPlus(TrimSpace(text)))
  }

  /** The number in hundredths, thousandths, ... brought to whole units. */
  function Scaled(whole: string, fraction: string, scale: nat): Result<int> {
    Reduced(Numeral(whole + fraction), |fraction|, scale)
  }

  /** A numeral times the scale, over a power of ten. */
  function Reduced(numeral: nat, places: nat, scale: nat): Result<int> {
    var numerator, denominator := numeral * scale, Pow10(places);
    if numerator % denominator != 0 || numerator / denominator > MAX_INT64 then Err else Ok(numerator / denominator)
  }

  function ParseScaled(text: string, scale: nat): Result<int> {
    var shape := Shape(text);
    if shape.None? || !Digits(shape.value.0 + shape.value.1) then Err
    else Scaled(shape.value.0, shape.value.1, scale)
  }

  method CheckDigits(s: string) returns (ok: bool)
    ensures ok <==> Digits(s)
  {
    for i := 0 to |s|
      invariant Digits(s[..i])
    {
      if s[i] < '0' || s[i] > '9' {
        assert s[i] in s;
        return false;
      }
    }
    return true;
  }

  method ParseScaledResourceDecimal(text: string, scale: nat) returns (r: Result<int>)
    ensures r == ParseScaled(text, scale)
  {
    var shape := Shape(text);
    if shape.None? {
      return Err;
    }
    var digits := shape.value.0 + shape.value.1;
    var ok := CheckDigits(digits);
    if !ok {
      return Err;
    }
    var numerator := Numeral(digits) * scale;
    var denominator := Pow10(|shape.value.1|);
    var quotient, remainder := numerator / denominator, numerator % denominator;
    if remainder != 0 || quotient > MAX_INT64 {
      return Err;
    }
    return Ok(quotient);
  }

  // ---------------------------------------------------------------------------
  // The number a text stands for
  // ---------------------------------------------------------------------------

  function Whole(s: string): real {
    if s == "" then 0.0 else 10.0 * Whole(s[..|s| - 1]) + DigitOf(s[|s| - 1]) as real
  }

  function Fraction(s: string): real {
    if s == "" then 0.0 else (DigitOf(s[0]) as real + Fraction(s[1..])) / 10.0
  }

  function Value(whole: string, fraction: string): real {
    Whole(whole) + Fraction(fraction)
  }

  lemma {:induction false} WholeIsNumeral(s: string)
    ensures Whole(s) == Numeral(s) as real
  {
    if s != "" { WholeIsNumeral(s[..|s| - 1]); }
  }

  /** The decimal point moved `k` places to the right. */
  ghost function Shift(x: real, k: nat): real {
    if k == 0 then x else 10.0 * Shift(x, k - 1)
  }

  lemma {:induction false} ShiftAdds(x: real, y: real, k: nat)
    ensures Shift(x + y, k) == Shift(x, k) + Shift(y, k)
  {
    if k > 0 { ShiftAdds(x, y, k - 1); }
  }

  lemma {:induction false} ShiftTenth(x: real, k: nat)
    ensures Shift(x / 10.0, k + 1) == Shift(x, k)
  {
    if k > 0 { ShiftTenth(x, k - 1); }
  }

  lemma {:induction false} ShiftIsTimes(x: real, k: nat)
    ensures Shift(x, k) == x * Pow10(k) as real
  {
    if k > 0 {
      ShiftIsTimes(x, k - 1);
      TimesTen(x, Pow10(k - 1) as real);
    }
  }

  lemma TimesTen(x: real, p: real)
    ensures 10.0 * (x * p) == x * (10.0 * p)
  {
  }

  /** Reading on after some digits. */
  lemma {:induction false} NumeralSplits(a: string, b: string)
    ensures Numeral(a + b) as real == Shift(Numeral(a) as real, |b|) + Numeral(b) as real
    decreases |b|
  {
    if b == "" {
      assert a + b == a;
    } else {
      var c := b[..|b| - 1];
      NumeralSplits(a, c);
      assert (a + b)[..|a + b| - 1] == a + c && (a + b)[|a + b| - 1] == b[|b| - 1];
    }
  }

  lemma {:induction false} FractionIsNumeral(s: string)
    ensures Shift(Fraction(s), |s|) == Numeral(s) as real
  {
    if s != "" {
      var d, rest := s[..1], s[1..];
      FractionIsNumeral(rest);
      assert s == d + rest && Numeral(d) == DigitOf(s[0]) by { assert d[..0] == ""; }
      NumeralSplits(d, rest);
      ShiftTenth(DigitOf(s[0]) as real + Fraction(rest), |rest|);
      ShiftAdds(DigitOf(s[0]) as real, Fraction(rest), |rest|);
    }
  }

  lemma ValueIsNumeral(whole: string, fraction: string)
    ensures Shift(Value(whole, fraction), |fraction|) == Numeral(whole + fraction) as real
  {
    WholeIsNumeral(whole);
    FractionIsNumeral(fraction);
    NumeralSplits(whole, fraction);
    ShiftAdds(Whole(whole), Fraction(fraction), |fraction|);
  }

  lemma {:induction false} RealProduct(a: nat, b: nat)
    ensures (a * b) as real == a as real * b as real
    decreases a
  {
    if a > 0 {
      RealProduct(a - 1, b);
      assert a * b == (a - 1) * b + b;
      Distribute((a - 1) as real, 1.0, b as real);
    }
  }

  lemma Distribute(a: real, b: real, p: real)
    ensures (a + b) * p == a * p + b * p
  {
  }

  /** A number of units, as a result: whole and fitting, or refused. */
  ghost predicate Comes(r: Result<int>, units: real, n: int) {
    r == Ok(n) <==> n <= MAX_INT64 && units == n as real
  }

  function Units(whole: string, fraction: string, scale: nat): real {
    UnitsOf(Value(whole, fraction), scale)
  }

  function UnitsOf(value: real, scale: nat): real {
    value * scale as real
  }

  /** Accepted exactly when the value times the scale is a whole number that fits, and then
      that number is the result. */
  lemma ScaledExact(whole: string, fraction: string, scale: nat, n: int)
    ensures Comes(Scaled(whole, fraction, scale), Units(whole, fraction, scale), n)
  {
    ValueIsNumeral(whole, fraction);
    ShiftedComes(Value(whole, fraction), |fraction|, Numeral(whole + fraction), scale, n);
  }

  lemma ShiftedComes(v: real, places: nat, numeral: nat, scale: nat, n: int)
    requires Shift(v, places) == numeral as real
    ensures Comes(Reduced(numeral, places, scale), UnitsOf(v, scale), n)
  {
    ShiftIsTimes(v, places);
    ScaleStep(v, Pow10(places), numeral, scale, n);
  }

  lemma ScaleStep(v: real, d: nat, numeral: nat, scale: nat, n: int)
    requires d >= 1 && v * d as real == numeral as real
    ensures ((numeral * scale) % d == 0 && (numeral * scale) / d == n) <==> v * scale as real == n as real
  {
    RealProduct(numeral, scale);
    Reorder(v, d as real, scale as real);
    WholeQuotient(numeral * scale, d, n, v * scale as real);
  }

  lemma Reorder(a: real, b: real, c: real)
    ensures a * b * c == (a * c) * b
  {
  }

  lemma WholeQuotient(m: nat, d: nat, n: int, x: real)
    requires d >= 1 && m as real == x * d as real
    ensures (m % d == 0 && m / d == n) <==> x == n as real
  {
    var q, r := m / d, m % d;
    RealProduct(q, d);
    assert m == q * d + r;
    QuotientOf(x, q as real, r as real, d as real);
    if x == n as real {
      assert q <= n < q + 1;
    }
  }

  lemma QuotientOf(x: real, q: real, r: real, d: real)
    requires d >= 1.0 && x * d == q * d + r && 0.0 <= r < d
    ensures q <= x < q + 1.0 && (r == 0.0 <==> x == q)
  {
    Distribute(x, -q, d);
    assert (x - q) * d == r;
    SmallFactor(x - q, d, r);
  }

  lemma SmallFactor(y: real, d: real, r: real)
    requires d >= 1.0 && y * d == r && 0.0 <= r < d
    ensures 0.0 <= y < 1.0 && (r == 0.0 <==> y == 0.0)
  {
    assert y == r / d;
  }

  // ---------------------------------------------------------------------------
  // Which texts are numbers
  // ---------------------------------------------------------------------------

  function Written(whole: string, fraction: string): string {
    if fraction == "" then whole else whole + "." + fraction
  }

  /** An optional plus sign, digits, and optionally a point with more digits. */
  ghost predicate IsDecimal(text: string, plus: string, whole: string, fraction: string) {
    && (plus == "" || plus == "+") && Digits(whole) && Digits(fraction) && (whole != "" || fraction != "")
    && text == plus + Written(whole, fraction)
  }

  lemma DigitsHaveNoPoint(s: string)
    requires Digits(s)
    ensures '.' !in s
  {
  }

  lemma WrittenEnds(whole: string, fraction: string)
    requires Digits(whole) && Digits(fraction) && (whole != "" || fraction != "")
    ensures var w := Written(whole, fraction);
            w != "" && w[0] != '+' && !IsSpace(w[0]) && IsDigit(w[|w| - 1]) && w[0] != '-'
  {
    var w := Written(whole, fraction);
    if fraction == "" {
      assert w[0] in whole && w[|w| - 1] in whole;
    } else {
      assert w[|w| - 1] == fraction[|fraction| - 1] && fraction[|fraction| - 1] in fraction;
      if whole != "" { assert w[0] == whole[0] && whole[0] in whole; }
    }
  }

  lemma ShapeOfWritten(whole: string, fraction: string)
    requires Digits(whole) && Digits(fraction) && (whole != "" || fraction != "")
    ensures ShapeOf(Written(whole, fraction)) == Some((if whole == "" then "0" else whole, fraction))
  {
    var w := Written(whole, fraction);
    WrittenEnds(whole, fraction);
    DigitsHaveNoPoint(whole);
    DigitsHaveNoPoint(fraction);
    Paths.SplitWithout(whole, '.');
    Paths.SplitWithout(fraction, '.');
    if fraction != "" {
      Paths.SplitConcat(whole, fraction, '.');
      assert w == whole + ['.'] + fraction;
    }
    assert w[|w| - 1..] == [w[|w| - 1]];
  }

  lemma ShapeOfDecimal(text: string, plus: string, whole: string, fraction: string)
    requires IsDecimal(text, plus, whole, fraction)
    ensures Shape(text) == Some((if whole == "" then "0" else whole, fraction)) && TrimSpace(text) == text
  {
    var w := Written(whole, fraction);
    WrittenEnds(whole, fraction);
    assert text[|text| - 1] == w[|w| - 1];
    TrimIsIdentity(text);
    assert StripPlus(text) == w;
    ShapeOfWritten(whole, fraction);
  }

  lemma ZeroWhole(fraction: string)
    ensures Value("0", fraction) == Value("", fraction)
  {
    assert "0"[..0] == "";
  }

  /** A decimal number is accepted exactly when it comes to a whole number of units that fits,
      and that number is the result. */
  lemma ParsesExactly(text: string, plus: string, whole: string, fraction: string, scale: nat, n: int)
    requires IsDecimal(text, plus, whole, fraction)
    ensures Comes(ParseScaled(text, scale), Units(whole, fraction, scale), n)
  {
    var some := if whole == "" then "0" else whole;
    ParseOfDecimal(text, plus, whole, fraction, scale);
    ZeroWhole(fraction);
    SameProduct(some, fraction, whole, fraction, scale);
    ScaledExact(some, fraction, scale, n);
  }

  lemma ParseOfDecimal(text: string, plus: string, whole: string, fraction: string, scale: nat)
    requires IsDecimal(text, plus, whole, fraction)
    ensures ParseScaled(text, scale) == Scaled(if whole == "" then "0" else whole, fraction, scale)
  {
    ShapeOfDecimal(text, plus, whole, fraction);
    assert Digits((if whole == "" then "0" else whole) + fraction);
  }

  lemma ShapeIsWritten(value: string)
    requires ShapeOf(value).Some? && Digits(ShapeOf(value).value.0 + ShapeOf(value).value.1)
    ensures exists whole, fraction :: Digits(whole) && Digits(fraction) && (whole != "" || fraction != "")
                                      && value == Written(whole, fraction)
  {
    var parts := Paths.Split(value, '.');
    var (w, f) := ShapeOf(value).value;
    Paths.UnsplitSplit(value, '.');
    assert forall c | c in w :: c in w + f;
    assert forall c | c in f :: c in w + f;
    if |parts| == 1 {
      assert value == Written(parts[0], "");
    } else {
      assert Paths.Unsplit(parts[1..], '.') == f;
      assert value == parts[0] + "." + f;
      assert value[|value| - 1..] == [value[|value| - 1]];
      assert value == Written(parts[0], f);
    }
  }

  /** Nothing else is accepted. */
  lemma AcceptedIsDecimal(text: string, scale: nat)
    requires ParseScaled(text, scale).Ok?
    ensures exists plus, whole, fraction :: IsDecimal(TrimSpace(text), plus, whole, fraction)
  {
    var t := TrimSpace(text);
    var plus := if t[0] == '+' then "+" else "";
    var value := StripPlus(t);
    assert t == plus + value;
    ShapeIsWritten(value);
    var whole, fraction :| Digits(whole) && Digits(fraction) && (whole != "" || fraction != "")
                           && value == Written(whole, fraction);
    assert IsDecimal(t, plus, whole, fraction);
  }

  lemma {:induction false} FractionZero(s: string)
    ensures Fraction(s + "0") == Fraction(s)
  {
    if s == "" {
      assert s + "0" == "0" && "0"[1..] == "";
    } else {
      FractionZero(s[1..]);
      assert (s + "0")[1..] == s[1..] + "0";
    }
  }

  /** Only the number counts, not how it is written. */
  lemma SameValueSameResult(a: string, b: string, plus: string, whole: string, fraction: string,
                            plus': string, whole': string, fraction': string, scale: nat)
    requires IsDecimal(a, plus, whole, fraction) && IsDecimal(b, plus', whole', fraction')
    requires Value(whole, fraction) == Value(whole', fraction')
    ensures ParseScaled(a, scale) == ParseScaled(b, scale)
  {
    var units := Units(whole, fraction, scale);
    SameProduct(whole, fraction, whole', fraction', scale);
    forall n: int ensures Comes(ParseScaled(a, scale), units, n) && Comes(ParseScaled(b, scale), units, n) {
      ParsesExactly(a, plus, whole, fraction, scale, n);
      ParsesExactly(b, plus', whole', fraction', scale, n);
    }
    SameUnits(ParseScaled(a, scale), ParseScaled(b, scale), units);
  }

  lemma SameProduct(whole: string, fraction: string, whole': string, fraction': string, scale: nat)
    requires Value(whole, fraction) == Value(whole', fraction')
    ensures Units(whole, fraction, scale) == Units(whole', fraction', scale)
  {
  }

  lemma SameUnits(a: Result<int>, b: Result<int>, units: real)
    requires forall n :: Comes(a, units, n) && Comes(b, units, n)
    ensures a == b
  {
    if a.Ok? {
      assert Comes(b, units, a.value) && Comes(a, units, a.value);
    } else if b.Ok? {
      assert Comes(a, units, b.value) && Comes(b, units, b.value);
    }
  }

  /** One more zero at the end of a fraction changes nothing. */
  lemma TrailingZero(text: string, plus: string, whole: string, fraction: string, scale: nat)
    requires IsDecimal(text, plus, whole, fraction) && fraction != ""
    ensures ParseScaled(text + "0", scale) == ParseScaled(text, scale)
  {
    FractionZero(fraction);
    assert text + "0" == plus + Written(whole, fraction + "0");
    assert IsDecimal(text + "0", plus, whole, fraction + "0");
    SameValueSameResult(text + "0", text, plus, whole, fraction + "0", plus, whole, fraction, scale);
  }

  // ---------------------------------------------------------------------------
  // Quantities with units
  // ---------------------------------------------------------------------------

  datatype Unit = Unit(suffix: string, factor: nat)

  const UNITS: seq<Unit> := [
    Unit("tib", 1024 * 1024 * 1024 * 1024), Unit("gib", 1024 * 1024 * 1024), Unit("mib", 1024 * 1024), Unit("kib", 1024),
    Unit("ti", 1024 * 1024 * 1024 * 1024), Unit("gi", 1024 * 1024 * 1024), Unit("mi", 1024 * 1024), Unit("ki", 1024),
    Unit("tb", 1000 * 1000 * 1000 * 1000), Unit("gb", 1000 * 1000 * 1000), Unit("mb", 1000 * 1000), Unit("kb", 1000),
    Unit("b", 1)
  ]

  /** The number and the factor of the first unit the text ends with; none is bytes. */
  function SplitMemory(value: string, units: seq<Unit>): (string, nat) {
    if units == [] then (value, 1)
    else if EndsWith(Lower(value), units[0].suffix) then
      (TrimSpace(value[..|value| - |units[0].suffix|]), units[0].factor)
    else SplitMemory(value, units[1..])
  }

  method SplitMemoryQuantity(value: string, units: seq<Unit>) returns (number: string, factor: nat)
    ensures (number, factor) == SplitMemory(value, units)
  {
    var lower := Lower(value);
    assert units[0..] == units;
    for i := 0 to |units|
      invariant SplitMemory(value, units) == SplitMemory(value, units[i..])
    {
      var unit := units[i];
      assert units[i..][0] == unit && units[i..][1..] == units[i + 1..];
      if EndsWith(lower, unit.suffix) {
        return TrimSpace(value[..|value| - |unit.suffix|]), unit.factor;
      }
    }
    return value, 1;
  }

  function ParseCpu(quantity: string): Result<int> {
    var value := TrimSpace(quantity);
    if value == "" then Ok(0)
    else if value[0] == '-' then Err
    else if EndsWith(value, "m") then ParseScaled(value[..|value| - 1], 1)
    else ParseScaled(value, 1000)
  }

  function ParseMemory(quantity: string): Result<int> {
    var value := TrimSpace(quantity);
    if value == "" then Ok(0)
    else if value[0] == '-' then Err
    else
      var (number, factor) := SplitMemory(value, UNITS);
      ParseScaled(number, factor)
  }

  // ---------------------------------------------------------------------------
  // Numbers written and read back
  // ---------------------------------------------------------------------------

  function Format(n: nat): (s: string)
    ensures s != "" && Digits(s)
  {
    var last := ['0' + (n % 10) as char];
    if n < 10 then last else Format(n / 10) + last
  }

  lemma {:induction false} NumeralFormat(n: nat)
    ensures Numeral(Format(n)) == n
  {
    var s := Format(n);
    if n >= 10 {
      NumeralFormat(n / 10);
      assert s[..|s| - 1] == Format(n / 10);
    } else {
      assert s[..0] == "";
    }
  }

  lemma ParseFormat(n: nat, scale: nat)
    ensures ParseScaled(Format(n), scale) == if n * scale <= MAX_INT64 then Ok(n * scale) else Err
  {
    FormatReduces(n, scale);
    ReducedWhole(n, scale);
  }

  lemma FormatReduces(n: nat, scale: nat)
    ensures ParseScaled(Format(n), scale) == Reduced(n, 0, scale)
  {
    FormatIsDecimal(n);
    ParseOfDecimal(Format(n), "", Format(n), "", scale);
    NumeralFormat(n);
    assert Format(n) + "" == Format(n);
  }

  lemma FormatIsDecimal(n: nat)
    ensures IsDecimal(Format(n), "", Format(n), "")
  {
    assert "" + Format(n) == Format(n);
  }

  lemma ReducedWhole(n: nat, scale: nat)
    ensures Reduced(n, 0, scale) == if n * scale <= MAX_INT64 then Ok(n * scale) else Err
  {
  }

  lemma FormatEnds(n: nat)
    ensures var s := Format(n); TrimSpace(s) == s && IsDigit(s[0]) && IsDigit(s[|s| - 1])
  {
    var s := Format(n);
    assert s[0] in s && s[|s| - 1] in s;
    TrimIsIdentity(s);
  }

  /** Milli-cores read back as themselves. */
  lemma CpuMilliReadsBack(n: nat)
    requires n <= MAX_INT64
    ensures ParseCpu(Format(n) + "m") == Ok(n)
  {
    var s := Format(n) + "m";
    FormatEnds(n);
    TrimIsIdentity(s);
    assert s[|s| - 1..] == "m" && s[..|s| - 1] == Format(n);
    ParseFormat(n, 1);
  }

  /** Cores read back as a thousand times as many milli-cores, or are too large. */
  lemma CpuCoresReadBack(n: nat)
    ensures ParseCpu(Format(n)) == if 1000 * n <= MAX_INT64 then Ok(1000 * n) else Err
  {
    var s := Format(n);
    FormatEnds(n);
    assert s[|s| - 1..] == [s[|s| - 1]];
    ParseFormat(n, 1000);
  }

  lemma {:induction false} LowerAppend(a: string, b: string)
    ensures Lower(a + b) == Lower(a) + Lower(b)
  {
    if a == "" {
      assert a + b == b;
    } else {
      LowerAppend(a[1..], b);
      assert (a + b)[1..] == a[1..] + b;
    }
  }

  predicate Letters(s: string) {
    forall c | c in s :: 'a' <= c <= 'z'
  }

  predicate IsLetter(c: char) {
    'a' <= c <= 'z' || 'A' <= c <= 'Z'
  }

  /** The end of what may stand before a unit: nothing, or no letter. */
  predicate EndsPlain(s: string) {
    s == "" || !IsLetter(s[|s| - 1])
  }

  /** A text without a letter right before a unit ends with no other unit as long or longer. */
  lemma OtherUnitsDiffer(number: string, unit: string, other: string)
    requires EndsPlain(number) && Letters(other) && |other| >= |unit| && other != unit
    ensures !EndsWith(number + unit, other)
  {
    var t := number + unit;
    if |t| >= |other| {
      var tail := t[|t| - |other|..];
      if |other| == |unit| {
        assert tail == unit;
      } else {
        var k := |other| - |unit| - 1;
        assert tail[k] == number[|number| - 1];
        assert other[k] in other;
      }
    }
  }

  /** Longer units come first, and no unit twice. */
  ghost predicate LongestFirst(units: seq<Unit>) {
    && (forall u | u in units :: Letters(u.suffix) && u.suffix != "")
    && (forall i, j | 0 <= i < j < |units| :: |units[i].suffix| >= |units[j].suffix| && units[i].suffix != units[j].suffix)
  }

  lemma {:induction false} UnitFound(number: string, spelled: string, units: seq<Unit>, i: nat)
    requires LongestFirst(units) && i < |units| && Lower(spelled) == units[i].suffix && EndsPlain(number)
    ensures SplitMemory(number + spelled, units) == (TrimSpace(number), units[i].factor)
    decreases |units|
  {
    var value := number + spelled;
    LowerAppend(number, spelled);
    LowerPlain(number);
    if i == 0 {
      assert value[..|value| - |spelled|] == number;
      assert Lower(value)[|number|..] == Lower(spelled);
    } else {
      assert units[0] in units;
      OtherUnitsDiffer(Lower(number), Lower(spelled), units[0].suffix);
      assert LongestFirst(units[1..]) by {
        assert forall u | u in units[1..] :: u in units;
        forall a, b | 0 <= a < b < |units[1..]|
          ensures |units[1..][a].suffix| >= |units[1..][b].suffix| && units[1..][a].suffix != units[1..][b].suffix
        {
          assert units[a + 1] == units[1..][a] && units[b + 1] == units[1..][b];
        }
      }
      UnitFound(number, spelled, units[1..], i - 1);
    }
  }

  lemma {:induction false} LowerPlain(s: string)
    requires EndsPlain(s)
    ensures EndsPlain(Lower(s))
  {
    if |s| > 1 { LowerPlain(s[1..]); }
  }

  lemma {:induction false} NoUnit(value: string, units: seq<Unit>)
    requires value != "" && IsDigit(value[|value| - 1])
    requires forall u | u in units :: Letters(u.suffix) && u.suffix != ""
    ensures SplitMemory(value, units) == (value, 1)
  {
    if units != [] {
      assert units[0] in units;
      LowerPlain(value);
      OtherUnitsDiffer(Lower(value), "", units[0].suffix);
      assert Lower(value) + "" == Lower(value);
      NoUnit(value, units[1..]);
    }
  }

  /** The place of a unit in the table, by its length and its letters. */
  function Rank(s: string): int {
    if |s| == 3 then RankOf(s[0]) else if |s| == 2 then (if s[1] == 'i' then 4 else 8) + RankOf(s[0]) else 12
  }

  function RankOf(c: char): int {
    if c == 't' then 0 else if c == 'g' then 1 else if c == 'm' then 2 else 3
  }

  lemma UnitRank(i: nat)
    requires i < |UNITS|
    ensures var s := UNITS[i].suffix;
            Rank(s) == i && s != "" && Letters(s) && |s| == if i < 4 then 3 else if i < 12 then 2 else 1
  {
    var s := UNITS[i].suffix;
    assert |UNITS| == 13;
    if i < 4 {
      assert s[1] == 'i' && s[2] == 'b';
      assert s[0] == if i == 0 then 't' else if i == 1 then 'g' else if i == 2 then 'm' else 'k';
    } else if i < 12 {
      assert s[1] == if i < 8 then 'i' else 'b';
      var k := if i < 8 then i - 4 else i - 8;
      assert s[0] == if k == 0 then 't' else if k == 1 then 'g' else if k == 2 then 'm' else 'k';
    } else {
      assert s[0] == 'b';
    }
  }

  lemma UnitsLongestFirst()
    ensures LongestFirst(UNITS)
  {
    forall u | u in UNITS ensures Letters(u.suffix) && u.suffix != "" {
      var i :| 0 <= i < |UNITS| && UNITS[i] == u;
      UnitRank(i);
    }
    forall i, j | 0 <= i < j < |UNITS|
      ensures |UNITS[i].suffix| >= |UNITS[j].suffix| && UNITS[i].suffix != UNITS[j].suffix
    {
      UnitRank(i);
      UnitRank(j);
    }
  }

  /** Bytes read back as themselves. */
  lemma MemoryBytesReadBack(n: nat)
    requires n <= MAX_INT64
    ensures ParseMemory(Format(n)) == Ok(n)
  {
    FormatEnds(n);
    UnitsLongestFirst();
    NoUnit(Format(n), UNITS);
    ParseFormat(n, 1);
  }

  lemma MinusRefused(number: string, scale: nat)
    requires number != "" && number[0] == '-'
    ensures ParseScaled(number, scale) == Err
  {
    TrimKeepsHead(number);
    var value := TrimSpace(number);
    var parts := Paths.Split(value, '.');
    assert parts[0] != "" && parts[0][0] == '-';
    if Shape(number).Some? {
      var digits := Shape(number).value.0 + Shape(number).value.1;
      assert digits[0] == '-' && digits[0] in digits;
    }
  }

  /** A unit in any case, at the end of a text, scales the number before it, with or without
      spaces between; "Mi" and "MiB" are one unit. */
  lemma UnitScales(text: string, number: string, spelled: string, i: nat)
    requires i < |UNITS| && Lower(spelled) == UNITS[i].suffix
    requires TrimSpace(text) == number + spelled && EndsPlain(number)
    ensures ParseMemory(text) == ParseScaled(number, UNITS[i].factor)
  {
    UnitsLongestFirst();
    LowerLetter(spelled, 0);
    UnitFound(number, spelled, UNITS, i);
    TrimTwice(number);
    if number != "" && number[0] == '-' {
      MinusRefused(number, UNITS[i].factor);
    }
  }

  lemma {:induction false} LowerLetter(s: string, k: nat)
    requires Letters(Lower(s)) && k < |s|
    ensures IsLetter(s[k])
  {
    assert Lower(s)[0] in Lower(s);
    if k > 0 {
      assert forall c | c in Lower(s[1..]) :: c in Lower(s);
      LowerLetter(s[1..], k - 1);
    }
  }
}
