/**
 * The part of arbitrary-precision decimal arithmetic the handler relies on:
 * a decimal is coefficient × 10^exponent, it is printed the way
 * shopspring/decimal's `String` and `StringFixed` print it, it is rounded
 * half-to-even the way `RoundBank` rounds it, and `Div` rounds its quotient
 * half away from zero to 16 fractional digits.
 *
 * `ReadDecimal` reads plain decimal notation back to an exact rational; it is the
 * independent partner against which the printed text is proved.
 */
module DecimalText {
  import opened Wrappers

  function Pow10(n: nat): (r: nat)
    ensures r >= 1
  {
    if n == 0 then 1 else 10 * Pow10(n - 1)
  }

  /** A decimal number: `coefficient` × 10^`exponent`. */
  datatype Decimal = Decimal(coefficient: int, exponent: int) {
    function Value(): real {
      if exponent >= 0 then (coefficient * Pow10(exponent)) as real
      else Shifted(coefficient, -exponent)
    }
  }

  /** n × 10^-k, dividing by ten k times. */
  function Shifted(n: int, k: nat): real {
    if k == 0 then n as real else Shifted(n, k - 1) / 10.0
  }

  lemma {:induction false} ShiftedSum(a: int, b: int, k: nat)
    ensures Shifted(a, k) + Shifted(b, k) == Shifted(a + b, k)
  {
    if k > 0 {
      ShiftedSum(a, b, k - 1);
    }
  }

  lemma {:induction false} ShiftedNegate(c: int, k: nat)
    ensures Shifted(-c, k) == -Shifted(c, k)
  {
    if k > 0 {
      ShiftedNegate(c, k - 1);
    }
  }

  lemma {:induction false} ShiftedTimesTen(a: int, k: nat)
    ensures Shifted(10 * a, k) == 10.0 * Shifted(a, k)
  {
    if k > 0 {
      ShiftedTimesTen(a, k - 1);
    }
  }

  /** Shifting a multiple of 10^k by k places gives the multiplier back. */
  lemma {:induction false} ShiftedWhole(a: int, k: nat)
    ensures Shifted(a * Pow10(k), k) == a as real
    decreases k
  {
    if k > 0 {
      assert a * Pow10(k) == (10 * a) * Pow10(k - 1);
      ShiftedWhole(10 * a, k - 1);
    }
  }

  /** Appending z zeros and shifting z places further keeps the value. */
  lemma {:induction false} ShiftedPadded(a: int, k: nat, z: nat)
    ensures Shifted(a * Pow10(z), k + z) == Shifted(a, k)
    decreases z
  {
    if z > 0 {
      assert a * Pow10(z) == (10 * a) * Pow10(z - 1);
      ShiftedPadded(10 * a, k + 1, z - 1);
      ShiftedTimesTen(a, k);
    }
  }

  function Abs(n: int): nat {
    if n < 0 then -n else n
  }

  type Digit = d: int | 0 <= d < 10

  /** The value of a digit sequence, most significant digit first. */
  function DigitsValue(ds: seq<Digit>): nat {
    if ds == [] then 0 else 10 * DigitsValue(ds[..|ds| - 1]) + ds[|ds| - 1]
  }

  /** Decimal digits of a natural number (`big.Int.String` of a non-negative value). */
  function NatDigits(n: nat): (ds: seq<Digit>)
    ensures |ds| >= 1 && DigitsValue(ds) == n
    ensures ds[0] == 0 ==> n == 0
  {
    if n < 10 then [n]
    else
      var ds := NatDigits(n / 10) + [n % 10];
      assert ds[..|ds| - 1] == NatDigits(n / 10);
      ds
  }

  function Zeros(k: nat): (ds: seq<Digit>)
    ensures |ds| == k
  {
    seq(k, _ => 0)
  }

  lemma {:induction false} DigitsValueAppend(a: seq<Digit>, b: seq<Digit>)
    ensures DigitsValue(a + b) == DigitsValue(a) * Pow10(|b|) + DigitsValue(b)
  {
    if b == [] {
      assert a + b == a;
    } else {
      var b' := b[..|b| - 1];
      var last := b[|b| - 1];
      assert (a + b)[..|a + b| - 1] == a + b';
      assert (a + b)[|a + b| - 1] == last;
      DigitsValueAppend(a, b');
      assert DigitsValue(a + b) == 10 * DigitsValue(a + b') + last;
      assert DigitsValue(b) == 10 * DigitsValue(b') + last;
      assert Pow10(|b|) == 10 * Pow10(|b'|);
      ShiftOneDigit(DigitsValue(a), Pow10(|b'|), DigitsValue(b'), last);
    }
  }

  lemma ShiftOneDigit(high: int, scale: int, low: int, last: int)
    ensures 10 * (high * scale + low) + last == high * (10 * scale) + (10 * low + last)
  {
  }

  lemma {:induction false} ZerosValue(k: nat)
    ensures DigitsValue(Zeros(k)) == 0
  {
    if k > 0 {
      assert Zeros(k)[..k - 1] == Zeros(k - 1);
      ZerosValue(k - 1);
    }
  }

  lemma DigitsValueSplit(ds: seq<Digit>, n: nat)
    requires n <= |ds|
    ensures DigitsValue(ds) == DigitsValue(ds[..n]) * Pow10(|ds| - n) + DigitsValue(ds[n..])
  {
    assert ds == ds[..n] + ds[n..];
    DigitsValueAppend(ds[..n], ds[n..]);
  }

  lemma ZeroPaddedValue(k: nat, ds: seq<Digit>)
    ensures DigitsValue(Zeros(k) + ds) == DigitsValue(ds)
  {
    DigitsValueAppend(Zeros(k), ds);
    ZerosValue(k);
  }

  /** The digits before the trailing zeros. */
  function TrimTrailingZeros(f: seq<Digit>): (t: seq<Digit>)
    ensures |t| <= |f| && t == f[..|t|]
    ensures t == [] || t[|t| - 1] != 0
    ensures forall i :: |t| <= i < |f| ==> f[i] == 0
  {
    if f != [] && f[|f| - 1] == 0 then TrimTrailingZeros(f[..|f| - 1]) else f
  }

  /** The value of integer digits followed by a point and fraction digits. */
  function PointValue(integerPart: seq<Digit>, fraction: seq<Digit>): real {
    DigitsValue(integerPart) as real + FractionValue(fraction)
  }

  /** The value of the digits after a decimal point. */
  function FractionValue(f: seq<Digit>): real {
    Shifted(DigitsValue(f), |f|)
  }

  /** Dropping trailing zeros from a fraction keeps its value. */
  lemma TrimmedFractionValue(f: seq<Digit>)
    ensures FractionValue(TrimTrailingZeros(f)) == FractionValue(f)
  {
    var t := TrimTrailingZeros(f);
    var z := |f| - |t|;
    assert f == t + Zeros(z);
    DigitsValueAppend(t, Zeros(z));
    ZerosValue(z);
    ShiftedPadded(DigitsValue(t), |t|, z);
  }

  function DigitChar(d: Digit): char {
    ('0' as int + d) as char
  }

  function Chars(ds: seq<Digit>): (s: string)
    ensures |s| == |ds|
  {
    seq(|ds|, i requires 0 <= i < |ds| => DigitChar(ds[i]))
  }

  /** Sign, integer digits and fractional digits of a printed decimal. */
  datatype Layout = Layout(negative: bool, integerPart: seq<Digit>, fraction: seq<Digit>) {
    function Magnitude(): real {
      PointValue(integerPart, fraction)
    }

    function Value(): real {
      if negative then -Magnitude() else Magnitude()
    }

    /** `-` when negative, the integer digits, and `.` with the fraction when it is not empty. */
    function Text(): string {
      if negative then "-" + Digits() else Digits()
    }

    /** The text without its sign. */
    function Digits(): string {
      if |fraction| > 0 then Chars(integerPart) + "." + Chars(fraction) else Chars(integerPart)
    }
  }

  /**
   * shopspring/decimal's `string(trimTrailingZeros)`: with a non-negative exponent the
   * integer value; otherwise the digits of |coefficient| with the point `-exponent`
   * places from the right, trailing zeros of the fraction optionally dropped.
   */
  function LayoutOf(d: Decimal, trimTrailingZeros: bool): Layout {
    if d.exponent >= 0 then
      var n := d.coefficient * Pow10(d.exponent);
      Layout(n < 0, NatDigits(Abs(n)), [])
    else
      var l := PointPlaced(d.coefficient < 0, NatDigits(Abs(d.coefficient)), -d.exponent);
      if trimTrailingZeros then l.(fraction := TrimTrailingZeros(l.fraction)) else l
  }

  /** The digits with a point `k` places from the right, padded with zeros when they are fewer. */
  function PointPlaced(negative: bool, digits: seq<Digit>, k: nat): Layout {
    if |digits| > k then Layout(negative, digits[..|digits| - k], digits[|digits| - k..])
    else Layout(negative, [0], Zeros(k - |digits|) + digits)
  }

  /** `Decimal.String()` (trailing zeros dropped) when `trimTrailingZeros`, the fixed form otherwise. */
  function Render(d: Decimal, trimTrailingZeros: bool): string {
    LayoutOf(d, trimTrailingZeros).Text()
  }

  // ----- reading plain decimal notation back -----

  predicate IsDigit(c: char) {
    '0' <= c <= '9'
  }

  function ReadDigits(s: string): Option<seq<Digit>> {
    if s == [] then Some([])
    else if !IsDigit(s[0]) then None
    else
      match ReadDigits(s[1..])
      case None => None
      case Some(rest) => Some([(s[0] as int - '0' as int) as Digit] + rest)
  }

  /** The text before the first `.`, and the text after it when there is one. */
  function SplitAtPoint(s: string): (string, Option<string>) {
    if s == [] then ([], None)
    else if s[0] == '.' then ([], Some(s[1..]))
    else
      var (before, after) := SplitAtPoint(s[1..]);
      ([s[0]] + before, after)
  }

  /** One or more digits, optionally followed by `.` and one or more digits. */
  function ReadUnsigned(s: string): Option<real> {
    var parts := SplitAtPoint(s);
    match ReadDigits(parts.0)
    case None => None
    case Some(i) =>
      if |i| == 0 then None
      else
        match parts.1
        case None => Some(PointValue(i, []))
        case Some(f) =>
          match ReadDigits(f)
          case None => None
          case Some(fd) => if |fd| == 0 then None else Some(PointValue(i, fd))
  }

  /** The exact value of plain decimal text with an optional leading `-`. */
  function ReadDecimal(s: string): Option<real> {
    if |s| > 0 && s[0] == '-' then
      match ReadUnsigned(s[1..])
      case None => None
      case Some(v) => Some(-v)
    else ReadUnsigned(s)
  }

  /** The number of digits after the point. */
  function FractionDigits(s: string): nat {
    match SplitAtPoint(s).1
    case None => 0
    case Some(f) => |f|
  }

  lemma {:induction false} ReadDigitsOfChars(ds: seq<Digit>)
    ensures ReadDigits(Chars(ds)) == Some(ds)
  {
    if ds != [] {
      assert Chars(ds)[1..] == Chars(ds[1..]);
      ReadDigitsOfChars(ds[1..]);
      assert [ds[0]] + ds[1..] == ds;
    }
  }

  lemma {:induction false} SplitCharsOnly(ds: seq<Digit>)
    ensures SplitAtPoint(Chars(ds)) == (Chars(ds), None)
  {
    if ds != [] {
      assert Chars(ds)[1..] == Chars(ds[1..]);
      SplitCharsOnly(ds[1..]);
      assert [Chars(ds)[0]] + Chars(ds[1..]) == Chars(ds);
    }
  }

  lemma {:induction false} SplitCharsAndFraction(ds: seq<Digit>, f: string)
    ensures SplitAtPoint(Chars(ds) + "." + f) == (Chars(ds), Some(f))
  {
    var s := Chars(ds) + "." + f;
    if ds == [] {
      assert s == ['.'] + f;
    } else {
      assert s[0] == DigitChar(ds[0]);
      assert s[1..] == Chars(ds[1..]) + "." + f;
      SplitCharsAndFraction(ds[1..], f);
      assert [Chars(ds)[0]] + Chars(ds[1..]) == Chars(ds);
    }
  }

  /** A layout's unsigned text starts with a digit, and the part after its point is the fraction. */
  lemma DigitsShape(l: Layout)
    requires |l.integerPart| > 0
    ensures SplitAtPoint(l.Digits()).1 == if |l.fraction| > 0 then Some(Chars(l.fraction)) else None
    ensures l.Digits()[0] == DigitChar(l.integerPart[0])
  {
    if |l.fraction| > 0 {
      SplitCharsAndFraction(l.integerPart, Chars(l.fraction));
    } else {
      SplitCharsOnly(l.integerPart);
    }
    assert l.Digits()[0] == Chars(l.integerPart)[0];
  }

  /** A layout's unsigned text reads back to its magnitude. */
  lemma DigitsReadBack(l: Layout)
    requires |l.integerPart| > 0
    ensures ReadUnsigned(l.Digits()) == Some(l.Magnitude())
  {
    if |l.fraction| > 0 {
      PointedReadBack(l.integerPart, l.fraction);
    } else {
      assert l.fraction == [];
      IntegerReadBack(l.integerPart);
    }
  }

  lemma IntegerReadBack(ip: seq<Digit>)
    requires |ip| > 0
    ensures ReadUnsigned(Chars(ip)) == Some(PointValue(ip, []))
  {
    SplitCharsOnly(ip);
    ReadDigitsOfChars(ip);
    ReadWhole(Chars(ip), Chars(ip), ip);
  }

  lemma ReadWhole(text: string, before: string, ip: seq<Digit>)
    requires |ip| > 0
    requires SplitAtPoint(text) == (before, None)
    requires ReadDigits(before) == Some(ip)
    ensures ReadUnsigned(text) == Some(PointValue(ip, []))
  {
  }

  lemma PointedReadBack(ip: seq<Digit>, f: seq<Digit>)
    requires |ip| > 0 && |f| > 0
    ensures ReadUnsigned(Chars(ip) + "." + Chars(f)) == Some(PointValue(ip, f))
  {
    SplitCharsAndFraction(ip, Chars(f));
    ReadDigitsOfChars(ip);
    ReadDigitsOfChars(f);
    ReadPointed(Chars(ip) + "." + Chars(f), Chars(ip), Chars(f), ip, f);
  }

  lemma ReadPointed(text: string, before: string, after: string, ip: seq<Digit>, f: seq<Digit>)
    requires |ip| > 0 && |f| > 0
    requires SplitAtPoint(text) == (before, Some(after))
    requires ReadDigits(before) == Some(ip) && ReadDigits(after) == Some(f)
    ensures ReadUnsigned(text) == Some(PointValue(ip, f))
  {
  }

  /** The part after the point in a layout's text is its fraction. */
  lemma LayoutTextSplit(l: Layout)
    requires |l.integerPart| > 0
    ensures SplitAtPoint(l.Text()).1 == if |l.fraction| > 0 then Some(Chars(l.fraction)) else None
  {
    DigitsShape(l);
    if l.negative {
      assert l.Text() == ['-'] + l.Digits();
      assert l.Text()[1..] == l.Digits();
    }
  }

  /** A layout's text reads back to its value. */
  lemma LayoutTextReadsBack(l: Layout)
    requires |l.integerPart| > 0
    ensures ReadDecimal(l.Text()) == Some(l.Value())
  {
    DigitsShape(l);
    DigitsReadBack(l);
    if l.negative {
      assert l.Text()[1..] == l.Digits();
    }
  }

  /** Placing the point `k` places from the right leaves a non-empty integer part and `k` fraction digits. */
  lemma PointPlacedShape(negative: bool, digits: seq<Digit>, k: nat)
    ensures |PointPlaced(negative, digits, k).integerPart| > 0 && |PointPlaced(negative, digits, k).fraction| == k
  {
  }

  /** Placing the point `k` places from the right divides the digits' value by 10^k. */
  lemma PointPlacedDenotes(negative: bool, digits: seq<Digit>, k: nat)
    ensures PointPlaced(negative, digits, k).Magnitude() == Shifted(DigitsValue(digits), k)
  {
    if |digits| > k {
      var n := |digits| - k;
      assert digits == digits[..n] + digits[n..];
      PointInside(digits[..n], digits[n..]);
    } else {
      PointBeforeDigits(digits, k);
    }
  }

  lemma PointInside(integerPart: seq<Digit>, fraction: seq<Digit>)
    ensures PointValue(integerPart, fraction) == Shifted(DigitsValue(integerPart + fraction), |fraction|)
  {
    var a, b, k := DigitsValue(integerPart), DigitsValue(fraction), |fraction|;
    DigitsValueAppend(integerPart, fraction);
    ShiftedWhole(a, k);
    ShiftedSum(a * Pow10(k), b, k);
  }

  lemma PointBeforeDigits(digits: seq<Digit>, k: nat)
    requires |digits| <= k
    ensures PointValue([0], Zeros(k - |digits|) + digits) == Shifted(DigitsValue(digits), k)
  {
    ZeroPaddedValue(k - |digits|, digits);
    assert DigitsValue([0]) == 0 by {
      assert [0][..0] == [];
    }
  }

  /** The layout of a decimal has an integer part and denotes the decimal's exact value. */
  lemma LayoutOfHasIntegerPart(d: Decimal, trimTrailingZeros: bool)
    ensures |LayoutOf(d, trimTrailingZeros).integerPart| > 0
  {
    if d.exponent < 0 {
      PointPlacedShape(d.coefficient < 0, NatDigits(Abs(d.coefficient)), -d.exponent);
    }
  }

  lemma LayoutOfDenotes(d: Decimal, trimTrailingZeros: bool)
    ensures LayoutOf(d, trimTrailingZeros).Value() == d.Value()
  {
    if d.exponent >= 0 {
      IntegerLayoutDenotes(d);
    } else {
      FractionLayoutDenotes(d, trimTrailingZeros);
    }
  }

  lemma IntegerLayoutDenotes(d: Decimal)
    requires d.exponent >= 0
    ensures LayoutOf(d, false).Value() == d.Value()
  {
    var n := d.coefficient * Pow10(d.exponent);
    var l := LayoutOf(d, false);
    assert l == Layout(n < 0, NatDigits(Abs(n)), []);
    assert FractionValue([]) == 0.0;
    assert l.Magnitude() == Abs(n) as real;
  }

  lemma FractionLayoutDenotes(d: Decimal, trimTrailingZeros: bool)
    requires d.exponent < 0
    ensures LayoutOf(d, trimTrailingZeros).Value() == d.Value()
  {
    var k := -d.exponent;
    var digits := NatDigits(Abs(d.coefficient));
    var l := PointPlaced(d.coefficient < 0, digits, k);
    PointPlacedDenotes(d.coefficient < 0, digits, k);
    assert l.Magnitude() == Shifted(Abs(d.coefficient), k);
    TrimKeepsMagnitude(l);
    SignedShift(d.coefficient, k);
  }

  lemma TrimKeepsMagnitude(l: Layout)
    ensures l.(fraction := TrimTrailingZeros(l.fraction)).Magnitude() == l.Magnitude()
  {
    TrimmedFractionValue(l.fraction);
  }

  lemma SignedShift(c: int, k: nat)
    ensures (if c < 0 then -Shifted(Abs(c), k) else Shifted(Abs(c), k)) == Shifted(c, k)
  {
    if c < 0 {
      ShiftedNegate(Abs(c), k);
    }
  }

  /** What `String` and `StringFixed` print reads back to exactly the decimal's value. */
  lemma RenderReadsBack(d: Decimal, trimTrailingZeros: bool)
    ensures ReadDecimal(Render(d, trimTrailingZeros)) == Some(d.Value())
  {
    LayoutOfHasIntegerPart(d, trimTrailingZeros);
    LayoutOfDenotes(d, trimTrailingZeros);
    LayoutTextReadsBack(LayoutOf(d, trimTrailingZeros));
  }

  /** The fixed form of a decimal with a negative exponent has exactly `-exponent` fractional digits. */
  lemma RenderFixedDigits(d: Decimal)
    requires d.exponent < 0
    ensures FractionDigits(Render(d, false)) == -d.exponent
  {
    LayoutOfHasIntegerPart(d, false);
    PointPlacedShape(d.coefficient < 0, NatDigits(Abs(d.coefficient)), -d.exponent);
    LayoutTextSplit(LayoutOf(d, false));
  }

  /** The trimmed form prints a point only before a fraction that does not end in zero. */
  lemma RenderTrimmedIsShortest(d: Decimal)
    ensures match SplitAtPoint(Render(d, true)).1
      case None => true
      case Some(f) => |f| > 0 && f[|f| - 1] != '0'
  {
    var l := LayoutOf(d, true);
    LayoutOfHasIntegerPart(d, true);
    LayoutTextSplit(l);
    if |l.fraction| > 0 {
      assert Chars(l.fraction)[|l.fraction| - 1] == DigitChar(l.fraction[|l.fraction| - 1]);
    }
  }

  // ----- banker's rounding -----

  /** `r` is an integer nearest to `x`, and an even one when `x` lies halfway. */
  predicate NearestTiesToEven(x: real, r: int) {
    && -0.5 <= x - r as real <= 0.5
    && ((x - r as real == 0.5 || x - r as real == -0.5) ==> r % 2 == 0)
  }

  /** `RoundBank` to an integer: round half to even. */
  function RoundHalfEven(x: real): (r: int)
    ensures NearestTiesToEven(x, r)
  {
    var f := x.Floor;
    var fraction := x - f as real;
    if fraction < 0.5 then f
    else if fraction > 0.5 then f + 1
    else if f % 2 == 0 then f else f + 1
  }

  /** Only one integer is nearest with ties to even, so the rounding is fully determined. */
  lemma NearestTiesToEvenUnique(x: real, r: int, m: int)
    requires NearestTiesToEven(x, r) && NearestTiesToEven(x, m)
    ensures r == m
  {
  }

  // ----- division -----

  /** `r` is an integer nearest to `x`, and the one farther from zero when `x` lies halfway. */
  predicate NearestTiesAwayFromZero(x: real, r: int) {
    && -0.5 <= x - r as real <= 0.5
    && (x - r as real == 0.5 ==> x < 0.0)
    && (x - r as real == -0.5 ==> x > 0.0)
  }

  /** The rounding `DivRound` applies: half away from zero. */
  function RoundHalfAwayFromZero(x: real): (r: int)
    ensures NearestTiesAwayFromZero(x, r)
  {
    if x >= 0.0 then (x + 0.5).Floor else -((0.5 - x).Floor)
  }

  /** Only one integer is nearest with ties away from zero. */
  lemma NearestTiesAwayFromZeroUnique(x: real, r: int, m: int)
    requires NearestTiesAwayFromZero(x, r) && NearestTiesAwayFromZero(x, m)
    ensures r == m
  {
  }

  /** shopspring/decimal's `DivisionPrecision`: the fractional digits `Div` keeps. */
  const DivisionPrecision := 16

  /** 10^16 as a real. */
  const DivisionScale := 10000000000000000.0

  /** `Div`: the quotient rounded half away from zero to `DivisionPrecision` places. */
  function Div(x: Decimal, y: Decimal): (q: Decimal)
    requires y.Value() != 0.0
  {
    Decimal(RoundHalfAwayFromZero(x.Value() / y.Value() * DivisionScale), -DivisionPrecision)
  }

  /** Multiplying by 10^k undoes a shift by k places. */
  lemma {:induction false} ShiftedScaled(n: int, k: nat)
    ensures Shifted(n, k) * Pow10(k) as real == n as real
  {
    if k > 0 {
      ShiftedScaled(n, k - 1);
      assert Shifted(n, k) * 10.0 == Shifted(n, k - 1);
    }
  }

  /** A decimal with exponent -16 is its coefficient over 10^16. */
  lemma SixteenPlaces(n: int)
    ensures Decimal(n, -DivisionPrecision).Value() == n as real / DivisionScale
  {
    ShiftedScaled(n, 16);
    Pow10Sixteen();
  }

  lemma Pow10Sixteen()
    ensures Pow10(16) as real == DivisionScale
  {
    assert Pow10(4) == 10000;
    assert Pow10(8) == 100000000 by {
      assert Pow10(5) == 100000;
      assert Pow10(6) == 1000000;
      assert Pow10(7) == 10000000;
    }
    assert Pow10(12) == 1000000000000 by {
      assert Pow10(9) == 1000000000;
      assert Pow10(10) == 10000000000;
      assert Pow10(11) == 100000000000;
    }
    assert Pow10(13) == 10000000000000;
    assert Pow10(14) == 100000000000000;
    assert Pow10(15) == 1000000000000000;
  }

  /** `Div`'s quotient is within half a unit of the 16th place of the exact quotient. */
  lemma DivWithinHalfUnit(x: Decimal, y: Decimal)
    requires y.Value() != 0.0
    ensures var q := Div(x, y);
      && q.exponent == -DivisionPrecision
      && NearestTiesAwayFromZero(x.Value() / y.Value() * DivisionScale, q.coefficient)
      && -0.5 <= (q.Value() - x.Value() / y.Value()) * DivisionScale <= 0.5
  {
    var q := Div(x, y);
    SixteenPlaces(q.coefficient);
  }
}
