/**
 * Deriving the response's figures: one `PoolMetric` per indexer row with its
 * annual percentage rate, and the pool's displayed fee.
 *
 * `NewFromString` (shopspring/decimal's parser) is a parameter `parse`: its
 * grammar is the library's, and every property here holds for any parser.
 */
module PoolMetrics {
  import opened Wrappers
  import opened Errors
  import opened EthAddress
  import opened DecimalText
  import opened Records
  import opened TheGraph

  const DaysPerYear := 365

  /**
   * 1 / TVL × fee × 365, shifted two places: the day's fee revenue annualised, in
   * percent. `1 / TVL` is `Div`'s quotient, rounded to 16 places before the exact
   * products; `365 / 1` is exact.
   */
  function AnnualPercentage(tvl: Decimal, fee: Decimal): real
    requires tvl.Value() != 0.0
  {
    Annualised(Div(Decimal(1, 0), tvl).Value(), fee.Value())
  }

  /** A reciprocal of the TVL times the day's fees, times 365, shifted two places. */
  function Annualised(reciprocal: real, fee: real): real {
    reciprocal * fee * DaysPerYear as real * 100.0
  }

  /** The same rate over exact rationals: 1 / TVL × fee × 365 × 100. */
  function ExactPercentage(tvl: Decimal, fee: Decimal): real
    requires tvl.Value() != 0.0
  {
    Annualised(1.0 / tvl.Value(), fee.Value())
  }

  /**
   * Against the exact rate, the percentage is off by at most half a unit of `Div`'s
   * 16th place times |fee| × 36500.
   */
  lemma AnnualPercentageError(tvl: Decimal, fee: Decimal)
    requires tvl.Value() != 0.0
    ensures WithinDivisionError(AnnualPercentage(tvl, fee) - ExactPercentage(tvl, fee), fee.Value())
  {
    var q, t, f := Div(Decimal(1, 0), tvl).Value(), tvl.Value(), fee.Value();
    assert -0.5 <= (q - 1.0 / t) * DivisionScale <= 0.5 by {
      DivWithinHalfUnit(Decimal(1, 0), tvl);
      assert Decimal(1, 0).Value() == 1.0;
    }
    var error := RoundedReciprocalError(q, t, f);
    assert AnnualPercentage(tvl, fee) - ExactPercentage(tvl, fee) == error;
  }

  /** |error| is at most half of 10^-16 × |fee| × 36500. */
  predicate WithinDivisionError(error: real, fee: real) {
    -Magnitude(fee) * 36500.0 <= error * 2.0 * DivisionScale <= Magnitude(fee) * 36500.0
  }

  /** The error bound for a reciprocal `q` of `t` that is within half a unit of the 16th place. */
  lemma RoundedReciprocalError(q: real, t: real, f: real) returns (error: real)
    requires t != 0.0 && -0.5 <= (q - 1.0 / t) * DivisionScale <= 0.5
    ensures error == Annualised(q, f) - Annualised(1.0 / t, f)
    ensures WithinDivisionError(error, f)
  {
    var r := 1.0 / t;
    error := q * f * 36500.0 - r * f * 36500.0;
    var d := (q - r) * DivisionScale;
    assert error * 2.0 * DivisionScale == 2.0 * d * f * 36500.0;
    ProductBound(2.0 * d, f);
  }

  function Magnitude(x: real): real {
    if x < 0.0 then -x else x
  }

  lemma ProductBound(d: real, f: real)
    requires -1.0 <= d <= 1.0
    ensures -Magnitude(f) * 36500.0 <= d * f * 36500.0 <= Magnitude(f) * 36500.0
  {
    if f >= 0.0 {
      assert (1.0 - d) * f >= 0.0 && (1.0 + d) * f >= 0.0;
    } else {
      assert (1.0 - d) * f <= 0.0 && (1.0 + d) * f <= 0.0;
    }
  }

  /**
   * When |TVL| exceeds 2 × 10^16, `Div` rounds 1 / TVL to zero, so any non-zero
   * fee gives `0.00%` rather than `0%` or the exact rate.
   */
  lemma AprVanishesForLargeTvl(tvl: Decimal, fee: Decimal)
    requires tvl.Value() > 2.0 * DivisionScale || tvl.Value() < -2.0 * DivisionScale
    requires fee.Value() != 0.0
    ensures AnnualPercentage(tvl, fee) == 0.0
    ensures AprText(tvl, fee) == "0.00%"
  {
    var t := tvl.Value();
    var x := Decimal(1, 0).Value() / t * DivisionScale;
    assert Decimal(1, 0).Value() == 1.0;
    assert -0.5 < x < 0.5 by {
      if t > 0.0 {
        assert x * t == DivisionScale;
      } else {
        assert x * t == DivisionScale;
      }
    }
    assert Div(Decimal(1, 0), tvl).coefficient == 0;
    SixteenPlaces(0);
    assert RoundHalfEven(0.0) == 0;
    assert Chars([0]) == "0";
    assert Chars([0, 0]) == "00";
  }

  /**
   * The APR text: `0%` when the TVL or the fee is zero; otherwise the percentage
   * rounded half to even to hundredths, printed with exactly two fractional digits.
   */
  function AprText(tvl: Decimal, fee: Decimal): string {
    if tvl.Value() == 0.0 || fee.Value() == 0.0 then "0%"
    else PercentText(AnnualPercentage(tvl, fee))
  }

  /** `StringFixedBank(2)` of a percentage, followed by `%`. */
  function PercentText(x: real): string {
    Render(Decimal(RoundHalfEven(x * 100.0), -2), false) + "%"
  }

  /** The displayed fee: the raw fee shifted four places left, trailing zeros dropped, then `%`. */
  function FeeText(fee: int): string {
    Render(Decimal(fee, -4), true) + "%"
  }

  /** The APR is `0%` exactly when the TVL or the fee is zero. */
  lemma AprZeroExactly(tvl: Decimal, fee: Decimal)
    ensures AprText(tvl, fee) == "0%" <==> tvl.Value() == 0.0 || fee.Value() == 0.0
  {
    if tvl.Value() != 0.0 && fee.Value() != 0.0 {
      PercentTextReadsBack(AnnualPercentage(tvl, fee));
      assert FractionDigits("0") == 0 by {
        assert "0"[1..] == [];
      }
    }
  }

  /**
   * Otherwise the text before `%` has two fractional digits and reads back to
   * the banker's rounding of the percentage to hundredths, so it is within 0.005.
   */
  lemma AprRoundsToHundredths(tvl: Decimal, fee: Decimal)
    requires tvl.Value() != 0.0 && fee.Value() != 0.0
    ensures var text := AprText(tvl, fee);
      && |text| > 0 && text[|text| - 1] == '%'
      && FractionDigits(text[..|text| - 1]) == 2
      && ReadDecimal(text[..|text| - 1]) == Some(RoundHalfEven(AnnualPercentage(tvl, fee) * 100.0) as real / 100.0)
      && -0.005 <= ReadDecimal(text[..|text| - 1]).value - AnnualPercentage(tvl, fee) <= 0.005
  {
    var x := AnnualPercentage(tvl, fee);
    assert AprText(tvl, fee) == PercentText(x);
    PercentTextReadsBack(x);
  }

  /** A percentage's text has two fractional digits and reads back to its rounding to hundredths. */
  lemma PercentTextReadsBack(x: real)
    ensures var text := PercentText(x);
      && |text| > 0 && text[|text| - 1] == '%'
      && FractionDigits(text[..|text| - 1]) == 2
      && ReadDecimal(text[..|text| - 1]) == Some(RoundHalfEven(x * 100.0) as real / 100.0)
      && -0.005 <= ReadDecimal(text[..|text| - 1]).value - x <= 0.005
  {
    var n := RoundHalfEven(x * 100.0);
    var t := Render(Decimal(n, -2), false);
    assert (t + "%")[..|t + "%"| - 1] == t;
    HundredthsText(n);
    WithinHalfHundredth(x, n);
  }

  /** `n` hundredths print with two fractional digits and read back to n / 100. */
  lemma HundredthsText(n: int)
    ensures var t := Render(Decimal(n, -2), false);
      FractionDigits(t) == 2 && ReadDecimal(t) == Some(n as real / 100.0)
  {
    RenderFixedDigits(Decimal(n, -2));
    RenderReadsBack(Decimal(n, -2), false);
    Hundredths(n);
  }

  lemma Hundredths(n: int)
    ensures Decimal(n, -2).Value() == n as real / 100.0
  {
    assert Shifted(n, 1) == n as real / 10.0;
  }

  lemma TenThousandths(n: int)
    ensures Decimal(n, -4).Value() == n as real / 10000.0
  {
    assert Shifted(n, 1) == n as real / 10.0;
    assert Shifted(n, 2) == n as real / 100.0;
    assert Shifted(n, 3) == n as real / 1000.0;
  }

  lemma WithinHalfHundredth(x: real, n: int)
    requires NearestTiesToEven(x * 100.0, n)
    ensures -0.005 <= n as real / 100.0 - x <= 0.005
  {
  }

  /** The displayed fee reads back to fee / 10^4 and is printed without trailing zeros. */
  lemma FeeTextDenotes(fee: int)
    ensures var text := FeeText(fee);
      && |text| > 0 && text[|text| - 1] == '%'
      && ReadDecimal(text[..|text| - 1]) == Some(fee as real / 10000.0)
      && match SplitAtPoint(text[..|text| - 1]).1
         case None => true
         case Some(f) => |f| > 0 && f[|f| - 1] != '0'
  {
    var text := FeeText(fee);
    assert text[..|text| - 1] == Render(Decimal(fee, -4), true);
    RenderReadsBack(Decimal(fee, -4), true);
    RenderTrimmedIsShortest(Decimal(fee, -4));
    TenThousandths(fee);
  }

  /** A TVL of 100 and a fee of 1 give `365.00%`. */
  lemma AprExample()
    ensures AprText(Decimal(100, 0), Decimal(1, 0)) == "365.00%"
  {
    var tvl, fee := Decimal(100, 0), Decimal(1, 0);
    assert tvl.Value() == 100.0 && fee.Value() == 1.0;
    PercentageOfExample();
    assert RoundHalfEven(36500.0) == 36500;
    assert NatDigits(36500) == [3, 6, 5, 0, 0] by {
      assert NatDigits(3) == [3];
      assert NatDigits(36) == [3, 6];
      assert NatDigits(365) == [3, 6, 5];
      assert NatDigits(3650) == [3, 6, 5, 0];
    }
    assert Chars([3, 6, 5]) == "365";
    assert Chars([0, 0]) == "00";
  }

  lemma PercentageOfExample()
    ensures Decimal(100, 0).Value() == 100.0
    ensures AnnualPercentage(Decimal(100, 0), Decimal(1, 0)) == 365.0
  {
    var tvl := Decimal(100, 0);
    assert tvl.Value() == 100.0;
    assert Decimal(1, 0).Value() == 1.0;
    assert 1.0 / 100.0 * DivisionScale == 100000000000000.0;
    assert Div(Decimal(1, 0), tvl).coefficient == 100000000000000;
    SixteenPlaces(100000000000000);
  }

  /** A raw fee of 3000 is displayed as `0.3%`. */
  lemma FeeExample()
    ensures FeeText(3000) == "0.3%"
  {
    FeeExampleLayout();
    assert Layout(false, [0], [3]).Text() == "0.3" by {
      assert Chars([0]) == "0";
      assert Chars([3]) == "3";
    }
  }

  lemma FeeExampleLayout()
    ensures LayoutOf(Decimal(3000, -4), true) == Layout(false, [0], [3])
  {
    DigitsOf3000();
    assert PointPlaced(false, [3, 0, 0, 0], 4) == Layout(false, [0], [3, 0, 0, 0]) by {
      assert Zeros(0) + [3, 0, 0, 0] == [3, 0, 0, 0];
    }
    TrimOf3000();
  }

  lemma DigitsOf3000()
    ensures NatDigits(3000) == [3, 0, 0, 0]
  {
    assert NatDigits(3) == [3];
    assert NatDigits(30) == [3, 0];
    assert NatDigits(300) == [3, 0, 0];
  }

  lemma TrimOf3000()
    ensures TrimTrailingZeros([3, 0, 0, 0]) == [3]
  {
    assert [3, 0, 0, 0][..3] == [3, 0, 0];
    assert [3, 0, 0][..2] == [3, 0];
    assert [3, 0][..1] == [3];
  }

  /**
   * One indexer row as a metric: the three amounts parsed in the order TVL, volume,
   * fees (the first that does not parse is the error), the date as the timestamp,
   * the requested address, and the APR from TVL and fees.
   */
  function DeriveMetric(row: PoolDayData, address: Address, parse: string -> Option<Decimal>): (r: Result<PoolMetric, Error>)
    ensures r.Success? <==>
      parse(row.totalValueLocked).Some? && parse(row.volume).Some? && parse(row.fees).Some?
    ensures r.Success? ==>
      && r.value.timestamp == row.date
      && r.value.contractAddress == address
      && r.value.totalValueLocked == parse(row.totalValueLocked).value
      && r.value.volume == parse(row.volume).value
      && r.value.fee == parse(row.fees).value
      && r.value.annualPercentageRate == AprText(r.value.totalValueLocked, r.value.fee)
    ensures r.Failure? ==>
      (r.error.MalformedDecimal? && r.error.text in [row.totalValueLocked, row.volume, row.fees]
       && parse(r.error.text).None?)
    ensures r.Failure? ==>
      r.error == MalformedDecimal(
        if parse(row.totalValueLocked).None? then row.totalValueLocked
        else if parse(row.volume).None? then row.volume
        else row.fees)
  {
    match parse(row.totalValueLocked)
    case None => Failure(MalformedDecimal(row.totalValueLocked))
    case Some(tvl) =>
      match parse(row.volume)
      case None => Failure(MalformedDecimal(row.volume))
      case Some(volume) =>
        match parse(row.fees)
        case None => Failure(MalformedDecimal(row.fees))
        case Some(fee) => Success(PoolMetric(row.date, address, tvl, volume, fee, AprText(tvl, fee)))
  }

  /** The rows' metrics in order, or the first row's error. */
  function MetricsOf(rows: seq<PoolDayData>, address: Address, parse: string -> Option<Decimal>): Result<seq<PoolMetric>, Error> {
    if rows == [] then Success([])
    else
      match MetricsOf(rows[..|rows| - 1], address, parse)
      case Failure(e) => Failure(e)
      case Success(metrics) =>
        match DeriveMetric(rows[|rows| - 1], address, parse)
        case Failure(e) => Failure(e)
        case Success(m) => Success(metrics + [m])
  }

  /**
   * All rows derive, or none of the output exists: success exactly when every row
   * parses, and then one metric per row, in the rows' order.
   */
  lemma {:induction false} MetricsOfRowByRow(rows: seq<PoolDayData>, address: Address, parse: string -> Option<Decimal>)
    ensures MetricsOf(rows, address, parse).Success? <==>
      forall i :: 0 <= i < |rows| ==> DeriveMetric(rows[i], address, parse).Success?
    ensures MetricsOf(rows, address, parse).Success? ==>
      && |MetricsOf(rows, address, parse).value| == |rows|
      && forall i :: 0 <= i < |rows| ==> MetricsOf(rows, address, parse).value[i] == DeriveMetric(rows[i], address, parse).value
  {
    if rows != [] {
      var prefix := rows[..|rows| - 1];
      var last := rows[|rows| - 1];
      MetricsOfRowByRow(prefix, address, parse);
      var before := MetricsOf(prefix, address, parse);
      var step := DeriveMetric(last, address, parse);
      if before.Success? && step.Success? {
        var metrics := before.value + [step.value];
        assert MetricsOf(rows, address, parse) == Success(metrics);
        forall i | 0 <= i < |rows|
          ensures DeriveMetric(rows[i], address, parse).Success?
          ensures metrics[i] == DeriveMetric(rows[i], address, parse).value
        {
          if i < |prefix| {
            assert rows[i] == prefix[i];
          }
        }
      } else if before.Failure? {
        assert MetricsOf(rows, address, parse).Failure?;
        var k :| 0 <= k < |prefix| && !DeriveMetric(prefix[k], address, parse).Success?;
        assert rows[k] == prefix[k];
      } else {
        assert MetricsOf(rows, address, parse).Failure?;
        assert !DeriveMetric(rows[|rows| - 1], address, parse).Success?;
      }
    }
  }

  /** Row `j` is the first row that does not derive, and its error is `e`. */
  predicate FirstFailureAt(rows: seq<PoolDayData>, j: int, address: Address, parse: string -> Option<Decimal>, e: Error) {
    && 0 <= j < |rows|
    && DeriveMetric(rows[j], address, parse) == Failure(e)
    && forall i :: 0 <= i < j ==> DeriveMetric(rows[i], address, parse).Success?
  }

  /** A failure is the error of the first row that does not parse. */
  lemma {:induction false} MetricsOfFirstFailure(rows: seq<PoolDayData>, address: Address, parse: string -> Option<Decimal>)
    requires MetricsOf(rows, address, parse).Failure?
    ensures exists j :: FirstFailureAt(rows, j, address, parse, MetricsOf(rows, address, parse).error)
  {
    var prefix := rows[..|rows| - 1];
    var before := MetricsOf(prefix, address, parse);
    var e := MetricsOf(rows, address, parse).error;
    if before.Failure? {
      assert e == before.error;
      MetricsOfFirstFailure(prefix, address, parse);
      var k :| FirstFailureAt(prefix, k, address, parse, e);
      forall i | 0 <= i <= k
        ensures rows[i] == prefix[i]
      {
      }
      assert FirstFailureAt(rows, k, address, parse, e);
    } else {
      var j := |rows| - 1;
      MetricsOfRowByRow(prefix, address, parse);
      assert DeriveMetric(rows[j], address, parse) == Failure(e);
      forall i | 0 <= i < j
        ensures DeriveMetric(rows[i], address, parse).Success?
      {
        assert rows[i] == prefix[i];
      }
      assert FirstFailureAt(rows, j, address, parse, e);
    }
  }

  /** Once a prefix fails, the whole list fails with the same error. */
  lemma {:induction false} MetricsOfFailureExtends(rows: seq<PoolDayData>, n: nat, address: Address, parse: string -> Option<Decimal>)
    requires n <= |rows|
    requires MetricsOf(rows[..n], address, parse).Failure?
    ensures MetricsOf(rows, address, parse) == MetricsOf(rows[..n], address, parse)
    decreases |rows| - n
  {
    if n < |rows| {
      assert rows[..n + 1][..n] == rows[..n];
      MetricsOfFailureExtends(rows, n + 1, address, parse);
    } else {
      assert rows[..n] == rows;
    }
  }

  /** When the rows before `i` derive and row `i` does not, the list fails with row `i`'s error. */
  lemma RowFailureStops(rows: seq<PoolDayData>, i: nat, address: Address, parse: string -> Option<Decimal>)
    requires i < |rows| && MetricsOf(rows[..i], address, parse).Success?
    requires DeriveMetric(rows[i], address, parse).Failure?
    ensures MetricsOf(rows, address, parse) == Failure(DeriveMetric(rows[i], address, parse).error)
  {
    assert rows[..i + 1][..i] == rows[..i];
    MetricsOfFailureExtends(rows, i + 1, address, parse);
  }

  /** The handler's loop over the rows: appends one metric per row, aborting at the first bad amount. */
  method DeriveMetrics(rows: seq<PoolDayData>, address: Address, parse: string -> Option<Decimal>)
    returns (r: Result<seq<PoolMetric>, Error>)
    ensures r == MetricsOf(rows, address, parse)
  {
    var metrics: seq<PoolMetric> := [];
    for i := 0 to |rows|
      invariant MetricsOf(rows[..i], address, parse) == Success(metrics)
    {
      var row := rows[i];
      ghost var upTo := rows[..i + 1];
      assert upTo[..i] == rows[..i] && upTo[i] == row;
      var tvl := parse(row.totalValueLocked);
      if tvl.None? {
        RowFailureStops(rows, i, address, parse);
        return Failure(MalformedDecimal(row.totalValueLocked));
      }
      var volume := parse(row.volume);
      if volume.None? {
        RowFailureStops(rows, i, address, parse);
        return Failure(MalformedDecimal(row.volume));
      }
      var fee := parse(row.fees);
      if fee.None? {
        RowFailureStops(rows, i, address, parse);
        return Failure(MalformedDecimal(row.fees));
      }
      var metric := PoolMetric(row.date, address, tvl.value, volume.value, fee.value, AprText(tvl.value, fee.value));
      assert DeriveMetric(row, address, parse) == Success(metric);
      metrics := metrics + [metric];
    }
    assert rows[..|rows|] == rows;
    return Success(metrics);
  }
}
