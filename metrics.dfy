/** Rate metrics and currency conversion (`calculateChange`,
    `convertUSDtoCOP`, `convertCOPtoUSD` in client/src/hooks/useTRM.ts). */
module Metrics {
  import opened Rates

  /** The result of `calculateChange`. */
  datatype Change = Change(value: real, percentage: real, direction: Direction)

  /** Change of `current` with respect to `previous`; the percentage is
      guarded against a zero base and the direction follows the sign. */
  function CalculateChange(current: real, previous: real): (c: Change)
    ensures previous + c.value == current
    ensures previous == 0.0 ==> c.percentage == 0.0
    ensures previous != 0.0 ==> previous + c.percentage * previous / 100.0 == current
    ensures c.direction == Up <==> current > previous
    ensures c.direction == Down <==> current < previous
    ensures c.direction == Neutral <==> current == previous
  {
    var value := current - previous;
    var percentage := if previous != 0.0 then value / previous * 100.0 else 0.0;
    Change(value, percentage, DirectionOf(value))
  }

  /** Dollars to pesos: multiply by the rate. */
  function ConvertUSDtoCOP(usd: real, trm: real): (cop: real)
    ensures trm > 0.0 ==> (cop > 0.0 <==> usd > 0.0)
    ensures trm == 0.0 ==> cop == 0.0
    ensures trm != 0.0 ==> cop / trm == usd
  {
    usd * trm
  }

  /** Pesos to dollars: divide by the rate. Nothing guards a zero rate, so a
      zero rate gives an infinity or NaN. */
  function ConvertCOPtoUSD(cop: real, trm: real): (usd: JsNumber)
    ensures trm != 0.0 ==> usd.Finite? && usd.value * trm == cop
    ensures trm == 0.0 ==> !usd.Finite?
  {
    JsDivide(cop, trm)
  }

  /** Converting to pesos and back gives the amount back exactly when the
      rate is nonzero; with a zero rate the round trip yields NaN. */
  lemma UsdRoundTrip(x: real, trm: real)
    ensures ConvertCOPtoUSD(ConvertUSDtoCOP(x, trm), trm) == Finite(x) <==> trm != 0.0
    ensures trm == 0.0 ==> ConvertCOPtoUSD(ConvertUSDtoCOP(x, trm), trm) == NaN
  {
    if trm != 0.0 {
      var u := ConvertCOPtoUSD(ConvertUSDtoCOP(x, trm), trm);
      assert u.value * trm == x * trm;
    }
  }

  /** The other round trip: dollars from pesos, then pesos again. */
  lemma CopRoundTrip(x: real, trm: real)
    requires trm != 0.0
    ensures ConvertCOPtoUSD(x, trm).Finite?
    ensures ConvertUSDtoCOP(ConvertCOPtoUSD(x, trm).value, trm) == x
  {
  }

  /** Swapping the two values negates the change and swaps up and down. */
  lemma ChangeAntisymmetric(a: real, b: real)
    ensures CalculateChange(a, b).value == -CalculateChange(b, a).value
    ensures CalculateChange(a, b).direction == Up <==> CalculateChange(b, a).direction == Down
    ensures CalculateChange(a, b).direction == Neutral <==> CalculateChange(b, a).direction == Neutral
  {
  }

  /** With a positive base the percentage has the sign of the change. */
  lemma PercentageFollowsDirection(current: real, previous: real)
    requires previous > 0.0
    ensures CalculateChange(current, previous).percentage > 0.0 <==> CalculateChange(current, previous).direction == Up
    ensures CalculateChange(current, previous).percentage < 0.0 <==> CalculateChange(current, previous).direction == Down
  {
    var c := CalculateChange(current, previous);
    assert c.percentage == (current - previous) / previous * 100.0;
  }
}
