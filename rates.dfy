/** Shared data model of the exchange-rate client: the published rate record,
    the qualitative direction of a change, and JavaScript numbers as far as
    the model needs them (finite values plus the results of dividing by zero). */
module Rates {

  datatype Option<+T> = None | Some(value: T)

  /** One row of the official TRM dataset (`TRMData`). The rate arrives as a
      decimal string and every consumer runs it through `parseFloat`;
      `valor` holds that parsed value. Dates stay ISO strings. */
  datatype RateRecord = RateRecord(
    valor: real,
    unidad: string,
    vigenciadesde: string,
    vigenciahasta: string)

  function Min(a: int, b: int): int {
    if a <= b then a else b
  }

  /** The trend classification shown by the arrows of the interface. */
  datatype Direction = Up | Down | Neutral

  /** Direction of a delta: only exact equality is neutral. */
  function DirectionOf(delta: real): (d: Direction)
    ensures d == Up <==> delta > 0.0
    ensures d == Down <==> delta < 0.0
    ensures d == Neutral <==> delta == 0.0
  {
    if delta > 0.0 then Up else if delta < 0.0 then Down else Neutral
  }

  /** A JavaScript number as the model needs it: an ordinary value, or what
      a division by zero produces. */
  datatype JsNumber = Finite(value: real) | PosInfinity | NegInfinity | NaN

  /** JavaScript `x / y` on finite operands (signed zero is not modelled:
      every zero divisor is +0). */
  function JsDivide(x: real, y: real): (q: JsNumber)
    ensures y != 0.0 ==> q.Finite? && q.value * y == x
    ensures y == 0.0 ==> (q == PosInfinity <==> x > 0.0)
    ensures y == 0.0 ==> (q == NegInfinity <==> x < 0.0)
    ensures y == 0.0 ==> (q == NaN <==> x == 0.0)
  {
    if y != 0.0 then Finite(x / y)
    else if x > 0.0 then PosInfinity
    else if x < 0.0 then NegInfinity
    else NaN
  }
}
