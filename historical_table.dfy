/** The data derived by the history table
    (client/src/components/HistoricalTable.tsx): the per-day trend rows and
    the two fixed conversion tables. */
module HistoricalTable {
  import opened Rates
  import opened Metrics

  /** How many days the table shows. */
  const ShownDays := 14

  /** A record with its trend against the record after it in the list
      (`{...item, change, changePercent, direction}`). */
  datatype TrendRow = TrendRow(record: RateRecord, change: real, changePercent: real, direction: Direction)

  /** The row for position `i`. The successor is looked up in the whole
      list, not in the shown slice; the last record of the list is compared
      with itself. */
  function RowAt(data: seq<RateRecord>, i: nat): (row: TrendRow)
    requires i < |data|
    ensures row.record == data[i]
    ensures i + 1 < |data| ==> data[i + 1].valor + row.change == data[i].valor
    ensures i + 1 < |data| && data[i + 1].valor != 0.0 ==>
      data[i + 1].valor + row.changePercent * data[i + 1].valor / 100.0 == data[i].valor
    ensures i + 1 == |data| ==> row.change == 0.0 && row.changePercent == 0.0 && row.direction == Neutral
    ensures (row.direction == Up <==> row.change > 0.0) && (row.direction == Down <==> row.change < 0.0)
  {
    var currentValue := data[i].valor;
    var previousValue := if i < |data| - 1 then data[i + 1].valor else currentValue;
    var change := currentValue - previousValue;
    var changePercent := if previousValue != 0.0 then change / previousValue * 100.0 else 0.0;
    TrendRow(data[i], change, changePercent, DirectionOf(change))
  }

  /** `data.slice(0, 14).map(...)`. */
  function TrendRows(data: seq<RateRecord>): (rows: seq<TrendRow>)
    ensures |rows| == Min(ShownDays, |data|)
    ensures forall i :: 0 <= i < |rows| ==> rows[i].record == data[i]
    ensures forall i :: 0 <= i < |rows| && i + 1 < |data| ==>
      rows[i].change == data[i].valor - data[i + 1].valor
    ensures forall i :: 0 <= i < |rows| && i + 1 == |data| ==>
      rows[i].change == 0.0 && rows[i].direction == Neutral
    ensures forall i :: 0 <= i < |rows| ==>
      (rows[i].direction == Up <==> rows[i].change > 0.0) &&
      (rows[i].direction == Down <==> rows[i].change < 0.0)
  {
    seq(Min(ShownDays, |data|), i requires 0 <= i < Min(ShownDays, |data|) => RowAt(data, i))
  }

  /** Each row carries the same metrics as `calculateChange` of its value
      against its successor's (itself for the last record). */
  lemma RowsAgreeWithCalculateChange(data: seq<RateRecord>, i: nat)
    requires i < |TrendRows(data)|
    ensures var previous := if i + 1 < |data| then data[i + 1].valor else data[i].valor;
      var c := CalculateChange(data[i].valor, previous);
      var row := TrendRows(data)[i];
      row.change == c.value && row.changePercent == c.percentage && row.direction == c.direction
  {
  }

  /** The slice boundary: with more than 14 records the last shown row is
      compared with the 15th record, which is not shown; only a list of at
      most 14 records ends with a row forced to neutral. */
  lemma LastShownRow(data: seq<RateRecord>)
    requires data != []
    ensures var rows := TrendRows(data);
      (|data| > ShownDays ==> rows[ShownDays - 1].change == data[ShownDays - 1].valor - data[ShownDays].valor) &&
      (|data| <= ShownDays ==> rows[|rows| - 1].change == 0.0 && rows[|rows| - 1].direction == Neutral)
  {
  }

  /** The amounts of the dollar-to-peso table. */
  const UsdAmounts: seq<real> := [1.0, 5.0, 10.0, 20.0, 50.0, 100.0, 200.0, 500.0, 1000.0, 2000.0, 5000.0]

  /** The amounts of the peso-to-dollar table. */
  const CopAmounts: seq<real> := [1000.0, 2000.0, 5000.0, 10000.0, 20000.0, 50000.0, 100000.0,
                                  200000.0, 500000.0, 1000000.0, 5000000.0]

  predicate StrictlyIncreasing(s: seq<real>) {
    forall i, j :: 0 <= i < j < |s| ==> s[i] < s[j]
  }

  /** Both tables list eleven positive amounts in increasing order. */
  lemma AmountTables()
    ensures |UsdAmounts| == 11 && |CopAmounts| == 11
    ensures StrictlyIncreasing(UsdAmounts) && StrictlyIncreasing(CopAmounts)
    ensures UsdAmounts[0] > 0.0 && CopAmounts[0] > 0.0
  {
  }

  /** A table row: the fixed amount and its conversion. */
  datatype UsdRow = UsdRow(usd: real, cop: real)
  datatype CopRow = CopRow(cop: real, usd: JsNumber)

  /** The dollar-to-peso table for the current rate. */
  function UsdToCopTable(currentTrm: real): (rows: seq<UsdRow>)
    ensures |rows| == |UsdAmounts|
    ensures forall i :: 0 <= i < |rows| ==>
      rows[i].usd == UsdAmounts[i] && rows[i].cop == ConvertUSDtoCOP(UsdAmounts[i], currentTrm)
  {
    seq(|UsdAmounts|, i requires 0 <= i < |UsdAmounts| => UsdRow(UsdAmounts[i], UsdAmounts[i] * currentTrm))
  }

  /** The peso-to-dollar table for the current rate; before any rate is
      loaded the rate is 0 and every entry is an infinity. */
  function CopToUsdTable(currentTrm: real): (rows: seq<CopRow>)
    ensures |rows| == |CopAmounts|
    ensures forall i :: 0 <= i < |rows| ==>
      rows[i].cop == CopAmounts[i] && rows[i].usd == ConvertCOPtoUSD(CopAmounts[i], currentTrm)
    ensures currentTrm == 0.0 ==> forall i :: 0 <= i < |rows| ==> rows[i].usd == PosInfinity
  {
    seq(|CopAmounts|, i requires 0 <= i < |CopAmounts| => CopRow(CopAmounts[i], JsDivide(CopAmounts[i], currentTrm)))
  }

  /** With a positive rate both converted columns increase down the table. */
  lemma TablesIncrease(currentTrm: real)
    requires currentTrm > 0.0
    ensures forall i, j :: 0 <= i < j < |UsdAmounts| ==> UsdToCopTable(currentTrm)[i].cop < UsdToCopTable(currentTrm)[j].cop
    ensures forall i, j :: 0 <= i < j < |CopAmounts| ==>
      CopToUsdTable(currentTrm)[i].usd.value < CopToUsdTable(currentTrm)[j].usd.value
  {
    AmountTables();
    var u := UsdToCopTable(currentTrm);
    var c := CopToUsdTable(currentTrm);
    forall i, j | 0 <= i < j < |UsdAmounts| ensures u[i].cop < u[j].cop {
      assert UsdAmounts[i] < UsdAmounts[j];
      MultiplyMonotone(UsdAmounts[i], UsdAmounts[j], currentTrm);
    }
    forall i, j | 0 <= i < j < |CopAmounts| ensures c[i].usd.value < c[j].usd.value {
      assert CopAmounts[i] < CopAmounts[j];
      DivideMonotone(CopAmounts[i], CopAmounts[j], currentTrm);
    }
  }

  lemma MultiplyMonotone(a: real, b: real, t: real)
    requires a < b && t > 0.0
    ensures a * t < b * t
  {
  }

  lemma DivideMonotone(a: real, b: real, t: real)
    requires a < b && t > 0.0
    ensures a / t < b / t
  {
    assert (b - a) / t > 0.0;
  }
}
