/** The data behind the evolution chart (client/src/components/TRMChart.tsx):
    the period buttons, the window of the series that is plotted, and the
    bounds of the value axis. */
module RateChart {
  import opened Rates

  /** An entry of the `periods` table. */
  datatype PeriodOption = PeriodOption(value: string, caption: string, days: nat)

  const Periods: seq<PeriodOption> := [
    PeriodOption("15d", "15 días", 15),
    PeriodOption("1m", "1 mes", 30),
    PeriodOption("3m", "3 meses", 90),
    PeriodOption("6m", "6 meses", 180),
    PeriodOption("1y", "1 año", 365)
  ]

  const InitialPeriod := "1m"
  const FallbackDays := 30

  /** `options.find(p => p.value === period)`: the first entry with that
      value. */
  function Find(options: seq<PeriodOption>, period: string): (r: Option<PeriodOption>)
    ensures r.Some? ==> r.value in options && r.value.value == period
    ensures r.None? <==> forall p :: p in options ==> p.value != period
    ensures r.Some? ==> exists k :: (0 <= k < |options| && options[k] == r.value &&
                                     forall j :: 0 <= j < k ==> options[j].value != period)
  {
    if options == [] then None
    else if options[0].value == period then Some(options[0])
    else
      var r := Find(options[1..], period);
      assert r.Some? ==> exists k :: (0 <= k < |options| && options[k] == r.value &&
                                      forall j :: 0 <= j < k ==> options[j].value != period)
      by {
        if r.Some? {
          var k :| 0 <= k < |options[1..]| && options[1..][k] == r.value &&
            forall j :: 0 <= j < k ==> options[1..][j].value != period;
          assert options[k + 1] == r.value;
          assert forall j :: 0 <= j < k + 1 ==> options[j].value != period by {
            forall j | 0 <= j < k + 1 ensures options[j].value != period {
              if j > 0 {
                assert options[j] == options[1..][j - 1];
              }
            }
          }
        }
      }
      r
  }

  /** `selectedPeriod?.days || 30`: the days of the period, falling back to
      30 when no entry matches (or an entry had 0 days). */
  function PeriodDays(period: string): (d: nat)
    ensures d > 0
  {
    match Find(Periods, period)
    case Some(p) => if p.days != 0 then p.days else FallbackDays
    case None => FallbackDays
  }

  /** Each button's period gives its own number of days, the initial
      period gives 30, and any other value falls back to 30. */
  lemma PeriodTable()
    ensures PeriodDays("15d") == 15 && PeriodDays("1m") == 30 && PeriodDays("3m") == 90
    ensures PeriodDays("6m") == 180 && PeriodDays("1y") == 365
    ensures PeriodDays(InitialPeriod) == 30
  {
    PeriodEntry(0);
    PeriodEntry(1);
    PeriodEntry(2);
    PeriodEntry(3);
    PeriodEntry(4);
  }

  /** A value outside the table falls back to 30 days. */
  lemma UnknownPeriod(period: string)
    requires forall k :: 0 <= k < |Periods| ==> Periods[k].value != period
    ensures PeriodDays(period) == FallbackDays
  {
  }

  /** Every entry is found by its own value. */
  lemma PeriodEntries()
    ensures forall k :: 0 <= k < |Periods| ==> Find(Periods, Periods[k].value) == Some(Periods[k])
  {
    forall k | 0 <= k < |Periods|
      ensures Find(Periods, Periods[k].value) == Some(Periods[k])
    {
      PeriodEntry(k);
    }
  }

  /** The value of each entry finds that entry: the values are distinct. */
  lemma PeriodEntry(k: nat)
    requires k < |Periods|
    ensures Find(Periods, Periods[k].value) == Some(Periods[k])
  {
    var v := Periods[k].value;
    assert Periods[0].value == "15d" && Periods[1].value == "1m" && Periods[2].value == "3m";
    assert Periods[3].value == "6m" && Periods[4].value == "1y";
    if k > 0 {
      assert Periods[0].value != v;
      var rest1 := Periods[1..];
      assert Find(Periods, v) == Find(rest1, v);
      if k > 1 {
        assert rest1[0].value != v;
        var rest2 := rest1[1..];
        assert Find(rest1, v) == Find(rest2, v);
        if k > 2 {
          assert rest2[0].value != v;
          var rest3 := rest2[1..];
          assert Find(rest2, v) == Find(rest3, v);
          if k > 3 {
            assert rest3[0].value != v;
            assert Find(rest3, v) == Find(rest3[1..], v);
          }
        }
      }
    }
  }

  /** A plotted point: the record's start date and its value. (The
      formatted axis label is not modelled.) */
  datatype ChartPoint = ChartPoint(fullDate: string, value: real)

  function ToPoint(r: RateRecord): ChartPoint {
    ChartPoint(r.vigenciadesde, r.valor)
  }

  function Points(rows: seq<RateRecord>): (ps: seq<ChartPoint>)
    ensures |ps| == |rows|
    ensures forall i :: 0 <= i < |rows| ==> ps[i] == ToPoint(rows[i])
  {
    if rows == [] then [] else [ToPoint(rows[0])] + Points(rows[1..])
  }

  /** `Array.prototype.reverse` on a fresh array. */
  function Reverse<T>(s: seq<T>): (r: seq<T>)
    ensures |r| == |s|
  {
    if s == [] then [] else Reverse(s[1..]) + [s[0]]
  }

  lemma {:induction false} ReverseAt<T>(s: seq<T>, i: nat)
    requires i < |s|
    ensures |Reverse(s)| == |s|
    ensures Reverse(s)[i] == s[|s| - 1 - i]
  {
    if |s| > 1 {
      if i < |s| - 1 {
        ReverseAt(s[1..], i);
      }
    }
  }

  /** `chartData`: the newest `days` records, mapped to points and put in
      chronological order. */
  function ChartData(data: seq<RateRecord>, period: string): (points: seq<ChartPoint>)
    ensures |points| == Min(PeriodDays(period), |data|)
  {
    var k := Min(PeriodDays(period), |data|);
    Reverse(Points(data[..k]))
  }

  /** The window has `min(days, |data|)` points and point `i` comes from
      record `k - 1 - i`: the newest-first list is plotted oldest first. */
  lemma ChartWindow(data: seq<RateRecord>, period: string, i: nat)
    requires i < Min(PeriodDays(period), |data|)
    ensures var k := Min(PeriodDays(period), |data|);
      |ChartData(data, period)| == k &&
      ChartData(data, period)[i] == ChartPoint(data[k - 1 - i].vigenciadesde, data[k - 1 - i].valor)
  {
    var k := Min(PeriodDays(period), |data|);
    ReverseAt(Points(data[..k]), i);
  }

  function Values(points: seq<ChartPoint>): (vs: seq<real>)
    ensures |vs| == |points|
    ensures forall i :: 0 <= i < |points| ==> vs[i] == points[i].value
  {
    seq(|points|, i requires 0 <= i < |points| => points[i].value)
  }

  /** `Math.min(...values)`. */
  function SeqMin(s: seq<real>): (m: real)
    requires s != []
    ensures m in s
    ensures forall x :: x in s ==> m <= x
  {
    if |s| == 1 then s[0]
    else
      var rest := SeqMin(s[1..]);
      assert forall x :: x in s ==> x == s[0] || x in s[1..];
      if s[0] <= rest then s[0] else rest
  }

  /** `Math.max(...values)`. */
  function SeqMax(s: seq<real>): (m: real)
    requires s != []
    ensures m in s
    ensures forall x :: x in s ==> x <= m
  {
    if |s| == 1 then s[0]
    else
      var rest := SeqMax(s[1..]);
      assert forall x :: x in s ==> x == s[0] || x in s[1..];
      if s[0] >= rest then s[0] else rest
  }

  /** `Math.ceil`. */
  function Ceil(x: real): (c: int)
    ensures x <= c as real < x + 1.0
  {
    -((-x).Floor)
  }

  /** The value axis bounds: 0 and 0 for an empty chart; otherwise the
      extremes widened by a tenth of the spread and rounded outward. The
      bounds are in order and every plotted value lies between them. */
  function Domain(points: seq<ChartPoint>): (bounds: (int, int))
    ensures points == [] ==> bounds == (0, 0)
    ensures bounds.0 <= bounds.1
    ensures forall p :: p in points ==> bounds.0 as real <= p.value <= bounds.1 as real
    ensures points != [] ==>
      var lo, hi := SeqMin(Values(points)), SeqMax(Values(points));
      var low, high := lo - (hi - lo) / 10.0, hi + (hi - lo) / 10.0;
      bounds.0 as real <= low < bounds.0 as real + 1.0 && bounds.1 as real - 1.0 < high <= bounds.1 as real
  {
    if |points| == 0 then (0, 0)
    else
      var values := Values(points);
      var lo := SeqMin(values);
      var hi := SeqMax(values);
      var padding := (hi - lo) * 0.1;
      ValuesWithin(points, lo, hi);
      ((lo - padding).Floor, Ceil(hi + padding))
  }

  /** Bounds of the values are bounds of the points. */
  lemma ValuesWithin(points: seq<ChartPoint>, lo: real, hi: real)
    requires forall x :: x in Values(points) ==> lo <= x <= hi
    ensures forall p :: p in points ==> lo <= p.value <= hi
  {
    forall p | p in points
      ensures lo <= p.value <= hi
    {
      var i :| 0 <= i < |points| && points[i] == p;
      assert Values(points)[i] in Values(points);
    }
  }

  /** The selected period of the chart. Only the buttons change it, and
      each button sets the value of one table entry. */
  class PeriodSelection {
    var period: string

    ghost predicate Valid()
      reads this
    {
      exists k :: 0 <= k < |Periods| && Periods[k].value == period
    }

    constructor ()
      ensures Valid() && period == InitialPeriod
    {
      period := InitialPeriod;
      assert Periods[1].value == InitialPeriod;
    }

    /** The button of entry `k`. */
    method Select(k: nat)
      requires k < |Periods|
      modifies this
      ensures Valid() && period == Periods[k].value
    {
      period := Periods[k].value;
    }

    /** With a period chosen by the buttons the fallback is never taken:
      the days are those of the selected entry. */
    function Days(): (d: nat)
      reads this
      requires Valid()
      ensures exists k :: 0 <= k < |Periods| && Periods[k].value == period && d == Periods[k].days
      ensures d in {15, 30, 90, 180, 365}
    {
      PeriodEntries();
      PeriodDays(period)
    }
  }
}
