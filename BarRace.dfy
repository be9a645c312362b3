/** The daily ranking bar race (frontend/src/components/dashboard/
    DailyRankingBarRaceChart/index.jsx).

    The chart steps through the distinct dates of its rows, one frame per
    date. Three state fields drive it: the frame index `on`, the `pause`
    switch and the `progress` percentage. A tick advances one frame unless
    paused or at the last frame. Each frame shows at most ten rows of the
    current date, the negative or the non-negative ones, ordered away from
    zero, with the axis bounds taken from the first and last bar.

    The chart's `value` prop names the plotted field; here every row carries
    that field as `metric`. The two-second timer is not modelled: a tick is
    an explicit call. */
module BarRace {
  import opened Wrappers
  import opened Lists

  /** One row of the `stocks` prop. */
  datatype Row = Row(symbol: string, on: string, metric: real)

  /** What `update_option` feeds the chart: the bars and the axis bounds. */
  datatype Frame = Frame(data: seq<Row>, minValue: real, maxValue: real)

  // ---------------------------------------------------------------------------
  // dates
  // ---------------------------------------------------------------------------

  function OnsOf(rows: seq<Row>): (r: seq<string>)
    ensures |r| == |rows| && forall i :: 0 <= i < |rows| ==> r[i] == rows[i].on
  {
    seq(|rows|, i requires 0 <= i < |rows| => rows[i].on)
  }

  /** `reverse([...new Set(map(stocks, s => s.on))])` */
  function Dates(rows: seq<Row>): seq<string> {
    Reverse(Distinct(OnsOf(rows)))
  }

  /** Every date of the rows appears once. */
  lemma DatesNoDup(rows: seq<Row>)
    ensures NoDup(Dates(rows))
  {
    var d := Distinct(OnsOf(rows));
    var r := Dates(rows);
    forall i, j | 0 <= i < j < |r| ensures r[i] != r[j] {
      assert r[i] == d[|d| - 1 - i] && r[j] == d[|d| - 1 - j];
    }
  }

  /** The dates are exactly the `on` values of the rows. */
  lemma DatesMembers(rows: seq<Row>)
    ensures forall x :: x in Dates(rows) <==> exists i :: 0 <= i < |rows| && rows[i].on == x
  {
    var ons := OnsOf(rows);
    SameMultisetSameElements(Dates(rows), Distinct(ons));
    forall x | x in ons ensures exists i :: 0 <= i < |rows| && rows[i].on == x {
      var i :| 0 <= i < |ons| && ons[i] == x;
      assert rows[i].on == x;
    }
  }

  /** The date that first appears in the rows comes last: the dates run in
      reverse order of first appearance. */
  lemma DatesOrder(rows: seq<Row>)
    ensures forall i, j :: 0 <= i < j < |Dates(rows)| ==>
      IndexOf(OnsOf(rows), Dates(rows)[i]) > IndexOf(OnsOf(rows), Dates(rows)[j])
  {
    ReverseDistinctOrder(OnsOf(rows));
  }

  // ---------------------------------------------------------------------------
  // progress
  // ---------------------------------------------------------------------------

  /** `Math.round(((on + 1) / dates.length) * 100)` in integers: the nearest
      whole percentage, halves rounded up. With no dates the JavaScript value
      is `Infinity`, here `None`. */
  function Progress(on: int, n: nat): Option<int> {
    if n == 0 then None else Some((200 * (on + 1) + n) / (2 * n))
  }

  /** The integer formula is `Math.round` of the real percentage: the largest
      whole number not above the percentage plus one half. */
  lemma ProgressIsRounded(on: int, n: nat)
    requires n > 0
    ensures Progress(on, n).Some?
    ensures var x := (on + 1) as real / n as real * 100.0;
      && Progress(on, n).value as real <= x + 0.5 < Progress(on, n).value as real + 1.0
  {
    var a, b := 200 * (on + 1) + n, 2 * n;
    var q, r := a / b, a % b;
    assert Progress(on, n).value == q;
    var m, nr := (on + 1) as real, n as real;
    assert (on + 1) as real / n as real * 100.0 + 0.5 == a as real / b as real by {
      RoundAsFraction(m, nr);
      assert a as real == 200.0 * m + nr;
      assert b as real == 2.0 * nr;
    }
    assert a as real == b as real * q as real + r as real by {
      assert a == b * q + r;
      CastMul(b, q);
    }
    RealQuotient(a as real, b as real, q as real, r as real);
  }

  /** The percentage stays within 100 on every frame and is 100 on the last. */
  lemma ProgressBounds(on: int, n: nat)
    requires 0 <= on < n
    ensures Progress(on, n).Some?
    ensures 0 <= Progress(on, n).value <= 100
    ensures on == n - 1 ==> Progress(on, n).value == 100
  {
    var a, b := 200 * (on + 1) + n, 2 * n;
    DivBelow(a, b, 101);
    if on == n - 1 {
      DivUnique(a, b, 100, n);
    }
  }

  lemma DivBelow(a: int, b: int, c: int)
    requires b > 0 && 0 <= a < b * c
    ensures 0 <= a / b < c
  {
  }

  /** Euclidean division is determined by quotient and remainder. */
  lemma DivUnique(a: int, b: int, q: int, r: int)
    requires b > 0 && a == b * q + r && 0 <= r < b
    ensures a / b == q
  {
    var q', r' := a / b, a % b;
    assert a == b * q' + r' && 0 <= r' < b;
    if q' > q {
      MulMono(b, q', q + 1);
      assert false;
    } else if q' < q {
      MulMono(b, q, q' + 1);
      assert false;
    }
  }

  lemma MulMono(b: int, x: int, y: int)
    requires b > 0 && x >= y
    ensures b * x >= b * y
  {
  }

  lemma RealDivUnique(z: real, a: real, b: real)
    requires b > 0.0 && z * b == a
    ensures z == a / b
  {
  }

  lemma CastMul(b: int, q: int)
    ensures (b * q) as real == b as real * q as real
  {
  }

  lemma RoundAsFraction(m: real, nr: real)
    requires nr > 0.0
    ensures m / nr * 100.0 + 0.5 == (200.0 * m + nr) / (2.0 * nr)
  {
    var y := m / nr;
    assert y * nr == m;
    assert (y * 100.0 + 0.5) * (2.0 * nr) == 200.0 * m + nr;
    RealDivUnique(y * 100.0 + 0.5, 200.0 * m + nr, 2.0 * nr);
  }

  lemma RealQuotient(ar: real, br: real, q: real, r: real)
    requires br > 0.0 && ar == br * q + r && 0.0 <= r < br
    ensures q <= ar / br < q + 1.0
  {
    var f := r / br;
    assert f * br == r;
    assert (q + f) * br == ar;
    RealDivUnique(q + f, ar, br);
    if f < 0.0 || f >= 1.0 {
      assert false;
    }
  }

  // ---------------------------------------------------------------------------
  // ticks
  // ---------------------------------------------------------------------------

  /** The frame an unpaused tick moves to. */
  function Advance(on: int, n: nat): int {
    if on < n - 1 then on + 1 else on
  }

  /** The frame after `k` unpaused ticks from the first one. */
  function AfterTicks(k: nat, n: nat): int {
    if k == 0 then 0 else Advance(AfterTicks(k - 1, n), n)
  }

  /** `k` unpaused ticks from the start reach frame `k`, or the last frame
      once there are no more. */
  lemma {:induction false} TicksFromStart(k: nat, n: nat)
    ensures AfterTicks(k, n) == if n == 0 then 0 else if k < n - 1 then k else n - 1
  {
    if k > 0 {
      TicksFromStart(k - 1, n);
    }
  }

  // ---------------------------------------------------------------------------
  // frame selection
  // ---------------------------------------------------------------------------

  predicate ByMetric(a: Row, b: Row) {
    a.metric <= b.metric
  }

  lemma ByMetricIsTotalPreorder()
    ensures IsTotalPreorder(ByMetric)
  {
  }

  predicate IsNegative(r: Row) {
    r.metric < 0.0
  }

  predicate IsNonNegative(r: Row) {
    r.metric >= 0.0
  }

  /** `dates[on]`: nothing past the end (JavaScript `undefined`). */
  function DateAt(dates: seq<string>, on: int): Option<string> {
    if 0 <= on < |dates| then Some(dates[on]) else None
  }

  /** `filter(stocks, r => r.on === dates[on])` */
  function DayRows(rows: seq<Row>, date: Option<string>): seq<Row> {
    Filter(rows, (r: Row) => date == Some(r.on))
  }

  /** The bars of one frame: the day's rows sorted by value, the sign kept,
      the first ten taken, ascending for negatives and descending
      otherwise. */
  function FrameData(day: seq<Row>, negative: bool): seq<Row> {
    var sorted := SortBy(day, ByMetric);
    if negative then Take(Filter(sorted, IsNegative), 10)
    else Take(Reverse(Filter(sorted, IsNonNegative)), 10)
  }

  /** `update_option`: the bars and the axis bounds. */
  function UpdateOption(rows: seq<Row>, date: Option<string>, negative: bool): Frame {
    WithBounds(FrameData(DayRows(rows, date), negative), negative)
  }

  /** The axis bounds read off the first and the last bar, 0 for no bars. */
  function WithBounds(data: seq<Row>, negative: bool): Frame {
    if data == [] then Frame(data, 0.0, 0.0)
    else if negative then Frame(data, data[0].metric, data[|data| - 1].metric)
    else Frame(data, data[|data| - 1].metric, data[0].metric)
  }

  /** The bars of a negative frame: the day's negative rows in ascending
      order, at most ten, and every negative row left out is no smaller than
      any bar. */
  lemma NegativeFrameSpec(day: seq<Row>)
    ensures var data, pool := FrameData(day, true), Filter(day, IsNegative);
      && |data| == (if |pool| < 10 then |pool| else 10)
      && multiset(data) <= multiset(pool)
      && Sorted(data, ByMetric)
      && (forall r :: r in pool && r !in data ==> forall i :: 0 <= i < |data| ==> ByMetric(data[i], r))
  {
    var kept := Filter(SortBy(day, ByMetric), IsNegative);
    SortedRun(day, IsNegative);
    SortedTake(kept, Filter(day, IsNegative), ByMetric, 10);
  }

  /** The bars of a non-negative frame: the day's non-negative rows in
      descending order, at most ten, and every such row left out is no
      larger than any bar. */
  lemma PositiveFrameSpec(day: seq<Row>)
    ensures var data, pool := FrameData(day, false), Filter(day, IsNonNegative);
      && |data| == (if |pool| < 10 then |pool| else 10)
      && multiset(data) <= multiset(pool)
      && Sorted(data, Above)
      && (forall r :: r in pool && r !in data ==> forall i :: 0 <= i < |data| ==> Above(data[i], r))
  {
    var kept := Filter(SortBy(day, ByMetric), IsNonNegative);
    SortedRun(day, IsNonNegative);
    var desc := Reverse(kept);
    ReverseSortedAbove(kept);
    SortedTake(desc, Filter(day, IsNonNegative), Above, 10);
  }

  /** The reversed order: `a` comes first when its value is larger. */
  predicate Above(a: Row, b: Row) {
    a.metric >= b.metric
  }

  lemma ReverseSortedAbove(s: seq<Row>)
    requires Sorted(s, ByMetric)
    ensures Sorted(Reverse(s), Above)
    ensures multiset(Reverse(s)) == multiset(s)
  {
  }

  /** Sorting the day and then keeping one sign gives the rows of that sign,
      sorted. */
  lemma SortedRun(day: seq<Row>, p: Row -> bool)
    ensures var kept := Filter(SortBy(day, ByMetric), p);
      && Sorted(kept, ByMetric)
      && multiset(kept) == multiset(Filter(day, p))
      && |kept| == |Filter(day, p)|
      && (forall r :: r in kept <==> r in Filter(day, p))
  {
    var sorted := SortBy(day, ByMetric);
    ByMetricIsTotalPreorder();
    SortBySorted(day, ByMetric);
    FilterPermutation(sorted, day, p);
    var kept := Filter(sorted, p);
    FilterSorted(sorted, p, ByMetric);
    assert |kept| == |Filter(day, p)| by {
      assert |multiset(kept)| == |multiset(Filter(day, p))|;
    }
    SameMultisetSameElements(kept, Filter(day, p));
  }

  /** A frame shows only rows of the current date and of the chosen sign,
      at most ten of them. */
  lemma FrameRows(rows: seq<Row>, date: Option<string>, negative: bool)
    ensures var f := UpdateOption(rows, date, negative);
      && |f.data| <= 10
      && (forall r :: r in f.data ==> r in rows && date == Some(r.on))
      && (forall r :: r in f.data ==> if negative then r.metric < 0.0 else r.metric >= 0.0)
  {
    var day := DayRows(rows, date);
    var data := UpdateOption(rows, date, negative).data;
    if negative {
      NegativeFrameSpec(day);
      SubMultisetMembers(data, Filter(day, IsNegative));
    } else {
      PositiveFrameSpec(day);
      SubMultisetMembers(data, Filter(day, IsNonNegative));
    }
  }

  /** The axis bounds are the smallest and the largest value shown, and
      both are 0 when nothing is shown. */
  lemma FrameBounds(rows: seq<Row>, date: Option<string>, negative: bool)
    ensures var f := UpdateOption(rows, date, negative);
      && f.minValue <= f.maxValue
      && (f.data == [] ==> f.minValue == 0.0 && f.maxValue == 0.0)
      && (forall r :: r in f.data ==> f.minValue <= r.metric <= f.maxValue)
      && (f.data != [] ==> exists i, j :: 0 <= i < |f.data| && 0 <= j < |f.data| && f.data[i].metric == f.minValue && f.data[j].metric == f.maxValue)
  {
    var day := DayRows(rows, date);
    if negative {
      NegativeFrameSpec(day);
    } else {
      PositiveFrameSpec(day);
    }
    WithBoundsSpec(FrameData(day, negative), negative);
  }

  lemma WithBoundsSpec(data: seq<Row>, negative: bool)
    requires negative ==> Sorted(data, ByMetric)
    requires !negative ==> Sorted(data, Above)
    ensures var f := WithBounds(data, negative);
      && f.data == data
      && f.minValue <= f.maxValue
      && (data == [] ==> f.minValue == 0.0 && f.maxValue == 0.0)
      && (forall r :: r in data ==> f.minValue <= r.metric <= f.maxValue)
      && (data != [] ==> exists i, j :: 0 <= i < |data| && 0 <= j < |data| && data[i].metric == f.minValue && data[j].metric == f.maxValue)
  {
    if data != [] {
      var last := |data| - 1;
      if negative {
        AscendingEnds(data);
        assert data[0] in data;
        assert WithBounds(data, negative).minValue == data[0].metric;
        assert WithBounds(data, negative).maxValue == data[last].metric;
      } else {
        DescendingEnds(data);
        assert data[0] in data;
        assert WithBounds(data, negative).minValue == data[last].metric;
        assert WithBounds(data, negative).maxValue == data[0].metric;
      }
    }
  }

  lemma SubMultisetMembers(a: seq<Row>, b: seq<Row>)
    requires multiset(a) <= multiset(b)
    ensures forall r :: r in a ==> r in b
  {
    forall r | r in a ensures r in b {
      assert multiset(a)[r] > 0;
    }
  }

  lemma AscendingEnds(data: seq<Row>)
    requires data != [] && Sorted(data, ByMetric)
    ensures forall r :: r in data ==> data[0].metric <= r.metric <= data[|data| - 1].metric
  {
    forall r | r in data ensures data[0].metric <= r.metric <= data[|data| - 1].metric {
      var k :| 0 <= k < |data| && data[k] == r;
      assert k == 0 || ByMetric(data[0], data[k]);
      assert k == |data| - 1 || ByMetric(data[k], data[|data| - 1]);
    }
  }

  lemma DescendingEnds(data: seq<Row>)
    requires data != [] && Sorted(data, Above)
    ensures forall r :: r in data ==> data[|data| - 1].metric <= r.metric <= data[0].metric
  {
    forall r | r in data ensures data[|data| - 1].metric <= r.metric <= data[0].metric {
      var k :| 0 <= k < |data| && data[k] == r;
      assert k == 0 || Above(data[0], data[k]);
      assert k == |data| - 1 || Above(data[k], data[|data| - 1]);
    }
  }

  // ---------------------------------------------------------------------------
  // the component
  // ---------------------------------------------------------------------------

  /** The chart: its props, the dates derived from them and the three state
      fields. */
  class BarRaceChart {
    const rows: seq<Row>
    const negative: bool
    const dates: seq<string>
    var on: int
    var pause: bool
    var progress: Option<int>

    /** `on` is a frame index, or 0 when there are no frames. */
    ghost predicate Valid()
      reads this
    {
      dates == Dates(rows) && 0 <= on && (on == 0 || on < |dates|)
    }

    /** First render: the first frame, playing, progress 0. */
    constructor(rows: seq<Row>, negative: bool)
      ensures Valid()
      ensures this.rows == rows && this.negative == negative
      ensures on == 0 && !pause && progress == Some(0)
    {
      this.rows := rows;
      this.negative := negative;
      dates := Dates(rows);
      on := 0;
      pause := false;
      progress := Some(0);
    }

    /** `toggle_pause`: a second toggle restores the switch. */
    method TogglePause()
      modifies this
      ensures pause == !old(pause)
      ensures on == old(on) && progress == old(progress)
    {
      pause := !pause;
    }

    /** `on_rerun`: back to the first frame, playing. */
    method Rerun()
      requires Valid()
      modifies this
      ensures Valid()
      ensures on == 0 && !pause && progress == old(progress)
    {
      pause := false;
      on := 0;
    }

    /** The first statement of the effect, run after every render. */
    method Refresh()
      modifies this
      ensures progress == Progress(on, |dates|)
      ensures on == old(on) && pause == old(pause)
    {
      progress := Progress(on, |dates|);
    }

    /** The timer callback: nothing while paused; otherwise the progress of
        the current frame, and the next frame if there is one. */
    method Tick()
      requires Valid()
      modifies this
      ensures Valid()
      ensures pause == old(pause)
      ensures old(pause) ==> on == old(on) && progress == old(progress)
      ensures !old(pause) ==> on == Advance(old(on), |dates|) && progress == Progress(old(on), |dates|)
    {
      if pause {
        return;
      }
      progress := Progress(on, |dates|);
      if on < |dates| - 1 {
        on := on + 1;
      }
    }

    /** The chart options of the current frame: at most ten bars, all rows of
        the date `dates[on]` with the sign of the mode, and axis bounds that
        enclose every bar and are 0 for an empty frame. */
    method CurrentFrame() returns (f: Frame)
      ensures f == UpdateOption(rows, DateAt(dates, on), negative)
      ensures |f.data| <= 10
      ensures forall r :: r in f.data ==> r in rows && DateAt(dates, on) == Some(r.on)
      ensures forall r :: r in f.data ==> if negative then r.metric < 0.0 else r.metric >= 0.0
      ensures forall r :: r in f.data ==> f.minValue <= r.metric <= f.maxValue
      ensures f.minValue <= f.maxValue
      ensures f.data == [] ==> f.minValue == 0.0 && f.maxValue == 0.0
    {
      var date := DateAt(dates, on);
      f := UpdateOption(rows, date, negative);
      FrameRows(rows, date, negative);
      FrameBounds(rows, date, negative);
    }
  }
}
