/** The graph state holder of src/graph/Graph.ts: the country shown, its statistics, and the
    per-point display arrays derived from them, plus the axis-range helpers the plots use.  Plot
    rendering, hover text and the title are not part of this model. */
module Graph {
  import opened Wrappers
  import opened JsNumber
  import opened DataSource
  import opened DataSourceImpl
  import opened Stats

  /** The screen-size classes of src/app/ViewPort.ts. */
  datatype ViewPort = XSmall | Small | Medium | Large | ExtraLarge | ExtraExtraLarge

  datatype FontSize = FontSize(base: int, title: int, text: int, hover: int, axisTitle: int)

  datatype MarkerSize = MarkerSize(small: int, large: int)

  /** A point's colour: 'red' while the epidemic grows, 'green' otherwise. */
  datatype Color = Red | Green

  /** A date label: the formatted date, or the empty string. */
  datatype Label = Blank | Shown(date: Moment)

  /** The two series the cross-filtered range can be taken over. */
  datatype Prop = RollingDeaths | R

  /** setColors: red exactly where R exceeds one (NaN compares false and is green). */
  function Colors(r: seq<Num>): (colors: seq<Color>)
    ensures |colors| == |r|
    ensures forall i :: 0 <= i < |r| ==> (colors[i] == Red <==> Gt(r[i], 1.0))
  {
    seq(|r|, i requires 0 <= i < |r| => if Gt(r[i], 1.0) then Red else Green)
  }

  /** A steady epidemic is drawn all green: constant daily cases give R of exactly one. */
  lemma SteadyIsGreen(raw: CountryData, views: map<string, DefaultView>)
    requires |raw.cases| == 30 && |raw.deaths| == 30
    requires forall k :: 0 <= k < 30 ==> raw.cases[k] == 100.0
    ensures var colors := Colors(StatsOf(raw, 7, 7, 14, views).r);
      |colors| == 9 && forall i :: 0 <= i < 9 ==> colors[i] == Green
  {
    EndToEndExample(raw, views);
  }

  /** setDateLabels: the date at every activeWindow-th index from the first, blank elsewhere; with
      a zero window `i % 0` is NaN and every label is blank. */
  function DateLabels(dates: seq<Moment>, activeWindow: nat): (labels: seq<Label>)
    ensures |labels| == |dates|
    ensures forall i :: 0 <= i < |dates| ==>
      (labels[i].Shown? <==> activeWindow != 0 && i % activeWindow == 0) &&
      (labels[i].Shown? ==> labels[i].date == dates[i])
  {
    seq(|dates|, i requires 0 <= i < |dates| =>
      if activeWindow != 0 && i % activeWindow == 0 then Shown(dates[i]) else Blank)
  }

  /** The labels repeat with period activeWindow, starting with a shown one. */
  lemma LabelsPeriodic(dates: seq<Moment>, activeWindow: nat, i: nat)
    requires activeWindow >= 1 && i + activeWindow < |dates|
    ensures DateLabels(dates, activeWindow)[0].Shown?
    ensures DateLabels(dates, activeWindow)[i].Shown? <==> DateLabels(dates, activeWindow)[i + activeWindow].Shown?
  {
    ModAddPeriod(i, activeWindow);
  }

  /** Adding the divisor does not change the remainder. */
  lemma ModAddPeriod(x: int, n: int)
    requires n >= 1
    ensures (x + n) % n == x % n
  {
    var q, r := x / n, x % n;
    assert x + n == n * (q + 1) + r;
    DivModUnique(x + n, n, q + 1, r);
  }

  /** The remainder is the one r in [0, n) with x == n * q + r. */
  lemma DivModUnique(x: int, n: int, q: int, r: int)
    requires n >= 1 && 0 <= r < n && x == n * q + r
    ensures x % n == r
  {
    var q', r' := x / n, x % n;
    assert x == n * q' + r';
    var d := q - q';
    assert n * d == r' - r by {
      assert n * q - n * q' == n * (q - q');
    }
    if d >= 1 {
      MulAtLeast(n, d);
    } else if d <= -1 {
      MulAtLeast(n, -d);
    }
  }

  lemma {:induction false} MulAtLeast(n: int, d: int)
    requires n >= 1 && d >= 1
    ensures n * d >= n
  {
    if d > 1 {
      MulAtLeast(n, d - 1);
      assert n * d == n * (d - 1) + n;
    }
  }

  /** setMarkerSize: the large marker on the first point (the latest day), small ones elsewhere. */
  function MarkerSizes(n: nat, large: int, small: int): (sizes: seq<int>)
    ensures |sizes| == n
    ensures forall i :: 0 <= i < n ==> sizes[i] == (if i == 0 then large else small)
  {
    seq(n, i requires 0 <= i < n => if i == 0 then large else small)
  }

  /** getLogAxisRange on the two log endpoints: the high end stays; when the span exceeds
      decadeLimit the low end becomes trunc(high - decadeLimit), leaving a span within one of the
      limit; otherwise the low end stays too. */
  method GetLogAxisRange(minLog: real, maxLog: real, decadeLimit: real) returns (lo: real, hi: real)
    ensures hi == maxLog
    ensures maxLog - minLog <= decadeLimit ==> lo == minLog
    ensures maxLog - minLog > decadeLimit ==>
      lo == Trunc(maxLog - decadeLimit) as real &&
      decadeLimit - 1.0 < hi - lo < decadeLimit + 1.0
  {
    lo, hi := minLog, maxLog;
    if hi - lo > decadeLimit {
      lo := Trunc(hi - decadeLimit) as real;
    }
  }

  /** `this.stats[prop][i]`: undefined, which Math.min and Math.max turn into NaN, past the end. */
  function PropAt(prop: seq<Num>, i: nat): Num
  {
    if i < |prop| then prop[i] else NaN
  }

  /** An active value inside the cases window. */
  predicate InRange(active: real, minCases: real, maxCases: real)
  {
    active >= minCases && active <= maxCases
  }

  /** The reduce's starting pair [Number.MAX_VALUE, Number.MIN_VALUE]. */
  const Start: (Num, Num) := (Finite(MaxValue), Finite(MinValue))

  /** The reduce of minMaxInActiveCasesRange over the first n active values. */
  function MinMaxFold(active: seq<real>, prop: seq<Num>, minCases: real, maxCases: real, n: nat): (Num, Num)
    requires n <= |active|
  {
    if n == 0 then Start
    else
      var acc := MinMaxFold(active, prop, minCases, maxCases, n - 1);
      if InRange(active[n - 1], minCases, maxCases)
      then (Min(acc.0, PropAt(prop, n - 1)), Max(acc.1, PropAt(prop, n - 1)))
      else acc
  }

  /** Index i < n is in the cases window. */
  predicate Counted(active: seq<real>, minCases: real, maxCases: real, n: nat, i: int)
    requires n <= |active|
  {
    0 <= i < n && InRange(active[i], minCases, maxCases)
  }

  /** The fold is NaN exactly when some counted index reads NaN; otherwise it bounds every counted
      value, no tighter than the starting pair. */
  lemma {:induction false} FoldBounds(active: seq<real>, prop: seq<Num>, minCases: real, maxCases: real, n: nat)
    requires n <= |active|
    ensures var m := MinMaxFold(active, prop, minCases, maxCases, n);
      && (m.0.NaN? <==> exists i :: Counted(active, minCases, maxCases, n, i) && PropAt(prop, i).NaN?)
      && (m.1.NaN? <==> m.0.NaN?)
      && (!m.0.NaN? ==> Le(m.0, Finite(MaxValue)) && Le(Finite(MinValue), m.1))
      && (!m.0.NaN? ==> forall i :: Counted(active, minCases, maxCases, n, i) ==>
            Le(m.0, PropAt(prop, i)) && Le(PropAt(prop, i), m.1))
  {
    if n > 0 {
      FoldBounds(active, prop, minCases, maxCases, n - 1);
      var acc := MinMaxFold(active, prop, minCases, maxCases, n - 1);
      var m := MinMaxFold(active, prop, minCases, maxCases, n);
      if InRange(active[n - 1], minCases, maxCases) {
        var x := PropAt(prop, n - 1);
        assert Counted(active, minCases, maxCases, n, n - 1);
        if !m.0.NaN? {
          forall i | Counted(active, minCases, maxCases, n, i)
            ensures Le(m.0, PropAt(prop, i)) && Le(PropAt(prop, i), m.1)
          {
            if i < n - 1 {
              assert Counted(active, minCases, maxCases, n - 1, i);
              LeTransitive(m.0, acc.0, PropAt(prop, i));
              LeTransitive(PropAt(prop, i), acc.1, m.1);
            }
          }
          LeTransitive(m.0, acc.0, Finite(MaxValue));
          LeTransitive(Finite(MinValue), acc.1, m.1);
        }
        if exists i :: Counted(active, minCases, maxCases, n, i) && PropAt(prop, i).NaN? {
          var i :| Counted(active, minCases, maxCases, n, i) && PropAt(prop, i).NaN?;
          if i < n - 1 {
            assert Counted(active, minCases, maxCases, n - 1, i);
          }
        }
      } else {
        forall i | Counted(active, minCases, maxCases, n, i) ensures Counted(active, minCases, maxCases, n - 1, i) {
        }
      }
    }
  }

  /** Each end of the fold is its starting value or one of the counted values. */
  lemma {:induction false} FoldAttained(active: seq<real>, prop: seq<Num>, minCases: real, maxCases: real, n: nat)
    requires n <= |active|
    ensures var m := MinMaxFold(active, prop, minCases, maxCases, n);
      && (m.0.NaN? || m.0 == Start.0 || exists i :: Counted(active, minCases, maxCases, n, i) && m.0 == PropAt(prop, i))
      && (m.1.NaN? || m.1 == Start.1 || exists i :: Counted(active, minCases, maxCases, n, i) && m.1 == PropAt(prop, i))
      && ((forall i :: !Counted(active, minCases, maxCases, n, i)) ==> m == Start)
  {
    if n > 0 {
      FoldAttained(active, prop, minCases, maxCases, n - 1);
      var acc := MinMaxFold(active, prop, minCases, maxCases, n - 1);
      var m := MinMaxFold(active, prop, minCases, maxCases, n);
      if InRange(active[n - 1], minCases, maxCases) {
        assert Counted(active, minCases, maxCases, n, n - 1);
        if !m.0.NaN? && m.0 != Start.0 && m.0 != PropAt(prop, n - 1) {
          assert m.0 == acc.0;
          var i :| Counted(active, minCases, maxCases, n - 1, i) && acc.0 == PropAt(prop, i);
          assert Counted(active, minCases, maxCases, n, i);
        }
        if !m.1.NaN? && m.1 != Start.1 && m.1 != PropAt(prop, n - 1) {
          assert m.1 == acc.1;
          var i :| Counted(active, minCases, maxCases, n - 1, i) && acc.1 == PropAt(prop, i);
          assert Counted(active, minCases, maxCases, n, i);
        }
      } else {
        if !m.0.NaN? && m.0 != Start.0 {
          var i :| Counted(active, minCases, maxCases, n - 1, i) && acc.0 == PropAt(prop, i);
          assert Counted(active, minCases, maxCases, n, i);
        }
        if !m.1.NaN? && m.1 != Start.1 {
          var i :| Counted(active, minCases, maxCases, n - 1, i) && acc.1 == PropAt(prop, i);
          assert Counted(active, minCases, maxCases, n, i);
        }
        if forall i :: !Counted(active, minCases, maxCases, n, i) {
          var p := n - 1;
          forall i ensures !Counted(active, minCases, maxCases, p, i) {
            assert !Counted(active, minCases, maxCases, n, i);
          }
        }
      }
    }
  }

  /** minMaxInActiveCasesRange as written: the reduce runs over every active value, and prop is
      read even past its end. */
  function MinMaxAsWritten(active: seq<real>, prop: seq<Num>, minCases: real, maxCases: real): (Num, Num)
  {
    MinMaxFold(active, prop, minCases, maxCases, |active|)
  }

  /** As written, one counted active value past the end of prop makes both ends NaN. */
  lemma AsWrittenReadsPastEnd(active: seq<real>, prop: seq<Num>, minCases: real, maxCases: real, i: nat)
    requires |prop| <= i < |active| && InRange(active[i], minCases, maxCases)
    ensures MinMaxAsWritten(active, prop, minCases, maxCases) == (NaN, NaN)
  {
    FoldBounds(active, prop, minCases, maxCases, |active|);
    assert Counted(active, minCases, maxCases, |active|, i) && PropAt(prop, i).NaN?;
  }

  /** The number of indices the reduce can read prop at. */
  function Overlap(active: seq<real>, prop: seq<Num>): nat
  {
    if |prop| < |active| then |prop| else |active|
  }

  /** minMaxInActiveCasesRange, limited to the indices where both series have a value. */
  function MinMaxInRange(active: seq<real>, prop: seq<Num>, minCases: real, maxCases: real): (Num, Num)
  {
    MinMaxFold(active, prop, minCases, maxCases, Overlap(active, prop))
  }

  /** The limited range: the starting pair when nothing is counted; NaN exactly when a counted
      value is NaN; otherwise a lower and an upper bound of every value whose active value lies
      in the window, each attained by such a value or equal to its start. */
  lemma MinMaxInRangeSpec(active: seq<real>, prop: seq<Num>, minCases: real, maxCases: real)
    ensures var m := MinMaxInRange(active, prop, minCases, maxCases);
      && ((forall i :: 0 <= i < |active| && i < |prop| ==> !InRange(active[i], minCases, maxCases)) ==> m == Start)
      && (m.0.NaN? <==> exists i :: 0 <= i < |active| && i < |prop| && InRange(active[i], minCases, maxCases) && prop[i].NaN?)
      && (m.1.NaN? <==> m.0.NaN?)
      && (!m.0.NaN? ==> forall i :: 0 <= i < |active| && i < |prop| && InRange(active[i], minCases, maxCases) ==>
            Le(m.0, prop[i]) && Le(prop[i], m.1))
      && (m.0.NaN? || m.0 == Start.0 || exists i :: 0 <= i < |active| && i < |prop| && InRange(active[i], minCases, maxCases) && m.0 == prop[i])
      && (m.1.NaN? || m.1 == Start.1 || exists i :: 0 <= i < |active| && i < |prop| && InRange(active[i], minCases, maxCases) && m.1 == prop[i])
  {
    var n := Overlap(active, prop);
    FoldBounds(active, prop, minCases, maxCases, n);
    FoldAttained(active, prop, minCases, maxCases, n);
    forall i ensures Counted(active, minCases, maxCases, n, i) <==> (0 <= i < |active| && i < |prop| && InRange(active[i], minCases, maxCases)) {
    }
  }

  /** The values a Prop names in a stats record. */
  function PropSeries(stats: StatsT, prop: Prop): seq<Num>
  {
    match prop
    case R => stats.r
    case RollingDeaths => seq(|stats.rollingDeaths|, i requires 0 <= i < |stats.rollingDeaths| => Finite(stats.rollingDeaths[i]))
  }

  /** For thirty days of 100 cases with 7-day averages and a 14-day active window, a cases window
      holding every active value makes the range of R, as written, NaN at both ends, where the
      limited range is exactly [1, 1]. */
  lemma SteadyRangeOfR(raw: CountryData, views: map<string, DefaultView>)
    requires |raw.cases| == 30 && |raw.deaths| == 30
    requires forall k :: 0 <= k < 30 ==> raw.cases[k] == 100.0
    ensures var s := StatsOf(raw, 7, 7, 14, views);
      && MinMaxAsWritten(s.active, s.r, 1000.0, 10000.0) == (NaN, NaN)
      && MinMaxInRange(s.active, s.r, 1000.0, 10000.0) == (Finite(1.0), Finite(1.0))
  {
    var s := StatsOf(raw, 7, 7, 14, views);
    EndToEndExample(raw, views);
    AsWrittenReadsPastEnd(s.active, s.r, 1000.0, 10000.0, 9);
    MinMaxInRangeSpec(s.active, s.r, 1000.0, 10000.0);
    assert Counted(s.active, 1000.0, 10000.0, 9, 0);
    MinValuePositive();
  }

  /** One tick past x rounded toward zero lies above x, whatever the sign of x. */
  lemma TickAbove(x: real, d: real)
    requires d > 0.0
    ensures Trunc(x / d) as real * d + d > x
    ensures (1.0 + Trunc(x / d) as real) * d == Trunc(x / d) as real * d + d
  {
    var y := x / d;
    var t := Trunc(y) as real;
    DivMul(x, d);
    MulPos(t + 1.0 - y, d);
    assert (t + 1.0 - y) * d == t * d + d - y * d;
  }

  /** A non-negative x rounded toward zero to a multiple of the tick does not exceed x. */
  lemma TickBelow(x: real, d: real)
    requires d > 0.0 && x >= 0.0
    ensures Trunc(x / d) as real * d <= x
  {
    var y := x / d;
    var t := Trunc(y) as real;
    DivMul(x, d);
    DivNonNeg(x, d);
    assert t <= y;
    MulNonNeg(y - t, d);
    assert (y - t) * d == y * d - t * d;
  }

  /** A negative x rounded toward zero to a multiple of the tick lies at or above x, less than a
      tick above it. */
  lemma TickAboveNegative(x: real, d: real)
    requires d > 0.0 && x < 0.0
    ensures x <= Trunc(x / d) as real * d < x + d
  {
    var y := x / d;
    var t := Trunc(y) as real;
    DivMul(x, d);
    assert y < 0.0 by {
      if y >= 0.0 {
        MulNonNeg(y, d);
      }
    }
    assert t - 1.0 < y <= t;
    MulAtMost(y, t, d);
    MulLess(t, y + 1.0, d);
    PlusOneTimes(y, d);
    assert t * d < x + d;
    assert t == Trunc(x / d) as real;
  }

  lemma MulAtMost(a: real, b: real, d: real)
    requires a <= b && d > 0.0
    ensures a * d <= b * d
  {
    MulNonNeg(b - a, d);
    assert (b - a) * d == b * d - a * d;
  }

  lemma MulLess(a: real, b: real, d: real)
    requires a < b && d > 0.0
    ensures a * d < b * d
  {
    MulPos(b - a, d);
    assert (b - a) * d == b * d - a * d;
  }

  lemma PlusOneTimes(y: real, d: real)
    ensures (y + 1.0) * d == y * d + d
  {
  }

  lemma DivMul(x: real, d: real)
    requires d != 0.0
    ensures (x / d) * d == x
  {
  }

  lemma MulPos(a: real, d: real)
    requires a > 0.0 && d > 0.0
    ensures a * d > 0.0
  {
  }

  lemma MulNonNeg(a: real, d: real)
    requires a >= 0.0 && d > 0.0
    ensures a * d >= 0.0
  {
  }

  lemma DivNonNeg(x: real, d: real)
    requires x >= 0.0 && d > 0.0
    ensures x / d >= 0.0
  {
  }

  /** v is a whole number of ticks d. */
  predicate IsWholeTicks(v: real, d: real)
    requires d > 0.0
  {
    (v / d).Floor as real == v / d
  }

  /** An integer number of ticks is a whole number of ticks. */
  lemma WholeTicks(k: int, d: real)
    requires d > 0.0
    ensures IsWholeTicks(k as real * d, d)
  {
    var t := k as real;
    var q := (t * d) / d;
    assert q == t;
    assert q.Floor == k;
    assert q.Floor as real == q;
    assert q == (k as real * d) / d;
  }

  /** `Math.trunc(x/dtick)*dtick`: x rounded toward zero to a multiple of the tick. A quotient
      x/dtick too large for a double is an infinity, and so is the result. */
  function TickFloor(x: Num, dtick: real): (lo: Num)
    requires dtick > 0.0
    ensures lo.NaN? <==> x.NaN?
    ensures x.Finite? && x.v / dtick >= OverflowBound ==> lo == PosInf
    ensures x.Finite? && x.v / dtick <= -OverflowBound ==> lo == NegInf
    ensures !x.Finite? ==> lo == x
  {
    Times(TruncNum(DivBy(x, dtick)), dtick)
  }

  /** Where x/dtick does not overflow, the low end is the truncated quotient times the tick. */
  lemma TickFloorValue(x: Num, dtick: real)
    requires dtick > 0.0 && x.Finite? && -OverflowBound < x.v / dtick < OverflowBound
    ensures TickFloor(x, dtick) == Finite(Trunc(x.v / dtick) as real * dtick)
  {
  }

  /** A finite low end is a whole number of ticks. */
  lemma TickFloorWhole(x: Num, dtick: real)
    requires dtick > 0.0
    ensures TickFloor(x, dtick).Finite? ==> IsWholeTicks(TickFloor(x, dtick).v, dtick)
  {
    if TickFloor(x, dtick).Finite? {
      TickFloorValue(x, dtick);
      var k := Trunc(x.v / dtick);
      WholeTicks(k, dtick);
      assert IsWholeTicks(k as real * dtick, dtick);
      assert TickFloor(x, dtick).v == k as real * dtick;
    }
  }

  /** Where x/dtick does not overflow, the low end lies within one tick below a non-negative x
      and within one tick above a negative x. */
  lemma TickFloorNear(x: Num, dtick: real)
    requires dtick > 0.0
    ensures x.Finite? && x.v >= 0.0 && x.v / dtick < OverflowBound ==>
      var lo := TickFloor(x, dtick); lo.Finite? && lo.v <= x.v < lo.v + dtick
    ensures x.Finite? && x.v < 0.0 && x.v / dtick > -OverflowBound ==>
      var lo := TickFloor(x, dtick); lo.Finite? && x.v <= lo.v < x.v + dtick
  {
    if x.Finite? && -OverflowBound < x.v / dtick < OverflowBound {
      TickFloorValue(x, dtick);
      TickFloorBounds(x.v, dtick);
    }
  }

  lemma TickFloorBounds(x: real, d: real)
    requires d > 0.0
    ensures x >= 0.0 ==> Trunc(x / d) as real * d <= x < Trunc(x / d) as real * d + d
    ensures x < 0.0 ==> x <= Trunc(x / d) as real * d < x + d
  {
    if x >= 0.0 {
      TickAbove(x, d);
      TickBelow(x, d);
    } else {
      TickAboveNegative(x, d);
    }
  }

  /** `Math.min((1 + Math.trunc(x/dtick))*dtick, 5)`: one tick past x rounded toward zero, capped
      at 5. An overflowing quotient gives 5 for a large x and -Infinity for a very negative x. */
  function TickCeilCapped(x: Num, dtick: real): (hi: Num)
    requires dtick > 0.0
    ensures hi.NaN? <==> x.NaN?
    ensures !hi.NaN? ==> Le(hi, Finite(5.0))
    ensures x.Finite? && x.v / dtick >= OverflowBound ==> hi == Finite(5.0)
    ensures x.Finite? && x.v / dtick <= -OverflowBound ==> hi == NegInf
  {
    Min(Times(Plus(1.0, TruncNum(DivBy(x, dtick))), dtick), Finite(5.0))
  }

  /** Unless x/dtick overflows downwards, the high end is 5 or above x; for a non-negative x it is
      5 or at most one tick above x. */
  lemma TickCeilNear(x: Num, dtick: real)
    requires dtick > 0.0
    ensures x.Finite? && x.v / dtick > -OverflowBound ==>
      var hi := TickCeilCapped(x, dtick); hi == Finite(5.0) || (hi.Finite? && hi.v > x.v)
    ensures x.Finite? && x.v >= 0.0 ==>
      var hi := TickCeilCapped(x, dtick); hi == Finite(5.0) || (hi.Finite? && hi.v <= x.v + dtick)
  {
    if x.Finite? && -OverflowBound < x.v / dtick < OverflowBound {
      var k := Trunc(x.v / dtick);
      assert TickCeilCapped(x, dtick) == Min(Finite((1.0 + k as real) * dtick), Finite(5.0));
      TickCeilBounds(x.v, dtick);
    }
  }

  lemma TickCeilBounds(x: real, d: real)
    requires d > 0.0
    ensures var hi := (1.0 + Trunc(x / d) as real) * d;
      && hi > x
      && (x >= 0.0 ==> hi <= x + d)
  {
    TickAbove(x, d);
    if x >= 0.0 {
      TickBelow(x, d);
    }
  }

  /** With no active value in the cases window the range starts from the pair
      [MAX_VALUE, MIN_VALUE]; with a tick of 0.25, MAX_VALUE/0.25 overflows, so the low end is
      +Infinity, while the high end is one tick. */
  lemma EmptyWindowRange()
    ensures TickFloor(Start.0, 0.25) == PosInf
    ensures TickCeilCapped(Start.1, 0.25) == Finite(0.25)
  {
    MinValuePositive();
    assert MaxValue / 0.25 == 4.0 * MaxValue;
    assert Trunc(MinValue / 0.25) == 0;
  }

  /** Rounding toward zero lifts a negative minimum: -0.3 with a tick of 0.25 becomes -0.25, so
      the lower end of the axis lies above the smallest value plotted. */
  lemma NegativeMinimumClipped()
    ensures TickFloor(Finite(-0.3), 0.25) == Finite(-0.25)
    ensures TickFloor(Finite(-0.3), 0.25).v > -0.3
  {
    assert Trunc(-0.3 / 0.25) == -1;
  }

  class GraphBase {
    const displayName: string
    const dataSource: DataSourceImpl
    const casesAveraging: nat
    const deathsAveraging: nat
    const activeWindow: nat
    /** The per-country default views the statistics look up. */
    const views: map<string, DefaultView>
    const fontSize: FontSize
    const markerSize: MarkerSize

    var rawData: Option<CountryData>
    var stats: Option<StatsT>
    var colors: seq<Color>
    var dateLabels: seq<Label>
    var markerSizes: seq<int>

    /** The display arrays are those derived from stats. */
    predicate ShowsStats(s: StatsT)
      reads this
    {
      && colors == Colors(s.r)
      && dateLabels == DateLabels(s.rawData.dates, activeWindow)
      && markerSizes == MarkerSizes(|s.active|, markerSize.large, markerSize.small)
    }

    /** Statistics exist exactly for a selected country, are those of its data, and the display
        arrays are derived from them; before any country is selected the arrays are empty. */
    predicate Consistent()
      reads this
    {
      && casesAveraging >= 1 && deathsAveraging >= 1
      && (rawData.Some? <==> stats.Some?)
      && (stats.Some? ==>
            stats.value == StatsOf(rawData.value, casesAveraging, deathsAveraging, activeWindow, views) &&
            ShowsStats(stats.value))
      && (stats.None? ==> colors == [] && dateLabels == [] && markerSizes == [])
    }

    /** The extra-small view port gets smaller fonts and markers. */
    constructor(displayName: string, dataSource: DataSourceImpl, casesAveraging: nat, deathsAveraging: nat,
                activeWindow: nat, viewPort: ViewPort, views: map<string, DefaultView>)
      requires casesAveraging >= 1 && deathsAveraging >= 1
      ensures Consistent() && rawData.None?
      ensures this.displayName == displayName && this.dataSource == dataSource && this.views == views
      ensures this.casesAveraging == casesAveraging && this.deathsAveraging == deathsAveraging
      ensures this.activeWindow == activeWindow
      ensures viewPort == XSmall ==> fontSize == FontSize(10, 12, 8, 10, 8) && markerSize == MarkerSize(5, 10)
      ensures viewPort != XSmall ==> fontSize == FontSize(12, 17, 12, 11, 14) && markerSize == MarkerSize(10, 20)
    {
      this.displayName := displayName;
      this.dataSource := dataSource;
      this.casesAveraging := casesAveraging;
      this.deathsAveraging := deathsAveraging;
      this.activeWindow := activeWindow;
      this.views := views;
      if viewPort == XSmall {
        fontSize := FontSize(10, 12, 8, 10, 8);
        markerSize := MarkerSize(5, 10);
      } else {
        fontSize := FontSize(12, 17, 12, 11, 14);
        markerSize := MarkerSize(10, 20);
      }
      rawData := None;
      stats := None;
      colors := [];
      dateLabels := [];
      markerSizes := [];
    }

    /** setCountry: a country the source does not know changes nothing; otherwise it becomes the
        selected country and everything is recomputed from its data. */
    method SetCountry(country: string)
      requires Consistent()
      modifies this
      ensures Consistent()
      ensures dataSource.GetCountryData(country).None? ==> unchanged(this)
      ensures dataSource.GetCountryData(country).Some? ==>
        rawData == dataSource.GetCountryData(country) &&
        stats == Some(StatsOf(rawData.value, casesAveraging, deathsAveraging, activeWindow, views))
    {
      var data := dataSource.GetCountryData(country);
      if data.Some? {
        rawData := data;
        CalcStats();
      }
    }

    /** calcStats: nothing without a selected country; otherwise the statistics of its data and the
        display arrays derived from them. */
    method CalcStats()
      requires casesAveraging >= 1 && deathsAveraging >= 1
      modifies this
      ensures old(rawData).None? ==> unchanged(this)
      ensures rawData == old(rawData)
      ensures rawData.Some? ==>
        stats == Some(StatsOf(rawData.value, casesAveraging, deathsAveraging, activeWindow, views)) &&
        ShowsStats(stats.value)
    {
      if rawData.Some? {
        var s := GetStats(rawData.value, casesAveraging, deathsAveraging, activeWindow, views);
        stats := Some(s);
        CalcGraphData(s);
      }
    }

    /** calcGraphData, for the arrays this model keeps. */
    method CalcGraphData(s: StatsT)
      modifies this
      ensures ShowsStats(s)
      ensures rawData == old(rawData) && stats == old(stats)
    {
      SetColors(s);
      SetDateLabels(s);
      SetMarkerSize(s);
    }

    method SetColors(s: StatsT)
      modifies this
      ensures colors == Colors(s.r)
      ensures rawData == old(rawData) && stats == old(stats)
      ensures dateLabels == old(dateLabels) && markerSizes == old(markerSizes)
    {
      colors := Colors(s.r);
    }

    method SetDateLabels(s: StatsT)
      modifies this
      ensures dateLabels == DateLabels(s.rawData.dates, activeWindow)
      ensures rawData == old(rawData) && stats == old(stats)
      ensures colors == old(colors) && markerSizes == old(markerSizes)
    {
      dateLabels := DateLabels(s.rawData.dates, activeWindow);
    }

    method SetMarkerSize(s: StatsT)
      modifies this
      ensures markerSizes == MarkerSizes(|s.active|, markerSize.large, markerSize.small)
      ensures rawData == old(rawData) && stats == old(stats)
      ensures colors == old(colors) && dateLabels == old(dateLabels)
    {
      markerSizes := MarkerSizes(|s.active|, markerSize.large, markerSize.small);
    }

    /** minMaxInActiveCasesRange for the window [minCases, maxCases] (the powers of ten of the log
        range): null without statistics; otherwise the extremes of prop over the days whose active
        value lies in the window, the starting pair when there is none. */
    function MinMaxInActiveCasesRange(minCases: real, maxCases: real, prop: Prop): (range: Option<(Num, Num)>)
      reads this
      ensures range.None? <==> stats.None?
      ensures range.Some? ==>
        var active, values := stats.value.active, PropSeries(stats.value, prop);
        && ((forall i :: 0 <= i < |active| && i < |values| ==> !InRange(active[i], minCases, maxCases)) ==> range.value == Start)
        && (!range.value.0.NaN? ==> forall i :: 0 <= i < |active| && i < |values| && InRange(active[i], minCases, maxCases) ==>
              Le(range.value.0, values[i]) && Le(values[i], range.value.1))
    {
      if stats.None? then None
      else
        MinMaxInRangeSpec(stats.value.active, PropSeries(stats.value, prop), minCases, maxCases);
        Some(MinMaxInRange(stats.value.active, PropSeries(stats.value, prop), minCases, maxCases))
    }

    /** rRange: the range of R rounded out to the tick dtick and capped at 5: null exactly when
        there are no statistics; the low end a multiple of dtick, within a tick below a
        non-negative minimum, or +Infinity when the minimum over the tick overflows (as it does
        for the starting pair); the high end at most 5 and otherwise above the maximum. */
    method RRange(minCases: real, maxCases: real, dtick: real) returns (range: Option<(Num, Num)>)
      requires dtick > 0.0
      ensures range.None? <==> stats.None?
      ensures range.Some? ==>
        var m := MinMaxInActiveCasesRange(minCases, maxCases, R).value;
        var (lo, hi) := range.value;
        && (lo.NaN? <==> m.0.NaN?) && (hi.NaN? <==> m.1.NaN?)
        && (lo.Finite? ==> IsWholeTicks(lo.v, dtick))
        && (m.0.Finite? && m.0.v >= 0.0 && m.0.v / dtick < OverflowBound ==> lo.Finite? && lo.v <= m.0.v < lo.v + dtick)
        && (m.0.Finite? && m.0.v / dtick >= OverflowBound ==> lo == PosInf)
        && (!hi.NaN? ==> Le(hi, Finite(5.0)))
        && (m.1.Finite? && m.1.v / dtick > -OverflowBound ==> hi == Finite(5.0) || (hi.Finite? && hi.v > m.1.v))
      ensures range.Some? ==>
        var m := MinMaxInActiveCasesRange(minCases, maxCases, R).value;
        range.value == (TickFloor(m.0, dtick), TickCeilCapped(m.1, dtick))
    {
      var m := MinMaxInActiveCasesRange(minCases, maxCases, R);
      if m.None? {
        return None;
      }
      var lo, hi := m.value.0, m.value.1;
      TickFloorWhole(lo, dtick);
      TickFloorNear(lo, dtick);
      TickCeilNear(hi, dtick);
      lo := TickFloor(lo, dtick);
      hi := TickCeilCapped(hi, dtick);
      range := Some((lo, hi));
    }
  }
}
