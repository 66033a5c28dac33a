/** Battery arithmetic: voltage to percent by interpolation over a table, then smoothing and hysteresis.
    Averages are exact rationals here. */
module Battery {
  import opened Bytes

  // ---------- the table

  datatype Entry = Entry(voltageMv: u16, percent: byte)

  type Table = seq<Entry>

  /** Strictly falling voltages, percents that do not rise and stay within 0..100. */
  predicate Descending(t: Table) {
    && t != []
    && (forall i, j :: 0 <= i < j < |t| ==> t[i].voltageMv > t[j].voltageMv)
    && (forall i, j :: 0 <= i < j < |t| ==> t[i].percent >= t[j].percent)
    && forall i :: 0 <= i < |t| ==> t[i].percent <= 100
  }

  /** x/d of a, rounded down. */
  function Fraction(a: nat, x: nat, d: nat): (r: nat)
    requires d > 0
  {
    Product(a, x) / d
  }

  function Product(a: nat, x: nat): nat {
    a * x
  }

  /** The straight line between two neighbouring entries, rounded down. */
  function Between(higher: Entry, lower: Entry, v: nat): (p: nat)
    requires higher.voltageMv > lower.voltageMv && higher.percent >= lower.percent && v >= lower.voltageMv
  {
    lower.percent + Fraction(higher.percent - lower.percent, v - lower.voltageMv, higher.voltageMv - lower.voltageMv)
  }

  /** The first entry at or after i that does not lie above v. */
  function Below(t: Table, v: nat, i: nat): (k: nat)
    requires i < |t| && v >= t[|t| - 1].voltageMv
    ensures i <= k < |t| && t[k].voltageMv <= v
    ensures forall j :: i <= j < k ==> t[j].voltageMv > v
    decreases |t| - i
  {
    if t[i].voltageMv <= v then i else Below(t, v, i + 1)
  }

  function Percent(t: Table, v: u32): nat
    requires Descending(t)
  {
    if v >= t[0].voltageMv then 100
    else if v <= t[|t| - 1].voltageMv then 0
    else
      var k := Below(t, v, 0);
      Between(t[k - 1], t[k], v)
  }

  lemma DivMonotone(x: nat, y: nat, d: nat)
    requires x <= y && d > 0
    ensures x / d <= y / d
  {
    var p, q := x / d, y / d;
    assert d * p <= x && y < d * q + d;
    if p >= q + 1 {
      Scale(d, q + 1, p);
    }
  }

  lemma Scale(d: nat, a: nat, b: nat)
    requires a <= b
    ensures d * a <= d * b
  {
  }

  lemma FractionBounds(a: nat, x: nat, d: nat)
    requires x <= d && d > 0
    ensures Fraction(a, x, d) <= a
    ensures x == 0 ==> Fraction(a, x, d) == 0
  {
    Scale(a, x, d);
    DivMonotone(a * x, a * d, d);
    Whole(a, d);
  }

  lemma FractionMonotone(a: nat, x: nat, y: nat, d: nat)
    requires x <= y && d > 0
    ensures Fraction(a, x, d) <= Fraction(a, y, d)
  {
    Scale(a, x, y);
    DivMonotone(a * x, a * y, d);
  }

  lemma Whole(a: nat, d: nat)
    requires d > 0
    ensures a * d / d == a
  {
    var q, r := a * d / d, a * d % d;
    assert a * d == d * q + r;
    if q < a {
      Scale(d, q + 1, a);
    } else if q > a {
      Scale(d, a + 1, q);
    }
  }

  lemma LineBounds(higher: Entry, lower: Entry, v: nat)
    requires higher.voltageMv > lower.voltageMv && higher.percent >= lower.percent
    requires lower.voltageMv <= v <= higher.voltageMv
    ensures lower.percent <= Between(higher, lower, v) <= higher.percent
    ensures v == lower.voltageMv ==> Between(higher, lower, v) == lower.percent
  {
    hide Fraction;
    FractionBounds(higher.percent - lower.percent, v - lower.voltageMv, higher.voltageMv - lower.voltageMv);
  }

  lemma LineMonotone(higher: Entry, lower: Entry, v: nat, w: nat)
    requires higher.voltageMv > lower.voltageMv && higher.percent >= lower.percent
    requires lower.voltageMv <= v <= w
    ensures Between(higher, lower, v) <= Between(higher, lower, w)
  {
    hide Fraction;
    FractionMonotone(higher.percent - lower.percent, v - lower.voltageMv, w - lower.voltageMv,
        higher.voltageMv - lower.voltageMv);
  }

  lemma PercentInRange(t: Table, v: u32)
    requires Descending(t)
    ensures Percent(t, v) <= 100
  {
    hide Between;
    if t[|t| - 1].voltageMv < v < t[0].voltageMv {
      var k := Below(t, v, 0);
      LineBounds(t[k - 1], t[k], v);
    }
  }

  /** More voltage never shows less charge. */
  lemma PercentMonotone(t: Table, v: u32, w: u32)
    requires Descending(t) && v <= w
    ensures Percent(t, v) <= Percent(t, w)
  {
    hide Between;
    PercentInRange(t, v);
    PercentInRange(t, w);
    if t[|t| - 1].voltageMv < v && w < t[0].voltageMv {
      var k, m := Below(t, v, 0), Below(t, w, 0);
      LineBounds(t[k - 1], t[k], v);
      LineBounds(t[m - 1], t[m], w);
      if k == m {
        LineMonotone(t[k - 1], t[k], v, w);
      } else {
        assert m <= k - 1;
        assert t[m].percent >= t[k - 1].percent;
      }
    }
  }

  /** Every interior entry is met exactly. */
  lemma PercentHitsEntries(t: Table, i: nat)
    requires Descending(t) && 0 < i < |t| - 1
    ensures Percent(t, t[i].voltageMv) == t[i].percent
  {
    hide Between;
    var k := Below(t, t[i].voltageMv, 0);
    assert k == i;
    LineBounds(t[i - 1], t[i], t[i].voltageMv);
  }

  // ---------- smoothing and hysteresis

  datatype Config = Config(table: Table, externalBelowMv: u32, stableAfter: byte, alpha: real, hysteresis: nat)

  predicate Sane(c: Config) {
    Descending(c.table) && 0.0 <= c.alpha <= 1.0
  }

  datatype Gauge = Gauge(smoothed: real, samples: byte, percent: nat, charging: bool)

  const POWER_ON := Gauge(100.0, 0, 100, false)

  function Rounded(x: real): int {
    (x + 0.5).Floor
  }

  function Counted(samples: byte): byte {
    if samples < 255 then samples + 1 else samples
  }

  /** The first readings are averaged evenly, later ones with a fixed weight. */
  function Smoothed(g: Gauge, c: Config, raw: nat): real {
    var n := Counted(g.samples);
    Blend(if n <= c.stableAfter then 1.0 / n as real else c.alpha, raw as real, g.smoothed)
  }

  /** x with weight a, y with the rest of the weight. */
  function Blend(a: real, x: real, y: real): real {
    Times(a, x) + Times(1.0 - a, y)
  }

  function Times(a: real, x: real): real {
    a * x
  }

  function Distance(a: int, b: int): nat {
    if a < b then b - a else a - b
  }

  /** What is shown: the average once it is far enough away, or above while charging. */
  function Shown(shown: nat, average: nat, hysteresis: nat, charging: bool): nat {
    if Distance(average, shown) >= hysteresis || (charging && average > shown) then average else shown
  }

  function Update(g: Gauge, c: Config, voltageMv: u32, charging: bool): Gauge
    requires Sane(c) && 0.0 <= g.smoothed <= 100.0
  {
    if voltageMv < c.externalBelowMv then Gauge(100.0, g.samples, 100, false)
    else
      PercentInRange(c.table, voltageMv);
      SmoothedInRange(g, c, Percent(c.table, voltageMv));
      var s := Smoothed(g, c, Percent(c.table, voltageMv));
      Gauge(s, Counted(g.samples), Shown(g.percent, Rounded(s), c.hysteresis, charging), charging)
  }

  lemma Mix(x: real, y: real, a: real)
    requires 0.0 <= a <= 1.0 && 0.0 <= x <= 100.0 && 0.0 <= y <= 100.0
    ensures 0.0 <= Blend(a, x, y) <= 100.0
  {
    TimesBounds(a, x);
    TimesBounds(1.0 - a, y);
    hide Times;
  }

  lemma TimesBounds(a: real, x: real)
    requires 0.0 <= a && 0.0 <= x <= 100.0
    ensures 0.0 <= Times(a, x) <= 100.0 * a
  {
  }

  lemma SmoothedInRange(g: Gauge, c: Config, raw: nat)
    requires 0.0 <= c.alpha <= 1.0 && 0.0 <= g.smoothed <= 100.0 && raw <= 100
    ensures 0.0 <= Smoothed(g, c, raw) <= 100.0
  {
    Mix(raw as real, g.smoothed, c.alpha);
    var n := Counted(g.samples);
    Mix(raw as real, g.smoothed, 1.0 / n as real);
    hide Blend;
  }

  // ---------- runs

  datatype Reading = Reading(voltageMv: u32, charging: bool)

  predicate InRange(g: Gauge) {
    0.0 <= g.smoothed <= 100.0 && g.percent <= 100
  }

  function Run(g: Gauge, c: Config, readings: seq<Reading>): (r: Gauge)
    requires Sane(c) && InRange(g)
    ensures InRange(r)
  {
    if readings == [] then g else
      var last := readings[|readings| - 1];
      var v := Run(g, c, readings[..|readings| - 1]);
      UpdateInRange(v, c, last);
      Update(v, c, last.voltageMv, last.charging)
  }

  lemma UpdateInRange(g: Gauge, c: Config, r: Reading)
    requires Sane(c) && InRange(g)
    ensures InRange(Update(g, c, r.voltageMv, r.charging))
  {
    PercentInRange(c.table, r.voltageMv);
    SmoothedInRange(g, c, Percent(c.table, r.voltageMv));
  }

  predicate OnBattery(r: Reading, c: Config) {
    r.voltageMv >= c.externalBelowMv
  }

  /** After every battery reading of a run, what is shown is within the hysteresis of the rounded
      average, and not below it while charging; and it stays in 0..100. */
  lemma ShownFollowsAverage(g: Gauge, c: Config, readings: seq<Reading>)
    requires Sane(c) && InRange(g) && readings != []
    ensures
      var r, last := Run(g, c, readings), readings[|readings| - 1];
      && 0 <= r.percent <= 100
      && (OnBattery(last, c) && c.hysteresis > 0 ==> Distance(r.percent, Rounded(r.smoothed)) < c.hysteresis)
      && (OnBattery(last, c) && last.charging ==> r.percent >= Rounded(r.smoothed))
      && (!OnBattery(last, c) ==> r.percent == 100)
  {
  }

  /** The weight that the average still gives to what it was n stable readings ago. */
  function Fade(alpha: real, n: nat): real {
    if n == 0 then 1.0 else Times(Fade(alpha, n - 1), 1.0 - alpha)
  }

  function Steady(v: u32, charging: bool, n: nat): seq<Reading> {
    seq(n, _ => Reading(v, charging))
  }

  /** Once past the first readings, n equal ones close the gap to their percent by the same factor
      each: the average converges to what the table says. */
  lemma {:induction false} SteadyConverges(g: Gauge, c: Config, v: u32, charging: bool, n: nat)
    requires Sane(c) && InRange(g) && c.stableAfter < 255 && g.samples >= c.stableAfter && v >= c.externalBelowMv
    ensures
      var r, p := Run(g, c, Steady(v, charging, n)), Percent(c.table, v) as real;
      r.samples >= c.stableAfter && r.smoothed - p == Times(Fade(c.alpha, n), g.smoothed - p)
  {
    hide Blend;
    if n > 0 {
      SteadyConverges(g, c, v, charging, n - 1);
      assert Steady(v, charging, n)[..n - 1] == Steady(v, charging, n - 1);
      var u, p := Run(g, c, Steady(v, charging, n - 1)), Percent(c.table, v) as real;
      LaterUpdate(u, c, v, charging);
      FadeStep(c.alpha, u.smoothed, p, Fade(c.alpha, n - 1), g.smoothed - p);
      hide Update, Percent, Blend, Times;
    }
  }

  lemma LaterUpdate(g: Gauge, c: Config, v: u32, charging: bool)
    requires Sane(c) && InRange(g) && c.stableAfter < 255 && g.samples >= c.stableAfter && v >= c.externalBelowMv
    ensures
      var u := Update(g, c, v, charging);
      u.smoothed == Blend(c.alpha, Percent(c.table, v) as real, g.smoothed) && u.samples >= c.stableAfter
  {
    hide Blend, Percent;
  }

  lemma EarlyUpdate(g: Gauge, c: Config, v: u32, charging: bool)
    requires Sane(c) && InRange(g) && g.samples < c.stableAfter && v >= c.externalBelowMv
    ensures
      var u, n := Update(g, c, v, charging), g.samples + 1;
      u.smoothed == Blend(1.0 / n as real, Percent(c.table, v) as real, g.smoothed) && u.samples == n
  {
    hide Blend, Percent;
  }

  lemma FadeStep(a: real, s: real, p: real, f: real, gap: real)
    requires s - p == Times(f, gap)
    ensures Blend(a, p, s) - p == Times(Times(f, 1.0 - a), gap)
  {
    assert Blend(a, p, s) - p == (1.0 - a) * (s - p);
    assert (1.0 - a) * (f * gap) == f * (1.0 - a) * gap;
  }

  function Sum(c: Config, readings: seq<Reading>): nat
    requires Sane(c)
  {
    if readings == [] then 0
        else Sum(c, readings[..|readings| - 1]) + Percent(c.table, readings[|readings| - 1].voltageMv)
  }

  /** After power-on, until enough readings are in, the average is the plain mean of all of them. */
  lemma {:induction false} FirstReadingsAveraged(c: Config, readings: seq<Reading>)
    requires Sane(c) && |readings| <= c.stableAfter
    requires forall k :: 0 <= k < |readings| ==> OnBattery(readings[k], c)
    ensures
      var r := Run(POWER_ON, c, readings);
      r.samples == |readings| && (readings != [] ==> Times(r.smoothed, |readings| as real) == Sum(c, readings) as real)
  {
    hide Blend;
    if readings != [] {
      var init, n := readings[..|readings| - 1], |readings|;
      FirstReadingsAveraged(c, init);
      var u, p := Run(POWER_ON, c, init), Percent(c.table, readings[n - 1].voltageMv);
      EarlyUpdate(u, c, readings[n - 1].voltageMv, readings[n - 1].charging);
      MeanStep(u.smoothed, n, p as real);
      hide Update, Percent, Blend, Times;
    }
  }

  lemma MeanStep(s: real, n: nat, p: real)
    requires n > 0
    ensures Times(Blend(1.0 / n as real, p, s), n as real) == Times(s, (n - 1) as real) + p
  {
    var x := n as real;
    assert x * (1.0 / x) == 1.0;
    assert Blend(1.0 / x, p, s) * x == s * (x - x * (1.0 / x)) + p * (x * (1.0 / x));
  }

  // ---------- between the entries, and between the readings

  /** At or above the first entry the gauge is full, at or below the last one it is empty, and in between the
      percent is the straight line between the two neighbouring entries, rounded down: less than one percent below
      it, and never above. */
  lemma OnTheLine(t: Table, v: u32, k: nat)
    requires Descending(t)
    ensures v >= t[0].voltageMv ==> Percent(t, v) == 100
    ensures v < t[0].voltageMv && v <= t[|t| - 1].voltageMv ==> Percent(t, v) == 0
    ensures
      0 < k < |t| && t[k].voltageMv <= v < t[k - 1].voltageMv && v > t[|t| - 1].voltageMv ==>
        var width, rise := t[k - 1].voltageMv - t[k].voltageMv, t[k - 1].percent - t[k].percent;
        var above := Percent(t, v) - t[k].percent;
        above * width <= rise * (v - t[k].voltageMv) < (above + 1) * width
  {
    if 0 < k < |t| && t[k].voltageMv <= v < t[k - 1].voltageMv && v > t[|t| - 1].voltageMv {
      assert v < t[0].voltageMv;
      assert Below(t, v, 0) == k;
      FloorOf(Product(t[k - 1].percent - t[k].percent, v - t[k].voltageMv), t[k - 1].voltageMv - t[k].voltageMv);
    }
  }

  lemma FloorOf(x: nat, d: nat)
    requires d > 0
    ensures Product(x / d, d) <= x < Product(x / d + 1, d)
  {
    assert x == d * (x / d) + x % d;
  }

  lemma RoundedNear(x: real)
    ensures Rounded(x) as real - 0.5 <= x < Rounded(x) as real + 0.5
  {
  }

  /** A battery reading that moves the rounded average by less than the hysteresis away from what is shown leaves
      the display alone, unless the battery charges and the average is above; any other shows the average. */
  lemma SmallMovesStay(g: Gauge, c: Config, v: u32, charging: bool)
    requires Sane(c) && InRange(g) && v >= c.externalBelowMv
    ensures
      var r := Update(g, c, v, charging);
      var average := Rounded(r.smoothed);
      && r.charging == charging
      && r.percent == if g.percent - c.hysteresis < average < g.percent + c.hysteresis
                         && !(charging && average > g.percent) then g.percent else average
  {
    hide Percent, Smoothed;
    UpdateInRange(g, c, Reading(v, charging));
  }

  /** On external power the gauge shows full and not charging, forgets the average, and keeps its count. */
  lemma ExternalPowerShowsFull(g: Gauge, c: Config, v: u32, charging: bool)
    requires Sane(c) && InRange(g) && v < c.externalBelowMv
    ensures
      var r := Update(g, c, v, charging);
      r.percent == 100 && !r.charging && r.smoothed == 100.0 && r.samples == g.samples
  {
  }
}
