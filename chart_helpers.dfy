/**
 * The helper functions of the exploratory-analysis page: `findPeakYear`, the guard and
 * operands of `calculateCAGR`, and `generateData`'s series of simulated points.
 *
 * A chart entry is a JSON object with an optional `year` and numeric fields by name.
 * `Math.random()` is the parameter `random` (its i-th draw), and the current year is a
 * parameter.
 */
module ChartHelpers {
  import opened Wrappers

  datatype ChartEntry = ChartEntry(year: Option<int>, values: map<string, real>)

  /**
   * A chart entry stands for one JavaScript object only when its `year` field is kept in
   * `year` and not also among the other fields.
   */
  predicate WellFormedEntry(entry: ChartEntry) {
    "year" !in entry.values
  }

  /** `entry[metric]`, undefined (`None`) when the entry has no such field. */
  function MetricOf(entry: ChartEntry, metric: string): Option<real> {
    if metric == "year" then (if entry.year.Some? then Some(entry.year.value as real) else None)
    else if metric in entry.values then Some(entry.values[metric])
    else None
  }

  /**
   * A well-formed entry is determined by what its fields read: two entries that give the
   * same value (or none) for every name are the same entry.
   */
  lemma EntryDeterminedByFields(a: ChartEntry, b: ChartEntry)
    requires WellFormedEntry(a) && WellFormedEntry(b)
    requires forall name :: MetricOf(a, name) == MetricOf(b, name)
    ensures a == b
  {
    assert MetricOf(a, "year") == MetricOf(b, "year");
    if a.year.Some? && b.year.Some? {
      assert a.year.value as real == b.year.value as real;
    }
    forall name | name in a.values
      ensures name in b.values && b.values[name] == a.values[name]
    {
      assert MetricOf(a, name) == MetricOf(b, name);
    }
    forall name | name in b.values
      ensures name in a.values
    {
      assert MetricOf(a, name) == MetricOf(b, name);
    }
    assert a.values == b.values;
  }

  /** JavaScript's `a > b` on numbers that may be undefined: false when either one is. */
  predicate Greater(a: Option<real>, b: Option<real>) {
    a.Some? && b.Some? && a.value > b.value
  }

  /** Every entry has a numeric field named `metric`. */
  predicate AllDefined(data: seq<ChartEntry>, metric: string) {
    forall i :: 0 <= i < |data| ==> MetricOf(data[i], metric).Some?
  }

  /**
   * `data.reduce((max, curr) => curr[metric] > max[metric] ? curr : max, data[0])` over the
   * first `n` entries, as the index of the entry it keeps.
   */
  function PeakIndex(data: seq<ChartEntry>, metric: string, n: nat): (k: nat)
    requires 0 < n <= |data|
    ensures k < n
  {
    if n == 1 then 0
    else
      var best := PeakIndex(data, metric, n - 1);
      if Greater(MetricOf(data[n - 1], metric), MetricOf(data[best], metric)) then n - 1 else best
  }

  /** The reference definition: `k` is the first index holding the largest value. */
  predicate IsFirstMaximum(data: seq<ChartEntry>, metric: string, k: nat)
    requires AllDefined(data, metric)
  {
    && k < |data|
    && (forall i :: 0 <= i < |data| ==> MetricOf(data[i], metric).value <= MetricOf(data[k], metric).value)
    && (forall i :: 0 <= i < k ==> MetricOf(data[i], metric).value < MetricOf(data[k], metric).value)
  }

  /** The kept entry's value is at least every value among the first `n`. */
  lemma {:induction false} PeakIsMaximum(data: seq<ChartEntry>, metric: string, n: nat)
    requires 0 < n <= |data| && AllDefined(data, metric)
    ensures forall i :: 0 <= i < n ==>
      MetricOf(data[i], metric).value <= MetricOf(data[PeakIndex(data, metric, n)], metric).value
  {
    if n > 1 {
      PeakIsMaximum(data, metric, n - 1);
    }
  }

  /** Ties keep the earliest entry: every entry before the kept one has a strictly smaller value. */
  lemma {:induction false} PeakIsFirst(data: seq<ChartEntry>, metric: string, n: nat)
    requires 0 < n <= |data| && AllDefined(data, metric)
    ensures forall i :: 0 <= i < PeakIndex(data, metric, n) ==>
      MetricOf(data[i], metric).value < MetricOf(data[PeakIndex(data, metric, n)], metric).value
  {
    if n > 1 {
      PeakIsFirst(data, metric, n - 1);
      PeakIsMaximum(data, metric, n - 1);
    }
  }

  /**
   * Without assuming every entry carries the metric. When `data[0]` lacks it, every
   * comparison `curr[metric] > undefined` is false and the reduce keeps `data[0]`. When
   * `data[0]` has it, the kept entry has it too and is the first maximum among the
   * entries that carry the metric; entries without it are never kept.
   */
  lemma {:induction false} PeakAmongDefined(data: seq<ChartEntry>, metric: string, n: nat)
    requires 0 < n <= |data|
    ensures MetricOf(data[0], metric).None? ==> PeakIndex(data, metric, n) == 0
    ensures MetricOf(data[0], metric).Some? ==>
      var k := PeakIndex(data, metric, n);
      && MetricOf(data[k], metric).Some?
      && (forall i :: 0 <= i < n && MetricOf(data[i], metric).Some? ==>
            MetricOf(data[i], metric).value <= MetricOf(data[k], metric).value)
      && (forall i :: 0 <= i < k && MetricOf(data[i], metric).Some? ==>
            MetricOf(data[i], metric).value < MetricOf(data[k], metric).value)
  {
    if n > 1 {
      PeakAmongDefined(data, metric, n - 1);
    }
  }

  /** Over the whole array the reduce keeps exactly the first maximum, and there is only one. */
  lemma PeakIndexIsFirstMaximum(data: seq<ChartEntry>, metric: string, k: nat)
    requires |data| > 0 && AllDefined(data, metric)
    ensures IsFirstMaximum(data, metric, PeakIndex(data, metric, |data|))
    ensures IsFirstMaximum(data, metric, k) <==> k == PeakIndex(data, metric, |data|)
  {
    PeakIsMaximum(data, metric, |data|);
    PeakIsFirst(data, metric, |data|);
  }

  datatype PeakYear = NotAvailable | Year(year: int)

  /** `maxEntry.year || 'N/A'`: a missing year and the year 0 are falsy. */
  predicate TruthyYear(year: Option<int>) {
    year.Some? && year.value != 0
  }

  /**
   * `findPeakYear(data, metric)`; `None` stands for missing data (null or undefined).
   * A year it answers is a truthy year that some entry of the data carries.
   */
  function FindPeakYear(data: Option<seq<ChartEntry>>, metric: string): (r: PeakYear)
    ensures data.None? || data.value == [] ==> r == NotAvailable
    ensures r.Year? ==> r.year != 0 && exists k :: 0 <= k < |data.value| && data.value[k].year == Some(r.year)
  {
    if data.None? || |data.value| == 0 then NotAvailable
    else
      var entry := data.value[PeakIndex(data.value, metric, |data.value|)];
      if TruthyYear(entry.year) then Year(entry.year.value) else NotAvailable
  }

  /**
   * 'N/A' for missing or empty data or a falsy year on the kept entry; otherwise the year
   * of the first entry whose value is the largest.
   */
  lemma FindPeakYearSpec(data: Option<seq<ChartEntry>>, metric: string)
    ensures data.None? || data.value == [] ==> FindPeakYear(data, metric) == NotAvailable
    ensures data.Some? && data.value != [] && AllDefined(data.value, metric) ==>
      exists k: nat :: IsFirstMaximum(data.value, metric, k) &&
        FindPeakYear(data, metric) == (if TruthyYear(data.value[k].year) then Year(data.value[k].year.value) else NotAvailable)
  {
    if data.Some? && data.value != [] && AllDefined(data.value, metric) {
      var p := PeakIndex(data.value, metric, |data.value|);
      PeakIndexIsFirstMaximum(data.value, metric, p);
    }
  }

  /**
   * What `calculateCAGR` does: the literal 0, or the growth rate computed from a start
   * value, an end value and a number of periods (the floating-point formula itself is
   * not modelled).
   */
  datatype Cagr = Zero | Rate(start: real, end: real, periods: nat)

  /** `value || 1`: undefined and 0 are falsy and become 1. */
  function OrOne(v: Option<real>): real {
    if v.None? || v.value == 0.0 then 1.0 else v.value
  }

  /**
   * 0 when data is missing or has fewer than two entries; otherwise the first and last
   * values, neither of them 0, so the division is defined, and at least one period.
   */
  function CagrOperands(data: Option<seq<ChartEntry>>, metric: string): (c: Cagr)
    ensures c.Zero? <==> data.None? || |data.value| < 2
    ensures c.Rate? ==> c.start != 0.0 && c.end != 0.0 && c.periods == |data.value| - 1 && c.periods >= 1
    ensures c.Rate? && TruthyNumber(MetricOf(data.value[0], metric)) ==> c.start == MetricOf(data.value[0], metric).value
    ensures c.Rate? && TruthyNumber(MetricOf(data.value[|data.value| - 1], metric)) ==>
      c.end == MetricOf(data.value[|data.value| - 1], metric).value
    ensures c.Rate? && !TruthyNumber(MetricOf(data.value[0], metric)) ==> c.start == 1.0
    ensures c.Rate? && !TruthyNumber(MetricOf(data.value[|data.value| - 1], metric)) ==> c.end == 1.0
  {
    if data.None? || |data.value| < 2 then Zero
    else
      var d := data.value;
      Rate(OrOne(MetricOf(d[0], metric)), OrOne(MetricOf(d[|d| - 1], metric)), |d| - 1)
  }

  /** A number that is defined and not 0 (JavaScript truthiness, NaN aside). */
  predicate TruthyNumber(v: Option<real>) {
    v.Some? && v.value != 0.0
  }

  /** The `baseValues` table of `generateData`: base and variance per metric. */
  datatype Spread = Spread(base: int, variance: int)

  /** The table's own entries. */
  function BaseValues(metric: string): Option<Spread> {
    if metric == "trade" then Some(Spread(50, 15))
    else if metric == "defense" then Some(Spread(20, 8))
    else if metric == "alliances" then Some(Spread(5, 3))
    else None
  }

  /** The number of simulated points: ten for "decade", five for any other time range. */
  function PointCount(timeRange: string): nat {
    if timeRange == "decade" then 10 else 5
  }

  /** The year of point `i`. */
  function PointYear(timeRange: string, currentYear: int, i: int): int {
    currentYear - (if timeRange == "decade" then 9 - i else 4 - i)
  }

  /** `Math.floor(base + Math.random() * variance * (i + 1))`. */
  function SimulatedValue(s: Spread, draw: real, i: nat): int {
    (s.base as real + draw * (s.variance * (i + 1)) as real).Floor
  }

  /** A simulated point `{ year, [metric]: value }`. */
  datatype GeneratedPoint = GeneratedPoint(year: int, metric: string, value: int)

  /** `generateData(metric, timeRange)`, with the metric guard as it was meant to be. */
  function GenerateData(metric: string, timeRange: string, currentYear: int, random: nat -> real)
    : (r: Option<seq<GeneratedPoint>>)
    ensures r.Some? ==> forall i :: 0 <= i < |r.value| ==> r.value[i].year <= currentYear && r.value[i].metric == metric
  {
    match BaseValues(metric)
    case None => None
    case Some(s) =>
      var points := seq(PointCount(timeRange), (i: nat) =>
        GeneratedPoint(PointYear(timeRange, currentYear, i), metric, SimulatedValue(s, random(i), i)));
      assert forall i :: 0 <= i < |points| ==> points[i].year == PointYear(timeRange, currentYear, i);
      Some(points)
  }

  /**
   * null exactly for a metric other than trade, defense or alliances; otherwise ten
   * points for "decade" and five otherwise, in consecutive ascending years ending with
   * the current year, each carrying only the requested metric.
   */
  lemma GenerateDataShape(metric: string, timeRange: string, currentYear: int, random: nat -> real)
    ensures GenerateData(metric, timeRange, currentYear, random).None? <==>
      metric != "trade" && metric != "defense" && metric != "alliances"
    ensures GenerateData(metric, timeRange, currentYear, random).Some? ==>
      var points := GenerateData(metric, timeRange, currentYear, random).value;
      && |points| == (if timeRange == "decade" then 10 else 5)
      && points[|points| - 1].year == currentYear
      && (forall i :: 0 <= i < |points| - 1 ==> points[i + 1].year == points[i].year + 1)
      && (forall i :: 0 <= i < |points| ==> points[i].metric == metric)
  {
    match BaseValues(metric)
    case None =>
    case Some(s) =>
      var points := GenerateData(metric, timeRange, currentYear, random).value;
      forall i | 0 <= i < |points|
        ensures points[i].year == PointYear(timeRange, currentYear, i) && points[i].metric == metric
      {
      }
  }

  /**
   * With `Math.random()` in [0, 1), point i of a known metric lies in
   * [base, base + variance * (i + 1)).
   */
  lemma {:induction false} SimulatedValueBounds(s: Spread, draw: real, i: nat)
    requires 0.0 <= draw < 1.0 && s.variance > 0
    ensures s.base <= SimulatedValue(s, draw, i) < s.base + s.variance * (i + 1)
  {
    var w := s.variance * (i + 1);
    assert w >= s.variance by {
      assert s.variance * (i + 1) == s.variance * i + s.variance;
      assert s.variance * i >= 0;
    }
    FloorOfScaledDraw(s.base, draw, w);
  }

  /** `Math.floor(base + draw * width)` lies in [base, base + width) for a draw in [0, 1). */
  lemma FloorOfScaledDraw(base: int, draw: real, width: int)
    requires 0.0 <= draw < 1.0 && width > 0
    ensures base <= (base as real + draw * width as real).Floor < base + width
  {
    var wr := width as real;
    assert wr - draw * wr == (1.0 - draw) * wr;
    assert (1.0 - draw) * wr > 0.0;
    var x := base as real + draw * wr;
    assert base as real <= x < (base + width) as real;
    assert x.Floor as real <= x < x.Floor as real + 1.0;
  }

  /** The method names every plain object inherits from `Object.prototype`. */
  const InheritedNames: set<string> := {
    "constructor", "hasOwnProperty", "isPrototypeOf", "propertyIsEnumerable", "toString",
    "toLocaleString", "valueOf", "__proto__", "__defineGetter__", "__defineSetter__",
    "__lookupGetter__", "__lookupSetter__"
  }

  /**
   * The guard as written, `if (!baseValues[metric]) return null`: the lookup also finds the
   * inherited members, which are truthy.
   */
  predicate PassesGuardAsWritten(metric: string) {
    BaseValues(metric).Some? || metric in InheritedNames
  }

  /**
   * `generateData` as written. An inherited name passes the guard; `baseValues[metric].base`
   * is then undefined and every value is NaN (`None` here).
   */
  function GenerateDataAsWritten(metric: string, timeRange: string, currentYear: int, random: nat -> real)
    : (r: Option<seq<(int, Option<int>)>>)
    ensures BaseValues(metric).Some? ==>
      var fixed := GenerateData(metric, timeRange, currentYear, random);
      && r.Some? && fixed.Some? && |r.value| == |fixed.value|
      && forall i :: 0 <= i < |r.value| ==> r.value[i] == (fixed.value[i].year, Some(fixed.value[i].value))
    ensures BaseValues(metric).None? && metric !in InheritedNames ==> r.None?
  {
    if !PassesGuardAsWritten(metric) then None
    else
      Some(seq(PointCount(timeRange), (i: nat) =>
        (PointYear(timeRange, currentYear, i),
         match BaseValues(metric)
         case Some(s) => Some(SimulatedValue(s, random(i), i))
         case None => None)))
  }

  /** The discrepancy: "toString" is not a metric, yet the as-written guard returns points of NaN, not null. */
  lemma InheritedNameEscapesGuard(timeRange: string, currentYear: int, random: nat -> real)
    ensures GenerateDataAsWritten("toString", timeRange, currentYear, random).Some?
    ensures var points := GenerateDataAsWritten("toString", timeRange, currentYear, random).value;
      && |points| == PointCount(timeRange)
      && forall i :: 0 <= i < |points| ==> points[i].0 == PointYear(timeRange, currentYear, i)
    ensures forall p :: p in GenerateDataAsWritten("toString", timeRange, currentYear, random).value ==> p.1.None?
    ensures GenerateData("toString", timeRange, currentYear, random).None?
  {
  }
}
