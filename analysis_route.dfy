/**
 * The `/analysis` handler of the Express router: select the analysis records of the
 * requested time range, order them by year and reduce each to the requested metric.
 *
 * The clock (`new Date().getFullYear()`) is the parameter `currentYear`, and a query
 * that throws is the `fault` parameter, as in the `/items` handlers.
 */
module AnalysisRoute {
  import opened Wrappers
  import Sorting
  import opened HttpStatus

  /** One document of the analysis collection: a year and its three metric values. */
  datatype AnalysisRecord = AnalysisRecord(year: int, trade: real, defense: real, alliances: real)

  /**
   * One element of the answer, `{ year, [metric]: value }`. `value` is `None` when the
   * record has no field of that name; the key is then absent from the JSON.
   */
  datatype Point = Point(year: int, metric: string, value: Option<real>)

  datatype Reply = Points(points: seq<Point>) | MessageOnly(message: string) | ErrorMessage(error: string)

  datatype Response = Response(status: int, reply: Reply)


  const DefaultTimeRange := "decade"
  const DefaultMetric := "trade"
  const NoDataMessage := "No analysis data found for the specified time range"

  /** Years to look back: ten for "decade", five for any other time range. */
  function LookBack(timeRange: string): nat {
    if timeRange == "decade" then 10 else 5
  }

  /** The first year of the window; an absent `timeRange` query parameter means "decade". */
  function StartYear(currentYear: int, timeRange: Option<string>): int {
    currentYear - LookBack(timeRange.GetOr(DefaultTimeRange))
  }

  /** `record[metric]`: the record's field of that name, if it has one. */
  function Field(record: AnalysisRecord, metric: string): Option<real> {
    if metric == "year" then Some(record.year as real)
    else if metric == "trade" then Some(record.trade)
    else if metric == "defense" then Some(record.defense)
    else if metric == "alliances" then Some(record.alliances)
    else None
  }

  /** The query `{ year: { $gte: startYear } }`: every record from `startYear` on, with no upper bound. */
  function InWindow(data: seq<AnalysisRecord>, startYear: int): (r: seq<AnalysisRecord>)
    ensures forall x :: multiset(r)[x] == if x.year >= startYear then multiset(data)[x] else 0
  {
    if data == [] then []
    else
      assert data == [data[0]] + data[1..];
      var rest := InWindow(data[1..], startYear);
      if data[0].year >= startYear then [data[0]] + rest else rest
  }

  function YearKey(record: AnalysisRecord): int {
    record.year
  }

  /**
   * The selected records, `.sort({ year: 1 })`: exactly the records from `startYear` on,
   * each as often as it is stored, in ascending order of year. Records of equal year
   * keep their stored order.
   */
  function Window(data: seq<AnalysisRecord>, startYear: int): (w: seq<AnalysisRecord>)
    ensures Sorting.Ascending(w, YearKey)
    ensures forall x :: multiset(w)[x] == if x.year >= startYear then multiset(data)[x] else 0
  {
    Sorting.SortByKey(InWindow(data, startYear), YearKey)
  }

  /**
   * `data.map(item => ({ year: item.year, [metric]: item[metric] }))`: one point per record,
   * in the same order, carrying the record's year and the field the metric names.
   */
  function Project(records: seq<AnalysisRecord>, metric: string): (p: seq<Point>)
    ensures |p| == |records|
    ensures forall i :: 0 <= i < |p| ==>
      p[i].year == records[i].year && p[i].metric == metric && p[i].value == Field(records[i], metric)
  {
    seq(|records|, i requires 0 <= i < |records| => Point(records[i].year, metric, Field(records[i], metric)))
  }

  /**
   * GET /analysis. Absent query parameters default to "decade" and "trade". The answer
   * is 404 exactly when no record lies in the window; otherwise 200 with one point per
   * selected record.
   */
  function Analysis(data: seq<AnalysisRecord>, currentYear: int, timeRange: Option<string>,
                    metric: Option<string>, fault: Option<string>): (r: Response)
    ensures fault.Some? ==> r == Response(SERVER_ERROR, ErrorMessage(fault.value))
    ensures fault.None? ==>
      (r.status == NOT_FOUND <==> forall x :: x in data ==> x.year < StartYear(currentYear, timeRange))
    ensures fault.None? && r.status != NOT_FOUND ==>
      r.status == OK && r.reply.Points? && r.reply.points != []
  {
    if fault.Some? then
      Response(SERVER_ERROR, ErrorMessage(fault.value))
    else
      var startYear := StartYear(currentYear, timeRange);
      var selected := Window(data, startYear);
      WindowEmptyIff(data, startYear);
      if |selected| == 0 then
        Response(NOT_FOUND, MessageOnly(NoDataMessage))
      else
        Response(OK, Points(Project(selected, metric.GetOr(DefaultMetric))))
  }

  /** The window is empty exactly when every record is older than the start year. */
  lemma WindowEmptyIff(data: seq<AnalysisRecord>, startYear: int)
    ensures Window(data, startYear) == [] <==> forall x :: x in data ==> x.year < startYear
  {
    var w := Window(data, startYear);
    if w != [] {
      assert w[0] in multiset(w);
    }
    forall x | x in data && x.year >= startYear ensures w != [] {
      assert multiset(data)[x] > 0;
      assert multiset(w)[x] > 0;
    }
  }

  /** The window has no upper bound: a stored record dated after the current year is still selected. */
  lemma {:induction false} LaterYearsSelected(data: seq<AnalysisRecord>, currentYear: int, timeRange: Option<string>, x: AnalysisRecord)
    requires x in data && x.year > currentYear
    ensures x in Window(data, StartYear(currentYear, timeRange))
  {
    var startYear := StartYear(currentYear, timeRange);
    assert multiset(data)[x] > 0;
    assert multiset(Window(data, startYear))[x] > 0;
  }

  /**
   * A 200 answer is the window projected to the metric: point i carries the year of the
   * i-th selected record and that record's field named by the metric (default "trade"),
   * so the points come in ascending order of year.
   */
  lemma AnalysisAnswer(data: seq<AnalysisRecord>, currentYear: int, timeRange: Option<string>,
                       metric: Option<string>)
    requires Analysis(data, currentYear, timeRange, metric, None).status == OK
    ensures var w := Window(data, StartYear(currentYear, timeRange));
            var points := Analysis(data, currentYear, timeRange, metric, None).reply.points;
            && |points| == |w|
            && (forall i :: 0 <= i < |w| ==>
                  points[i] == Point(w[i].year, metric.GetOr(DefaultMetric), Field(w[i], metric.GetOr(DefaultMetric))))
            && (forall i, j :: 0 <= i < j < |points| ==> points[i].year <= points[j].year)
  {
  }

  /** The defaults: no `timeRange` means a ten-year look-back, any value other than "decade" five years. */
  lemma StartYearCases(currentYear: int, timeRange: Option<string>)
    ensures timeRange == None || timeRange == Some("decade") ==> StartYear(currentYear, timeRange) == currentYear - 10
    ensures timeRange != None && timeRange != Some("decade") ==> StartYear(currentYear, timeRange) == currentYear - 5
  {
  }
}
