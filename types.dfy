/**
 * The widget and aggregation enums of the chart request, their wire strings,
 * their defaults, and the prefix a summary value is shown with.
 */
module Types {
  import opened Wrappers

  /** The kinds of widget a chart request may ask for. */
  datatype WidgetType =
    | Group | Logs | Timeseries | TimeseriesLine | TimeseriesStat | Stat | List
    | TopList | Distribution | Geomap | Funnel | TreeMap | PieChart | Anomalies

  /** The string value each WidgetType member stands for in a request. */
  function WidgetTypeWire(w: WidgetType): string
  {
    match w
    case Group => "group"
    case Logs => "logs"
    case Timeseries => "timeseries"
    case TimeseriesLine => "timeseries_line"
    case TimeseriesStat => "timeseries_stat"
    case Stat => "stat"
    case List => "list"
    case TopList => "top_list"
    case Distribution => "distribution"
    case Geomap => "geomap"
    case Funnel => "funnel"
    case TreeMap => "tree_map"
    case PieChart => "pie_chart"
    case Anomalies => "anomalies"
  }

  /** The member a wire string stands for, if any. */
  function WidgetTypeOf(s: string): (r: Option<WidgetType>)
    ensures r.Some? ==> WidgetTypeWire(r.value) == s
  {
    if s == "group" then Some(Group)
    else if s == "logs" then Some(Logs)
    else if s == "timeseries" then Some(Timeseries)
    else if s == "timeseries_line" then Some(TimeseriesLine)
    else if s == "timeseries_stat" then Some(TimeseriesStat)
    else if s == "stat" then Some(Stat)
    else if s == "list" then Some(List)
    else if s == "top_list" then Some(TopList)
    else if s == "distribution" then Some(Distribution)
    else if s == "geomap" then Some(Geomap)
    else if s == "funnel" then Some(Funnel)
    else if s == "tree_map" then Some(TreeMap)
    else if s == "pie_chart" then Some(PieChart)
    else if s == "anomalies" then Some(Anomalies)
    else None
  }

  /** Reading back a member's wire string gives the member. */
  lemma WidgetTypeRoundTrip(w: WidgetType)
    ensures WidgetTypeOf(WidgetTypeWire(w)) == Some(w)
  {
  }

  /** The 14 wire strings are pairwise distinct. */
  lemma WidgetTypeWireInjective(a: WidgetType, b: WidgetType)
    ensures WidgetTypeWire(a) == WidgetTypeWire(b) <==> a == b
  {
    WidgetTypeRoundTrip(a);
    WidgetTypeRoundTrip(b);
  }

  /** defaultWidgetType. */
  const DefaultWidgetType: WidgetType := Timeseries

  lemma DefaultWidgetTypeWire()
    ensures WidgetTypeWire(DefaultWidgetType) == "timeseries"
    ensures WidgetTypeOf("timeseries") == Some(DefaultWidgetType)
  {
  }

  /** How the values of a series are summarised into one number. */
  datatype SummarizeBy = Sum | Max | Min | Count

  function SummarizeByWire(s: SummarizeBy): string
  {
    match s
    case Sum => "sum"
    case Max => "max"
    case Min => "min"
    case Count => "count"
  }

  function SummarizeByOf(s: string): (r: Option<SummarizeBy>)
    ensures r.Some? ==> SummarizeByWire(r.value) == s
  {
    if s == "sum" then Some(Sum)
    else if s == "max" then Some(Max)
    else if s == "min" then Some(Min)
    else if s == "count" then Some(Count)
    else None
  }

  lemma SummarizeByRoundTrip(s: SummarizeBy)
    ensures SummarizeByOf(SummarizeByWire(s)) == Some(s)
  {
  }

  /** The four wire strings are pairwise distinct. */
  lemma SummarizeByWireInjective(a: SummarizeBy, b: SummarizeBy)
    ensures SummarizeByWire(a) == SummarizeByWire(b) <==> a == b
  {
    SummarizeByRoundTrip(a);
    SummarizeByRoundTrip(b);
  }

  /** defaultSummarizeBy. */
  const DefaultSummarizeBy: SummarizeBy := Sum

  /**
   * summarizeByPrefix: `<` for a maximum, `>` for a minimum, nothing for a
   * sum or a count.
   */
  function SummarizeByPrefix(s: SummarizeBy): (r: string)
    ensures r == "<" <==> s == Max
    ensures r == ">" <==> s == Min
    ensures r == "" <==> s == Sum || s == Count
    ensures |r| <= 1
  {
    match s
    case Max => "<"
    case Min => ">"
    case _ => ""
  }

  /** A prefix is one of the three strings, and it tells Max and Min apart from the rest. */
  lemma SummarizeByPrefixValues(s: SummarizeBy)
    ensures SummarizeByPrefix(s) in {"<", ">", ""}
    ensures SummarizeByPrefix(s) != "" <==> s == Max || s == Min
  {
  }

  /** The default aggregation is shown without a prefix. */
  lemma DefaultSummarizeByPrefix()
    ensures DefaultSummarizeBy == Sum
    ensures SummarizeByPrefix(DefaultSummarizeBy) == ""
  {
  }
}
