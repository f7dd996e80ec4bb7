/**
 * applySeriesColors: colouring the series of a chart's options from the
 * header row of its dataset, in place.
 */
module SeriesColors {
  import opened Wrappers
  import opened JsString
  import opened ColorMapping
  import opened ColorProperties

  /** The `encode` field of a series: the dataset columns of its x and y values. */
  datatype Encode = Encode(x: nat, y: nat)

  /** `itemStyle`: the colour and any other style fields. */
  datatype ItemStyle = ItemStyle(color: Option<string>, otherStyle: map<string, string>)

  /** One entry of `options.series`: the fields the colouring reads or writes and the rest. */
  datatype Series = Series(
    seriesType: Option<string>,
    name: Option<string>,
    encode: Option<Encode>,
    itemStyle: Option<ItemStyle>,
    otherFields: map<string, string>)

  /** A row of `dataset.source`: an array of cells, or some other value. */
  datatype Row = Cells(cells: seq<string>) | NotArray

  /** A string that JavaScript treats as true: present and not empty. */
  predicate Truthy(s: Option<string>)
  {
    s.Some? && s.value != ""
  }

  /** `s.itemStyle?.color` is truthy. */
  predicate HasColor(s: Series)
  {
    s.itemStyle.Some? && Truthy(s.itemStyle.value.color)
  }

  /**
   * The series names of the header row, the cells after the timestamp
   * column, when `source` is an array whose first row is an array of at
   * least two cells; `None` is the early return.
   */
  function SeriesNames(source: Option<seq<Row>>): Option<seq<string>>
  {
    if source.None? || |source.value| == 0 then None
    else if source.value[0].NotArray? || |source.value[0].cells| < 2 then None
    else Some(source.value[0].cells[1..])
  }

  /** The name a series gets: its own, else its header cell, else `Series i+1`. */
  function SeriesName(s: Series, names: seq<string>, i: nat): string
  {
    if Truthy(s.name) then s.name.value
    else if i < |names| && names[i] != "" then names[i]
    else "Series " + NatToDecimal(i + 1)
  }

  /** The series built for header column `i + 1` when the options have none. */
  function FreshSeries(names: seq<string>, i: nat): Series
    requires i < |names|
  {
    Series(Some("bar"), Some(names[i]), Some(Encode(0, i + 1)),
      Some(ItemStyle(Some(SeriesColor(names[i])), map[])), map[])
  }

  /** An existing series, coloured if it has no colour, kept as it is otherwise. */
  function Filled(s: Series, names: seq<string>, i: nat): Series
  {
    if HasColor(s) then s
    else
      var name := SeriesName(s, names, i);
      var otherStyle := if s.itemStyle.Some? then s.itemStyle.value.otherStyle else map[];
      s.(name := Some(name), itemStyle := Some(ItemStyle(Some(SeriesColor(name)), otherStyle)))
  }

  /** The value `options.series` has after applySeriesColors. */
  function ColoredSeries(source: Option<seq<Row>>, series: Option<seq<Series>>): Option<seq<Series>>
  {
    match SeriesNames(source)
    case None => series
    case Some(names) =>
      if series.None? || |series.value| == 0 then
        Some(seq(|names|, i requires 0 <= i < |names| => FreshSeries(names, i)))
      else
        Some(seq(|series.value|, i requires 0 <= i < |series.value| => Filled(series.value[i], names, i)))
  }

  /** The part of a chart's options that applySeriesColors reads and writes. */
  class ChartOptions {
    /** `dataset.source`; `None` when the dataset, or its source, is missing or not an array. */
    var source: Option<seq<Row>>
    /** `series`; `None` when it is missing. */
    var series: Option<seq<Series>>

    constructor(source: Option<seq<Row>>, series: Option<seq<Series>>)
      ensures this.source == source && this.series == series
    {
      this.source := source;
      this.series := series;
    }

    /** applySeriesColors: updates `series` and returns the same options. */
    method ApplySeriesColors() returns (r: ChartOptions)
      modifies this`series
      ensures r == this
      ensures series == ColoredSeries(source, old(series))
    {
      r := this;
      if source.None? || |source.value| == 0 {
        return;
      }
      var headers := source.value[0];
      if headers.NotArray? || |headers.cells| < 2 {
        return;
      }
      var names := headers.cells[1..];
      assert SeriesNames(source) == Some(names);
      if series.None? || |series.value| == 0 {
        var built := BuildSeries(names);
        series := Some(built);
      } else {
        var updated := FillSeries(series.value, names);
        series := Some(updated);
      }
    }
  }

  /** `seriesNames.map(...)`: one fresh bar series per name. */
  method BuildSeries(names: seq<string>) returns (built: seq<Series>)
    ensures built == seq(|names|, i requires 0 <= i < |names| => FreshSeries(names, i))
  {
    built := [];
    for i := 0 to |names|
      invariant |built| == i
      invariant forall k :: 0 <= k < i ==> built[k] == FreshSeries(names, k)
    {
      var color := GetSeriesColor(names[i]);
      var item := Series(Some("bar"), Some(names[i]), Some(Encode(0, i + 1)),
        Some(ItemStyle(Some(color), map[])), map[]);
      assert item == FreshSeries(names, i);
      built := built + [item];
    }
  }

  /** `options.series.map(...)`: every existing series, coloured where it has no colour. */
  method FillSeries(current: seq<Series>, names: seq<string>) returns (updated: seq<Series>)
    ensures updated == seq(|current|, i requires 0 <= i < |current| => Filled(current[i], names, i))
  {
    updated := [];
    for i := 0 to |current|
      invariant |updated| == i
      invariant forall k :: 0 <= k < i ==> updated[k] == Filled(current[k], names, k)
    {
      var s := current[i];
      var name := SeriesName(s, names, i);
      if !HasColor(s) {
        var color := GetSeriesColor(name);
        var otherStyle := if s.itemStyle.Some? then s.itemStyle.value.otherStyle else map[];
        updated := updated + [s.(name := Some(name), itemStyle := Some(ItemStyle(Some(color), otherStyle)))];
      } else {
        updated := updated + [s];
      }
    }
  }

  // ---------------------------------------------------------------------------
  // Properties

  /**
   * Without an array source with a header row of at least two cells the
   * options are returned unchanged.
   */
  lemma NoHeaderUnchanged(source: Option<seq<Row>>, series: Option<seq<Series>>)
    requires source.None? || |source.value| == 0 || source.value[0].NotArray? || |source.value[0].cells| < 2
    ensures ColoredSeries(source, series) == series
  {
  }

  /**
   * Missing or empty series are replaced by one bar series per header
   * column after the first, each named after its column, reading y from it,
   * and coloured from its name.
   */
  lemma FreshSeriesShape(source: Option<seq<Row>>, series: Option<seq<Series>>, i: nat)
    requires SeriesNames(source).Some?
    requires series.None? || |series.value| == 0
    requires i < |source.value[0].cells| - 1
    ensures ColoredSeries(source, series).Some?
    ensures |ColoredSeries(source, series).value| == |source.value[0].cells| - 1
    ensures var s := ColoredSeries(source, series).value[i];
      s.seriesType == Some("bar") && s.name == Some(source.value[0].cells[i + 1]) &&
      s.encode == Some(Encode(0, i + 1)) &&
      s.itemStyle == Some(ItemStyle(Some(SeriesColor(source.value[0].cells[i + 1])), map[])) &&
      s.otherFields == map[]
  {
  }

  /** Existing series keep their number and their order. */
  lemma SeriesCountPreserved(source: Option<seq<Row>>, series: Option<seq<Series>>)
    requires series.Some? && |series.value| > 0
    ensures ColoredSeries(source, series).Some?
    ensures |ColoredSeries(source, series).value| == |series.value|
  {
  }

  /** A series that already has a colour is kept as it is, name included. */
  lemma ColoredSeriesKept(source: Option<seq<Row>>, series: Option<seq<Series>>, i: nat)
    requires series.Some? && i < |series.value| && HasColor(series.value[i])
    ensures ColoredSeries(source, series).Some?
    ensures i < |ColoredSeries(source, series).value|
    ensures ColoredSeries(source, series).value[i] == series.value[i]
  {
  }

  /**
   * A series without a colour gets its fallback name and the colour of that
   * name; its other fields and other style fields are kept.
   */
  lemma UncoloredSeriesFilled(source: Option<seq<Row>>, series: Option<seq<Series>>, i: nat)
    requires SeriesNames(source).Some?
    requires series.Some? && i < |series.value| && !HasColor(series.value[i])
    ensures ColoredSeries(source, series).Some?
    ensures i < |ColoredSeries(source, series).value|
    ensures var s, t := series.value[i], ColoredSeries(source, series).value[i];
      var name := SeriesName(s, SeriesNames(source).value, i);
      t.name == Some(name) &&
      t.itemStyle.Some? && t.itemStyle.value.color == Some(SeriesColor(name)) &&
      t.seriesType == s.seriesType && t.encode == s.encode && t.otherFields == s.otherFields &&
      t.itemStyle.value.otherStyle == (if s.itemStyle.Some? then s.itemStyle.value.otherStyle else map[])
  {
  }

  /** The fallback name prefers the series' own name, then its header cell; it is never empty. */
  lemma SeriesNameChoice(s: Series, names: seq<string>, i: nat)
    ensures Truthy(s.name) ==> SeriesName(s, names, i) == s.name.value
    ensures !Truthy(s.name) && i < |names| && names[i] != "" ==> SeriesName(s, names, i) == names[i]
    ensures !Truthy(s.name) && (i >= |names| || names[i] == "") ==>
      SeriesName(s, names, i) == "Series " + NatToDecimal(i + 1) &&
      ParseInt(SeriesName(s, names, i)[7..]) == Some(i + 1)
    ensures SeriesName(s, names, i) != ""
  {
    if !Truthy(s.name) && (i >= |names| || names[i] == "") {
      var n := SeriesName(s, names, i);
      assert n[7..] == NatToDecimal(i + 1);
      ParseNatToDecimal(i + 1);
    }
  }

  /** A colour chosen for a label is never empty, so the series it is put on has a colour. */
  lemma SeriesColorTruthy(value: string)
    ensures Truthy(Some(SeriesColor(value)))
  {
    SeriesColorIsHex(value);
  }

  /** Once a header row is present, every resulting series has a colour. */
  lemma AllSeriesColored(source: Option<seq<Row>>, series: Option<seq<Series>>)
    requires SeriesNames(source).Some?
    ensures ColoredSeries(source, series).Some?
    ensures forall i :: 0 <= i < |ColoredSeries(source, series).value| ==>
      HasColor(ColoredSeries(source, series).value[i])
  {
    var names := SeriesNames(source).value;
    var r := ColoredSeries(source, series).value;
    forall i | 0 <= i < |r|
      ensures HasColor(r[i])
    {
      if series.None? || |series.value| == 0 {
        SeriesColorTruthy(names[i]);
      } else if !HasColor(series.value[i]) {
        SeriesColorTruthy(SeriesName(series.value[i], names, i));
      }
    }
  }

  /** Colouring twice is colouring once. */
  lemma ColoredSeriesIdempotent(source: Option<seq<Row>>, series: Option<seq<Series>>)
    ensures ColoredSeries(source, ColoredSeries(source, series)) == ColoredSeries(source, series)
  {
    if SeriesNames(source).Some? {
      var once := ColoredSeries(source, series);
      AllSeriesColored(source, series);
      assert |once.value| > 0;
      var twice := ColoredSeries(source, once);
      assert |twice.value| == |once.value|;
      forall i | 0 <= i < |once.value|
        ensures twice.value[i] == once.value[i]
      {
        assert HasColor(once.value[i]);
      }
      assert twice.value == once.value;
    }
  }
}
