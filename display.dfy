/**
 * What the window shows: the cells load_table writes for a row, and the three
 * header figures update_stats writes.
 */
module Display {
  import opened Wrappers
  import opened Conversions
  import opened Sql

  /** Python's `float(value)` of a query value: None where it raises ValueError or TypeError. */
  function ToFloat(v: SqlValue): Option<real>
  {
    match v
    case Null => None
    case Real(x) => Some(x)
    case Text(s) => ParseNumber(s)
  }

  /** The calories or distance cell load_table writes. */
  function CellText(v: SqlValue): string
  {
    if !Truthy(v) then "0"
    else match ToFloat(v)
      case None => "0"
      case Some(x) => IntToDecimal(TruncateTowardZero(x))
  }

  /**
   * A falsy value shows "0", text `float()` rejects shows "0", and a number
   * shows a whole number that `int()` reads back as its truncation toward zero.
   */
  lemma CellTextMeaning(v: SqlValue)
    ensures !Truthy(v) || ToFloat(v).None? ==> CellText(v) == "0"
    ensures Truthy(v) && ToFloat(v).Some? ==> ParseInt(CellText(v)) == Some(TruncateTowardZero(ToFloat(v).value))
  {
    if Truthy(v) && ToFloat(v).Some? {
      IntToDecimalRoundTrip(TruncateTowardZero(ToFloat(v).value));
    }
  }

  /** The five cells of one table row, in column order. */
  datatype TableRow = TableRow(id: string, date: string, calories: string, distance: string, description: string)

  function RenderRow(w: Workout): TableRow
  {
    TableRow(IntToDecimal(w.id), w.date, CellText(w.calories), CellText(w.distance), w.description)
  }

  /** The id cell, read back with `int()` as delete does, is the row's id. */
  lemma RenderRowId(w: Workout)
    ensures ParseInt(RenderRow(w).id) == Some(w.id)
  {
    IntToDecimalRoundTrip(w.id);
  }

  /** Every shown number, read back with `int()`, is a whole number. */
  lemma RenderRowNumbers(w: Workout)
    ensures ParseInt(RenderRow(w).calories).Some? && ParseInt(RenderRow(w).distance).Some?
  {
    IntToDecimalRoundTrip(0);
    assert IntToDecimal(0) == "0";
    CellTextMeaning(w.calories);
    CellTextMeaning(w.distance);
  }

  /** The header: number of workouts, total calories, total distance. */
  datatype HeaderStats = HeaderStats(workouts: string, calories: string, distance: string)

  /** Python's `value or 0`. */
  function OrZero(v: SqlValue): SqlValue
  {
    if Truthy(v) then v else Real(0.0)
  }

  /**
   * update_stats: the count as it is, each sum as `f"{int(float(x)):,}"`;
   * if either sum fails to convert, all three figures fall back to "0".
   */
  function StatsDisplay(t: Totals): HeaderStats
  {
    match (ToFloat(OrZero(t.calories)), ToFloat(OrZero(t.distance)))
    case (Some(c), Some(d)) =>
      HeaderStats(IntToDecimal(t.count), Grouped(TruncateTowardZero(c)), Grouped(TruncateTowardZero(d)))
    case _ => HeaderStats("0", "0", "0")
  }

  /**
   * A failed conversion resets all three figures, not only the failing one;
   * otherwise the figures read back as the count and the truncated sums.
   */
  lemma StatsDisplayMeaning(t: Totals)
    ensures ToFloat(OrZero(t.calories)).None? || ToFloat(OrZero(t.distance)).None? ==>
      StatsDisplay(t) == HeaderStats("0", "0", "0")
    ensures ToFloat(OrZero(t.calories)).Some? && ToFloat(OrZero(t.distance)).Some? ==>
      ParseInt(StatsDisplay(t).workouts) == Some(t.count) &&
      ParseInt(RemoveCommas(StatsDisplay(t).calories)) == Some(TruncateTowardZero(ToFloat(OrZero(t.calories)).value)) &&
      ParseInt(RemoveCommas(StatsDisplay(t).distance)) == Some(TruncateTowardZero(ToFloat(OrZero(t.distance)).value))
  {
    match (ToFloat(OrZero(t.calories)), ToFloat(OrZero(t.distance)))
    case (Some(c), Some(d)) =>
      IntToDecimalRoundTrip(t.count);
      GroupedRoundTrip(TruncateTowardZero(c));
      GroupedRoundTrip(TruncateTowardZero(d));
    case _ =>
  }

  /**
   * Over the table's own totals the conversion never fails: the header shows
   * the row count and the truncated sums of the numeric calories and distances.
   */
  lemma StatsOfTable(rows: seq<Workout>)
    ensures var h := StatsDisplay(Aggregate(rows));
      ParseInt(h.workouts) == Some(|rows|) &&
      ParseInt(RemoveCommas(h.calories)) == Some(TruncateTowardZero(NumericSum(CaloriesColumn(rows)))) &&
      ParseInt(RemoveCommas(h.distance)) == Some(TruncateTowardZero(NumericSum(DistanceColumn(rows))))
  {
    var t := Aggregate(rows);
    SumNumeric(CaloriesColumn(rows));
    SumNumeric(DistanceColumn(rows));
    assert ToFloat(OrZero(t.calories)) == Some(NumericSum(CaloriesColumn(rows)));
    assert ToFloat(OrZero(t.distance)) == Some(NumericSum(DistanceColumn(rows)));
    StatsDisplayMeaning(t);
  }

  /** An empty table shows 0 workouts, 0 calories and 0 distance. */
  lemma StatsOfEmptyTable()
    ensures StatsDisplay(Aggregate([])) == HeaderStats("0", "0", "0")
  {
    AggregateEmpty();
    assert NatToDecimal(0) == "0";
  }
}
