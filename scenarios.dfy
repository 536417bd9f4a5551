/** Worked cases of the window's behaviour, stated on the model. */
module Scenarios {
  import opened Wrappers
  import opened Conversions
  import opened Ordering
  import opened Sql
  import opened Display
  import opened Chart
  import opened App

  /**
   * A number typed with thousands separators, such as "1,000": stored as
   * TEXT, shown as 0 in the table (`float()` rejects it), and charted as its
   * value once the commas are stripped.
   */
  lemma GroupedEntry(i: int)
    requires i >= 1000 || i <= -1000
    ensures RealAffinity(Grouped(i)) == Text(Grouped(i))
    ensures CellText(Text(Grouped(i))) == "0"
    ensures CleanNumber(Text(Grouped(i))) == Some(i as real)
  {
    GroupedHasComma(i);
    CommaIsNotNumber(Grouped(i));
    GroupedIsNumber(i);
  }

  /**
   * In the header sums such text adds only the number before its first comma:
   * a distance typed "5,2" adds 5.
   */
  lemma SeparatedTextSum()
    ensures Numeric(Text("5,2")) == 5.0
  {
    var s := "5,2";
    assert ',' in s[..3] && ',' in s[..2];
    CommaIsNotNumber(s[..3]);
    CommaIsNotNumber(s[..2]);
    assert s[..1] == "5";
    assert AllDigits("5");
    ParseUnsignedDigits("5");
  }

  /** A calorie that does not convert leaves its distance in the list: the lists differ in length. */
  lemma UnconvertedCalorieKeepsDistance(d: real, c: string)
    requires d != 0.0 && c != "" && CleanNumber(Text(c)).None?
    ensures SeriesOf([(Real(d), Text(c))]) == Series([d], [])
  {
    var rows := [(Real(d), Text(c))];
    assert rows[..0] == [];
  }

  lemma SpreadCalories()
    ensures Normalize([10.0, 20.0, 30.0]) == [0.0, 0.5, 1.0]
  {
    var cals := [10.0, 20.0, 30.0];
    assert Min(cals) == 10.0 && Max(cals) == 30.0;
    var colours := Normalize(cals);
    assert colours[1] == (20.0 - 10.0) / (30.0 - 10.0) == 0.5;
  }


  lemma EqualCalories()
    ensures Normalize([50.0, 50.0]) == [0.5, 0.5]
  {
    var cals := [50.0, 50.0];
    assert Min(cals) == 50.0 && Max(cals) == 50.0;
  }

  lemma TwoRowsSorted(first: (SqlValue, SqlValue), second: (SqlValue, SqlValue))
    requires !ByDistance(first, second)
    ensures SortBy([first, second], ByDistance) == [second, first]
  {
    var rows := [first, second];
    assert rows[0] == first && rows[1..] == [second];
    assert [second][0] == second && [second][1..] == [];
    assert SortBy([second], ByDistance) == InsertBy(second, [], ByDistance) == [second];
    assert SortBy(rows, ByDistance) == InsertBy(first, [second], ByDistance);
    assert InsertBy(first, [second], ByDistance) == [second] + InsertBy(first, [], ByDistance);
  }

  lemma TwoRowsSeries(d1: real, c1: real, d2: real, c2: real, first: (SqlValue, SqlValue), second: (SqlValue, SqlValue))
    requires first == (Real(d1), Real(c1)) && d1 != 0.0 && c1 != 0.0
    requires Truthy(second.0) && CleanNumber(second.0) == Some(d2) && second.1 == Real(c2) && c2 != 0.0
    ensures SeriesOf([first, second]) == Series([d1, d2], [c1, c2])
  {
    var rows := [first, second];
    assert rows[..1] == [first] && rows[1] == second;
    assert [first][..0] == [] && [first][0] == first;
    assert SeriesOf([first]) == Step(Series([], []), first) == Series([d1], [c1]);
    assert SeriesOf(rows) == Step(Series([d1], [c1]), second);
  }

  lemma NormalizePair(hi: real, lo: real)
    requires lo < hi
    ensures Normalize([hi, lo]) == [1.0, 0.0]
  {
    var cals := [hi, lo];
    assert Min(cals[1..]) == lo && Max(cals[1..]) == lo;
    assert Min(cals) == lo && Max(cals) == hi;
  }

  /** A distance typed with separators, and a larger numeric one. */
  function SeparatorTable(date: string, i: int, y: real, c1: real, c2: real): seq<Workout>
  {
    [Workout(1, date, Real(c1), Text(Grouped(i)), ""), Workout(2, date, Real(c2), Real(y), "")]
  }

  lemma SeparatorTableSeries(date: string, i: int, y: real, c1: real, c2: real)
    requires i >= 1000 && y != 0.0 && c1 != 0.0 && c2 != 0.0
    ensures SeriesOf(ByDistanceAscending(SeparatorTable(date, i, y, c1, c2))) == Series([y, i as real], [c2, c1])
  {
    var rows := SeparatorTable(date, i, y, c1, c2);
    var first, second := (Text(Grouped(i)), Real(c1)), (Real(y), Real(c2));
    assert DistanceCalorie(rows) == [first, second];
    TwoRowsSorted(first, second);
    assert ByDistanceAscending(rows) == [second, first];
    GroupedEntry(i);
    TwoRowsSeries(y, c2, i as real, c1, second, first);
  }

  /**
   * Text sorts after every number, so a distance typed as "1,000" is charted
   * after a larger numeric distance: the x values need not ascend.
   */
  lemma TextDistanceChartedLast(date: string, i: int, y: real, c1: real, c2: real)
    requires i >= 1000 && y > i as real && 0.0 < c1 < c2
    ensures ChartOf(SeparatorTable(date, i, y, c1, c2)) == Scatter([y, i as real], [c2, c1], [1.0, 0.0])
    ensures !Ascending([y, i as real])
  {
    SeparatorTableSeries(date, i, y, c1, c2);
    NormalizePair(c2, c1);
    var xs := [y, i as real];
    assert xs[1] < xs[0];
  }

  /** Three workouts of 100, 200 and 300 calories total 600 in the header. */
  lemma HeaderTotal(date: string)
    ensures StatsDisplay(Aggregate([Workout(1, date, Real(100.0), Real(1.0), ""),
                                    Workout(2, date, Real(200.0), Real(2.0), ""),
                                    Workout(3, date, Real(300.0), Real(3.0), "")])).calories == "600"
  {
    var rows := [Workout(1, date, Real(100.0), Real(1.0), ""),
                 Workout(2, date, Real(200.0), Real(2.0), ""),
                 Workout(3, date, Real(300.0), Real(3.0), "")];
    var cs := CaloriesColumn(rows);
    assert cs == [Real(100.0), Real(200.0), Real(300.0)];
    assert cs[..2][..1][..0] == [];
    assert NumericSum(cs[..1]) == 100.0;
    assert NumericSum(cs[..2]) == 300.0;
    assert NumericSum(cs) == 600.0;
    assert Aggregate(rows).calories == Real(600.0);
    assert NatToDecimal(600) == "600";
  }

  /** Confirm the delete of the only row shown: the table is empty afterwards. */
  method DeleteOnlyRow(app: FitTrack, ghost w: Workout)
    requires app.Valid() && app.records == [w]
    modifies app
    ensures app.Valid() && app.records == []
  {
    assert |app.table| == 1;
    ListAllSingle(w);
    app.DeleteWorkout(0, true);
    assert RemoveId([w], w.id) == [];
  }

  /** Add a workout to an empty table: it is the only row, with id 1. */
  method AddToEmpty(app: FitTrack, date: string, calories: string, distance: string, description: string)
    requires app.Valid() && app.records == [] && app.lastId == 0
    requires calories != "" && distance != ""
    modifies app
    ensures app.Valid()
    ensures app.records == [Workout(1, date, RealAffinity(calories), RealAffinity(distance), description)]
  {
    app.AddWorkout(date, calories, distance, description);
  }

  /**
   * Add one workout to an empty table: one row is shown, with id 1 and the
   * given date and description. Delete it through that row: the table is
   * empty again.
   */
  method AddThenDelete(date: string, calories: string, distance: string, description: string)
    returns (shown: seq<TableRow>, after: seq<Workout>)
    requires calories != "" && distance != ""
    ensures |shown| == 1 && ParseInt(shown[0].id) == Some(1)
    ensures shown[0].date == date && shown[0].description == description
    ensures after == []
  {
    var app := new FitTrack([], 0);
    AddToEmpty(app, date, calories, distance, description);
    ghost var w := app.records[0];
    ListAllSingle(w);
    assert app.table == [RenderRow(w)];
    shown := app.table;
    RenderRowId(w);
    DeleteOnlyRow(app, w);
    after := app.records;
  }
}
