/**
 * calculate_calories up to the call into the plotting library: the loop that
 * reads (distance, calories) pairs in ascending distance order into two lists,
 * the "No Data" guard, and the min/max scaling of calories into colours.
 */
module Chart {
  import opened Wrappers
  import opened Conversions
  import opened Ordering
  import opened Sql

  /**
   * `float(str(value).replace(',', ''))`. `str()` of a float has no commas and
   * `float()` reads it back exactly; `str(None)` is "None", which fails.
   */
  function CleanNumber(v: SqlValue): Option<real>
  {
    match v
    case Null => None
    case Real(x) => Some(x)
    case Text(s) => ParseNumber(RemoveCommas(s))
  }

  /** The two lists the loop fills, x and y of the scatter plot. */
  datatype Series = Series(distances: seq<real>, calories: seq<real>)

  /**
   * One pass of the loop body. A row with a falsy value is skipped. The
   * distance is appended before the calorie is converted, so a calorie that
   * fails leaves its distance behind.
   */
  function Step(acc: Series, row: (SqlValue, SqlValue)): Series
  {
    if !(Truthy(row.0) && Truthy(row.1)) then acc
    else match CleanNumber(row.0)
      case None => acc
      case Some(d) =>
        match CleanNumber(row.1)
        case None => Series(acc.distances + [d], acc.calories)
        case Some(c) => Series(acc.distances + [d], acc.calories + [c])
  }

  function SeriesOf(rows: seq<(SqlValue, SqlValue)>): Series
  {
    if rows == [] then Series([], []) else Step(SeriesOf(rows[..|rows| - 1]), rows[|rows| - 1])
  }

  /** The `while query.next()` loop of calculate_calories. */
  method ExtractSeries(rows: seq<(SqlValue, SqlValue)>) returns (distances: seq<real>, calories: seq<real>)
    ensures Series(distances, calories) == SeriesOf(rows)
  {
    distances, calories := [], [];
    var i := 0;
    while i < |rows|
      invariant 0 <= i <= |rows|
      invariant Series(distances, calories) == SeriesOf(rows[..i])
    {
      var (distance, calorie) := rows[i];
      if Truthy(distance) && Truthy(calorie) {
        var d := CleanNumber(distance);
        if d.Some? {
          distances := distances + [d.value];
          var c := CleanNumber(calorie);
          if c.Some? {
            calories := calories + [c.value];
          }
        }
      }
      assert rows[..i + 1][..i] == rows[..i];
      i := i + 1;
    }
    assert rows[..|rows|] == rows;
  }

  // ---------------------------------------------------------------------
  // How long the two lists are

  /** A row whose distance is appended. */
  predicate DistanceKept(row: (SqlValue, SqlValue))
  {
    Truthy(row.0) && Truthy(row.1) && CleanNumber(row.0).Some?
  }

  /** A row whose distance and calorie are both appended. */
  predicate BothKept(row: (SqlValue, SqlValue))
  {
    DistanceKept(row) && CleanNumber(row.1).Some?
  }

  function CountDistanceKept(rows: seq<(SqlValue, SqlValue)>): nat
  {
    if rows == [] then 0
    else CountDistanceKept(rows[..|rows| - 1]) + (if DistanceKept(rows[|rows| - 1]) then 1 else 0)
  }

  function CountBothKept(rows: seq<(SqlValue, SqlValue)>): nat
  {
    if rows == [] then 0
    else CountBothKept(rows[..|rows| - 1]) + (if BothKept(rows[|rows| - 1]) then 1 else 0)
  }

  /** One distance per row that passes the guard and converts, one calorie per row whose two values convert. */
  lemma {:induction false} SeriesCounts(rows: seq<(SqlValue, SqlValue)>)
    ensures |SeriesOf(rows).distances| == CountDistanceKept(rows)
    ensures |SeriesOf(rows).calories| == CountBothKept(rows)
  {
    if rows != [] {
      SeriesCounts(rows[..|rows| - 1]);
    }
  }

  /** A row whose distance is appended but whose calorie is not. */
  predicate HalfKept(row: (SqlValue, SqlValue))
  {
    DistanceKept(row) && CleanNumber(row.1).None?
  }

  function CountHalfKept(rows: seq<(SqlValue, SqlValue)>): nat
  {
    if rows == [] then 0
    else CountHalfKept(rows[..|rows| - 1]) + (if HalfKept(rows[|rows| - 1]) then 1 else 0)
  }

  lemma {:induction false} CountsSplit(rows: seq<(SqlValue, SqlValue)>)
    ensures CountDistanceKept(rows) == CountBothKept(rows) + CountHalfKept(rows)
  {
    if rows != [] {
      CountsSplit(rows[..|rows| - 1]);
    }
  }

  lemma {:induction false} NoHalfKept(rows: seq<(SqlValue, SqlValue)>)
    ensures CountHalfKept(rows) == 0 <==> forall i :: 0 <= i < |rows| ==> !HalfKept(rows[i])
  {
    if rows != [] {
      var init := rows[..|rows| - 1];
      NoHalfKept(init);
      assert forall i :: 0 <= i < |init| ==> init[i] == rows[i];
    }
  }

  /**
   * The calories list is never longer than the distances list, and the two
   * have the same length exactly when no row has a distance that converts and
   * a calorie that does not.
   */
  lemma SeriesLengths(rows: seq<(SqlValue, SqlValue)>)
    ensures |SeriesOf(rows).calories| <= |SeriesOf(rows).distances|
    ensures |SeriesOf(rows).calories| == |SeriesOf(rows).distances| <==>
      forall i :: 0 <= i < |rows| ==> !HalfKept(rows[i])
  {
    SeriesCounts(rows);
    CountsSplit(rows);
    NoHalfKept(rows);
  }

  /** A row with a falsy distance or calorie adds nothing to either list, wherever it stands. */
  lemma {:induction false} SeriesSkipsFalsy(rows: seq<(SqlValue, SqlValue)>, k: nat, row: (SqlValue, SqlValue))
    requires k <= |rows|
    requires !Truthy(row.0) || !Truthy(row.1)
    ensures SeriesOf(rows[..k] + [row] + rows[k..]) == SeriesOf(rows)
  {
    var with := rows[..k] + [row] + rows[k..];
    if k == |rows| {
      assert with[..|with| - 1] == rows;
      assert SeriesOf(with) == Step(SeriesOf(rows), row);
    } else {
      var init, last := rows[..|rows| - 1], rows[|rows| - 1];
      assert with[..|with| - 1] == init[..k] + [row] + init[k..];
      assert with[|with| - 1] == last;
      SeriesSkipsFalsy(init, k, row);
      assert SeriesOf(with) == Step(SeriesOf(init), last);
    }
  }

  /** The distances list, in ascending order. */
  predicate Ascending(xs: seq<real>)
  {
    forall i, j :: 0 <= i < j < |xs| ==> xs[i] <= xs[j]
  }

  lemma {:induction false} DistancesBounded(rows: seq<(SqlValue, SqlValue)>, hi: real)
    requires forall i :: 0 <= i < |rows| ==> rows[i].0.Real? && rows[i].0.value <= hi
    ensures forall x :: x in SeriesOf(rows).distances ==> x <= hi
  {
    if rows != [] {
      DistancesBounded(rows[..|rows| - 1], hi);
    }
  }

  /**
   * When every distance is a number, the query's ascending order carries over
   * to the distances list.
   */
  lemma {:induction false} DistancesAscending(rows: seq<(SqlValue, SqlValue)>)
    requires forall i :: 0 <= i < |rows| ==> rows[i].0.Real?
    requires SortedBy(rows, ByDistance)
    ensures Ascending(SeriesOf(rows).distances)
  {
    if rows != [] {
      var init, last := rows[..|rows| - 1], rows[|rows| - 1];
      DistancesAscending(init);
      forall i | 0 <= i < |init| ensures init[i].0.value <= last.0.value {
        assert ByDistance(rows[i], rows[|rows| - 1]);
      }
      DistancesBounded(init, last.0.value);
      var prev := SeriesOf(init).distances;
      var now := SeriesOf(rows).distances;
      if now != prev {
        forall i, j | 0 <= i < j < |now| ensures now[i] <= now[j] {
          if j == |now| - 1 { assert now[i] == prev[i]; assert prev[i] in prev; }
        }
      }
    }
  }

  // ---------------------------------------------------------------------
  // Colours

  function Min(s: seq<real>): (m: real)
    requires |s| > 0
    ensures m in s
    ensures forall i :: 0 <= i < |s| ==> m <= s[i]
  {
    if |s| == 1 then s[0] else var m := Min(s[1..]); if s[0] <= m then s[0] else m
  }

  function Max(s: seq<real>): (m: real)
    requires |s| > 0
    ensures m in s
    ensures forall i :: 0 <= i < |s| ==> s[i] <= m
  {
    if |s| == 1 then s[0] else var m := Max(s[1..]); if s[0] >= m then s[0] else m
  }

  lemma ScaleBetween(c: real, c': real, lo: real, hi: real)
    requires lo <= c <= c' <= hi && lo < hi
    ensures 0.0 <= (c - lo) / (hi - lo) <= (c' - lo) / (hi - lo) <= 1.0
    ensures (c - lo) / (hi - lo) * (hi - lo) == c - lo
    ensures c == lo ==> (c - lo) / (hi - lo) == 0.0
    ensures c' == hi ==> (c' - lo) / (hi - lo) == 1.0
  {
    var w := hi - lo;
    assert (c - lo) / w * w == c - lo;
    assert (c' - lo) / w * w == c' - lo;
  }

  /** `[(cal - lo) / (hi - lo) for cal in cals]` */
  function Scale(cals: seq<real>, lo: real, hi: real): (colours: seq<real>)
    requires lo < hi
    requires forall i :: 0 <= i < |cals| ==> lo <= cals[i] <= hi
    ensures |colours| == |cals|
    ensures forall i :: 0 <= i < |cals| ==> 0.0 <= colours[i] <= 1.0
    ensures forall i :: 0 <= i < |cals| ==> (cals[i] == lo ==> colours[i] == 0.0) && (cals[i] == hi ==> colours[i] == 1.0)
    ensures forall i, j :: 0 <= i < |cals| && 0 <= j < |cals| && cals[i] <= cals[j] ==> colours[i] <= colours[j]
  {
    var colours := seq(|cals|, i requires 0 <= i < |cals| => (cals[i] - lo) / (hi - lo));
    assert forall i, j :: 0 <= i < |cals| && 0 <= j < |cals| && cals[i] <= cals[j] ==> colours[i] <= colours[j] by {
      forall i, j | 0 <= i < |cals| && 0 <= j < |cals| && cals[i] <= cals[j] ensures colours[i] <= colours[j] {
        ScaleBetween(cals[i], cals[j], lo, hi);
      }
    }
    assert forall i :: 0 <= i < |cals| ==>
      0.0 <= colours[i] <= 1.0 && (cals[i] == lo ==> colours[i] == 0.0) && (cals[i] == hi ==> colours[i] == 1.0) by {
      forall i | 0 <= i < |cals|
        ensures 0.0 <= colours[i] <= 1.0 && (cals[i] == lo ==> colours[i] == 0.0) && (cals[i] == hi ==> colours[i] == 1.0)
      {
        ScaleBetween(cals[i], cals[i], lo, hi);
      }
    }
    colours
  }

  /**
   * The colour of each point: calories scaled from [min, max] onto [0, 1], or
   * 0.5 for every point when all calories are equal.
   */
  function Normalize(cals: seq<real>): (colours: seq<real>)
    requires |cals| > 0
    ensures |colours| == |cals|
    ensures forall i :: 0 <= i < |cals| ==> 0.0 <= colours[i] <= 1.0
    ensures Min(cals) < Max(cals) ==> forall i :: 0 <= i < |cals| ==>
      (cals[i] == Min(cals) ==> colours[i] == 0.0) && (cals[i] == Max(cals) ==> colours[i] == 1.0)
    ensures Min(cals) == Max(cals) ==> forall i :: 0 <= i < |cals| ==> colours[i] == 0.5
    ensures forall i, j :: 0 <= i < |cals| && 0 <= j < |cals| && cals[i] <= cals[j] ==> colours[i] <= colours[j]
  {
    var lo, hi := Min(cals), Max(cals);
    if hi > lo then Scale(cals, lo, hi) else seq(|cals|, _ => 0.5)
  }

  /** Each colour times the spread (hi - lo) is its calorie's distance above lo. */
  predicate ScaledLinearly(colours: seq<real>, cals: seq<real>, lo: real, hi: real)
  {
    |colours| == |cals| && forall i :: 0 <= i < |cals| ==> colours[i] * (hi - lo) == cals[i] - lo
  }

  lemma ScaleLinear(cals: seq<real>, lo: real, hi: real)
    requires lo < hi
    requires forall i :: 0 <= i < |cals| ==> lo <= cals[i] <= hi
    ensures ScaledLinearly(Scale(cals, lo, hi), cals, lo, hi)
  {
    var colours := Scale(cals, lo, hi);
    forall i | 0 <= i < |cals| ensures colours[i] * (hi - lo) == cals[i] - lo {
      ScaleBetween(cals[i], cals[i], lo, hi);
    }
  }

  /** When the calories differ, every colour is `(cal - min) / (max - min)`. */
  lemma NormalizeLinear(cals: seq<real>)
    requires |cals| > 0 && Min(cals) < Max(cals)
    ensures ScaledLinearly(Normalize(cals), cals, Min(cals), Max(cals))
  {
    ScaleLinear(cals, Min(cals), Max(cals));
    assert Normalize(cals) == Scale(cals, Min(cals), Max(cals));
  }

  /** What the button leads to: a "No Data" warning, or a scatter plot of these points and colours. */
  datatype ChartOutcome = NoData | Scatter(x: seq<real>, y: seq<real>, colours: seq<real>)

  function Plot(s: Series): (o: ChartOutcome)
    ensures o.NoData? <==> s.distances == [] || s.calories == []
    ensures o.Scatter? ==> o.x == s.distances && o.y == s.calories && |o.colours| == |o.y|
    ensures o.Scatter? ==> forall i :: 0 <= i < |o.colours| ==> 0.0 <= o.colours[i] <= 1.0
    ensures o.Scatter? ==> o.colours == Normalize(s.calories)
  {
    if s.distances == [] || s.calories == [] then NoData
    else Scatter(s.distances, s.calories, Normalize(s.calories))
  }

  /** The chart calculate_calories draws for a table. */
  function ChartOf(rows: seq<Workout>): ChartOutcome
  {
    Plot(SeriesOf(ByDistanceAscending(rows)))
  }

  /** With numeric distances throughout, the plotted x values come out in ascending order. */
  lemma ChartOfAscending(rows: seq<Workout>)
    requires forall w :: w in rows ==> w.distance.Real?
    ensures ChartOf(rows).Scatter? ==> Ascending(ChartOf(rows).x)
  {
    var q := ByDistanceAscending(rows);
    forall i | 0 <= i < |q| ensures q[i].0.Real? {
      assert q[i] in multiset(DistanceCalorie(rows));
      var k :| 0 <= k < |rows| && DistanceCalorie(rows)[k] == q[i];
      assert rows[k] in rows;
    }
    DistancesAscending(q);
  }
}
