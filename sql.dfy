/**
 * The `fitness` table and the queries the window runs against it:
 *   fitness(id INTEGER PRIMARY KEY AUTOINCREMENT, date TEXT,
 *           calories REAL, distance REAL, description TEXT)
 * A column value is one of SQLite's storage classes as PyQt hands it back.
 */
module Sql {
  import opened Wrappers
  import opened Conversions
  import opened Ordering

  datatype SqlValue = Null | Real(value: real) | Text(text: string)

  /** Python truthiness of the value the query returns: None, 0.0 and "" are false. */
  predicate Truthy(v: SqlValue)
  {
    match v
    case Null => false
    case Real(x) => x != 0.0
    case Text(s) => s != ""
  }

  /**
   * REAL column affinity: bound text that reads as a number is stored as a
   * REAL, any other text is kept as TEXT.
   */
  function RealAffinity(s: string): (v: SqlValue)
    ensures !v.Null?
  {
    match ParseNumber(s)
    case Some(x) => Real(x)
    case None => Text(s)
  }

  /** A row of the table. Date and description are bound as text and stay text. */
  datatype Workout = Workout(id: int, date: string, calories: SqlValue, distance: SqlValue, description: string)

  /** The largest rowid; AUTOINCREMENT refuses to go past it. */
  const MaxRowId: int := 0x7FFF_FFFF_FFFF_FFFF

  ghost predicate IdsUnique(rows: seq<Workout>)
  {
    forall i, j :: 0 <= i < j < |rows| ==> rows[i].id != rows[j].id
  }

  // ---------------------------------------------------------------------
  // SELECT * FROM fitness ORDER BY date DESC

  /** Newer first: descending BINARY order on the date text. */
  function NewerFirst(a: Workout, b: Workout): bool
  {
    StrLeq(b.date, a.date)
  }

  lemma NewerFirstIsPreorder()
    ensures TotalPreorder(NewerFirst)
  {
    forall a: Workout, b: Workout
      ensures NewerFirst(a, b) || NewerFirst(b, a)
    {
      StrLeqTotal(a.date, b.date);
    }
    forall a: Workout, b: Workout, c: Workout | NewerFirst(a, b) && NewerFirst(b, c)
      ensures NewerFirst(a, c)
    {
      StrLeqTransitive(c.date, b.date, a.date);
    }
  }

  function ListAll(rows: seq<Workout>): (listing: seq<Workout>)
    ensures |listing| == |rows|
  {
    SortedLength(rows, NewerFirst);
    SortBy(rows, NewerFirst)
  }

  /** A table of one row lists that row. */
  lemma ListAllSingle(w: Workout)
    ensures ListAll([w]) == [w]
  {
    assert [w][1..] == [];
    assert SortBy([w][1..], NewerFirst) == [];
    assert SortBy([w], NewerFirst) == InsertBy(w, [], NewerFirst);
  }

  /** The listing holds every row exactly once, newest date first. */
  lemma ListAllSpec(rows: seq<Workout>)
    ensures multiset(ListAll(rows)) == multiset(rows)
    ensures forall i, j :: 0 <= i < j < |rows| ==> StrLeq(ListAll(rows)[j].date, ListAll(rows)[i].date)
  {
    NewerFirstIsPreorder();
    SortByCorrect(rows, NewerFirst);
  }

  // ---------------------------------------------------------------------
  // SELECT distance, calories FROM fitness ORDER BY distance ASC

  /** SQLite's cross-type order: NULL, then numbers by value, then text by collation. */
  predicate ValueLeq(a: SqlValue, b: SqlValue)
  {
    match (a, b)
    case (Null, _) => true
    case (_, Null) => false
    case (Real(x), Real(y)) => x <= y
    case (Real(_), Text(_)) => true
    case (Text(_), Real(_)) => false
    case (Text(s), Text(t)) => StrLeq(s, t)
  }

  function ByDistance(p: (SqlValue, SqlValue), q: (SqlValue, SqlValue)): bool
  {
    ValueLeq(p.0, q.0)
  }

  lemma ByDistanceIsPreorder()
    ensures TotalPreorder(ByDistance)
  {
    forall p: (SqlValue, SqlValue), q: (SqlValue, SqlValue)
      ensures ByDistance(p, q) || ByDistance(q, p)
    {
      if p.0.Text? && q.0.Text? { StrLeqTotal(p.0.text, q.0.text); }
    }
    forall p: (SqlValue, SqlValue), q: (SqlValue, SqlValue), r: (SqlValue, SqlValue) | ByDistance(p, q) && ByDistance(q, r)
      ensures ByDistance(p, r)
    {
      if p.0.Text? && q.0.Text? && r.0.Text? { StrLeqTransitive(p.0.text, q.0.text, r.0.text); }
    }
  }

  function DistanceCalorie(rows: seq<Workout>): (pairs: seq<(SqlValue, SqlValue)>)
    ensures |pairs| == |rows|
    ensures forall i :: 0 <= i < |rows| ==> pairs[i] == (rows[i].distance, rows[i].calories)
  {
    seq(|rows|, i requires 0 <= i < |rows| => (rows[i].distance, rows[i].calories))
  }

  /** The chart query returns one (distance, calories) pair per row, in ascending distance order. */
  function ByDistanceAscending(rows: seq<Workout>): (pairs: seq<(SqlValue, SqlValue)>)
    ensures multiset(pairs) == multiset(DistanceCalorie(rows))
    ensures |pairs| == |rows|
    ensures SortedBy(pairs, ByDistance)
  {
    ByDistanceIsPreorder();
    SortByCorrect(DistanceCalorie(rows), ByDistance);
    assert |multiset(SortBy(DistanceCalorie(rows), ByDistance))| == |multiset(DistanceCalorie(rows))|;
    SortBy(DistanceCalorie(rows), ByDistance)
  }

  // ---------------------------------------------------------------------
  // SELECT COUNT(*), SUM(calories), SUM(distance) FROM fitness

  /**
   * The number the first k characters of a text spell, as SQLite reads text
   * in a sum: the longest prefix that is a number, or 0 when there is none.
   */
  function NumberPrefix(s: string, k: nat): real
    requires k <= |s|
  {
    match ParseNumber(s[..k])
    case Some(x) => x
    case None => if k == 0 then 0.0 else NumberPrefix(s, k - 1)
  }

  /** What SUM adds for one value: a number is itself, NULL nothing, text its leading number. */
  function Numeric(v: SqlValue): real
  {
    match v
    case Null => 0.0
    case Real(x) => x
    case Text(s) => NumberPrefix(s, |s|)
  }

  /** Text that is a number as a whole adds that number. */
  lemma NumericText(s: string, x: real)
    requires ParseNumber(s) == Some(x)
    ensures Numeric(Text(s)) == x
  {
    assert s[..|s|] == s;
  }

  /** Text with no digit before its first non-number character adds nothing. */
  lemma {:induction false} NumberPrefixNone(s: string, k: nat)
    requires k <= |s|
    requires forall j :: 0 <= j <= k ==> ParseNumber(s[..j]).None?
    ensures NumberPrefix(s, k) == 0.0
  {
    if k > 0 {
      NumberPrefixNone(s, k - 1);
    }
  }

  function NumericSum(vs: seq<SqlValue>): real
  {
    if vs == [] then 0.0 else NumericSum(vs[..|vs| - 1]) + Numeric(vs[|vs| - 1])
  }

  lemma {:induction false} NumericSumAppend(a: seq<SqlValue>, b: seq<SqlValue>)
    ensures NumericSum(a + b) == NumericSum(a) + NumericSum(b)
  {
    if b == [] {
      assert a + b == a;
    } else {
      assert (a + b)[..|a + b| - 1] == a + b[..|b| - 1];
      NumericSumAppend(a, b[..|b| - 1]);
    }
  }

  /** SUM: NULL when the column holds no non-NULL value, otherwise the total. */
  function Sum(vs: seq<SqlValue>): SqlValue
  {
    if exists i :: 0 <= i < |vs| && !vs[i].Null? then Real(NumericSum(vs)) else Null
  }

  /** Read as a number, SUM is the numeric total, NULL included (where the total is 0). */
  lemma {:induction false} SumNumeric(vs: seq<SqlValue>)
    ensures Numeric(Sum(vs)) == NumericSum(vs)
  {
    if vs != [] && Sum(vs).Null? {
      var init := vs[..|vs| - 1];
      assert Sum(init).Null? by {
        forall i | 0 <= i < |init| ensures init[i].Null? { assert init[i] == vs[i]; }
      }
      SumNumeric(init);
    }
  }

  function CaloriesColumn(rows: seq<Workout>): (vs: seq<SqlValue>)
    ensures |vs| == |rows| && forall i :: 0 <= i < |rows| ==> vs[i] == rows[i].calories
  {
    seq(|rows|, i requires 0 <= i < |rows| => rows[i].calories)
  }

  function DistanceColumn(rows: seq<Workout>): (vs: seq<SqlValue>)
    ensures |vs| == |rows| && forall i :: 0 <= i < |rows| ==> vs[i] == rows[i].distance
  {
    seq(|rows|, i requires 0 <= i < |rows| => rows[i].distance)
  }

  datatype Totals = Totals(count: int, calories: SqlValue, distance: SqlValue)

  function Aggregate(rows: seq<Workout>): Totals
  {
    Totals(|rows|, Sum(CaloriesColumn(rows)), Sum(DistanceColumn(rows)))
  }

  /** An empty table counts 0 and sums to NULL. */
  lemma AggregateEmpty()
    ensures Aggregate([]) == Totals(0, Null, Null)
  {
  }

  lemma SumAppend(vs: seq<SqlValue>, v: SqlValue)
    requires !v.Null?
    ensures Sum(vs + [v]) == Real(Numeric(Sum(vs)) + Numeric(v))
  {
    SumNumeric(vs);
    NumericSumAppend(vs, [v]);
    assert [v][..0] == [];
    assert (vs + [v])[|vs|] == v;
  }

  /** Appending a row adds one to the count and its numbers to the sums. */
  lemma AggregateAppend(rows: seq<Workout>, w: Workout)
    requires !w.calories.Null? && !w.distance.Null?
    ensures Aggregate(rows + [w]).count == Aggregate(rows).count + 1
    ensures Aggregate(rows + [w]).calories == Real(Numeric(Aggregate(rows).calories) + Numeric(w.calories))
    ensures Aggregate(rows + [w]).distance == Real(Numeric(Aggregate(rows).distance) + Numeric(w.distance))
  {
    var rs := rows + [w];
    assert CaloriesColumn(rs) == CaloriesColumn(rows) + [w.calories];
    assert DistanceColumn(rs) == DistanceColumn(rows) + [w.distance];
    SumAppend(CaloriesColumn(rows), w.calories);
    SumAppend(DistanceColumn(rows), w.distance);
  }

  // ---------------------------------------------------------------------
  // DELETE FROM fitness WHERE id = ?

  function RemoveId(rows: seq<Workout>, id: int): (r: seq<Workout>)
    ensures |r| <= |rows|
  {
    if rows == [] then []
    else (if rows[0].id == id then [] else [rows[0]]) + RemoveId(rows[1..], id)
  }

  /** Delete keeps exactly the rows whose id differs. */
  lemma {:induction false} RemoveIdMembers(rows: seq<Workout>, id: int)
    ensures forall w :: w in RemoveId(rows, id) <==> w in rows && w.id != id
  {
    if rows != [] {
      RemoveIdMembers(rows[1..], id);
      assert rows == [rows[0]] + rows[1..];
    }
  }

  /** Deleting an id that no row carries changes nothing. */
  lemma {:induction false} RemoveIdAbsent(rows: seq<Workout>, id: int)
    requires forall w :: w in rows ==> w.id != id
    ensures RemoveId(rows, id) == rows
  {
    if rows != [] {
      assert rows[0] in rows;
      assert forall w :: w in rows[1..] ==> w in rows;
      RemoveIdAbsent(rows[1..], id);
    }
  }

  /** With unique ids, deleting one that is present removes exactly one row. */
  lemma {:induction false} RemoveIdPresent(rows: seq<Workout>, id: int)
    requires IdsUnique(rows)
    requires exists w :: w in rows && w.id == id
    ensures |RemoveId(rows, id)| == |rows| - 1
  {
    var rest := rows[1..];
    assert IdsUnique(rest) by {
      forall i, j | 0 <= i < j < |rest| ensures rest[i].id != rest[j].id {
        assert rest[i] == rows[i + 1] && rest[j] == rows[j + 1];
      }
    }
    if rows[0].id == id {
      forall w | w in rest ensures w.id != id {
        var k :| 0 <= k < |rest| && rest[k] == w;
        assert rows[k + 1] == w;
      }
      RemoveIdAbsent(rest, id);
    } else {
      var w :| w in rows && w.id == id;
      assert w in rest by { assert rows == [rows[0]] + rest; }
      RemoveIdPresent(rest, id);
    }
  }

  /** Deleting keeps ids unique. */
  lemma {:induction false} RemoveIdUnique(rows: seq<Workout>, id: int)
    requires IdsUnique(rows)
    ensures IdsUnique(RemoveId(rows, id))
  {
    if rows != [] {
      var rest := rows[1..];
      assert IdsUnique(rest) by {
        forall i, j | 0 <= i < j < |rest| ensures rest[i].id != rest[j].id {
          assert rest[i] == rows[i + 1] && rest[j] == rows[j + 1];
        }
      }
      RemoveIdUnique(rest, id);
      RemoveIdMembers(rest, id);
      var r := RemoveId(rows, id);
      if rows[0].id != id {
        forall j | 0 < j < |r| ensures r[0].id != r[j].id {
          assert r[j] in RemoveId(rest, id);
          var k :| 0 <= k < |rest| && rest[k] == r[j];
          assert rows[k + 1] == r[j];
        }
      }
    }
  }
}
