/**
 * The FitTrack window as a state machine: the `fitness` table with its
 * AUTOINCREMENT counter, the rows shown in the table widget and the three
 * header figures. Each user action is a method; the dialogs it opens are
 * inputs (the selected row, the answer to "Are you sure?").
 */
module App {
  import opened Wrappers
  import opened Conversions
  import opened Sql
  import opened Display
  import opened Chart

  class FitTrack {
    /** The rows of the `fitness` table, in rowid order. */
    var records: seq<Workout>
    /** The table's entry in sqlite_sequence: the largest id ever assigned (0 if none). */
    var lastId: int
    /** Every id the table has handed out, including those since deleted. */
    ghost var issued: set<int>
    /** The rows the table widget shows. */
    var table: seq<TableRow>
    /** The header figures. */
    var stats: HeaderStats

    /** What the database guarantees: ids unique, positive, and never above the counter. */
    ghost predicate StoreValid()
      reads this`records, this`issued, this`lastId
    {
      IdsUnique(records) &&
      (forall w :: w in records ==> w.id in issued) &&
      (forall i :: i in issued ==> 0 < i <= lastId) &&
      0 <= lastId <= MaxRowId
    }

    ghost predicate TableShown()
      reads this`records, this`table
    {
      |table| == |records| &&
      forall i :: 0 <= i < |table| ==> table[i] == RenderRow(ListAll(records)[i])
    }

    ghost predicate Valid()
      reads this
    {
      StoreValid() && TableShown() && stats == StatsDisplay(Aggregate(records))
    }

    /** Opening the window on an existing table: initUI loads the table, then the header is filled in. */
    constructor (stored: seq<Workout>, sequence: int)
      requires IdsUnique(stored)
      requires forall w :: w in stored ==> 0 < w.id <= sequence
      requires 0 <= sequence <= MaxRowId
      ensures Valid()
      ensures records == stored && lastId == sequence
    {
      records := stored;
      lastId := sequence;
      issued := set w | w in stored :: w.id;
      table := [];
      stats := HeaderStats("0", "0", "0");
      new;
      LoadTable();
      UpdateStats();
    }

    /** load_table: clear the widget, then one row per record of the date-ordered listing. */
    method LoadTable()
      modifies this`table
      ensures TableShown()
    {
      var listing := ListAll(records);
      table := [];
      var row := 0;
      while row < |listing|
        invariant 0 <= row <= |listing|
        invariant |table| == row
        invariant forall i :: 0 <= i < row ==> table[i] == RenderRow(listing[i])
      {
        table := table + [RenderRow(listing[row])];
        row := row + 1;
      }
    }

    /** update_stats. */
    method UpdateStats()
      modifies this`stats
      ensures stats == StatsDisplay(Aggregate(records))
    {
      stats := StatsDisplay(Aggregate(records));
    }

    /**
     * add_workout. Empty calories or distance text: a warning, nothing
     * stored. Otherwise one row is inserted under the next id; an insert past
     * the largest rowid fails without a word, and the window refreshes either way.
     */
    method AddWorkout(date: string, calories: string, distance: string, description: string)
      requires Valid()
      modifies this
      ensures Valid()
      ensures calories == "" || distance == "" ==> unchanged(this)
      ensures calories != "" && distance != "" && old(lastId) == MaxRowId ==>
        records == old(records) && lastId == old(lastId) && issued == old(issued)
      ensures calories != "" && distance != "" && old(lastId) < MaxRowId ==>
        lastId == old(lastId) + 1 &&
        records == old(records) + [Workout(lastId, date, RealAffinity(calories), RealAffinity(distance), description)] &&
        issued == old(issued) + {lastId} &&
        (forall i :: i in old(issued) ==> i < lastId)
    {
      if calories == "" || distance == "" {
        return;
      }
      Insert(date, RealAffinity(calories), RealAffinity(distance), description);
      LoadTable();
      UpdateStats();
    }

    /**
     * INSERT INTO fitness (date, calories, distance, description) VALUES (?, ?, ?, ?):
     * the row gets the id after the largest ever assigned; past the largest
     * rowid the insert fails and the table is left as it was.
     */
    method Insert(date: string, calories: SqlValue, distance: SqlValue, description: string)
      requires StoreValid()
      modifies this`records, this`lastId, this`issued
      ensures StoreValid()
      ensures old(lastId) == MaxRowId ==> records == old(records) && lastId == old(lastId) && issued == old(issued)
      ensures old(lastId) < MaxRowId ==>
        lastId == old(lastId) + 1 &&
        records == old(records) + [Workout(lastId, date, calories, distance, description)] &&
        issued == old(issued) + {lastId} &&
        (forall i :: i in old(issued) ==> i < lastId)
    {
      if lastId < MaxRowId {
        var id := lastId + 1;
        var w := Workout(id, date, calories, distance, description);
        AppendKeepsStoreValid(records, issued, lastId, w);
        records := records + [w];
        lastId := id;
        issued := issued + {id};
      }
    }

    /**
     * delete_workout. No selected row (-1) or a "No" answer: nothing happens.
     * Otherwise the id is read back from the row's first cell and the record
     * carrying it is deleted.
     */
    method DeleteWorkout(selectedRow: int, confirmed: bool)
      requires Valid()
      requires -1 <= selectedRow < |table|
      modifies this
      ensures Valid()
      ensures selectedRow == -1 || !confirmed ==> unchanged(this)
      ensures selectedRow != -1 && confirmed ==>
        records == RemoveId(old(records), old(ListAll(records))[selectedRow].id) &&
        lastId == old(lastId) && issued == old(issued)
    {
      if selectedRow == -1 {
        return;
      }
      ghost var shown := ListAll(records)[selectedRow];
      assert table[selectedRow] == RenderRow(shown);
      RenderRowId(shown);
      var parsed := ParseInt(table[selectedRow].id);
      var id := parsed.value;
      if !confirmed {
        return;
      }
      RemoveKeepsStoreValid(records, issued, id);
      records := RemoveId(records, id);
      assert StoreValid();
      LoadTable();
      UpdateStats();
    }

    /** calculate_calories up to plotting: read the pairs, fill the two lists, guard, normalise. */
    method CalculateCalories() returns (outcome: ChartOutcome)
      ensures outcome == ChartOf(records)
    {
      var query := ByDistanceAscending(records);
      var distances, calories := ExtractSeries(query);
      if distances == [] || calories == [] {
        return NoData;
      }
      outcome := Scatter(distances, calories, Normalize(calories));
    }
  }

  /**
   * What add stores is what the window later reads back: `float()` in
   * load_table gets the number the form text spelled (or fails, showing "0"),
   * and the chart's comma-stripping `float()` gets the text read without its
   * thousands separators.
   */
  lemma StoredValueReadBack(s: string)
    ensures ToFloat(RealAffinity(s)) == ParseNumber(s)
    ensures CleanNumber(RealAffinity(s)) == ParseNumber(RemoveCommas(s))
  {
    if ParseNumber(s).Some? {
      assert ',' !in s by {
        if ',' in s { CommaIsNotNumber(s); }
      }
      RemoveCommasKeeps(s);
    }
  }

  /** Adding a row under the next id keeps ids unique, issued and bounded. */
  lemma AppendKeepsStoreValid(records: seq<Workout>, issued: set<int>, lastId: int, w: Workout)
    requires IdsUnique(records)
    requires forall r :: r in records ==> r.id in issued
    requires forall i :: i in issued ==> 0 < i <= lastId
    requires 0 <= lastId < MaxRowId && w.id == lastId + 1
    ensures IdsUnique(records + [w])
    ensures forall r :: r in records + [w] ==> r.id in issued + {w.id}
    ensures forall i :: i in issued + {w.id} ==> 0 < i <= lastId + 1
  {
    var rs := records + [w];
    forall i, j | 0 <= i < j < |rs| ensures rs[i].id != rs[j].id {
      if j == |records| {
        assert rs[i] in records;
      }
    }
  }

  /** Deleting rows keeps ids unique and issued. */
  lemma RemoveKeepsStoreValid(records: seq<Workout>, issued: set<int>, id: int)
    requires IdsUnique(records)
    requires forall r :: r in records ==> r.id in issued
    ensures IdsUnique(RemoveId(records, id))
    ensures forall r :: r in RemoveId(records, id) ==> r.id in issued
  {
    RemoveIdUnique(records, id);
    RemoveIdMembers(records, id);
  }

  /** The deleted record is the one the selected row shows, and no other record goes. */
  lemma DeleteRemovesShownRecord(records: seq<Workout>, selectedRow: int)
    requires IdsUnique(records)
    requires 0 <= selectedRow < |records|
    ensures var shown := ListAll(records)[selectedRow];
      var id := ParseInt(RenderRow(shown).id).value;
      var after := RemoveId(records, id);
      shown !in after && |after| == |records| - 1 &&
      forall w :: w in records && w != shown ==> w in after
  {
    ListAllSpec(records);
    var shown := ListAll(records)[selectedRow];
    assert shown in multiset(records);
    RenderRowId(shown);
    RemoveIdMembers(records, shown.id);
    RemoveIdPresent(records, shown.id);
    forall w | w in records && w != shown ensures w.id != shown.id {
      var i :| 0 <= i < |records| && records[i] == w;
      var j :| 0 <= j < |records| && records[j] == shown;
    }
  }
}
