/**
 * First half of the results-table builders (app.py, get_driver_results_table
 * and get_constructor_results_table): the per-race result rows are grouped
 * into one entry per entity, whose "Races" map starts with every round of
 * the season mapped to "" and then receives each row's position.
 *
 * The two builders differ only in the entity: `K` is the id type (driverId
 * or constructorId) and `N` the display part copied from the first row seen.
 */
module Grouping {

  /** One row of the results query: entity, display name, round, position (NULL coalesced to "Ret"). */
  datatype ResultRow<K, N> = ResultRow(id: K, name: N, round: int, position: string)

  /** One value of `driver_data` / `constructor_data`. */
  datatype Entry<K, N> = Entry(id: K, name: N, races: map<int, string>, totalPoints: int)

  /** The entry created the first time an id is seen. */
  function NewEntry<K, N>(rounds: set<int>, row: ResultRow<K, N>): (e: Entry<K, N>)
    ensures e.id == row.id && e.name == row.name && e.totalPoints == 0
    ensures e.races.Keys == rounds
    ensures forall r :: r in e.races ==> e.races[r] == ""
  {
    Entry(row.id, row.name, map r | r in rounds :: "", 0)
  }

  /** One iteration of the row loop. */
  function AddRow<K, N>(data: map<K, Entry<K, N>>, rounds: set<int>, row: ResultRow<K, N>): (next: map<K, Entry<K, N>>)
    ensures next.Keys == data.Keys + {row.id}
    ensures forall k :: k in data && k != row.id ==> next[k] == data[k]
    ensures var e := next[row.id];
      && e.races.Keys == (if row.id in data then data[row.id].races.Keys else rounds) + {row.round}
      && e.races[row.round] == row.position
      && (forall r :: r in e.races && r != row.round ==>
            e.races[r] == if row.id in data then data[row.id].races[r] else "")
      && (row.id in data ==>
            e.id == data[row.id].id && e.name == data[row.id].name && e.totalPoints == data[row.id].totalPoints)
      && (row.id !in data ==> e.id == row.id && e.name == row.name && e.totalPoints == 0)
  {
    var e := if row.id in data then data[row.id] else NewEntry(rounds, row);
    data[row.id := e.(races := e.races[row.round := row.position])]
  }

  /** The dictionary after the row loop has consumed `rows`. */
  function Grouped<K, N>(rounds: set<int>, rows: seq<ResultRow<K, N>>): map<K, Entry<K, N>> {
    if rows == [] then map[]
    else AddRow(Grouped(rounds, rows[..|rows| - 1]), rounds, rows[|rows| - 1])
  }

  /** The row loop itself, mutating the dictionary one row at a time. */
  method GroupRows<K, N>(rounds: set<int>, rows: seq<ResultRow<K, N>>) returns (data: map<K, Entry<K, N>>)
    ensures data == Grouped(rounds, rows)
  {
    data := map[];
    for i := 0 to |rows|
      invariant data == Grouped(rounds, rows[..i])
    {
      var row := rows[i];
      if row.id !in data {
        data := data[row.id := NewEntry(rounds, row)];
      }
      data := data[row.id := data[row.id].(races := data[row.id].races[row.round := row.position])];
      assert rows[..i + 1][..i] == rows[..i];
    }
    assert rows[..|rows|] == rows;
  }

  /** There is an entry for an id exactly when some row carries that id. */
  lemma {:induction false} GroupedDomain<K, N>(rounds: set<int>, rows: seq<ResultRow<K, N>>, k: K)
    ensures k in Grouped(rounds, rows) <==> exists j :: 0 <= j < |rows| && rows[j].id == k
  {
    if rows != [] {
      var init := rows[..|rows| - 1];
      GroupedDomain(rounds, init, k);
      if k in Grouped(rounds, init) {
        var j :| 0 <= j < |init| && init[j].id == k;
        assert rows[j].id == k;
      }
      if k != rows[|rows| - 1].id && exists j :: 0 <= j < |rows| && rows[j].id == k {
        var j :| 0 <= j < |rows| && rows[j].id == k;
        assert init[j].id == k;
      }
    }
  }

  /** Every entry is keyed by its own id and still has `TotalPoints` 0. */
  lemma {:induction false} GroupedEntriesFresh<K, N>(rounds: set<int>, rows: seq<ResultRow<K, N>>, k: K)
    requires k in Grouped(rounds, rows)
    ensures Grouped(rounds, rows)[k].id == k && Grouped(rounds, rows)[k].totalPoints == 0
  {
    var init := rows[..|rows| - 1];
    if k in Grouped(rounds, init) {
      GroupedEntriesFresh(rounds, init, k);
    }
  }

  /** The display name is the one of the first row with that id, never overwritten later. */
  lemma {:induction false} GroupedNameFromFirstRow<K, N>(rounds: set<int>, rows: seq<ResultRow<K, N>>, j: int)
    requires 0 <= j < |rows|
    requires forall i :: 0 <= i < j ==> rows[i].id != rows[j].id
    ensures rows[j].id in Grouped(rounds, rows)
    ensures Grouped(rounds, rows)[rows[j].id].name == rows[j].name
  {
    var init := rows[..|rows| - 1];
    if j == |rows| - 1 {
      GroupedDomain(rounds, init, rows[j].id);
    } else {
      GroupedNameFromFirstRow(rounds, init, j);
    }
  }

  /**
   * The rounds of an entry's "Races" map are the season's rounds plus the
   * rounds of the rows for that entity (which the query keeps inside the season).
   */
  lemma {:induction false} GroupedRaceRounds<K, N>(rounds: set<int>, rows: seq<ResultRow<K, N>>, k: K, r: int)
    requires k in Grouped(rounds, rows)
    ensures r in Grouped(rounds, rows)[k].races
        <==> r in rounds || exists j :: 0 <= j < |rows| && rows[j].id == k && rows[j].round == r
  {
    var init := rows[..|rows| - 1];
    var last := rows[|rows| - 1];
    GroupedDomain(rounds, init, k);
    if k in Grouped(rounds, init) {
      GroupedRaceRounds(rounds, init, k, r);
      if exists j :: 0 <= j < |init| && init[j].id == k && init[j].round == r {
        var j :| 0 <= j < |init| && init[j].id == k && init[j].round == r;
        assert rows[j] == init[j];
      }
    }
    if exists j :: 0 <= j < |rows| && rows[j].id == k && rows[j].round == r {
      var j :| 0 <= j < |rows| && rows[j].id == k && rows[j].round == r;
      if j < |rows| - 1 {
        assert init[j] == rows[j];
      }
    }
  }

  /** A cell holds the position of the LAST row for that entity and round (two cars: the later row wins). */
  lemma {:induction false} GroupedLastRowWins<K, N>(rounds: set<int>, rows: seq<ResultRow<K, N>>, j: int)
    requires 0 <= j < |rows|
    requires forall i :: j < i < |rows| ==> !(rows[i].id == rows[j].id && rows[i].round == rows[j].round)
    ensures rows[j].id in Grouped(rounds, rows)
    ensures rows[j].round in Grouped(rounds, rows)[rows[j].id].races
    ensures Grouped(rounds, rows)[rows[j].id].races[rows[j].round] == rows[j].position
  {
    if j < |rows| - 1 {
      GroupedLastRowWins(rounds, rows[..|rows| - 1], j);
    }
  }

  /** A season round with no row for the entity keeps its pre-filled "". */
  lemma {:induction false} GroupedUnplayedRound<K, N>(rounds: set<int>, rows: seq<ResultRow<K, N>>, k: K, r: int)
    requires k in Grouped(rounds, rows)
    requires r in rounds
    requires forall j :: 0 <= j < |rows| ==> !(rows[j].id == k && rows[j].round == r)
    ensures r in Grouped(rounds, rows)[k].races
    ensures Grouped(rounds, rows)[k].races[r] == ""
  {
    var init := rows[..|rows| - 1];
    if k in Grouped(rounds, init) {
      GroupedUnplayedRound(rounds, init, k, r);
    }
  }
}
