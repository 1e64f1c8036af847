/**
 * The two results-table endpoints (app.py, get_driver_results_table and
 * get_constructor_results_table), as one routine generic in the entity.
 * The three query results are inputs: the season's races (round, name), the
 * per-race result rows and the final-round standings rows.
 */
module ResultsTable {
  import opened Wrappers
  import opened Decimal
  import opened Grouping
  import opened StandingsJoin

  /** One row of the season's races query. */
  datatype SeasonRace = SeasonRace(round: int, name: string)

  /** The "StandingsTable" object of the response. */
  datatype ResultsTable<K, N> = ResultsTable(season: string, races: map<int, string>, results: seq<Entry<K, N>>)

  datatype DriverName = DriverName(givenName: string, familyName: string)

  /** `{row["round"]: row["name"] for row in ...}`: a later row for the same round replaces an earlier one. */
  function SeasonRaces(raceRows: seq<SeasonRace>): (races: map<int, string>)
    ensures forall j :: 0 <= j < |raceRows| ==> raceRows[j].round in races
    ensures |races| <= |raceRows|
  {
    if raceRows == [] then map[]
    else SeasonRaces(raceRows[..|raceRows| - 1])[raceRows[|raceRows| - 1].round := raceRows[|raceRows| - 1].name]
  }

  /** The response the builders produce from the three query results. */
  function Table<K(==), N>(season: int, raceRows: seq<SeasonRace>, rows: seq<ResultRow<K, N>>, standings: seq<StandingRow<K>>)
    : ResultsTable<K, N>
  {
    var races := SeasonRaces(raceRows);
    var grouped := Grouped(races.Keys, rows);
    var kept := Kept(grouped.Keys, standings);
    var scored := Rescore(grouped, standings);
    ResultsTable(IntToDecimal(season), races, seq(|kept|, i requires 0 <= i < |kept| => scored[kept[i].id]))
  }

  /**
   * The builder: group the rows, then walk the standings. The output list
   * holds references to the dictionary's entries, so it is read out of the
   * dictionary once both loops are done.
   */
  method BuildResultsTable<K(==), N>(season: int, raceRows: seq<SeasonRace>, rows: seq<ResultRow<K, N>>, standings: seq<StandingRow<K>>)
    returns (table: ResultsTable<K, N>)
    ensures table == Table(season, raceRows, rows, standings)
  {
    var races := SeasonRaces(raceRows);
    var grouped := GroupRows(races.Keys, rows);
    var scored, picked := JoinStandings(grouped, standings);
    var results := seq(|picked|, i requires 0 <= i < |picked| => scored[picked[i]]);
    table := ResultsTable(IntToDecimal(season), races, results);
  }

  /** `/api/f1/<season>/driverResultsTable.json`: entities are drivers, named by given and family name. */
  method DriverResultsTable(season: int, raceRows: seq<SeasonRace>, rows: seq<ResultRow<int, DriverName>>, standings: seq<StandingRow<int>>)
    returns (table: ResultsTable<int, DriverName>)
    ensures table == Table(season, raceRows, rows, standings)
  {
    table := BuildResultsTable(season, raceRows, rows, standings);
  }

  /** `/api/f1/<season>/constructorResultsTable.json`: entities are constructors, named by their name. */
  method ConstructorResultsTable(season: int, raceRows: seq<SeasonRace>, rows: seq<ResultRow<int, string>>, standings: seq<StandingRow<int>>)
    returns (table: ResultsTable<int, string>)
    ensures table == Table(season, raceRows, rows, standings)
  {
    table := BuildResultsTable(season, raceRows, rows, standings);
  }

  /** The season's rounds are exactly the rounds of the races rows. */
  lemma {:induction false} SeasonRacesRounds(raceRows: seq<SeasonRace>, r: int)
    ensures r in SeasonRaces(raceRows) <==> exists j :: 0 <= j < |raceRows| && raceRows[j].round == r
  {
    if raceRows != [] {
      var init := raceRows[..|raceRows| - 1];
      SeasonRacesRounds(init, r);
      if exists j :: 0 <= j < |init| && init[j].round == r {
        var j :| 0 <= j < |init| && init[j].round == r;
        assert raceRows[j].round == r;
      }
      if r != raceRows[|raceRows| - 1].round && exists j :: 0 <= j < |raceRows| && raceRows[j].round == r {
        var j :| 0 <= j < |raceRows| && raceRows[j].round == r;
        assert init[j].round == r;
      }
    }
  }

  /** A round's name is the one of the last races row for that round. */
  lemma {:induction false} SeasonRacesLastName(raceRows: seq<SeasonRace>, j: int)
    requires 0 <= j < |raceRows|
    requires forall i :: j < i < |raceRows| ==> raceRows[i].round != raceRows[j].round
    ensures raceRows[j].round in SeasonRaces(raceRows)
    ensures SeasonRaces(raceRows)[raceRows[j].round] == raceRows[j].name
  {
    if j < |raceRows| - 1 {
      SeasonRacesLastName(raceRows[..|raceRows| - 1], j);
    }
  }

  /**
   * Each output entry is the grouped entry of the standings row at the same
   * place among the kept rows, with only its total changed; the output is no
   * longer than the standings and follows their order (see KeptAppend).
   */
  lemma TableFollowsStandings<K, N>(season: int, raceRows: seq<SeasonRace>, rows: seq<ResultRow<K, N>>, standings: seq<StandingRow<K>>, i: int)
    requires 0 <= i < |Table(season, raceRows, rows, standings).results|
    ensures var grouped := Grouped(SeasonRaces(raceRows).Keys, rows);
      var kept := Kept(grouped.Keys, standings);
      var e := Table(season, raceRows, rows, standings).results[i];
      && |Table(season, raceRows, rows, standings).results| == |kept| <= |standings|
      && e.id == kept[i].id
      && e.name == grouped[e.id].name
      && e.races == grouped[e.id].races
  {
    var grouped := Grouped(SeasonRaces(raceRows).Keys, rows);
    var kept := Kept(grouped.Keys, standings);
    GroupedEntriesFresh(SeasonRaces(raceRows).Keys, rows, kept[i].id);
  }

  /** An entity is listed exactly when it has a result row AND a final standings row. */
  lemma TableEntities<K, N>(season: int, raceRows: seq<SeasonRace>, rows: seq<ResultRow<K, N>>, standings: seq<StandingRow<K>>, k: K)
    ensures (exists i :: 0 <= i < |Table(season, raceRows, rows, standings).results|
                         && Table(season, raceRows, rows, standings).results[i].id == k)
        <==> (exists j :: 0 <= j < |rows| && rows[j].id == k) && (exists j :: 0 <= j < |standings| && standings[j].id == k)
  {
    var rounds := SeasonRaces(raceRows).Keys;
    var grouped := Grouped(rounds, rows);
    var kept := Kept(grouped.Keys, standings);
    var results := Table(season, raceRows, rows, standings).results;
    GroupedDomain(rounds, rows, k);
    if exists i :: 0 <= i < |results| && results[i].id == k {
      var i :| 0 <= i < |results| && results[i].id == k;
      TableFollowsStandings(season, raceRows, rows, standings, i);
      KeptMembership(grouped.Keys, standings, kept[i]);
      var j :| 0 <= j < |standings| && standings[j] == kept[i];
      assert standings[j].id == k;
    }
    if (exists j :: 0 <= j < |rows| && rows[j].id == k) && (exists j :: 0 <= j < |standings| && standings[j].id == k) {
      var j :| 0 <= j < |standings| && standings[j].id == k;
      KeptMembership(grouped.Keys, standings, standings[j]);
      var i :| 0 <= i < |kept| && kept[i] == standings[j];
      TableFollowsStandings(season, raceRows, rows, standings, i);
      assert results[i].id == k;
    }
  }

  /**
   * An entry's `TotalPoints` is the points of the last standings row for its
   * id; with one standings row per id, that is the row that appended it.
   */
  lemma TableTotals<K, N>(season: int, raceRows: seq<SeasonRace>, rows: seq<ResultRow<K, N>>, standings: seq<StandingRow<K>>, i: int)
    requires 0 <= i < |Table(season, raceRows, rows, standings).results|
    ensures var e := Table(season, raceRows, rows, standings).results[i];
      LastPoints(standings, e.id) == Some(e.totalPoints)
    ensures DistinctIds(standings) ==>
      Table(season, raceRows, rows, standings).results[i].totalPoints
        == Kept(Grouped(SeasonRaces(raceRows).Keys, rows).Keys, standings)[i].points
  {
    var grouped := Grouped(SeasonRaces(raceRows).Keys, rows);
    var kept := Kept(grouped.Keys, standings);
    TableFollowsStandings(season, raceRows, rows, standings, i);
    KeptMembership(grouped.Keys, standings, kept[i]);
    var j :| 0 <= j < |standings| && standings[j] == kept[i];
    if DistinctIds(standings) {
      LastPointsOfDistinct(standings, j);
    }
  }

  /** Standings in descending points, one row per id: the output's totals are descending too. */
  lemma TableNonIncreasing<K, N>(season: int, raceRows: seq<SeasonRace>, rows: seq<ResultRow<K, N>>, standings: seq<StandingRow<K>>)
    requires NonIncreasing(standings)
    requires DistinctIds(standings)
    ensures var results := Table(season, raceRows, rows, standings).results;
      forall i, j :: 0 <= i < j < |results| ==> results[i].totalPoints >= results[j].totalPoints
  {
    var results := Table(season, raceRows, rows, standings).results;
    var kept := Kept(Grouped(SeasonRaces(raceRows).Keys, rows).Keys, standings);
    KeptNonIncreasing(Grouped(SeasonRaces(raceRows).Keys, rows).Keys, standings);
    forall i, j | 0 <= i < j < |results|
      ensures results[i].totalPoints >= results[j].totalPoints
    {
      TableTotals(season, raceRows, rows, standings, i);
      TableTotals(season, raceRows, rows, standings, j);
    }
  }

  /**
   * Why TableNonIncreasing needs one standings row per id: the output list
   * holds references to the dictionary's entries, so a repeated id shows its
   * later points in both places, and the order is no longer descending.
   */
  lemma RepeatedStandingBreaksOrder()
    ensures var t := Table(2021, [SeasonRace(1, "Bahrain")],
                           [ResultRow(7, "A", 1, "1"), ResultRow(8, "B", 1, "2")],
                           [StandingRow(7, 10), StandingRow(8, 8), StandingRow(7, 5)]);
      && |t.results| == 3
      && t.results[0].totalPoints == 5
      && t.results[1].totalPoints == 8
      && t.results[2].totalPoints == 5
  {
    var raceRows := [SeasonRace(1, "Bahrain")];
    var rows := [ResultRow(7, "A", 1, "1"), ResultRow(8, "B", 1, "2")];
    var standings := [StandingRow(7, 10), StandingRow(8, 8), StandingRow(7, 5)];
    var keys := Grouped(SeasonRaces(raceRows).Keys, rows).Keys;
    assert 7 in keys && 8 in keys by {
      GroupedDomain(SeasonRaces(raceRows).Keys, rows, 7);
      GroupedDomain(SeasonRaces(raceRows).Keys, rows, 8);
      assert rows[0].id == 7 && rows[1].id == 8;
    }
    assert standings[..2] == [standings[0], standings[1]];
    assert standings[..2][..1] == [standings[0]];
    assert standings[..1] == [standings[0]] && standings[..1][..0] == [];
    assert Kept(keys, standings[..1]) == [standings[0]];
    assert Kept(keys, standings[..2]) == standings[..2];
    assert Kept(keys, standings) == standings;
    assert LastPoints(standings, 7) == Some(5);
    assert standings[..2][1].id == 8;
    assert LastPoints(standings, 8) == Some(8);
    TableTotals(2021, raceRows, rows, standings, 0);
    TableTotals(2021, raceRows, rows, standings, 1);
    TableTotals(2021, raceRows, rows, standings, 2);
    TableFollowsStandings(2021, raceRows, rows, standings, 0);
    TableFollowsStandings(2021, raceRows, rows, standings, 1);
    TableFollowsStandings(2021, raceRows, rows, standings, 2);
  }
}
