/**
 * The results of one race (app.py, get_race_results): the rows of the
 * per-race query are flattened into result objects, and the race's name,
 * round and circuit are taken from the last row, or "Unknown" when the
 * query returned nothing.
 */
module RaceResults {
  import opened Wrappers
  import opened Decimal

  /** One row of the per-race query; `position` is NULL for some finishes. */
  datatype RaceRow = RaceRow(
    raceName: string,
    raceRound: int,
    circuitName: string,
    position: Option<string>,
    points: int,
    raceTime: string,
    status: string,
    driverId: int,
    givenName: string,
    familyName: string,
    constructorName: string)

  datatype DriverRef = DriverRef(driverId: int, givenName: string, familyName: string)

  /** One entry of "Results"; the constructor object carries only its name. */
  datatype RaceResult = RaceResult(
    position: Option<string>,
    points: int,
    raceTime: string,
    status: string,
    driver: DriverRef,
    constructorName: string)

  /** The single element of the "Races" list. */
  datatype Race = Race(raceName: string, season: string, round: string, circuitName: string, results: seq<RaceResult>)

  /** The "RaceTable" object of the response. */
  datatype RaceTable = RaceTable(season: string, round: string, raceName: string, races: seq<Race>)

  const Unknown := "Unknown"

  method RaceResultsTable(season: int, rows: seq<RaceRow>) returns (table: RaceTable)
    ensures table.season == IntToDecimal(season)
    ensures |table.races| == 1
    ensures var race := table.races[0];
      && race.season == table.season && race.raceName == table.raceName && race.round == table.round
      && |race.results| == |rows|
      && (forall i :: 0 <= i < |rows| ==>
            && race.results[i].position == rows[i].position
            && race.results[i].points == rows[i].points
            && race.results[i].raceTime == rows[i].raceTime
            && race.results[i].status == rows[i].status
            && race.results[i].driver == DriverRef(rows[i].driverId, rows[i].givenName, rows[i].familyName)
            && race.results[i].constructorName == rows[i].constructorName)
      && (rows == [] ==> table.raceName == Unknown && table.round == Unknown && race.circuitName == Unknown)
      && (rows != [] ==>
            && table.raceName == rows[|rows| - 1].raceName
            && table.round == IntToDecimal(rows[|rows| - 1].raceRound)
            && race.circuitName == rows[|rows| - 1].circuitName)
  {
    var results: seq<RaceResult> := [];
    var raceName := Unknown;
    // `race_round` keeps the row's number and is passed through `str` when
    // the response is built; here the conversion is applied on assignment.
    var raceRound := Unknown;
    for i := 0 to |rows|
      invariant |results| == i
      invariant forall n :: 0 <= n < i ==>
        && results[n].position == rows[n].position
        && results[n].points == rows[n].points
        && results[n].raceTime == rows[n].raceTime
        && results[n].status == rows[n].status
        && results[n].driver == DriverRef(rows[n].driverId, rows[n].givenName, rows[n].familyName)
        && results[n].constructorName == rows[n].constructorName
      invariant i == 0 ==> raceName == Unknown && raceRound == Unknown
      invariant i > 0 ==> raceName == rows[i - 1].raceName && raceRound == IntToDecimal(rows[i - 1].raceRound)
    {
      var row := rows[i];
      raceName := row.raceName;
      raceRound := IntToDecimal(row.raceRound);
      results := results + [RaceResult(
        row.position, row.points, row.raceTime, row.status,
        DriverRef(row.driverId, row.givenName, row.familyName),
        row.constructorName)];
    }
    // The circuit is read from the loop variable left over from the last row.
    var circuit := if results != [] then rows[|rows| - 1].circuitName else Unknown;
    var seasonText := IntToDecimal(season);
    table := RaceTable(seasonText, raceRound, raceName, [Race(raceName, seasonText, raceRound, circuit, results)]);
  }
}
