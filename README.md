# F1 statistics API: results tables, race results and season links

A Dafny model of the in-memory logic of a Flask service (`app.py`) that
serves Formula 1 history out of a MySQL database. Most endpoints pass a SQL
query's rows straight into a fixed JSON shape; the parts modelled here are
the ones that build something from the rows:

- **Results tables** (`/api/f1/<season>/driverResultsTable.json` and
  `/api/f1/<season>/constructorResultsTable.json`). The season's rounds are
  read into a map. The per-race result rows are grouped into one entry per
  driver (or constructor). Each entry's `Races` map is pre-filled with every
  round mapped to `""`, and then each row writes its position into its round.
  Finally the final-round standings rows are walked in points order. Each row
  whose id was grouped sets that entry's `TotalPoints` and appends the entry
  to the output. The two endpoints are one generic routine here: `K` is the
  id type and `N` the display name (given and family name for drivers, the
  name for constructors). Modules `Grouping`, `StandingsJoin` and `ResultsTable`.
- **Race results** (`/api/f1/<season>/<round>/results.json`). Module
  `RaceResults`. Every row becomes one result object, in row order. The
  race's name, round and circuit come from the last row, or are `"Unknown"`
  when there are no rows.
- **Season links** (`/api/f1/seasons.json`). Module `Seasons`. Each year
  becomes `{season: str(year), url: "/api/f1/<year>.json"}`. A lemma shows
  that the URL is matched by the race-list route back to the same year.
- Python's `str` on integers, with a decimal reader as its inverse. Module `Decimal`.

Query results are inputs: sequences of row records. Points are integers.

In Python the output list holds references to the dictionary's entries, not
copies. The model therefore collects the appended ids and reads the entries
out of the final dictionary. If an id occurred twice among the standings
rows, both output entries would show the later row's points. With one
standings row per id, each entry shows the points of the row that appended it
(`ResultsTable.TableTotals`).
This also breaks the "sorted by descending points" order that app.py:275
claims. Standings rows (7, 10), (8, 8), (7, 5) give output totals 5, 8, 5
(`ResultsTable.RepeatedStandingBreaksOrder`). That is why
`ResultsTable.TableNonIncreasing` asks for one standings row per id.

Driver and constructor ids are `int`, the numeric `driverId` and
`constructorId` keys of the results and standings tables. The docstrings at
app.py:539 and app.py:566 show text ids such as 'hamilton'. Every routine
and proof here is generic in the id type, so nothing depends on this choice.

## Model

| member | source | states |
|---|---|---|
| `Decimal.NatToDecimal` | app.py:21 | `str` of a non-negative number is a non-empty run of digits with no leading zero (except "0" itself) |
| `Decimal.IntToDecimal` | app.py:138 | `str(season)`: the digits of the number, with a leading minus sign exactly when it is negative |
| `Decimal.IntDecimalRoundTrip` | app.py:138 | reading back the text `str(season)` produces gives the same integer |
| `Decimal.IntToDecimalInjective` | app.py:138 | two different seasons are never echoed as the same text |
| `Seasons.SeasonUrl` | app.py:21 | the URL is `/api/f1/`, then `str(year)`, then `.json`, and the text between prefix and suffix is exactly `str(year)` |
| `Seasons.SeasonLinks` | app.py:21 | one link per fetched year, so the list has as many entries as the query returned |
| `Seasons.SeasonLinkNamesItsYear` | app.py:21 | link i's `season` reads back as year i; its URL is matched by the route `/api/f1/<int:season>.json` with that same year (no negative year matches) |
| `Seasons.SeasonLinksDistinct` | app.py:21 | different years give different `season` texts and different URLs |
| `RaceResults.RaceResultsTable` | app.py:108-150 | one result per row in row order, with position, points, time, status, driver and constructor name copied unchanged; race name, round and circuit from the last row, all three `"Unknown"` with no rows; season echoed as `str(season)` |
| `Grouping.NewEntry` | app.py:237-245 | a new entry carries the row's id and name, `TotalPoints` 0, and a `Races` map whose keys are exactly the season's rounds, all `""` |
| `Grouping.AddRow` | app.py:235-246 | one pass of the row loop: the row's id becomes a key, other entries are untouched, a new entry starts with the season's rounds all `""` and 0 points, an existing one keeps its id, name and points, and only the row's round cell changes, to the row's position |
| `Grouping.GroupRows` | app.py:232-246 | the row loop leaves the dictionary equal to the fold `Grouped` of its rows |
| `Grouping.GroupedDomain` | app.py:234-237 | there is an entry for an id if and only if some result row carries it (one entry per id, as a map) |
| `Grouping.GroupedEntriesFresh` | app.py:237-244 | every entry holds its own key as id and still has `TotalPoints` 0 after the row loop |
| `Grouping.GroupedNameFromFirstRow` | app.py:236-242 | an entry's name fields are those of the first row with that id; later rows never change them |
| `Grouping.GroupedRaceRounds` | app.py:243-246 | a round is a key of an entry's `Races` if and only if it is a season round or a round of one of that entity's rows |
| `Grouping.GroupedLastRowWins` | app.py:246 | the cell of (entity, round) holds the position of the last row for that pair; for a constructor with two cars the later row overwrites the earlier |
| `Grouping.GroupedUnplayedRound` | app.py:243 | a season round with no row for the entity stays `""` |
| `StandingsJoin.Kept` | app.py:259-264 | the kept standings rows are no more than the standings rows and all carry grouped ids |
| `StandingsJoin.Rescore` | app.py:262-263 | the standings loop changes only `TotalPoints`, to the points of the last standings row for that id; ids, names and `Races` stay, and no key is added or removed |
| `StandingsJoin.JoinStandings` | app.py:259-264 | the standings loop leaves the dictionary rescored and appends exactly the ids of the kept rows, in order |
| `StandingsJoin.KeptMembership` | app.py:260-264 | a standings row is appended if and only if its id was grouped; entities with results but no standings row are dropped |
| `StandingsJoin.KeptAppend` | app.py:259-264 | filtering commutes with concatenation, so the appended entries keep the standings rows' order |
| `StandingsJoin.KeptNonIncreasing` | app.py:256-264 | standings rows in descending points give appended rows in descending points |
| `StandingsJoin.LastPointsOfDistinct` | app.py:263 | with one standings row per id, an id's total is its own row's points |
| `StandingsJoin.LastPoints` | app.py:260-263 | an id gets a total if and only if some standings row carries it, and the total is the points of the last such row |
| `ResultsTable.SeasonRaces` | app.py:219 | the `races` map has a key for every races row's round and no more keys than rows |
| `ResultsTable.SeasonRacesRounds` | app.py:219 | the rounds map has a key for a round if and only if a races row has that round |
| `ResultsTable.SeasonRacesLastName` | app.py:219 | a round maps to the name of the last races row for that round |
| `ResultsTable.BuildResultsTable` | app.py:207-278 | the two loops and the final read-out produce the response `Table` of the three query results |
| `ResultsTable.DriverResultsTable` | app.py:207-278 | the driver endpoint is the generic builder with driver ids and given/family names |
| `ResultsTable.ConstructorResultsTable` | app.py:322-386 | the constructor endpoint is the generic builder with constructor ids and names |
| `ResultsTable.TableFollowsStandings` | app.py:259-275 | output entry i is the grouped entry of kept standings row i, with the same id, name and `Races`; the output is no longer than the standings |
| `ResultsTable.TableEntities` | app.py:234-264 | an entity is listed if and only if it has a result row and a final-round standings row |
| `ResultsTable.TableTotals` | app.py:259-264 | an entry's `TotalPoints` is the points of the last standings row for its id; with one row per id, the row that appended it |
| `ResultsTable.TableNonIncreasing` | app.py:249-264 | standings in descending points with one row per id give output totals in descending order |
| `ResultsTable.RepeatedStandingBreaksOrder` | app.py:259-275 | with a repeated standings id the output totals are 5, 8, 5: the descending order app.py:275 claims does not hold |

## Left out

- `app.py` has no scenario or result-override code, so none is modelled.
- The database connection and every SQL statement (app.py:7-13 and each `cursor.execute`). Query results are input sequences; DISTINCT, JOIN, ORDER BY, COALESCE and MAX happen in MySQL.
- Flask routing, `request.args` parsing with `int(...)`, and `jsonify`. The only routing modelled is the pattern of the season race-list route, as the partner of the season links.
- The endpoints that only copy query rows into JSON: constructors and drivers per season (app.py:45, app.py:69), constructor and driver standings per round (app.py:165, app.py:295-304), races of a season (app.py:191), multi-year comparisons, all drivers/constructors and the year-range lists (app.py:389-653).
- Points are integers; the database stores them as decimals (half points exist).
- JSON turns the integer keys of the `Races` maps into strings; keys stay integers here.
- `RaceResults.RaceResultsTable`: `race_round` holds the row's number and is passed through `str` when the response is built; the model converts it when it is assigned. The result is the same.
- `Seasons.SeasonLinkNamesItsYear`: the route is matched on ASCII digits; Python's `\d` also accepts other Unicode digits, which the model does not.
