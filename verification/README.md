# Rally championship scoring, modelled in Dafny

This project models the scoring and ranking core of a small Java rally
championship manager. Drivers collect points race by race. A race result
stores each driver's finishing position. The championship registry derives
standings, the leader and the total points. A statistics class computes the
average, the most successful country and the number of races.

Java object references become explicit values:

- Every `Driver` object lives in a `DriverTable` and is named by its index, a
  `DriverId`. `Driver` defines no `equals`/`hashCode`, so the Java maps and
  lists compare drivers by reference. Points therefore never affect a lookup.
- `RallyRaceResult.recordResult` changes the driver object as well as the
  race, so it takes and returns both the table and the race.
- The `ChampionshipManager` singleton and its static counter become one
  `Manager` value, passed explicitly to the functions that read it.
- Where the Java code iterates a `HashMap`, the iteration order is a
  parameter (`order`). `Enumerates` requires it to list every key exactly
  once. Java leaves this order unspecified.
- `List.sort` is a stable merge sort. It is modelled by a stable insertion
  sort, `Sorting.SortBy`. `Sorting.SortByIsTheStableSort` proves that any
  ordered, stable rearrangement gives the same sequence, so the choice of
  algorithm cannot be observed.

Modules, one per source file, plus two helpers:

| file | module | models |
|---|---|---|
| options.dfy | `Options` | `null`, `NaN` and thrown lookups, as `None` |
| sorting.dfy | `Sorting` | stable sort by an integer key; "enumerates a key set" |
| drivers.dfy | `Drivers` | `Driver.java`, the driver table, sums of points |
| race_results.dfy | `RaceResults` | `RallyRaceResult.java` |
| championship.dfy | `Championship` | `ChampionshipManager.java` |
| statistics.dfy | `Statistics` | `ChampionshipStatistics.java` |

Behaviour of the code that differs from what its names or documentation suggest, modelled as written:

- `getDriverPoints` is documented as returning a driver's points in the race.
  It returns the stored finishing position (`RaceResults.DriverPoints`,
  `RaceResults.DriverPointsIsPosition`). For a driver with no result it
  unboxes `null` and throws. That case is `None`.
- `addPoints` accepts any `int`, negative amounts included. Nothing rejects
  them.
- `getLeadingDriver` starts from `-1` and uses a strict `>`. It returns `null`
  (`None`) exactly when every registered driver has negative points, and in
  particular when there are no drivers.
- `calculateAveragePointsPerDriver` divides a `double` by `0` when the list is
  empty. That yields `NaN` rather than an exception, and `NaN` is modelled as
  `None`.
- `findMostSuccessfulCountry` compares with `>=` starting from `-1`. Among
  tied countries it picks the one iterated last (`Statistics.TopCountry`,
  `Statistics.TieGoesToLastIterated`). It returns `""` when no country's total
  reaches `-1`, which includes the empty list.
- Positions are not checked. Recording a driver twice adds both point
  amounts and keeps only the second position.

## Model

| member | source | states |
|---|---|---|
| Drivers.NewDriver | src/main/java/main/Driver.java:20-25 | A new driver has 0 points and keeps the name, country and car it was given. |
| Drivers.AddPoints | src/main/java/main/Driver.java:77-79 | `addPoints(n)` changes the total by exactly `n`. Name, country and car are unchanged. |
| Drivers.SetCar | src/main/java/main/Driver.java:68-70 | `setCar` replaces the car. Points, name and country are unchanged. |
| Drivers.AddAllSums | src/main/java/main/Driver.java:77-79 | After any sequence of `addPoints` calls, the total has grown by the sum of the arguments. Name, country and car are still the originals. |
| Drivers.NewDriverTotal | src/main/java/main/Driver.java:20-25 | A freshly built driver's points equal the sum of all amounts later added. |
| Drivers.Credit | src/main/java/main/RallyRaceResult.java:58 | Adding points to one driver object changes only that object: its points move by `n`, its identity and car stay, and every other driver is untouched. |
| Drivers.SumPointsAfterCredit | src/main/java/main/ChampionshipManager.java:129-136 | Crediting `n` points to a driver raises the summed points of any driver list by `n` times the number of times that driver occurs in it. |
| RaceResults.NewRaceResult | src/main/java/main/RallyRaceResult.java:24-28 | A new race result has no entries and keeps its name and location. |
| RaceResults.RecordResult | src/main/java/main/RallyRaceResult.java:57-60 | Recording adds the points to the driver's total and stores or overwrites its position. No other driver's total or position changes, and the race name and location stay. |
| RaceResults.DriverPoints | src/main/java/main/RallyRaceResult.java:69-71 | Returns the stored position when the driver has an entry, and fails (`None`) exactly when it has none. |
| RaceResults.DriverPointsIsPosition | src/main/java/main/RallyRaceResult.java:57-71 | After `recordResult(d, pos, pts)`, `getDriverPoints(d)` answers `pos` whatever `pts` was. Other drivers' answers do not change. |
| RaceResults.RecordTwice | src/main/java/main/RallyRaceResult.java:58-59 | Recording a driver twice adds both point amounts, keeps only the second position, and leaves a single entry. |
| RaceResults.RecordNotIdempotent | src/main/java/main/RallyRaceResult.java:57-60 | Repeating a `recordResult` call with non-zero points gives a different state: the call is not idempotent. |
| RaceResults.Results | src/main/java/main/RallyRaceResult.java:79-93 | `getResults` lists every recorded driver exactly once, by non-decreasing position. Equal positions keep the map's iteration order. |
| RaceResults.ResultsIgnoreOrder | src/main/java/main/RallyRaceResult.java:81-84 | When no two drivers share a position, `getResults` is the same for every iteration order of the map. |
| RaceResults.DistinctOrderIsUnique | src/main/java/main/RallyRaceResult.java:79-93 | When no two drivers share a position, there is exactly one listing of the recorded drivers by ascending position. |
| RaceResults.ResultsExample | src/main/java/main/RallyRaceResult.java:79-93 | Drivers finishing second, first and fourth are listed first-place driver first, whatever the map's order. |
| Sorting.SortBy | src/main/java/main/ChampionshipManager.java:93 | The sort returns a permutation of its input, ordered by the key in the requested direction. It has no duplicates when the input has none. |
| Sorting.SortByStable | src/main/java/main/ChampionshipManager.java:93 | The sort is stable: elements with equal keys keep their input order. |
| Sorting.SortByIsTheStableSort | src/main/java/main/RallyRaceResult.java:84 | Any rearrangement that is ordered by the key and stable equals the sort's result. |
| Championship.NewManager | src/main/java/main/ChampionshipManager.java:21-24 | The registry starts with no drivers, no races and a zero driver counter. |
| Championship.RegisterDriver | src/main/java/main/ChampionshipManager.java:71-74 | `registerDriver` appends the driver at the end, duplicates included, and adds 1 to the counter. Races are unchanged. |
| Championship.AddRaceResult | src/main/java/main/ChampionshipManager.java:81-83 | `addRaceResult` appends the race. Drivers and counter are unchanged. |
| Championship.RunFromNew | src/main/java/main/ChampionshipManager.java:62-83 | From the initial registry, any sequence of calls leaves the registered drivers in call order, with `getTotalDrivers` equal to their number, and the races in call order. |
| Championship.DriverStandings | src/main/java/main/ChampionshipManager.java:90-95 | Standings are a permutation of the registered drivers, sorted by non-increasing points. Drivers with equal points keep registration order. |
| Championship.StandingsAreUnique | src/main/java/main/ChampionshipManager.java:90-95 | Any ordering of the drivers by non-increasing points that keeps registration order among ties equals the standings. |
| Championship.LeaderScan | src/main/java/main/ChampionshipManager.java:106-117 | The leader loop picks the earliest driver with the most points, and picks none exactly when all points are negative. |
| Championship.LeadingDriver | src/main/java/main/ChampionshipManager.java:102-118 | The leader has at least as many points as every driver. No earlier-registered driver has as many. The result is `null` exactly when all points are negative or no driver is registered. |
| Championship.LeaderHeadsStandings | src/main/java/main/ChampionshipManager.java:90-118 | Whenever there is a leader, it is the first driver in the standings. |
| Championship.TotalChampionshipPoints | src/main/java/main/ChampionshipManager.java:125-137 | The loop returns the sum of the points of all registered drivers. |
| Championship.RecordRaisesTotal | src/main/java/main/ChampionshipManager.java:129-136 | A result recorded for a driver raises the championship total by the awarded points, once per registration of that driver. |
| Championship.OpeningRaceStandings | src/main/java/main/ChampionshipManager.java:90-95 | Two drivers and one race scoring 25 and 18: the standings list the 25-point driver first. |
| Championship.OpeningRaceLeader | src/main/java/main/ChampionshipManager.java:102-118 | In the same scenario the 25-point driver leads. |
| Championship.OpeningRaceTotal | src/main/java/main/ChampionshipManager.java:125-137 | In the same scenario the championship total is 43. |
| Statistics.AveragePoints | src/main/java/main/ChampionshipStatistics.java:20-30 | The average times the number of drivers equals the points sum. It is undefined (`NaN`) exactly for an empty list. |
| Statistics.AverageIsBetweenExtremes | src/main/java/main/ChampionshipStatistics.java:20-30 | The average lies between the smallest and largest points of the drivers. |
| Statistics.Tally | src/main/java/main/ChampionshipStatistics.java:41-50 | The per-country map has exactly the drivers' countries as keys. Each value is the total points of that country's drivers. |
| Statistics.GroupingConservesPoints | src/main/java/main/ChampionshipStatistics.java:44-50 | The per-country totals, summed in any iteration order, equal the total points of all drivers. |
| Statistics.CountryScan | src/main/java/main/ChampionshipStatistics.java:52-61 | The selection loop keeps a maximal total, and picks the last maximal country in iteration order. It picks none exactly when every total is below `-1`. |
| Statistics.TopCountry | src/main/java/main/ChampionshipStatistics.java:52-63 | The result is `""` when no total reaches `-1`. Otherwise it is a country with the greatest total, and the last such in iteration order. |
| Statistics.TieGoesToLastIterated | src/main/java/main/ChampionshipStatistics.java:56-61 | Two countries tied on 25 points: each iteration order reports the country iterated last. |
| Statistics.MostSuccessfulCountry | src/main/java/main/ChampionshipStatistics.java:39-64 | An empty list gives `""`. When some country's total reaches `-1`, the result is the country of one of the drivers, and its total is at least every listed driver's country total. When every country's total is below `-1`, the result is `""`. |
| Statistics.MostSuccessfulIsADriversCountry | src/main/java/main/ChampionshipStatistics.java:39-64 | With at least one driver and no negative points, the result is the country of a listed driver, and its total is at least every other country's total. |
| Statistics.TotalRacesHeldCountsCalls | src/main/java/main/ChampionshipStatistics.java:71-77 | From the initial registry, the number of races held equals the number of `addRaceResult` calls. |

## Left out

- Drivers.AddPoints: Java's 32-bit `int` wrap-around is not modelled. Points are unbounded integers, which is exact as long as every total and every running sum stays within [-2^31, 2^31 - 1]. Negative amounts are accepted, so a total can also wrap below -2^31 in Java.
- Drivers.SumPointsAfterCredit: the same unbounded-integer reading applies to every sum of points.
- Championship.TotalChampionshipPoints: the Java `int` accumulator wraps once a running sum leaves [-2^31, 2^31 - 1]. The model's does not. It is exact as long as every running sum stays within that range.
- Statistics.Tally: per-country `Integer` sums are unbounded here. Java wraps them.
- Statistics.AveragePoints: the quotient is an exact `real`. Java computes it in `double` and rounds it.
- Car performance ratings (`AsphaltCar`, `GravelCar`, `RallyCar.calculatePerformance`): floating-point multiplication and locale-dependent formatting. A car is an immutable value that a driver carries: its make, model and horsepower, compared by value. Downforce and suspension fields are dropped with it.
- `Main.java`: demo wiring and console output only.
- `RaceResult.java`: an interface with declarations and no behaviour.
- Singleton lazy initialisation, and the static `totalRaces` counter, which is never updated. One explicit `Manager` value stands in for the singleton.
- `Driver.toString`: presentation only.
- Getters (`getName`, `getCountry`, `getPoints`, `getCar`, `getRaceName`, `getLocation`, `getDrivers`, `getRaces`, `getTotalDrivers`, and `getTotalRacesHeld` as `Statistics.TotalRacesHeld`): they are field reads of the datatypes. What `getTotalDrivers` and `getTotalRacesHeld` count is stated by `Championship.RunFromNew` and `Statistics.TotalRacesHeldCountsCalls`.
- Aliasing of race results: the registry stores a race by value when it is added. A result recorded into that race afterwards is not reflected in the stored copy. The core only ever reads the number of stored races, which this does not change.
- Registering `null`: a `DriverId` always names a driver object. Operations that read points require every listed id to be in the table (`Known`). The Java code would throw a `NullPointerException` there, except in `getDriverStandings` on a one-driver list: it sorts that list without comparing, reads no points, and returns `[null]`. The model does not cover that case.
