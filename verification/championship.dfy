/**
 * The championship registry (ChampionshipManager.java).
 *
 * The Java singleton and its static counter become one explicit `Manager`
 * value. It holds registered drivers by reference (`DriverId`), so the
 * derived views read the drivers' current points from the `DriverTable`.
 */
module Championship {
  import opened Options
  import opened Drivers
  import opened RaceResults
  import opened Sorting

  datatype Manager = Manager(drivers: seq<DriverId>, races: seq<RaceResult>, totalDrivers: int)

  /** The state the singleton starts in: no drivers, no races, a zero counter. */
  function NewManager(): (m: Manager)
    ensures m.drivers == [] && m.races == [] && m.totalDrivers == 0
  {
    Manager([], [], 0)
  }

  /** `registerDriver`: appends the driver, duplicates included, and counts it. */
  function RegisterDriver(m: Manager, id: DriverId): (m': Manager)
    ensures m'.drivers == m.drivers + [id]
    ensures m'.totalDrivers == m.totalDrivers + 1
    ensures m'.races == m.races
  {
    m.(drivers := m.drivers + [id], totalDrivers := m.totalDrivers + 1)
  }

  /** `addRaceResult`: appends the race; drivers and counter are untouched. */
  function AddRaceResult(m: Manager, race: RaceResult): (m': Manager)
    ensures m'.races == m.races + [race]
    ensures m'.drivers == m.drivers && m'.totalDrivers == m.totalDrivers
  {
    m.(races := m.races + [race])
  }

  function TotalDrivers(m: Manager): int
  {
    m.totalDrivers
  }

  /** A call that changes the registry. */
  datatype Call = Register(id: DriverId) | AddRace(race: RaceResult)

  /** The registry after the calls `calls`, in order. */
  function Run(m: Manager, calls: seq<Call>): Manager
  {
    if calls == [] then m
    else
      var m' := Run(m, calls[..|calls| - 1]);
      match calls[|calls| - 1]
      case Register(id) => RegisterDriver(m', id)
      case AddRace(race) => AddRaceResult(m', race)
  }

  /** The drivers passed to `Register` calls, in call order. */
  function Registrations(calls: seq<Call>): seq<DriverId>
  {
    if calls == [] then []
    else
      var last := calls[|calls| - 1];
      Registrations(calls[..|calls| - 1]) + (if last.Register? then [last.id] else [])
  }

  /** The races passed to `AddRace` calls, in call order. */
  function RaceCalls(calls: seq<Call>): seq<RaceResult>
  {
    if calls == [] then []
    else
      var last := calls[|calls| - 1];
      RaceCalls(calls[..|calls| - 1]) + (if last.AddRace? then [last.race] else [])
  }

  /** Starting from the initial registry, the driver list is exactly the
      registered drivers in registration order, `getTotalDrivers` is the
      number of `registerDriver` calls, and the race list is exactly the
      added races. */
  lemma {:induction false} RunFromNew(calls: seq<Call>)
    ensures Run(NewManager(), calls).drivers == Registrations(calls)
    ensures TotalDrivers(Run(NewManager(), calls)) == |Registrations(calls)|
    ensures Run(NewManager(), calls).races == RaceCalls(calls)
  {
    if calls != [] {
      RunFromNew(calls[..|calls| - 1]);
    }
  }

  /** Each driver object's current points, keyed by reference. */
  function PointsKey(table: DriverTable): (key: map<DriverId, int>)
    ensures forall id: DriverId :: id in key <==> id < |table|
    ensures forall id :: id in key ==> key[id] == table[id].points
  {
    map id: DriverId | id < |table| :: table[id].points
  }

  /** `getDriverStandings`: a stable sort of a copy of the driver list by
      descending points; the registry itself is a value and is not changed. */
  function DriverStandings(table: DriverTable, m: Manager): (r: seq<DriverId>)
    requires Known(table, m.drivers)
    ensures multiset(r) == multiset(m.drivers)
    ensures Known(table, r)
    ensures forall i, j :: 0 <= i < j < |r| ==> table[r[i]].points >= table[r[j]].points
    ensures Keyed(r, PointsKey(table)) && Keyed(m.drivers, PointsKey(table))
    ensures Stable(r, m.drivers, PointsKey(table))
  {
    var key := PointsKey(table);
    var r := SortBy(m.drivers, key, Descending);
    SortByStable(m.drivers, key, Descending);
    assert forall i, j :: 0 <= i < j < |r| ==> Precedes(Descending, key[r[i]], key[r[j]]);
    r
  }

  /** The state of the `getLeadingDriver` loop after visiting `ids`: the
      index of the driver chosen so far, if any, and the best points seen,
      starting from `-1` and replaced only by strictly greater points. */
  function LeaderScan(table: DriverTable, ids: seq<DriverId>): (r: Best)
    requires Known(table, ids)
    ensures r.at.None? <==> forall i :: 0 <= i < |ids| ==> table[ids[i]].points < 0
    ensures r.at.None? ==> r.most == -1
    ensures r.at.Some? ==>
      && r.at.value < |ids|
      && r.most == table[ids[r.at.value]].points
      && (forall i :: 0 <= i < |ids| ==> table[ids[i]].points <= r.most)
      && (forall i :: 0 <= i < r.at.value ==> table[ids[i]].points < r.most)
  {
    if ids == [] then Best(None, -1)
    else
      var front := ids[..|ids| - 1];
      var prev := LeaderScan(table, front);
      var p := table[ids[|ids| - 1]].points;
      assert forall i :: 0 <= i < |front| ==> front[i] == ids[i];
      if p > prev.most then Best(Some(|ids| - 1), p) else prev
  }

  /** `getLeadingDriver`: the earliest registered driver with the most
      points. The loop starts from `-1` points, so it yields `null` (`None`)
      exactly when every driver has negative points, in particular when no
      driver is registered. */
  function LeadingDriver(table: DriverTable, m: Manager): (r: Option<DriverId>)
    requires Known(table, m.drivers)
    ensures r.None? <==> forall i :: 0 <= i < |m.drivers| ==> table[m.drivers[i]].points < 0
    ensures r.Some? ==>
      && r.value < |table|
      && (forall i :: 0 <= i < |m.drivers| ==> table[m.drivers[i]].points <= table[r.value].points)
      && exists k :: 0 <= k < |m.drivers| && m.drivers[k] == r.value
           && forall i :: 0 <= i < k ==> table[m.drivers[i]].points < table[r.value].points
  {
    var lead := LeaderScan(table, m.drivers);
    if lead.at.Some? then Some(m.drivers[lead.at.value]) else None
  }

  /** `getTotalChampionshipPoints`: the points of all registered drivers. */
  method TotalChampionshipPoints(table: DriverTable, m: Manager) returns (total: int)
    requires Known(table, m.drivers)
    ensures total == SumPoints(table, m.drivers)
  {
    total := 0;
    for i := 0 to |m.drivers|
      invariant total == SumPoints(table, m.drivers[..i])
    {
      assert m.drivers[..i + 1][..i] == m.drivers[..i];
      total := total + table[m.drivers[i]].points;
    }
    assert m.drivers[..|m.drivers|] == m.drivers;
  }

  /** A result recorded for a registered driver raises the championship
      total by the points awarded, once for each time that driver was
      registered. */
  lemma RecordRaisesTotal(table: DriverTable, m: Manager, race: RaceResult, id: DriverId, position: int, points: int)
    requires id < |table| && Known(table, m.drivers)
    ensures SumPoints(RecordResult(table, race, id, position, points).table, m.drivers)
            == SumPoints(table, m.drivers) + points * multiset(m.drivers)[id]
  {
    SumPointsAfterCredit(table, m.drivers, id, points);
  }

  /** When there is a leader, it heads the standings: the stable sort puts the
      earliest driver with the most points first. */
  lemma LeaderHeadsStandings(table: DriverTable, m: Manager)
    requires Known(table, m.drivers)
    requires LeadingDriver(table, m).Some?
    ensures DriverStandings(table, m) != []
    ensures DriverStandings(table, m)[0] == LeadingDriver(table, m).value
  {
    var key := PointsKey(table);
    var r := DriverStandings(table, m);
    var lead := LeaderScan(table, m.drivers);
    var k := lead.at.value;
    var best := lead.most;
    assert m.drivers[k] in multiset(r);
    var j :| 0 <= j < |r| && r[j] == m.drivers[k];
    assert r[0] in multiset(m.drivers);
    var i :| 0 <= i < |m.drivers| && m.drivers[i] == r[0];
    assert key[r[0]] == best by {
      if j > 0 { assert table[r[0]].points >= table[r[j]].points; }
    }
    TiedHead(r, key);
    TiedFirst(m.drivers, key, k);
    assert Tied(r, key, best) == Tied(m.drivers, key, best);
  }

  /** The standings are the only ordering of the registered drivers by
      non-increasing points that keeps registration order among equal
      points, so any stable sort computes them. */
  lemma StandingsAreUnique(table: DriverTable, m: Manager, r: seq<DriverId>)
    requires Known(table, m.drivers) && Known(table, r)
    requires Keyed(r, PointsKey(table)) && Keyed(m.drivers, PointsKey(table))
    requires forall i, j :: 0 <= i < j < |r| ==> table[r[i]].points >= table[r[j]].points
    requires Stable(r, m.drivers, PointsKey(table))
    ensures r == DriverStandings(table, m)
  {
    var key := PointsKey(table);
    assert Ordered(r, key, Descending);
    SortByIsTheStableSort(m.drivers, r, key, Descending);
  }

  /** Two drivers registered, then one race in which the first finishes first
      with 25 points and the second second with 18. */
  function OpeningRace(car: Car): (Manager, DriverTable)
  {
    var table := [NewDriver("A", "France", car), NewDriver("B", "Finland", car)];
    var m := RegisterDriver(RegisterDriver(NewManager(), 0), 1);
    var first := RecordResult(table, NewRaceResult("R1", "Here"), 0, 1, 25);
    var second := RecordResult(first.table, first.race, 1, 2, 18);
    (m, second.table)
  }

  /** The opening race leaves drivers 0 and 1 registered, in that order,
      with 25 and 18 points. */
  lemma OpeningRaceState(car: Car)
    ensures var (m, t) := OpeningRace(car);
            && m.drivers == [0, 1] && |t| == 2
            && t[0].points == 25 && t[1].points == 18
  {
  }

  /** After the opening race the first driver heads the standings ahead of
      the second. */
  lemma OpeningRaceStandings(car: Car)
    ensures var (m, t) := OpeningRace(car);
            Known(t, m.drivers) && DriverStandings(t, m) == [0, 1]
  {
    OpeningRaceState(car);
    var (m, t) := OpeningRace(car);
    StandingsAreUnique(t, m, [0, 1]);
  }

  /** After the opening race the first driver leads the championship. */
  lemma OpeningRaceLeader(car: Car)
    ensures var (m, t) := OpeningRace(car);
            Known(t, m.drivers) && LeadingDriver(t, m) == Some(0)
  {
    OpeningRaceState(car);
    var (m, t) := OpeningRace(car);
    var lead := LeadingDriver(t, m);
    assert t[m.drivers[0]].points >= 0;
    assert lead.value == 0 by {
      assert t[m.drivers[0]].points <= t[lead.value].points;
    }
  }

  /** After the opening race the championship total is 25 + 18 = 43. */
  lemma OpeningRaceTotal(car: Car)
    ensures var (m, t) := OpeningRace(car);
            Known(t, m.drivers) && SumPoints(t, m.drivers) == 43
  {
    OpeningRaceState(car);
    var (m, t) := OpeningRace(car);
    assert m.drivers[..1] == [0];
    assert SumPoints(t, m.drivers[..1]) == 25;
  }
}
