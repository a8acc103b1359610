/**
 * The result of one rally (RallyRaceResult.java).
 *
 * The Java class keeps a `HashMap<Driver, Integer>` from driver to finishing
 * position. Recording a result also changes the driver object itself, so the
 * operations that record take and return the `DriverTable` as well.
 */
module RaceResults {
  import opened Options
  import opened Drivers
  import opened Sorting

  datatype RaceResult = RaceResult(raceName: string, location: string, positions: map<DriverId, int>)

  /** The `RallyRaceResult` constructor: no driver has a result yet. */
  function NewRaceResult(raceName: string, location: string): (r: RaceResult)
    ensures r.positions == map[]
    ensures r.raceName == raceName && r.location == location
  {
    RaceResult(raceName, location, map[])
  }

  /** The driver objects and the race after one `recordResult` call. */
  datatype Recorded = Recorded(table: DriverTable, race: RaceResult)

  /** `recordResult(driver, position, points)`: the driver's running total
      grows by `points` and `position` becomes its stored position in this
      race, replacing any earlier one. Nothing else changes. */
  function RecordResult(table: DriverTable, race: RaceResult, id: DriverId, position: int, points: int): (r: Recorded)
    requires id < |table|
    ensures |r.table| == |table|
    ensures r.table[id].points == table[id].points + points
    ensures r.table[id].name == table[id].name && r.table[id].country == table[id].country
    ensures r.table[id].car == table[id].car
    ensures forall j :: 0 <= j < |table| && j != id ==> r.table[j] == table[j]
    ensures r.race.raceName == race.raceName && r.race.location == race.location
    ensures r.race.positions.Keys == race.positions.Keys + {id}
    ensures r.race.positions[id] == position
    ensures forall j :: j in race.positions && j != id ==> r.race.positions[j] == race.positions[j]
  {
    Recorded(Credit(table, id, points), race.(positions := race.positions[id := position]))
  }

  /** `getDriverPoints`: despite its name and documentation, it returns the
      stored finishing position. A driver without a result makes the Java
      code unbox `null` and throw, modelled as `None`. */
  function DriverPoints(race: RaceResult, id: DriverId): (r: Option<int>)
    ensures r.None? <==> id !in race.positions
    ensures r.Some? ==> r.value == race.positions[id]
  {
    if id in race.positions then Some(race.positions[id]) else None
  }

  /** What `getDriverPoints` reports after `recordResult(id, position, points)`
      is the position, whatever the points were; other drivers' answers stay. */
  lemma DriverPointsIsPosition(table: DriverTable, race: RaceResult, id: DriverId, position: int, points: int, other: DriverId)
    requires id < |table|
    ensures DriverPoints(RecordResult(table, race, id, position, points).race, id) == Some(position)
    ensures other != id ==>
      DriverPoints(RecordResult(table, race, id, position, points).race, other) == DriverPoints(race, other)
  {
  }

  /** Recording the same driver twice adds both amounts of points but keeps
      only the second position, and the driver has one entry. */
  lemma RecordTwice(table: DriverTable, race: RaceResult, id: DriverId, p1: int, x1: int, p2: int, x2: int)
    requires id < |table|
    ensures var once := RecordResult(table, race, id, p1, x1);
            var twice := RecordResult(once.table, once.race, id, p2, x2);
            && twice.table[id].points == table[id].points + x1 + x2
            && twice.race.positions[id] == p2
            && twice.race.positions.Keys == race.positions.Keys + {id}
  {
  }

  /** `recordResult` is not idempotent: repeating a call with non-zero points
      changes the driver's total again. */
  lemma RecordNotIdempotent(table: DriverTable, race: RaceResult, id: DriverId, position: int, points: int)
    requires id < |table| && points != 0
    ensures var once := RecordResult(table, race, id, position, points);
            RecordResult(once.table, once.race, id, position, points) != once
  {
    var once := RecordResult(table, race, id, position, points);
    var twice := RecordResult(once.table, once.race, id, position, points);
    assert twice.table[id].points != once.table[id].points;
  }

  /** `getResults`: the recorded drivers by ascending position. `order` is the
      `HashMap`'s iteration order over the recorded drivers, which the Java
      does not fix; the stable sort keeps it among equal positions. */
  function Results(race: RaceResult, order: seq<DriverId>): (r: seq<DriverId>)
    requires Enumerates(order, race.positions.Keys)
    ensures Enumerates(r, race.positions.Keys)
    ensures Keyed(r, race.positions) && Ordered(r, race.positions, Ascending)
    ensures Stable(r, order, race.positions)
  {
    var r := SortBy(order, race.positions, Ascending);
    SortByStable(order, race.positions, Ascending);
    assert forall x :: x in r <==> x in multiset(order);
    r
  }

  /** No two recorded drivers share a position. */
  predicate DistinctPositions(race: RaceResult)
  {
    forall a, b :: a in race.positions && b in race.positions && a != b ==>
      race.positions[a] != race.positions[b]
  }

  /** When positions are distinct, as in a well-formed race, `getResults`
      does not depend on the map's iteration order. */
  lemma ResultsIgnoreOrder(race: RaceResult, o1: seq<DriverId>, o2: seq<DriverId>)
    requires Enumerates(o1, race.positions.Keys) && Enumerates(o2, race.positions.Keys)
    requires DistinctPositions(race)
    ensures Results(race, o1) == Results(race, o2)
  {
    DistinctOrderIsUnique(race, Results(race, o1), Results(race, o2));
  }

  /** With distinct positions there is only one way to list the recorded
      drivers by ascending position. */
  lemma DistinctOrderIsUnique(race: RaceResult, r1: seq<DriverId>, r2: seq<DriverId>)
    requires DistinctPositions(race)
    requires Enumerates(r1, race.positions.Keys) && Enumerates(r2, race.positions.Keys)
    requires Ordered(r1, race.positions, Ascending) && Ordered(r2, race.positions, Ascending)
    ensures r1 == r2
  {
    forall v ensures Tied(r1, race.positions, v) == Tied(r2, race.positions, v) {
      DistinctTied(race, r1, r2, v);
    }
    StableOrderIsUnique(r1, r2, race.positions, Ascending);
  }

  /** With distinct positions, each position is held by at most one driver,
      so two listings of the recorded drivers agree on every group of equal
      positions. */
  lemma DistinctTied(race: RaceResult, r1: seq<DriverId>, r2: seq<DriverId>, v: int)
    requires DistinctPositions(race)
    requires Enumerates(r1, race.positions.Keys) && Enumerates(r2, race.positions.Keys)
    ensures Tied(r1, race.positions, v) == Tied(r2, race.positions, v)
  {
    var key := race.positions;
    if x :| x in key && key[x] == v {
      TiedSingle(r1, key, x);
      TiedSingle(r2, key, x);
    } else {
      TiedNone(r1, key, v);
      TiedNone(r2, key, v);
    }
  }

  /** Drivers 0, 1 and 2 finishing second, first and fourth are listed as
      1, 0, 2 whatever the map's iteration order. */
  lemma ResultsExample(order: seq<DriverId>)
    requires Enumerates(order, {0, 1, 2})
    ensures Results(RaceResult("Rally", "Town", map[0 := 2, 1 := 1, 2 := 4]), order) == [1, 0, 2]
  {
    var race := RaceResult("Rally", "Town", map[0 := 2, 1 := 1, 2 := 4]);
    var expected: seq<DriverId> := [1, 0, 2];
    var key := race.positions;
    assert key.Keys == {0, 1, 2};
    assert DistinctPositions(race) by {
      forall a, b | a in key && b in key && a != b ensures key[a] != key[b] {
        assert a in {0, 1, 2} && b in {0, 1, 2};
      }
    }
    assert Enumerates(expected, key.Keys) by {
      assert expected[0] == 1 && expected[1] == 0 && expected[2] == 2;
    }
    assert Ordered(expected, key, Ascending) by {
      assert key[expected[0]] == 1 && key[expected[1]] == 2 && key[expected[2]] == 4;
    }
    DistinctOrderIsUnique(race, Results(race, order), expected);
  }
}
