/**
 * Rally drivers (Driver.java).
 *
 * A Java `Driver` is a mutable object without `equals`/`hashCode`, so maps and
 * lists hold it by reference. The model keeps every driver object in a
 * `DriverTable` and refers to it by its index, a `DriverId`; points never take
 * part in identity.
 */
module Drivers {

  /** The car a driver is assigned. It plays no part in scoring. */
  datatype Car =
    | AsphaltCar(make: string, model: string, horsepower: int)
    | GravelCar(make: string, model: string, horsepower: int)

  datatype Driver = Driver(name: string, country: string, points: int, car: Car)

  /** A reference to a driver object: its index in the `DriverTable`. */
  type DriverId = nat

  /** The driver objects of one run, indexed by `DriverId`. */
  type DriverTable = seq<Driver>

  /** The `Driver` constructor: a new driver has no points. */
  function NewDriver(name: string, country: string, car: Car): (d: Driver)
    ensures d.points == 0
    ensures d.name == name && d.country == country && d.car == car
  {
    Driver(name, country, 0, car)
  }

  /** `addPoints`: the total grows by exactly `n`, which may be any integer. */
  function AddPoints(d: Driver, n: int): (d': Driver)
    ensures d'.points - d.points == n
    ensures d'.name == d.name && d'.country == d.country && d'.car == d.car
  {
    d.(points := d.points + n)
  }

  /** `setCar`: only the car changes. */
  function SetCar(d: Driver, car: Car): (d': Driver)
    ensures d'.car == car
    ensures d'.name == d.name && d'.country == d.country && d'.points == d.points
  {
    d.(car := car)
  }

  function Sum(ns: seq<int>): int
  {
    if ns == [] then 0 else Sum(ns[..|ns| - 1]) + ns[|ns| - 1]
  }

  /** The driver after `addPoints(ns[0])`, ..., `addPoints(ns[|ns|-1])`. */
  function AddAll(d: Driver, ns: seq<int>): Driver
  {
    if ns == [] then d else AddPoints(AddAll(d, ns[..|ns| - 1]), ns[|ns| - 1])
  }

  /** After any sequence of `addPoints` calls the total has grown by the sum of
      their arguments, and name, country and car are those it started with. */
  lemma {:induction false} AddAllSums(d: Driver, ns: seq<int>)
    ensures AddAll(d, ns).points == d.points + Sum(ns)
    ensures AddAll(d, ns).name == d.name && AddAll(d, ns).country == d.country
    ensures AddAll(d, ns).car == d.car
  {
    if ns != [] {
      AddAllSums(d, ns[..|ns| - 1]);
    }
  }

  /** A freshly constructed driver's total is exactly the sum of what was added. */
  lemma NewDriverTotal(name: string, country: string, car: Car, ns: seq<int>)
    ensures AddAll(NewDriver(name, country, car), ns).points == Sum(ns)
  {
    AddAllSums(NewDriver(name, country, car), ns);
  }

  /** Every id of `ids` refers to a driver object of `table` (no `null`). */
  predicate Known(table: DriverTable, ids: seq<DriverId>)
  {
    forall i :: 0 <= i < |ids| ==> ids[i] < |table|
  }

  /** Points of the drivers `ids`, added up front to back as the Java loops do. */
  function SumPoints(table: DriverTable, ids: seq<DriverId>): int
    requires Known(table, ids)
  {
    if ids == [] then 0
    else SumPoints(table, ids[..|ids| - 1]) + table[ids[|ids| - 1]].points
  }

  /** `addPoints` called on the driver object `id`: every list holding that
      reference sees the change, no other driver object changes. */
  function Credit(table: DriverTable, id: DriverId, n: int): (t: DriverTable)
    requires id < |table|
    ensures |t| == |table|
    ensures t[id].points == table[id].points + n
    ensures t[id].name == table[id].name && t[id].country == table[id].country
    ensures t[id].car == table[id].car
    ensures forall j :: 0 <= j < |table| && j != id ==> t[j] == table[j]
  {
    table[id := AddPoints(table[id], n)]
  }

  /** Crediting `n` points to `id` raises the points of a list of drivers by
      `n` for every time `id` occurs in it. */
  lemma {:induction false} SumPointsAfterCredit(table: DriverTable, ids: seq<DriverId>, id: DriverId, n: int)
    requires id < |table| && Known(table, ids)
    ensures SumPoints(Credit(table, id, n), ids) == SumPoints(table, ids) + n * multiset(ids)[id]
  {
    if ids != [] {
      var front: seq<DriverId>, last: DriverId := ids[..|ids| - 1], ids[|ids| - 1];
      var t := Credit(table, id, n);
      SumPointsAfterCredit(table, front, id, n);
      CountSnoc(ids, id);
      var k := multiset(front)[id];
      assert t[last].points == table[last].points + (if last == id then n else 0);
      assert n * (k + (if last == id then 1 else 0)) == n * k + (if last == id then n else 0);
    }
  }

  /** Occurrences of `id` in `ids`: those in all but the last element, plus
      one if the last element is `id`. */
  lemma CountSnoc(ids: seq<DriverId>, id: DriverId)
    requires ids != []
    ensures multiset(ids)[id]
            == multiset(ids[..|ids| - 1])[id] + (if ids[|ids| - 1] == id then 1 else 0)
  {
    assert ids == ids[..|ids| - 1] + [ids[|ids| - 1]];
  }
}
