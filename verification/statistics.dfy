/**
 * Championship statistics (ChampionshipStatistics.java): figures derived
 * from a list of drivers and from the registry.
 */
module Statistics {
  import opened Options
  import opened Drivers
  import opened Sorting
  import opened Championship

  /** `calculateAveragePointsPerDriver`: the integer total converted to a
      double and divided by the number of drivers. For an empty list that is
      `0.0 / 0`, which is `NaN` in Java, modelled as `None`. */
  function AveragePoints(table: DriverTable, ids: seq<DriverId>): (r: Option<real>)
    requires Known(table, ids)
    ensures r.None? <==> ids == []
    ensures r.Some? ==> r.value * (|ids| as real) == SumPoints(table, ids) as real
  {
    if ids == [] then None else Some(SumPoints(table, ids) as real / |ids| as real)
  }

  lemma {:induction false} SumPointsBounds(table: DriverTable, ids: seq<DriverId>, lo: int, hi: int)
    requires Known(table, ids)
    requires forall i :: 0 <= i < |ids| ==> lo <= table[ids[i]].points <= hi
    ensures |ids| * lo <= SumPoints(table, ids) <= |ids| * hi
  {
    if ids != [] {
      var n := |ids| - 1;
      SumPointsBounds(table, ids[..n], lo, hi);
      assert |ids| * lo == n * lo + lo && |ids| * hi == n * hi + hi;
    }
  }

  /** The average lies between the fewest and the most points of any driver. */
  lemma AverageIsBetweenExtremes(table: DriverTable, ids: seq<DriverId>, lo: int, hi: int)
    requires Known(table, ids) && ids != []
    requires forall i :: 0 <= i < |ids| ==> lo <= table[ids[i]].points <= hi
    ensures lo as real <= AveragePoints(table, ids).value <= hi as real
  {
    SumPointsBounds(table, ids, lo, hi);
    QuotientBounds(AveragePoints(table, ids).value, |ids|, SumPoints(table, ids), lo, hi);
  }

  /** A quotient `a` of `sum` by `n > 0`, where `n * lo <= sum <= n * hi`,
      lies between `lo` and `hi`. */
  lemma QuotientBounds(a: real, n: nat, sum: int, lo: int, hi: int)
    requires n > 0 && a * (n as real) == sum as real
    requires n * lo <= sum <= n * hi
    ensures lo as real <= a <= hi as real
  {
    CastProduct(n, lo);
    CastProduct(n, hi);
    CancelPositive(lo as real, a, n as real);
    CancelPositive(a, hi as real, n as real);
  }

  /** Converting a product to `real` is the product of the conversions. */
  lemma {:induction false} CastProduct(k: nat, x: int)
    ensures (k * x) as real == k as real * x as real
  {
    if k > 0 {
      CastProduct(k - 1, x);
      assert k * x == (k - 1) * x + x;
      assert k as real * x as real == (k - 1) as real * x as real + x as real;
    }
  }

  /** A positive factor cancels from both sides of an inequality. */
  lemma CancelPositive(x: real, y: real, n: real)
    requires n > 0.0 && x * n <= y * n
    ensures x <= y
  {
    assert (y - x) * n >= 0.0;
  }

  /** The countries the drivers `ids` represent. */
  function Countries(table: DriverTable, ids: seq<DriverId>): set<string>
    requires Known(table, ids)
  {
    set i | 0 <= i < |ids| :: table[ids[i]].country
  }

  /** Points of the drivers of `ids` who represent `c`: the reference
      definition of one country's total. */
  function CountryPoints(table: DriverTable, ids: seq<DriverId>, c: string): int
    requires Known(table, ids)
  {
    if ids == [] then 0
    else
      var d := table[ids[|ids| - 1]];
      CountryPoints(table, ids[..|ids| - 1], c) + (if d.country == c then d.points else 0)
  }

  /** The `countriesPoints` map of `findMostSuccessfulCountry`, built as its
      first loop does with `getOrDefault` and `put`. */
  function Tally(table: DriverTable, ids: seq<DriverId>): (t: map<string, int>)
    requires Known(table, ids)
    ensures t.Keys == Countries(table, ids)
    ensures forall c :: c in t ==> t[c] == CountryPoints(table, ids, c)
  {
    if ids == [] then map[]
    else
      var front := ids[..|ids| - 1];
      var t := Tally(table, front);
      var d := table[ids[|ids| - 1]];
      assert Countries(table, ids) == Countries(table, front) + {d.country} by {
        forall c | c in Countries(table, ids) ensures c in Countries(table, front) + {d.country} {
          var i :| 0 <= i < |ids| && table[ids[i]].country == c;
          if i < |front| { assert front[i] == ids[i]; }
        }
        forall c | c in Countries(table, front) ensures c in Countries(table, ids) {
          var i :| 0 <= i < |front| && table[front[i]].country == c;
          assert ids[i] == front[i];
        }
      }
      assert d.country !in t ==> CountryPoints(table, front, d.country) == 0 by {
        if d.country !in t { CountryPointsAbsent(table, front, d.country); }
      }
      t[d.country := (if d.country in t then t[d.country] else 0) + d.points]
  }

  /** A country no driver represents has no points. */
  lemma {:induction false} CountryPointsAbsent(table: DriverTable, ids: seq<DriverId>, c: string)
    requires Known(table, ids) && c !in Countries(table, ids)
    ensures CountryPoints(table, ids, c) == 0
  {
    if ids != [] {
      var front := ids[..|ids| - 1];
      assert forall i :: 0 <= i < |front| ==> front[i] == ids[i];
      CountryPointsAbsent(table, front, c);
      assert table[ids[|ids| - 1]].country in Countries(table, ids);
    }
  }

  /** Sum of the country totals of `ids` over the countries `order`. */
  function CountrySum(table: DriverTable, ids: seq<DriverId>, order: seq<string>): int
    requires Known(table, ids)
  {
    if order == [] then 0
    else CountryPoints(table, ids, order[0]) + CountrySum(table, ids, order[1..])
  }

  lemma {:induction false} CountrySumSnoc(table: DriverTable, ids: seq<DriverId>, order: seq<string>)
    requires Known(table, ids) && ids != [] && NoDup(order)
    ensures var d := table[ids[|ids| - 1]];
            CountrySum(table, ids, order)
            == CountrySum(table, ids[..|ids| - 1], order) + (if d.country in order then d.points else 0)
  {
    if order != [] {
      assert NoDup(order[1..]);
      CountrySumSnoc(table, ids, order[1..]);
      assert order == [order[0]] + order[1..];
    }
  }

  lemma {:induction false} CountrySumIsTotal(table: DriverTable, ids: seq<DriverId>, order: seq<string>)
    requires Known(table, ids) && NoDup(order)
    requires forall c :: c in Countries(table, ids) ==> c in order
    ensures CountrySum(table, ids, order) == SumPoints(table, ids)
  {
    if ids == [] {
      CountrySumOfNothing(table, order);
    } else {
      var front := ids[..|ids| - 1];
      assert forall c :: c in Countries(table, front) ==> c in order by {
        forall c | c in Countries(table, front) ensures c in order {
          var i :| 0 <= i < |front| && table[front[i]].country == c;
          assert ids[i] == front[i];
        }
      }
      CountrySumIsTotal(table, front, order);
      CountrySumSnoc(table, ids, order);
      assert table[ids[|ids| - 1]].country in Countries(table, ids);
    }
  }

  lemma {:induction false} CountrySumOfNothing(table: DriverTable, order: seq<string>)
    ensures CountrySum(table, [], order) == 0
  {
    if order != [] {
      CountrySumOfNothing(table, order[1..]);
    }
  }

  /** Sum of the values of `t` at the keys `order`. */
  function SumOver(t: map<string, int>, order: seq<string>): int
    requires forall i :: 0 <= i < |order| ==> order[i] in t
  {
    if order == [] then 0 else t[order[0]] + SumOver(t, order[1..])
  }

  /** Grouping by country conserves points: whatever order the map is
      iterated in, its totals add up to the points of all the drivers. */
  lemma {:induction false} GroupingConservesPoints(table: DriverTable, ids: seq<DriverId>, order: seq<string>)
    requires Known(table, ids) && Enumerates(order, Tally(table, ids).Keys)
    ensures SumOver(Tally(table, ids), order) == SumPoints(table, ids)
  {
    SumOverTally(table, ids, order);
    CountrySumIsTotal(table, ids, order);
  }

  lemma {:induction false} SumOverTally(table: DriverTable, ids: seq<DriverId>, order: seq<string>)
    requires Known(table, ids)
    requires forall i :: 0 <= i < |order| ==> order[i] in Tally(table, ids)
    ensures SumOver(Tally(table, ids), order) == CountrySum(table, ids, order)
  {
    if order != [] {
      SumOverTally(table, ids, order[1..]);
    }
  }

  /** The state of the second loop of `findMostSuccessfulCountry` after
      visiting `order`: the index of the country chosen so far, if any, and
      the best total, starting from `-1` and replaced by any total at least
      as large. */
  function CountryScan(t: map<string, int>, order: seq<string>): (r: Best)
    requires forall i :: 0 <= i < |order| ==> order[i] in t
    ensures r.at.None? <==> forall i :: 0 <= i < |order| ==> t[order[i]] < -1
    ensures r.at.None? ==> r.most == -1
    ensures r.at.Some? ==>
      && r.at.value < |order|
      && r.most == t[order[r.at.value]]
      && (forall i :: 0 <= i < |order| ==> t[order[i]] <= r.most)
      && (forall i :: r.at.value < i < |order| ==> t[order[i]] < r.most)
  {
    if order == [] then Best(None, -1)
    else
      var front := order[..|order| - 1];
      var prev := CountryScan(t, front);
      var v := t[order[|order| - 1]];
      assert forall i :: 0 <= i < |front| ==> front[i] == order[i];
      if v >= prev.most then Best(Some(|order| - 1), v) else prev
  }

  /** The second loop of `findMostSuccessfulCountry` over the totals `t`,
      iterated in `order`. It yields `""` when no total reaches the initial
      `-1`; otherwise a key with the greatest total, and of several such the
      last in iteration order, since the comparison is `>=`. */
  function TopCountry(t: map<string, int>, order: seq<string>): (r: string)
    requires Enumerates(order, t.Keys)
    ensures (forall c :: c in t ==> t[c] < -1) ==> r == ""
    ensures (exists c :: c in t && t[c] >= -1) ==>
              && r in t
              && (forall c :: c in t ==> t[c] <= t[r])
              && exists k :: 0 <= k < |order| && order[k] == r
                   && forall j :: k < j < |order| ==> t[order[j]] < t[r]
  {
    var pick := CountryScan(t, order);
    if pick.at.Some? then
      var i :| 0 <= i < |order| && t[order[i]] >= -1;
      assert forall c :: c in t ==> t[c] <= pick.most by {
        forall c | c in t ensures t[c] <= pick.most {
          var i :| 0 <= i < |order| && order[i] == c;
        }
      }
      order[pick.at.value]
    else
      assert forall c :: c in t ==> t[c] < -1 by {
        forall c | c in t ensures t[c] < -1 {
          var i :| 0 <= i < |order| && order[i] == c;
        }
      }
      ""
  }

  /** Two countries tied on 25 points: whichever the map iterates last is
      reported, so the answer depends on the `HashMap`'s order. */
  lemma TieGoesToLastIterated()
    ensures TopCountry(map["France" := 25, "Finland" := 25], ["France", "Finland"]) == "Finland"
    ensures TopCountry(map["France" := 25, "Finland" := 25], ["Finland", "France"]) == "France"
  {
    var t := map["France" := 25, "Finland" := 25];
    var o1, o2 := ["France", "Finland"], ["Finland", "France"];
    assert t.Keys == {"France", "Finland"};
    assert Enumerates(o1, t.Keys) && Enumerates(o2, t.Keys);
    assert t["France"] >= -1;
  }

  /** `findMostSuccessfulCountry` over the drivers `ids`, the per-country
      totals being iterated in `order`. */
  function MostSuccessfulCountry(table: DriverTable, ids: seq<DriverId>, order: seq<string>): (r: string)
    requires Known(table, ids) && Enumerates(order, Tally(table, ids).Keys)
    ensures ids == [] ==> r == ""
    ensures r == "" || r in Countries(table, ids)
    ensures (exists i :: 0 <= i < |ids| && CountryPoints(table, ids, table[ids[i]].country) >= -1) ==>
      && r in Countries(table, ids)
      && forall i :: 0 <= i < |ids| ==>
           CountryPoints(table, ids, table[ids[i]].country) <= CountryPoints(table, ids, r)
    ensures (forall i :: 0 <= i < |ids| ==> CountryPoints(table, ids, table[ids[i]].country) < -1) ==> r == ""
  {
    var t := Tally(table, ids);
    assert forall i :: 0 <= i < |ids| ==> table[ids[i]].country in t;
    TalliedCountries(table, ids, t);
    TopCountry(t, order)
  }

  /** Every key of the tally is the country of one of the drivers. */
  lemma TalliedCountries(table: DriverTable, ids: seq<DriverId>, t: map<string, int>)
    requires Known(table, ids) && t == Tally(table, ids)
    ensures forall c :: c in t ==> exists i :: 0 <= i < |ids| && table[ids[i]].country == c
  {
  }

  lemma {:induction false} CountryPointsNonNegative(table: DriverTable, ids: seq<DriverId>, c: string)
    requires Known(table, ids)
    requires forall i :: 0 <= i < |ids| ==> table[ids[i]].points >= 0
    ensures CountryPoints(table, ids, c) >= 0
  {
    if ids != [] {
      CountryPointsNonNegative(table, ids[..|ids| - 1], c);
    }
  }

  /** With at least one driver and no negative points, the most successful
      country is the country of one of the drivers and no country's total
      exceeds its own. */
  lemma MostSuccessfulIsADriversCountry(table: DriverTable, ids: seq<DriverId>, order: seq<string>)
    requires Known(table, ids) && Enumerates(order, Tally(table, ids).Keys)
    requires ids != []
    requires forall i :: 0 <= i < |ids| ==> table[ids[i]].points >= 0
    ensures exists i :: 0 <= i < |ids| && table[ids[i]].country == MostSuccessfulCountry(table, ids, order)
    ensures forall i :: 0 <= i < |ids| ==>
      CountryPoints(table, ids, table[ids[i]].country)
      <= CountryPoints(table, ids, MostSuccessfulCountry(table, ids, order))
  {
    var t := Tally(table, ids);
    var c0 := table[ids[0]].country;
    assert c0 in Countries(table, ids);
    CountryPointsNonNegative(table, ids, c0);
    assert c0 in t && t[c0] >= -1;
    var r := TopCountry(t, order);
    forall i | 0 <= i < |ids| ensures CountryPoints(table, ids, table[ids[i]].country) <= CountryPoints(table, ids, r) {
      assert table[ids[i]].country in Countries(table, ids);
    }
  }

  /** `getTotalRacesHeld`: the length of the registry's race list. */
  function TotalRacesHeld(m: Manager): int
  {
    |m.races|
  }

  /** From the initial registry, `getTotalRacesHeld` counts the
      `addRaceResult` calls made, whatever drivers were registered. */
  lemma TotalRacesHeldCountsCalls(calls: seq<Call>)
    ensures TotalRacesHeld(Run(NewManager(), calls)) == |RaceCalls(calls)|
  {
    RunFromNew(calls);
  }
}
