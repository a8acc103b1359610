/**
 * Stable sorting by an integer key.
 *
 * Both orderings of the championship are stable sorts of a list by an
 * integer key held in a map: race results ascend by finishing position and
 * standings descend by points. `java.util.List.sort` is a stable merge sort;
 * it is modelled here by a stable insertion sort, and
 * `SortByIsTheStableSort` shows that every ordered, stable permutation is
 * that same sequence, so the choice of algorithm is not observable.
 */
module Sorting {

  datatype Direction = Ascending | Descending

  /** May an element with key `a` stand before one with key `b`? */
  predicate Precedes(dir: Direction, a: int, b: int)
  {
    if dir == Ascending then a <= b else b <= a
  }

  /** Every element of `s` has a key. */
  predicate Keyed<K>(s: seq<K>, key: map<K, int>)
  {
    forall i :: 0 <= i < |s| ==> s[i] in key
  }

  predicate Ordered<K>(s: seq<K>, key: map<K, int>, dir: Direction)
    requires Keyed(s, key)
  {
    forall i, j :: 0 <= i < j < |s| ==> Precedes(dir, key[s[i]], key[s[j]])
  }

  predicate NoDup<K(==)>(s: seq<K>)
  {
    forall i, j :: 0 <= i < j < |s| ==> s[i] != s[j]
  }

  /** `order` lists every element of `keys` exactly once and nothing else,
      as iterating over a `java.util.HashMap` does. */
  predicate Enumerates<K(==)>(order: seq<K>, keys: set<K>)
  {
    && NoDup(order)
    && (forall i :: 0 <= i < |order| ==> order[i] in keys)
    && (forall x | x in keys :: x in order)
  }

  /** The elements of `s` whose key is `v`, in their order in `s`. */
  function Tied<K>(s: seq<K>, key: map<K, int>, v: int): seq<K>
    requires Keyed(s, key)
  {
    if s == [] then []
    else (if key[s[0]] == v then [s[0]] else []) + Tied(s[1..], key, v)
  }

  /** `r` keeps the relative order that `s` gives to elements of equal key. */
  ghost predicate Stable<K>(r: seq<K>, s: seq<K>, key: map<K, int>)
    requires Keyed(r, key) && Keyed(s, key)
  {
    forall v :: Tied(r, key, v) == Tied(s, key, v)
  }

  lemma {:induction false} TiedMembers<K>(s: seq<K>, key: map<K, int>, v: int)
    requires Keyed(s, key)
    ensures forall x :: x in Tied(s, key, v) ==> x in s && key[x] == v
    ensures forall i :: 0 <= i < |s| && key[s[i]] == v ==> s[i] in Tied(s, key, v)
  {
    if s != [] {
      TiedMembers(s[1..], key, v);
      assert s == [s[0]] + s[1..];
    }
  }

  /** Inserts `x` before the first element of `t` it may precede. */
  function Insert<K(==)>(x: K, t: seq<K>, key: map<K, int>, dir: Direction): (r: seq<K>)
    requires x in key && Keyed(t, key)
    ensures multiset(r) == multiset(t) + multiset{x}
    ensures Keyed(r, key)
  {
    if t == [] || Precedes(dir, key[x], key[t[0]]) then
      [x] + t
    else
      var r' := Insert(x, t[1..], key, dir);
      assert t == [t[0]] + t[1..];
      assert forall y :: y in r' ==> y in multiset(r');
      [t[0]] + r'
  }

  lemma {:induction false} InsertOrdered<K>(x: K, t: seq<K>, key: map<K, int>, dir: Direction)
    requires x in key && Keyed(t, key) && Ordered(t, key, dir)
    ensures Ordered(Insert(x, t, key, dir), key, dir)
  {
    if t != [] && !Precedes(dir, key[x], key[t[0]]) {
      var r' := Insert(x, t[1..], key, dir);
      InsertOrdered(x, t[1..], key, dir);
      assert t == [t[0]] + t[1..];
      forall y | y in r' ensures Precedes(dir, key[t[0]], key[y]) {
        assert y in multiset(r');
      }
    }
  }

  lemma {:induction false} InsertNoDup<K>(x: K, t: seq<K>, key: map<K, int>, dir: Direction)
    requires x in key && Keyed(t, key) && NoDup(t) && x !in t
    ensures NoDup(Insert(x, t, key, dir))
  {
    if t != [] && !Precedes(dir, key[x], key[t[0]]) {
      var r' := Insert(x, t[1..], key, dir);
      assert t == [t[0]] + t[1..];
      InsertNoDup(x, t[1..], key, dir);
      assert t[0] !in r' by {
        assert t[0] != x && t[0] !in t[1..];
        assert t[0] !in multiset(t[1..]) + multiset{x};
      }
    }
  }

  lemma TiedCons<K>(a: K, s: seq<K>, key: map<K, int>, v: int)
    requires a in key && Keyed(s, key)
    ensures Tied([a] + s, key, v) == (if key[a] == v then [a] else []) + Tied(s, key, v)
  {
    assert ([a] + s)[0] == a && ([a] + s)[1..] == s;
  }

  lemma {:induction false} InsertTied<K>(x: K, t: seq<K>, key: map<K, int>, dir: Direction, v: int)
    requires x in key && Keyed(t, key)
    ensures Tied(Insert(x, t, key, dir), key, v) == (if key[x] == v then [x] else []) + Tied(t, key, v)
  {
    if t == [] || Precedes(dir, key[x], key[t[0]]) {
      TiedCons(x, t, key, v);
    } else {
      var r' := Insert(x, t[1..], key, dir);
      InsertTied(x, t[1..], key, dir, v);
      TiedCons(t[0], r', key, v);
      TiedCons(t[0], t[1..], key, v);
      assert t == [t[0]] + t[1..];
    }
  }

  /** Sorts `s` by `key` in direction `dir`, keeping the order of `s` among
      elements of equal key (see `SortByStable`). */
  function SortBy<K(==)>(s: seq<K>, key: map<K, int>, dir: Direction): (r: seq<K>)
    requires Keyed(s, key)
    ensures multiset(r) == multiset(s)
    ensures Keyed(r, key)
    ensures Ordered(r, key, dir)
    ensures NoDup(s) ==> NoDup(r)
  {
    if s == [] then []
    else
      var t := SortBy(s[1..], key, dir);
      assert s == [s[0]] + s[1..];
      InsertOrdered(s[0], t, key, dir);
      if NoDup(s) then
        InsertHeadNoDup(s, t, key, dir);
        Insert(s[0], t, key, dir)
      else
        Insert(s[0], t, key, dir)
  }

  /** Inserting the head of a sequence without repetitions into a
      rearrangement of its tail repeats nothing. */
  lemma InsertHeadNoDup<K>(s: seq<K>, t: seq<K>, key: map<K, int>, dir: Direction)
    requires s != [] && s[0] in key && Keyed(t, key)
    requires NoDup(s) && NoDup(t) && multiset(t) == multiset(s[1..])
    ensures NoDup(Insert(s[0], t, key, dir))
  {
    assert s[0] !in s[1..];
    assert s[0] !in multiset(t);
    InsertNoDup(s[0], t, key, dir);
  }

  lemma {:induction false} SortByStable<K>(s: seq<K>, key: map<K, int>, dir: Direction)
    requires Keyed(s, key)
    ensures Stable(SortBy(s, key, dir), s, key)
  {
    if s != [] {
      var t := SortBy(s[1..], key, dir);
      SortByStable(s[1..], key, dir);
      forall v ensures Tied(SortBy(s, key, dir), key, v) == Tied(s, key, v) {
        InsertTied(s[0], t, key, dir, v);
      }
    }
  }

  lemma {:induction false} TiedHead<K>(s: seq<K>, key: map<K, int>)
    requires Keyed(s, key) && s != []
    ensures Tied(s, key, key[s[0]]) == [s[0]] + Tied(s[1..], key, key[s[0]])
    ensures forall w :: w != key[s[0]] ==> Tied(s, key, w) == Tied(s[1..], key, w)
  {
  }

  /** The first element of a group of equal keys is the first element of `s`
      with that key. */
  lemma {:induction false} TiedFirst<K>(s: seq<K>, key: map<K, int>, k: nat)
    requires Keyed(s, key) && k < |s|
    requires forall i :: 0 <= i < k ==> key[s[i]] != key[s[k]]
    ensures Tied(s, key, key[s[k]]) != [] && Tied(s, key, key[s[k]])[0] == s[k]
  {
    if k > 0 {
      TiedFirst(s[1..], key, k - 1);
    }
  }

  lemma {:induction false} TiedNone<K>(s: seq<K>, key: map<K, int>, v: int)
    requires Keyed(s, key)
    requires forall i :: 0 <= i < |s| ==> key[s[i]] != v
    ensures Tied(s, key, v) == []
  {
    if s != [] {
      TiedNone(s[1..], key, v);
    }
  }

  /** In a sequence without repetitions where only `x` has key `v`, the
      group of key `v` is just `x`. */
  lemma {:induction false} TiedSingle<K>(s: seq<K>, key: map<K, int>, x: K)
    requires Keyed(s, key) && NoDup(s) && x in s
    requires forall i :: 0 <= i < |s| && s[i] != x ==> key[s[i]] != key[x]
    ensures Tied(s, key, key[x]) == [x]
  {
    var t, v := s[1..], key[x];
    if s[0] == x {
      assert forall i :: 0 <= i < |t| ==> t[i] == s[i + 1] && s[i + 1] != s[0];
      TiedNone(t, key, v);
    } else {
      assert forall i :: 0 <= i < |t| ==> t[i] == s[i + 1];
      TiedSingle(t, key, x);
    }
  }

  /** A stable rearrangement has the same elements. */
  lemma StableMember<K>(r1: seq<K>, r2: seq<K>, key: map<K, int>, k: nat)
    requires Keyed(r1, key) && Keyed(r2, key) && Stable(r1, r2, key) && k < |r1|
    ensures r1[k] in r2
  {
    TiedMembers(r1, key, key[r1[k]]);
    TiedMembers(r2, key, key[r1[k]]);
    assert r1[k] in Tied(r2, key, key[r1[k]]);
  }

  lemma FirstKeysAgree<K>(r1: seq<K>, r2: seq<K>, key: map<K, int>, dir: Direction)
    requires Keyed(r1, key) && Keyed(r2, key) && r1 != [] && r2 != []
    requires Ordered(r1, key, dir) && Ordered(r2, key, dir)
    requires Stable(r1, r2, key)
    ensures key[r1[0]] == key[r2[0]]
  {
    StableMember(r1, r2, key, 0);
    StableMember(r2, r1, key, 0);
    var i :| 0 <= i < |r1| && r1[i] == r2[0];
    var j :| 0 <= j < |r2| && r2[j] == r1[0];
    assert Precedes(dir, key[r1[0]], key[r2[0]]) by {
      if i > 0 { assert Precedes(dir, key[r1[0]], key[r1[i]]); }
    }
    assert Precedes(dir, key[r2[0]], key[r1[0]]) by {
      if j > 0 { assert Precedes(dir, key[r2[0]], key[r2[j]]); }
    }
  }

  /** Two sequences ordered by the same key that agree on the order within
      every group of equal keys are the same sequence. */
  lemma {:induction false} StableOrderIsUnique<K>(r1: seq<K>, r2: seq<K>, key: map<K, int>, dir: Direction)
    requires Keyed(r1, key) && Keyed(r2, key)
    requires Ordered(r1, key, dir) && Ordered(r2, key, dir)
    requires Stable(r1, r2, key)
    ensures r1 == r2
  {
    if r1 == [] || r2 == [] {
      if r1 != [] {
        StableMember(r1, r2, key, 0);
      } else if r2 != [] {
        StableMember(r2, r1, key, 0);
      }
    } else {
      FirstKeysAgree(r1, r2, key, dir);
      var v := key[r1[0]];
      TiedHead(r1, key);
      TiedHead(r2, key);
      assert Tied(r1, key, v) == Tied(r2, key, v);
      assert r1[0] == Tied(r1, key, v)[0] == Tied(r2, key, v)[0] == r2[0];
      assert Stable(r1[1..], r2[1..], key) by {
        forall w ensures Tied(r1[1..], key, w) == Tied(r2[1..], key, w) {
          assert Tied(r1, key, w) == Tied(r2, key, w);
          if w == v {
            assert Tied(r1[1..], key, w) == Tied(r1, key, w)[1..];
            assert Tied(r2[1..], key, w) == Tied(r2, key, w)[1..];
          }
        }
      }
      StableOrderIsUnique(r1[1..], r2[1..], key, dir);
      assert r1 == [r1[0]] + r1[1..] && r2 == [r2[0]] + r2[1..];
    }
  }

  /** Any stable ordered rearrangement of `s` is `SortBy(s, key, dir)`. */
  lemma SortByIsTheStableSort<K>(s: seq<K>, r: seq<K>, key: map<K, int>, dir: Direction)
    requires Keyed(s, key) && Keyed(r, key)
    requires Ordered(r, key, dir) && Stable(r, s, key)
    ensures r == SortBy(s, key, dir)
  {
    var t := SortBy(s, key, dir);
    SortByStable(s, key, dir);
    assert Stable(r, t, key) by {
      forall v ensures Tied(r, key, v) == Tied(t, key, v) {
        assert Tied(r, key, v) == Tied(s, key, v);
      }
    }
    StableOrderIsUnique(r, t, key, dir);
  }
}
