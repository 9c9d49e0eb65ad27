/**
 * The OSPF topology database (src/layers/layer3/protocols/OSPF.ts):
 * destination to cost, in insertion order. `advertiseLink` upserts,
 * `updateLinkState` writes only over a truthy (non-zero) stored cost, and
 * `calculateShortestPath` is a stable sort of the entries by cost, not a
 * graph search.
 */
module Ospf {
  import opened Wrappers
  import opened Records

  datatype Ospf = Ospf(routerId: string, database: Record<int>)

  function Init(routerId: string): (s: Ospf)
    ensures s.routerId == routerId
    ensures forall d :: Get(s.database, d) == None
  {
    Ospf(routerId, [])
  }

  /** `advertiseLink(destination, cost)`. */
  function AdvertiseLink(s: Ospf, destination: string, cost: int): (s': Ospf)
    ensures Get(s'.database, destination) == Some(cost)
    ensures forall d :: d != destination ==> Get(s'.database, d) == Get(s.database, d)
    ensures s'.routerId == s.routerId
  {
    s.(database := Put(s.database, destination, cost))
  }

  /** `updateLinkState(destination, newCost)`: the stored cost must be truthy. */
  function UpdateLinkState(s: Ospf, destination: string, newCost: int): (s': Ospf)
    ensures Get(s.database, destination).Some? && Get(s.database, destination).value != 0 ==>
      Get(s'.database, destination) == Some(newCost)
    ensures Get(s.database, destination) == Some(0) ==> s' == s
    ensures Get(s.database, destination).None? ==> s' == s
    ensures forall d :: d != destination ==> Get(s'.database, d) == Get(s.database, d)
    ensures Keys(s'.database) == Keys(s.database)
    ensures s'.routerId == s.routerId
  {
    match Get(s.database, destination)
    case Some(cost) => if cost != 0 then AdvertiseLink(s, destination, newCost) else s
    case None => s
  }

  /** A destination advertised with cost 0 is treated as not found by later updates. */
  lemma ZeroCostIsNotFound(s: Ospf, destination: string, newCost: int)
    ensures UpdateLinkState(AdvertiseLink(s, destination, 0), destination, newCost) == AdvertiseLink(s, destination, 0)
  {
  }

  // ---------------------------------------------------------------------
  // calculateShortestPath: Object.entries(db).sort((a, b) => a[1] - b[1])
  // ---------------------------------------------------------------------

  predicate SortedByCost(es: seq<Entry<int>>) {
    forall i, j :: 0 <= i < j < |es| ==> es[i].value <= es[j].value
  }

  /** The entries of cost `c`, in order. */
  function WithCost(es: seq<Entry<int>>, c: int): (r: seq<Entry<int>>)
    ensures forall e :: e in r ==> e in es && e.value == c
  {
    if |es| == 0 then []
    else (if es[0].value == c then [es[0]] else []) + WithCost(es[1..], c)
  }

  /** `x` placed after every entry of cost at most its own. */
  function InsertByCost(s: seq<Entry<int>>, x: Entry<int>): (r: seq<Entry<int>>)
    ensures multiset(r) == multiset(s) + multiset{x}
    ensures |r| == |s| + 1
  {
    if |s| == 0 then [x]
    else if s[0].value > x.value then [x] + s
    else
      assert s == [s[0]] + s[1..];
      [s[0]] + InsertByCost(s[1..], x)
  }

  lemma {:induction false} InsertSorted(s: seq<Entry<int>>, x: Entry<int>)
    requires SortedByCost(s)
    ensures SortedByCost(InsertByCost(s, x))
  {
    if |s| > 0 && s[0].value <= x.value {
      InsertSorted(s[1..], x);
      InsertLowerBound(s[1..], x, s[0].value);
      var r := InsertByCost(s, x);
      assert r == [s[0]] + InsertByCost(s[1..], x);
    }
  }

  /** Inserting an entry no cheaper than `lo` among entries no cheaper than `lo` keeps that bound. */
  lemma {:induction false} InsertLowerBound(s: seq<Entry<int>>, x: Entry<int>, lo: int)
    requires forall i :: 0 <= i < |s| ==> lo <= s[i].value
    requires lo <= x.value
    ensures forall i :: 0 <= i < |InsertByCost(s, x)| ==> lo <= InsertByCost(s, x)[i].value
  {
    if |s| > 0 && s[0].value <= x.value {
      InsertLowerBound(s[1..], x, lo);
      assert InsertByCost(s, x) == [s[0]] + InsertByCost(s[1..], x);
    }
  }

  lemma {:induction false} WithCostNone(s: seq<Entry<int>>, c: int)
    requires forall i :: 0 <= i < |s| ==> s[i].value > c
    ensures WithCost(s, c) == []
  {
    if |s| > 0 {
      WithCostNone(s[1..], c);
    }
  }

  /** Inserting `x` keeps every cost class in order and puts `x` last in its own. */
  lemma {:induction false} InsertStable(s: seq<Entry<int>>, x: Entry<int>, c: int)
    requires SortedByCost(s)
    ensures WithCost(InsertByCost(s, x), c) == WithCost(s, c) + (if x.value == c then [x] else [])
  {
    if |s| == 0 {
    } else if s[0].value > x.value {
      assert InsertByCost(s, x) == [x] + s;
      assert ([x] + s)[1..] == s;
      if x.value == c {
        WithCostNone(s, c);
      }
    } else {
      InsertStable(s[1..], x, c);
      var r := InsertByCost(s, x);
      assert r[0] == s[0] && r[1..] == InsertByCost(s[1..], x);
    }
  }

  lemma WithCostAppend(es: seq<Entry<int>>, x: Entry<int>, c: int)
    ensures WithCost(es + [x], c) == WithCost(es, c) + (if x.value == c then [x] else [])
  {
    if |es| > 0 {
      assert (es + [x])[1..] == es[1..] + [x];
      WithCostAppend(es[1..], x, c);
    } else {
      assert (es + [x])[1..] == [];
    }
  }

  /** A stable insertion sort by cost. */
  function SortByCost(es: seq<Entry<int>>): (r: seq<Entry<int>>)
    ensures SortedByCost(r)
    ensures multiset(r) == multiset(es)
  {
    if |es| == 0 then []
    else
      var front := SortByCost(es[..|es| - 1]);
      InsertSorted(front, es[|es| - 1]);
      assert es == es[..|es| - 1] + [es[|es| - 1]];
      InsertByCost(front, es[|es| - 1])
  }

  lemma SplitLast(es: seq<Entry<int>>)
    requires |es| > 0
    ensures es == es[..|es| - 1] + [es[|es| - 1]]
  {
  }

  /** Sorting keeps the order within each cost class: the sort is stable. */
  lemma {:induction false} SortStable(es: seq<Entry<int>>, c: int)
    ensures WithCost(SortByCost(es), c) == WithCost(es, c)
  {
    if |es| > 0 {
      var front := es[..|es| - 1];
      var x := es[|es| - 1];
      SortStable(front, c);
      InsertStable(SortByCost(front), x, c);
      SplitLast(es);
      WithCostAppend(front, x, c);
    }
  }

  /** The routes `calculateShortestPath` lists, in the order it lists them; the database is untouched. */
  function CalculateShortestPath(s: Ospf): (order: seq<Entry<int>>)
    ensures SortedByCost(order)
    ensures multiset(order) == multiset(s.database)
    ensures forall c :: WithCost(order, c) == WithCost(s.database, c)
  {
    var order := SortByCost(s.database);
    forall c
      ensures WithCost(order, c) == WithCost(s.database, c)
    {
      SortStable(s.database, c);
    }
    order
  }
}
