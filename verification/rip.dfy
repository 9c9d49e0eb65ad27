/**
 * The RIP routing table (src/layers/layer3/protocols/RIP.ts): destination
 * to (cost, next hop), in insertion order. `addRoute` refuses costs above
 * the hop ceiling, `receiveUpdate` adopts strictly better offers one hop
 * further away and applies no ceiling, `handleRouteTimeout` deletes, and
 * `broadcastUpdate` publishes every route one hop further away in the
 * protocol header's `entries`.
 */
module Rip {
  import opened Wrappers
  import opened Records

  /** The hop ceiling `addRoute` enforces. */
  const MaxHops: int := 15

  datatype Route = Route(cost: int, nextHop: string)

  /** One `{ destination, cost }` element of an update list. */
  datatype Update = Update(destination: string, cost: int)

  /** The routing table and the `entries` field of the protocol header. */
  datatype Rip = Rip(table: Record<Route>, entries: seq<Update>)

  function Init(): (s: Rip)
    ensures forall d :: Get(s.table, d) == None
    ensures s.entries == []
  {
    Rip([], [])
  }

  /** `addRoute(destination, cost, nextHop)`. */
  function AddRoute(s: Rip, destination: string, cost: int, nextHop: string): (s': Rip)
    ensures cost > MaxHops ==> s' == s
    ensures cost <= MaxHops ==> Get(s'.table, destination) == Some(Route(cost, nextHop))
    ensures forall d :: d != destination ==> Get(s'.table, d) == Get(s.table, d)
    ensures s'.entries == s.entries
  {
    if cost > MaxHops then s
    else s.(table := Put(s.table, destination, Route(cost, nextHop)))
  }

  /** The route a table holds for `d` after an offer of cost `o` from `neighbor`. */
  function Adopt(current: Option<Route>, o: Option<int>, neighbor: string): Option<Route> {
    match o
    case None => current
    case Some(c) =>
      if current.None? || c < current.value.cost then Some(Route(c, neighbor)) else current
  }

  /** One step of `receiveUpdate`: the offer `u` arrives from `neighbor`. */
  function ReceiveOne(t: Record<Route>, neighbor: string, u: Update): (t': Record<Route>)
    ensures Get(t', u.destination) == Adopt(Get(t, u.destination), Some(u.cost + 1), neighbor)
    ensures forall d :: d != u.destination ==> Get(t', d) == Get(t, d)
  {
    var totalCost := u.cost + 1;
    match Get(t, u.destination)
    case None => Put(t, u.destination, Route(totalCost, neighbor))
    case Some(existing) =>
      if totalCost < existing.cost then Put(t, u.destination, Route(totalCost, neighbor)) else t
  }

  /** The updates applied in list order. */
  function ReceiveAll(t: Record<Route>, neighbor: string, updates: seq<Update>): Record<Route>
    decreases |updates|
  {
    if |updates| == 0 then t
    else ReceiveAll(ReceiveOne(t, neighbor, updates[0]), neighbor, updates[1..])
  }

  /** `receiveUpdate(neighbor, updates)`. */
  function ReceiveUpdate(s: Rip, neighbor: string, updates: seq<Update>): (s': Rip)
    ensures s'.entries == s.entries
  {
    s.(table := ReceiveAll(s.table, neighbor, updates))
  }

  /** The cheapest offer for `d` in an update list, one hop added; the earliest on a tie. */
  function BestOffer(updates: seq<Update>, d: string): Option<int>
    decreases |updates|
  {
    if |updates| == 0 then None
    else
      var rest := BestOffer(updates[1..], d);
      if updates[0].destination != d then rest
      else if rest.Some? && rest.value < updates[0].cost + 1 then rest
      else Some(updates[0].cost + 1)
  }

  /** `BestOffer` is the minimum over the offers for `d`, and absent exactly when there are none. */
  lemma {:induction false} BestOfferIsMinimum(updates: seq<Update>, d: string)
    ensures BestOffer(updates, d).None? <==> forall i :: 0 <= i < |updates| ==> updates[i].destination != d
    ensures BestOffer(updates, d).Some? ==>
      exists i :: 0 <= i < |updates| && updates[i].destination == d && BestOffer(updates, d).value == updates[i].cost + 1
    ensures BestOffer(updates, d).Some? ==>
      forall i :: 0 <= i < |updates| && updates[i].destination == d ==> BestOffer(updates, d).value <= updates[i].cost + 1
    decreases |updates|
  {
    if |updates| > 0 {
      BestOfferIsMinimum(updates[1..], d);
      assert forall i :: 1 <= i < |updates| ==> updates[i] == updates[1..][i - 1];
    }
  }

  /**
   * Processing the list in order ends where adopting the single best offer
   * would: a destination takes the neighbor's best offer exactly when it
   * was absent or that offer is strictly cheaper.
   */
  lemma {:induction false} ReceiveAllBest(t: Record<Route>, neighbor: string, updates: seq<Update>, d: string)
    ensures Get(ReceiveAll(t, neighbor, updates), d) == Adopt(Get(t, d), BestOffer(updates, d), neighbor)
    decreases |updates|
  {
    if |updates| > 0 {
      var u := updates[0];
      var t1 := ReceiveOne(t, neighbor, u);
      ReceiveAllBest(t1, neighbor, updates[1..], d);
      var later := BestOffer(updates[1..], d);
      if u.destination == d {
        AdoptTwice(Get(t, d), u.cost + 1, later, neighbor);
      } else {
        assert Get(t1, d) == Get(t, d);
      }
    }
  }

  /** Adopting an offer and then a later one is adopting the cheaper, the earlier on a tie. */
  lemma AdoptTwice(current: Option<Route>, first: int, later: Option<int>, neighbor: string)
    ensures Adopt(Adopt(current, Some(first), neighbor), later, neighbor) ==
      Adopt(current, if later.Some? && later.value < first then later else Some(first), neighbor)
  {
  }

  /** `receiveUpdate` never removes a destination and never raises a cost. */
  lemma ReceiveNeverWorse(s: Rip, neighbor: string, updates: seq<Update>, d: string)
    requires Get(s.table, d).Some?
    ensures Get(ReceiveUpdate(s, neighbor, updates).table, d).Some?
    ensures Get(ReceiveUpdate(s, neighbor, updates).table, d).value.cost <= Get(s.table, d).value.cost
  {
    ReceiveAllBest(s.table, neighbor, updates, d);
  }

  /** A destination no update mentions keeps its route. */
  lemma ReceiveUntouched(s: Rip, neighbor: string, updates: seq<Update>, d: string)
    requires forall i :: 0 <= i < |updates| ==> updates[i].destination != d
    ensures Get(ReceiveUpdate(s, neighbor, updates).table, d) == Get(s.table, d)
  {
    ReceiveAllBest(s.table, neighbor, updates, d);
    BestOfferIsMinimum(updates, d);
  }

  /** Updates are applied in list order: a later update meets the table the earlier ones left. */
  lemma {:induction false} ReceiveAppend(t: Record<Route>, neighbor: string, updates: seq<Update>, u: Update)
    ensures ReceiveAll(t, neighbor, updates + [u]) == ReceiveOne(ReceiveAll(t, neighbor, updates), neighbor, u)
    decreases |updates|
  {
    if |updates| > 0 {
      assert (updates + [u])[1..] == updates[1..] + [u];
      ReceiveAppend(ReceiveOne(t, neighbor, updates[0]), neighbor, updates[1..], u);
    }
  }

  /** An equal offer does not replace a route, even from another neighbor. */
  lemma ReceiveTieKeeps(s: Rip, neighbor: string, d: string, r: Route)
    requires Get(s.table, d) == Some(r)
    ensures Get(ReceiveUpdate(s, neighbor, [Update(d, r.cost - 1)]).table, d) == Some(r)
  {
    ReceiveAllBest(s.table, neighbor, [Update(d, r.cost - 1)], d);
  }

  /** Every route respects the hop ceiling. */
  predicate WithinCeiling(t: Record<Route>) {
    forall i :: 0 <= i < |t| ==> t[i].value.cost <= MaxHops
  }

  /** `addRoute` keeps every route within the ceiling. */
  lemma AddRouteWithinCeiling(s: Rip, destination: string, cost: int, nextHop: string)
    requires WithinCeiling(s.table)
    ensures WithinCeiling(AddRoute(s, destination, cost, nextHop).table)
  {
    var t' := AddRoute(s, destination, cost, nextHop).table;
    forall i | 0 <= i < |t'|
      ensures t'[i].value.cost <= MaxHops
    {
      GetEntry(t', i);
      if t'[i].key != destination {
        var j :| 0 <= j < |s.table| && s.table[j] == Entry(t'[i].key, t'[i].value);
      }
    }
  }

  /** `receiveUpdate` applies no ceiling: an offer of 15 hops installs a 16-hop route. */
  lemma ReceiveBreaksCeiling(neighbor: string)
    ensures !WithinCeiling(ReceiveUpdate(Init(), neighbor, [Update("net", MaxHops)]).table)
  {
    var t := ReceiveUpdate(Init(), neighbor, [Update("net", MaxHops)]).table;
    ReceiveAllBest(Init().table, neighbor, [Update("net", MaxHops)], "net");
    var j :| 0 <= j < |t| && t[j] == Entry("net", Route(MaxHops + 1, neighbor));
  }

  /** `handleRouteTimeout(destination)`. */
  function HandleRouteTimeout(s: Rip, destination: string): (s': Rip)
    ensures Get(s'.table, destination) == None
    ensures forall d :: d != destination ==> Get(s'.table, d) == Get(s.table, d)
    ensures Get(s.table, destination).None? ==> s' == s
    ensures s'.entries == s.entries
  {
    if Get(s.table, destination).Some? then s.(table := Delete(s.table, destination)) else s
  }

  /** `Object.entries(routingTable).map(...)`: every route one hop further away. */
  function Advertised(t: seq<Entry<Route>>): seq<Update> {
    if |t| == 0 then [] else Advertised(t[..|t| - 1]) + [Update(t[|t| - 1].key, t[|t| - 1].value.cost + 1)]
  }

  /** `broadcastUpdate()`: the header's entries become the advertised routes; the table is kept. */
  function BroadcastUpdate(s: Rip): (s': Rip)
    ensures s'.table == s.table
    ensures |s'.entries| == |s.table|
    ensures forall i :: 0 <= i < |s.table| ==>
      s'.entries[i].destination == s.table[i].key && s'.entries[i].cost == s.table[i].value.cost + 1
  {
    AdvertisedShape(s.table);
    s.(entries := Advertised(s.table))
  }

  lemma {:induction false} AdvertisedShape(t: seq<Entry<Route>>)
    ensures |Advertised(t)| == |t|
    ensures forall i :: 0 <= i < |t| ==>
      Advertised(t)[i] == Update(t[i].key, t[i].value.cost + 1)
  {
    if |t| > 0 {
      AdvertisedShape(t[..|t| - 1]);
    }
  }

  /**
   * A router that hears its own broadcast changes nothing: every offer it
   * receives back costs two hops more than the route it already holds.
   */
  lemma ReceiveOwnBroadcast(s: Rip, neighbor: string, d: string)
    ensures Get(ReceiveUpdate(s, neighbor, BroadcastUpdate(s).entries).table, d) == Get(s.table, d)
  {
    var us := BroadcastUpdate(s).entries;
    AdvertisedShape(s.table);
    ReceiveAllBest(s.table, neighbor, us, d);
    BestOfferIsMinimum(us, d);
    var o := BestOffer(us, d);
    if o.Some? {
      var i :| 0 <= i < |us| && us[i].destination == d && o.value == us[i].cost + 1;
      GetEntry(s.table, i);
    }
  }
}
