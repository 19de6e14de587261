/**
 * The loops inside the GameManager methods (backend/game_logic.py): scans over the building
 * and road lists, the comprehension counts, the cost check and consume loops, and the two
 * transfer loops of confirm_trade. Each one reads a state it is given and returns what it
 * found, and is proved to compute the function of rules.dfy that describes it.
 */
module Scans {
  import opened Models
  import opened Rules
  import Topology

  /** `for b in buildings: if b.location matches: ...break`: the first building at t. */
  method FindBuilding(bs: seq<Building>, t: Triple) returns (r: Option<nat>)
    ensures r == FirstBuildingAt(bs, t)
  {
    var i := 0;
    while i < |bs|
      invariant 0 <= i <= |bs|
      invariant forall j | 0 <= j < i :: Spot(bs[j]) != t
    {
      if Spot(bs[i]) == t {
        assert BuildingAt(bs, t);
        return Some(i);
      }
      i := i + 1;
    }
    return None;
  }

  /** `for road in roads: if road.location matches: return False`: is the side taken? */
  method RoadTaken(rs: seq<Road>, t: Triple) returns (taken: bool)
    ensures taken == RoadAt(rs, t)
  {
    var i := 0;
    while i < |rs|
      invariant 0 <= i <= |rs|
      invariant forall j | 0 <= j < i :: Side(rs[j]) != t
    {
      if Side(rs[i]) == t {
        return true;
      }
      i := i + 1;
    }
    return false;
  }

  /** `len([b for b in buildings if b.owner == p])`. */
  method CountOwnedBuildings(bs: seq<Building>, p: PlayerColor) returns (n: nat)
    ensures n == OwnedBuildings(bs, p)
  {
    n := 0;
    var i := 0;
    while i < |bs|
      invariant 0 <= i <= |bs|
      invariant n == OwnedBuildings(bs[..i], p)
    {
      assert bs[..i + 1][..i] == bs[..i];
      if bs[i].owner == p {
        n := n + 1;
      }
      i := i + 1;
    }
    assert bs[..|bs|] == bs;
  }

  /** `len([b for b in buildings if b.owner == p and b.type == "city"])`. */
  method CountOwnedCities(bs: seq<Building>, p: PlayerColor) returns (n: nat)
    ensures n == OwnedCities(bs, p)
  {
    n := 0;
    var i := 0;
    while i < |bs|
      invariant 0 <= i <= |bs|
      invariant n == OwnedCities(bs[..i], p)
    {
      assert bs[..i + 1][..i] == bs[..i];
      if bs[i].owner == p && bs[i].kind == City {
        n := n + 1;
      }
      i := i + 1;
    }
    assert bs[..|bs|] == bs;
  }

  /** `len([r for r in roads if r.owner == p])`. */
  method CountOwnedRoads(rs: seq<Road>, p: PlayerColor) returns (n: nat)
    ensures n == OwnedRoads(rs, p)
  {
    n := 0;
    var i := 0;
    while i < |rs|
      invariant 0 <= i <= |rs|
      invariant n == OwnedRoads(rs[..i], p)
    {
      assert rs[..i + 1][..i] == rs[..i];
      if rs[i].owner == p {
        n := n + 1;
      }
      i := i + 1;
    }
    assert rs[..|rs|] == rs;
  }

  /**
   * The distance-rule loops of build_settlement: for each neighbouring corner, scan the
   * buildings; stop at the first hit.
   */
  method AnyBuildingIn(bs: seq<Building>, vs: set<Triple>) returns (found: bool)
    ensures found == AnyBuildingAt(bs, vs)
  {
    var left := vs;
    found := false;
    while left != {} && !found
      invariant left <= vs
      invariant found ==> AnyBuildingAt(bs, vs)
      invariant !found ==> forall v | v in vs - left :: !BuildingAt(bs, v)
      decreases left
    {
      var v :| v in left;
      var at := FindBuilding(bs, v);
      found := at.Some?;
      left := left - {v};
    }
    if !found {
      forall i | 0 <= i < |bs|
        ensures Spot(bs[i]) !in vs
      {
        if Spot(bs[i]) in vs {
          assert BuildingAt(bs, Spot(bs[i]));
        }
      }
    }
  }

  /** The inner road scan: an own road lies on edge e. */
  method OwnRoadAt(rs: seq<Road>, p: PlayerColor, e: Triple) returns (found: bool)
    ensures found <==> exists i | 0 <= i < |rs| :: rs[i].owner == p && Side(rs[i]) == e
  {
    var i := 0;
    while i < |rs|
      invariant 0 <= i <= |rs|
      invariant forall j | 0 <= j < i :: !(rs[j].owner == p && Side(rs[j]) == e)
    {
      if rs[i].owner == p && Side(rs[i]) == e {
        return true;
      }
      i := i + 1;
    }
    return false;
  }

  /**
   * The connection loops of build_settlement and build_road: for each edge of the set, scan
   * the roads for an own one; stop at the first hit.
   */
  method OwnRoadIn(rs: seq<Road>, p: PlayerColor, es: set<Triple>) returns (found: bool)
    ensures found == OwnRoadOn(rs, p, es)
  {
    var left := es;
    found := false;
    while left != {} && !found
      invariant left <= es
      invariant found ==> OwnRoadOn(rs, p, es)
      invariant !found ==> forall i | 0 <= i < |rs| :: !(rs[i].owner == p && Side(rs[i]) in es - left)
      decreases left
    {
      var e :| e in left;
      found := OwnRoadAt(rs, p, e);
      left := left - {e};
    }
  }

  /** The building check of build_road: an own building stands at v. */
  method OwnBuildingOn(bs: seq<Building>, p: PlayerColor, v: Triple) returns (found: bool)
    ensures found == OwnBuildingAt(bs, p, v)
  {
    var i := 0;
    while i < |bs|
      invariant 0 <= i <= |bs|
      invariant forall j | 0 <= j < i :: !(bs[j].owner == p && Spot(bs[j]) == v)
    {
      if bs[i].owner == p && Spot(bs[i]) == v {
        return true;
      }
      i := i + 1;
    }
    return false;
  }

  /**
   * The endpoint loop of build_road: for v in [v1, v2], first the own-building scan, then the
   * own-road scan over the edges at v other than the new one.
   */
  method Connected(s: GameState, p: PlayerColor, n: Triple) returns (c: bool)
    ensures c == RoadConnected(s, p, n)
  {
    var ends := [Topology.NormalizeVertex(n.q, n.r, n.k), Topology.NormalizeVertex(n.q, n.r, n.k + 1)];
    c := false;
    var j := 0;
    while j < 2 && !c
      invariant 0 <= j <= 2
      invariant c <==> (j >= 1 && EndConnected(s, p, ends[0], n)) || (j >= 2 && EndConnected(s, p, ends[1], n))
    {
      var v := ends[j];
      c := OwnBuildingOn(s.buildings, p, v);
      if !c {
        c := OwnRoadIn(s.roads, p, Topology.IncidentEdges(v.q, v.r, v.k) - {n});
      }
      j := j + 1;
    }
  }

  /** The check loop over a cost table: `if inventory.get(res, 0) < amount: return False`. */
  method Affords(inv: Inventory, cost: ResourceCounts) returns (ok: bool)
    ensures ok == Covers(inv, cost)
  {
    var i := 0;
    while i < |cost|
      invariant 0 <= i <= |cost|
      invariant forall j | 0 <= j < i :: Count(inv, cost[j].0) >= cost[j].1
    {
      var (res, amount) := cost[i];
      if Count(inv, res) < amount {
        return false;
      }
      i := i + 1;
    }
    return true;
  }

  /** The check loop of create_trade_offer, which names the first resource missing. */
  method Shortfall(inv: Inventory, counts: ResourceCounts) returns (r: Option<Resource>)
    ensures r == FirstShortfall(inv, counts)
  {
    var i := 0;
    while i < |counts|
      invariant 0 <= i <= |counts|
      invariant FirstShortfall(inv, counts) == FirstShortfall(inv, counts[i..])
    {
      var (res, amount) := counts[i];
      if Count(inv, res) < amount {
        return Some(res);
      }
      assert counts[i..][1..] == counts[i + 1..];
      i := i + 1;
    }
    return None;
  }

  /** The consume loop over a cost table: `inventory[res] -= amount` entry by entry. */
  method Consume(inv: Inventory, cost: ResourceCounts) returns (r: Inventory)
    ensures r == Deduct(inv, cost)
  {
    r := inv;
    var i := 0;
    while i < |cost|
      invariant 0 <= i <= |cost|
      invariant Deduct(inv, cost) == Deduct(r, cost[i..])
    {
      var (res, amount) := cost[i];
      assert cost[i..][1..] == cost[i + 1..];
      r := r[res := Count(r, res) - amount];
      i := i + 1;
    }
  }

  /**
   * One transfer loop of confirm_trade: `if inv_from.get(res, 0) < count: return False`, then
   * `inv_from[res] -= count` and `inv_to[res] += count`.
   */
  method TransferLoop(invs: map<PlayerColor, Inventory>, from: PlayerColor, to: PlayerColor, counts: ResourceCounts)
    returns (t: Transferred)
    requires from in invs && to in invs
    ensures t == Transfer(invs, from, to, counts)
  {
    var cur := invs;
    var i := 0;
    while i < |counts|
      invariant 0 <= i <= |counts|
      invariant cur.Keys == invs.Keys
      invariant Transfer(invs, from, to, counts) == Transfer(cur, from, to, counts[i..])
    {
      var (res, n) := counts[i];
      if Count(cur[from], res) < n {
        return Transferred(cur, false);
      }
      TransferStep(cur, from, to, counts[i..]);
      assert counts[i..][1..] == counts[i + 1..];
      cur := Move(cur, from, to, res, n);
      i := i + 1;
    }
    return Transferred(cur, true);
  }
}
