/**
 * Every GameManager operation keeps the state Consistent (rules.dfy): four players and a
 * turn index among them, an entry for every resource in every inventory, at most 50 log
 * entries, and buildings and roads on canonical locations, never two on the same one.
 */
module Invariants {
  import opened Models
  import opened Rules
  import Topology

  // ---------------------------------------------------------------------------
  // Building blocks

  lemma LogKeeps(s: GameState, message: LogMessage, p: PlayerColor)
    requires Consistent(s)
    ensures Consistent(Log(s, message, p))
  {
  }

  lemma HandleTurnEndKeeps(s: GameState)
    requires Consistent(s)
    ensures Consistent(HandleTurnEnd(s))
  {
    HandleTurnEndSnake(s);
  }

  lemma AdvanceTurnKeeps(s: GameState)
    requires Consistent(s)
    ensures Consistent(AdvanceTurnIfNeeded(s))
  {
    HandleTurnEndKeeps(s);
  }

  lemma DeductKeepsFull(inv: Inventory, cost: ResourceCounts)
    requires forall res: Resource :: res in inv
    ensures forall res: Resource :: res in Deduct(inv, cost)
  {
    DeductLowers(inv, cost, Brick);
  }

  lemma PayKeeps(s: GameState, p: PlayerColor, cost: ResourceCounts)
    requires Consistent(s)
    ensures Consistent(Pay(s, p, cost))
  {
    DeductKeepsFull(s.inventories[p], cost);
  }

  /** A building on a free canonical corner keeps the buildings canonical and apart. */
  lemma AppendBuildingKeeps(bs: seq<Building>, b: Building)
    requires BuildingsCanonical(bs) && BuildingsDistinct(bs)
    requires Topology.NormalizeVertex(b.location.q, b.location.r, b.location.corner) == Spot(b)
    requires !BuildingAt(bs, Spot(b))
    ensures BuildingsCanonical(bs + [b]) && BuildingsDistinct(bs + [b])
  {
    var bs' := bs + [b];
    forall i, j | 0 <= i < j < |bs'|
      ensures Spot(bs'[i]) != Spot(bs'[j])
    {
      if j == |bs| {
        assert bs'[i] == bs[i];
      }
    }
  }

  /** A building replaced by one at the same location keeps the buildings canonical and apart. */
  lemma ReplaceBuildingKeeps(bs: seq<Building>, i: nat, b: Building)
    requires BuildingsCanonical(bs) && BuildingsDistinct(bs)
    requires i < |bs| && b.location == bs[i].location
    ensures BuildingsCanonical(bs[i := b]) && BuildingsDistinct(bs[i := b])
  {
  }

  /** A road on a free canonical side keeps the roads canonical and apart. */
  lemma AppendRoadKeeps(rs: seq<Road>, rd: Road)
    requires RoadsCanonical(rs) && RoadsDistinct(rs)
    requires Topology.NormalizeEdge(rd.location.q, rd.location.r, rd.location.edge) == Side(rd)
    requires !RoadAt(rs, Side(rd))
    ensures RoadsCanonical(rs + [rd]) && RoadsDistinct(rs + [rd])
  {
    var rs' := rs + [rd];
    forall i, j | 0 <= i < j < |rs'|
      ensures Side(rs'[i]) != Side(rs'[j])
    {
      if j == |rs| {
        assert rs'[i] == rs[i];
      }
    }
  }

  // ---------------------------------------------------------------------------
  // Building

  lemma BuildSettlementKeeps(s: GameState, q: int, r: int, c: int)
    requires Consistent(s)
    ensures Consistent(BuildSettlement(s, q, r, c).state)
  {
    var n := Topology.NormalizeVertex(q, r, c);
    var p := Current(s);
    if BuildSettlement(s, q, r, c).ok {
      BuildSettlementSpec(s, q, r, c);
      var paid := if s.phase == GameLoop then Pay(s, p, SettlementCost) else s;
      if s.phase == GameLoop {
        PayKeeps(s, p, SettlementCost);
      }
      Topology.NormalizeVertexIdempotent(q, r, c);
      AppendBuildingKeeps(s.buildings, Building(p, Settlement, VertexAt(n)));
      var built := paid.(buildings := paid.buildings + [Building(p, Settlement, VertexAt(n))]);
      LogKeeps(built, SettlementBuilt(n.q, n.r, n.k), p);
      AdvanceTurnKeeps(Log(built, SettlementBuilt(n.q, n.r, n.k), p));
    } else {
      BuildSettlementSpec(s, q, r, c);
    }
  }

  lemma BuildRoadKeeps(s: GameState, q: int, r: int, e: int)
    requires Consistent(s)
    ensures Consistent(BuildRoad(s, q, r, e).state)
  {
    var n := Topology.NormalizeEdge(q, r, e);
    var p := Current(s);
    BuildRoadSpec(s, q, r, e);
    if BuildRoad(s, q, r, e).ok {
      var paid := if s.phase == GameLoop then Pay(s, p, RoadCost) else s;
      if s.phase == GameLoop {
        PayKeeps(s, p, RoadCost);
      }
      Topology.NormalizeEdgeIdempotent(q, r, e);
      AppendRoadKeeps(s.roads, Road(p, EdgeAt(n)));
      var built := paid.(roads := paid.roads + [Road(p, EdgeAt(n))]);
      LogKeeps(built, RoadBuilt(n.q, n.r, n.k), p);
      AdvanceTurnKeeps(Log(built, RoadBuilt(n.q, n.r, n.k), p));
    }
  }

  lemma BuildCityKeeps(s: GameState, q: int, r: int, c: int)
    requires Consistent(s)
    ensures Consistent(BuildCity(s, q, r, c).state)
  {
    var p := Current(s);
    BuildCitySpec(s, q, r, c);
    if BuildCity(s, q, r, c).ok {
      var i := FirstBuildingAt(s.buildings, Topology.Triple(q, r, c)).value;
      var b := s.buildings[i];
      PayKeeps(s, p, CityCost);
      var paid := Pay(s, p, CityCost);
      ReplaceBuildingKeeps(s.buildings, i, b.(kind := City));
      var upgraded := paid.(buildings := paid.buildings[i := b.(kind := City)]);
      LogKeeps(upgraded, CityBuilt(q, r, c), p);
    }
  }

  // ---------------------------------------------------------------------------
  // Turns and dice

  lemma EndTurnKeeps(s: GameState)
    requires Consistent(s)
    ensures Consistent(EndTurn(s))
  {
  }

  /** What the distribution loop keeps: full inventories and a capped log. */
  predicate PayoutSound(po: Payout) {
    (forall p: PlayerColor :: p in po.invs) && InventoriesFull(po.invs) && |po.logs| <= LogCap
  }

  lemma HarvestKeeps(bs: seq<Building>, po: Payout, h: Hex, c: int)
    requires PayoutSound(po)
    ensures PayoutSound(Harvest(bs, po, h, c))
  {
  }

  lemma {:induction false} HarvestCornersKeeps(bs: seq<Building>, po: Payout, h: Hex, c: nat)
    requires PayoutSound(po)
    ensures PayoutSound(HarvestCorners(bs, po, h, c))
    decreases 6 - c
  {
    if c < 6 {
      HarvestKeeps(bs, po, h, c);
      HarvestCornersKeeps(bs, Harvest(bs, po, h, c), h, c + 1);
    }
  }

  lemma {:induction false} DistributeOverKeeps(bs: seq<Building>, po: Payout, hexes: seq<Hex>, total: int)
    requires PayoutSound(po)
    ensures PayoutSound(DistributeOver(bs, po, hexes, total))
    decreases |hexes|
  {
    if hexes != [] {
      if Produces(hexes[0], total) {
        HarvestCornersKeeps(bs, po, hexes[0], 0);
      }
      DistributeOverKeeps(bs, Visit(bs, po, hexes[0], total), hexes[1..], total);
    }
  }

  lemma DistributeResourcesKeeps(s: GameState, hexes: seq<Hex>, total: int)
    requires Consistent(s)
    ensures Consistent(DistributeResources(s, hexes, total))
  {
    DistributeOverKeeps(s.buildings, Payout(s.inventories, s.logs), hexes, total);
  }

  lemma RollDiceKeeps(s: GameState, hexes: seq<Hex>, d1: int, d2: int)
    requires Consistent(s)
    ensures Consistent(Rules.RollDice(s, hexes, d1, d2))
  {
    DistributeResourcesKeeps(s.(lastDiceResult := Some(d1 + d2)), hexes, d1 + d2);
  }

  // ---------------------------------------------------------------------------
  // Trading

  lemma BankTradeKeeps(s: GameState, give: Resource, get: Resource)
    requires Consistent(s)
    ensures Consistent(BankTrade(s, give, get).state)
  {
  }

  lemma CreateTradeOfferKeeps(s: GameState, give: ResourceCounts, get: ResourceCounts)
    requires Consistent(s)
    ensures Consistent(CreateTradeOffer(s, give, get).state)
  {
  }

  lemma CancelTradeOfferKeeps(s: GameState)
    requires Consistent(s)
    ensures Consistent(CancelTradeOffer(s).state)
  {
  }

  lemma RespondToOfferKeeps(s: GameState, responder: PlayerColor, accept: bool)
    requires Consistent(s)
    ensures Consistent(RespondToOffer(s, responder, accept).state)
  {
  }

  lemma MoveKeepsFull(invs: map<PlayerColor, Inventory>, from: PlayerColor, to: PlayerColor, res: Resource, n: int)
    requires from in invs && to in invs && InventoriesFull(invs)
    ensures InventoriesFull(Move(invs, from, to, res, n))
  {
  }

  lemma {:induction false} TransferKeepsFull(invs: map<PlayerColor, Inventory>, from: PlayerColor, to: PlayerColor, counts: ResourceCounts)
    requires from in invs && to in invs && InventoriesFull(invs)
    ensures InventoriesFull(Transfer(invs, from, to, counts).invs)
    decreases |counts|
  {
    if counts != [] && Count(invs[from], counts[0].0) >= counts[0].1 {
      MoveKeepsFull(invs, from, to, counts[0].0, counts[0].1);
      TransferStep(invs, from, to, counts);
      TransferKeepsFull(Move(invs, from, to, counts[0].0, counts[0].1), from, to, counts[1..]);
    }
  }

  lemma SettleKeepsFull(invs: map<PlayerColor, Inventory>, offerer: PlayerColor, target: PlayerColor, give: ResourceCounts, get: ResourceCounts)
    requires offerer in invs && target in invs && InventoriesFull(invs)
    ensures InventoriesFull(Settle(invs, offerer, target, give, get).invs)
  {
    TransferKeepsFull(invs, offerer, target, give);
    TransferKeepsFull(Transfer(invs, offerer, target, give).invs, target, offerer, get);
  }

  lemma ConfirmTradeKeeps(s: GameState, target: PlayerColor)
    requires Consistent(s)
    ensures Consistent(ConfirmTrade(s, target).state)
  {
    if s.activeTrade.Some? {
      SettleKeepsFull(s.inventories, s.activeTrade.value.offerer, target, s.activeTrade.value.give, s.activeTrade.value.get);
    }
  }
}
