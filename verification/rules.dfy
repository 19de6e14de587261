/**
 * The rules of the GameManager (backend/game_logic.py, lines 458-911), as functions from the
 * game state before a call to the game state after it and the call's boolean answer.
 *
 * Each function follows its Python method check by check, in the same order, with the same
 * early returns and the same log entries. The class in engine.dfy carries out the same steps
 * imperatively and is proved to end in the state these functions describe; the lemmas here
 * state what the rules guarantee.
 */
module Rules {
  import opened Models
  import Topology

  type Triple = Topology.Triple

  /** At most this many log entries are kept. */
  const LogCap := 50
  /** No player may own more roads than this once the game loop has started. */
  const RoadCap := 15
  /** No player may own more cities than this. */
  const CityCap := 4

  const RoadCost: ResourceCounts := [(Lumber, 1), (Brick, 1)]
  const SettlementCost: ResourceCounts := [(Lumber, 1), (Brick, 1), (Wool, 1), (Grain, 1)]
  const CityCost: ResourceCounts := [(Grain, 2), (Ore, 3)]

  /** The state after a call and what the call returned. */
  datatype Outcome = Outcome(state: GameState, ok: bool)

  // ---------------------------------------------------------------------------
  // Locations

  function VertexAt(t: Triple): VertexId {
    VertexId(t.q, t.r, t.k)
  }

  function EdgeAt(t: Triple): EdgeId {
    EdgeId(t.q, t.r, t.k)
  }

  function Spot(b: Building): Triple {
    Topology.Triple(b.location.q, b.location.r, b.location.corner)
  }

  function Side(rd: Road): Triple {
    Topology.Triple(rd.location.q, rd.location.r, rd.location.edge)
  }

  /**
   * `VertexID.__eq__` compares the triple (q, r, corner) and nothing else, and `__hash__` hashes
   * that same triple. A Dafny datatype's equality is structural, so the record itself discharges
   * both: two ids are equal exactly when their triples are, and the sets and maps keyed by ids
   * (where Python consults the hash) use that same equality. The lemma is therefore proved by the
   * representation, not by a body.
   */
  lemma VertexIdEquality(a: VertexId, b: VertexId)
    ensures a == b <==> (a.q, a.r, a.corner) == (b.q, b.r, b.corner)
    ensures a == b <==> VertexAt(Topology.Triple(a.q, a.r, a.corner)) == VertexAt(Topology.Triple(b.q, b.r, b.corner))
  {
  }

  // ---------------------------------------------------------------------------
  // The state the engine keeps

  /**
   * What every method relies on: four players, a turn index among them, and an inventory for
   * each player.
   */
  predicate WellFormed(s: GameState) {
    |s.players| == 4 && 0 <= s.currentTurnIndex < 4 && forall p: PlayerColor :: p in s.inventories
  }

  /** Every player's inventory has an entry for every resource, as __init__ sets it up. */
  predicate InventoriesFull(invs: map<PlayerColor, Inventory>) {
    forall p: PlayerColor, res: Resource | p in invs :: res in invs[p]
  }

  /** Every building sits on the canonical spelling of its corner. */
  predicate BuildingsCanonical(bs: seq<Building>) {
    forall i | 0 <= i < |bs| :: Topology.NormalizeVertex(bs[i].location.q, bs[i].location.r, bs[i].location.corner) == Spot(bs[i])
  }

  /** No two buildings share a corner. */
  predicate BuildingsDistinct(bs: seq<Building>) {
    forall i, j | 0 <= i < j < |bs| :: Spot(bs[i]) != Spot(bs[j])
  }

  /** Every road sits on the canonical spelling of its side. */
  predicate RoadsCanonical(rs: seq<Road>) {
    forall i | 0 <= i < |rs| :: Topology.NormalizeEdge(rs[i].location.q, rs[i].location.r, rs[i].location.edge) == Side(rs[i])
  }

  /** No two roads share a side. */
  predicate RoadsDistinct(rs: seq<Road>) {
    forall i, j | 0 <= i < j < |rs| :: Side(rs[i]) != Side(rs[j])
  }

  /**
   * What the engine keeps true: besides WellFormed, every inventory counts every resource, the
   * log holds at most 50 entries, and buildings and roads sit on canonical locations, one per
   * location.
   */
  predicate Consistent(s: GameState) {
    && WellFormed(s)
    && InventoriesFull(s.inventories)
    && |s.logs| <= LogCap
    && BuildingsCanonical(s.buildings) && BuildingsDistinct(s.buildings)
    && RoadsCanonical(s.roads) && RoadsDistinct(s.roads)
  }

  function Current(s: GameState): PlayerColor
    requires WellFormed(s)
  {
    s.players[s.currentTurnIndex]
  }

  /** An inventory with zero of every resource. */
  function EmptyInventory(): (inv: Inventory)
    ensures forall res: Resource :: res in inv && inv[res] == 0
  {
    var inv := map[Brick := 0, Lumber := 0, Wool := 0, Grain := 0, Ore := 0, Desert := 0];
    EveryResource(inv);
    inv
  }

  /** A map that lists the six resources lists every resource. */
  lemma EveryResource<V>(m: map<Resource, V>)
    requires Brick in m && Lumber in m && Wool in m && Grain in m && Ore in m && Desert in m
    ensures forall res: Resource :: res in m
  {
    forall res: Resource
      ensures res in m
    {
      match res
      case Brick => case Lumber => case Wool => case Grain => case Ore => case Desert =>
    }
  }

  /** A map that lists the four colours lists every player. */
  lemma EveryPlayer<V>(m: map<PlayerColor, V>)
    requires Red in m && Blue in m && Orange in m && White in m
    ensures forall p: PlayerColor :: p in m
  {
    forall p: PlayerColor
      ensures p in m
    {
      match p
      case Red => case Blue => case Orange => case White =>
    }
  }

  /**
   * The state GameManager.__init__ sets up: the four colours in order, player 0 to move in the
   * first placement phase, and an empty inventory for every player.
   */
  function InitialState(): (s: GameState)
    ensures Consistent(s)
    ensures s.players == [Red, Blue, Orange, White] && s.currentTurnIndex == 0 && s.phase == InitialPlacement1
    ensures s.buildings == [] && s.roads == [] && s.logs == [] && s.activeTrade == None
    ensures forall p: PlayerColor, res: Resource :: s.inventories[p][res] == 0
  {
    var invs := map[Red := EmptyInventory(), Blue := EmptyInventory(), Orange := EmptyInventory(), White := EmptyInventory()];
    EveryPlayer(invs);
    NewGameState([Red, Blue, Orange, White]).(inventories := invs)
  }

  // ---------------------------------------------------------------------------
  // The log

  /** add_log: append the entry, then drop the oldest one if more than 50 are held. */
  function AppendLog(logs: seq<GameLog>, entry: GameLog): (r: seq<GameLog>)
    ensures |logs| <= LogCap ==> |r| <= LogCap
    ensures |logs| < LogCap ==> |r| == |logs| + 1
    ensures r != [] && r[|r| - 1] == entry
    ensures |r| - 1 <= |logs| && r[..|r| - 1] == logs[|logs| - (|r| - 1)..]
  {
    var grown := logs + [entry];
    if |grown| > LogCap then grown[1..] else grown
  }

  /** Logging changes the log and nothing else, adding one entry at most. */
  function Log(s: GameState, message: LogMessage, player: PlayerColor): (t: GameState)
    ensures t.(logs := s.logs) == s
    ensures |t.logs| <= |s.logs| + 1
  {
    s.(logs := AppendLog(s.logs, GameLog(message, Some(player))))
  }

  // ---------------------------------------------------------------------------
  // Inventories and costs

  /** `inventory.get(res, 0)`. */
  function Count(inv: Inventory, res: Resource): int {
    if res in inv then inv[res] else 0
  }

  /** The check loop over a cost table: every listed amount is held. */
  predicate Covers(inv: Inventory, cost: ResourceCounts) {
    forall i | 0 <= i < |cost| :: Count(inv, cost[i].0) >= cost[i].1
  }

  /** The consume loop over a cost table: each listed amount is subtracted in turn. */
  function Deduct(inv: Inventory, cost: ResourceCounts): Inventory
    decreases |cost|
  {
    if cost == [] then inv
    else Deduct(inv[cost[0].0 := Count(inv, cost[0].0) - cost[0].1], cost[1..])
  }

  /** The total a table lists for one resource. */
  function Amount(cost: ResourceCounts, res: Resource): int
    decreases |cost|
  {
    if cost == [] then 0 else (if cost[0].0 == res then cost[0].1 else 0) + Amount(cost[1..], res)
  }

  /** Consuming a table lowers each resource by the table's total for it and keeps every key. */
  lemma {:induction false} DeductLowers(inv: Inventory, cost: ResourceCounts, res: Resource)
    ensures Count(Deduct(inv, cost), res) == Count(inv, res) - Amount(cost, res)
    ensures inv.Keys <= Deduct(inv, cost).Keys
    decreases |cost|
  {
    if cost != [] {
      DeductLowers(inv[cost[0].0 := Count(inv, cost[0].0) - cost[0].1], cost[1..], res);
    }
  }

  /** A settlement costs one each of lumber, brick, wool and grain. */
  lemma SettlementCostAmounts()
    ensures Amount(SettlementCost, Lumber) == 1 && Amount(SettlementCost, Brick) == 1
    ensures Amount(SettlementCost, Wool) == 1 && Amount(SettlementCost, Grain) == 1
    ensures Amount(SettlementCost, Ore) == 0 && Amount(SettlementCost, Desert) == 0
  {
  }

  /** A road costs one lumber and one brick. */
  lemma RoadCostAmounts()
    ensures Amount(RoadCost, Lumber) == 1 && Amount(RoadCost, Brick) == 1
    ensures Amount(RoadCost, Wool) == 0 && Amount(RoadCost, Grain) == 0
    ensures Amount(RoadCost, Ore) == 0 && Amount(RoadCost, Desert) == 0
  {
  }

  /** A city costs two grain and three ore. */
  lemma CityCostAmounts()
    ensures Amount(CityCost, Grain) == 2 && Amount(CityCost, Ore) == 3
    ensures Amount(CityCost, Lumber) == 0 && Amount(CityCost, Brick) == 0
    ensures Amount(CityCost, Wool) == 0 && Amount(CityCost, Desert) == 0
  {
  }

  // ---------------------------------------------------------------------------
  // Queries over buildings and roads

  predicate BuildingAt(bs: seq<Building>, t: Triple) {
    exists i | 0 <= i < |bs| :: Spot(bs[i]) == t
  }

  predicate RoadAt(rs: seq<Road>, t: Triple) {
    exists i | 0 <= i < |rs| :: Side(rs[i]) == t
  }

  predicate AnyBuildingAt(bs: seq<Building>, vs: set<Triple>) {
    exists i | 0 <= i < |bs| :: Spot(bs[i]) in vs
  }

  predicate OwnBuildingAt(bs: seq<Building>, p: PlayerColor, t: Triple) {
    exists i | 0 <= i < |bs| :: bs[i].owner == p && Spot(bs[i]) == t
  }

  predicate OwnRoadOn(rs: seq<Road>, p: PlayerColor, edges: set<Triple>) {
    exists i | 0 <= i < |rs| :: rs[i].owner == p && Side(rs[i]) in edges
  }

  /** The index of the first building at t, if any (the `for ... break` and `next(...)` searches). */
  function FirstBuildingAt(bs: seq<Building>, t: Triple): (r: Option<nat>)
    ensures r.Some? ==> r.value < |bs| && Spot(bs[r.value]) == t
    ensures r.Some? ==> forall j | 0 <= j < r.value :: Spot(bs[j]) != t
    ensures r.None? <==> !BuildingAt(bs, t)
    decreases |bs|
  {
    if bs == [] then None
    else if Spot(bs[0]) == t then Some(0)
    else
      match FirstBuildingAt(bs[1..], t)
      case None => None
      case Some(i) => Some(i + 1)
  }

  /** `[b for b in buildings if b.owner == p]`, counted. */
  function OwnedBuildings(bs: seq<Building>, p: PlayerColor): (n: nat)
    ensures n <= |bs|
  {
    if bs == [] then 0
    else OwnedBuildings(bs[..|bs| - 1], p) + (if bs[|bs| - 1].owner == p then 1 else 0)
  }

  /** `[b for b in buildings if b.owner == p and b.type == "city"]`, counted. */
  function OwnedCities(bs: seq<Building>, p: PlayerColor): (n: nat)
    ensures n <= OwnedBuildings(bs, p)
  {
    if bs == [] then 0
    else OwnedCities(bs[..|bs| - 1], p) + (if bs[|bs| - 1].owner == p && bs[|bs| - 1].kind == City then 1 else 0)
  }

  /** `[r for r in roads if r.owner == p]`, counted. */
  function OwnedRoads(rs: seq<Road>, p: PlayerColor): (n: nat)
    ensures n <= |rs|
  {
    if rs == [] then 0
    else OwnedRoads(rs[..|rs| - 1], p) + (if rs[|rs| - 1].owner == p then 1 else 0)
  }

  /** The building count is the number of positions holding one of the player's buildings. */
  lemma {:induction false} OwnedBuildingsCountsPositions(bs: seq<Building>, p: PlayerColor)
    ensures OwnedBuildings(bs, p) == |set i | 0 <= i < |bs| && bs[i].owner == p|
  {
    if bs != [] {
      var front := bs[..|bs| - 1];
      OwnedBuildingsCountsPositions(front, p);
      var before := set i | 0 <= i < |front| && front[i].owner == p;
      var all := set i | 0 <= i < |bs| && bs[i].owner == p;
      if bs[|bs| - 1].owner == p {
        assert all == before + {|bs| - 1};
      } else {
        assert all == before;
      }
    }
  }

  /** The road count is the number of positions holding one of the player's roads. */
  lemma {:induction false} OwnedRoadsCountsPositions(rs: seq<Road>, p: PlayerColor)
    ensures OwnedRoads(rs, p) == |set i | 0 <= i < |rs| && rs[i].owner == p|
  {
    if rs != [] {
      var front := rs[..|rs| - 1];
      OwnedRoadsCountsPositions(front, p);
      var before := set i | 0 <= i < |front| && front[i].owner == p;
      var all := set i | 0 <= i < |rs| && rs[i].owner == p;
      if rs[|rs| - 1].owner == p {
        assert all == before + {|rs| - 1};
      } else {
        assert all == before;
      }
    }
  }

  // ---------------------------------------------------------------------------
  // Turn order: advance_turn_if_needed and handle_turn_end

  /** handle_turn_end: the snake draft 0, 1, 2, 3, 3, 2, 1, 0, then the game loop (for four players). */
  function HandleTurnEnd(s: GameState): (t: GameState)
    ensures t.(currentTurnIndex := s.currentTurnIndex, phase := s.phase, turnSubPhase := s.turnSubPhase) == s
  {
    var i := s.currentTurnIndex;
    var s1 :=
      match s.phase
      case InitialPlacement1 => if i < 3 then s.(currentTurnIndex := i + 1) else s.(phase := InitialPlacement2)
      case InitialPlacement2 => if i > 0 then s.(currentTurnIndex := i - 1) else s.(phase := GameLoop, currentTurnIndex := 0)
      case GameLoop => s.(currentTurnIndex := (i + 1) % 4);
    if s1.phase == GameLoop then s1.(turnSubPhase := Some(SubPhase.RollDice)) else s1
  }

  /** advance_turn_if_needed: end the turn once the placement quota of the phase is met. */
  function AdvanceTurnIfNeeded(s: GameState): (t: GameState)
    requires WellFormed(s)
    ensures t.(currentTurnIndex := s.currentTurnIndex, phase := s.phase, turnSubPhase := s.turnSubPhase) == s
  {
    var p := Current(s);
    var settlements := OwnedBuildings(s.buildings, p);
    var roads := OwnedRoads(s.roads, p);
    if s.phase == InitialPlacement1 && settlements >= 1 && roads >= 1 then HandleTurnEnd(s)
    else if s.phase == InitialPlacement2 && settlements >= 2 && roads >= 2 then HandleTurnEnd(s)
    else s
  }

  /** The order of the phases; no call ever moves the game to an earlier one. */
  function PhaseRank(ph: Phase): nat {
    match ph
    case InitialPlacement1 => 0
    case InitialPlacement2 => 1
    case GameLoop => 2
  }

  /**
   * handle_turn_end follows the snake draft: in phase 1 the index climbs 0 to 3, after player 3
   * phase 2 starts with player 3 again, in phase 2 the index falls 3 to 0, and after player 0
   * the game loop starts with player 0 to roll. The index stays in 0..3, the phase never goes
   * back, and nothing but the index, the phase and the sub-phase changes.
   */
  lemma HandleTurnEndSnake(s: GameState)
    requires 0 <= s.currentTurnIndex < 4
    ensures var t := HandleTurnEnd(s); var i := s.currentTurnIndex;
      && 0 <= t.currentTurnIndex < 4
      && PhaseRank(t.phase) >= PhaseRank(s.phase)
      && (s.phase == InitialPlacement1 && i < 3 ==> t.phase == InitialPlacement1 && t.currentTurnIndex == i + 1)
      && (s.phase == InitialPlacement1 && i == 3 ==> t.phase == InitialPlacement2 && t.currentTurnIndex == 3)
      && (s.phase == InitialPlacement2 && i > 0 ==> t.phase == InitialPlacement2 && t.currentTurnIndex == i - 1)
      && (s.phase == InitialPlacement2 && i == 0 ==>
            t.phase == GameLoop && t.currentTurnIndex == 0 && t.turnSubPhase == Some(SubPhase.RollDice))
      && (s.phase == GameLoop ==> t.phase == GameLoop && t.currentTurnIndex == (i + 1) % 4)
      && t.(currentTurnIndex := s.currentTurnIndex, phase := s.phase, turnSubPhase := s.turnSubPhase) == s
  {
  }

  /** Ending n turns in a row. */
  function TurnEnds(s: GameState, n: nat): GameState
    decreases n
  {
    if n == 0 then s else TurnEnds(HandleTurnEnd(s), n - 1)
  }

  /** From the first turn of a fresh game, eight turn ends run the whole draft and reach the game loop. */
  lemma SnakeDraftFromStart(s: GameState)
    requires s.phase == InitialPlacement1 && s.currentTurnIndex == 0
    ensures TurnEnds(s, 3).phase == InitialPlacement1 && TurnEnds(s, 3).currentTurnIndex == 3
    ensures TurnEnds(s, 4).phase == InitialPlacement2 && TurnEnds(s, 4).currentTurnIndex == 3
    ensures TurnEnds(s, 7).phase == InitialPlacement2 && TurnEnds(s, 7).currentTurnIndex == 0
    ensures TurnEnds(s, 8).phase == GameLoop && TurnEnds(s, 8).currentTurnIndex == 0
    ensures TurnEnds(s, 8).turnSubPhase == Some(SubPhase.RollDice)
  {
    var s1 := HandleTurnEnd(s);
    var s2 := HandleTurnEnd(s1);
    var s3 := HandleTurnEnd(s2);
    var s4 := HandleTurnEnd(s3);
    var s5 := HandleTurnEnd(s4);
    var s6 := HandleTurnEnd(s5);
    var s7 := HandleTurnEnd(s6);
    var s8 := HandleTurnEnd(s7);
    assert TurnEnds(s, 3) == s3 by {
      assert TurnEnds(s2, 1) == s3;
      assert TurnEnds(s1, 2) == s3;
    }
    assert TurnEnds(s, 4) == s4 by {
      assert TurnEnds(s3, 1) == s4;
      assert TurnEnds(s2, 2) == s4;
      assert TurnEnds(s1, 3) == s4;
    }
    assert TurnEnds(s, 7) == s7 by {
      assert TurnEnds(s6, 1) == s7;
      assert TurnEnds(s5, 2) == s7;
      assert TurnEnds(s4, 3) == s7;
      assert TurnEnds(s3, 4) == s7;
      assert TurnEnds(s2, 5) == s7;
      assert TurnEnds(s1, 6) == s7;
    }
    assert TurnEnds(s, 8) == s8 by {
      assert TurnEnds(s7, 1) == s8;
      assert TurnEnds(s6, 2) == s8;
      assert TurnEnds(s5, 3) == s8;
      assert TurnEnds(s4, 4) == s8;
      assert TurnEnds(s3, 5) == s8;
      assert TurnEnds(s2, 6) == s8;
      assert TurnEnds(s1, 7) == s8;
    }
  }

  /**
   * advance_turn_if_needed ends the turn exactly when the current player has met the quota of
   * a placement phase, and never in the game loop.
   */
  lemma AdvanceTurnWhenQuotaMet(s: GameState)
    requires WellFormed(s)
    ensures var p := Current(s);
      var met := (s.phase == InitialPlacement1 && OwnedBuildings(s.buildings, p) >= 1 && OwnedRoads(s.roads, p) >= 1)
              || (s.phase == InitialPlacement2 && OwnedBuildings(s.buildings, p) >= 2 && OwnedRoads(s.roads, p) >= 2);
      AdvanceTurnIfNeeded(s) == (if met then HandleTurnEnd(s) else s)
    ensures s.phase == GameLoop ==> AdvanceTurnIfNeeded(s) == s
  {
  }

  /** end_turn: the next player by `len(players)`, back to rolling, no dice result. */
  function EndTurn(s: GameState): (t: GameState)
    requires |s.players| > 0
  {
    s.(currentTurnIndex := (s.currentTurnIndex + 1) % |s.players|,
       turnSubPhase := Some(SubPhase.RollDice),
       lastDiceResult := None)
  }

  /**
   * end_turn ignores the phase: called during the placement phases it moves the turn on (and
   * sets a sub-phase) without the quota being met. With four players it agrees with the game
   * loop branch of handle_turn_end.
   */
  lemma EndTurnSkipsPlacement(s: GameState)
    requires |s.players| == 4 && 0 <= s.currentTurnIndex < 4
    ensures 0 <= EndTurn(s).currentTurnIndex < 4
    ensures EndTurn(s).phase == s.phase && EndTurn(s).buildings == s.buildings && EndTurn(s).roads == s.roads
    ensures s.phase == GameLoop ==> EndTurn(s).currentTurnIndex == HandleTurnEnd(s).currentTurnIndex
    ensures s.phase == InitialPlacement1 && s.currentTurnIndex == 0 ==> EndTurn(s).currentTurnIndex == 1
  {
  }

  // ---------------------------------------------------------------------------
  // build_settlement

  /** The initial-phase quotas: one own building in phase 1, two in phase 2, none in the game loop. */
  predicate UnderQuota(ph: Phase, owned: nat) {
    match ph
    case InitialPlacement1 => owned < 1
    case InitialPlacement2 => owned < 2
    case GameLoop => true
  }

  function Pay(s: GameState, p: PlayerColor, cost: ResourceCounts): (t: GameState)
    requires p in s.inventories
    ensures t.(inventories := s.inventories) == s
  {
    s.(inventories := s.inventories[p := Deduct(s.inventories[p], cost)])
  }

  /** build_settlement(q, r, c). */
  function BuildSettlement(s: GameState, q: int, r: int, c: int): Outcome
    requires WellFormed(s)
  {
    var n := Topology.NormalizeVertex(q, r, c);
    var p := Current(s);
    var inLoop := s.phase == GameLoop;
    if inLoop && s.turnSubPhase != Some(BuildTrade) then Outcome(s, false)
    else if BuildingAt(s.buildings, n) then Outcome(s, false)
    else if !UnderQuota(s.phase, OwnedBuildings(s.buildings, p)) then Outcome(s, false)
    else if AnyBuildingAt(s.buildings, Topology.AdjacentVertices(n.q, n.r, n.k)) then Outcome(Log(s, TooClose, p), false)
    else if inLoop && !OwnRoadOn(s.roads, p, Topology.IncidentEdges(n.q, n.r, n.k)) then
      Outcome(Log(s, MustConnectToRoad, p), false)
    else if inLoop && !Covers(s.inventories[p], SettlementCost) then Outcome(s, false)
    else
      var paid := if inLoop then Pay(s, p, SettlementCost) else s;
      var built := paid.(buildings := paid.buildings + [Building(p, Settlement, VertexAt(n))]);
      Outcome(AdvanceTurnIfNeeded(Log(built, SettlementBuilt(n.q, n.r, n.k), p)), true)
  }

  /** Everything build_settlement checks before it builds. */
  predicate SettlementAllowed(s: GameState, q: int, r: int, c: int)
    requires WellFormed(s)
  {
    var n := Topology.NormalizeVertex(q, r, c);
    var p := Current(s);
    && !BuildingAt(s.buildings, n)
    && UnderQuota(s.phase, OwnedBuildings(s.buildings, p))
    && !AnyBuildingAt(s.buildings, Topology.AdjacentVertices(n.q, n.r, n.k))
    && (s.phase == GameLoop ==>
          && s.turnSubPhase == Some(BuildTrade)
          && OwnRoadOn(s.roads, p, Topology.IncidentEdges(n.q, n.r, n.k))
          && Covers(s.inventories[p], SettlementCost))
  }

  /**
   * build_settlement returns True exactly when the normalised corner is free, the quota of
   * the phase is not used up, no adjacent corner is occupied and, in the game loop, the
   * player is in the build-and-trade step, owns a road at the corner and can pay. Then one
   * settlement of the current player is appended at the normalised corner and the cost is
   * paid in the game loop only; otherwise buildings, roads, inventories, phase and turn are
   * unchanged and at most one entry is logged.
   */
  lemma BuildSettlementSpec(s: GameState, q: int, r: int, c: int)
    requires WellFormed(s)
    ensures var o := BuildSettlement(s, q, r, c);
      var n := Topology.NormalizeVertex(q, r, c);
      var p := Current(s);
      && (o.ok <==> SettlementAllowed(s, q, r, c))
      && (o.ok ==>
            && o.state.buildings == s.buildings + [Building(p, Settlement, VertexAt(n))]
            && o.state.roads == s.roads
            && o.state.inventories == (if s.phase == GameLoop then Pay(s, p, SettlementCost) else s).inventories
            && o.state.activeTrade == s.activeTrade)
      && (!o.ok ==> o.state.(logs := s.logs) == s && |o.state.logs| <= |s.logs| + 1)
  {
    var n := Topology.NormalizeVertex(q, r, c);
    var p := Current(s);
    var inLoop := s.phase == GameLoop;
    if inLoop && s.turnSubPhase != Some(BuildTrade) {
    } else if BuildingAt(s.buildings, n) {
    } else if !UnderQuota(s.phase, OwnedBuildings(s.buildings, p)) {
    } else if AnyBuildingAt(s.buildings, Topology.AdjacentVertices(n.q, n.r, n.k)) {
    } else if inLoop && !OwnRoadOn(s.roads, p, Topology.IncidentEdges(n.q, n.r, n.k)) {
    } else if inLoop && !Covers(s.inventories[p], SettlementCost) {
    } else {
      var paid := if inLoop then Pay(s, p, SettlementCost) else s;
      var built := paid.(buildings := paid.buildings + [Building(p, Settlement, VertexAt(n))]);
      var logged := Log(built, SettlementBuilt(n.q, n.r, n.k), p);
      assert BuildSettlement(s, q, r, c) == Outcome(AdvanceTurnIfNeeded(logged), true);
    }
  }

  /**
   * The distance rule is one-sided. With another player's settlement on corner 1 of cell
   * (q, r + 1), a settlement on corner 2 of cell (q, r) is accepted, although corner 2 of
   * (q, r) is one of the neighbours of corner 1 of (q, r + 1)...
   */
  lemma SettlementBesideCorner1Accepted(s: GameState, q: int, r: int)
    requires WellFormed(s) && s.phase == InitialPlacement1
    requires |s.buildings| == 1 && s.buildings[0].owner != Current(s)
    requires s.buildings[0].location == VertexId(q, r + 1, 1)
    ensures Topology.Triple(q, r, 2) in Topology.AdjacentVertices(q, r + 1, 1)
    ensures BuildSettlement(s, q, r, 2).ok
  {
    Topology.AdjacencyNotSymmetric(q, r);
    Topology.NormalizeVertexClosedForm(q, r, 2);
    BuildSettlementSpec(s, q, r, 2);
  }

  /** ... while in the other order the second settlement is refused as too close. */
  lemma SettlementBesideCorner2Refused(s: GameState, q: int, r: int)
    requires WellFormed(s) && s.phase == InitialPlacement1
    requires |s.buildings| == 1 && s.buildings[0].owner != Current(s)
    requires s.buildings[0].location == VertexId(q, r, 2)
    ensures BuildSettlement(s, q, r + 1, 1) == Outcome(Log(s, TooClose, Current(s)), false)
  {
    Topology.AdjacencyNotSymmetric(q, r);
    Topology.NormalizeVertexClosedForm(q, r + 1, 1);
    assert OwnedBuildings(s.buildings, Current(s)) == 0;
    assert Spot(s.buildings[0]) in Topology.AdjacentVertices(q, r + 1, 1);
    RefusedAsTooClose(s, q, r + 1, 1);
  }

  /** A free corner within the quota with an occupied neighbour is refused, and "too close" is logged. */
  lemma RefusedAsTooClose(s: GameState, q: int, r: int, c: int)
    requires WellFormed(s) && s.phase != GameLoop
    requires !BuildingAt(s.buildings, Topology.NormalizeVertex(q, r, c))
    requires UnderQuota(s.phase, OwnedBuildings(s.buildings, Current(s)))
    requires AnyBuildingAt(s.buildings, Topology.AdjacentVertices(Topology.NormalizeVertex(q, r, c).q,
               Topology.NormalizeVertex(q, r, c).r, Topology.NormalizeVertex(q, r, c).k))
    ensures BuildSettlement(s, q, r, c) == Outcome(Log(s, TooClose, Current(s)), false)
  {
  }

  // ---------------------------------------------------------------------------
  // build_road

  /** One endpoint of the new road touches the player's network: an own building there, or an own road on another edge there. */
  predicate EndConnected(s: GameState, p: PlayerColor, v: Triple, n: Triple) {
    OwnBuildingAt(s.buildings, p, v) || OwnRoadOn(s.roads, p, Topology.IncidentEdges(v.q, v.r, v.k) - {n})
  }

  /** The connection rule of build_road, with the endpoints normalize_vertex(nq, nr, ne) and (nq, nr, ne + 1). */
  predicate RoadConnected(s: GameState, p: PlayerColor, n: Triple) {
    EndConnected(s, p, Topology.NormalizeVertex(n.q, n.r, n.k), n)
    || EndConnected(s, p, Topology.NormalizeVertex(n.q, n.r, n.k + 1), n)
  }

  /** build_road(q, r, e). */
  function BuildRoad(s: GameState, q: int, r: int, e: int): Outcome
    requires WellFormed(s)
  {
    var n := Topology.NormalizeEdge(q, r, e);
    var p := Current(s);
    var inLoop := s.phase == GameLoop;
    var owned := OwnedRoads(s.roads, p);
    if inLoop && s.turnSubPhase != Some(BuildTrade) then Outcome(s, false)
    else if RoadAt(s.roads, n) then Outcome(s, false)
    else if owned >= RoadCap && inLoop then Outcome(s, false)
    else if !UnderQuota(s.phase, owned) then Outcome(s, false)
    else if !RoadConnected(s, p, n) then Outcome(Log(s, MustConnectToNetwork, p), false)
    else if inLoop && !Covers(s.inventories[p], RoadCost) then Outcome(s, false)
    else
      var paid := if inLoop then Pay(s, p, RoadCost) else s;
      var built := paid.(roads := paid.roads + [Road(p, EdgeAt(n))]);
      Outcome(AdvanceTurnIfNeeded(Log(built, RoadBuilt(n.q, n.r, n.k), p)), true)
  }

  /** Everything build_road checks before it builds. */
  predicate RoadAllowed(s: GameState, q: int, r: int, e: int)
    requires WellFormed(s)
  {
    var n := Topology.NormalizeEdge(q, r, e);
    var p := Current(s);
    && !RoadAt(s.roads, n)
    && UnderQuota(s.phase, OwnedRoads(s.roads, p))
    && RoadConnected(s, p, n)
    && (s.phase == GameLoop ==>
          && s.turnSubPhase == Some(BuildTrade)
          && OwnedRoads(s.roads, p) < RoadCap
          && Covers(s.inventories[p], RoadCost))
  }

  /**
   * build_road returns True exactly when the normalised edge is free, the phase quota is not
   * used up, an endpoint touches the player's own building or another own road (in every
   * phase, placement included) and, in the game loop, the player is building, owns fewer
   * than 15 roads and can pay. Then one road is appended; otherwise nothing but the log
   * changes.
   */
  lemma BuildRoadSpec(s: GameState, q: int, r: int, e: int)
    requires WellFormed(s)
    ensures var o := BuildRoad(s, q, r, e);
      var n := Topology.NormalizeEdge(q, r, e);
      var p := Current(s);
      && (o.ok <==> RoadAllowed(s, q, r, e))
      && (o.ok ==>
            && o.state.roads == s.roads + [Road(p, EdgeAt(n))]
            && o.state.buildings == s.buildings
            && o.state.inventories == (if s.phase == GameLoop then Pay(s, p, RoadCost) else s).inventories
            && o.state.activeTrade == s.activeTrade)
      && (!o.ok ==> o.state.(logs := s.logs) == s && |o.state.logs| <= |s.logs| + 1)
  {
  }

  /** A first road cannot be placed anywhere without a settlement at one of its ends. */
  lemma FirstRoadNeedsSettlement(s: GameState, q: int, r: int, e: int)
    requires WellFormed(s)
    requires s.phase == InitialPlacement1 && s.buildings == []
    ensures !BuildRoad(s, q, r, e).ok
  {
    var n := Topology.NormalizeEdge(q, r, e);
    var p := Current(s);
    if OwnedRoads(s.roads, p) == 0 {
      OwnedRoadsZero(s.roads, p);
      assert !RoadConnected(s, p, n);
    }
  }

  /** No own road counted means no own road anywhere. */
  lemma {:induction false} OwnedRoadsZero(rs: seq<Road>, p: PlayerColor)
    requires OwnedRoads(rs, p) == 0
    ensures forall i | 0 <= i < |rs| :: rs[i].owner != p
  {
    if rs != [] {
      OwnedRoadsZero(rs[..|rs| - 1], p);
      assert forall i | 0 <= i < |rs| - 1 :: rs[i] == rs[..|rs| - 1][i];
    }
  }

  // ---------------------------------------------------------------------------
  // build_city

  /** build_city(nq, nr, nc): the coordinates are matched exactly, without normalising. */
  function BuildCity(s: GameState, q: int, r: int, c: int): Outcome
    requires WellFormed(s)
  {
    var p := Current(s);
    if s.phase != GameLoop then Outcome(s, false)
    else if OwnedCities(s.buildings, p) >= CityCap then Outcome(Log(s, MaxCitiesReached, p), false)
    else
      match FirstBuildingAt(s.buildings, Topology.Triple(q, r, c))
      case None => Outcome(Log(s, NoBuildingSelected, p), false)
      case Some(i) =>
        var b := s.buildings[i];
        if b.owner != p then Outcome(Log(s, NotYourBuilding, p), false)
        else if b.kind != Settlement then Outcome(Log(s, OnlySettlementsUpgrade, p), false)
        else if !Covers(s.inventories[p], CityCost) then Outcome(s, false)
        else
          var paid := Pay(s, p, CityCost);
          var upgraded := paid.(buildings := paid.buildings[i := b.(kind := City)]);
          Outcome(Log(upgraded, CityBuilt(q, r, c), p), true)
  }

  /**
   * build_city succeeds exactly in the game loop, on the current player's settlement stored at
   * exactly (q, r, c), with fewer than 4 own cities and 2 grain and 3 ore in hand. Then that
   * one building becomes a city, the number of buildings is unchanged and the player pays
   * 2 grain and 3 ore; on failure nothing but the log changes. The sub-phase is not checked.
   */
  lemma BuildCitySpec(s: GameState, q: int, r: int, c: int)
    requires WellFormed(s)
    ensures var o := BuildCity(s, q, r, c);
      var p := Current(s);
      var t := Topology.Triple(q, r, c);
      var i := FirstBuildingAt(s.buildings, t);
      && (o.ok <==>
            && s.phase == GameLoop
            && OwnedCities(s.buildings, p) < CityCap
            && i.Some?
            && s.buildings[i.value].owner == p
            && s.buildings[i.value].kind == Settlement
            && Covers(s.inventories[p], CityCost))
      && (o.ok ==>
            && o.state.buildings == s.buildings[i.value := Building(p, City, VertexAt(t))]
            && o.state.inventories == Pay(s, p, CityCost).inventories
            && o.state.roads == s.roads && o.state.phase == s.phase
            && o.state.currentTurnIndex == s.currentTurnIndex)
      && (!o.ok ==> o.state.(logs := s.logs) == s && |o.state.logs| <= |s.logs| + 1)
  {
    var t := Topology.Triple(q, r, c);
    var p := Current(s);
    if s.phase == GameLoop && OwnedCities(s.buildings, p) < CityCap {
      match FirstBuildingAt(s.buildings, t)
      case None =>
      case Some(i) =>
        var b := s.buildings[i];
        if b.owner == p && b.kind == Settlement && Covers(s.inventories[p], CityCost) {
          assert b.(kind := City) == Building(p, City, VertexAt(t));
        }
    }
  }

  // ---------------------------------------------------------------------------
  // distribute_resources and roll_dice

  /** What distribute_resources changes: the inventories and the log. */
  datatype Payout = Payout(invs: map<PlayerColor, Inventory>, logs: seq<GameLog>)

  /** `inventory[res] += gain`. */
  function Credit(inv: Inventory, res: Resource, gain: int): (r: Inventory)
    ensures Count(r, res) == Count(inv, res) + gain
    ensures forall x: Resource | x != res :: Count(r, x) == Count(inv, x)
  {
    inv[res := Count(inv, res) + gain]
  }

  /** A player earns `gain` of one resource, and the log says so. */
  function Earn(po: Payout, owner: PlayerColor, res: Resource, gain: int): (r: Payout)
    requires owner in po.invs
    ensures r.invs.Keys == po.invs.Keys
  {
    Payout(po.invs[owner := Credit(po.invs[owner], res, gain)], AppendLog(po.logs, GameLog(Produced(gain, res), Some(owner))))
  }

  /** Earn changes one count of one player, by `gain`. */
  lemma EarnCount(po: Payout, owner: PlayerColor, res: Resource, gain: int, p: PlayerColor, x: Resource)
    requires owner in po.invs && p in po.invs
    ensures Count(Earn(po, owner, res, gain).invs[p], x) == Count(po.invs[p], x) + (if p == owner && x == res then gain else 0)
  {
  }

  /** One corner of a producing cell: the first building there, if any, earns 1 (settlement) or 2 (city). */
  function Harvest(bs: seq<Building>, po: Payout, h: Hex, c: int): (r: Payout)
    requires forall p: PlayerColor :: p in po.invs
    ensures forall p: PlayerColor :: p in r.invs
  {
    match FirstBuildingAt(bs, Topology.NormalizeVertex(h.q, h.r, c))
    case None => po
    case Some(i) => Earn(po, bs[i].owner, h.resource, if bs[i].kind == City then 2 else 1)
  }

  /** The corners c, c + 1, ..., 5 of one cell, in turn. */
  function HarvestCorners(bs: seq<Building>, po: Payout, h: Hex, c: nat): (r: Payout)
    requires forall p: PlayerColor :: p in po.invs
    ensures forall p: PlayerColor :: p in r.invs
    decreases 6 - c
  {
    if c >= 6 then po else HarvestCorners(bs, Harvest(bs, po, h, c), h, c + 1)
  }

  /** One more corner of the corner loop. */
  lemma HarvestCornersStep(bs: seq<Building>, po: Payout, h: Hex, c: nat)
    requires forall p: PlayerColor :: p in po.invs
    requires c < 6
    ensures HarvestCorners(bs, po, h, c) == HarvestCorners(bs, Harvest(bs, po, h, c), h, c + 1)
  {
  }

  /** A cell produces for a dice total when it carries that number and is not the desert. */
  predicate Produces(h: Hex, total: int) {
    h.number == Some(total) && h.resource != Desert
  }

  /** The loop over the cells of the board. */
  function DistributeOver(bs: seq<Building>, po: Payout, hexes: seq<Hex>, total: int): (r: Payout)
    requires forall p: PlayerColor :: p in po.invs
    ensures forall p: PlayerColor :: p in r.invs
    decreases |hexes|
  {
    if hexes == [] then po else DistributeOver(bs, Visit(bs, po, hexes[0], total), hexes[1..], total)
  }

  /** One cell of the loop: its corners pay out when it produces. */
  function Visit(bs: seq<Building>, po: Payout, h: Hex, total: int): (r: Payout)
    requires forall p: PlayerColor :: p in po.invs
    ensures forall p: PlayerColor :: p in r.invs
  {
    if Produces(h, total) then HarvestCorners(bs, po, h, 0) else po
  }

  /** distribute_resources(total): nothing on a 7 (the robber is not implemented). */
  function DistributeResources(s: GameState, hexes: seq<Hex>, total: int): (t: GameState)
    requires forall p: PlayerColor :: p in s.inventories
    ensures forall p: PlayerColor :: p in t.inventories
    ensures t.(inventories := s.inventories, logs := s.logs) == s
  {
    if total == 7 then s
    else
      var po := DistributeOver(s.buildings, Payout(s.inventories, s.logs), hexes, total);
      s.(inventories := po.invs, logs := po.logs)
  }

  /** What one corner of a cell yields player p in resource res. */
  function CornerYield(bs: seq<Building>, h: Hex, c: int, p: PlayerColor, res: Resource): nat {
    match FirstBuildingAt(bs, Topology.NormalizeVertex(h.q, h.r, c))
    case None => 0
    case Some(i) => if bs[i].owner == p && h.resource == res then (if bs[i].kind == City then 2 else 1) else 0
  }

  /** What the corners c..5 of a cell yield player p in resource res. */
  function CellYield(bs: seq<Building>, h: Hex, c: nat, p: PlayerColor, res: Resource): nat
    decreases 6 - c
  {
    if c >= 6 then 0 else CornerYield(bs, h, c, p, res) + CellYield(bs, h, c + 1, p, res)
  }

  /** What a dice total yields player p in resource res over a list of cells. */
  function Yield(bs: seq<Building>, hexes: seq<Hex>, total: int, p: PlayerColor, res: Resource): nat
    decreases |hexes|
  {
    if hexes == [] then 0 else VisitYield(bs, hexes[0], total, p, res) + Yield(bs, hexes[1..], total, p, res)
  }

  /** What one cell yields player p in resource res for a dice total. */
  function VisitYield(bs: seq<Building>, h: Hex, total: int, p: PlayerColor, res: Resource): nat {
    if Produces(h, total) then CellYield(bs, h, 0, p, res) else 0
  }

  lemma HarvestYields(bs: seq<Building>, po: Payout, h: Hex, c: int, p: PlayerColor, res: Resource)
    requires forall p: PlayerColor :: p in po.invs
    ensures Count(Harvest(bs, po, h, c).invs[p], res) == Count(po.invs[p], res) + CornerYield(bs, h, c, p, res)
  {
    match FirstBuildingAt(bs, Topology.NormalizeVertex(h.q, h.r, c))
    case None =>
    case Some(i) => EarnCount(po, bs[i].owner, h.resource, if bs[i].kind == City then 2 else 1, p, res);
  }

  lemma {:induction false} HarvestCornersYields(bs: seq<Building>, po: Payout, h: Hex, c: nat, p: PlayerColor, res: Resource)
    requires forall p: PlayerColor :: p in po.invs
    ensures Count(HarvestCorners(bs, po, h, c).invs[p], res) == Count(po.invs[p], res) + CellYield(bs, h, c, p, res)
    decreases 6 - c
  {
    if c < 6 {
      HarvestYields(bs, po, h, c, p, res);
      HarvestCornersYields(bs, Harvest(bs, po, h, c), h, c + 1, p, res);
    }
  }

  lemma VisitYields(bs: seq<Building>, po: Payout, h: Hex, total: int, p: PlayerColor, res: Resource)
    requires forall p: PlayerColor :: p in po.invs
    ensures Count(Visit(bs, po, h, total).invs[p], res) == Count(po.invs[p], res) + VisitYield(bs, h, total, p, res)
  {
    if Produces(h, total) {
      HarvestCornersYields(bs, po, h, 0, p, res);
    }
  }

  lemma {:induction false} DistributeOverYields(bs: seq<Building>, po: Payout, hexes: seq<Hex>, total: int, p: PlayerColor, res: Resource)
    requires forall p: PlayerColor :: p in po.invs
    ensures Count(DistributeOver(bs, po, hexes, total).invs[p], res) == Count(po.invs[p], res) + Yield(bs, hexes, total, p, res)
    decreases |hexes|
  {
    if hexes != [] {
      VisitYields(bs, po, hexes[0], total, p, res);
      DistributeOverYields(bs, Visit(bs, po, hexes[0], total), hexes[1..], total, p, res);
    }
  }

  /**
   * distribute_resources: a 7 changes nothing; for any other total every player gains, in
   * every resource, exactly what the buildings on the corners of the producing cells yield
   * (1 per settlement, 2 per city), so no count ever falls, and nothing but inventories and
   * the log changes.
   */
  lemma DistributeResourcesSpec(s: GameState, hexes: seq<Hex>, total: int)
    requires forall p: PlayerColor :: p in s.inventories
    ensures total == 7 ==> DistributeResources(s, hexes, total) == s
    ensures forall p: PlayerColor, res: Resource ::
      Count(DistributeResources(s, hexes, total).inventories[p], res)
        == Count(s.inventories[p], res) + (if total == 7 then 0 else Yield(s.buildings, hexes, total, p, res))
  {
    if total != 7 {
      forall p: PlayerColor, res: Resource
        ensures Count(DistributeResources(s, hexes, total).inventories[p], res)
                  == Count(s.inventories[p], res) + Yield(s.buildings, hexes, total, p, res)
      {
        DistributeOverYields(s.buildings, Payout(s.inventories, s.logs), hexes, total, p, res);
      }
    }
  }

  /** roll_dice with the two dice given: record the total, distribute, move on to building and trading. */
  function RollDice(s: GameState, hexes: seq<Hex>, d1: int, d2: int): (t: GameState)
    requires forall p: PlayerColor :: p in s.inventories
    ensures forall p: PlayerColor :: p in t.inventories
    ensures t.(inventories := s.inventories, logs := s.logs, lastDiceResult := s.lastDiceResult, turnSubPhase := s.turnSubPhase) == s
    ensures t.lastDiceResult == Some(d1 + d2) && t.turnSubPhase == Some(BuildTrade)
  {
    var total := d1 + d2;
    DistributeResources(s.(lastDiceResult := Some(total)), hexes, total).(turnSubPhase := Some(BuildTrade))
  }

  /**
   * roll_dice records a total of 2..12, pays out for it, and always moves to the build-and-trade
   * step, whatever the phase: turn, phase, buildings and roads stay as they were.
   */
  lemma RollDiceSpec(s: GameState, hexes: seq<Hex>, d1: int, d2: int)
    requires forall p: PlayerColor :: p in s.inventories
    requires 1 <= d1 <= 6 && 1 <= d2 <= 6
    ensures 2 <= RollDice(s, hexes, d1, d2).lastDiceResult.value <= 12
    ensures forall p: PlayerColor, res: Resource ::
      Count(RollDice(s, hexes, d1, d2).inventories[p], res)
        == Count(s.inventories[p], res) + (if d1 + d2 == 7 then 0 else Yield(s.buildings, hexes, d1 + d2, p, res))
  {
    forall p: PlayerColor, res: Resource
      ensures Count(RollDice(s, hexes, d1, d2).inventories[p], res)
                == Count(s.inventories[p], res) + (if d1 + d2 == 7 then 0 else Yield(s.buildings, hexes, d1 + d2, p, res))
    {
      if d1 + d2 != 7 {
        DistributeOverYields(s.buildings, Payout(s.inventories, s.logs), hexes, d1 + d2, p, res);
      }
    }
  }

  // ---------------------------------------------------------------------------
  // bank_trade

  /** bank_trade(give, get): four of one resource for one of another, in the game loop. */
  function BankTrade(s: GameState, give: Resource, get: Resource): Outcome
    requires WellFormed(s)
  {
    if s.phase != GameLoop then Outcome(s, false)
    else
      var p := Current(s);
      var inv := s.inventories[p];
      if Count(inv, give) < 4 then Outcome(Log(s, NotEnoughToBankTrade(give), p), false)
      else Outcome(Log(s.(inventories := s.inventories[p := Exchange(inv, give, get)]), BankTraded(give, get), p), true)
  }

  /**
   * The two updates of bank_trade, one after the other: four of `give` go, then one of `get`
   * comes (so a trade of a resource for itself costs three).
   */
  function Exchange(inv: Inventory, give: Resource, get: Resource): (r: Inventory)
    ensures Count(r, give) == Count(inv, give) - 4 + (if give == get then 1 else 0)
    ensures Count(r, get) == Count(inv, get) + 1 - (if give == get then 4 else 0)
    ensures forall res: Resource | res != give && res != get :: Count(r, res) == Count(inv, res)
    ensures inv.Keys <= r.Keys
  {
    var less := inv[give := Count(inv, give) - 4];
    less[get := Count(less, get) + 1]
  }

  /**
   * bank_trade succeeds exactly in the game loop with at least 4 of the given resource; then
   * the current player has 4 fewer of it and 1 more of the other (3 fewer when both are the
   * same), every other count and every other player is untouched; on failure only the log
   * may change.
   */
  lemma BankTradeSpec(s: GameState, give: Resource, get: Resource)
    requires WellFormed(s)
    ensures var o := BankTrade(s, give, get);
      var p := Current(s);
      var inv := s.inventories[p];
      && (o.ok <==> s.phase == GameLoop && Count(inv, give) >= 4)
      && (o.ok ==>
            && Count(o.state.inventories[p], give) == Count(inv, give) - 4 + (if give == get then 1 else 0)
            && Count(o.state.inventories[p], get) == Count(inv, get) + 1 - (if give == get then 4 else 0)
            && (forall res: Resource | res != give && res != get :: Count(o.state.inventories[p], res) == Count(inv, res))
            && (forall p': PlayerColor | p' != p :: o.state.inventories[p'] == s.inventories[p']))
      && (!o.ok ==> o.state.(logs := s.logs) == s)
      && o.state.(inventories := s.inventories, logs := s.logs) == s
  {
  }

  // ---------------------------------------------------------------------------
  // The trade protocol

  /** The first resource in a table that the inventory holds too few of. */
  function FirstShortfall(inv: Inventory, counts: ResourceCounts): (r: Option<Resource>)
    ensures r.None? <==> Covers(inv, counts)
    ensures r.Some? ==> exists i | 0 <= i < |counts| :: counts[i].0 == r.value && Count(inv, r.value) < counts[i].1
    decreases |counts|
  {
    if counts == [] then None
    else if Count(inv, counts[0].0) < counts[0].1 then Some(counts[0].0)
    else
      var rest := FirstShortfall(inv, counts[1..]);
      assert Covers(inv, counts[1..]) ==> Covers(inv, counts) by {
        if Covers(inv, counts[1..]) {
          forall i | 0 <= i < |counts|
            ensures Count(inv, counts[i].0) >= counts[i].1
          {
            if i > 0 {
              assert counts[i] == counts[1..][i - 1];
            }
          }
        }
      }
      rest
  }

  /** create_trade_offer(give, get): open an offer from the current player if they hold what they give. */
  function CreateTradeOffer(s: GameState, give: ResourceCounts, get: ResourceCounts): Outcome
    requires WellFormed(s)
  {
    var p := Current(s);
    match FirstShortfall(s.inventories[p], give)
    case Some(res) => Outcome(Log(s, OfferFailed(res), p), false)
    case None => Outcome(Log(s.(activeTrade := Some(NewTradeOffer(p, give, get))), TradeProposed, p), true)
  }

  /** cancel_trade_offer: only the offerer, while it is their turn, may withdraw the offer. */
  function CancelTradeOffer(s: GameState): Outcome
    requires WellFormed(s)
  {
    var p := Current(s);
    if s.activeTrade.Some? && s.activeTrade.value.offerer == p then
      Outcome(Log(s.(activeTrade := None), TradeCancelled, p), true)
    else Outcome(s, false)
  }

  /** respond_to_offer(responder, accept): record an acceptance once, if the responder holds what is asked. */
  function RespondToOffer(s: GameState, responder: PlayerColor, accept: bool): Outcome
    requires WellFormed(s)
  {
    match s.activeTrade
    case None => Outcome(s, false)
    case Some(t) =>
      if !accept then Outcome(s, true)
      else if !Covers(s.inventories[responder], t.get) then Outcome(s, false)
      else if responder in t.responses then Outcome(s, true)
      else Outcome(Log(s.(activeTrade := Some(t.(responses := t.responses + [responder]))), OfferAccepted, responder), true)
  }

  /**
   * An offer opens exactly when the offerer holds everything they give, and then it is a
   * fresh open offer with no responses; otherwise the offer is as it was. No inventory changes.
   */
  lemma CreateTradeOfferSpec(s: GameState, give: ResourceCounts, get: ResourceCounts)
    requires WellFormed(s)
    ensures var o := CreateTradeOffer(s, give, get);
      && (o.ok <==> Covers(s.inventories[Current(s)], give))
      && (o.ok ==> o.state.activeTrade == Some(TradeOffer(Current(s), give, get, [], Open)))
      && (!o.ok ==> o.state.activeTrade == s.activeTrade)
      && o.state.(logs := s.logs, activeTrade := s.activeTrade) == s
  {
  }

  /** Only the offerer may cancel, and only on their turn; a refused cancel changes nothing. */
  lemma CancelTradeOfferSpec(s: GameState)
    requires WellFormed(s)
    ensures var o := CancelTradeOffer(s);
      && (o.ok <==> s.activeTrade.Some? && s.activeTrade.value.offerer == Current(s))
      && (o.ok ==> o.state.activeTrade == None && o.state.(logs := s.logs, activeTrade := s.activeTrade) == s)
      && (!o.ok ==> o.state == s)
  {
  }

  /**
   * A response needs an offer; an acceptance also needs the responder to hold what is asked,
   * and puts the responder among the responses once. Nothing else of the offer, and no
   * inventory, changes.
   */
  lemma RespondToOfferSpec(s: GameState, responder: PlayerColor, accept: bool)
    requires WellFormed(s)
    ensures var o := RespondToOffer(s, responder, accept);
      && (o.ok <==> s.activeTrade.Some? && (accept ==> Covers(s.inventories[responder], s.activeTrade.value.get)))
      && (o.ok && accept ==> o.state.activeTrade.Some? && responder in o.state.activeTrade.value.responses)
      && (o.ok ==>
            o.state.activeTrade.value.responses
              == if accept && responder !in s.activeTrade.value.responses
                 then s.activeTrade.value.responses + [responder]
                 else s.activeTrade.value.responses)
      && (s.activeTrade.Some? ==>
            && o.state.activeTrade.Some?
            && o.state.activeTrade.value.(responses := s.activeTrade.value.responses) == s.activeTrade.value)
      && o.state.(logs := s.logs, activeTrade := s.activeTrade) == s
  {
  }

  /** Both players' counts of one resource, counted once when they are the same player. */
  function Combined(invs: map<PlayerColor, Inventory>, a: PlayerColor, b: PlayerColor, res: Resource): int
    requires a in invs && b in invs
  {
    if a == b then Count(invs[a], res) else Count(invs[a], res) + Count(invs[b], res)
  }

  /** What one transfer loop of confirm_trade leaves behind, and whether it ran to the end. */
  datatype Transferred = Transferred(invs: map<PlayerColor, Inventory>, ok: bool)

  /**
   * One loop of confirm_trade: for each (res, n) in turn, stop if the giver holds fewer than n,
   * otherwise take n from the giver and then add n to the receiver. Entries moved before a
   * stop stay moved.
   */
  function Transfer(invs: map<PlayerColor, Inventory>, from: PlayerColor, to: PlayerColor, counts: ResourceCounts): (t: Transferred)
    requires from in invs && to in invs
    ensures t.invs.Keys == invs.Keys
    ensures forall p | p in invs && p != from && p != to :: t.invs[p] == invs[p]
    decreases |counts|
  {
    if counts == [] then Transferred(invs, true)
    else if Count(invs[from], counts[0].0) < counts[0].1 then Transferred(invs, false)
    else Transfer(Move(invs, from, to, counts[0].0, counts[0].1), from, to, counts[1..])
  }

  /** One entry of a transfer: take n of res from the giver, then add n to the receiver. */
  function Move(invs: map<PlayerColor, Inventory>, from: PlayerColor, to: PlayerColor, res: Resource, n: int): (m: map<PlayerColor, Inventory>)
    requires from in invs && to in invs
    ensures m.Keys == invs.Keys
    ensures forall p | p in invs && p != from && p != to :: m[p] == invs[p]
  {
    var taken := invs[from := invs[from][res := Count(invs[from], res) - n]];
    taken[to := taken[to][res := Count(taken[to], res) + n]]
  }

  /** A transfer whose first entry is covered moves that entry and carries on with the rest. */
  lemma TransferStep(invs: map<PlayerColor, Inventory>, from: PlayerColor, to: PlayerColor, counts: ResourceCounts)
    requires from in invs && to in invs && counts != [] && Count(invs[from], counts[0].0) >= counts[0].1
    ensures Transfer(invs, from, to, counts) == Transfer(Move(invs, from, to, counts[0].0, counts[0].1), from, to, counts[1..])
  {
  }

  lemma MoveConserves(invs: map<PlayerColor, Inventory>, from: PlayerColor, to: PlayerColor, r0: Resource, n: int, res: Resource)
    requires from in invs && to in invs
    ensures Combined(Move(invs, from, to, r0, n), from, to, res) == Combined(invs, from, to, res)
  {
  }

  /** A transfer, finished or not, keeps the two players' combined count of every resource. */
  lemma {:induction false} TransferConserves(invs: map<PlayerColor, Inventory>, from: PlayerColor, to: PlayerColor, counts: ResourceCounts, res: Resource)
    requires from in invs && to in invs
    ensures Combined(Transfer(invs, from, to, counts).invs, from, to, res) == Combined(invs, from, to, res)
    decreases |counts|
  {
    if counts != [] && Count(invs[from], counts[0].0) >= counts[0].1 {
      var moved := Move(invs, from, to, counts[0].0, counts[0].1);
      MoveConserves(invs, from, to, counts[0].0, counts[0].1, res);
      TransferConserves(moved, from, to, counts[1..], res);
    }
  }

  /** The two loops of confirm_trade: `give` from the offerer to the target, then, if that ran through, `get` back. */
  function Settle(invs: map<PlayerColor, Inventory>, offerer: PlayerColor, target: PlayerColor, give: ResourceCounts, get: ResourceCounts): (t: Transferred)
    requires offerer in invs && target in invs
    ensures t.invs.Keys == invs.Keys
    ensures forall p | p in invs && p != offerer && p != target :: t.invs[p] == invs[p]
  {
    var first := Transfer(invs, offerer, target, give);
    if !first.ok then first else Transfer(first.invs, target, offerer, get)
  }

  lemma SettleConserves(invs: map<PlayerColor, Inventory>, offerer: PlayerColor, target: PlayerColor, give: ResourceCounts, get: ResourceCounts, res: Resource)
    requires offerer in invs && target in invs
    ensures Combined(Settle(invs, offerer, target, give, get).invs, offerer, target, res) == Combined(invs, offerer, target, res)
  {
    TransferConserves(invs, offerer, target, give, res);
    if Transfer(invs, offerer, target, give).ok {
      TransferConserves(Transfer(invs, offerer, target, give).invs, target, offerer, get, res);
    }
  }

  /** confirm_trade(target): run both transfers, then close the offer if both ran through. */
  function ConfirmTrade(s: GameState, target: PlayerColor): Outcome
    requires WellFormed(s)
  {
    match s.activeTrade
    case None => Outcome(s, false)
    case Some(t) =>
      var settled := Settle(s.inventories, t.offerer, target, t.give, t.get);
      if !settled.ok then Outcome(s.(inventories := settled.invs), false)
      else Outcome(Log(s.(inventories := settled.invs), TradeCompleted(target), t.offerer).(activeTrade := None), true)
  }

  /**
   * confirm_trade keeps the offerer's plus the target's count of every resource, and every
   * other player's inventory, whether it returns True or stops partway. Neither the target's
   * acceptance nor the turn is checked.
   */
  lemma ConfirmTradeConserves(s: GameState, target: PlayerColor, res: Resource)
    requires WellFormed(s) && s.activeTrade.Some?
    ensures var o := ConfirmTrade(s, target);
      && Combined(o.state.inventories, s.activeTrade.value.offerer, target, res)
           == Combined(s.inventories, s.activeTrade.value.offerer, target, res)
      && forall p: PlayerColor | p != s.activeTrade.value.offerer && p != target :: o.state.inventories[p] == s.inventories[p]
  {
    SettleConserves(s.inventories, s.activeTrade.value.offerer, target, s.activeTrade.value.give, s.activeTrade.value.get, res);
  }

  /**
   * confirm_trade is not atomic: when the offerer holds the one wool offered but the target has
   * no ore to send back, the call returns False with the wool already handed over, and the
   * offer stays open.
   */
  lemma ConfirmTradeNotAtomic(s: GameState, target: PlayerColor)
    requires WellFormed(s) && s.activeTrade.Some?
    requires s.activeTrade.value.give == [(Wool, 1)] && s.activeTrade.value.get == [(Ore, 1)]
    requires s.activeTrade.value.offerer != target
    requires Count(s.inventories[s.activeTrade.value.offerer], Wool) >= 1 && Count(s.inventories[target], Ore) == 0
    ensures !ConfirmTrade(s, target).ok
    ensures ConfirmTrade(s, target).state.activeTrade == s.activeTrade
    ensures Count(ConfirmTrade(s, target).state.inventories[s.activeTrade.value.offerer], Wool)
              == Count(s.inventories[s.activeTrade.value.offerer], Wool) - 1
    ensures Count(ConfirmTrade(s, target).state.inventories[target], Wool) == Count(s.inventories[target], Wool) + 1
  {
    var t := s.activeTrade.value;
    var moved := Move(s.inventories, t.offerer, target, Wool, 1);
    assert Transfer(s.inventories, t.offerer, target, t.give) == Transfer(moved, t.offerer, target, []);
    assert Count(moved[target], Ore) == 0;
  }

  /**
   * Nothing rejects a negative count: a transfer of -n runs through and takes n from the
   * receiver, leaving it below zero when it held none.
   */
  lemma NegativeCountOverdraws(invs: map<PlayerColor, Inventory>, from: PlayerColor, to: PlayerColor, res: Resource, n: int)
    requires from in invs && to in invs && from != to
    requires n < 0 && Count(invs[from], res) >= n && Count(invs[to], res) == 0
    ensures Transfer(invs, from, to, [(res, n)]).ok
    ensures Count(Transfer(invs, from, to, [(res, n)]).invs[to], res) == n
  {
    assert Transfer(invs, from, to, [(res, n)]) == Transfer(Move(invs, from, to, res, n), from, to, []);
  }

  /**
   * A transfer that runs through between two different players moves each table total: the
   * giver ends with Amount(counts, res) fewer of every resource, the receiver with that many more.
   */
  lemma {:induction false} TransferMoves(invs: map<PlayerColor, Inventory>, from: PlayerColor, to: PlayerColor, counts: ResourceCounts)
    requires from in invs && to in invs && from != to
    requires Transfer(invs, from, to, counts).ok
    ensures forall res: Resource ::
      && Count(Transfer(invs, from, to, counts).invs[from], res) == Count(invs[from], res) - Amount(counts, res)
      && Count(Transfer(invs, from, to, counts).invs[to], res) == Count(invs[to], res) + Amount(counts, res)
    decreases |counts|
  {
    if counts != [] {
      TransferMoves(Move(invs, from, to, counts[0].0, counts[0].1), from, to, counts[1..]);
    }
  }

  /** Moving one entry leaves the giver's other counts alone, and all of them when giving to oneself. */
  lemma MoveGiverCount(invs: map<PlayerColor, Inventory>, from: PlayerColor, to: PlayerColor, r0: Resource, n: int, x: Resource)
    requires from in invs && to in invs
    requires x != r0 || from == to
    ensures Count(Move(invs, from, to, r0, n)[from], x) == Count(invs[from], x)
  {
  }

  /** The check loop passes exactly when the first entry is held and the loop over the rest passes. */
  lemma CoversSplit(inv: Inventory, counts: ResourceCounts)
    requires counts != []
    ensures Covers(inv, counts) <==> Count(inv, counts[0].0) >= counts[0].1 && Covers(inv, counts[1..])
  {
    assert forall i | 0 <= i < |counts[1..]| :: counts[1..][i] == counts[i + 1];
  }

  /** A transfer from a player to themselves changes none of their counts, and runs through exactly when they hold the table. */
  lemma {:induction false} TransferToSelf(invs: map<PlayerColor, Inventory>, p: PlayerColor, counts: ResourceCounts)
    requires p in invs
    ensures forall res: Resource :: Count(Transfer(invs, p, p, counts).invs[p], res) == Count(invs[p], res)
    ensures Transfer(invs, p, p, counts).ok <==> Covers(invs[p], counts)
    decreases |counts|
  {
    if counts != [] {
      CoversSplit(invs[p], counts);
      if Count(invs[p], counts[0].0) >= counts[0].1 {
        var moved := Move(invs, p, p, counts[0].0, counts[0].1);
        TransferToSelf(moved, p, counts[1..]);
        forall res: Resource
          ensures Count(moved[p], res) == Count(invs[p], res)
        {
          MoveGiverCount(invs, p, p, counts[0].0, counts[0].1, res);
        }
        CoversSplit(moved[p], counts);
      }
    }
  }

  /** A table that lists each resource at most once, as a Python dict does. */
  predicate DistinctKeys(counts: ResourceCounts) {
    forall i, j | 0 <= i < j < |counts| :: counts[i].0 != counts[j].0
  }

  /**
   * For a table with distinct resources, a transfer runs through exactly when the giver holds
   * every listed amount to begin with: moving one entry never touches the count a later entry
   * is checked against.
   */
  lemma {:induction false} TransferRunsThroughWhenHeld(invs: map<PlayerColor, Inventory>, from: PlayerColor, to: PlayerColor, counts: ResourceCounts)
    requires from in invs && to in invs && DistinctKeys(counts)
    ensures Transfer(invs, from, to, counts).ok <==> Covers(invs[from], counts)
    decreases |counts|
  {
    if counts != [] {
      CoversSplit(invs[from], counts);
      if Count(invs[from], counts[0].0) >= counts[0].1 {
        var rest := counts[1..];
        assert DistinctKeys(rest) by {
          assert forall i | 0 <= i < |rest| :: rest[i] == counts[i + 1];
        }
        var moved := Move(invs, from, to, counts[0].0, counts[0].1);
        TransferRunsThroughWhenHeld(moved, from, to, rest);
        forall i | 0 <= i < |rest|
          ensures Count(moved[from], rest[i].0) == Count(invs[from], rest[i].0)
        {
          assert rest[i] == counts[i + 1];
          MoveGiverCount(invs, from, to, counts[0].0, counts[0].1, rest[i].0);
        }
      }
    }
  }

  /**
   * confirm_trade returns True exactly when there is an offer, the offerer holds everything
   * offered and the target, after receiving it, holds everything asked for; only then is the
   * offer cleared and the completion logged. A failure leaves the offer open and the log
   * untouched, and no outcome changes anything but inventories, log and offer.
   */
  lemma ConfirmTradeOutcome(s: GameState, target: PlayerColor)
    requires WellFormed(s)
    ensures var o := ConfirmTrade(s, target);
      && (o.ok <==>
            && s.activeTrade.Some?
            && Transfer(s.inventories, s.activeTrade.value.offerer, target, s.activeTrade.value.give).ok
            && Transfer(Transfer(s.inventories, s.activeTrade.value.offerer, target, s.activeTrade.value.give).invs,
                        target, s.activeTrade.value.offerer, s.activeTrade.value.get).ok)
      && (o.ok ==> o.state.activeTrade == None)
      && (!o.ok ==> o.state.activeTrade == s.activeTrade && o.state.logs == s.logs)
      && o.state.(inventories := s.inventories, logs := s.logs, activeTrade := s.activeTrade) == s
      && (s.activeTrade.None? ==> o.state == s)
      && (o.ok && s.activeTrade.Some? && s.activeTrade.value.offerer != target ==>
            forall res: Resource ::
              && Count(o.state.inventories[s.activeTrade.value.offerer], res)
                   == Count(s.inventories[s.activeTrade.value.offerer], res)
                      - Amount(s.activeTrade.value.give, res) + Amount(s.activeTrade.value.get, res)
              && Count(o.state.inventories[target], res)
                   == Count(s.inventories[target], res)
                      + Amount(s.activeTrade.value.give, res) - Amount(s.activeTrade.value.get, res))
  {
    if ConfirmTrade(s, target).ok && s.activeTrade.value.offerer != target {
      var t := s.activeTrade.value;
      var first := Transfer(s.inventories, t.offerer, target, t.give);
      TransferMoves(s.inventories, t.offerer, target, t.give);
      TransferMoves(first.invs, target, t.offerer, t.get);
    }
  }

  /**
   * With tables of distinct resources, confirm_trade returns True exactly when there is an offer,
   * the offerer holds everything in `give`, and the target holds everything in `get` once the
   * offered resources are counted in (for an offer to oneself, simply holds it).
   */
  lemma ConfirmTradeSucceedsWhenHeld(s: GameState, target: PlayerColor)
    requires WellFormed(s) && s.activeTrade.Some?
    requires DistinctKeys(s.activeTrade.value.give) && DistinctKeys(s.activeTrade.value.get)
    ensures var t := s.activeTrade.value;
      ConfirmTrade(s, target).ok <==>
        && Covers(s.inventories[t.offerer], t.give)
        && if t.offerer == target then Covers(s.inventories[target], t.get)
           else forall i | 0 <= i < |t.get| :: Count(s.inventories[target], t.get[i].0) + Amount(t.give, t.get[i].0) >= t.get[i].1
  {
    var t := s.activeTrade.value;
    var first := Transfer(s.inventories, t.offerer, target, t.give);
    TransferRunsThroughWhenHeld(s.inventories, t.offerer, target, t.give);
    if first.ok {
      TransferRunsThroughWhenHeld(first.invs, target, t.offerer, t.get);
      if t.offerer == target {
        TransferToSelf(s.inventories, target, t.give);
      } else {
        TransferMoves(s.inventories, t.offerer, target, t.give);
      }
    }
  }
}
