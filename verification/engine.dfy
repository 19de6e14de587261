/**
 * The GameManager of backend/game_logic.py (lines 467-911): one object that owns the board
 * and the game state and changes the state in place, method by method. Each method does what
 * its Python counterpart does, step by step, and is proved to leave the state that the
 * function of the same name in rules.dfy describes; the lemmas there say what that state is.
 * Every method keeps Valid(), the Consistent invariant of rules.dfy.
 */
module Engine {
  import opened Models
  import opened Rules
  import Topology
  import Layout = Board
  import Scans
  import Invariants

  class GameManager {
    var board: Board
    var state: GameState

    ghost predicate Valid()
      reads this
    {
      Consistent(state)
    }

    /**
     * `__init__`: a board laid out from the two shuffled pools, four players in colour order,
     * an empty inventory for each, player 0 to place first.
     */
    constructor (resources: seq<Resource>, numbers: seq<int>)
      requires multiset(resources) == Layout.ResourcePool() && multiset(numbers) == Layout.NumberPool()
      ensures Valid() && state == InitialState()
      ensures |board.hexes| == 19 && |resources| == 18 && |numbers| == 18
      ensures Layout.Filled(board.hexes, Layout.Cells(), resources, numbers)
    {
      var laid := Layout.GenerateBoard(resources, numbers);
      board := laid;
      var s := NewGameState([Red, Blue, Orange, White]);
      var invs := map p | p in s.players :: EmptyInventory();
      s := s.(inventories := invs);
      s := s.(phase := InitialPlacement1);
      s := s.(currentTurnIndex := 0);
      assert invs == InitialState().inventories;
      state := s;
    }

    /** add_log: append, then drop the oldest entry beyond 50. */
    method AddLog(message: LogMessage, player: PlayerColor)
      modifies this`state
      ensures state == Log(old(state), message, player)
      ensures old(Valid()) ==> Valid()
    {
      var logs := state.logs + [GameLog(message, Some(player))];
      if |logs| > LogCap {
        logs := logs[1..];
      }
      state := state.(logs := logs);
    }

    /** handle_turn_end: the snake draft, then round robin in the game loop. */
    method HandleTurnEnd()
      modifies this`state
      ensures state == Rules.HandleTurnEnd(old(state))
      ensures old(Valid()) ==> Valid()
    {
      if old(Valid()) {
        Invariants.HandleTurnEndKeeps(state);
      }
      if state.phase == InitialPlacement1 {
        if state.currentTurnIndex < 3 {
          state := state.(currentTurnIndex := state.currentTurnIndex + 1);
        } else {
          state := state.(phase := InitialPlacement2);
        }
      } else if state.phase == InitialPlacement2 {
        if state.currentTurnIndex > 0 {
          state := state.(currentTurnIndex := state.currentTurnIndex - 1);
        } else {
          state := state.(phase := GameLoop);
          state := state.(currentTurnIndex := 0);
        }
      } else {
        state := state.(currentTurnIndex := (state.currentTurnIndex + 1) % 4);
      }
      if state.phase == GameLoop {
        state := state.(turnSubPhase := Some(SubPhase.RollDice));
      }
    }

    /** advance_turn_if_needed: end the turn once the placement quota of the phase is met. */
    method AdvanceTurnIfNeeded()
      requires WellFormed(state)
      modifies this`state
      ensures state == Rules.AdvanceTurnIfNeeded(old(state))
      ensures old(Valid()) ==> Valid()
    {
      var p := state.players[state.currentTurnIndex];
      var settlements := Scans.CountOwnedBuildings(state.buildings, p);
      var roads := Scans.CountOwnedRoads(state.roads, p);
      if state.phase == InitialPlacement1 {
        if settlements >= 1 && roads >= 1 {
          HandleTurnEnd();
        }
      } else if state.phase == InitialPlacement2 {
        if settlements >= 2 && roads >= 2 {
          HandleTurnEnd();
        }
      }
    }

    /** build_settlement(q, r, c). */
    method BuildSettlement(q: int, r: int, c: int) returns (ok: bool)
      requires Valid()
      modifies this`state
      ensures Valid()
      ensures Outcome(state, ok) == Rules.BuildSettlement(old(state), q, r, c)
    {
      Invariants.BuildSettlementKeeps(state, q, r, c);
      if state.phase == GameLoop && state.turnSubPhase != Some(BuildTrade) {
        return false;
      }
      var n := Topology.NormalizeVertex(q, r, c);
      var occupant := Scans.FindBuilding(state.buildings, n);
      if occupant.Some? {
        return false;
      }
      var p := state.players[state.currentTurnIndex];
      var owned := Scans.CountOwnedBuildings(state.buildings, p);
      if state.phase == InitialPlacement1 && owned >= 1 {
        return false;
      } else if state.phase == InitialPlacement2 && owned >= 2 {
        return false;
      }
      var tooClose := Scans.AnyBuildingIn(state.buildings, Topology.AdjacentVertices(n.q, n.r, n.k));
      if tooClose {
        AddLog(TooClose, p);
        return false;
      }
      if state.phase == GameLoop {
        var connected := Scans.OwnRoadIn(state.roads, p, Topology.IncidentEdges(n.q, n.r, n.k));
        if !connected {
          AddLog(MustConnectToRoad, p);
          return false;
        }
      }
      if state.phase == GameLoop {
        var affordable := Scans.Affords(state.inventories[p], SettlementCost);
        if !affordable {
          return false;
        }
        var rest := Scans.Consume(state.inventories[p], SettlementCost);
        state := state.(inventories := state.inventories[p := rest]);
      }
      state := state.(buildings := state.buildings + [Building(p, Settlement, VertexAt(n))]);
      AddLog(SettlementBuilt(n.q, n.r, n.k), p);
      AdvanceTurnIfNeeded();
      return true;
    }

    /** build_road(q, r, e). */
    method BuildRoad(q: int, r: int, e: int) returns (ok: bool)
      requires Valid()
      modifies this`state
      ensures Valid()
      ensures Outcome(state, ok) == Rules.BuildRoad(old(state), q, r, e)
    {
      Invariants.BuildRoadKeeps(state, q, r, e);
      if state.phase == GameLoop && state.turnSubPhase != Some(BuildTrade) {
        return false;
      }
      var n := Topology.NormalizeEdge(q, r, e);
      var taken := Scans.RoadTaken(state.roads, n);
      if taken {
        return false;
      }
      var p := state.players[state.currentTurnIndex];
      var owned := Scans.CountOwnedRoads(state.roads, p);
      if owned >= RoadCap && state.phase == GameLoop {
        return false;
      }
      if state.phase == InitialPlacement1 && owned >= 1 {
        return false;
      } else if state.phase == InitialPlacement2 && owned >= 2 {
        return false;
      }
      var connected := Scans.Connected(state, p, n);
      if !connected {
        AddLog(MustConnectToNetwork, p);
        return false;
      }
      if state.phase == GameLoop {
        var affordable := Scans.Affords(state.inventories[p], RoadCost);
        if !affordable {
          return false;
        }
        var rest := Scans.Consume(state.inventories[p], RoadCost);
        state := state.(inventories := state.inventories[p := rest]);
      }
      state := state.(roads := state.roads + [Road(p, EdgeAt(n))]);
      AddLog(RoadBuilt(n.q, n.r, n.k), p);
      AdvanceTurnIfNeeded();
      return true;
    }

    /** build_city(q, r, c): the building stored at exactly (q, r, c) becomes a city. */
    method BuildCity(q: int, r: int, c: int) returns (ok: bool)
      requires Valid()
      modifies this`state
      ensures Valid()
      ensures Outcome(state, ok) == Rules.BuildCity(old(state), q, r, c)
    {
      Invariants.BuildCityKeeps(state, q, r, c);
      if state.phase != GameLoop {
        return false;
      }
      var p := state.players[state.currentTurnIndex];
      var cities := Scans.CountOwnedCities(state.buildings, p);
      if cities >= CityCap {
        AddLog(MaxCitiesReached, p);
        return false;
      }
      var target := Scans.FindBuilding(state.buildings, Topology.Triple(q, r, c));
      if target.None? {
        AddLog(NoBuildingSelected, p);
        return false;
      }
      var i := target.value;
      var b := state.buildings[i];
      if b.owner != p {
        AddLog(NotYourBuilding, p);
        return false;
      }
      if b.kind != Settlement {
        AddLog(OnlySettlementsUpgrade, p);
        return false;
      }
      var affordable := Scans.Affords(state.inventories[p], CityCost);
      if !affordable {
        return false;
      }
      var rest := Scans.Consume(state.inventories[p], CityCost);
      state := state.(inventories := state.inventories[p := rest]);
      state := state.(buildings := state.buildings[i := b.(kind := City)]);
      AddLog(CityBuilt(q, r, c), p);
      return true;
    }

    /**
     * distribute_resources(number): for every cell carrying the number (the desert skipped),
     * each of its six corners pays the first building there 1, or 2 for a city.
     */
    method DistributeResources(number: int)
      requires Valid()
      modifies this`state
      ensures Valid()
      ensures state == Rules.DistributeResources(old(state), board.hexes, number)
    {
      Invariants.DistributeResourcesKeeps(state, board.hexes, number);
      if number == 7 {
        return;
      }
      ghost var s0 := state;
      var hexes := board.hexes;
      var i := 0;
      while i < |hexes|
        invariant 0 <= i <= |hexes|
        invariant forall p: PlayerColor :: p in state.inventories
        invariant state.(inventories := s0.inventories, logs := s0.logs) == s0
        invariant DistributeOver(s0.buildings, Payout(s0.inventories, s0.logs), hexes, number)
          == DistributeOver(s0.buildings, Payout(state.inventories, state.logs), hexes[i..], number)
      {
        assert hexes[i..][1..] == hexes[i + 1..];
        var h := hexes[i];
        if h.number == Some(number) && h.resource != Desert {
          HarvestCell(h);
        }
        i := i + 1;
      }
    }

    /** The corner loop of distribute_resources for one producing cell. */
    method HarvestCell(h: Hex)
      requires forall p: PlayerColor :: p in state.inventories
      modifies this`state
      ensures Payout(state.inventories, state.logs)
        == HarvestCorners(old(state).buildings, Payout(old(state).inventories, old(state).logs), h, 0)
      ensures state.(inventories := old(state).inventories, logs := old(state).logs) == old(state)
    {
      ghost var s0 := state;
      var c := 0;
      while c < 6
        invariant 0 <= c <= 6
        invariant forall p: PlayerColor :: p in state.inventories
        invariant state.(inventories := s0.inventories, logs := s0.logs) == s0
        invariant HarvestCorners(s0.buildings, Payout(s0.inventories, s0.logs), h, 0)
          == HarvestCorners(s0.buildings, Payout(state.inventories, state.logs), h, c)
      {
        ghost var before := Payout(state.inventories, state.logs);
        var n := Topology.NormalizeVertex(h.q, h.r, c);
        var found := Scans.FindBuilding(state.buildings, n);
        if found.Some? {
          var b := state.buildings[found.value];
          var count := if b.kind == City then 2 else 1;
          Grant(b.owner, h.resource, count);
        }
        HarvestCornersStep(s0.buildings, before, h, c);
        c := c + 1;
      }
    }

    /** `inventories[owner][res] += count`, and the log says so. */
    method Grant(owner: PlayerColor, res: Resource, count: int)
      requires owner in state.inventories
      modifies this`state
      ensures Payout(state.inventories, state.logs) == Earn(Payout(old(state).inventories, old(state).logs), owner, res, count)
      ensures state.(inventories := old(state).inventories, logs := old(state).logs) == old(state)
    {
      var inv := state.inventories[owner];
      state := state.(inventories := state.inventories[owner := inv[res := Count(inv, res) + count]]);
      AddLog(Produced(count, res), owner);
    }

    /** roll_dice, with the two dice as inputs: record the total, pay out, go on to building and trading. */
    method RollDice(d1: int, d2: int) returns (total: int)
      requires Valid()
      requires 1 <= d1 <= 6 && 1 <= d2 <= 6
      modifies this`state
      ensures Valid()
      ensures 2 <= total <= 12 && total == d1 + d2
      ensures state == Rules.RollDice(old(state), board.hexes, d1, d2)
    {
      Invariants.RollDiceKeeps(state, board.hexes, d1, d2);
      total := d1 + d2;
      state := state.(lastDiceResult := Some(total));
      DistributeResources(total);
      state := state.(turnSubPhase := Some(BuildTrade));
    }

    /** end_turn: always moves to the next player and returns True. */
    method EndTurn() returns (ok: bool)
      requires Valid()
      modifies this`state
      ensures Valid()
      ensures ok && state == Rules.EndTurn(old(state))
    {
      state := state.(currentTurnIndex := (state.currentTurnIndex + 1) % |state.players|);
      state := state.(turnSubPhase := Some(SubPhase.RollDice));
      state := state.(lastDiceResult := None);
      return true;
    }

    /** bank_trade(give, get): four of one resource for one of another. */
    method BankTrade(give: Resource, get: Resource) returns (ok: bool)
      requires Valid()
      modifies this`state
      ensures Valid()
      ensures Outcome(state, ok) == Rules.BankTrade(old(state), give, get)
    {
      Invariants.BankTradeKeeps(state, give, get);
      if state.phase != GameLoop {
        return false;
      }
      var p := state.players[state.currentTurnIndex];
      var inv := state.inventories[p];
      if Count(inv, give) < 4 {
        AddLog(NotEnoughToBankTrade(give), p);
        return false;
      }
      inv := inv[give := Count(inv, give) - 4];
      inv := inv[get := Count(inv, get) + 1];
      state := state.(inventories := state.inventories[p := inv]);
      AddLog(BankTraded(give, get), p);
      return true;
    }

    /** create_trade_offer(give, get). */
    method CreateTradeOffer(give: ResourceCounts, get: ResourceCounts) returns (ok: bool)
      requires Valid()
      modifies this`state
      ensures Valid()
      ensures Outcome(state, ok) == Rules.CreateTradeOffer(old(state), give, get)
    {
      Invariants.CreateTradeOfferKeeps(state, give, get);
      var p := state.players[state.currentTurnIndex];
      var missing := Scans.Shortfall(state.inventories[p], give);
      if missing.Some? {
        AddLog(OfferFailed(missing.value), p);
        return false;
      }
      state := state.(activeTrade := Some(NewTradeOffer(p, give, get)));
      AddLog(TradeProposed, p);
      return true;
    }

    /** cancel_trade_offer. */
    method CancelTradeOffer() returns (ok: bool)
      requires Valid()
      modifies this`state
      ensures Valid()
      ensures Outcome(state, ok) == Rules.CancelTradeOffer(old(state))
    {
      var p := state.players[state.currentTurnIndex];
      if state.activeTrade.Some? && state.activeTrade.value.offerer == p {
        state := state.(activeTrade := None);
        AddLog(TradeCancelled, p);
        return true;
      }
      return false;
    }

    /** respond_to_offer(responder, accept). */
    method RespondToOffer(responder: PlayerColor, accept: bool) returns (ok: bool)
      requires Valid()
      modifies this`state
      ensures Valid()
      ensures Outcome(state, ok) == Rules.RespondToOffer(old(state), responder, accept)
    {
      if state.activeTrade.None? {
        return false;
      }
      if accept {
        var t := state.activeTrade.value;
        var affordable := Scans.Affords(state.inventories[responder], t.get);
        if !affordable {
          return false;
        }
        if responder !in t.responses {
          state := state.(activeTrade := Some(t.(responses := t.responses + [responder])));
          AddLog(OfferAccepted, responder);
        }
      }
      return true;
    }

    /** confirm_trade(target): the two transfer loops, then close the offer. */
    method ConfirmTrade(target: PlayerColor) returns (ok: bool)
      requires Valid()
      modifies this`state
      ensures Valid()
      ensures Outcome(state, ok) == Rules.ConfirmTrade(old(state), target)
    {
      Invariants.ConfirmTradeKeeps(state, target);
      if state.activeTrade.None? {
        return false;
      }
      var t := state.activeTrade.value;
      var given := Scans.TransferLoop(state.inventories, t.offerer, target, t.give);
      state := state.(inventories := given.invs);
      if !given.ok {
        return false;
      }
      var taken := Scans.TransferLoop(state.inventories, target, t.offerer, t.get);
      state := state.(inventories := taken.invs);
      if !taken.ok {
        return false;
      }
      AddLog(TradeCompleted(target), t.offerer);
      state := state.(activeTrade := None);
      return true;
    }
  }
}
