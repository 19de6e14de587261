/**
 * Records and enumerations the rule engine runs on (backend/models.py).
 *
 * Python's string-valued enums become datatypes. Pydantic defaults become the
 * constructor functions New*, which fill in every field the source gives a default.
 */
module Models {

  datatype Option<+T> = None | Some(value: T)

  datatype Resource = Brick | Lumber | Wool | Grain | Ore | Desert

  datatype PlayerColor = Red | Blue | Orange | White

  /** A board cell; `number` is the dice token, absent for the desert. */
  datatype Hex = Hex(id: int, resource: Resource, number: Option<int>, q: int, r: int)

  /** A corner of the grid. Equality (and so hashing) is on the triple (q, r, corner) only. */
  datatype VertexId = VertexId(q: int, r: int, corner: int)

  /** A side of the grid, hashed on (q, r, edge). */
  datatype EdgeId = EdgeId(q: int, r: int, edge: int)

  datatype BuildingType = Settlement | City

  datatype Building = Building(owner: PlayerColor, kind: BuildingType, location: VertexId)

  datatype Road = Road(owner: PlayerColor, location: EdgeId)

  datatype Board = Board(hexes: seq<Hex>)

  /**
   * What a log entry reports. The source stores formatted text; the model keeps the event
   * and the values formatted into it.
   */
  datatype LogMessage =
    | TooClose
    | MustConnectToRoad
    | SettlementBuilt(q: int, r: int, corner: int)
    | MustConnectToNetwork
    | RoadBuilt(q: int, r: int, edge: int)
    | MaxCitiesReached
    | NoBuildingSelected
    | NotYourBuilding
    | OnlySettlementsUpgrade
    | CityBuilt(q: int, r: int, corner: int)
    | Produced(count: int, resource: Resource)
    | NotEnoughToBankTrade(resource: Resource)
    | BankTraded(give: Resource, get: Resource)
    | OfferFailed(resource: Resource)
    | TradeProposed
    | TradeCancelled
    | OfferAccepted
    | TradeCompleted(target: PlayerColor)

  /** A log entry without its timestamp. */
  datatype GameLog = GameLog(message: LogMessage, playerColor: Option<PlayerColor>)

  datatype TradeStatus = Open | Accepted | Completed

  /** A resource-to-count dictionary, in insertion order. */
  type ResourceCounts = seq<(Resource, int)>

  datatype TradeOffer = TradeOffer(
    offerer: PlayerColor,
    give: ResourceCounts,
    get: ResourceCounts,
    responses: seq<PlayerColor>,
    status: TradeStatus)

  datatype Phase = InitialPlacement1 | InitialPlacement2 | GameLoop

  datatype SubPhase = RollDice | BuildTrade

  type Inventory = map<Resource, int>

  datatype GameState = GameState(
    players: seq<PlayerColor>,
    currentTurnIndex: int,
    phase: Phase,
    buildings: seq<Building>,
    roads: seq<Road>,
    inventories: map<PlayerColor, Inventory>,
    lastDiceResult: Option<int>,
    turnSubPhase: Option<SubPhase>,
    logs: seq<GameLog>,
    activeTrade: Option<TradeOffer>)

  /** `Hex(...)` without a number: the token is absent. */
  function NewHex(id: int, resource: Resource, q: int, r: int): (h: Hex)
    ensures h.number == None
    ensures h.id == id && h.resource == resource && h.q == q && h.r == r
  {
    Hex(id, resource, None, q, r)
  }

  /** `Building(owner=..., location=...)`: a new building is a settlement. */
  function NewBuilding(owner: PlayerColor, location: VertexId): (b: Building)
    ensures b.kind == Settlement
    ensures b.owner == owner && b.location == location
  {
    Building(owner, Settlement, location)
  }

  /** `TradeOffer(offerer=..., give=..., get=...)`: nobody has accepted yet and the offer is open. */
  function NewTradeOffer(offerer: PlayerColor, give: ResourceCounts, get: ResourceCounts): (t: TradeOffer)
    ensures t.responses == [] && t.status == Open
    ensures t.offerer == offerer && t.give == give && t.get == get
  {
    TradeOffer(offerer, give, get, [], Open)
  }

  /**
   * `GameState(players=...)`: the first player to move, the first placement phase, nothing
   * built, no inventories, no dice result, no sub-phase, an empty log and no trade.
   */
  function NewGameState(players: seq<PlayerColor>): (s: GameState)
    ensures s.players == players && s.currentTurnIndex == 0 && s.phase == InitialPlacement1
    ensures s.buildings == [] && s.roads == [] && s.logs == []
    ensures s.inventories == map[] && s.lastDiceResult == None
    ensures s.turnSubPhase == None && s.activeTrade == None
  {
    GameState(players, 0, InitialPlacement1, [], [], map[], None, None, [], None)
  }
}
