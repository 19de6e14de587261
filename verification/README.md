# Hex-board settlement game: verified model of the backend core

This Dafny project models the rule core of a four-player hex-board trading and building game:

- The hex-grid topology of the Python backend. This covers the canonical spelling of corners and sides (`normalize_vertex` and `normalize_edge`), the alias table, incident edges and adjacent corners.
- The TypeScript client's copies of the two canonicalisers, with their string ids.
- The records of `backend/models.py`.
- `generate_board`, with the two shuffled lists as inputs.
- The `GameManager` state machine. It covers settlement, road and city placement; the snake-draft turn order; dice payouts; the 4:1 bank trade; and the offer / respond / confirm / cancel trade protocol.

Modules:

- `Models` (models.dfy): the enumerations and records, and the default-filling constructors.
- `Topology` (topology.dfy): the backend grid functions on triples `(q, r, k)`, with what they compute proved against the physical points they name.
- `Coords` (coords.dfy): `normalizeVertex` and `normalizeEdge` of the client, their sort comparator and the `"q,r,c"` id.
- `Board` (board.dfy): `generate_board` as a method that fills the 19 cells column by column.
- `Rules` (rules.dfy): every `GameManager` method as a function from the state before to the state after, plus the boolean answer. Lemmas state what each one guarantees.
- `Scans` (scans.dfy): the search, count, cost-check and transfer loops of the methods. Each is a method proved to compute the `Rules` function that describes it.
- `Invariants` (invariants.dfy): every operation keeps `Consistent`:
  - four players, and a turn index among them;
  - a full inventory for every player;
  - at most 50 log entries;
  - buildings and roads on canonical, pairwise different locations.
- `Engine` (engine.dfy): the `GameManager` class. It has the fields `board` and `state`, and methods that change `state` step by step as the Python does. Each method is proved to end in exactly the state of the `Rules` function of the same name, and to keep `Valid()`.

The state is a value of the `GameState` datatype, held in the `state` field of the class. Inventories are a map from player to a map from resource to count. Trade tables are lists of `(resource, count)` pairs in insertion order, because a partial transfer depends on that order. A list can repeat a resource, which a Python dict cannot. The general lemmas hold for any list, and the ones that need dict-like tables require `DistinctKeys`.

## Model

| member | source | states |
|---|---|---|
| Models.NewHex | backend/models.py:19-24 | a cell built without a number has no number token; the other fields are as given |
| Models.NewBuilding | backend/models.py:45-48 | a building built without a type is a settlement of the given owner at the given corner |
| Models.NewTradeOffer | backend/models.py:62-67 | a fresh offer has no responses and status OPEN, with the given offerer and tables |
| Models.NewGameState | backend/models.py:69-83 | a fresh state has index 0, the first placement phase, no buildings, roads, logs, inventories, dice result, sub-phase or trade |
| Rules.VertexIdEquality | backend/models.py:26-35 | two corner ids are equal exactly when their triples (q, r, corner) are equal |
| Topology.Neighbor | backend/game_logic.py:86-90 | the cell across a side is one of the six cells at hex distance 1 (indices -6..-1 allowed, as Python lists allow) |
| Topology.NeighborOpposite | backend/game_logic.py:86-90 | crossing side d and then side d + 3 returns to the start cell |
| Topology.SmallestIsLeast | backend/game_logic.py:150-151 | `ids.sort(); ids[0]` is an element of the list below or equal to every element in tuple order |
| Topology.SmallestOf | backend/game_logic.py:150-151 | a least element of the list is what sorting picks |
| Topology.VertexIds | backend/game_logic.py:119-148 | the corner table of normalize_vertex: every spelling in it names the input's point and gets the same key (see VertexIdsAgree, CanonicalVertexSamePoint) |
| Topology.NormalizeVertexClosedForm | backend/game_logic.py:92-151 | normalize_vertex is, for every input, the written-out canonical corner: corners 0, 2, 4 meet at a corner 2 and corners 1, 3, 5 at a corner 1 |
| Topology.NormalizeVertexRange | backend/game_logic.py:92-151 | an in-range corner normalises to corner 1 or 2; any other corner comes back unchanged |
| Topology.NormalizeVertexIdempotent | backend/game_logic.py:92-151 | normalising a normalised corner changes nothing |
| Topology.VertexIdsAgree | backend/game_logic.py:119-151 | every spelling in the corner's own table normalises to the same key |
| Topology.CanonicalVertexSamePoint | backend/game_logic.py:92-151 | the canonical spelling names the same physical point as the input |
| Topology.CanonicalVertexPointInjective | backend/game_logic.py:92-151 | two different canonical corners are different points |
| Topology.NormalizeVertexIdentifiesPoints | backend/game_logic.py:92-151 | two in-range spellings get the same key exactly when they name the same physical point |
| Topology.EdgeIds | backend/game_logic.py:162-174 | the side table of normalize_edge: both spellings name the same side and get the same key (see EdgeIdsAgree, NormalizeEdgeIdentifiesSides) |
| Topology.NormalizeEdgeClosedForm | backend/game_logic.py:153-177 | normalize_edge is, for every input, the written-out canonical side (sides 0-2 are their own key) |
| Topology.NormalizeEdgeRange | backend/game_logic.py:153-177 | an in-range side normalises to side 0, 1 or 2; any other side comes back unchanged |
| Topology.NormalizeEdgeIdempotent | backend/game_logic.py:153-177 | normalising a normalised side changes nothing |
| Topology.EdgeIdsAgree | backend/game_logic.py:162-177 | both spellings of a side normalise to the same key |
| Topology.NormalizeEdgeAcrossNeighbor | backend/game_logic.py:153-177 | side e of a cell and side e + 3 of the neighbour across it have the same key |
| Topology.NormalizeEdgeIdentifiesSides | backend/game_logic.py:153-177 | two in-range spellings get the same key exactly when they name the same side |
| Topology.RoadEndpointInRange | backend/game_logic.py:611-612 | for a canonical side the endpoint corner `ne + 1` is 1, 2 or 3, so the missing `% 6` does not matter |
| Topology.VertexAliases | backend/game_logic.py:399-426 | the alias table of get_vertex_aliases, which agrees with the true corner spellings only for corners 1 and 5 (see AliasTablesAgreeOnlyAtCorners1And5) |
| Topology.AliasTablesAgreeOnlyAtCorners1And5 | backend/game_logic.py:399-426 | the alias table equals normalize_vertex's table exactly for corners 1 and 5; for the other corners some alias is a different point |
| Topology.IncidentEdges | backend/game_logic.py:428-438 | every incident edge is a set of canonical sides (see IncidentEdgesCanonical) |
| Topology.IncidentEdgesCanonical | backend/game_logic.py:428-438 | every edge get_incident_edges returns is a fixed point of normalize_edge |
| Topology.IncidentEdgesCorner1 | backend/game_logic.py:428-438 | corner 1 has exactly its three true sides |
| Topology.IncidentEdgesCorner5 | backend/game_logic.py:428-438 | corner 5 has the same three sides as the corner 1 it equals |
| Topology.IncidentEdgesTouchCorner | backend/game_logic.py:428-438 | for corners 1 and 5 every incident edge ends at the corner's point |
| Topology.IncidentEdgesCorner2 | backend/game_logic.py:428-438 | corner 2 gets six edges, and its true side 0 of (q, r + 1) is not among them |
| Topology.IncidentEdgesCorner2Count | backend/game_logic.py:428-438 | a corner-2 vertex has six incident edges, not three |
| Topology.AdjacentVertices | backend/game_logic.py:440-456 | every adjacent corner is canonical (see AdjacentVerticesCanonical) |
| Topology.AdjacentVerticesCanonical | backend/game_logic.py:440-456 | every corner get_adjacent_vertices returns is a fixed point of normalize_vertex |
| Topology.AdjacentVerticesCorner1 | backend/game_logic.py:440-456 | corner 1 has exactly three distinct neighbours, none of them itself |
| Topology.AdjacentVerticesCorner5 | backend/game_logic.py:440-456 | corner 5 has the three neighbours of the corner 1 it equals, none of them itself |
| Topology.AdjacentVerticesCorner2 | backend/game_logic.py:440-456 | corner 2 gets four corners, and the true neighbour corner 1 of (q, r + 1) is missing |
| Topology.AdjacentVerticesCorner2Count | backend/game_logic.py:440-456 | a corner-2 vertex has four neighbours, not three |
| Topology.AdjacencyNotSymmetric | backend/game_logic.py:440-456 | corner 1 of (q, r + 1) lists corner 2 of (q, r) as a neighbour, but not the reverse |
| Coords.CompareIsTupleOrder | frontend/src/utils/coords.ts:39-43 | the sort comparator orders triples by q, then r, then c |
| Coords.First | frontend/src/utils/coords.ts:38-45 | the first element after sorting is in the list and sorts before or with every element |
| Coords.FirstIsSmallest | frontend/src/utils/coords.ts:38-45 | the client's sort picks the element the backend's sort picks |
| Coords.CornerIds | frontend/src/utils/coords.ts:16-36 | the client's corner array, entry for entry the backend's corner table (see TablesMatchBackend) |
| Coords.SideIds | frontend/src/utils/coords.ts:50-57 | the client's side array, entry for entry the backend's side table (see TablesMatchBackend) |
| Coords.TablesMatchBackend | frontend/src/utils/coords.ts:16-57 | the client's corner and side tables are the backend's tables, entry by entry |
| Coords.NormalizeVertex | frontend/src/utils/coords.ts:15-47 | the returned id identifies the canonical corner: two corners get the same id exactly when they normalise to the same triple (see VertexIdIdentifiesCanonical, NormalizeVertexMatchesBackend) |
| Coords.NormalizeEdge | frontend/src/utils/coords.ts:49-67 | the returned id identifies the canonical side: two sides get the same id exactly when they normalise to the same triple (see EdgeIdIdentifiesCanonical, NormalizeEdgeMatchesBackend) |
| Coords.NormalizeVertexMatchesBackend | frontend/src/utils/coords.ts:15-47 | normalizeVertex returns the triple of the backend's normalize_vertex, for every integer input (JavaScript numbers within the safe-integer range) |
| Coords.NormalizeEdgeMatchesBackend | frontend/src/utils/coords.ts:49-67 | normalizeEdge returns the triple of the backend's normalize_edge, for every integer input (JavaScript numbers within the safe-integer range) |
| Coords.NormalizeVertexCanonical | frontend/src/utils/coords.ts:15-47 | an in-range corner gives corner 1 or 2, any other comes back unchanged, and normalising again gives the same result, id included |
| Coords.NormalizeEdgeCanonical | frontend/src/utils/coords.ts:49-67 | an in-range side gives side 0, 1 or 2, normalising again changes nothing, and both spellings give the same result |
| Coords.ParseIntToString | frontend/src/utils/coords.ts:46 | the decimal text of an integer reads back as that integer |
| Coords.IntToStringHasNoComma | frontend/src/utils/coords.ts:46 | the text of an integer contains no comma |
| Coords.IdOfParts | frontend/src/utils/coords.ts:46 | equal ids have equal texts in each of the three places |
| Coords.IdOfInjective | frontend/src/utils/coords.ts:46 | two triples have the same id exactly when they are the same triple |
| Coords.VertexIdIdentifiesCanonical | frontend/src/utils/coords.ts:45-46 | two corners get the same id exactly when they normalise to the same triple |
| Coords.EdgeIdIdentifiesCanonical | frontend/src/utils/coords.ts:65-66 | two sides get the same id exactly when they normalise to the same triple |
| Board.PoolContents | backend/game_logic.py:8-20 | both pools hold 18 items; no desert among the resources, and only 2..12 without 7 among the numbers |
| Board.Shuffled | backend/game_logic.py:15-21 | any shuffle of the pools is 18 resources without desert and 18 numbers in 2..12 other than 7 |
| Board.CellsSorted | backend/game_logic.py:26-30 | the coordinate list has 19 cells of the radius-2 hexagon, in strictly increasing (q, r) order, centre tenth |
| Board.CellsAreTheBoard | backend/game_logic.py:26-30 | the 19 cells are pairwise different and only the tenth is the centre |
| Board.CellsCoverTheBoard | backend/game_logic.py:26-30 | every cell of the radius-2 hexagon is in the list |
| Board.FilledExtend | backend/game_logic.py:35-57 | appending the next cell as the loop builds it keeps the board filled in order |
| Board.FilledBoardContents | backend/game_logic.py:35-57 | a filled board holds the desert once plus the shuffled resources; a cell has a number exactly when it is not the desert, and every number comes from the tokens |
| Board.BoardCells | backend/game_logic.py:26-30 | the nested coordinate loops produce exactly the board's cell list |
| Board.GenerateBoard | backend/game_logic.py:5-59 | 19 cells in list order with ids 0..18; the centre is the desert without a number, the others take the shuffled resources and numbers in order; desert exactly where there is no number |
| Rules.InitialState | backend/game_logic.py:468-480 | the initial state is Consistent: four colours in order, player 0 in the first placement phase, and zero of every resource for every player |
| Rules.EmptyInventory | backend/game_logic.py:474-476 | a fresh inventory holds every resource, each at zero |
| Rules.AppendLog | backend/game_logic.py:482-487 | the new entry is last, the earlier entries are kept in order minus at most the oldest, and the log never exceeds 50 |
| Rules.Log | backend/game_logic.py:482-487 | logging changes nothing but the log, and adds at most one entry |
| Rules.DeductLowers | backend/game_logic.py:549-550 | consuming a cost table lowers each resource by the table's total for it and keeps every key |
| Rules.SettlementCostAmounts | backend/game_logic.py:461 | a settlement costs one lumber, brick, wool and grain, and nothing else |
| Rules.RoadCostAmounts | backend/game_logic.py:460 | a road costs one lumber and one brick, and nothing else |
| Rules.CityCostAmounts | backend/game_logic.py:462 | a city costs two grain and three ore, and nothing else |
| Rules.Pay | backend/game_logic.py:549-550 | paying changes the inventories and nothing else of the state |
| Invariants.PayKeeps | backend/game_logic.py:549-550 | paying a cost keeps the state Consistent, every inventory still full |
| Rules.FirstBuildingAt | backend/game_logic.py:688-691 | the index found holds a building at the corner and no earlier one does; none is found exactly when no building is there |
| Rules.OwnedBuildings | backend/game_logic.py:504 | a player's building count is at most the number of buildings |
| Rules.OwnedCities | backend/game_logic.py:680 | a player's city count is at most their building count |
| Rules.OwnedRoads | backend/game_logic.py:578 | a player's road count is at most the number of roads |
| Rules.OwnedBuildingsCountsPositions | backend/game_logic.py:504 | the building count equals the number of list positions holding one of the player's buildings |
| Rules.OwnedRoadsCountsPositions | backend/game_logic.py:578 | the road count equals the number of list positions holding one of the player's roads |
| Rules.OwnedRoadsZero | backend/game_logic.py:578 | a road count of zero means no road in the list belongs to the player |
| Rules.HandleTurnEnd | backend/game_logic.py:742-765 | only the index, the phase and the sub-phase change |
| Rules.HandleTurnEndSnake | backend/game_logic.py:742-765 | phase 1 counts 0 to 3; after 3, phase 2 starts with 3; phase 2 counts 3 to 0; after 0 the game loop starts with 0 to roll; the index stays in 0..3 and the phase never goes back |
| Rules.SnakeDraftFromStart | backend/game_logic.py:742-765 | from a fresh game, eight turn ends run 0,1,2,3,3,2,1,0 and reach the game loop with player 0 to roll |
| Rules.AdvanceTurnIfNeeded | backend/game_logic.py:721-740 | only the index, the phase and the sub-phase change |
| Rules.AdvanceTurnWhenQuotaMet | backend/game_logic.py:721-740 | the turn ends exactly when the player has met the placement quota of the phase, and never in the game loop |
| Rules.EndTurnSkipsPlacement | backend/game_logic.py:781-789 | end_turn ignores the phase: it moves the turn on in placement too; with four players it agrees with the game-loop branch of handle_turn_end |
| Rules.BuildSettlementSpec | backend/game_logic.py:489-562 | True exactly when the corner is free, the quota is not used up, no adjacent corner is taken and, in the game loop, the sub-phase is build-and-trade, an own road touches and the cost is held; then one settlement is appended and the cost is paid in the game loop only; otherwise nothing but the log changes |
| Rules.RefusedAsTooClose | backend/game_logic.py:513-520 | a free corner within the quota with an occupied neighbour is refused and logged as too close |
| Rules.SettlementBesideCorner1Accepted | backend/game_logic.py:513-520 | with another player's settlement on corner 1 of (q, r + 1), a settlement on its listed neighbour corner 2 of (q, r) is accepted |
| Rules.SettlementBesideCorner2Refused | backend/game_logic.py:513-520 | in the other order, the second settlement is refused as too close |
| Rules.BuildRoadSpec | backend/game_logic.py:564-672 | True exactly when the side is free, the quota is not used up, an endpoint touches an own building or another own road (in every phase) and, in the game loop, the sub-phase is build-and-trade, fewer than 15 roads are owned and the cost is held; then one road is appended; otherwise nothing but the log changes |
| Rules.FirstRoadNeedsSettlement | backend/game_logic.py:611-652 | with no buildings on the board a first road is refused everywhere |
| Rules.BuildCitySpec | backend/game_logic.py:674-719 | True exactly in the game loop, on an own settlement stored at exactly (q, r, c), with fewer than 4 own cities and 2 grain and 3 ore; then only that building becomes a city and the player pays; otherwise nothing but the log changes |
| Rules.Credit | backend/game_logic.py:820 | one count goes up by the gain, the others stay |
| Rules.Earn | backend/game_logic.py:820-821 | a payout keeps the set of players |
| Rules.EarnCount | backend/game_logic.py:820-821 | a payout changes one count of one player, by the gain |
| Rules.HarvestYields | backend/game_logic.py:808-821 | one corner adds exactly what the first building there yields its owner |
| Rules.HarvestCornersStep | backend/game_logic.py:808-821 | the corner loop is one corner's harvest followed by the loop over the remaining corners |
| Invariants.HarvestCornersKeeps | backend/game_logic.py:808-821 | the corner loop keeps every inventory full and the log within 50 entries |
| Rules.HarvestCornersYields | backend/game_logic.py:808-821 | the six corners of a cell add exactly the cell's yield |
| Rules.VisitYields | backend/game_logic.py:797-821 | one cell adds exactly its yield when its number matches and it is not the desert, and nothing otherwise |
| Rules.DistributeOverYields | backend/game_logic.py:797-821 | the cell loop adds exactly the total yield for the dice total |
| Invariants.DistributeOverKeeps | backend/game_logic.py:797-821 | the cell loop keeps every inventory full and the log within 50 entries |
| Rules.DistributeResources | backend/game_logic.py:791-822 | distribution changes only inventories and log, and keeps an inventory for every player |
| Rules.DistributeResourcesSpec | backend/game_logic.py:791-822 | a 7 changes nothing; otherwise every player gains in every resource exactly what the buildings on the producing cells yield (1 per settlement, 2 per city), and nothing but inventories and log changes |
| Rules.RollDice | backend/game_logic.py:767-779 | the total is recorded, the sub-phase becomes build-and-trade, and only inventories and log change besides |
| Rules.RollDiceSpec | backend/game_logic.py:767-779 | the recorded total is in 2..12 and every count changes by the yield of that total (nothing on a 7) |
| Rules.Exchange | backend/game_logic.py:836-837 | four of `give` go and one of `get` comes (three go when they are the same); other counts stay |
| Rules.BankTradeSpec | backend/game_logic.py:824-840 | True exactly in the game loop with at least 4 of `give`; then exactly -4/+1 for the current player and no other change to inventories; otherwise nothing but the log changes |
| Rules.FirstShortfall | backend/game_logic.py:848-851 | no shortfall exactly when every listed amount is held; a reported one is a listed resource held short |
| Rules.CreateTradeOfferSpec | backend/game_logic.py:842-860 | an offer opens exactly when the offerer holds everything they give, and is then fresh and open with no responses; no inventory changes |
| Rules.CancelTradeOfferSpec | backend/game_logic.py:862-868 | only the current player, as offerer, can cancel; then the offer is gone, otherwise nothing changes |
| Rules.RespondToOfferSpec | backend/game_logic.py:870-885 | a response needs an offer; an acceptance also needs the asked resources and appends the responder only if not already listed; a decline or repeat acceptance leaves the responses list as it was; no inventory changes |
| Rules.Transfer | backend/game_logic.py:898-907 | a transfer loop keeps the set of players and leaves every third player untouched; what it moves is stated by TransferMoves, TransferToSelf and TransferRunsThroughWhenHeld |
| Rules.Move | backend/game_logic.py:900-901 | one move keeps the set of players and leaves every third player untouched |
| Rules.TransferStep | backend/game_logic.py:898-901 | a covered first entry is moved, then the loop goes on with the rest |
| Rules.MoveConserves | backend/game_logic.py:900-901 | moving one entry keeps the two players' combined count |
| Rules.TransferConserves | backend/game_logic.py:898-907 | a transfer, finished or stopped partway, keeps the two players' combined count of every resource |
| Rules.TransferMoves | backend/game_logic.py:898-907 | a transfer that runs through between two players takes each resource's table total from the giver and adds it to the receiver |
| Rules.TransferToSelf | backend/game_logic.py:898-907 | a transfer to oneself changes no count and runs through exactly when the player holds the table |
| Rules.TransferRunsThroughWhenHeld | backend/game_logic.py:898-907 | for a table with distinct resources, a transfer runs through exactly when the giver holds every listed amount to begin with |
| Rules.Settle | backend/game_logic.py:898-907 | both loops together keep the players and leave every third player untouched |
| Rules.SettleConserves | backend/game_logic.py:898-907 | both loops together keep the combined count of every resource |
| Invariants.SettleKeepsFull | backend/game_logic.py:898-907 | both loops together keep every inventory full |
| Rules.ConfirmTradeConserves | backend/game_logic.py:887-911 | confirm_trade keeps offerer plus target counts of every resource and every other player's inventory, on True or partway |
| Rules.ConfirmTradeOutcome | backend/game_logic.py:887-911 | True exactly when there is an offer and both loops run through; only then is the offer cleared and logged; on True between two players the offerer ends with `give` less and `get` more of every resource and the target with `give` more and `get` less |
| Rules.ConfirmTradeSucceedsWhenHeld | backend/game_logic.py:887-911 | for tables with distinct resources, True exactly when the offerer holds `give` and the target, counting the resources just received, holds `get` |
| Rules.ConfirmTradeNotAtomic | backend/game_logic.py:898-907 | a trade whose second half fails returns False with the first half already moved and the offer still open |
| Rules.NegativeCountOverdraws | backend/game_logic.py:898-902 | a negative count is not rejected: it runs through and drives the receiver below zero |
| Scans.FindBuilding | backend/game_logic.py:812-813 | the scan returns the first building at the corner, or none |
| Scans.RoadTaken | backend/game_logic.py:573-575 | the scan reports whether a road lies on the side |
| Scans.CountOwnedBuildings | backend/game_logic.py:504 | the count is the player's number of buildings |
| Scans.CountOwnedCities | backend/game_logic.py:680 | the count is the player's number of cities |
| Scans.CountOwnedRoads | backend/game_logic.py:578 | the count is the player's number of roads |
| Scans.AnyBuildingIn | backend/game_logic.py:513-520 | the scan finds a building exactly when one stands on a listed corner |
| Scans.OwnRoadAt | backend/game_logic.py:529-533 | the scan finds an own road exactly when one lies on the side |
| Scans.OwnRoadIn | backend/game_logic.py:525-535 | the scan finds an own road exactly when one lies on a listed side |
| Scans.OwnBuildingOn | backend/game_logic.py:619-623 | the scan finds an own building exactly when one stands on the corner |
| Scans.Connected | backend/game_logic.py:614-640 | the endpoint loop reports exactly the connection rule |
| Scans.Affords | backend/game_logic.py:544-546 | the check loop passes exactly when every listed amount is held |
| Scans.Shortfall | backend/game_logic.py:848-851 | the check loop names exactly the first resource held short |
| Scans.Consume | backend/game_logic.py:549-550 | the consume loop leaves exactly the deducted inventory |
| Scans.TransferLoop | backend/game_logic.py:898-907 | the loop leaves exactly the transfer's result, partial on a stop |
| Invariants.BuildSettlementKeeps | backend/game_logic.py:489-562 | build_settlement keeps the state Consistent |
| Invariants.BuildRoadKeeps | backend/game_logic.py:564-672 | build_road keeps the state Consistent |
| Invariants.BuildCityKeeps | backend/game_logic.py:674-719 | build_city keeps the state Consistent |
| Invariants.HandleTurnEndKeeps | backend/game_logic.py:742-765 | handle_turn_end keeps the state Consistent |
| Invariants.AdvanceTurnKeeps | backend/game_logic.py:721-740 | advance_turn_if_needed keeps the state Consistent |
| Invariants.EndTurnKeeps | backend/game_logic.py:781-789 | end_turn keeps the state Consistent |
| Invariants.DistributeResourcesKeeps | backend/game_logic.py:791-822 | distribute_resources keeps the state Consistent |
| Invariants.RollDiceKeeps | backend/game_logic.py:767-779 | roll_dice keeps the state Consistent |
| Invariants.BankTradeKeeps | backend/game_logic.py:824-840 | bank_trade keeps the state Consistent |
| Invariants.CreateTradeOfferKeeps | backend/game_logic.py:842-860 | create_trade_offer keeps the state Consistent |
| Invariants.CancelTradeOfferKeeps | backend/game_logic.py:862-868 | cancel_trade_offer keeps the state Consistent |
| Invariants.RespondToOfferKeeps | backend/game_logic.py:870-885 | respond_to_offer keeps the state Consistent |
| Invariants.TransferKeepsFull | backend/game_logic.py:898-907 | a transfer keeps every inventory full |
| Invariants.ConfirmTradeKeeps | backend/game_logic.py:887-911 | confirm_trade keeps the state Consistent |
| Engine.GameManager.constructor | backend/game_logic.py:468-480 | the new manager holds a board filled from the shuffles and the initial state, and is Valid |
| Engine.GameManager.AddLog | backend/game_logic.py:482-487 | the state becomes Log of the old state, and Valid is kept |
| Engine.GameManager.HandleTurnEnd | backend/game_logic.py:742-765 | the state becomes HandleTurnEnd of the old state, and Valid is kept |
| Engine.GameManager.AdvanceTurnIfNeeded | backend/game_logic.py:721-740 | the state becomes AdvanceTurnIfNeeded of the old state, and Valid is kept |
| Engine.GameManager.BuildSettlement | backend/game_logic.py:489-562 | the state and answer are those of Rules.BuildSettlement, and Valid is kept |
| Engine.GameManager.BuildRoad | backend/game_logic.py:564-672 | the state and answer are those of Rules.BuildRoad, and Valid is kept |
| Engine.GameManager.BuildCity | backend/game_logic.py:674-719 | the state and answer are those of Rules.BuildCity, and Valid is kept |
| Engine.GameManager.DistributeResources | backend/game_logic.py:791-822 | the state becomes Rules.DistributeResources of the old state over the board, and Valid is kept |
| Engine.GameManager.HarvestCell | backend/game_logic.py:808-821 | the corner loop of one cell pays out exactly HarvestCorners and changes nothing else |
| Engine.GameManager.Grant | backend/game_logic.py:820-821 | one credit and its log entry: exactly Earn, nothing else |
| Engine.GameManager.RollDice | backend/game_logic.py:767-779 | the total is d1 + d2 in 2..12, the state becomes Rules.RollDice of the old state, and Valid is kept |
| Engine.GameManager.EndTurn | backend/game_logic.py:781-789 | True, the state becomes Rules.EndTurn of the old state, and Valid is kept |
| Engine.GameManager.BankTrade | backend/game_logic.py:824-840 | the state and answer are those of Rules.BankTrade, and Valid is kept |
| Engine.GameManager.CreateTradeOffer | backend/game_logic.py:842-860 | the state and answer are those of Rules.CreateTradeOffer, and Valid is kept |
| Engine.GameManager.CancelTradeOffer | backend/game_logic.py:862-868 | the state and answer are those of Rules.CancelTradeOffer, and Valid is kept |
| Engine.GameManager.RespondToOffer | backend/game_logic.py:870-885 | the state and answer are those of Rules.RespondToOffer, and Valid is kept |
| Engine.GameManager.ConfirmTrade | backend/game_logic.py:887-911 | the state and answer are those of Rules.ConfirmTrade (so on True the tables are swapped, by ConfirmTradeOutcome), and Valid is kept |

## Where the code differs from its intent

These behaviours are modelled as the code has them, and the named lemmas state them.

- The alias table of `get_vertex_aliases` (backend/game_logic.py:407-424) agrees with normalize_vertex's table only for corners 1 and 5 (`Topology.AliasTablesAgreeOnlyAtCorners1And5`). A canonical corner 2 therefore gets six incident edges and four neighbours, and misses a true side and a true neighbour (`Topology.IncidentEdgesCorner2`, `Topology.AdjacentVerticesCorner2`).
- Adjacency comes out asymmetric (`Topology.AdjacencyNotSymmetric`). So the distance rule of build_settlement depends on the order of placement. A settlement next to an existing one on corner 1 of (q, r + 1) is accepted (`Rules.SettlementBesideCorner1Accepted`). In the opposite order it is refused (`Rules.SettlementBesideCorner2Refused`).
- confirm_trade moves resources inside its check loops. A False answer can leave a partial transfer with the offer still open (`Rules.ConfirmTradeNotAtomic`). Counts are not checked for sign, so a negative count overdraws the receiver (`Rules.NegativeCountOverdraws`).
- The road connection rule applies in the placement phases too. A first road is refused wherever no own settlement touches it (`Rules.FirstRoadNeedsSettlement`).
- build_city matches the stored triple exactly, without normalising, and does not check the sub-phase (`Rules.BuildCitySpec`).
- handle_turn_end counts with 4; end_turn counts with `len(players)` and ignores the phase (`Rules.EndTurnSkipsPlacement`).
- Several calls skip checks:
  - roll_dice and end_turn check neither phase nor caller.
  - create_trade_offer, respond_to_offer and confirm_trade check no phase. bank_trade requires the game loop, and cancel_trade_offer requires the current player to be the offerer.
  - respond_to_offer does not check that the responder differs from the offerer.
  - confirm_trade does not check that `target_player` ever accepted: the responses list is never consulted. Its success condition (`Rules.ConfirmTradeOutcome`, `Rules.ConfirmTradeSucceedsWhenHeld`) mentions only holdings.
- There is no settlement cap beyond the placement quotas. Several refusals still append a log entry (the `!ok` cases of the Spec lemmas allow one entry).

## Left out

- backend/main.py: the web and socket transport is not part of this model. This includes `cheat_resources`, which it calls but which does not exist.
- `random.shuffle` in generate_board and `random.randint` in roll_dice. The shuffled lists and the two dice values are inputs.
- Timestamps and `print` calls. A log entry keeps an event and its values instead of formatted text. The 50-entry cap is kept.
- The first `get_adjacent_vertices` (backend/game_logic.py:179-397): it is dead code, shadowed by the definition at line 440.
- The robber on a 7: the code does nothing there, and so does the model.
- The React components and frontend/src/types.ts: UI, socket calls and interface declarations only.
- Engine.GameManager.RespondToOffer: the responder is a `PlayerColor`. A string that is not a player would make the Python raise `KeyError`; that case is not modelled.
- Engine.GameManager.ConfirmTrade: the target is a `PlayerColor`. An unknown target would make the Python raise `KeyError`; that case is not modelled.
- Engine.GameManager.BankTrade: `give_res` and `get_res` are resources, not strings. An unknown `give_res` counts as 0 held, so the call is refused with a log. An unknown `get_res` with at least 4 of `give_res` would take the 4 and then raise `KeyError` on the `+= 1`, keeping the deduction. Neither path is modelled.
- Coords.NormalizeVertexMatchesBackend: JavaScript `number` coordinates are modelled as unbounded integers. From 2^53 on, `q + 1 === q` in JavaScript, so the client's table and sort, and its agreement with the backend, are not captured there. `${n}` switches to exponent form from 1e21, and a non-integer corner falls through every branch.
- Coords.NormalizeEdgeMatchesBackend: the same integer abstraction of JavaScript `number` applies, so agreement beyond the safe-integer range or for non-integer sides is not claimed.
- Engine.GameManager.CreateTradeOffer: trade tables hold resources only. Python dicts keyed by arbitrary strings, and the `KeyError` an unknown key would raise in confirm_trade, are not modelled.
- `Rules.Count` reads a missing entry as 0, as `inventory.get(res, 0)` does. The `+=` and `-=` updates would raise `KeyError` on a missing entry, but every inventory holds every resource from __init__ on (`Consistent`), so they never meet one.
- The in-place Python aliasing is not modelled. Values stand in for it: `inventory = self.state.inventories[p]` followed by `inventory[res] -= ...` becomes an update of the map entry, and `target_building.type = "city"` becomes an update of the list element. When offerer and target are the same player, both loops act on one inventory, exactly as in the Python.
- generate_board's list building is specified through the column-by-column cell list `Board.Cells`. The method builds it with the same two nested loops.
