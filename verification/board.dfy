/**
 * The starting board (generate_board in backend/game_logic.py).
 *
 * The radius-2 hexagon of 19 cells is listed column by column; the centre cell is the
 * desert without a number and the other 18 take the shuffled resources and the shuffled
 * number tokens in order. The two shuffles are the method's inputs.
 */
module Board {
  import opened Models

  /** 4 lumber, 4 wool, 4 grain, 3 brick and 3 ore: one resource per non-desert cell. */
  function ResourcePool(): multiset<Resource> {
    multiset{}[Lumber := 4][Wool := 4][Grain := 4][Brick := 3][Ore := 3]
  }

  /** 2 and 12 once, 3, 4, 5, 6, 8, 9, 10 and 11 twice. */
  function NumberPool(): multiset<int> {
    multiset{2, 12}[3 := 2][4 := 2][5 := 2][6 := 2][8 := 2][9 := 2][10 := 2][11 := 2]
  }

  /** The two pools hold 18 items each, no desert and no 7. */
  lemma PoolContents()
    ensures |ResourcePool()| == 18 && Desert !in ResourcePool()
    ensures |NumberPool()| == 18 && forall n | n in NumberPool() :: 2 <= n <= 12 && n != 7
  {
  }

  /** What the two shuffles hand to the filling loop. */
  lemma Shuffled(resources: seq<Resource>, numbers: seq<int>)
    requires multiset(resources) == ResourcePool()
    requires multiset(numbers) == NumberPool()
    ensures |resources| == 18 && |numbers| == 18
    ensures Desert !in resources
    ensures forall n | n in numbers :: 2 <= n <= 12 && n != 7
  {
    PoolContents();
    assert |multiset(resources)| == |resources|;
    assert |multiset(numbers)| == |numbers|;
    forall n | n in numbers
      ensures 2 <= n <= 12 && n != 7
    {
      assert n in multiset(numbers);
    }
  }

  predicate OnBoard(q: int, r: int) {
    -2 <= q <= 2 && -2 <= r <= 2 && -2 <= q + r <= 2
  }

  /** The radius-2 hexagon, column by column and bottom to top within a column. */
  function Cells(): seq<(int, int)> {
    [(-2, 0), (-2, 1), (-2, 2),
     (-1, -1), (-1, 0), (-1, 1), (-1, 2),
     (0, -2), (0, -1), (0, 0), (0, 1), (0, 2),
     (1, -2), (1, -1), (1, 0), (1, 1),
     (2, -2), (2, -1), (2, 0)]
  }

  /** The lowest r of column q of the board. */
  function Low(q: int): int {
    if q < 0 then -2 - q else -2
  }

  /** The highest r of column q of the board. */
  function High(q: int): int {
    if q > 0 then 2 - q else 2
  }

  /** How many cells the columns left of q hold: where column q starts in Cells(). */
  function Start(q: int): int {
    if q <= -2 then 0
    else if q == -1 then 3
    else if q == 0 then 7
    else if q == 1 then 12
    else if q == 2 then 16
    else 19
  }

  /** How many cells of column q lie below row r. */
  function Below(q: int, r: int): int {
    if r <= Low(q) then 0 else if r > High(q) then High(q) - Low(q) + 1 else r - Low(q)
  }

  /** Column q of Cells() holds the rows Low(q)..High(q) in order and ends where column q + 1 starts. */
  lemma ColumnLayout(q: int, r: int)
    requires -2 <= q <= 2 && Low(q) <= r <= High(q)
    ensures Start(q) + r - Low(q) < 19
    ensures Cells()[Start(q) + r - Low(q)] == (q, r)
    ensures Cells()[..Start(q) + r - Low(q) + 1] == Cells()[..Start(q) + r - Low(q)] + [(q, r)]
  {
  }

  lemma ColumnEnds(q: int)
    requires -2 <= q <= 2
    ensures Start(q + 1) == Start(q) + High(q) - Low(q) + 1
  {
  }

  predicate LexLess(a: (int, int), b: (int, int)) {
    a.0 < b.0 || (a.0 == b.0 && a.1 < b.1)
  }

  /** A list whose neighbours are in strictly increasing order has no repeated element. */
  lemma {:induction false} StrictlySortedDistinct(s: seq<(int, int)>)
    requires forall i | 0 <= i < |s| - 1 :: LexLess(s[i], s[i + 1])
    ensures forall i, j | 0 <= i < j < |s| :: LexLess(s[i], s[j])
  {
    if |s| > 1 {
      var t := s[1..];
      StrictlySortedDistinct(t);
      forall i, j | 0 <= i < j < |s|
        ensures LexLess(s[i], s[j])
      {
        if i == 0 {
          if j > 1 {
            assert LexLess(t[0], t[j - 1]);
          }
        } else {
          assert LexLess(t[i - 1], t[j - 1]);
        }
      }
    }
  }

  /** The list has 19 cells, all on the radius-2 hexagon, in strictly increasing (q, r) order. */
  lemma CellsSorted()
    ensures |Cells()| == 19 && Cells()[9] == (0, 0)
    ensures forall i | 0 <= i < 19 :: OnBoard(Cells()[i].0, Cells()[i].1)
    ensures forall i | 0 <= i < 18 :: LexLess(Cells()[i], Cells()[i + 1])
  {
  }

  /** The 19 cells are distinct, so the centre is the tenth and only the tenth. */
  lemma CellsAreTheBoard()
    ensures |Cells()| == 19 && Cells()[9] == (0, 0)
    ensures forall i | 0 <= i < 19 :: OnBoard(Cells()[i].0, Cells()[i].1)
    ensures forall i, j | 0 <= i < j < 19 :: Cells()[i] != Cells()[j]
    ensures forall i | 0 <= i < 19 && i != 9 :: Cells()[i] != (0, 0)
  {
    CellsSorted();
    StrictlySortedDistinct(Cells());
  }

  /** Every cell of the radius-2 hexagon is in the list. */
  lemma CellsCoverTheBoard(q: int, r: int)
    requires OnBoard(q, r)
    ensures (q, r) in Cells()
  {
  }

  /** The resources of a list of cells, in order. */
  function ResourcesOf(hexes: seq<Hex>): (rs: seq<Resource>)
    ensures |rs| == |hexes|
    ensures forall i | 0 <= i < |hexes| :: rs[i] == hexes[i].resource
  {
    seq(|hexes|, i requires 0 <= i < |hexes| => hexes[i].resource)
  }

  /**
   * What the filling loop leaves behind: cell i has id i and the i-th coordinates, the centre
   * is the desert, and the other cells take the shuffled lists in order, skipping the centre.
   */
  predicate Filled(hexes: seq<Hex>, coords: seq<(int, int)>, resources: seq<Resource>, numbers: seq<int>)
    requires |hexes| <= |coords| && |hexes| <= 19 && |resources| == 18 && |numbers| == 18
  {
    && (forall j | 0 <= j < |hexes| :: hexes[j].id == j && (hexes[j].q, hexes[j].r) == coords[j])
    && (9 < |hexes| ==> hexes[9] == Hex(9, Desert, None, 0, 0))
    && (forall j | 0 <= j < |hexes| && j < 9 ::
          hexes[j].resource == resources[j] && hexes[j].number == Some(numbers[j]))
    && (forall j | 9 < j < |hexes| ::
          hexes[j].resource == resources[j - 1] && hexes[j].number == Some(numbers[j - 1]))
  }

  /** Appending the next cell, filled as the loop fills it, keeps the board filled. */
  lemma FilledExtend(hexes: seq<Hex>, coords: seq<(int, int)>, resources: seq<Resource>, numbers: seq<int>, h: Hex)
    requires |hexes| < |coords| && |hexes| < 19 && |resources| == 18 && |numbers| == 18
    requires Filled(hexes, coords, resources, numbers)
    requires h.id == |hexes| && (h.q, h.r) == coords[|hexes|]
    requires |hexes| == 9 ==> h == Hex(9, Desert, None, 0, 0)
    requires |hexes| < 9 ==> h.resource == resources[|hexes|] && h.number == Some(numbers[|hexes|])
    requires |hexes| > 9 ==> h.resource == resources[|hexes| - 1] && h.number == Some(numbers[|hexes| - 1])
    ensures Filled(hexes + [h], coords, resources, numbers)
  {
  }

  /**
   * A filled board holds the desert once and the shuffled resources once over, every cell has
   * a number exactly when it is not the desert, and every number comes from the shuffled tokens.
   */
  lemma FilledBoardContents(hexes: seq<Hex>, coords: seq<(int, int)>, resources: seq<Resource>, numbers: seq<int>)
    requires |hexes| == 19 && |coords| == 19 && |resources| == 18 && |numbers| == 18
    requires Desert !in resources
    requires Filled(hexes, coords, resources, numbers)
    ensures forall i | 0 <= i < 19 ::
      (hexes[i].resource == Desert <==> hexes[i].number == None) &&
      (hexes[i].number.Some? ==> hexes[i].number.value in numbers)
    ensures multiset(ResourcesOf(hexes)) == multiset(resources) + multiset{Desert}
  {
    forall i | 0 <= i < 19
      ensures (hexes[i].resource == Desert <==> hexes[i].number == None)
      ensures hexes[i].number.Some? ==> hexes[i].number.value in numbers
    {
      if i != 9 {
        var k := if i < 9 then i else i - 1;
        assert hexes[i].resource == resources[k];
      }
    }
    assert ResourcesOf(hexes) == resources[..9] + [Desert] + resources[9..];
    assert resources == resources[..9] + resources[9..];
  }

  /** The nested loops of generate_board that list the axial coordinates of the board. */
  method BoardCells() returns (coords: seq<(int, int)>)
    ensures coords == Cells()
  {
    coords := [];
    var q := -2;
    while q < 3
      invariant -2 <= q <= 3
      invariant coords == Cells()[..Start(q)]
    {
      var r := -2;
      while r < 3
        invariant -2 <= r <= 3
        invariant coords == Cells()[..Start(q) + Below(q, r)]
      {
        if -2 <= q + r <= 2 {
          ColumnLayout(q, r);
          coords := coords + [(q, r)];
        }
        r := r + 1;
      }
      ColumnEnds(q);
      q := q + 1;
    }
  }

  /** generate_board, with the outcome of the two shuffles as inputs. */
  method GenerateBoard(resources: seq<Resource>, numbers: seq<int>) returns (board: Board)
    requires multiset(resources) == ResourcePool()
    requires multiset(numbers) == NumberPool()
    ensures |board.hexes| == 19 && |resources| == 18 && |numbers| == 18
    ensures Filled(board.hexes, Cells(), resources, numbers)
    ensures forall i | 0 <= i < 19 ::
      (board.hexes[i].resource == Desert <==> board.hexes[i].number == None) &&
      (board.hexes[i].number.Some? ==> 2 <= board.hexes[i].number.value <= 12 && board.hexes[i].number.value != 7)
    ensures multiset(ResourcesOf(board.hexes)) == multiset(resources) + multiset{Desert}
  {
    Shuffled(resources, numbers);
    var coords := BoardCells();
    CellsAreTheBoard();

    var hexes: seq<Hex> := [];
    var resIdx := 0;
    var numIdx := 0;
    var i := 0;
    while i < |coords|
      invariant 0 <= i <= 19
      invariant |hexes| == i
      invariant resIdx == numIdx == (if i <= 9 then i else i - 1)
      invariant Filled(hexes, coords, resources, numbers)
    {
      var (cq, cr) := coords[i];
      if cq == 0 && cr == 0 {
        FilledExtend(hexes, coords, resources, numbers, Hex(i, Desert, None, cq, cr));
        hexes := hexes + [Hex(i, Desert, None, cq, cr)];
      } else {
        var res := resources[resIdx];
        resIdx := resIdx + 1;
        var num := numbers[numIdx];
        numIdx := numIdx + 1;
        FilledExtend(hexes, coords, resources, numbers, Hex(i, res, Some(num), cq, cr));
        hexes := hexes + [Hex(i, res, Some(num), cq, cr)];
      }
      i := i + 1;
    }
    board := Board(hexes);
    FilledBoardContents(hexes, coords, resources, numbers);
  }
}
