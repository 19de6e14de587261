/**
 * Hex-grid topology of the backend (backend/game_logic.py, lines 86-456).
 *
 * Cells are addressed in axial coordinates (q, r). A corner of the grid is written
 * (q, r, corner) and a side (q, r, side), both with an index 0..5; a corner is shared by
 * three cells and a side by two, so one physical point or side has several spellings.
 * The normalisers pick the least spelling; the alias table, the incident edges and the
 * adjacent vertices are modelled exactly as the code computes them, including the alias
 * table that disagrees with the normaliser's table for corners 0, 2, 3 and 4.
 */
module Topology {

  /** A spelling (q, r, k) of a corner or a side: cell (q, r), index k. */
  datatype Triple = Triple(q: int, r: int, k: int)

  /** Python's ordering of the tuple (q, r, k). */
  predicate Le(a: Triple, b: Triple) {
    a.q < b.q || (a.q == b.q && (a.r < b.r || (a.r == b.r && a.k <= b.k)))
  }

  /** `ids.sort(); ids[0]`: the least spelling in the list. */
  function Smallest(ids: seq<Triple>): Triple
    requires ids != []
  {
    if |ids| == 1 then ids[0]
    else
      var rest := Smallest(ids[1..]);
      if Le(ids[0], rest) then ids[0] else rest
  }

  /** Smallest returns a member of the list that is below or equal to every member. */
  lemma {:induction false} SmallestIsLeast(ids: seq<Triple>)
    requires ids != []
    ensures Smallest(ids) in ids
    ensures forall x | x in ids :: Le(Smallest(ids), x)
  {
    if |ids| > 1 {
      SmallestIsLeast(ids[1..]);
      assert forall x | x in ids :: x == ids[0] || x in ids[1..];
    }
  }

  /** A least element is the only least element. */
  lemma SmallestOf(ids: seq<Triple>, m: Triple)
    requires m in ids
    requires forall x | x in ids :: Le(m, x)
    ensures Smallest(ids) == m
  {
    SmallestIsLeast(ids);
    var s := Smallest(ids);
    assert Le(s, m) && Le(m, s);
  }

  // ---------------------------------------------------------------------------
  // Directions

  /** Axial q-delta of the neighbour across side d (the `dq` list of get_neighbor). */
  function Dq(d: int): int
    requires 0 <= d < 6
  {
    [1, 1, 0, -1, -1, 0][d]
  }

  /** Axial r-delta of the neighbour across side d (the `dr` list of get_neighbor). */
  function Dr(d: int): int
    requires 0 <= d < 6
  {
    [-1, 0, 1, 1, 0, -1][d]
  }

  function Abs(x: int): nat {
    if x < 0 then -x else x
  }

  /**
   * get_neighbor: the cell across side `direction`. Python list indexing also accepts
   * the indices -6..-1, counted from the end.
   */
  function Neighbor(q: int, r: int, direction: int): (n: (int, int))
    requires -6 <= direction < 6
    ensures Abs(n.0 - q) + Abs(n.1 - r) + Abs((n.0 - q) + (n.1 - r)) == 2
  {
    var d := if direction < 0 then direction + 6 else direction;
    (q + Dq(d), r + Dr(d))
  }

  /** Crossing side d and then the opposite side d + 3 leads back to the start cell. */
  lemma NeighborOpposite(q: int, r: int, d: int)
    requires 0 <= d < 6
    ensures var n := Neighbor(q, r, d); Neighbor(n.0, n.1, (d + 3) % 6) == (q, r)
  {
  }

  // ---------------------------------------------------------------------------
  // Geometry used as an independent reference for the normalisers

  /**
   * Three times the centre of corner k of cell (q, r): the sum of the coordinates of the
   * three cells meeting there (the cell itself and its neighbours across sides k - 1 and k).
   */
  function VertexPoint(t: Triple): (int, int)
    requires 0 <= t.k < 6
  {
    var before := (t.k + 5) % 6;
    (3 * t.q + Dq(before) + Dq(t.k), 3 * t.r + Dr(before) + Dr(t.k))
  }

  /** Twice the midpoint of side k of cell (q, r): the sum of the two cells it separates. */
  function EdgePoint(t: Triple): (int, int)
    requires 0 <= t.k < 6
  {
    (2 * t.q + Dq(t.k), 2 * t.r + Dr(t.k))
  }

  // ---------------------------------------------------------------------------
  // normalize_vertex

  /** The spellings normalize_vertex lists for corner c of cell (q, r). */
  function VertexIds(q: int, r: int, c: int): (ids: seq<Triple>)
    ensures ids != [] && ids[0] == Triple(q, r, c)
  {
    [Triple(q, r, c)] +
    if c == 0 then [Triple(q, r - 1, 2), Triple(q + 1, r - 1, 4)]
    else if c == 1 then [Triple(q + 1, r - 1, 3), Triple(q + 1, r, 5)]
    else if c == 2 then [Triple(q + 1, r, 4), Triple(q, r + 1, 0)]
    else if c == 3 then [Triple(q, r + 1, 5), Triple(q - 1, r + 1, 1)]
    else if c == 4 then [Triple(q - 1, r + 1, 0), Triple(q - 1, r, 2)]
    else if c == 5 then [Triple(q - 1, r, 1), Triple(q, r - 1, 3)]
    else []
  }

  /** normalize_vertex: the least of the spellings of corner c of cell (q, r). */
  function NormalizeVertex(q: int, r: int, c: int): Triple {
    Smallest(VertexIds(q, r, c))
  }

  /** The canonical spelling written out: corners 0, 2, 4 meet at a corner 2, corners 1, 3, 5 at a corner 1. */
  function CanonicalVertex(q: int, r: int, c: int): Triple {
    if c == 0 then Triple(q, r - 1, 2)
    else if c == 1 then Triple(q, r, 1)
    else if c == 2 then Triple(q, r, 2)
    else if c == 3 then Triple(q - 1, r + 1, 1)
    else if c == 4 then Triple(q - 1, r, 2)
    else if c == 5 then Triple(q - 1, r, 1)
    else Triple(q, r, c)
  }

  /** normalize_vertex agrees with the written-out canonical spelling for every input. */
  lemma NormalizeVertexClosedForm(q: int, r: int, c: int)
    ensures NormalizeVertex(q, r, c) == CanonicalVertex(q, r, c)
  {
    SmallestOf(VertexIds(q, r, c), CanonicalVertex(q, r, c));
  }

  /** A canonical vertex has corner 1 or 2; a corner outside 0..5 is returned unchanged. */
  lemma NormalizeVertexRange(q: int, r: int, c: int)
    ensures 0 <= c < 6 ==> NormalizeVertex(q, r, c).k in {1, 2}
    ensures !(0 <= c < 6) ==> NormalizeVertex(q, r, c) == Triple(q, r, c)
  {
    NormalizeVertexClosedForm(q, r, c);
  }

  /** normalize_vertex is idempotent. */
  lemma NormalizeVertexIdempotent(q: int, r: int, c: int)
    ensures var v := NormalizeVertex(q, r, c); NormalizeVertex(v.q, v.r, v.k) == v
  {
    var v := NormalizeVertex(q, r, c);
    NormalizeVertexClosedForm(q, r, c);
    NormalizeVertexClosedForm(v.q, v.r, v.k);
  }

  /** Every spelling in normalize_vertex's own table for a corner normalises to the same key. */
  lemma VertexIdsAgree(q: int, r: int, c: int)
    ensures forall t | t in VertexIds(q, r, c) :: NormalizeVertex(t.q, t.r, t.k) == NormalizeVertex(q, r, c)
  {
    NormalizeVertexClosedForm(q, r, c);
    forall t | t in VertexIds(q, r, c)
      ensures NormalizeVertex(t.q, t.r, t.k) == NormalizeVertex(q, r, c)
    {
      NormalizeVertexClosedForm(t.q, t.r, t.k);
    }
  }

  /** The canonical spelling names the same physical point as the input. */
  lemma CanonicalVertexSamePoint(t: Triple)
    requires 0 <= t.k < 6
    ensures var v := CanonicalVertex(t.q, t.r, t.k); 0 <= v.k < 6 && VertexPoint(v) == VertexPoint(t)
  {
  }

  /** Distinct canonical vertices (corner 1 or 2) are distinct points. */
  lemma CanonicalVertexPointInjective(a: Triple, b: Triple)
    requires a.k in {1, 2} && b.k in {1, 2}
    requires VertexPoint(a) == VertexPoint(b)
    ensures a == b
  {
  }

  /**
   * Two in-range spellings normalise to the same key exactly when they name the same
   * physical point: normalize_vertex identifies all aliases and nothing else.
   */
  lemma NormalizeVertexIdentifiesPoints(a: Triple, b: Triple)
    requires 0 <= a.k < 6 && 0 <= b.k < 6
    ensures NormalizeVertex(a.q, a.r, a.k) == NormalizeVertex(b.q, b.r, b.k) <==> VertexPoint(a) == VertexPoint(b)
  {
    NormalizeVertexClosedForm(a.q, a.r, a.k);
    NormalizeVertexClosedForm(b.q, b.r, b.k);
    CanonicalVertexSamePoint(a);
    CanonicalVertexSamePoint(b);
    var va, vb := CanonicalVertex(a.q, a.r, a.k), CanonicalVertex(b.q, b.r, b.k);
    if VertexPoint(a) == VertexPoint(b) {
      CanonicalVertexPointInjective(va, vb);
    }
  }

  // ---------------------------------------------------------------------------
  // normalize_edge

  /** The spellings normalize_edge lists for side e of cell (q, r). */
  function EdgeIds(q: int, r: int, e: int): (ids: seq<Triple>)
    ensures ids != [] && ids[0] == Triple(q, r, e)
  {
    [Triple(q, r, e)] +
    if e == 0 then [Triple(q + 1, r - 1, 3)]
    else if e == 1 then [Triple(q + 1, r, 4)]
    else if e == 2 then [Triple(q, r + 1, 5)]
    else if e == 3 then [Triple(q - 1, r + 1, 0)]
    else if e == 4 then [Triple(q - 1, r, 1)]
    else if e == 5 then [Triple(q, r - 1, 2)]
    else []
  }

  /** normalize_edge: the lesser of the two spellings of side e of cell (q, r). */
  function NormalizeEdge(q: int, r: int, e: int): Triple {
    Smallest(EdgeIds(q, r, e))
  }

  /** The canonical spelling of a side written out: sides 0, 1, 2 are their own key. */
  function CanonicalEdge(q: int, r: int, e: int): Triple {
    if e == 3 then Triple(q - 1, r + 1, 0)
    else if e == 4 then Triple(q - 1, r, 1)
    else if e == 5 then Triple(q, r - 1, 2)
    else Triple(q, r, e)
  }

  lemma NormalizeEdgeClosedForm(q: int, r: int, e: int)
    ensures NormalizeEdge(q, r, e) == CanonicalEdge(q, r, e)
  {
    SmallestOf(EdgeIds(q, r, e), CanonicalEdge(q, r, e));
  }

  /** A canonical side is 0, 1 or 2; a side outside 0..5 is returned unchanged. */
  lemma NormalizeEdgeRange(q: int, r: int, e: int)
    ensures 0 <= e < 6 ==> NormalizeEdge(q, r, e).k in {0, 1, 2}
    ensures !(0 <= e < 6) ==> NormalizeEdge(q, r, e) == Triple(q, r, e)
  {
    NormalizeEdgeClosedForm(q, r, e);
  }

  /** normalize_edge is idempotent. */
  lemma NormalizeEdgeIdempotent(q: int, r: int, e: int)
    ensures var n := NormalizeEdge(q, r, e); NormalizeEdge(n.q, n.r, n.k) == n
  {
    var n := NormalizeEdge(q, r, e);
    NormalizeEdgeClosedForm(q, r, e);
    NormalizeEdgeClosedForm(n.q, n.r, n.k);
  }

  /** Both spellings of a side normalise to the same key, e.g. side 0 of (q, r) and side 3 of (q + 1, r - 1). */
  lemma EdgeIdsAgree(q: int, r: int, e: int)
    ensures forall t | t in EdgeIds(q, r, e) :: NormalizeEdge(t.q, t.r, t.k) == NormalizeEdge(q, r, e)
  {
    NormalizeEdgeClosedForm(q, r, e);
    forall t | t in EdgeIds(q, r, e)
      ensures NormalizeEdge(t.q, t.r, t.k) == NormalizeEdge(q, r, e)
    {
      NormalizeEdgeClosedForm(t.q, t.r, t.k);
    }
  }

  /** The partner spelling of side e is side e + 3 of the neighbour across side e. */
  lemma NormalizeEdgeAcrossNeighbor(q: int, r: int, e: int)
    requires 0 <= e < 6
    ensures var n := Neighbor(q, r, e); NormalizeEdge(n.0, n.1, (e + 3) % 6) == NormalizeEdge(q, r, e)
  {
    var n := Neighbor(q, r, e);
    NormalizeEdgeClosedForm(q, r, e);
    NormalizeEdgeClosedForm(n.0, n.1, (e + 3) % 6);
  }

  /** Two in-range spellings normalise to the same key exactly when they name the same side. */
  lemma NormalizeEdgeIdentifiesSides(a: Triple, b: Triple)
    requires 0 <= a.k < 6 && 0 <= b.k < 6
    ensures NormalizeEdge(a.q, a.r, a.k) == NormalizeEdge(b.q, b.r, b.k) <==> EdgePoint(a) == EdgePoint(b)
  {
    NormalizeEdgeClosedForm(a.q, a.r, a.k);
    NormalizeEdgeClosedForm(b.q, b.r, b.k);
  }

  /**
   * build_road computes the second endpoint as normalize_vertex(nq, nr, ne + 1) without
   * `% 6`. For a canonical side (0, 1 or 2) the corner ne + 1 is 1, 2 or 3, so the missing
   * reduction changes nothing.
   */
  lemma RoadEndpointInRange(q: int, r: int, e: int)
    requires 0 <= e < 6
    ensures var n := NormalizeEdge(q, r, e);
      1 <= n.k + 1 <= 3 && NormalizeVertex(n.q, n.r, n.k + 1) == NormalizeVertex(n.q, n.r, (n.k + 1) % 6)
  {
    NormalizeEdgeRange(q, r, e);
  }

  // ---------------------------------------------------------------------------
  // get_vertex_aliases, get_incident_edges, get_adjacent_vertices

  /** get_vertex_aliases, with its own table (which differs from normalize_vertex's for corners 0, 2, 3, 4). */
  function VertexAliases(q: int, r: int, c: int): (ids: seq<Triple>)
    ensures ids != [] && ids[0] == Triple(q, r, c)
  {
    [Triple(q, r, c)] +
    if c == 0 then [Triple(q, r - 1, 4), Triple(q + 1, r - 1, 2)]
    else if c == 1 then [Triple(q + 1, r - 1, 3), Triple(q + 1, r, 5)]
    else if c == 2 then [Triple(q + 1, r, 0), Triple(q, r + 1, 4)]
    else if c == 3 then [Triple(q, r + 1, 1), Triple(q - 1, r + 1, 5)]
    else if c == 4 then [Triple(q - 1, r + 1, 2), Triple(q - 1, r, 0)]
    else if c == 5 then [Triple(q - 1, r, 1), Triple(q, r - 1, 3)]
    else []
  }

  /**
   * The two alias tables agree exactly for corners 1 and 5; for every other corner some
   * listed alias is a different physical point.
   */
  lemma AliasTablesAgreeOnlyAtCorners1And5(q: int, r: int, c: int)
    requires 0 <= c < 6
    ensures VertexAliases(q, r, c) == VertexIds(q, r, c) <==> c in {1, 5}
    ensures (forall a | a in VertexAliases(q, r, c) :: 0 <= a.k < 6 && VertexPoint(a) == VertexPoint(Triple(q, r, c)))
            <==> c in {1, 5}
  {
    if c == 1 || c == 5 {
      AliasesAgree(q, r, c);
    } else {
      AliasesDisagree(q, r, c);
    }
  }

  lemma AliasesAgree(q: int, r: int, c: int)
    requires c == 1 || c == 5
    ensures VertexAliases(q, r, c) == VertexIds(q, r, c)
    ensures forall a | a in VertexAliases(q, r, c) :: 0 <= a.k < 6 && VertexPoint(a) == VertexPoint(Triple(q, r, c))
  {
  }

  lemma AliasesDisagree(q: int, r: int, c: int)
    requires 0 <= c < 6 && c != 1 && c != 5
    ensures VertexAliases(q, r, c) != VertexIds(q, r, c)
    ensures VertexAliases(q, r, c)[1] in VertexAliases(q, r, c)
    ensures var a := VertexAliases(q, r, c)[1]; 0 <= a.k < 6 && VertexPoint(a) != VertexPoint(Triple(q, r, c))
  {
    assert VertexAliases(q, r, c)[1] != VertexIds(q, r, c)[1];
  }

  /** The two sides meeting corner a.k inside cell (a.q, a.r): sides a.k and a.k - 1, normalised. */
  function SidesAt(a: Triple): set<Triple> {
    {NormalizeEdge(a.q, a.r, a.k), NormalizeEdge(a.q, a.r, (a.k - 1) % 6)}
  }

  /** The union of SidesAt over a list of aliases. */
  function EdgesAt(aliases: seq<Triple>): set<Triple> {
    if aliases == [] then {} else SidesAt(aliases[0]) + EdgesAt(aliases[1..])
  }

  /** get_incident_edges: the union, over the aliases of the corner, of the sides meeting it. */
  function IncidentEdges(q: int, r: int, c: int): set<Triple> {
    EdgesAt(VertexAliases(q, r, c))
  }

  lemma SidesAtClosedForm(a: Triple)
    ensures SidesAt(a) == {CanonicalEdge(a.q, a.r, a.k), CanonicalEdge(a.q, a.r, (a.k - 1) % 6)}
  {
    NormalizeEdgeClosedForm(a.q, a.r, a.k);
    NormalizeEdgeClosedForm(a.q, a.r, (a.k - 1) % 6);
  }

  /** SidesAt of one alias, given its two sides written out. */
  lemma SidesAtIs(a: Triple, x: Triple, y: Triple)
    requires x == CanonicalEdge(a.q, a.r, a.k) && y == CanonicalEdge(a.q, a.r, (a.k - 1) % 6)
    ensures SidesAt(a) == {x, y}
  {
    SidesAtClosedForm(a);
  }

  /** The sides at a list of three aliases. */
  lemma EdgesAtThree(a0: Triple, a1: Triple, a2: Triple)
    ensures EdgesAt([a0, a1, a2]) == SidesAt(a0) + SidesAt(a1) + SidesAt(a2)
  {
    assert [a2][1..] == [];
    assert EdgesAt([a2]) == SidesAt(a2);
    assert [a1, a2][1..] == [a2];
    assert EdgesAt([a1, a2]) == SidesAt(a1) + SidesAt(a2);
    assert [a0, a1, a2][1..] == [a1, a2];
  }

  /** Every side SidesAt returns is a fixed point of normalize_edge. */
  lemma SidesAtCanonical(a: Triple)
    ensures forall e | e in SidesAt(a) :: NormalizeEdge(e.q, e.r, e.k) == e
  {
    NormalizeEdgeIdempotent(a.q, a.r, a.k);
    NormalizeEdgeIdempotent(a.q, a.r, (a.k - 1) % 6);
  }

  lemma {:induction false} EdgesAtCanonical(aliases: seq<Triple>)
    ensures forall e | e in EdgesAt(aliases) :: NormalizeEdge(e.q, e.r, e.k) == e
  {
    if aliases != [] {
      SidesAtCanonical(aliases[0]);
      EdgesAtCanonical(aliases[1..]);
    }
  }

  /** Every edge get_incident_edges returns is a fixed point of normalize_edge. */
  lemma IncidentEdgesCanonical(q: int, r: int, c: int)
    ensures forall e | e in IncidentEdges(q, r, c) :: NormalizeEdge(e.q, e.r, e.k) == e
  {
    EdgesAtCanonical(VertexAliases(q, r, c));
  }

  /** For corner 1 the incident edges are the three sides meeting there. */
  lemma IncidentEdgesCorner1(q: int, r: int)
    ensures IncidentEdges(q, r, 1) == {Triple(q, r, 0), Triple(q, r, 1), Triple(q + 1, r - 1, 2)}
    ensures |IncidentEdges(q, r, 1)| == 3
  {
    AliasesCorner1(q, r);
    SidesAtCorner1(q, r);
  }

  lemma AliasesCorner1(q: int, r: int)
    ensures IncidentEdges(q, r, 1) == SidesAt(Triple(q, r, 1)) + SidesAt(Triple(q + 1, r - 1, 3)) + SidesAt(Triple(q + 1, r, 5))
  {
    assert VertexAliases(q, r, 1) == [Triple(q, r, 1), Triple(q + 1, r - 1, 3), Triple(q + 1, r, 5)];
    EdgesAtThree(Triple(q, r, 1), Triple(q + 1, r - 1, 3), Triple(q + 1, r, 5));
  }

  lemma SidesAtCorner1(q: int, r: int)
    ensures SidesAt(Triple(q, r, 1)) == {Triple(q, r, 1), Triple(q, r, 0)}
    ensures SidesAt(Triple(q + 1, r - 1, 3)) == {Triple(q, r, 0), Triple(q + 1, r - 1, 2)}
    ensures SidesAt(Triple(q + 1, r, 5)) == {Triple(q + 1, r - 1, 2), Triple(q, r, 1)}
  {
    SidesAtIs(Triple(q, r, 1), Triple(q, r, 1), Triple(q, r, 0));
    SidesAtIs(Triple(q + 1, r - 1, 3), Triple(q, r, 0), Triple(q + 1, r - 1, 2));
    SidesAtIs(Triple(q + 1, r, 5), Triple(q + 1, r - 1, 2), Triple(q, r, 1));
  }

  /** Corner 5 of (q, r) is corner 1 of (q - 1, r), with the same aliases and so the same edges. */
  lemma IncidentEdgesCorner5(q: int, r: int)
    ensures IncidentEdges(q, r, 5) == IncidentEdges(q - 1, r, 1)
    ensures |IncidentEdges(q, r, 5)| == 3
  {
    AliasesCorner5(q, r);
    SidesAtCorner5(q, r);
    IncidentEdgesCorner1(q - 1, r);
  }

  lemma AliasesCorner5(q: int, r: int)
    ensures IncidentEdges(q, r, 5) == SidesAt(Triple(q, r, 5)) + SidesAt(Triple(q - 1, r, 1)) + SidesAt(Triple(q, r - 1, 3))
  {
    assert VertexAliases(q, r, 5) == [Triple(q, r, 5), Triple(q - 1, r, 1), Triple(q, r - 1, 3)];
    EdgesAtThree(Triple(q, r, 5), Triple(q - 1, r, 1), Triple(q, r - 1, 3));
  }

  lemma SidesAtCorner5(q: int, r: int)
    ensures SidesAt(Triple(q, r, 5)) == {Triple(q, r - 1, 2), Triple(q - 1, r, 1)}
    ensures SidesAt(Triple(q - 1, r, 1)) == {Triple(q - 1, r, 1), Triple(q - 1, r, 0)}
    ensures SidesAt(Triple(q, r - 1, 3)) == {Triple(q - 1, r, 0), Triple(q, r - 1, 2)}
  {
    SidesAtIs(Triple(q, r, 5), Triple(q, r - 1, 2), Triple(q - 1, r, 1));
    SidesAtIs(Triple(q - 1, r, 1), Triple(q - 1, r, 1), Triple(q - 1, r, 0));
    SidesAtIs(Triple(q, r - 1, 3), Triple(q - 1, r, 0), Triple(q, r - 1, 2));
  }

  /**
   * For corner 2 the alias table yields six edges. Two are the sides of (q, r) meeting the
   * corner; the third true side, side 0 of (q, r + 1), is missing.
   */
  lemma IncidentEdgesCorner2(q: int, r: int)
    ensures IncidentEdges(q, r, 2) ==
      {Triple(q, r, 2), Triple(q, r, 1), Triple(q + 1, r, 0), Triple(q + 1, r - 1, 2),
       Triple(q - 1, r + 1, 1), Triple(q - 1, r + 2, 0)}
    ensures Triple(q, r + 1, 0) !in IncidentEdges(q, r, 2)
  {
    AliasesCorner2(q, r);
    SidesAtCorner2(q, r);
  }

  lemma AliasesCorner2(q: int, r: int)
    ensures IncidentEdges(q, r, 2) == SidesAt(Triple(q, r, 2)) + SidesAt(Triple(q + 1, r, 0)) + SidesAt(Triple(q, r + 1, 4))
  {
    assert VertexAliases(q, r, 2) == [Triple(q, r, 2), Triple(q + 1, r, 0), Triple(q, r + 1, 4)];
    EdgesAtThree(Triple(q, r, 2), Triple(q + 1, r, 0), Triple(q, r + 1, 4));
  }

  lemma SidesAtCorner2(q: int, r: int)
    ensures SidesAt(Triple(q, r, 2)) == {Triple(q, r, 2), Triple(q, r, 1)}
    ensures SidesAt(Triple(q + 1, r, 0)) == {Triple(q + 1, r, 0), Triple(q + 1, r - 1, 2)}
    ensures SidesAt(Triple(q, r + 1, 4)) == {Triple(q - 1, r + 1, 1), Triple(q - 1, r + 2, 0)}
  {
    SidesAtIs(Triple(q, r, 2), Triple(q, r, 2), Triple(q, r, 1));
    SidesAtIs(Triple(q + 1, r, 0), Triple(q + 1, r, 0), Triple(q + 1, r - 1, 2));
    SidesAtIs(Triple(q, r + 1, 4), Triple(q - 1, r + 1, 1), Triple(q - 1, r + 2, 0));
  }

  lemma CardinalitySix(s: set<Triple>, q: int, r: int)
    requires s == {Triple(q, r, 2), Triple(q, r, 1), Triple(q + 1, r, 0), Triple(q + 1, r - 1, 2),
                   Triple(q - 1, r + 1, 1), Triple(q - 1, r + 2, 0)}
    ensures |s| == 6
  {
  }

  /** So a corner-2 vertex gets six incident edges, not three. */
  lemma IncidentEdgesCorner2Count(q: int, r: int)
    ensures |IncidentEdges(q, r, 2)| == 6
  {
    IncidentEdgesCorner2(q, r);
    CardinalitySix(IncidentEdges(q, r, 2), q, r);
  }

  /** Whether corner point p is one of the two endpoints of canonical side e. */
  predicate Touches(e: Triple, p: (int, int)) {
    0 <= e.k < 5 && (VertexPoint(Triple(e.q, e.r, e.k)) == p || VertexPoint(Triple(e.q, e.r, e.k + 1)) == p)
  }

  /** The three sides at corner 1 of (q, r) each have that corner as an endpoint. */
  lemma SidesTouchCorner1(q: int, r: int)
    ensures forall e | e in {Triple(q, r, 0), Triple(q, r, 1), Triple(q + 1, r - 1, 2)} :: Touches(e, VertexPoint(Triple(q, r, 1)))
  {
    var p := VertexPoint(Triple(q, r, 1));
    assert Touches(Triple(q, r, 0), p);
    assert Touches(Triple(q, r, 1), p);
    assert Touches(Triple(q + 1, r - 1, 2), p);
  }

  /** For corners 1 and 5 every incident edge has the corner's physical point as one of its endpoints. */
  lemma IncidentEdgesTouchCorner(q: int, r: int, c: int)
    requires c in {1, 5}
    ensures forall e | e in IncidentEdges(q, r, c) :: Touches(e, VertexPoint(Triple(q, r, c)))
  {
    var q1 := if c == 1 then q else q - 1;
    IncidentEdgesCorner1(q1, r);
    if c == 5 {
      IncidentEdgesCorner5(q, r);
    }
    assert VertexPoint(Triple(q, r, c)) == VertexPoint(Triple(q1, r, 1));
    SidesTouchCorner1(q1, r);
  }

  /** The endpoint of edge e that is not `start` (the body of get_adjacent_vertices' loop). */
  function OtherEnd(e: Triple, start: Triple): Triple {
    var v1 := NormalizeVertex(e.q, e.r, e.k);
    if v1 == start then NormalizeVertex(e.q, e.r, (e.k + 1) % 6) else v1
  }

  /** The far endpoints of a set of edges, seen from `start`. */
  function Ends(edges: set<Triple>, start: Triple): set<Triple> {
    set e | e in edges :: OtherEnd(e, start)
  }

  /** get_adjacent_vertices (the definition at line 440). */
  function AdjacentVertices(q: int, r: int, c: int): set<Triple> {
    Ends(IncidentEdges(q, r, c), NormalizeVertex(q, r, c))
  }

  lemma OtherEndClosedForm(e: Triple, start: Triple)
    ensures OtherEnd(e, start) ==
      var v1 := CanonicalVertex(e.q, e.r, e.k);
      if v1 == start then CanonicalVertex(e.q, e.r, (e.k + 1) % 6) else v1
  {
    NormalizeVertexClosedForm(e.q, e.r, e.k);
    NormalizeVertexClosedForm(e.q, e.r, (e.k + 1) % 6);
  }

  /** OtherEnd of one edge, given the answer written out. */
  lemma OtherEndIs(e: Triple, start: Triple, v: Triple)
    requires v == (var v1 := CanonicalVertex(e.q, e.r, e.k);
                   if v1 == start then CanonicalVertex(e.q, e.r, (e.k + 1) % 6) else v1)
    ensures OtherEnd(e, start) == v
  {
    OtherEndClosedForm(e, start);
  }

  lemma EndsOfThree(x: Triple, y: Triple, z: Triple, start: Triple)
    ensures Ends({x, y, z}, start) == {OtherEnd(x, start), OtherEnd(y, start), OtherEnd(z, start)}
  {
  }

  lemma EndsOfSix(e0: Triple, e1: Triple, e2: Triple, e3: Triple, e4: Triple, e5: Triple, start: Triple)
    ensures Ends({e0, e1, e2, e3, e4, e5}, start)
         == Ends({e0, e1, e2}, start) + Ends({e3, e4, e5}, start)
  {
    assert {e0, e1, e2, e3, e4, e5} == {e0, e1, e2} + {e3, e4, e5};
  }

  /** Every vertex get_adjacent_vertices returns is a fixed point of normalize_vertex. */
  lemma AdjacentVerticesCanonical(q: int, r: int, c: int)
    ensures forall v | v in AdjacentVertices(q, r, c) :: NormalizeVertex(v.q, v.r, v.k) == v
  {
    var start := NormalizeVertex(q, r, c);
    forall v | v in AdjacentVertices(q, r, c)
      ensures NormalizeVertex(v.q, v.r, v.k) == v
    {
      var e :| e in IncidentEdges(q, r, c) && v == OtherEnd(e, start);
      NormalizeVertexIdempotent(e.q, e.r, e.k);
      NormalizeVertexIdempotent(e.q, e.r, (e.k + 1) % 6);
    }
  }

  lemma EndsAtCorner1(q: int, r: int)
    ensures Ends({Triple(q, r, 0), Triple(q, r, 1), Triple(q + 1, r - 1, 2)}, Triple(q, r, 1))
         == {Triple(q, r - 1, 2), Triple(q, r, 2), Triple(q + 1, r - 1, 2)}
  {
    var start := Triple(q, r, 1);
    EndsOfThree(Triple(q, r, 0), Triple(q, r, 1), Triple(q + 1, r - 1, 2), start);
    OtherEndIs(Triple(q, r, 0), start, Triple(q, r - 1, 2));
    OtherEndIs(Triple(q, r, 1), start, Triple(q, r, 2));
    OtherEndIs(Triple(q + 1, r - 1, 2), start, Triple(q + 1, r - 1, 2));
  }

  /** For corner 1: three distinct neighbours, all corner-2 keys, none the start vertex. */
  lemma AdjacentVerticesCorner1(q: int, r: int)
    ensures AdjacentVertices(q, r, 1) == {Triple(q, r - 1, 2), Triple(q, r, 2), Triple(q + 1, r - 1, 2)}
    ensures |AdjacentVertices(q, r, 1)| == 3
    ensures NormalizeVertex(q, r, 1) !in AdjacentVertices(q, r, 1)
  {
    AdjacentVerticesUnfold(q, r, 1);
    NormalizeVertexClosedForm(q, r, 1);
    IncidentEdgesCorner1(q, r);
    EndsAtCorner1(q, r);
  }

  /** Corner 5 of (q, r) has the neighbours of corner 1 of (q - 1, r). */
  lemma AdjacentVerticesCorner5(q: int, r: int)
    ensures AdjacentVertices(q, r, 5) == AdjacentVertices(q - 1, r, 1)
    ensures |AdjacentVertices(q, r, 5)| == 3
    ensures NormalizeVertex(q, r, 5) !in AdjacentVertices(q, r, 5)
  {
    AdjacentVerticesUnfold(q, r, 5);
    AdjacentVerticesUnfold(q - 1, r, 1);
    IncidentEdgesCorner5(q, r);
    SameCorner5And1(q, r);
    AdjacentVerticesCorner1(q - 1, r);
  }

  /** Corner 5 of (q, r) and corner 1 of (q - 1, r) are one corner. */
  lemma SameCorner5And1(q: int, r: int)
    ensures NormalizeVertex(q, r, 5) == NormalizeVertex(q - 1, r, 1)
  {
    NormalizeVertexClosedForm(q, r, 5);
    NormalizeVertexClosedForm(q - 1, r, 1);
  }

  lemma EndsAtCorner2First(q: int, r: int)
    ensures Ends({Triple(q, r, 2), Triple(q, r, 1), Triple(q + 1, r, 0)}, Triple(q, r, 2))
         == {Triple(q - 1, r + 1, 1), Triple(q, r, 1), Triple(q + 1, r - 1, 2)}
  {
    var start := Triple(q, r, 2);
    EndsOfThree(Triple(q, r, 2), Triple(q, r, 1), Triple(q + 1, r, 0), start);
    OtherEndIs(Triple(q, r, 2), start, Triple(q - 1, r + 1, 1));
    OtherEndIs(Triple(q, r, 1), start, Triple(q, r, 1));
    OtherEndIs(Triple(q + 1, r, 0), start, Triple(q + 1, r - 1, 2));
  }

  lemma EndsAtCorner2Second(q: int, r: int)
    ensures Ends({Triple(q + 1, r - 1, 2), Triple(q - 1, r + 1, 1), Triple(q - 1, r + 2, 0)}, Triple(q, r, 2))
         == {Triple(q + 1, r - 1, 2), Triple(q - 1, r + 1, 1), Triple(q - 1, r + 1, 2)}
  {
    var start := Triple(q, r, 2);
    EndsOfThree(Triple(q + 1, r - 1, 2), Triple(q - 1, r + 1, 1), Triple(q - 1, r + 2, 0), start);
    OtherEndIs(Triple(q + 1, r - 1, 2), start, Triple(q + 1, r - 1, 2));
    OtherEndIs(Triple(q - 1, r + 1, 1), start, Triple(q - 1, r + 1, 1));
    OtherEndIs(Triple(q - 1, r + 2, 0), start, Triple(q - 1, r + 1, 2));
  }

  /**
   * For corner 2 the result has four vertices; the true neighbour corner 1 of (q, r + 1) is
   * missing and two vertices that are not neighbours are included.
   */
  lemma AdjacentVerticesCorner2(q: int, r: int)
    ensures AdjacentVertices(q, r, 2) ==
      {Triple(q - 1, r + 1, 1), Triple(q, r, 1), Triple(q + 1, r - 1, 2), Triple(q - 1, r + 1, 2)}
    ensures Triple(q, r + 1, 1) !in AdjacentVertices(q, r, 2)
  {
    var edges := IncidentEdges(q, r, 2);
    var start := NormalizeVertex(q, r, 2);
    AdjacentVerticesUnfold(q, r, 2);
    NormalizeVertexClosedForm(q, r, 2);
    IncidentEdgesCorner2(q, r);
    EndsAtCorner2(q, r);
    assert AdjacentVertices(q, r, 2) == Ends(edges, start);
  }

  lemma EndsAtCorner2(q: int, r: int)
    ensures Ends({Triple(q, r, 2), Triple(q, r, 1), Triple(q + 1, r, 0), Triple(q + 1, r - 1, 2),
                  Triple(q - 1, r + 1, 1), Triple(q - 1, r + 2, 0)}, Triple(q, r, 2))
         == {Triple(q - 1, r + 1, 1), Triple(q, r, 1), Triple(q + 1, r - 1, 2), Triple(q - 1, r + 1, 2)}
  {
    EndsOfSix(Triple(q, r, 2), Triple(q, r, 1), Triple(q + 1, r, 0),
              Triple(q + 1, r - 1, 2), Triple(q - 1, r + 1, 1), Triple(q - 1, r + 2, 0), Triple(q, r, 2));
    EndsAtCorner2First(q, r);
    EndsAtCorner2Second(q, r);
  }

  /** AdjacentVertices is Ends of the incident edges seen from the normalised corner. */
  lemma AdjacentVerticesUnfold(q: int, r: int, c: int)
    ensures AdjacentVertices(q, r, c) == Ends(IncidentEdges(q, r, c), NormalizeVertex(q, r, c))
  {
  }

  lemma CardinalityFour(s: set<Triple>, q: int, r: int)
    requires s == {Triple(q - 1, r + 1, 1), Triple(q, r, 1), Triple(q + 1, r - 1, 2), Triple(q - 1, r + 1, 2)}
    ensures |s| == 4
  {
  }

  /** So a corner-2 vertex gets four neighbours, not three. */
  lemma AdjacentVerticesCorner2Count(q: int, r: int)
    ensures |AdjacentVertices(q, r, 2)| == 4
  {
    AdjacentVerticesCorner2(q, r);
    CardinalityFour(AdjacentVertices(q, r, 2), q, r);
  }

  /**
   * Adjacency as computed is not symmetric: corner 1 of (q, r + 1) lists corner 2 of (q, r)
   * among its neighbours, but corner 2 of (q, r) does not list corner 1 of (q, r + 1).
   */
  lemma AdjacencyNotSymmetric(q: int, r: int)
    ensures Triple(q, r, 2) in AdjacentVertices(q, r + 1, 1)
    ensures Triple(q, r + 1, 1) !in AdjacentVertices(q, r, 2)
  {
    AdjacentVerticesCorner1(q, r + 1);
    AdjacentVerticesCorner2(q, r);
  }
}
