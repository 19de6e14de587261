/**
 * The client's copy of the canonicalisers (frontend/src/utils/coords.ts).
 *
 * normalizeVertex and normalizeEdge build a two- or three-element array of spellings,
 * sort it with a comparator on (q, r, c) and return the first element together with its
 * string id "q,r,c". The model keeps its own tables and comparator and proves that they
 * agree with the backend's normalisers, and that the id identifies the canonical triple.
 */
module Coords {
  import Topology

  type Triple = Topology.Triple

  datatype UnifiedVertexId = UnifiedVertexId(q: int, r: int, c: int, id: string)

  datatype UnifiedEdgeId = UnifiedEdgeId(q: int, r: int, e: int, id: string)

  // ---------------------------------------------------------------------------
  // The sort

  /** The comparator passed to `ids.sort`: negative when `a` sorts before `b`. */
  function Compare(a: Triple, b: Triple): int {
    if a.q != b.q then a.q - b.q
    else if a.r != b.r then a.r - b.r
    else a.k - b.k
  }

  /** The comparator orders triples as Python orders tuples. */
  lemma CompareIsTupleOrder(a: Triple, b: Triple)
    ensures Compare(a, b) <= 0 <==> Topology.Le(a, b)
  {
  }

  /** `ids[0]` after sorting: an element that no other element sorts before. */
  function First(ids: seq<Triple>): (m: Triple)
    requires ids != []
    ensures m in ids
    ensures forall x | x in ids :: Compare(m, x) <= 0
  {
    if |ids| == 1 then ids[0]
    else
      var rest := First(ids[1..]);
      assert forall x | x in ids :: x == ids[0] || x in ids[1..];
      if Compare(ids[0], rest) <= 0 then ids[0] else rest
  }

  /** The client's sort picks the same element as the backend's sort. */
  lemma FirstIsSmallest(ids: seq<Triple>)
    requires ids != []
    ensures First(ids) == Topology.Smallest(ids)
  {
    var m := First(ids);
    forall x | x in ids
      ensures Topology.Le(m, x)
    {
      CompareIsTupleOrder(m, x);
    }
    Topology.SmallestOf(ids, m);
  }

  // ---------------------------------------------------------------------------
  // The string id

  function DigitChar(d: int): char
    requires 0 <= d < 10
  {
    "0123456789"[d]
  }

  /** `${n}` for a non-negative integer. */
  function NatToString(n: nat): string
    decreases n
  {
    if n < 10 then [DigitChar(n)] else NatToString(n / 10) + [DigitChar(n % 10)]
  }

  /** `${n}` for an integer: a minus sign before the digits of a negative number. */
  function IntToString(n: int): string {
    if n < 0 then "-" + NatToString(-n) else NatToString(n)
  }

  /** The id template `${q},${r},${c}`. */
  function IdOf(q: int, r: int, k: int): string {
    IntToString(q) + "," + IntToString(r) + "," + IntToString(k)
  }

  predicate IsDigit(ch: char) {
    '0' <= ch <= '9'
  }

  /** The value of a string of decimal digits (used only to show that ids can be read back). */
  function ParseNat(s: string): int
    decreases |s|
  {
    if s == [] then 0 else ParseNat(s[..|s| - 1]) * 10 + (s[|s| - 1] as int - '0' as int)
  }

  function ParseInt(s: string): int {
    if s != [] && s[0] == '-' then -ParseNat(s[1..]) else ParseNat(s)
  }

  lemma {:induction false} NatToStringDigits(n: nat)
    ensures NatToString(n) != []
    ensures forall i | 0 <= i < |NatToString(n)| :: IsDigit(NatToString(n)[i])
    decreases n
  {
    if n >= 10 {
      NatToStringDigits(n / 10);
    }
  }

  lemma {:induction false} ParseNatToString(n: nat)
    ensures ParseNat(NatToString(n)) == n
    decreases n
  {
    if n >= 10 {
      var s := NatToString(n);
      assert s[..|s| - 1] == NatToString(n / 10);
      ParseNatToString(n / 10);
    }
  }

  lemma ParseNegative(n: int)
    requires n < 0
    ensures ParseInt(IntToString(n)) == n
  {
    var m: nat := -n;
    var digits := NatToString(m);
    ParseNatToString(m);
    assert IntToString(n) == "-" + digits;
    assert ("-" + digits)[1..] == digits;
  }

  lemma ParseNatural(n: int)
    requires n >= 0
    ensures ParseInt(IntToString(n)) == n
  {
    NatToStringDigits(n);
    ParseNatToString(n);
    assert IsDigit(NatToString(n)[0]);
  }

  /** Reading back the text of an integer gives the integer. */
  lemma ParseIntToString(n: int)
    ensures ParseInt(IntToString(n)) == n
  {
    if n < 0 {
      ParseNegative(n);
    } else {
      ParseNatural(n);
    }
  }

  /** The text of an integer contains no comma. */
  lemma IntToStringHasNoComma(n: int)
    ensures ',' !in IntToString(n)
  {
    NatToStringDigits(if n < 0 then -n else n);
  }

  /** Splitting at the first comma recovers both halves. */
  lemma SplitAtComma(a: string, b: string, a': string, b': string)
    requires ',' !in a && ',' !in a'
    requires a + "," + b == a' + "," + b'
    ensures a == a' && b == b'
  {
    var s := a + "," + b;
    assert forall i | 0 <= i < |a| :: s[i] == a[i];
    assert forall i | 0 <= i < |a'| :: s[i] == a'[i];
    assert s[|a|] == ',' && s[|a'|] == ',';
    assert |a| == |a'|;
    assert a == s[..|a|];
    assert a' == s[..|a'|];
    assert b == s[|a| + 1..];
    assert b' == s[|a'| + 1..];
  }

  /** An id is the first text, a comma, and the rest. */
  lemma IdOfSplit(q: int, r: int, k: int)
    ensures IdOf(q, r, k) == IntToString(q) + "," + (IntToString(r) + "," + IntToString(k))
  {
    var x, y, z := IntToString(q), IntToString(r), IntToString(k);
    assert x + "," + y + "," + z == x + "," + (y + "," + z);
  }

  /** Equal ids have equal texts in each of the three places. */
  lemma IdOfParts(q: int, r: int, k: int, q': int, r': int, k': int)
    requires IdOf(q, r, k) == IdOf(q', r', k')
    ensures IntToString(q) == IntToString(q')
    ensures IntToString(r) == IntToString(r')
    ensures IntToString(k) == IntToString(k')
  {
    IdOfSplit(q, r, k);
    IdOfSplit(q', r', k');
    IntToStringHasNoComma(q);
    IntToStringHasNoComma(q');
    SplitAtComma(IntToString(q), IntToString(r) + "," + IntToString(k), IntToString(q'), IntToString(r') + "," + IntToString(k'));
    IntToStringHasNoComma(r);
    IntToStringHasNoComma(r');
    SplitAtComma(IntToString(r), IntToString(k), IntToString(r'), IntToString(k'));
  }

  /** Two triples have the same id exactly when they are the same triple. */
  lemma IdOfInjective(q: int, r: int, k: int, q': int, r': int, k': int)
    ensures IdOf(q, r, k) == IdOf(q', r', k') <==> (q, r, k) == (q', r', k')
  {
    if IdOf(q, r, k) == IdOf(q', r', k') {
      IdOfParts(q, r, k, q', r', k');
      ParseIntToString(q);
      ParseIntToString(q');
      ParseIntToString(r);
      ParseIntToString(r');
      ParseIntToString(k);
      ParseIntToString(k');
    }
  }

  // ---------------------------------------------------------------------------
  // normalizeVertex and normalizeEdge

  /** The array normalizeVertex builds for corner c of cell (q, r). */
  function CornerIds(q: int, r: int, c: int): (ids: seq<Triple>)
    ensures ids != [] && ids[0] == Topology.Triple(q, r, c)
  {
    [Topology.Triple(q, r, c)] +
    if c == 0 then [Topology.Triple(q, r - 1, 2), Topology.Triple(q + 1, r - 1, 4)]
    else if c == 1 then [Topology.Triple(q + 1, r - 1, 3), Topology.Triple(q + 1, r, 5)]
    else if c == 2 then [Topology.Triple(q + 1, r, 4), Topology.Triple(q, r + 1, 0)]
    else if c == 3 then [Topology.Triple(q, r + 1, 5), Topology.Triple(q - 1, r + 1, 1)]
    else if c == 4 then [Topology.Triple(q - 1, r + 1, 0), Topology.Triple(q - 1, r, 2)]
    else if c == 5 then [Topology.Triple(q - 1, r, 1), Topology.Triple(q, r - 1, 3)]
    else []
  }

  /** The array normalizeEdge builds for side e of cell (q, r). */
  function SideIds(q: int, r: int, e: int): (ids: seq<Triple>)
    ensures ids != [] && ids[0] == Topology.Triple(q, r, e)
  {
    [Topology.Triple(q, r, e)] +
    if e == 0 then [Topology.Triple(q + 1, r - 1, 3)]
    else if e == 1 then [Topology.Triple(q + 1, r, 4)]
    else if e == 2 then [Topology.Triple(q, r + 1, 5)]
    else if e == 3 then [Topology.Triple(q - 1, r + 1, 0)]
    else if e == 4 then [Topology.Triple(q - 1, r, 1)]
    else if e == 5 then [Topology.Triple(q, r - 1, 2)]
    else []
  }

  /** normalizeVertex: the first spelling after sorting, with its id. */
  function NormalizeVertex(q: int, r: int, c: int): (u: UnifiedVertexId)
    ensures u.id == IdOf(u.q, u.r, u.c)
  {
    var t := First(CornerIds(q, r, c));
    UnifiedVertexId(t.q, t.r, t.k, IdOf(t.q, t.r, t.k))
  }

  /** normalizeEdge: the first spelling after sorting, with its id. */
  function NormalizeEdge(q: int, r: int, e: int): (u: UnifiedEdgeId)
    ensures u.id == IdOf(u.q, u.r, u.e)
  {
    var t := First(SideIds(q, r, e));
    UnifiedEdgeId(t.q, t.r, t.k, IdOf(t.q, t.r, t.k))
  }

  /** The client's tables are the backend's tables, corner by corner and side by side. */
  lemma TablesMatchBackend(q: int, r: int, k: int)
    ensures CornerIds(q, r, k) == Topology.VertexIds(q, r, k)
    ensures SideIds(q, r, k) == Topology.EdgeIds(q, r, k)
  {
  }

  /** normalizeVertex returns the triple the backend's normalize_vertex returns, for every integer input. */
  lemma NormalizeVertexMatchesBackend(q: int, r: int, c: int)
    ensures var u := NormalizeVertex(q, r, c); Topology.Triple(u.q, u.r, u.c) == Topology.NormalizeVertex(q, r, c)
  {
    TablesMatchBackend(q, r, c);
    FirstIsSmallest(CornerIds(q, r, c));
  }

  /** normalizeEdge returns the triple the backend's normalize_edge returns, for every integer input. */
  lemma NormalizeEdgeMatchesBackend(q: int, r: int, e: int)
    ensures var u := NormalizeEdge(q, r, e); Topology.Triple(u.q, u.r, u.e) == Topology.NormalizeEdge(q, r, e)
  {
    TablesMatchBackend(q, r, e);
    FirstIsSmallest(SideIds(q, r, e));
  }

  /**
   * normalizeVertex yields corner 1 or 2 for an in-range corner, returns any other corner
   * unchanged, and is idempotent (id included).
   */
  lemma NormalizeVertexCanonical(q: int, r: int, c: int)
    ensures var u := NormalizeVertex(q, r, c);
      (0 <= c < 6 ==> u.c in {1, 2}) &&
      (!(0 <= c < 6) ==> (u.q, u.r, u.c) == (q, r, c)) &&
      NormalizeVertex(u.q, u.r, u.c) == u
  {
    var u := NormalizeVertex(q, r, c);
    NormalizeVertexMatchesBackend(q, r, c);
    NormalizeVertexMatchesBackend(u.q, u.r, u.c);
    Topology.NormalizeVertexRange(q, r, c);
    Topology.NormalizeVertexIdempotent(q, r, c);
  }

  /**
   * normalizeEdge yields side 0, 1 or 2 for an in-range side, is idempotent, and both
   * spellings of a side give the same result.
   */
  lemma NormalizeEdgeCanonical(q: int, r: int, e: int)
    ensures var u := NormalizeEdge(q, r, e);
      (0 <= e < 6 ==> u.e in {0, 1, 2}) &&
      NormalizeEdge(u.q, u.r, u.e) == u &&
      forall t | t in SideIds(q, r, e) :: NormalizeEdge(t.q, t.r, t.k) == u
  {
    var u := NormalizeEdge(q, r, e);
    NormalizeEdgeMatchesBackend(q, r, e);
    NormalizeEdgeMatchesBackend(u.q, u.r, u.e);
    Topology.NormalizeEdgeRange(q, r, e);
    Topology.NormalizeEdgeIdempotent(q, r, e);
    TablesMatchBackend(q, r, e);
    Topology.EdgeIdsAgree(q, r, e);
    forall t | t in SideIds(q, r, e)
      ensures NormalizeEdge(t.q, t.r, t.k) == u
    {
      NormalizeEdgeMatchesBackend(t.q, t.r, t.k);
    }
  }

  /** Two corners get the same id exactly when they normalise to the same triple. */
  lemma VertexIdIdentifiesCanonical(q: int, r: int, c: int, q': int, r': int, c': int)
    ensures NormalizeVertex(q, r, c).id == NormalizeVertex(q', r', c').id
       <==> Topology.NormalizeVertex(q, r, c) == Topology.NormalizeVertex(q', r', c')
  {
    var u, u' := NormalizeVertex(q, r, c), NormalizeVertex(q', r', c');
    NormalizeVertexMatchesBackend(q, r, c);
    NormalizeVertexMatchesBackend(q', r', c');
    IdOfInjective(u.q, u.r, u.c, u'.q, u'.r, u'.c);
  }

  /** Two sides get the same id exactly when they normalise to the same triple. */
  lemma EdgeIdIdentifiesCanonical(q: int, r: int, e: int, q': int, r': int, e': int)
    ensures NormalizeEdge(q, r, e).id == NormalizeEdge(q', r', e').id
       <==> Topology.NormalizeEdge(q, r, e) == Topology.NormalizeEdge(q', r', e')
  {
    var u, u' := NormalizeEdge(q, r, e), NormalizeEdge(q', r', e');
    NormalizeEdgeMatchesBackend(q, r, e);
    NormalizeEdgeMatchesBackend(q', r', e');
    IdOfInjective(u.q, u.r, u.e, u'.q, u'.r, u'.e);
  }
}
