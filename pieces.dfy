/** The catalogue of piece rules. Each rule maps a square to the squares the
    piece may move to, ignoring every other piece on the board. */
module Pieces {
  import opened Geometry
  import opened VectorSeqs
  import opened Rays

  /** The kinds of piece; the source gives each its own class. */
  datatype Kind = King | Rook | Knight | Bishop | Queen | Pawn

  /** The one-letter identifier of each kind. */
  function Id(kind: Kind): char
  {
    match kind
    case King => 'k'
    case Rook => 'r'
    case Knight => 'n'
    case Bishop => 'b'
    case Queen => 'q'
    case Pawn => 'p'
  }

  /** Each kind has its own identifier. */
  lemma IdDistinct(a: Kind, b: Kind)
    ensures Id(a) == Id(b) <==> a == b
  {
  }

  /** The catalogue offered to a game: a king and a rook. */
  const PieceTypes: seq<Kind> := [King, Rook]

  /** The catalogue holds one piece of each of the kinds 'k' and 'r', and no
      other. */
  lemma PieceTypesCatalogue()
    ensures |PieceTypes| == 2 && PieceTypes[0] != PieceTypes[1]
    ensures forall kind :: kind in PieceTypes <==> Id(kind) == 'k' || Id(kind) == 'r'
  {
  }

  function KingMoves(from: Vector): seq<Vector>
  {
    SymmetricRays(from, 1, 1, Finite(1)) + SymmetricRays(from, 1, 0, Finite(1))
  }

  function RookMoves(from: Vector): seq<Vector>
  {
    SymmetricRays(from, 1, 0, Unbounded)
  }

  function KnightMoves(from: Vector): seq<Vector>
  {
    SymmetricRays(from, 2, 1, Finite(1))
  }

  function BishopMoves(from: Vector): seq<Vector>
  {
    SymmetricRays(from, 1, 1, Unbounded)
  }

  function QueenMoves(from: Vector): seq<Vector>
  {
    BishopMoves(from) + RookMoves(from)
  }

  /** One square forward (towards y = 0), and a second one from rank 6. Not
      checked against the board. */
  function PawnMoves(from: Vector): seq<Vector>
  {
    [from.Add(0, -1)] + (if from.y == 6 then [from.Add(0, -2)] else [])
  }

  /** `p.moves(from)` for a piece of kind `kind`. */
  function Moves(kind: Kind, from: Vector): seq<Vector>
  {
    match kind
    case King => KingMoves(from)
    case Rook => RookMoves(from)
    case Knight => KnightMoves(from)
    case Bishop => BishopMoves(from)
    case Queen => QueenMoves(from)
    case Pawn => PawnMoves(from)
  }

  // ---------------------------------------------------------------------------
  // Single-step pieces

  /** The squares one displacement of each of `cs` away from `from`. */
  function Offsets(from: Vector, cs: seq<(int, int)>): (r: seq<Vector>)
    ensures |r| == |cs|
    ensures forall i :: 0 <= i < |cs| ==> r[i] == from.Add(cs[i].0, cs[i].1)
  {
    if cs == [] then [] else Offsets(from, cs[..|cs| - 1]) + [from.Add(cs[|cs| - 1].0, cs[|cs| - 1].1)]
  }

  /** Rays of length one are just the displaced squares. */
  lemma {:induction false} RaysOfOne(from: Vector, cs: seq<(int, int)>)
    ensures AllRays(from, cs, Finite(1)) == Offsets(from, cs)
  {
    if cs != [] {
      RaysOfOne(from, cs[..|cs| - 1]);
      RayOfOne(from, cs[|cs| - 1].0, cs[|cs| - 1].1);
    }
  }

  /** The diagonal neighbours in the order `Combinations(1, 1)` lists them. */
  lemma DiagonalOffsets(from: Vector)
    ensures var diagonal := [from.Add(1, 1), from.Add(1, -1), from.Add(-1, 1), from.Add(-1, -1)];
      Offsets(from, Combinations(1, 1)) == diagonal + diagonal
  {
    var o := Offsets(from, Combinations(1, 1));
    var diagonal := [from.Add(1, 1), from.Add(1, -1), from.Add(-1, 1), from.Add(-1, -1)];
    assert |o| == |diagonal + diagonal|;
    forall i | 0 <= i < 8
      ensures o[i] == (diagonal + diagonal)[i]
    {
    }
  }

  /** The orthogonal neighbours in the order `Combinations(1, 0)` lists them,
      each twice since 0 and -0 coincide. */
  lemma OrthogonalOffsets(from: Vector)
    ensures var e, w, n, s := from.Add(1, 0), from.Add(-1, 0), from.Add(0, 1), from.Add(0, -1);
      Offsets(from, Combinations(1, 0)) == [e, e, w, w, n, s] + [n, s]
  {
    var o := Offsets(from, Combinations(1, 0));
    var e, w, n, s := from.Add(1, 0), from.Add(-1, 0), from.Add(0, 1), from.Add(0, -1);
    var expected := [e, e, w, w, n, s] + [n, s];
    assert |o| == |expected|;
    forall i | 0 <= i < 8
      ensures o[i] == expected[i]
    {
    }
  }

  /** Removing duplicates from the first six orthogonal offsets. */
  lemma UniqueOrthogonalPrefix(e: Vector, w: Vector, n: Vector, s: Vector)
    requires e != w && e != n && e != s && w != n && w != s && n != s
    ensures Unique([e, e, w, w, n, s]) == [e, w, n, s]
  {
    var s4, s5 := [e, e, w, w], [e, e, w, w, n];
    UniqueStuttered(e, w);
    UniqueSnocAbsent(s4, n, [e, w]);
    assert s4 + [n] == s5;
    UniqueSnocAbsent(s5, s, [e, w, n]);
    assert s5 + [s] == [e, e, w, w, n, s];
  }

  /** Removing duplicates from two vectors given twice each. */
  lemma UniqueStuttered(e: Vector, w: Vector)
    requires e != w
    ensures Unique([e, e, w, w]) == [e, w]
  {
    UniqueSnocTwice([], e, []);
    assert [] + [e, e] == [e, e];
    UniqueSnocTwice([e, e], w, [e]);
    assert [e, e] + [w, w] == [e, e, w, w];
  }

  /** The diagonal single steps, in the order the source produces them. */
  function DiagonalNeighbours(from: Vector): seq<Vector>
  {
    [from.Add(1, 1), from.Add(1, -1), from.Add(-1, 1), from.Add(-1, -1)]
  }

  /** The orthogonal single steps, in the order the source produces them. */
  function OrthogonalNeighbours(from: Vector): seq<Vector>
  {
    [from.Add(1, 0), from.Add(-1, 0), from.Add(0, 1), from.Add(0, -1)]
  }

  lemma KingDiagonalRays(from: Vector)
    ensures SymmetricRays(from, 1, 1, Finite(1)) == DiagonalNeighbours(from)
  {
    RaysOfOne(from, Combinations(1, 1));
    var diagonal := DiagonalNeighbours(from);
    DiagonalOffsets(from);
    UniqueAbsorbs(diagonal, diagonal);
    UniqueOfNoDup(diagonal);
  }

  lemma KingOrthogonalRays(from: Vector)
    ensures SymmetricRays(from, 1, 0, Finite(1)) == OrthogonalNeighbours(from)
  {
    RaysOfOne(from, Combinations(1, 0));
    OrthogonalOffsets(from);
    var e, w, n, s := from.Add(1, 0), from.Add(-1, 0), from.Add(0, 1), from.Add(0, -1);
    UniqueOrthogonalPrefix(e, w, n, s);
    UniqueAbsorbs([e, e, w, w, n, s], [n, s]);
  }

  /** The king's moves, in the order the source produces them: the four
      diagonal neighbours, then the four orthogonal ones. */
  lemma KingMovesList(from: Vector)
    ensures KingMoves(from) == Neighbours(from)
  {
    KingDiagonalRays(from);
    KingOrthogonalRays(from);
  }

  /** The eight neighbours of `from`, in the king's order. */
  function Neighbours(from: Vector): seq<Vector>
  {
    DiagonalNeighbours(from) + OrthogonalNeighbours(from)
  }

  lemma NeighboursAround(from: Vector)
    ensures NoDup(Neighbours(from))
    ensures forall v :: v in Neighbours(from) <==>
      v != from && Abs(v.x - from.x) <= 1 && Abs(v.y - from.y) <= 1
  {
  }

  /** The king always has exactly eight distinct moves, its eight neighbours,
      whether or not they are on the board. */
  lemma KingNeighbours(from: Vector)
    ensures |KingMoves(from)| == 8 && NoDup(KingMoves(from))
    ensures forall v :: v in KingMoves(from) <==>
      v != from && Abs(v.x - from.x) <= 1 && Abs(v.y - from.y) <= 1
  {
    KingMovesList(from);
    NeighboursAround(from);
  }

  /** One square is a king move from another exactly when they are neighbours. */
  lemma KingAdjacent(from: Vector, v: Vector)
    ensures v in KingMoves(from) <==> v != from && Abs(v.x - from.x) <= 1 && Abs(v.y - from.y) <= 1
  {
    KingNeighbours(from);
  }

  /** The eight L-shaped offsets of `from`, in the knight's order. */
  function LShapes(from: Vector): seq<Vector>
  {
    [from.Add(2, 1), from.Add(2, -1), from.Add(-2, 1), from.Add(-2, -1),
     from.Add(1, 2), from.Add(1, -2), from.Add(-1, 2), from.Add(-1, -2)]
  }

  lemma LShapesAround(from: Vector)
    ensures NoDup(LShapes(from))
    ensures forall v :: v in LShapes(from) <==>
      || (Abs(v.x - from.x) == 1 && Abs(v.y - from.y) == 2)
      || (Abs(v.x - from.x) == 2 && Abs(v.y - from.y) == 1)
  {
  }

  /** The L-shaped offsets in the order `Combinations(2, 1)` lists them. */
  lemma KnightOffsetsInOrder(from: Vector)
    ensures Offsets(from, Combinations(2, 1)) == LShapes(from)
  {
    var o := Offsets(from, Combinations(2, 1));
    var expected := LShapes(from);
    assert |o| == |expected|;
    forall i | 0 <= i < 8
      ensures o[i] == expected[i]
    {
    }
  }

  /** The knight's moves, in the order the source produces them. */
  lemma KnightMovesList(from: Vector)
    ensures KnightMoves(from) == LShapes(from)
  {
    RaysOfOne(from, Combinations(2, 1));
    KnightOffsetsInOrder(from);
    LShapesAround(from);
    UniqueOfNoDup(LShapes(from));
  }

  /** The knight always has exactly eight distinct moves, its eight L-shaped
      offsets, whether or not they are on the board. */
  lemma KnightOffsets(from: Vector)
    ensures |KnightMoves(from)| == 8 && NoDup(KnightMoves(from))
    ensures forall v :: v in KnightMoves(from) <==>
      || (Abs(v.x - from.x) == 1 && Abs(v.y - from.y) == 2)
      || (Abs(v.x - from.x) == 2 && Abs(v.y - from.y) == 1)
  {
    KnightMovesList(from);
    LShapesAround(from);
  }

  /** The pawn moves one square towards y = 0, and a second square exactly when
      it stands on rank 6, wherever that leads. */
  lemma PawnForward(from: Vector)
    ensures var m := PawnMoves(from);
      && |m| == (if from.y == 6 then 2 else 1)
      && m[0] == Vector(from.x, from.y - 1)
      && NoDup(m)
      && forall v :: v in m <==> v == Vector(from.x, from.y - 1) || (from.y == 6 && v == Vector(from.x, 4))
  {
  }

  // ---------------------------------------------------------------------------
  // Sliding pieces

  /** Every square of an unbounded symmetric ray family is some number `k` of
      steps along one of its directions `c`, and beyond the first step it is on
      the board. */
  lemma SlidingOnLine(from: Vector, dx: int, dy: int, v: Vector) returns (c: (int, int), k: int)
    requires dx != 0 || dy != 0
    requires v in SymmetricRays(from, dx, dy, Unbounded)
    ensures c in Combinations(dx, dy) && 1 <= k && v == Along(from, c.0, c.1, k)
    ensures k == 1 || InBounds(v)
  {
    SymmetricRaysUnion(from, dx, dy, Unbounded);
    c :| c in Combinations(dx, dy) && v in Ray(from, c.0, c.1, Unbounded);
    RayMember(from, c.0, c.1, Unbounded, v);
    k :| 1 <= k && v == Along(from, c.0, c.1, k);
    UnboundedRayMember(from, c.0, c.1, k);
  }

  /** From a board square, an unbounded symmetric ray family reaches every
      square along its directions that is on the board, and the first step in
      each direction even when it is off the board. */
  lemma SlidingReach(from: Vector, dx: int, dy: int, c: (int, int), k: int)
    requires dx != 0 || dy != 0
    requires InBounds(from)
    requires c in Combinations(dx, dy) && 1 <= k
    requires k == 1 || InBounds(Along(from, c.0, c.1, k))
    ensures Along(from, c.0, c.1, k) in SymmetricRays(from, dx, dy, Unbounded)
  {
    if k >= 2 {
      assert Along(from, c.0, c.1, 0) == from;
      BoardConvex(from, c.0, c.1, 0, 2, k);
    }
    UnboundedRayMember(from, c.0, c.1, k);
    SymmetricRaysUnion(from, dx, dy, Unbounded);
  }

  /** `k` unit steps change each coordinate by `k`, `-k` or nothing. */
  lemma AlongUnit(from: Vector, a: int, b: int, k: int)
    requires -1 <= a <= 1 && -1 <= b <= 1
    ensures Along(from, a, b, k).x - from.x == (if a == 1 then k else if a == -1 then -k else 0)
    ensures Along(from, a, b, k).y - from.y == (if b == 1 then k else if b == -1 then -k else 0)
  {
  }

  /** Every rook move changes exactly one coordinate. */
  lemma RookLines(from: Vector, v: Vector)
    requires v in RookMoves(from)
    ensures v != from && (v.x == from.x || v.y == from.y)
  {
    var c, k := SlidingOnLine(from, 1, 0, v);
    CombinationsMember(1, 0, c);
    AlongUnit(from, c.0, c.1, k);
  }

  /** Every bishop move changes both coordinates by the same amount. */
  lemma BishopDiagonals(from: Vector, v: Vector)
    requires v in BishopMoves(from)
    ensures v.x != from.x && Abs(v.x - from.x) == Abs(v.y - from.y)
  {
    var c, k := SlidingOnLine(from, 1, 1, v);
    CombinationsMember(1, 1, c);
    AlongUnit(from, c.0, c.1, k);
  }

  /** From a board square, the rook reaches exactly the squares of its rank and
      file: all of them on the board, plus the adjacent ones off its edge. */
  lemma RookReach(from: Vector, v: Vector)
    requires InBounds(from)
    ensures v in RookMoves(from) <==>
      && v != from && (v.x == from.x || v.y == from.y)
      && (InBounds(v) || Abs(v.x - from.x) + Abs(v.y - from.y) == 1)
  {
    if v in RookMoves(from) {
      var c, k := SlidingOnLine(from, 1, 0, v);
      CombinationsMember(1, 0, c);
      AlongUnit(from, c.0, c.1, k);
    } else if v != from && (v.x == from.x || v.y == from.y) {
      var c, k;
      if v.x == from.x {
        c, k := (0, if v.y > from.y then 1 else -1), Abs(v.y - from.y);
      } else {
        c, k := (if v.x > from.x then 1 else -1, 0), Abs(v.x - from.x);
      }
      AlongUnit(from, c.0, c.1, k);
      assert v == Along(from, c.0, c.1, k);
      CombinationsMember(1, 0, c);
      if InBounds(v) || k == 1 {
        SlidingReach(from, 1, 0, c, k);
        assert false;
      }
    }
  }

  /** From a board square, the bishop reaches exactly the squares of its two
      diagonals: all of them on the board, plus the adjacent ones off its edge. */
  lemma BishopReach(from: Vector, v: Vector)
    requires InBounds(from)
    ensures v in BishopMoves(from) <==>
      && v.x != from.x && Abs(v.x - from.x) == Abs(v.y - from.y)
      && (InBounds(v) || Abs(v.x - from.x) == 1)
  {
    if v in BishopMoves(from) {
      var c, k := SlidingOnLine(from, 1, 1, v);
      CombinationsMember(1, 1, c);
      AlongUnit(from, c.0, c.1, k);
    } else if v.x != from.x && Abs(v.x - from.x) == Abs(v.y - from.y) {
      var c := (if v.x > from.x then 1 else -1, if v.y > from.y then 1 else -1);
      var k := Abs(v.x - from.x);
      AlongUnit(from, c.0, c.1, k);
      assert v == Along(from, c.0, c.1, k);
      CombinationsMember(1, 1, c);
      if InBounds(v) || k == 1 {
        SlidingReach(from, 1, 1, c, k);
        assert false;
      }
    }
  }

  /** The queen's moves are the bishop's followed by the rook's; no square is
      in both, so the queen has no duplicate moves either. */
  lemma QueenDisjoint(from: Vector)
    ensures forall v :: v in BishopMoves(from) ==> v !in RookMoves(from)
    ensures NoDup(QueenMoves(from))
  {
    forall v | v in BishopMoves(from)
      ensures v !in RookMoves(from)
    {
      BishopDiagonals(from, v);
      if v in RookMoves(from) {
        RookLines(from, v);
      }
    }
    SymmetricRaysUnion(from, 1, 1, Unbounded);
    SymmetricRaysUnion(from, 1, 0, Unbounded);
    var b, r := BishopMoves(from), RookMoves(from);
    forall i, j | 0 <= i < j < |b + r|
      ensures (b + r)[i] != (b + r)[j]
    {
      if i < |b| && j >= |b| {
        assert (b + r)[i] in b && (b + r)[j] in r;
      }
    }
  }

  // ---------------------------------------------------------------------------
  // All kinds

  /** No rule lists a square twice, and no rule lets a piece stay where it is. */
  lemma MovesDistinct(kind: Kind, from: Vector)
    ensures NoDup(Moves(kind, from))
    ensures from !in Moves(kind, from)
  {
    match kind
    case King => KingNeighbours(from);
    case Knight => KnightOffsets(from);
    case Pawn => PawnForward(from);
    case Rook =>
      SymmetricRaysUnion(from, 1, 0, Unbounded);
      if from in RookMoves(from) {
        RookLines(from, from);
      }
    case Bishop =>
      SymmetricRaysUnion(from, 1, 1, Unbounded);
      if from in BishopMoves(from) {
        BishopDiagonals(from, from);
      }
    case Queen =>
      QueenDisjoint(from);
      if from in BishopMoves(from) {
        BishopDiagonals(from, from);
      }
      if from in RookMoves(from) {
        RookLines(from, from);
      }
  }
}
