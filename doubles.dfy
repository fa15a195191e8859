/** Double moves: a piece applies its rule twice in one turn. */
module Doubles {
  import opened Geometry
  import opened VectorSeqs
  import opened Pieces

  /** `firsts.flatMap(p.moves)`: the moves from each first step, one list after
      the other. */
  function SecondSteps(kind: Kind, firsts: seq<Vector>): seq<Vector>
  {
    if firsts == [] then []
    else SecondSteps(kind, firsts[..|firsts| - 1]) + Moves(kind, firsts[|firsts| - 1])
  }

  /** A square is a second step exactly when some first step's rule lists it. */
  lemma {:induction false} SecondStepsMember(kind: Kind, firsts: seq<Vector>)
    ensures forall v :: v in SecondSteps(kind, firsts) <==> exists m :: m in firsts && v in Moves(kind, m)
  {
    if firsts != [] {
      var init := firsts[..|firsts| - 1];
      var last := firsts[|firsts| - 1];
      SecondStepsMember(kind, init);
      forall v | v in SecondSteps(kind, firsts)
        ensures exists m :: m in firsts && v in Moves(kind, m)
      {
        if v !in Moves(kind, last) {
          assert v in SecondSteps(kind, init);
          var m :| m in init && v in Moves(kind, m);
          assert m in firsts;
        }
      }
      forall v, m | m in firsts && v in Moves(kind, m)
        ensures v in SecondSteps(kind, firsts)
      {
        if m != last {
          assert m in init;
        }
      }
    }
  }

  /** The `double` list of `doubleMoves(p, from)`. */
  function Double(kind: Kind, from: Vector): (r: seq<Vector>)
    ensures NoDup(r)
    ensures forall v :: v in r ==> v != from && v !in Moves(kind, from)
  {
    var single := Moves(kind, from);
    Without(Without(Unique(SecondSteps(kind, single)), single), [from])
  }

  /** The double moves are the squares two applications of the rule reach,
      except those one application reaches and the starting square; none is
      listed twice. */
  lemma DoubleReach(kind: Kind, from: Vector)
    ensures NoDup(Double(kind, from))
    ensures forall v :: v in Double(kind, from) <==>
      && v != from
      && v !in Moves(kind, from)
      && exists m :: m in Moves(kind, from) && v in Moves(kind, m)
  {
    SecondStepsMember(kind, Moves(kind, from));
  }

  /** `doubleMoves(p, from)`: the piece's single moves, and its double moves
      collected by a loop that skips every square already among the single
      moves, then filtered to leave out the starting square. */
  method DoubleMoves(kind: Kind, from: Vector) returns (single: seq<Vector>, double: seq<Vector>)
    ensures single == Moves(kind, from)
    ensures double == Double(kind, from)
    ensures NoDup(single) && NoDup(double)
    ensures forall v :: v in double ==> v != from && v !in single
    ensures forall v :: v in double ==> exists m :: m in single && v in Moves(kind, m)
  {
    single := Moves(kind, from);
    var doubleMoves := UniqueVectors(SecondSteps(kind, single));
    var withoutSingle := SkipAll(doubleMoves, single);
    double := Without(withoutSingle, [from]);
    MovesDistinct(kind, from);
    DoubleReach(kind, from);
  }

  /** A king's double moves are exactly the sixteen squares at distance two
      (in the king's own metric), whether or not they are on the board; from a
      corner that includes squares reached through off-board squares. */
  lemma KingDoubleRing(from: Vector)
    ensures forall v :: v in Double(King, from) <==> Max(Abs(v.x - from.x), Abs(v.y - from.y)) == 2
  {
    forall v {
      KingDoubleAt(from, v);
    }
  }

  lemma KingDoubleAt(from: Vector, v: Vector)
    ensures v in Double(King, from) <==> Max(Abs(v.x - from.x), Abs(v.y - from.y)) == 2
  {
    if v in Double(King, from) {
      KingDoubleInRing(from, v);
    }
    if Max(Abs(v.x - from.x), Abs(v.y - from.y)) == 2 {
      KingRingInDouble(from, v);
    }
  }

  lemma KingDoubleInRing(from: Vector, v: Vector)
    requires v in Double(King, from)
    ensures Max(Abs(v.x - from.x), Abs(v.y - from.y)) == 2
  {
    DoubleReach(King, from);
    var m :| m in Moves(King, from) && v in Moves(King, m);
    KingTwoSteps(from, m, v);
  }

  lemma KingRingInDouble(from: Vector, v: Vector)
    requires Max(Abs(v.x - from.x), Abs(v.y - from.y)) == 2
    ensures v in Double(King, from)
  {
    var m := from.Add(Sign(v.x - from.x), Sign(v.y - from.y));
    KingAdjacent(from, m);
    KingAdjacent(m, v);
    KingAdjacent(from, v);
    DoubleReach(King, from);
    assert m in Moves(King, from) && v in Moves(King, m);
  }

  lemma KingTwoSteps(from: Vector, m: Vector, v: Vector)
    requires m in KingMoves(from) && v in KingMoves(m)
    requires v != from && v !in KingMoves(from)
    ensures Max(Abs(v.x - from.x), Abs(v.y - from.y)) == 2
  {
    KingAdjacent(from, m);
    KingAdjacent(m, v);
    KingAdjacent(from, v);
  }

  function Max(a: int, b: int): int
  {
    if a < b then b else a
  }

  /** -1, 0 or 1, as `a` is negative, zero or positive. */
  function Sign(a: int): int
  {
    if a < 0 then -1 else if a > 0 then 1 else 0
  }

  /** A pawn on rank 6 reaches ranks 5 and 4 in one move, and rank 3 alone in
      two. */
  lemma PawnDoubleFromRankSix(x: int)
    ensures forall v :: v in Double(Pawn, Vector(x, 6)) <==> v == Vector(x, 3)
  {
    var from := Vector(x, 6);
    PawnForward(from);
    PawnForward(Vector(x, 5));
    PawnForward(Vector(x, 4));
    DoubleReach(Pawn, from);
    assert Vector(x, 4) in Moves(Pawn, from) && Vector(x, 3) in Moves(Pawn, Vector(x, 4));
  }
}
