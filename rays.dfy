/** Ray casting: `repeat` walks from a square in a fixed direction, and
    `repeatSymmetric` does so in the eight sign and axis-swap variants of a
    direction. Other pieces never block a ray. */
module Rays {
  import opened Geometry
  import opened VectorSeqs

  /** The `maxN` argument of a ray: at most `n` squares, or no limit (the
      source passes `Infinity`). */
  datatype Limit = Finite(n: nat) | Unbounded

  /** `count < maxN`. */
  predicate Below(count: nat, maxN: Limit)
  {
    match maxN
    case Finite(n) => count < n
    case Unbounded => true
  }

  /** A ray without a step limit ends only because it leaves the board, so it
      must actually move. */
  predicate Walks(dx: int, dy: int, maxN: Limit)
  {
    maxN.Finite? || dx != 0 || dy != 0
  }

  /** How many more squares the limit allows after `count` have been taken
      (0 when there is no limit). */
  function StepsLeft(count: nat, maxN: Limit): nat
  {
    match maxN
    case Finite(n) => if count < n then n - count else 0
    case Unbounded => 0
  }

  /** A bound on the number of further steps of (dx, dy) from `v` that stay on
      the board. */
  function DistanceOut(v: Vector, dx: int, dy: int): nat
  {
    if dx > 0 then (if v.x < Size then Size - v.x else 0)
    else if dx < 0 then (if v.x >= 0 then v.x + 1 else 0)
    else if dy > 0 then (if v.y < Size then Size - v.y else 0)
    else if dy < 0 then (if v.y >= 0 then v.y + 1 else 0)
    else 0
  }

  /** The rest of a ray once `count` squares are emitted and `v` is the next
      one: `v` is emitted, and the ray goes on while the following square is
      on the board and the count stays below `maxN`. */
  function RayFrom(v: Vector, dx: int, dy: int, count: nat, maxN: Limit): (r: seq<Vector>)
    requires Walks(dx, dy, maxN)
    ensures |r| >= 1 && r[0] == v
    decreases StepsLeft(count, maxN), DistanceOut(v, dx, dy)
  {
    var w := v.Add(dx, dy);
    if InBounds(w) && Below(count + 1, maxN) then [v] + RayFrom(w, dx, dy, count + 1, maxN) else [v]
  }

  /** The squares `repeat(from, dx, dy, maxN)` returns. */
  function Ray(from: Vector, dx: int, dy: int, maxN: Limit): (r: seq<Vector>)
    requires Walks(dx, dy, maxN)
    ensures |r| >= 1 && r[0] == from.Add(dx, dy)
  {
    RayFrom(from.Add(dx, dy), dx, dy, 0, maxN)
  }

  lemma {:induction false} RayFromShape(v: Vector, dx: int, dy: int, count: nat, maxN: Limit)
    requires Walks(dx, dy, maxN)
    ensures var r := RayFrom(v, dx, dy, count, maxN);
      && |r| >= 1
      && (forall i :: 0 <= i < |r| ==> r[i] == Along(v, dx, dy, i))
      && (forall i :: 1 <= i < |r| ==> InBounds(r[i]) && Below(count + i, maxN))
      && !(InBounds(Along(v, dx, dy, |r|)) && Below(count + |r|, maxN))
    decreases StepsLeft(count, maxN), DistanceOut(v, dx, dy)
  {
    var r := RayFrom(v, dx, dy, count, maxN);
    var w := v.Add(dx, dy);
    assert w == Along(v, dx, dy, 1);
    if InBounds(w) && Below(count + 1, maxN) {
      var t := RayFrom(w, dx, dy, count + 1, maxN);
      RayFromShape(w, dx, dy, count + 1, maxN);
      assert r == [v] + t;
      forall i | 1 <= i <= |r|
        ensures Along(w, dx, dy, i - 1) == Along(v, dx, dy, i)
      {
        AlongShift(v, dx, dy, i - 1);
      }
      forall i | 0 <= i < |r|
        ensures r[i] == Along(v, dx, dy, i)
      {
        if i > 0 {
          assert r[i] == t[i - 1];
        }
      }
      forall i | 1 <= i < |r|
        ensures InBounds(r[i]) && Below(count + i, maxN)
      {
        assert r[i] == t[i - 1];
      }
    }
  }

  /** What `repeat(from, dx, dy, maxN)` returns: the squares 1, 2, ... steps of
      (dx, dy) away from `from`. The first is always there, even off the board;
      each later one is on the board and within `maxN`; and the ray ends exactly
      where the next square would leave the board or exceed `maxN`. */
  lemma RayShape(from: Vector, dx: int, dy: int, maxN: Limit)
    requires Walks(dx, dy, maxN)
    ensures var r := Ray(from, dx, dy, maxN);
      && |r| >= 1
      && r[0] == from.Add(dx, dy)
      && (forall i :: 0 <= i < |r| ==> r[i] == Along(from, dx, dy, i + 1))
      && (forall i :: 1 <= i < |r| ==> InBounds(r[i]))
      && (maxN.Finite? && maxN.n >= 1 ==> |r| <= maxN.n)
      && (maxN == Finite(1) ==> |r| == 1)
      && !(InBounds(Along(from, dx, dy, |r| + 1)) && Below(|r|, maxN))
  {
    var v := from.Add(dx, dy);
    var r := Ray(from, dx, dy, maxN);
    RayFromShape(v, dx, dy, 0, maxN);
    forall k | 0 <= k
      ensures Along(v, dx, dy, k) == Along(from, dx, dy, k + 1)
    {
      AlongShift(from, dx, dy, k);
    }
    assert Along(v, dx, dy, |r|) == Along(from, dx, dy, |r| + 1);
    if |r| > 1 {
      assert InBounds(r[|r| - 1]);
    }
  }

  /** The squares of a ray, as offsets from its origin. */
  lemma RayMember(from: Vector, dx: int, dy: int, maxN: Limit, v: Vector)
    requires Walks(dx, dy, maxN)
    requires v in Ray(from, dx, dy, maxN)
    ensures exists k :: 1 <= k && v == Along(from, dx, dy, k)
  {
    RayShape(from, dx, dy, maxN);
    var r := Ray(from, dx, dy, maxN);
    var i :| 0 <= i < |r| && r[i] == v;
    assert v == Along(from, dx, dy, i + 1);
  }

  /** A ray with one step is its first square, on the board or not. */
  lemma RayOfOne(from: Vector, dx: int, dy: int)
    ensures Ray(from, dx, dy, Finite(1)) == [from.Add(dx, dy)]
  {
  }

  /** Which squares an unbounded ray reaches: the first step always, and the
      k-th (k >= 2) exactly when the second and the k-th step are on the board.
      So a ray whose first square is off the board may still enter it. */
  lemma UnboundedRayMember(from: Vector, dx: int, dy: int, k: int)
    requires dx != 0 || dy != 0
    requires 1 <= k
    ensures Along(from, dx, dy, k) in Ray(from, dx, dy, Unbounded)
        <==> k == 1 || (InBounds(Along(from, dx, dy, 2)) && InBounds(Along(from, dx, dy, k)))
  {
    var r := Ray(from, dx, dy, Unbounded);
    RayShape(from, dx, dy, Unbounded);
    if Along(from, dx, dy, k) in r {
      var i :| 0 <= i < |r| && r[i] == Along(from, dx, dy, k);
      AlongInjective(from, dx, dy, i + 1, k);
      if k >= 2 {
        assert InBounds(r[1]) && InBounds(r[i]);
      }
    }
    if k >= 2 && InBounds(Along(from, dx, dy, 2)) && InBounds(Along(from, dx, dy, k)) {
      if |r| < k {
        BoardConvex(from, dx, dy, 2, |r| + 1, k);
        assert false;
      }
      assert r[k - 1] == Along(from, dx, dy, k);
    }
  }

  /** `repeat`: a do-while loop that emits the current square, steps, and
      continues while the new square is on the board and fewer than `maxN`
      squares have been emitted. */
  method Repeat(from: Vector, dx: int, dy: int, maxN: Limit) returns (result: seq<Vector>)
    requires Walks(dx, dy, maxN)
    ensures result == Ray(from, dx, dy, maxN)
  {
    result := [];
    var v := from.Add(dx, dy);
    var n: nat := 0;
    var more := true;
    while more
      invariant more ==> result + RayFrom(v, dx, dy, n, maxN) == Ray(from, dx, dy, maxN)
      invariant !more ==> result == Ray(from, dx, dy, maxN)
      decreases more, StepsLeft(n, maxN), DistanceOut(v, dx, dy)
    {
      ghost var rest := RayFrom(v, dx, dy, n, maxN);
      ghost var before := result;
      result := result + [v];
      v := v.Add(dx, dy);
      n := n + 1;
      more := InBounds(v) && Below(n, maxN);
      if more {
        assert rest == [rest[0]] + RayFrom(v, dx, dy, n, maxN);
        assert result + RayFrom(v, dx, dy, n, maxN) == before + rest;
      } else {
        assert rest == [rest[0]];
      }
    }
  }

  /** The eight sign and axis-swap variants of (dx, dy), in the source's order;
      each moves as far (in steps along the axes) as (dx, dy) does. */
  function Combinations(dx: int, dy: int): (cs: seq<(int, int)>)
    ensures |cs| == 8
    ensures forall i :: 0 <= i < |cs| ==> Abs(cs[i].0) + Abs(cs[i].1) == Abs(dx) + Abs(dy)
  {
    [(dx, dy), (dx, -dy), (-dx, dy), (-dx, -dy), (dy, dx), (dy, -dx), (-dy, dx), (-dy, -dx)]
  }

  /** The variants are exactly the directions with the same coordinates up to
      sign and order. */
  lemma CombinationsMember(dx: int, dy: int, c: (int, int))
    ensures c in Combinations(dx, dy) <==>
      || ((c.0 == dx || c.0 == -dx) && (c.1 == dy || c.1 == -dy))
      || ((c.0 == dy || c.0 == -dy) && (c.1 == dx || c.1 == -dx))
  {
  }

  /** Every direction in `cs` can be cast as a ray. */
  predicate AllWalk(cs: seq<(int, int)>, maxN: Limit)
  {
    forall i :: 0 <= i < |cs| ==> Walks(cs[i].0, cs[i].1, maxN)
  }

  /** The rays in the directions `cs`, one after the other. */
  function AllRays(from: Vector, cs: seq<(int, int)>, maxN: Limit): (r: seq<Vector>)
    requires AllWalk(cs, maxN)
  {
    if cs == [] then []
    else AllRays(from, cs[..|cs| - 1], maxN) + Ray(from, cs[|cs| - 1].0, cs[|cs| - 1].1, maxN)
  }

  /** A square is on the concatenated rays exactly when it is on one of them. */
  lemma {:induction false} RaysMember(from: Vector, cs: seq<(int, int)>, maxN: Limit)
    requires AllWalk(cs, maxN)
    ensures forall v :: v in AllRays(from, cs, maxN) <==> exists c :: c in cs && v in Ray(from, c.0, c.1, maxN)
  {
    if cs != [] {
      var init := cs[..|cs| - 1];
      var last := cs[|cs| - 1];
      RaysMember(from, init, maxN);
      forall v | v in AllRays(from, cs, maxN)
        ensures exists c :: c in cs && v in Ray(from, c.0, c.1, maxN)
      {
        if v !in Ray(from, last.0, last.1, maxN) {
          assert v in AllRays(from, init, maxN);
          var c :| c in init && v in Ray(from, c.0, c.1, maxN);
          assert c in cs;
        }
      }
      forall v, c | c in cs && v in Ray(from, c.0, c.1, maxN)
        ensures v in AllRays(from, cs, maxN)
      {
        if c != last {
          assert c in init;
        }
      }
    }
  }

  /** The squares `repeatSymmetric(from, dx, dy, maxN)` returns. */
  function SymmetricRays(from: Vector, dx: int, dy: int, maxN: Limit): (r: seq<Vector>)
    requires Walks(dx, dy, maxN)
    ensures NoDup(r)
  {
    Unique(AllRays(from, Combinations(dx, dy), maxN))
  }

  /** `repeatSymmetric` has no duplicates, and its squares are exactly those of
      the eight rays in the directions (+-dx, +-dy) and (+-dy, +-dx). */
  lemma SymmetricRaysUnion(from: Vector, dx: int, dy: int, maxN: Limit)
    requires Walks(dx, dy, maxN)
    ensures var r := SymmetricRays(from, dx, dy, maxN);
      && NoDup(r)
      && forall v :: v in r <==> exists c :: c in Combinations(dx, dy) && v in Ray(from, c.0, c.1, maxN)
  {
    RaysMember(from, Combinations(dx, dy), maxN);
  }

  /** `repeatSymmetric`: concatenates the eight rays, then removes duplicate
      squares. */
  method RepeatSymmetric(from: Vector, dx: int, dy: int, maxN: Limit) returns (result: seq<Vector>)
    requires Walks(dx, dy, maxN)
    ensures result == SymmetricRays(from, dx, dy, maxN)
  {
    var combinations := Combinations(dx, dy);
    var all: seq<Vector> := [];
    for k := 0 to |combinations|
      invariant all == AllRays(from, combinations[..k], maxN)
    {
      var ray := Repeat(from, combinations[k].0, combinations[k].1, maxN);
      assert combinations[..k + 1][..k] == combinations[..k];
      all := all + ray;
    }
    assert combinations[..|combinations|] == combinations;
    result := UniqueVectors(all);
  }
}
