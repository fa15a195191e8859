/** Lists of vectors: duplicate removal (`uniqueVectors`) and filtering. */
module VectorSeqs {
  import opened Geometry

  /** No vector occurs twice. */
  predicate NoDup(s: seq<Vector>)
  {
    forall i, j :: 0 <= i < j < |s| ==> s[i] != s[j]
  }

  /** Every occurrence in `vs` of a later element of `r` comes after some
      occurrence of each earlier element of `r`: `r` keeps the order in which
      its elements first appear in `vs`. */
  ghost predicate FirstOccurrenceOrder(r: seq<Vector>, vs: seq<Vector>)
  {
    forall i, j, k :: 0 <= i < j < |r| && 0 <= k < |vs| && vs[k] == r[j] ==> r[i] in vs[..k]
  }

  /** The vectors of `vs`, each kept at its first occurrence only. */
  function Unique(vs: seq<Vector>): (r: seq<Vector>)
    ensures NoDup(r)
    ensures forall v :: v in r <==> v in vs
    ensures |r| <= |vs|
  {
    if vs == [] then []
    else
      var rest := Unique(vs[..|vs| - 1]);
      if vs[|vs| - 1] in rest then rest else rest + [vs[|vs| - 1]]
  }

  /** `Unique` keeps first occurrences in their original order. */
  lemma {:induction false} UniqueKeepsFirstOccurrenceOrder(vs: seq<Vector>)
    ensures FirstOccurrenceOrder(Unique(vs), vs)
  {
    if vs != [] {
      var n := |vs| - 1;
      var init := vs[..n];
      var rest := Unique(init);
      UniqueKeepsFirstOccurrenceOrder(init);
      var r := Unique(vs);
      forall i, j, k | 0 <= i < j < |r| && 0 <= k < |vs| && vs[k] == r[j]
        ensures r[i] in vs[..k]
      {
        assert r[i] in rest;
        if k < n {
          assert vs[..k] == init[..k];
          assert init[k] == vs[k];
          assert j < |rest|;
          assert rest[j] == r[j];
        } else {
          assert vs[..k] == init;
        }
      }
    }
  }

  /** A list without duplicates is its own `Unique`. */
  lemma {:induction false} UniqueOfNoDup(s: seq<Vector>)
    requires NoDup(s)
    ensures Unique(s) == s
  {
    if s != [] {
      var init := s[..|s| - 1];
      assert NoDup(init);
      UniqueOfNoDup(init);
      assert s[|s| - 1] !in init;
      assert init + [s[|s| - 1]] == s;
    }
  }

  /** Removing duplicates twice removes nothing more. */
  lemma UniqueIdempotent(vs: seq<Vector>)
    ensures Unique(Unique(vs)) == Unique(vs)
  {
    UniqueOfNoDup(Unique(vs));
  }

  /** Appending vectors already present does not change `Unique`. */
  lemma {:induction false} UniqueAbsorbs(s: seq<Vector>, t: seq<Vector>)
    requires forall v :: v in t ==> v in s
    ensures Unique(s + t) == Unique(s)
  {
    if t != [] {
      var init := t[..|t| - 1];
      UniqueAbsorbs(s, init);
      assert (s + t)[..|s + t| - 1] == s + init;
      assert (s + t)[|s + t| - 1] == t[|t| - 1];
    } else {
      assert s + t == s;
    }
  }

  /** `Unique` of a list extended by one vector. */
  lemma UniqueSnoc(s: seq<Vector>, v: Vector)
    ensures Unique(s + [v]) == if v in s then Unique(s) else Unique(s) + [v]
  {
    assert (s + [v])[..|s|] == s;
  }

  /** Appending a vector already present leaves `Unique` as it was. */
  lemma UniqueSnocPresent(s: seq<Vector>, v: Vector, r: seq<Vector>)
    requires Unique(s) == r && v in s
    ensures Unique(s + [v]) == r
  {
    UniqueSnoc(s, v);
  }

  /** Appending a new vector appends it to `Unique`. */
  lemma UniqueSnocAbsent(s: seq<Vector>, v: Vector, r: seq<Vector>)
    requires Unique(s) == r && v !in s
    ensures Unique(s + [v]) == r + [v]
  {
    UniqueSnoc(s, v);
  }

  /** Appending a new vector twice appends it once to `Unique`. */
  lemma UniqueSnocTwice(s: seq<Vector>, v: Vector, r: seq<Vector>)
    requires Unique(s) == r && v !in s
    ensures Unique(s + [v, v]) == r + [v]
  {
    UniqueSnocAbsent(s, v, r);
    assert s + [v] + [v] == s + [v, v];
    UniqueSnocPresent(s + [v], v, r + [v]);
  }

  /** `uniqueVectors`: scans `vs` once, keeping each vector that is not yet in
      the result. */
  method UniqueVectors(vs: seq<Vector>) returns (result: seq<Vector>)
    ensures result == Unique(vs)
    ensures NoDup(result) && forall v :: v in result <==> v in vs
  {
    result := [];
    for i := 0 to |vs|
      invariant result == Unique(vs[..i])
    {
      assert vs[..i + 1] == vs[..i] + [vs[i]];
      UniqueSnoc(vs[..i], vs[i]);
      if vs[i] !in result {
        result := result + [vs[i]];
      }
    }
    assert vs[..|vs|] == vs;
  }

  /** The vectors of `s` that do not occur in `excluded`, in their order. */
  function Without(s: seq<Vector>, excluded: seq<Vector>): (r: seq<Vector>)
    ensures forall v :: v in r <==> v in s && v !in excluded
    ensures NoDup(s) ==> NoDup(r)
    ensures |r| <= |s|
  {
    if s == [] then []
    else
      var rest := Without(s[..|s| - 1], excluded);
      if s[|s| - 1] in excluded then rest else rest + [s[|s| - 1]]
  }

  /** `Without` of a prefix extended by its next element. */
  lemma WithoutNext(s: seq<Vector>, i: int, excluded: seq<Vector>)
    requires 0 <= i < |s|
    ensures Without(s[..i + 1], excluded) ==
      if s[i] in excluded then Without(s[..i], excluded) else Without(s[..i], excluded) + [s[i]]
  {
    assert s[..i + 1][..i] == s[..i];
  }

  /** The loop of `doubleMoves` that pushes each candidate not among
      `excluded`, in order. */
  method SkipAll(candidates: seq<Vector>, excluded: seq<Vector>) returns (kept: seq<Vector>)
    ensures kept == Without(candidates, excluded)
  {
    kept := [];
    for i := 0 to |candidates|
      invariant kept == Without(candidates[..i], excluded)
    {
      WithoutNext(candidates, i, excluded);
      if candidates[i] !in excluded {
        kept := kept + [candidates[i]];
      }
    }
    assert candidates[..|candidates|] == candidates;
  }
}
