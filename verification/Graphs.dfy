/** Walks over finite relations: the reference definitions that the topology
    searches are proved against. */
module Graphs {
  import opened Prelude

  type Rel<!N(==)> = map<N, set<N>>

  function Succ<N>(r: Rel<N>, n: N): set<N> {
    if n in r then r[n] else {}
  }

  /** `p` follows edges of `r`. */
  ghost predicate IsWalk<N>(r: Rel<N>, p: seq<N>) {
    p != [] && forall i :: 0 < i < |p| ==> p[i] in Succ(r, p[i - 1])
  }

  /** `p` leads from `a` to `b`; it has |p| - 1 hops. */
  ghost predicate Joins<N>(r: Rel<N>, a: N, b: N, p: seq<N>) {
    IsWalk(r, p) && p[0] == a && p[|p| - 1] == b
  }

  /** `b` is at most `k` hops from `a`. */
  ghost predicate Within<N(!new)>(r: Rel<N>, a: N, b: N, k: int) {
    exists p: seq<N> :: Joins(r, a, b, p) && |p| <= k + 1
  }

  /** A walk of at least one and at most `k` hops leads from `a` to `b`. */
  ghost predicate Reaches<N(!new)>(r: Rel<N>, a: N, b: N, k: int) {
    exists p: seq<N> :: Joins(r, a, b, p) && 2 <= |p| <= k + 1
  }

  ghost predicate Symmetric<N(!new)>(r: Rel<N>) {
    forall a, b :: b in Succ(r, a) ==> a in Succ(r, b)
  }

  ghost predicate Includes<N(!new)>(big: Rel<N>, small: Rel<N>) {
    forall a, b :: b in Succ(small, a) ==> b in Succ(big, a)
  }

  lemma WalkExtend<N>(r: Rel<N>, a: N, m: N, p: seq<N>, n: N)
    requires Joins(r, a, m, p) && n in Succ(r, m)
    ensures Joins(r, a, n, p + [n])
  {
  }

  lemma WalkSplit<N>(r: Rel<N>, a: N, b: N, p: seq<N>)
    requires Joins(r, a, b, p) && |p| >= 2
    ensures Joins(r, a, p[|p| - 2], p[..|p| - 1])
    ensures b in Succ(r, p[|p| - 2])
    ensures p == p[..|p| - 1] + [b]
  {
  }

  /** One more hop: the balls of radius k and k + 1. */
  lemma WithinStep<N(!new)>(r: Rel<N>, a: N, b: N, k: nat)
    ensures Within(r, a, b, k + 1) <==>
            Within(r, a, b, k) || exists m :: Within(r, a, m, k) && b in Succ(r, m)
  {
    if Within(r, a, b, k + 1) {
      var p: seq<N> :| Joins(r, a, b, p) && |p| <= k + 2;
      if |p| > k + 1 {
        WalkSplit(r, a, b, p);
        assert Within(r, a, p[|p| - 2], k);
      }
    }
    if m :| Within(r, a, m, k) && b in Succ(r, m) {
      var p: seq<N> :| Joins(r, a, m, p) && |p| <= k + 1;
      WalkExtend(r, a, m, p, b);
    }
  }

  lemma WithinGrows<N(!new)>(r: Rel<N>, a: N, b: N, j: int, k: int)
    requires Within(r, a, b, j) && j <= k
    ensures Within(r, a, b, k)
  {
    var p: seq<N> :| Joins(r, a, b, p) && |p| <= j + 1;
    assert |p| <= k + 1;
  }

  lemma WithinZero<N(!new)>(r: Rel<N>, a: N, b: N)
    ensures Within(r, a, b, 0) <==> a == b
  {
    assert Joins(r, a, a, [a]);
  }

  /** A reaching walk is a last edge out of a ball one hop smaller. */
  lemma ReachesStep<N(!new)>(r: Rel<N>, a: N, b: N, k: int)
    ensures Reaches(r, a, b, k) <==> exists m :: Within(r, a, m, k - 1) && b in Succ(r, m)
  {
    if Reaches(r, a, b, k) {
      var p: seq<N> :| Joins(r, a, b, p) && 2 <= |p| <= k + 1;
      WalkSplit(r, a, b, p);
      assert Within(r, a, p[|p| - 2], k - 1);
    }
    if m :| Within(r, a, m, k - 1) && b in Succ(r, m) {
      var p: seq<N> :| Joins(r, a, m, p) && |p| <= k;
      WalkExtend(r, a, m, p, b);
    }
  }

  lemma ReachesWithin<N(!new)>(r: Rel<N>, a: N, b: N, k: int)
    ensures Reaches(r, a, b, k) ==> Within(r, a, b, k)
    ensures Within(r, a, b, k) && a != b ==> Reaches(r, a, b, k)
  {
    if Within(r, a, b, k) && a != b {
      var p: seq<N> :| Joins(r, a, b, p) && |p| <= k + 1;
      assert |p| != 1;
    }
  }

  lemma WithinMonotone<N(!new)>(big: Rel<N>, small: Rel<N>, a: N, b: N, k: int)
    requires Includes(big, small) && Within(small, a, b, k)
    ensures Within(big, a, b, k)
  {
    var p: seq<N> :| Joins(small, a, b, p) && |p| <= k + 1;
    assert Joins(big, a, b, p);
  }

  function Reverse<N>(p: seq<N>): seq<N> {
    seq(|p|, i requires 0 <= i < |p| => p[|p| - 1 - i])
  }

  /** On a symmetric relation a walk can be read backwards. */
  lemma ReverseWalk<N(!new)>(r: Rel<N>, a: N, b: N, p: seq<N>)
    requires Symmetric(r) && Joins(r, a, b, p)
    ensures Joins(r, b, a, Reverse(p))
  {
    var q := Reverse(p);
    forall i | 0 < i < |q|
      ensures q[i] in Succ(r, q[i - 1])
    {
      assert p[|p| - i] in Succ(r, p[|p| - i - 1]);
    }
  }

  lemma WithinSymmetric<N(!new)>(r: Rel<N>, a: N, b: N, k: int)
    requires Symmetric(r) && Within(r, a, b, k)
    ensures Within(r, b, a, k)
  {
    var p: seq<N> :| Joins(r, a, b, p) && |p| <= k + 1;
    ReverseWalk(r, a, b, p);
  }

  // -------------------------------------------------------------- best walks

  /** Shorter first, then lexicographically by node. */
  predicate WalkLe<N(==)>(le: (N, N) -> bool, p: seq<N>, q: seq<N>) {
    |p| < |q| || (|p| == |q| && SeqLe(le, p, q))
  }

  /** `p` is the least of all walks from `a` to `b`: a shortest one, and among
      the shortest the first in lexicographic order. */
  ghost predicate IsBest<N(!new)>(le: (N, N) -> bool, r: Rel<N>, a: N, b: N, p: seq<N>) {
    Joins(r, a, b, p) && forall q: seq<N> :: Joins(r, a, b, q) ==> WalkLe(le, p, q)
  }

  lemma BestUnique<N(!new)>(le: (N, N) -> bool, r: Rel<N>, a: N, b: N, p: seq<N>, q: seq<N>)
    requires TotalOrder(le) && IsBest(le, r, a, b, p) && IsBest(le, r, a, b, q)
    ensures p == q
  {
    SeqLeTotal(le, p, q);
  }

  lemma WalkLeTransitive<N(!new)>(le: (N, N) -> bool, p: seq<N>, q: seq<N>, s: seq<N>)
    requires TotalOrder(le) && WalkLe(le, p, q) && WalkLe(le, q, s)
    ensures WalkLe(le, p, s)
  {
    if |p| == |q| == |s| {
      SeqLeTransitive(le, p, q, s);
    }
  }

  lemma WalkLeAppend<N(!new)>(le: (N, N) -> bool, p: seq<N>, q: seq<N>, x: N, y: N)
    requires TotalOrder(le) && WalkLe(le, p, q) && (p == q ==> le(x, y))
    ensures WalkLe(le, p + [x], q + [y])
  {
    if |p| == |q| {
      SeqLeAppend(le, p, q, x, y);
    }
  }

  lemma WalkLeReflexive<N(!new)>(le: (N, N) -> bool, p: seq<N>)
    requires TotalOrder(le)
    ensures WalkLe(le, p, p)
  {
    SeqLeTotal(le, p, p);
  }

  /** What a finished breadth-first search leaves behind is exact. `paths` is
      closed: every expanded node's neighbours are in it, at a walk no worse
      than the one through that node. */
  lemma {:induction false} ClosedIsBest<N(!new)>(le: (N, N) -> bool, r: Rel<N>, paths: map<N, seq<N>>, start: N,
                                                k: nat, q: seq<N>, n: N)
    requires TotalOrder(le)
    requires start in paths && paths[start] == [start]
    requires forall m :: m in paths ==> Joins(r, start, m, paths[m])
    requires forall m, x :: m in paths && |paths[m]| <= k && x in Succ(r, m) ==>
               x in paths && WalkLe(le, paths[x], paths[m] + [x])
    requires Joins(r, start, n, q) && |q| <= k + 1
    ensures n in paths && WalkLe(le, paths[n], q)
    decreases |q|
  {
    if |q| == 1 {
      assert q == [start];
      WalkLeReflexive(le, q);
    } else {
      WalkSplit(r, start, n, q);
      var m := q[|q| - 2];
      var q' := q[..|q| - 1];
      ClosedIsBest(le, r, paths, start, k, q', m);
      WalkLeReflexive(le, [n]);
      WalkLeAppend(le, paths[m], q', n, n);
      WalkLeTransitive(le, paths[n], paths[m] + [n], q);
    }
  }
}
