/** Union-find with path compression and union by rank. */
module DisjointSets {
  import opened PythonLists
  import opened Powers

  // ---------- parent forests ----------

  /** Parents are in range and ranks grow strictly towards the roots. */
  ghost predicate Forest(p: seq<nat>, rank: seq<nat>) {
    && |rank| == |p|
    && (forall i {:trigger p[i]} :: 0 <= i < |p| ==> p[i] < |p|)
    && (forall i {:trigger rank[i]} :: 0 <= i < |p| ==> rank[i] < |p|)
    && (forall i {:trigger p[i]} :: 0 <= i < |p| && p[i] != i ==> rank[i] < rank[p[i]])
  }

  /** The representative of i. */
  ghost function Root(p: seq<nat>, rank: seq<nat>, i: nat): (r: nat)
    requires Forest(p, rank) && i < |p|
    ensures r < |p| && p[r] == r && rank[i] <= rank[r] && (r != i ==> rank[i] < rank[r])
    decreases |p| - rank[i]
  {
    if p[i] == i then i else Root(p, rank, p[i])
  }

  ghost predicate SameRoots(p: seq<nat>, q: seq<nat>, rank: seq<nat>)
    requires Forest(p, rank) && Forest(q, rank) && |p| == |q|
  {
    forall k: nat :: k < |p| ==> Root(q, rank, k) == Root(p, rank, k)
  }

  /** Pointing i straight at its root keeps the forest and every root. */
  lemma CompressKeepsForest(p: seq<nat>, rank: seq<nat>, i: nat)
    requires Forest(p, rank) && i < |p|
    ensures Forest(p[i := Root(p, rank, i)], rank)
  {
  }

  lemma {:induction false} CompressKeepsRoot(p: seq<nat>, rank: seq<nat>, i: nat, k: nat)
    requires Forest(p, rank) && i < |p| && k < |p| && Forest(p[i := Root(p, rank, i)], rank)
    ensures Root(p[i := Root(p, rank, i)], rank, k) == Root(p, rank, k)
    decreases |p| - rank[k]
  {
    var q := p[i := Root(p, rank, i)];
    if k == i {
      var r := Root(p, rank, i);
      assert q[r] == r;
    } else if p[k] != k {
      CompressKeepsRoot(p, rank, i, p[k]);
    }
  }

  // ---------- linking two roots ----------

  /** Ranks after hanging root x under root y. */
  function LinkedRank(rank: seq<nat>, x: nat, y: nat): seq<nat>
    requires x < |rank| && y < |rank|
  {
    if rank[x] == rank[y] then rank[y := rank[y] + 1] else rank
  }

  lemma {:induction false} LinkMergesRoots(p: seq<nat>, rank: seq<nat>, x: nat, y: nat, k: nat)
    requires Forest(p, rank) && x < |p| && y < |p| && x != y && p[x] == x && p[y] == y && k < |p|
    requires Forest(p[x := y], LinkedRank(rank, x, y))
    ensures Root(p[x := y], LinkedRank(rank, x, y), k) == if Root(p, rank, k) == x then y else Root(p, rank, k)
    decreases |p| - rank[k]
  {
    var q, rank' := p[x := y], LinkedRank(rank, x, y);
    if k == x {
      assert q[x] == y && q[y] == y;
      assert Root(q, rank', y) == y;
    } else if p[k] != k {
      LinkMergesRoots(p, rank, x, y, p[k]);
    }
  }

  // ---------- classes ----------

  ghost function Roots(p: seq<nat>): set<nat> {
    set i: nat | i < |p| && p[i] == i
  }

  ghost function Class(p: seq<nat>, rank: seq<nat>, r: nat): set<nat>
    requires Forest(p, rank)
  {
    set i: nat | i < |p| && Root(p, rank, i) == r
  }

  ghost function Below(n: nat): (s: set<nat>)
    ensures |s| == n && forall i: nat :: i in s <==> i < n
  {
    if n == 0 then {} else Below(n - 1) + {n - 1}
  }

  lemma {:induction false} SubsetSize(a: set<nat>, b: set<nat>)
    requires a <= b
    ensures |a| <= |b|
    decreases a
  {
    if a != {} {
      var x :| x in a;
      SubsetSize(a - {x}, b - {x});
    }
  }

  lemma ClassSize(p: seq<nat>, rank: seq<nat>, r: nat)
    requires Forest(p, rank)
    ensures |Class(p, rank, r)| <= |p|
  {
    SubsetSize(Class(p, rank, r), Below(|p|));
  }

  /** Every root counts its class exactly, and its class has at least 2^rank members. */
  ghost predicate Counted(p: seq<nat>, rank: seq<nat>, setSize: seq<nat>)
    requires Forest(p, rank)
  {
    && |setSize| == |p|
    && forall r: nat {:trigger setSize[r]} {:trigger Class(p, rank, r)} :: r < |p| && p[r] == r ==>
         setSize[r] == |Class(p, rank, r)| && Pow2(rank[r]) <= setSize[r]
  }

  // ---------- the equivalence closure of the unions done ----------

  /** path leads from i to j in steps, each of which is one of the unions, in either direction. */
  ghost predicate Joins(unions: seq<(nat, nat)>, path: seq<nat>, i: nat, j: nat) {
    && path != [] && path[0] == i && path[|path| - 1] == j
    && forall k :: 0 <= k < |path| - 1 ==> Linked(unions, path, k)
  }

  ghost predicate Linked(unions: seq<(nat, nat)>, path: seq<nat>, k: nat)
    requires k + 1 < |path|
  {
    (path[k], path[k + 1]) in unions || (path[k + 1], path[k]) in unions
  }

  ghost predicate Equivalent(unions: seq<(nat, nat)>, i: nat, j: nat) {
    exists path: seq<nat> :: Joins(unions, path, i, j)
  }

  lemma EquivalentReflexive(unions: seq<(nat, nat)>, i: nat)
    ensures Equivalent(unions, i, i)
  {
    assert Joins(unions, [i], i, i);
  }

  lemma EquivalentTransitive(unions: seq<(nat, nat)>, i: nat, j: nat, k: nat)
    requires Equivalent(unions, i, j) && Equivalent(unions, j, k)
    ensures Equivalent(unions, i, k)
  {
    var a :| Joins(unions, a, i, j);
    var b :| Joins(unions, b, j, k);
    var c := a + b[1..];
    forall m: nat | m < |c| - 1 ensures Linked(unions, c, m) {
      if m + 1 < |a| {
        assert Linked(unions, a, m);
      } else {
        assert Linked(unions, b, m + 1 - |a|);
      }
    }
    assert Joins(unions, c, i, k);
  }

  lemma EquivalentGrows(unions: seq<(nat, nat)>, u: (nat, nat), i: nat, j: nat)
    requires Equivalent(unions, i, j)
    ensures Equivalent(unions + [u], i, j)
  {
    var a :| Joins(unions, a, i, j);
    forall m: nat | m < |a| - 1 ensures Linked(unions + [u], a, m) {
      assert Linked(unions, a, m);
    }
    assert Joins(unions + [u], a, i, j);
  }

  lemma UnionIsEquivalent(unions: seq<(nat, nat)>, i: nat, j: nat)
    requires (i, j) in unions || (j, i) in unions
    ensures Equivalent(unions, i, j)
  {
    assert Linked(unions, [i, j], 0);
    assert Joins(unions, [i, j], i, j);
  }

  /** The forest's roots decide exactly the equivalence generated by the unions. */
  ghost predicate Decides(p: seq<nat>, rank: seq<nat>, unions: seq<(nat, nat)>)
    requires Forest(p, rank)
  {
    && (forall u :: u in unions ==> u.0 < |p| && u.1 < |p| && Root(p, rank, u.0) == Root(p, rank, u.1))
    && (forall i: nat :: i < |p| ==> Equivalent(unions, i, Root(p, rank, i)) && Equivalent(unions, Root(p, rank, i), i))
  }

  lemma {:induction false} EquivalentHaveOneRoot(p: seq<nat>, rank: seq<nat>, unions: seq<(nat, nat)>, path: seq<nat>,
                                                 i: nat, j: nat)
    requires Forest(p, rank) && Decides(p, rank, unions) && i < |p| && Joins(unions, path, i, j)
    ensures j < |p| && Root(p, rank, i) == Root(p, rank, j)
    decreases |path|
  {
    if |path| > 1 {
      assert Linked(unions, path, 0);
      var rest := path[1..];
      forall m: nat | m < |rest| - 1 ensures Linked(unions, rest, m) {
        assert Linked(unions, path, m + 1);
      }
      EquivalentHaveOneRoot(p, rank, unions, rest, path[1], j);
    }
  }

  /** Two elements have one root exactly when the unions done so far relate them. */
  lemma SameRootIffEquivalent(p: seq<nat>, rank: seq<nat>, unions: seq<(nat, nat)>, i: nat, j: nat)
    requires Forest(p, rank) && Decides(p, rank, unions) && i < |p| && j < |p|
    ensures Root(p, rank, i) == Root(p, rank, j) <==> Equivalent(unions, i, j)
  {
    if Root(p, rank, i) == Root(p, rank, j) {
      EquivalentTransitive(unions, i, Root(p, rank, i), j);
    }
    if Equivalent(unions, i, j) {
      var path :| Joins(unions, path, i, j);
      EquivalentHaveOneRoot(p, rank, unions, path, i, j);
    }
  }

  // ---------- what the operations keep ----------

  /** Everything the object promises about its fields. */
  ghost predicate Consistent(p: seq<nat>, rank: seq<nat>, setSize: seq<nat>, size: int, unions: seq<(nat, nat)>) {
    Forest(p, rank) && Counted(p, rank, setSize) && Decides(p, rank, unions) && size == |Roots(p)|
  }

  lemma SameRootsKeepsConsistent(p: seq<nat>, q: seq<nat>, rank: seq<nat>, setSize: seq<nat>, size: int,
                                 unions: seq<(nat, nat)>)
    requires Consistent(p, rank, setSize, size, unions)
    requires Forest(q, rank) && |q| == |p| && SameRoots(p, q, rank)
    ensures Consistent(q, rank, setSize, size, unions)
  {
    forall r: nat | r < |p| ensures p[r] == r <==> q[r] == r {
      assert Root(p, rank, r) == Root(q, rank, r);
    }
    assert Roots(p) == Roots(q);
    forall r: nat ensures Class(p, rank, r) == Class(q, rank, r) {
    }
  }

  /** Compressing the path of i after its parent's path was compressed from p to q. */
  lemma CompressAfter(p: seq<nat>, q: seq<nat>, rank: seq<nat>, i: nat)
    requires Forest(p, rank) && Forest(q, rank) && |p| == |q| && i < |p| && SameRoots(p, q, rank)
    ensures Forest(q[i := Root(p, rank, i)], rank) && SameRoots(p, q[i := Root(p, rank, i)], rank)
  {
    assert Root(q, rank, i) == Root(p, rank, i);
    CompressKeepsForest(q, rank, i);
    forall k: nat | k < |p| ensures Root(q[i := Root(p, rank, i)], rank, k) == Root(p, rank, k) {
      CompressKeepsRoot(q, rank, i, k);
    }
  }

  /** One level of the recursive path compression: q is the forest after the parent of i was looked up. */
  lemma FindStep(p: seq<nat>, q: seq<nat>, rank: seq<nat>, setSize: seq<nat>, size: int, unions: seq<(nat, nat)>,
                 i: nat)
    requires Consistent(p, rank, setSize, size, unions) && Forest(q, rank)
    requires |q| == |p| && i < |p| && SameRoots(p, q, rank)
    ensures Root(p, rank, p[i]) == Root(p, rank, i) < |p|
    ensures Consistent(q[i := Root(p, rank, i)], rank, setSize, size, unions)
    ensures SameRoots(p, q[i := Root(p, rank, i)], rank)
  {
    CompressAfter(p, q, rank, i);
    SameRootsKeepsConsistent(p, q[i := Root(p, rank, i)], rank, setSize, size, unions);
  }

  /** The rank of any element is at most the logarithm of the number of elements. */
  lemma RankIsLogarithmic(p: seq<nat>, rank: seq<nat>, setSize: seq<nat>, i: nat)
    requires Forest(p, rank) && Counted(p, rank, setSize) && i < |p|
    ensures Pow2(rank[i]) <= |p| && Pow2(rank[Root(p, rank, i)]) <= |p|
  {
    var r := Root(p, rank, i);
    ClassSize(p, rank, r);
    Pow2Monotone(rank[i], rank[r]);
  }

  /** The recursion of a look-up from i is at most logarithmically deep. */
  lemma LookupDepth(p: seq<nat>, rank: seq<nat>, setSize: seq<nat>, i: nat, calls: nat)
    requires Forest(p, rank) && Counted(p, rank, setSize) && i < |p|
    requires 1 <= calls <= 1 + rank[Root(p, rank, i)] - rank[i]
    ensures Pow2(calls - 1) <= |p|
  {
    RankIsLogarithmic(p, rank, setSize, i);
    Pow2Monotone(calls - 1, rank[Root(p, rank, i)]);
  }

  // ---------- linking keeps consistency ----------

  ghost predicate Linkable(p: seq<nat>, rank: seq<nat>, x: nat, y: nat) {
    Forest(p, rank) && x < |p| && y < |p| && x != y && p[x] == x && p[y] == y && rank[x] <= rank[y]
  }

  lemma ClassesAreDisjoint(p: seq<nat>, rank: seq<nat>, x: nat, y: nat)
    requires Forest(p, rank) && x != y
    ensures Class(p, rank, x) !! Class(p, rank, y)
    ensures |Class(p, rank, x)| + |Class(p, rank, y)| == |Class(p, rank, x) + Class(p, rank, y)| <= |p|
  {
    var cx, cy := Class(p, rank, x), Class(p, rank, y);
    assert cx !! cy;
    SubsetSize(cx + cy, Below(|p|));
  }

  lemma LinkedPower(a: nat, b: nat, sizeA: nat, sizeB: nat)
    requires a <= b && Pow2(a) <= sizeA && Pow2(b) <= sizeB
    ensures var c := if a == b then b + 1 else b; c < Pow2(c) <= sizeA + sizeB
  {
  }

  lemma LinkedSize(p: seq<nat>, rank: seq<nat>, setSize: seq<nat>, x: nat, y: nat)
    requires Linkable(p, rank, x, y) && Counted(p, rank, setSize)
    ensures Pow2(rank[x]) <= setSize[x] && Pow2(rank[y]) <= setSize[y]
    ensures setSize[x] + setSize[y] == |Class(p, rank, x) + Class(p, rank, y)| <= |p|
  {
    ClassesAreDisjoint(p, rank, x, y);
  }

  lemma LinkedRankBound(p: seq<nat>, rank: seq<nat>, setSize: seq<nat>, x: nat, y: nat)
    requires Linkable(p, rank, x, y) && Counted(p, rank, setSize)
    ensures LinkedRank(rank, x, y)[y] < |p|
    ensures Pow2(LinkedRank(rank, x, y)[y]) <= setSize[x] + setSize[y]
  {
    LinkedSize(p, rank, setSize, x, y);
    var a, b := rank[x], rank[y];
    LinkedPower(a, b, setSize[x], setSize[y]);
    assert LinkedRank(rank, x, y)[y] == if a == b then b + 1 else b;
  }

  lemma LinkKeepsForest(p: seq<nat>, rank: seq<nat>, setSize: seq<nat>, x: nat, y: nat)
    requires Linkable(p, rank, x, y) && Counted(p, rank, setSize)
    ensures Forest(p[x := y], LinkedRank(rank, x, y))
  {
    LinkedRankBound(p, rank, setSize, x, y);
  }

  /** The result of the link: x's elements move to y. */
  ghost predicate MovesRoots(p: seq<nat>, rank: seq<nat>, q: seq<nat>, rank': seq<nat>, x: nat, y: nat)
    requires Forest(p, rank) && Forest(q, rank') && |q| == |p|
  {
    forall k: nat :: k < |p| ==> Root(q, rank', k) == if Root(p, rank, k) == x then y else Root(p, rank, k)
  }

  lemma LinkMovesRoots(p: seq<nat>, rank: seq<nat>, x: nat, y: nat)
    requires Linkable(p, rank, x, y) && Forest(p[x := y], LinkedRank(rank, x, y))
    ensures MovesRoots(p, rank, p[x := y], LinkedRank(rank, x, y), x, y)
  {
    forall k: nat | k < |p|
      ensures Root(p[x := y], LinkedRank(rank, x, y), k) == if Root(p, rank, k) == x then y else Root(p, rank, k)
    {
      LinkMergesRoots(p, rank, x, y, k);
    }
  }

  lemma MovedClasses(p: seq<nat>, rank: seq<nat>, q: seq<nat>, rank': seq<nat>, x: nat, y: nat)
    requires Forest(p, rank) && Forest(q, rank') && |q| == |p| && x != y && MovesRoots(p, rank, q, rank', x, y)
    ensures Class(q, rank', y) == Class(p, rank, x) + Class(p, rank, y)
    ensures forall r: nat :: r != x && r != y ==> Class(q, rank', r) == Class(p, rank, r)
  {
  }

  lemma LinkKeepsCounted(p: seq<nat>, rank: seq<nat>, setSize: seq<nat>, x: nat, y: nat)
    requires Linkable(p, rank, x, y) && Counted(p, rank, setSize) && Forest(p[x := y], LinkedRank(rank, x, y))
    ensures Counted(p[x := y], LinkedRank(rank, x, y), setSize[y := setSize[y] + setSize[x]])
  {
    hide Root, Class, Pow2;
    var q, rank' := p[x := y], LinkedRank(rank, x, y);
    LinkedRankBound(p, rank, setSize, x, y);
    LinkedSize(p, rank, setSize, x, y);
    LinkMovesRoots(p, rank, x, y);
    MovedClasses(p, rank, q, rank', x, y);
    var setSize' := setSize[y := setSize[y] + setSize[x]];
    forall r: nat | r < |q| && q[r] == r
      ensures setSize'[r] == |Class(q, rank', r)| && Pow2(rank'[r]) <= setSize'[r]
    {
      if r != y {
        assert p[r] == r && rank'[r] == rank[r];
      }
    }
  }

  lemma LinkDropsOneRoot(p: seq<nat>, rank: seq<nat>, x: nat, y: nat)
    requires Linkable(p, rank, x, y)
    ensures |Roots(p[x := y])| == |Roots(p)| - 1
  {
    assert Roots(p[x := y]) == Roots(p) - {x};
  }

  /** The new union relates the two roots, in both directions. */
  lemma UnionRelatesRoots(p: seq<nat>, rank: seq<nat>, unions: seq<(nat, nat)>, u: (nat, nat), a: nat, b: nat)
    requires Forest(p, rank) && Decides(p, rank, unions) && a < |p| && b < |p|
    requires u == (a, b) || u == (b, a)
    ensures Equivalent(unions + [u], Root(p, rank, a), Root(p, rank, b))
  {
    var all := unions + [u];
    assert all[|unions|] == u;
    UnionIsEquivalent(all, a, b);
    EquivalentGrows(unions, u, Root(p, rank, a), a);
    EquivalentGrows(unions, u, b, Root(p, rank, b));
    EquivalentTransitive(all, Root(p, rank, a), a, b);
    EquivalentTransitive(all, Root(p, rank, a), b, Root(p, rank, b));
  }

  lemma MovedRootIsEquivalent(p: seq<nat>, rank: seq<nat>, unions: seq<(nat, nat)>, u: (nat, nat), x: nat, y: nat,
                              i: nat)
    requires Forest(p, rank) && Decides(p, rank, unions) && i < |p|
    requires Equivalent(unions + [u], x, y) && Equivalent(unions + [u], y, x)
    ensures var r := if Root(p, rank, i) == x then y else Root(p, rank, i);
            Equivalent(unions + [u], i, r) && Equivalent(unions + [u], r, i)
  {
    EquivalentGrows(unions, u, i, Root(p, rank, i));
    EquivalentGrows(unions, u, Root(p, rank, i), i);
    if Root(p, rank, i) == x {
      EquivalentTransitive(unions + [u], i, x, y);
      EquivalentTransitive(unions + [u], y, x, i);
    }
  }

  lemma LinkKeepsDecides(p: seq<nat>, rank: seq<nat>, unions: seq<(nat, nat)>, x: nat, y: nat, u: (nat, nat))
    requires Linkable(p, rank, x, y) && Forest(p[x := y], LinkedRank(rank, x, y))
    requires Decides(p, rank, unions) && JoinsRoots(p, rank, u, x, y)
    ensures Decides(p[x := y], LinkedRank(rank, x, y), unions + [u])
  {
    hide Root, Equivalent;
    var q, rank' := p[x := y], LinkedRank(rank, x, y);
    LinkMovesRoots(p, rank, x, y);
    var a, b := if Root(p, rank, u.0) == x then u.0 else u.1, if Root(p, rank, u.0) == x then u.1 else u.0;
    UnionRelatesRoots(p, rank, unions, u, a, b);
    UnionRelatesRoots(p, rank, unions, u, b, a);
    forall i: nat | i < |p|
      ensures Equivalent(unions + [u], i, Root(q, rank', i)) && Equivalent(unions + [u], Root(q, rank', i), i)
    {
      MovedRootIsEquivalent(p, rank, unions, u, x, y, i);
    }
    forall v | v in unions + [u]
      ensures v.0 < |p| && v.1 < |p| && Root(q, rank', v.0) == Root(q, rank', v.1)
    {
      assert v in unions || v == u;
    }
  }

  /** u connects the class of x with the class of y. */
  ghost predicate JoinsRoots(p: seq<nat>, rank: seq<nat>, u: (nat, nat), x: nat, y: nat)
    requires Forest(p, rank)
  {
    && u.0 < |p| && u.1 < |p|
    && ((Root(p, rank, u.0) == x && Root(p, rank, u.1) == y) || (Root(p, rank, u.0) == y && Root(p, rank, u.1) == x))
  }

  /** What two look-ups in a row find, seen from the forest after both. */
  lemma FoundRoots(p0: seq<nat>, p1: seq<nat>, p2: seq<nat>, rank: seq<nat>, u: (nat, nat), x: nat, y: nat)
    requires Forest(p0, rank) && Forest(p1, rank) && Forest(p2, rank) && |p0| == |p1| == |p2|
    requires SameRoots(p0, p1, rank) && SameRoots(p1, p2, rank) && u.0 < |p0| && u.1 < |p0|
    requires x == Root(p0, rank, u.0) && y == Root(p1, rank, u.1) && Root(p0, rank, u.0) != Root(p0, rank, u.1)
    ensures x < |p2| && y < |p2| && x != y && p2[x] == x && p2[y] == y
    ensures JoinsRoots(p2, rank, u, x, y) && JoinsRoots(p2, rank, u, y, x)
  {
  }

  lemma SameUnionKeepsDecides(p: seq<nat>, rank: seq<nat>, unions: seq<(nat, nat)>, u: (nat, nat))
    requires Forest(p, rank) && Decides(p, rank, unions) && u.0 < |p| && u.1 < |p|
    requires Root(p, rank, u.0) == Root(p, rank, u.1)
    ensures Decides(p, rank, unions + [u])
  {
    forall i: nat | i < |p|
      ensures Equivalent(unions + [u], i, Root(p, rank, i)) && Equivalent(unions + [u], Root(p, rank, i), i)
    {
      EquivalentGrows(unions, u, i, Root(p, rank, i));
      EquivalentGrows(unions, u, Root(p, rank, i), i);
    }
  }

  lemma LinkKeepsConsistent(p: seq<nat>, rank: seq<nat>, setSize: seq<nat>, size: int, unions: seq<(nat, nat)>,
                            x: nat, y: nat, u: (nat, nat))
    requires Consistent(p, rank, setSize, size, unions) && Linkable(p, rank, x, y) && JoinsRoots(p, rank, u, x, y)
    ensures Consistent(p[x := y], LinkedRank(rank, x, y), setSize[y := setSize[y] + setSize[x]], size - 1, unions + [u])
  {
    LinkKeepsForest(p, rank, setSize, x, y);
    LinkKeepsCounted(p, rank, setSize, x, y);
    LinkKeepsDecides(p, rank, unions, x, y, u);
    LinkDropsOneRoot(p, rank, x, y);
  }

  lemma SingletonsAreConsistent(n: nat, p: seq<nat>, rank: seq<nat>, setSize: seq<nat>)
    requires |p| == |rank| == |setSize| == n
    requires forall i :: 0 <= i < n ==> p[i] == i && rank[i] == 0 && setSize[i] == 1
    ensures Consistent(p, rank, setSize, n, [])
  {
    forall r: nat | r < n ensures |Class(p, rank, r)| == 1 {
      assert Class(p, rank, r) == {r};
    }
    assert Roots(p) == Below(n);
    forall i: nat | i < n ensures Equivalent([], i, Root(p, rank, i)) {
      EquivalentReflexive([], i);
    }
  }

  // ---------- what look-ups do to the parents ----------

  /** The parents after a look-up of i: everything on its path points straight at the root. */
  ghost function Compressed(p: seq<nat>, rank: seq<nat>, i: nat): (q: seq<nat>)
    requires Forest(p, rank) && i < |p|
    ensures |q| == |p| && Forest(q, rank) && SameRoots(p, q, rank)
    decreases |p| - rank[i]
  {
    if p[i] == i then p
    else
      CompressAfter(p, Compressed(p, rank, p[i]), rank, i);
      Compressed(p, rank, p[i])[i := Root(p, rank, i)]
  }

  lemma CompressedStep(p: seq<nat>, rank: seq<nat>, i: nat)
    requires Forest(p, rank) && i < |p|
    ensures p[i] == i ==> Compressed(p, rank, i) == p && p[i := i] == p
    ensures p[i] != i ==> Compressed(p, rank, i) == Compressed(p, rank, p[i])[i := Root(p, rank, i)]
  {
  }

  /** k is i or one of the elements above it. */
  ghost predicate OnPath(p: seq<nat>, rank: seq<nat>, i: nat, k: nat)
    requires Forest(p, rank) && i < |p|
    decreases |p| - rank[i]
  {
    k == i || (p[i] != i && OnPath(p, rank, p[i], k))
  }

  /** A look-up of i moves exactly the elements on its path, and moves them to the root. */
  lemma {:induction false} CompressedAt(p: seq<nat>, rank: seq<nat>, i: nat, k: nat)
    requires Forest(p, rank) && i < |p| && k < |p|
    ensures Compressed(p, rank, i)[k] == if OnPath(p, rank, i, k) then Root(p, rank, i) else p[k]
    ensures OnPath(p, rank, i, k) ==> Root(p, rank, k) == Root(p, rank, i)
    decreases |p| - rank[i]
  {
    if p[i] != i {
      CompressedAt(p, rank, p[i], k);
    }
  }

  /** A second look-up changes nothing. */
  lemma CompressedTwice(p: seq<nat>, rank: seq<nat>, i: nat)
    requires Forest(p, rank) && i < |p| && p[i] == Root(p, rank, i)
    ensures Compressed(p, rank, i) == p
  {
    if p[i] != i {
      assert Compressed(p, rank, p[i]) == p;
    }
  }

  /** An element that points at its root still does after other look-ups. */
  lemma StaysCompressed(p: seq<nat>, rank: seq<nat>, i: nat, j: nat)
    requires Forest(p, rank) && i < |p| && j < |p| && p[i] == Root(p, rank, i)
    ensures Compressed(p, rank, j)[i] == Root(Compressed(p, rank, j), rank, i)
  {
    CompressedAt(p, rank, j, i);
  }

  /** What a union of a and b does to representatives and ranks: the root of higher rank stands for both classes,
      on a tie the root of b, which gains a rank. */
  ghost predicate Unites(p: seq<nat>, rank: seq<nat>, q: seq<nat>, rank': seq<nat>, a: nat, b: nat)
    requires Forest(p, rank) && Forest(q, rank') && |q| == |p| && a < |p| && b < |p|
  {
    var x, y := Root(p, rank, a), Root(p, rank, b);
    var top := if rank[x] > rank[y] then x else y;
    && (forall k: nat :: k < |p| ==>
          Root(q, rank', k) == if Root(p, rank, k) == x || Root(p, rank, k) == y then top else Root(p, rank, k))
    && rank' == if x != y && rank[x] == rank[y] then rank[y := rank[y] + 1] else rank
  }

  /** The union of a and b starts with looking up both. */
  ghost function LookedUp(p: seq<nat>, rank: seq<nat>, a: nat, b: nat): (q: seq<nat>)
    requires Forest(p, rank) && a < |p| && b < |p|
    ensures |q| == |p| && Forest(q, rank) && SameRoots(p, q, rank)
  {
    Compressed(Compressed(p, rank, a), rank, b)
  }

  /** Of two roots, the one that the other is hung under. */
  ghost function Top(rank: seq<nat>, x: nat, y: nat): nat
    requires x < |rank| && y < |rank|
  {
    if rank[x] > rank[y] then x else y
  }

  ghost function Low(rank: seq<nat>, x: nat, y: nat): nat
    requires x < |rank| && y < |rank|
  {
    if rank[x] > rank[y] then y else x
  }

  lemma LinkUnites(p: seq<nat>, q: seq<nat>, rank: seq<nat>, a: nat, b: nat, x: nat, y: nat)
    requires Forest(p, rank) && Forest(q, rank) && |q| == |p| && SameRoots(p, q, rank) && a < |p| && b < |p|
    requires x == Root(p, rank, a) && y == Root(p, rank, b) && x != y
    requires Linkable(q, rank, Low(rank, x, y), Top(rank, x, y))
    requires Forest(q[Low(rank, x, y) := Top(rank, x, y)], LinkedRank(rank, Low(rank, x, y), Top(rank, x, y)))
    ensures Unites(p, rank, q[Low(rank, x, y) := Top(rank, x, y)],
                   LinkedRank(rank, Low(rank, x, y), Top(rank, x, y)), a, b)
  {
    hide Root;
    var low, top := Low(rank, x, y), Top(rank, x, y);
    LinkMovesRoots(q, rank, low, top);
    forall k: nat | k < |p|
      ensures Root(q[low := top], LinkedRank(rank, low, top), k) ==
              if Root(p, rank, k) == x || Root(p, rank, k) == y then top else Root(p, rank, k)
    {
      assert Root(q, rank, k) == Root(p, rank, k);
    }
  }

  /** Everything a union of a and b leaves behind. */
  ghost predicate UnionLeaves(p: seq<nat>, rank: seq<nat>, setSize: seq<nat>, q: seq<nat>, rank': seq<nat>,
                              setSize': seq<nat>, a: nat, b: nat)
    requires Forest(p, rank) && Forest(q, rank') && a < |p| && b < |p|
  {
    var x, y := Root(p, rank, a), Root(p, rank, b);
    && |q| == |p| && |setSize| == |p| && Unites(p, rank, q, rank', a, b)
    && if x == y then
         q == LookedUp(p, rank, a, b) && setSize' == setSize
       else
         var low, top := Low(rank, x, y), Top(rank, x, y);
         q == LookedUp(p, rank, a, b)[low := top] && setSize' == setSize[top := setSize[top] + setSize[low]]
  }

  lemma UnionOfOne(p: seq<nat>, rank: seq<nat>, setSize: seq<nat>, a: nat, b: nat)
    requires Forest(p, rank) && |setSize| == |p| && a < |p| && b < |p| && Root(p, rank, a) == Root(p, rank, b)
    ensures UnionLeaves(p, rank, setSize, LookedUp(p, rank, a, b), rank, setSize, a, b)
  {
  }

  lemma UnionOfTwo(p: seq<nat>, rank: seq<nat>, setSize: seq<nat>, q: seq<nat>, rank': seq<nat>, setSize': seq<nat>,
                   a: nat, b: nat, x: nat, y: nat)
    requires Forest(p, rank) && |setSize| == |p| && a < |p| && b < |p| && Forest(q, rank')
    requires x == Root(p, rank, a) && y == Root(p, rank, b) && x != y
    requires Linkable(LookedUp(p, rank, a, b), rank, Low(rank, x, y), Top(rank, x, y))
    requires q == LookedUp(p, rank, a, b)[Low(rank, x, y) := Top(rank, x, y)]
    requires rank' == LinkedRank(rank, Low(rank, x, y), Top(rank, x, y))
    requires setSize' == setSize[Top(rank, x, y) := setSize[Top(rank, x, y)] + setSize[Low(rank, x, y)]]
    ensures UnionLeaves(p, rank, setSize, q, rank', setSize', a, b)
  {
    hide Root, Unites, Forest, LookedUp;
    LinkUnites(p, LookedUp(p, rank, a, b), rank, a, b, x, y);
  }

  // ---------- the class ----------

  class DisjointSets {
    var size: int
    var p: seq<nat>
    var rank: seq<nat>
    var setSize: seq<nat>
    /** The unions asked for so far, oldest first. */
    ghost var unions: seq<(nat, nat)>

    ghost predicate Valid()
      reads this
    {
      Consistent(p, rank, setSize, size, unions)
    }

    constructor (size: nat)
      ensures Valid() && |p| == size && unions == []
    {
      this.size := size;
      var parents := seq(size, i => i);
      this.rank := seq(size, _ => 0);
      this.setSize := seq(size, _ => 1);
      this.unions := [];
      for i := 0 to size
        invariant |parents| == size && forall k :: 0 <= k < size ==> parents[k] == k
      {
        parents := parents[i := i];
      }
      this.p := parents;
      new;
      SingletonsAreConsistent(size, p, rank, setSize);
    }

    /** Returns the representative of i and compresses the path to it; the partition and all
        representatives stay as they were. calls counts the activations of this method. */
    method FindSet(i: int) returns (r: nat, ghost calls: nat)
      requires Valid() && Indexable(i, |p|)
      modifies this`p
      ensures Valid() && |p| == old(|p|) && SameRoots(old(p), p, rank)
      ensures r == Root(old(p), rank, At(i, |p|)) && p[At(i, |p|)] == r
      ensures p == Compressed(old(p), rank, At(i, |p|))
      ensures 1 <= calls <= 1 + rank[r] - rank[At(i, |p|)] + if i < 0 then 1 else 0
      decreases |p| - rank[At(i, |p|)], if i < 0 then 1 else 0
    {
      hide Decides, Counted, Roots, Compressed;
      ghost var k, before := At(i, |p|), p;
      CompressedStep(p, rank, k);
      if p[At(i, |p|)] == i {
        return i, 1;
      }
      var found;
      found, calls := FindSet(p[At(i, |p|)]);
      calls := calls + 1;
      FindStep(before, p, rank, setSize, size, unions, k);
      assert before[k] == k ==> p[k := found] == p;
      p := p[At(i, |p|) := found];
      r := p[At(i, |p|)];
    }

    /** The elements are in one class exactly when the unions so far relate them. */
    method IsSameSet(i: int, j: int) returns (same: bool)
      requires Valid() && Indexable(i, |p|) && Indexable(j, |p|)
      modifies this`p
      ensures Valid() && |p| == old(|p|) && SameRoots(old(p), p, rank)
      ensures same <==> Root(p, rank, At(i, |p|)) == Root(p, rank, At(j, |p|))
      ensures same <==> Equivalent(unions, At(i, |p|), At(j, |p|))
      ensures p == LookedUp(old(p), rank, At(i, |p|), At(j, |p|))
      ensures p[At(i, |p|)] == Root(p, rank, At(i, |p|)) && p[At(j, |p|)] == Root(p, rank, At(j, |p|))
    {
      var x, _ := FindSet(i);
      ghost var between := p;
      StaysCompressed(p, rank, At(i, |p|), At(j, |p|));
      assert x == Root(between, rank, At(i, |p|));
      var y, _ := FindSet(j);
      assert Root(p, rank, At(i, |p|)) == Root(between, rank, At(i, |p|));
      assert Root(p, rank, At(j, |p|)) == Root(between, rank, At(j, |p|));
      same := x == y;
      SameRootIffEquivalent(p, rank, unions, At(i, |p|), At(j, |p|));
    }

    /** Hangs the root of lower rank, y, under x. */
    method HangSecond(x: nat, y: nat, ghost u: (nat, nat))
      requires Valid() && Linkable(p, rank, y, x) && rank[x] > rank[y] && JoinsRoots(p, rank, u, y, x)
      modifies this
      ensures Valid() && |p| == old(|p|) && unions == old(unions) + [u] && size == old(size) - 1
      ensures p == old(p)[y := x] && rank == old(rank) && x < |old(setSize)| && y < |old(setSize)|
      ensures setSize == old(setSize)[x := old(setSize)[x] + old(setSize)[y]]
    {
      hide Decides, Roots;
      LinkKeepsConsistent(p, rank, setSize, size, unions, y, x, u);
      p := p[y := x];
      setSize := setSize[x := setSize[x] + setSize[y]];
      size := size - 1;
      unions := unions + [u];
    }

    /** Hangs x under y, which gains a level if the two were equally high. */
    method HangFirst(x: nat, y: nat, ghost u: (nat, nat))
      requires Valid() && Linkable(p, rank, x, y) && JoinsRoots(p, rank, u, x, y)
      modifies this
      ensures Valid() && |p| == old(|p|) && unions == old(unions) + [u] && size == old(size) - 1
      ensures p == old(p)[x := y] && x < |old(rank)| && y < |old(rank)| && rank == LinkedRank(old(rank), x, y)
      ensures x < |old(setSize)| && y < |old(setSize)|
      ensures setSize == old(setSize)[y := old(setSize)[y] + old(setSize)[x]]
    {
      hide Decides, Roots;
      LinkKeepsConsistent(p, rank, setSize, size, unions, x, y, u);
      ghost var linkedRank := LinkedRank(rank, x, y);
      p := p[x := y];
      setSize := setSize[y := setSize[y] + setSize[x]];
      if rank[x] == rank[y] {
        rank := rank[y := rank[y] + 1];
      }
      assert rank == linkedRank;
      size := size - 1;
      unions := unions + [u];
    }

    method UnionSets(i: int, j: int)
      requires Valid() && Indexable(i, |p|) && Indexable(j, |p|)
      modifies this
      ensures Valid() && |p| == old(|p|)
      ensures unions == old(unions) + [(At(i, |p|), At(j, |p|))]
      ensures size == old(size) - if old(Equivalent(unions, At(i, |p|), At(j, |p|))) then 0 else 1
      ensures UnionLeaves(old(p), old(rank), old(setSize), p, rank, setSize, At(i, |p|), At(j, |p|))
    {
      hide Decides, Roots, Root, Equivalent, UnionLeaves, LookedUp, Unites;
      ghost var a, b, p0, rank0, sizes := At(i, |p|), At(j, |p|), p, rank, setSize;
      ghost var u := (a, b);
      var same := IsSameSet(i, j);
      ghost var looked := p;
      if same {
        SameUnionKeepsDecides(p, rank, unions, u);
        UnionOfOne(p0, rank0, sizes, a, b);
        unions := unions + [u];
        return;
      }
      CompressedTwice(p, rank, a);
      CompressedTwice(p, rank, b);
      var x, _ := FindSet(i);
      var y, _ := FindSet(j);
      FoundRoots(looked, looked, p, rank, u, x, y);
      if rank[x] > rank[y] {
        HangSecond(x, y, u);
      } else {
        HangFirst(x, y, u);
      }
      UnionOfTwo(p0, rank0, sizes, p, rank, setSize, a, b, x, y);
    }
  }
}
