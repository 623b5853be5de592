/** Single-source Bellman-Ford relaxation and the negative-cycle test built on it.

    The relaxation is not guarded against the sentinel INF, so a run computes minimal
    "offset plus weight" values over walks that may start at any vertex: offset 0 at the
    source and INF elsewhere. The negative-cycle test is exact for the whole graph. */
module BellmanFord {
  import opened PythonLists

  const INF := 100000000

  datatype Edge = Edge(node: int, cost: int)

  /** Adjacency lists: entry u lists the edges that leave vertex u. */
  type Graph = seq<seq<Edge>>

  ghost predicate InRange(g: Graph) {
    forall u, j :: 0 <= u < |g| && 0 <= j < |g[u]| ==> Indexable(g[u][j].node, |g|)
  }

  // ---------- walks ----------

  datatype Arc = Arc(tail: nat, head: nat, cost: int)

  function ArcOf(g: Graph, u: nat, j: nat): Arc
    requires InRange(g) && u < |g| && j < |g[u]|
  {
    Arc(u, At(g[u][j].node, |g|), g[u][j].cost)
  }

  ghost predicate IsArc(g: Graph, a: Arc)
    requires InRange(g)
  {
    a.tail < |g| && exists j: nat :: j < |g[a.tail]| && a == ArcOf(g, a.tail, j)
  }

  /** w leads from s to t along arcs of g; the empty walk stays where it is. */
  ghost predicate IsWalk(g: Graph, s: nat, w: seq<Arc>, t: nat)
    requires InRange(g)
  {
    if w == [] then
      s == t && s < |g|
    else
      var last := w[|w| - 1];
      IsArc(g, last) && last.head == t && IsWalk(g, s, w[..|w| - 1], last.tail)
  }

  function Weight(w: seq<Arc>): int {
    if w == [] then 0 else Weight(w[..|w| - 1]) + w[|w| - 1].cost
  }

  ghost predicate HasNegativeCycle(g: Graph)
    requires InRange(g)
  {
    exists u: nat, w: seq<Arc> :: IsWalk(g, u, w, u) && Weight(w) < 0
  }

  function Offset(source: nat, s: nat): int {
    if s == source then 0 else INF
  }

  // ---------- what a distance table can promise ----------

  /** d is offset plus weight of some walk that ends at v. */
  ghost predicate Realised(g: Graph, source: nat, v: nat, d: int)
    requires InRange(g)
  {
    exists s: nat, w: seq<Arc> :: IsWalk(g, s, w, v) && d == Offset(source, s) + Weight(w)
  }

  ghost predicate AllRealised(g: Graph, source: nat, dist: seq<int>)
    requires InRange(g)
  {
    |dist| == |g| && forall v: nat :: v < |g| ==> Realised(g, source, v, dist[v])
  }

  /** No walk of at most k arcs, from any start, does better than dist. */
  ghost predicate BoundsWalksUpTo(g: Graph, source: nat, dist: seq<int>, k: nat)
    requires InRange(g) && |dist| == |g|
  {
    forall s: nat, w: seq<Arc>, v: nat :: IsWalk(g, s, w, v) && |w| <= k ==> dist[v] <= Offset(source, s) + Weight(w)
  }

  /** Every arc has been relaxed against the table earlier. */
  ghost predicate RelaxedAgainst(g: Graph, dist: seq<int>, earlier: seq<int>)
    requires InRange(g) && |dist| == |earlier| == |g|
  {
    forall u: nat, j: nat :: u < |g| && j < |g[u]| ==> dist[ArcOf(g, u, j).head] <= earlier[u] + g[u][j].cost
  }

  // ---------- walk lemmas ----------

  lemma {:induction false} WeightAppend(w1: seq<Arc>, w2: seq<Arc>)
    ensures Weight(w1 + w2) == Weight(w1) + Weight(w2)
  {
    if w2 == [] {
      assert w1 + w2 == w1;
    } else {
      WeightAppend(w1, w2[..|w2| - 1]);
      assert (w1 + w2)[..|w1 + w2| - 1] == w1 + w2[..|w2| - 1];
    }
  }

  lemma ExtendWalk(g: Graph, s: nat, w: seq<Arc>, u: nat, j: nat)
    requires InRange(g) && IsWalk(g, s, w, u) && u < |g| && j < |g[u]|
    ensures IsWalk(g, s, w + [ArcOf(g, u, j)], ArcOf(g, u, j).head)
    ensures Weight(w + [ArcOf(g, u, j)]) == Weight(w) + g[u][j].cost
  {
  }

  lemma {:induction false} JoinWalks(g: Graph, s: nat, w1: seq<Arc>, m: nat, w2: seq<Arc>, t: nat)
    requires InRange(g) && IsWalk(g, s, w1, m) && IsWalk(g, m, w2, t)
    ensures IsWalk(g, s, w1 + w2, t)
    decreases |w2|
  {
    if w2 == [] {
      assert w1 + w2 == w1;
    } else {
      var last := w2[|w2| - 1];
      JoinWalks(g, s, w1, m, w2[..|w2| - 1], last.tail);
      assert (w1 + w2)[..|w1 + w2| - 1] == w1 + w2[..|w2| - 1];
    }
  }

  /** Vertex number i of a walk. */
  function Vertex(s: nat, w: seq<Arc>, i: nat): nat
    requires i <= |w|
  {
    if i == 0 then s else w[i - 1].head
  }

  lemma {:induction false} SplitWalk(g: Graph, s: nat, w: seq<Arc>, t: nat, i: nat)
    requires InRange(g) && IsWalk(g, s, w, t) && i <= |w|
    ensures Vertex(s, w, i) < |g|
    ensures IsWalk(g, s, w[..i], Vertex(s, w, i)) && IsWalk(g, Vertex(s, w, i), w[i..], t)
    decreases |w|
  {
    if i == |w| {
      assert w[..i] == w && w[i..] == [];
      assert w != [] ==> IsArc(g, w[|w| - 1]);
    } else {
      var last := w[|w| - 1];
      var front := w[..|w| - 1];
      SplitWalk(g, s, front, last.tail, i);
      assert front[..i] == w[..i] && w[i..][..|w| - i - 1] == front[i..];
    }
  }

  /** A walk that visits one vertex twice splits into a shorter walk and a cycle. */
  lemma CutCycle(g: Graph, s: nat, w: seq<Arc>, t: nat, i: nat, j: nat)
    requires InRange(g) && IsWalk(g, s, w, t)
    requires i < j <= |w| && Vertex(s, w, i) == Vertex(s, w, j)
    ensures IsWalk(g, s, w[..i] + w[j..], t)
    ensures IsWalk(g, Vertex(s, w, i), w[i..j], Vertex(s, w, i))
    ensures Weight(w) == Weight(w[..i] + w[j..]) + Weight(w[i..j])
  {
    var v := Vertex(s, w, i);
    SplitWalk(g, s, w, t, i);
    SplitWalk(g, s, w, t, j);
    JoinWalks(g, s, w[..i], v, w[j..], t);
    SplitWalk(g, s, w[..j], v, i);
    assert w[..j][..i] == w[..i] && w[..j][i..] == w[i..j];
    assert w == w[..i] + w[i..j] + w[j..];
    WeightAppend(w[..i] + w[i..j], w[j..]);
    WeightAppend(w[..i], w[i..j]);
    WeightAppend(w[..i], w[j..]);
  }

  /** More values than pigeonholes: two positions agree. */
  lemma {:induction false} Pigeonhole(f: seq<nat>, n: nat) returns (i: nat, j: nat)
    requires |f| > n && forall k :: 0 <= k < |f| ==> f[k] < n
    ensures i < j < |f| && f[i] == f[j]
    decreases n
  {
    assert f[0] < n;
    if last :| 0 <= last < |f| && f[last] == n - 1 {
      if other :| 0 <= other < |f| && other != last && f[other] == n - 1 {
        i, j := if other < last then other else last, if other < last then last else other;
      } else {
        var f' := f[..last] + f[last + 1..];
        var i', j' := Pigeonhole(f', n - 1);
        i, j := if i' < last then i' else i' + 1, if j' < last then j' else j' + 1;
      }
    } else {
      i, j := Pigeonhole(f[..|f| - 1], n - 1);
    }
  }

  /** Without negative cycles, every walk can be cut down to at most |g| - 1 arcs at no extra weight. */
  lemma {:induction false} Simplify(g: Graph, s: nat, w: seq<Arc>, t: nat) returns (w': seq<Arc>)
    requires InRange(g) && IsWalk(g, s, w, t) && !HasNegativeCycle(g)
    ensures IsWalk(g, s, w', t) && |w'| <= |g| - 1 && Weight(w') <= Weight(w)
    decreases |w|
  {
    if |w| <= |g| - 1 {
      w' := w;
    } else {
      forall i: nat | i <= |w| ensures Vertex(s, w, i) < |g| {
        SplitWalk(g, s, w, t, i);
      }
      var vs := seq(|w| + 1, i requires 0 <= i <= |w| => Vertex(s, w, i));
      var i, j := Pigeonhole(vs, |g|);
      CutCycle(g, s, w, t, i, j);
      assert Weight(w[i..j]) >= 0;
      w' := Simplify(g, s, w[..i] + w[j..], t);
    }
  }

  // ---------- distance lemmas ----------

  /** One full pass over the arcs lengthens the walks accounted for by one arc. */
  lemma RoundAddsOneArc(g: Graph, source: nat, before: seq<int>, after: seq<int>, k: nat)
    requires InRange(g) && |before| == |after| == |g|
    requires BoundsWalksUpTo(g, source, before, k)
    requires forall v :: 0 <= v < |g| ==> after[v] <= before[v]
    requires RelaxedAgainst(g, after, before)
    ensures BoundsWalksUpTo(g, source, after, k + 1)
  {
    forall s: nat, w: seq<Arc>, v: nat | IsWalk(g, s, w, v) && |w| <= k + 1
      ensures after[v] <= Offset(source, s) + Weight(w)
    {
      if w == [] {
        assert before[v] <= Offset(source, s) + Weight(w);
      } else {
        var a := w[|w| - 1];
        assert before[a.tail] <= Offset(source, s) + Weight(w[..|w| - 1]);
        assert IsArc(g, a);
      }
    }
  }

  /** If no arc improves the table then no walk does, so no cycle is negative. */
  lemma {:induction false} StableWalk(g: Graph, dist: seq<int>, s: nat, w: seq<Arc>, t: nat)
    requires InRange(g) && |dist| == |g| && RelaxedAgainst(g, dist, dist) && IsWalk(g, s, w, t) && s < |g|
    ensures dist[t] <= dist[s] + Weight(w)
    decreases |w|
  {
    if w != [] {
      var a := w[|w| - 1];
      StableWalk(g, dist, s, w[..|w| - 1], a.tail);
      assert IsArc(g, a);
    }
  }

  /** Without negative cycles, |g| - 1 rounds bound every walk, whatever its length. */
  lemma NoNegativeCycleBoundsAll(g: Graph, source: nat, dist: seq<int>, k: nat)
    requires InRange(g) && g != [] && |dist| == |g| && !HasNegativeCycle(g)
    requires BoundsWalksUpTo(g, source, dist, |g| - 1)
    ensures BoundsWalksUpTo(g, source, dist, k)
  {
    forall s: nat, w: seq<Arc>, v: nat | IsWalk(g, s, w, v) && |w| <= k
      ensures dist[v] <= Offset(source, s) + Weight(w)
    {
      var w' := Simplify(g, s, w, v);
    }
  }

  lemma NoNegativeCycleIsStable(g: Graph, source: nat, dist: seq<int>)
    requires InRange(g) && g != [] && AllRealised(g, source, dist) && !HasNegativeCycle(g)
    requires BoundsWalksUpTo(g, source, dist, |g| - 1)
    ensures RelaxedAgainst(g, dist, dist)
  {
    forall u: nat, j: nat | u < |g| && j < |g[u]|
      ensures dist[ArcOf(g, u, j).head] <= dist[u] + g[u][j].cost
    {
      assert Realised(g, source, u, dist[u]);
      var s: nat, w: seq<Arc> :| IsWalk(g, s, w, u) && dist[u] == Offset(source, s) + Weight(w);
      ExtendWalk(g, s, w, u, j);
      NoNegativeCycleBoundsAll(g, source, dist, |w| + 1);
    }
  }

  /** A table produced by |g| - 1 rounds is stable exactly when the graph has no negative cycle. */
  lemma StableIffNoNegativeCycle(g: Graph, source: nat, dist: seq<int>)
    requires InRange(g) && g != [] && AllRealised(g, source, dist)
    requires BoundsWalksUpTo(g, source, dist, |g| - 1)
    ensures RelaxedAgainst(g, dist, dist) <==> !HasNegativeCycle(g)
  {
    if RelaxedAgainst(g, dist, dist) && HasNegativeCycle(g) {
      var u: nat, w: seq<Arc> :| IsWalk(g, u, w, u) && Weight(w) < 0;
      SplitWalk(g, u, w, u, 0);
      StableWalk(g, dist, u, w, u);
    }
    if !HasNegativeCycle(g) {
      NoNegativeCycleIsStable(g, source, dist);
    }
  }

  // ---------- the program ----------

  /** Every arc listed before position j of vertex u has been relaxed against earlier. */
  ghost predicate RelaxedBefore(g: Graph, dist: seq<int>, earlier: seq<int>, u: nat, j: nat)
    requires InRange(g) && |dist| == |earlier| == |g|
  {
    forall x: nat, i: nat :: x < |g| && i < |g[x]| && (x < u || (x == u && i < j)) ==>
      dist[ArcOf(g, x, i).head] <= earlier[x] + g[x][i].cost
  }

  /** Where a round that started from earlier stands when it is about to look at arc j of vertex u. */
  ghost predicate MidRound(g: Graph, source: nat, dist: seq<int>, earlier: seq<int>, u: nat, j: nat)
    requires InRange(g) && |earlier| == |g|
  {
    && AllRealised(g, source, dist)
    && (forall v :: 0 <= v < |g| ==> dist[v] <= earlier[v])
    && RelaxedBefore(g, dist, earlier, u, j)
  }

  function Relax(g: Graph, dist: seq<int>, u: nat, j: nat): seq<int>
    requires InRange(g) && |dist| == |g| && u < |g| && j < |g[u]|
  {
    var a := ArcOf(g, u, j);
    if dist[u] + a.cost < dist[a.head] then dist[a.head := dist[u] + a.cost] else dist
  }

  /** Relaxing one arc keeps every entry realised. */
  lemma RelaxRealised(g: Graph, source: nat, dist: seq<int>, u: nat, j: nat)
    requires InRange(g) && AllRealised(g, source, dist) && u < |g| && j < |g[u]|
    ensures AllRealised(g, source, Relax(g, dist, u, j))
  {
    assert Realised(g, source, u, dist[u]);
    var s: nat, w: seq<Arc> :| IsWalk(g, s, w, u) && dist[u] == Offset(source, s) + Weight(w);
    ExtendWalk(g, s, w, u, j);
    var a := ArcOf(g, u, j);
    assert Realised(g, source, a.head, dist[u] + g[u][j].cost);
  }

  lemma RelaxLowers(g: Graph, dist: seq<int>, earlier: seq<int>, u: nat, j: nat)
    requires InRange(g) && |dist| == |earlier| == |g| && u < |g| && j < |g[u]|
    requires forall v :: 0 <= v < |g| ==> dist[v] <= earlier[v]
    requires RelaxedBefore(g, dist, earlier, u, j)
    ensures forall v :: 0 <= v < |g| ==> Relax(g, dist, u, j)[v] <= dist[v] <= earlier[v]
    ensures RelaxedBefore(g, Relax(g, dist, u, j), earlier, u, j + 1)
  {
  }

  lemma RelaxAdvances(g: Graph, source: nat, dist: seq<int>, earlier: seq<int>, u: nat, j: nat)
    requires InRange(g) && |earlier| == |g| && u < |g| && j < |g[u]|
    requires MidRound(g, source, dist, earlier, u, j)
    ensures MidRound(g, source, Relax(g, dist, u, j), earlier, u, j + 1) && |Relax(g, dist, u, j)| == |g|
  {
    hide RelaxedBefore;
    RelaxRealised(g, source, dist, u, j);
    RelaxLowers(g, dist, earlier, u, j);
  }

  lemma StartRound(g: Graph, source: nat, dist: seq<int>)
    requires InRange(g) && AllRealised(g, source, dist)
    ensures MidRound(g, source, dist, dist, 0, 0)
  {
  }

  lemma NextVertex(g: Graph, source: nat, dist: seq<int>, earlier: seq<int>, u: nat)
    requires InRange(g) && |earlier| == |g| && u < |g| && MidRound(g, source, dist, earlier, u, |g[u]|)
    ensures MidRound(g, source, dist, earlier, u + 1, 0)
  {
  }

  lemma EndRound(g: Graph, source: nat, dist: seq<int>, earlier: seq<int>, k: nat)
    requires InRange(g) && |earlier| == |g| && MidRound(g, source, dist, earlier, |g|, 0)
    requires BoundsWalksUpTo(g, source, earlier, k)
    ensures AllRealised(g, source, dist) && BoundsWalksUpTo(g, source, dist, k + 1)
  {
    RoundAddsOneArc(g, source, earlier, dist, k);
  }

  lemma InitialTable(g: Graph, source: nat, dist: seq<int>)
    requires InRange(g) && source < |g| && |dist| == |g|
    requires forall v: nat :: v < |g| ==> dist[v] == Offset(source, v)
    ensures AllRealised(g, source, dist) && BoundsWalksUpTo(g, source, dist, 0)
  {
    forall v: nat | v < |g| ensures Realised(g, source, v, dist[v]) {
      assert IsWalk(g, v, [], v) && Weight([]) == 0;
    }
  }

  // ---------- what exactly a number of in-place rounds computes ----------

  /** An arc by where it is listed: entry j of vertex u. */
  datatype Place = Place(u: nat, j: nat)

  ghost predicate Listed(g: Graph, p: Place) {
    p.u < |g| && p.j < |g[p.u]|
  }

  /** p is listed before q, and so looked at before q in every round. */
  ghost predicate Before(p: Place, q: Place) {
    p.u < q.u || (p.u == q.u && p.j < q.j)
  }

  ghost predicate IsRoute(g: Graph, s: nat, w: seq<Place>, t: nat)
    requires InRange(g)
  {
    if w == [] then s == t && s < |g|
    else
      var last := w[|w| - 1];
      Listed(g, last) && ArcOf(g, last.u, last.j).head == t && IsRoute(g, s, w[..|w| - 1], last.u)
  }

  ghost function Cost(g: Graph, w: seq<Place>): int {
    if w == [] then 0
    else
      var last := w[|w| - 1];
      Cost(g, w[..|w| - 1]) + if Listed(g, last) then g[last.u][last.j].cost else 0
  }

  /** The number of maximal stretches of a route that take arcs in listing order. */
  ghost function Runs(w: seq<Place>): nat {
    if w == [] then 0
    else if |w| == 1 then 1
    else Runs(w[..|w| - 1]) + if Before(w[|w| - 2], w[|w| - 1]) then 0 else 1
  }

  /** k full rounds and the part of another one before end are enough to follow w. */
  ghost predicate Fits(w: seq<Place>, k: nat, end: Place) {
    Runs(w) <= k || (Runs(w) == k + 1 && Before(w[|w| - 1], end))
  }

  ghost predicate Follows(g: Graph, s: nat, w: seq<Place>, t: nat, k: nat, end: Place)
    requires InRange(g)
  {
    IsRoute(g, s, w, t) && Fits(w, k, end)
  }

  ghost predicate Attained(g: Graph, source: nat, v: nat, d: int, k: nat, end: Place)
    requires InRange(g)
  {
    exists s: nat, w: seq<Place> :: Follows(g, s, w, v, k, end) && d == Offset(source, s) + Cost(g, w)
  }

  /** Every entry is the least offset plus cost of the routes that can be followed so far. */
  ghost predicate IsLeast(g: Graph, source: nat, dist: seq<int>, k: nat, end: Place)
    requires InRange(g)
  {
    && |dist| == |g|
    && (forall v: nat :: v < |g| ==> Attained(g, source, v, dist[v], k, end))
    && (forall s: nat, w: seq<Place>, v: nat :: Follows(g, s, w, v, k, end) && v < |g| ==>
          dist[v] <= Offset(source, s) + Cost(g, w))
  }

  lemma ExtendRoute(g: Graph, s: nat, w: seq<Place>, k: nat, p: Place, end: Place)
    requires InRange(g) && Listed(g, p) && Follows(g, s, w, p.u, k, p) && end == Place(p.u, p.j + 1)
    ensures Follows(g, s, w + [p], ArcOf(g, p.u, p.j).head, k, end)
    ensures Cost(g, w + [p]) == Cost(g, w) + g[p.u][p.j].cost
  {
    assert (w + [p])[..|w + [p]| - 1] == w;
  }

  /** A route that can be followed up to and including p either ends with p or could be followed before. */
  lemma LastStep(g: Graph, s: nat, w: seq<Place>, t: nat, k: nat, p: Place, end: Place)
    requires InRange(g) && Follows(g, s, w, t, k, end) && end == Place(p.u, p.j + 1)
    ensures Follows(g, s, w, t, k, p) || (w != [] && w[|w| - 1] == p && Follows(g, s, w[..|w| - 1], p.u, k, p))
  {
  }

  lemma RelaxKeepsLeast(g: Graph, source: nat, dist: seq<int>, k: nat, p: Place, end: Place)
    requires InRange(g) && Listed(g, p) && IsLeast(g, source, dist, k, p) && end == Place(p.u, p.j + 1)
    ensures IsLeast(g, source, Relax(g, dist, p.u, p.j), k, end)
  {
    hide Fits, Runs, IsRoute, Cost;
    var a, dist' := ArcOf(g, p.u, p.j), Relax(g, dist, p.u, p.j);
    forall v: nat | v < |g| ensures Attained(g, source, v, dist'[v], k, end) {
      if dist'[v] == dist[v] {
        var s: nat, w: seq<Place> :| Follows(g, s, w, v, k, p) && dist[v] == Offset(source, s) + Cost(g, w);
        FollowsLonger(g, s, w, v, k, p, end);
      } else {
        var s: nat, w: seq<Place> :| Follows(g, s, w, p.u, k, p) && dist[p.u] == Offset(source, s) + Cost(g, w);
        ExtendRoute(g, s, w, k, p, end);
      }
    }
    forall s: nat, w: seq<Place>, v: nat | Follows(g, s, w, v, k, end) && v < |g|
      ensures dist'[v] <= Offset(source, s) + Cost(g, w)
    {
      LastStep(g, s, w, v, k, p, end);
      if !Follows(g, s, w, v, k, p) {
        StepCost(g, s, w, v, p);
      }
    }
  }

  lemma FollowsLonger(g: Graph, s: nat, w: seq<Place>, t: nat, k: nat, p: Place, end: Place)
    requires InRange(g) && Follows(g, s, w, t, k, p) && Before(p, end)
    ensures Follows(g, s, w, t, k, end)
  {
  }

  lemma StepCost(g: Graph, s: nat, w: seq<Place>, t: nat, p: Place)
    requires InRange(g) && Listed(g, p) && IsRoute(g, s, w, t) && w != [] && w[|w| - 1] == p
    ensures t == ArcOf(g, p.u, p.j).head && Cost(g, w) == Cost(g, w[..|w| - 1]) + g[p.u][p.j].cost
  {
  }

  /** Two ends between which no arc is listed. */
  lemma SameEnds(g: Graph, source: nat, dist: seq<int>, k: nat, end: Place, k': nat, end': Place)
    requires InRange(g) && IsLeast(g, source, dist, k, end)
    requires forall s, w, t :: Follows(g, s, w, t, k, end) <==> Follows(g, s, w, t, k', end')
    ensures IsLeast(g, source, dist, k', end')
  {
    hide Follows;
    forall v: nat | v < |g| ensures Attained(g, source, v, dist[v], k', end') {
      var s: nat, w: seq<Place> :| Follows(g, s, w, v, k, end) && dist[v] == Offset(source, s) + Cost(g, w);
      assert Follows(g, s, w, v, k', end');
    }
  }

  lemma LeastAtNextVertex(g: Graph, source: nat, dist: seq<int>, k: nat, u: nat)
    requires InRange(g) && u < |g| && IsLeast(g, source, dist, k, Place(u, |g[u]|))
    ensures IsLeast(g, source, dist, k, Place(u + 1, 0))
  {
    SameEnds(g, source, dist, k, Place(u, |g[u]|), k, Place(u + 1, 0));
  }

  lemma LeastAtNextRound(g: Graph, source: nat, dist: seq<int>, k: nat)
    requires InRange(g) && IsLeast(g, source, dist, k, Place(|g|, 0))
    ensures IsLeast(g, source, dist, k + 1, Place(0, 0))
  {
    SameEnds(g, source, dist, k, Place(|g|, 0), k + 1, Place(0, 0));
  }

  lemma LeastAtStart(g: Graph, source: nat, dist: seq<int>)
    requires InRange(g) && source < |g| && |dist| == |g|
    requires forall v: nat :: v < |g| ==> dist[v] == Offset(source, v)
    ensures IsLeast(g, source, dist, 0, Place(0, 0))
  {
    forall v: nat | v < |g| ensures Attained(g, source, v, dist[v], 0, Place(0, 0)) {
      assert Follows(g, v, [], v, 0, Place(0, 0)) && Cost(g, []) == 0;
    }
    forall s: nat, w: seq<Place>, v: nat | Follows(g, s, w, v, 0, Place(0, 0)) && v < |g| ensures w == [] {
      RunsOfRoute(w);
    }
  }

  lemma RunsOfRoute(w: seq<Place>)
    ensures Runs(w) == 0 <==> w == []
  {
  }

  /** Without arcs the table keeps what it was filled with. */
  lemma TableWithoutArcs(g: Graph, source: nat, dist: seq<int>, k: nat, v: nat)
    requires InRange(g) && IsLeast(g, source, dist, k, Place(0, 0)) && v < |g|
    requires forall u :: 0 <= u < |g| ==> g[u] == []
    ensures dist[v] == if v == source then 0 else 100000000
  {
    assert Attained(g, source, v, dist[v], k, Place(0, 0));
    var s: nat, w: seq<Place> :| Follows(g, s, w, v, k, Place(0, 0)) && dist[v] == Offset(source, s) + Cost(g, w);
    assert w == [];
  }

  method RelaxEdge(adjList: Graph, table: seq<int>, u: nat, j: nat, changed: bool)
    returns (dist: seq<int>, modified: bool)
    requires InRange(adjList) && |table| == |adjList| && u < |adjList| && j < |adjList[u]|
    ensures dist == Relax(adjList, table, u, j) && (modified <==> changed || dist != table)
  {
    dist, modified := table, changed;
    var edge := adjList[u][j];
    if dist[u] + edge.cost < dist[At(edge.node, |adjList|)] {
      modified := true;
      dist := dist[At(edge.node, |adjList|) := dist[u] + edge.cost];
    }
  }

  /** What holds of the table after k rounds. */
  ghost predicate AfterRounds(g: Graph, source: nat, dist: seq<int>, k: nat)
    requires InRange(g)
  {
    && AllRealised(g, source, dist) && BoundsWalksUpTo(g, source, dist, k)
    && IsLeast(g, source, dist, k, Place(0, 0))
  }

  /** What holds in the round after those, before arc j of vertex u is looked at. */
  ghost predicate InsideRound(g: Graph, source: nat, dist: seq<int>, earlier: seq<int>, k: nat, u: nat, j: nat)
    requires InRange(g)
  {
    && |earlier| == |g| && MidRound(g, source, dist, earlier, u, j) && BoundsWalksUpTo(g, source, earlier, k)
    && IsLeast(g, source, dist, k, Place(u, j))
  }

  lemma RoundsStart(g: Graph, source: nat, dist: seq<int>)
    requires InRange(g) && source < |g| && |dist| == |g|
    requires forall v: nat :: v < |g| ==> dist[v] == Offset(source, v)
    ensures AfterRounds(g, source, dist, 0)
  {
    InitialTable(g, source, dist);
    LeastAtStart(g, source, dist);
  }

  lemma RoundStarts(g: Graph, source: nat, dist: seq<int>, k: nat)
    requires InRange(g) && AfterRounds(g, source, dist, k)
    ensures InsideRound(g, source, dist, dist, k, 0, 0)
  {
    StartRound(g, source, dist);
  }

  lemma ArcIsRelaxed(g: Graph, source: nat, dist: seq<int>, earlier: seq<int>, k: nat, u: nat, j: nat)
    requires InRange(g) && |dist| == |g| && u < |g| && j < |g[u]|
    requires InsideRound(g, source, dist, earlier, k, u, j)
    ensures InsideRound(g, source, Relax(g, dist, u, j), earlier, k, u, j + 1) && |Relax(g, dist, u, j)| == |g|
  {
    RelaxAdvances(g, source, dist, earlier, u, j);
    RelaxKeepsLeast(g, source, dist, k, Place(u, j), Place(u, j + 1));
  }

  lemma VertexIsDone(g: Graph, source: nat, dist: seq<int>, earlier: seq<int>, k: nat, u: nat)
    requires InRange(g) && u < |g| && InsideRound(g, source, dist, earlier, k, u, |g[u]|)
    ensures InsideRound(g, source, dist, earlier, k, u + 1, 0)
  {
    NextVertex(g, source, dist, earlier, u);
    LeastAtNextVertex(g, source, dist, k, u);
  }

  lemma RoundIsDone(g: Graph, source: nat, dist: seq<int>, earlier: seq<int>, k: nat)
    requires InRange(g) && InsideRound(g, source, dist, earlier, k, |g|, 0)
    ensures AfterRounds(g, source, dist, k + 1)
  {
    EndRound(g, source, dist, earlier, k);
    LeastAtNextRound(g, source, dist, k);
  }

  lemma RoundsEnd(g: Graph, source: nat, dist: seq<int>, k: nat)
    requires InRange(g) && AfterRounds(g, source, dist, k)
    ensures AllRealised(g, source, dist) && BoundsWalksUpTo(g, source, dist, k)
    ensures IsLeast(g, source, dist, k, Place(0, 0))
  {
  }

  /** Each entry is the least offset plus cost of the routes that size-1 rounds can follow. */
  method BellmanFord(source: int, adjList: Graph) returns (dist: seq<int>)
    requires InRange(adjList) && Indexable(source, |adjList|)
    ensures AllRealised(adjList, At(source, |adjList|), dist)
    ensures BoundsWalksUpTo(adjList, At(source, |adjList|), dist, |adjList| - 1) && |dist| == |adjList|
    ensures IsLeast(adjList, At(source, |adjList|), dist, |adjList| - 1, Place(0, 0))
  {
    hide InRange, AfterRounds, InsideRound, Relax, AllRealised, BoundsWalksUpTo, IsLeast;
    var size := |adjList|;
    ghost var src := At(source, size);
    dist := seq(size, _ => INF);
    dist := dist[At(source, size) := 0];
    RoundsStart(adjList, src, dist);

    var modified := true;
    for k := 0 to size - 1
      invariant modified && |dist| == size && AfterRounds(adjList, src, dist, k)
    {
      if !modified {
        break;
      }
      ghost var before := dist;
      RoundStarts(adjList, src, dist, k);
      for u := 0 to size
        invariant modified && |dist| == size && InsideRound(adjList, src, dist, before, k, u, 0)
      {
        for j := 0 to |adjList[u]|
          invariant modified && |dist| == size && InsideRound(adjList, src, dist, before, k, u, j)
        {
          ArcIsRelaxed(adjList, src, dist, before, k, u, j);
          dist, modified := RelaxEdge(adjList, dist, u, j, modified);
        }
        VertexIsDone(adjList, src, dist, before, k, u);
      }
      RoundIsDone(adjList, src, dist, before, k);
    }
    RoundsEnd(adjList, src, dist, size - 1);
  }

  lemma ScanStep(g: Graph, dist: seq<int>, u: nat, j: nat)
    requires InRange(g) && |dist| == |g| && u < |g| && j < |g[u]|
    ensures dist[u] + g[u][j].cost < dist[ArcOf(g, u, j).head] ==> !RelaxedAgainst(g, dist, dist)
    ensures dist[u] + g[u][j].cost >= dist[ArcOf(g, u, j).head] && RelaxedBefore(g, dist, dist, u, j) ==>
              RelaxedBefore(g, dist, dist, u, j + 1)
  {
  }

  lemma ScanEnds(g: Graph, dist: seq<int>)
    requires InRange(g) && |dist| == |g|
    ensures RelaxedBefore(g, dist, dist, 0, 0)
    ensures forall u: nat :: u < |g| && RelaxedBefore(g, dist, dist, u, |g[u]|) ==>
              RelaxedBefore(g, dist, dist, u + 1, 0)
    ensures RelaxedBefore(g, dist, dist, |g|, 0) ==> RelaxedAgainst(g, dist, dist)
  {
  }

  /** The answer does not depend on the source: it is about the whole graph. */
  method HasNegativeCycleFrom(source: int, adjList: Graph) returns (foundCycle: bool)
    requires InRange(adjList) && Indexable(source, |adjList|)
    ensures foundCycle <==> HasNegativeCycle(adjList)
  {
    hide AllRealised, BoundsWalksUpTo, RelaxedBefore, RelaxedAgainst, HasNegativeCycle;
    foundCycle := false;
    var dist := BellmanFord(source, adjList);
    StableIffNoNegativeCycle(adjList, At(source, |adjList|), dist);
    ScanEnds(adjList, dist);
    for u := 0 to |adjList|
      invariant foundCycle ==> !RelaxedAgainst(adjList, dist, dist)
      invariant !foundCycle ==> RelaxedBefore(adjList, dist, dist, u, 0)
    {
      for j := 0 to |adjList[u]|
        invariant foundCycle ==> !RelaxedAgainst(adjList, dist, dist)
        invariant !foundCycle ==> RelaxedBefore(adjList, dist, dist, u, j)
      {
        ScanStep(adjList, dist, u, j);
        var edge := adjList[u][j];
        if dist[u] + edge.cost < dist[At(edge.node, |adjList|)] {
          foundCycle := true;
          break;
        }
      }
    }
  }

  /** With no negative cycle, each entry is the least offset plus weight over all starts and all walks. */
  lemma DistancesAreMinimal(g: Graph, source: nat, dist: seq<int>, v: nat)
    requires InRange(g) && v < |g| && AllRealised(g, source, dist) && !HasNegativeCycle(g)
    requires BoundsWalksUpTo(g, source, dist, |g| - 1)
    ensures exists s: nat, w: seq<Arc> :: IsWalk(g, s, w, v) && dist[v] == Offset(source, s) + Weight(w)
    ensures forall s: nat, w: seq<Arc> :: IsWalk(g, s, w, v) ==> dist[v] <= Offset(source, s) + Weight(w)
  {
    assert Realised(g, source, v, dist[v]);
    forall s: nat, w: seq<Arc> | IsWalk(g, s, w, v) ensures dist[v] <= Offset(source, s) + Weight(w) {
      NoNegativeCycleBoundsAll(g, source, dist, |w|);
    }
  }

  // ---------- what this says about the source ----------

  ghost predicate AllWalksWeighAtLeast(g: Graph, least: int)
    requires InRange(g)
  {
    forall s: nat, w: seq<Arc>, t: nat :: IsWalk(g, s, w, t) ==> least <= Weight(w)
  }

  ghost predicate LeastFromSource(g: Graph, source: nat, v: nat, d: int)
    requires InRange(g)
  {
    && (exists w: seq<Arc> :: IsWalk(g, source, w, v) && d == Weight(w))
    && (forall w: seq<Arc> :: IsWalk(g, source, w, v) ==> d <= Weight(w))
  }

  /** An entry below INF + least is the distance from the source, where no walk weighs less than least;
      it is below that exactly when some walk from the source is. */
  lemma SmallEntriesAreDistances(g: Graph, source: nat, dist: seq<int>, v: nat, least: int)
    requires InRange(g) && v < |g| && AllRealised(g, source, dist) && BoundsWalksUpTo(g, source, dist, |g| - 1)
    requires AllWalksWeighAtLeast(g, least)
    ensures dist[v] < INF + least <==> exists w: seq<Arc> :: IsWalk(g, source, w, v) && Weight(w) < INF + least
    ensures dist[v] < INF + least ==> LeastFromSource(g, source, v, dist[v])
  {
    if HasNegativeCycle(g) {
      NegativeCyclesSinkWalks(g, least);
    }
    DistancesAreMinimal(g, source, dist, v);
    var s: nat, w: seq<Arc> :| IsWalk(g, s, w, v) && dist[v] == Offset(source, s) + Weight(w);
    if dist[v] < INF + least {
      assert s == source;
    }
  }

  /** Going round a negative cycle often enough passes any bound. */
  lemma {:induction false} GoRound(g: Graph, u: nat, w: seq<Arc>, n: nat) returns (r: seq<Arc>)
    requires InRange(g) && IsWalk(g, u, w, u) && Weight(w) < 0
    ensures IsWalk(g, u, r, u) && Weight(r) + n <= 0
  {
    if n == 0 {
      r := w;
    } else {
      var q := GoRound(g, u, w, n - 1);
      r := q + w;
      JoinWalks(g, u, q, u, w, u);
      WeightAppend(q, w);
    }
  }

  lemma NegativeCyclesSinkWalks(g: Graph, least: int)
    requires InRange(g) && HasNegativeCycle(g)
    ensures !AllWalksWeighAtLeast(g, least)
  {
    var u: nat, w: seq<Arc> :| IsWalk(g, u, w, u) && Weight(w) < 0;
    var n: nat := if least <= 0 then 1 - least else 0;
    var r := GoRound(g, u, w, n);
  }

  ghost predicate Reaches(g: Graph, s: nat, t: nat)
    requires InRange(g)
  {
    exists w: seq<Arc> :: IsWalk(g, s, w, t)
  }

  /** Some negative cycle can be reached from the source. */
  ghost predicate CycleFrom(g: Graph, source: nat)
    requires InRange(g)
  {
    exists u: nat, w: seq<Arc> :: Reaches(g, source, u) && IsWalk(g, u, w, u) && Weight(w) < 0
  }

  /** The message names the source, but vertex 1 and its negative loop cannot be reached from vertex 0. */
  lemma CycleNeedNotBeReachable() returns (g: Graph)
    ensures InRange(g) && |g| == 2 && HasNegativeCycle(g) && !CycleFrom(g, 0)
  {
    g := [[], [Edge(1, -1)]];
    var a := ArcOf(g, 1, 0);
    assert IsArc(g, a) && [a][..0] == [] && IsWalk(g, 1, [], 1);
    assert IsWalk(g, 1, [a], 1) && Weight([a]) == -1;
    forall u: nat, w: seq<Arc> | Reaches(g, 0, u) && IsWalk(g, u, w, u) ensures w == [] {
      var p: seq<Arc> :| IsWalk(g, 0, p, u);
      StaysAtStart(g, p, u);
      StaysAtStart(g, w, u);
    }
  }

  // ---------- for which graphs the message is right ----------

  /** The same arcs, with costs of its own. */
  ghost predicate SameShape(g: Graph, h: Graph) {
    && |g| == |h|
    && (forall u :: 0 <= u < |g| ==> |g[u]| == |h[u]|)
    && (forall u, j :: 0 <= u < |g| && 0 <= j < |g[u]| ==> g[u][j].node == h[u][j].node)
  }

  /** u lies on a closed walk that is not empty. */
  ghost predicate OnClosedWalk(g: Graph, u: nat)
    requires InRange(g)
  {
    exists w: seq<Arc> :: w != [] && IsWalk(g, u, w, u)
  }

  ghost predicate ReachesClosedWalks(g: Graph, source: nat)
    requires InRange(g)
  {
    forall u: nat :: OnClosedWalk(g, u) ==> Reaches(g, source, u)
  }

  /** With any costs on these arcs, the report is about cycles that the source reaches. */
  ghost predicate ReportsReachable(g: Graph, source: nat) {
    forall h: Graph :: SameShape(g, h) && InRange(h) ==> (HasNegativeCycle(h) <==> CycleFrom(h, source))
  }

  lemma {:induction false} WalkInShape(g: Graph, h: Graph, s: nat, w: seq<Arc>, t: nat) returns (w': seq<Arc>)
    requires InRange(g) && InRange(h) && SameShape(g, h) && IsWalk(g, s, w, t)
    ensures |w'| == |w| && IsWalk(h, s, w', t)
  {
    w' := [];
    if w != [] {
      var last := w[|w| - 1];
      var front := WalkInShape(g, h, s, w[..|w| - 1], last.tail);
      var j: nat :| j < |g[last.tail]| && last == ArcOf(g, last.tail, j);
      w' := front + [ArcOf(h, last.tail, j)];
      assert w'[..|front|] == front;
    }
  }

  lemma ReachesInShape(g: Graph, h: Graph, s: nat, t: nat)
    requires InRange(g) && InRange(h) && SameShape(g, h) && Reaches(g, s, t)
    ensures Reaches(h, s, t)
  {
    var w: seq<Arc> :| IsWalk(g, s, w, t);
    var w' := WalkInShape(g, h, s, w, t);
  }

  lemma ReachesAlongArc(g: Graph, s: nat, u: nat, j: nat)
    requires InRange(g) && u < |g| && j < |g[u]| && Reaches(g, s, u)
    ensures Reaches(g, s, ArcOf(g, u, j).head)
  {
    var p: seq<Arc> :| IsWalk(g, s, p, u);
    var w := p + [ArcOf(g, u, j)];
    assert w[..|p|] == p;
    assert IsWalk(g, s, w, ArcOf(g, u, j).head);
  }

  /** Arcs that leave what the source reaches are free, all others gain. */
  ghost function ReachedIsFree(g: Graph, source: nat): Graph
    requires InRange(g)
  {
    seq(|g|, u requires 0 <= u < |g| =>
      seq(|g[u]|, j requires 0 <= j < |g[u]| => Edge(g[u][j].node, if Reaches(g, source, u) then 0 else -1)))
  }

  lemma {:induction false} FreeWalk(g: Graph, source: nat, s: nat, w: seq<Arc>, t: nat)
    requires InRange(g) && InRange(ReachedIsFree(g, source)) && IsWalk(ReachedIsFree(g, source), s, w, t)
    requires Reaches(g, source, s)
    ensures Reaches(g, source, t) && Weight(w) == 0
  {
    if w != [] {
      var h, last := ReachedIsFree(g, source), w[|w| - 1];
      FreeWalk(g, source, s, w[..|w| - 1], last.tail);
      var j: nat :| j < |h[last.tail]| && last == ArcOf(h, last.tail, j);
      ReachesAlongArc(g, source, last.tail, j);
    }
  }

  /** No walk costs anything, and one that ends with an arc from an unreached vertex gains. */
  lemma {:induction false} NoWalkCosts(g: Graph, source: nat, s: nat, w: seq<Arc>, t: nat)
    requires InRange(g) && InRange(ReachedIsFree(g, source)) && IsWalk(ReachedIsFree(g, source), s, w, t)
    ensures Weight(w) <= 0
    ensures w != [] && !Reaches(g, source, w[|w| - 1].tail) ==> Weight(w) < 0
  {
    if w != [] {
      NoWalkCosts(g, source, s, w[..|w| - 1], w[|w| - 1].tail);
    }
  }

  lemma UnreachedClosedWalkGains(g: Graph, source: nat, u: nat)
    requires InRange(g) && InRange(ReachedIsFree(g, source)) && SameShape(g, ReachedIsFree(g, source))
    requires OnClosedWalk(g, u) && !Reaches(g, source, u)
    ensures HasNegativeCycle(ReachedIsFree(g, source))
  {
    var h := ReachedIsFree(g, source);
    var w: seq<Arc> :| w != [] && IsWalk(g, u, w, u);
    var w' := WalkInShape(g, h, u, w, u);
    NoWalkCosts(g, source, u, w', u);
    var last := w'[|w'| - 1];
    if Reaches(g, source, last.tail) {
      var j: nat :| j < |h[last.tail]| && last == ArcOf(h, last.tail, j);
      ReachesAlongArc(g, source, last.tail, j);
    }
  }

  lemma UnreachedClosedWalkMisleads(g: Graph, source: nat, u: nat)
    requires InRange(g) && OnClosedWalk(g, u) && !Reaches(g, source, u)
    ensures !ReportsReachable(g, source)
  {
    hide IsWalk, Reaches;
    var h := ReachedIsFree(g, source);
    assert SameShape(g, h) && InRange(h);
    UnreachedClosedWalkGains(g, source, u);
    if CycleFrom(h, source) {
      var v: nat, r: seq<Arc> :| Reaches(h, source, v) && IsWalk(h, v, r, v) && Weight(r) < 0;
      ReachesInShape(h, g, source, v);
      FreeWalk(g, source, v, r, v);
    }
  }

  /** The message is right whatever the costs exactly when the source reaches every vertex on a closed walk. */
  lemma MessageIsRightIff(g: Graph, source: nat)
    requires InRange(g)
    ensures ReachesClosedWalks(g, source) <==> ReportsReachable(g, source)
  {
    if ReachesClosedWalks(g, source) {
      forall h: Graph | SameShape(g, h) && InRange(h) && HasNegativeCycle(h) ensures CycleFrom(h, source) {
        var u: nat, w: seq<Arc> :| IsWalk(h, u, w, u) && Weight(w) < 0;
        var w' := WalkInShape(h, g, u, w, u);
        assert w' != [] && OnClosedWalk(g, u);
        ReachesInShape(g, h, source, u);
      }
    } else {
      var u: nat :| OnClosedWalk(g, u) && !Reaches(g, source, u);
      UnreachedClosedWalkMisleads(g, source, u);
    }
  }

  lemma {:induction false} StaysAtStart(g: Graph, w: seq<Arc>, t: nat)
    requires InRange(g) && |g| > 0 && g[0] == [] && IsWalk(g, 0, w, t)
    ensures w == [] && t == 0
  {
    if w != [] {
      StaysAtStart(g, w[..|w| - 1], w[|w| - 1].tail);
    }
  }
}
