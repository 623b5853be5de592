/** What a finished translation amounts to: the heap reached from a returned value and the source graph
    reached from the translated node cannot be told apart at any depth. */
module Mirror {
  import opened Caches
  import opened Options
  import opened ClangGraph

  ghost predicate IsBlock(h: seq<Block>, v: Value, tag: nat, size: nat) {
    v.Ptr? && v.addr < |h| && h[v.addr].tag == tag && |h[v.addr].fields| == size
  }

  /** Looking k levels deep, the value v in heap h looks like the slot of the source graph. */
  ghost predicate Agrees(h: seq<Block>, v: Value, g: Graph, slot: Slot, k: nat)
    decreases k
  {
    k == 0 ||
    match slot
    case Exactly(x) => v == x
    case Uid => v.Imm?
    case Tuple(values) => IsBlock(h, v, 0, |values|) && h[v.addr].fields == values
    case OptValue(None) => v == UNIT
    case OptValue(Some(x)) => IsBlock(h, v, 0, 1) && h[v.addr].fields == [x]
    case OptChild(None) => v == UNIT
    case OptChild(Some(n)) => IsBlock(h, v, 0, 1) && Agrees(h, h[v.addr].fields[0], g, Child(n), k - 1)
    case Children(ns) =>
      if ns == [] then v == UNIT
      else
        IsBlock(h, v, 0, 2) && Agrees(h, h[v.addr].fields[0], g, Child(ns[0]), k - 1) &&
        Agrees(h, h[v.addr].fields[1], g, Children(ns[1..]), k - 1)
    case Child(n) =>
      InGraph(g, n) && IsBlock(h, v, Tag(g, n), |Slots(g, n)|) &&
      forall i :: 0 <= i < |Slots(g, n)| ==> Agrees(h, h[v.addr].fields[i], g, Slots(g, n)[i], k - 1)
  }

  /** v and n are bisimilar. */
  ghost predicate Mirrors(h: seq<Block>, v: Value, g: Graph, n: Node) {
    forall k: nat :: Agrees(h, v, g, Child(n), k)
  }

  /** The block at v is complete for n. */
  ghost predicate Settled(g: Graph, s: State, v: Value, n: Node) {
    && InGraph(g, n) && IsBlock(s.heap, v, Tag(g, n), |Slots(g, n)|)
    && forall i :: 0 <= i < |Slots(g, n)| ==>
         SlotHolds(s, Slots(g, n)[i], s.heap[v.addr].fields[i])
  }

  ghost predicate AllSettled(g: Graph, s: State) {
    forall v, n {:trigger Settled(g, s, v, n)} :: Refers(s, v, n) ==> Settled(g, s, v, n)
  }

  lemma NothingOpenMeansSettled(g: Graph, s: State, pending: set<nat>)
    requires Inv(g, s, {}, pending)
    ensures AllSettled(g, s)
  {
  }

  lemma {:induction false} NodeAgrees(g: Graph, s: State, v: Value, n: Node, k: nat)
    requires AllSettled(g, s) && Refers(s, v, n)
    ensures Agrees(s.heap, v, g, Child(n), k)
    decreases k, 0
  {
    hide Slots, SlotHolds, Tag;
    if k > 0 {
      assert Settled(g, s, v, n);
      forall i | 0 <= i < |Slots(g, n)|
        ensures Agrees(s.heap, s.heap[v.addr].fields[i], g, Slots(g, n)[i], k - 1)
      {
        HeldSlotAgrees(g, s, s.heap[v.addr].fields[i], Slots(g, n)[i], k - 1);
      }
    }
  }

  lemma {:induction false} ListAgrees(g: Graph, s: State, v: Value, ns: seq<Node>, k: nat)
    requires AllSettled(g, s) && ListHolds(s, v, ns)
    ensures Agrees(s.heap, v, g, Children(ns), k)
    decreases k, 1
  {
    hide AllSettled, Slots, Tag;
    if k > 0 && ns != [] {
      NodeAgrees(g, s, s.heap[v.addr].fields[0], ns[0], k - 1);
      ListAgrees(g, s, s.heap[v.addr].fields[1], ns[1..], k - 1);
    }
  }

  lemma {:induction false} HeldSlotAgrees(g: Graph, s: State, v: Value, slot: Slot, k: nat)
    requires AllSettled(g, s) && SlotHolds(s, slot, v)
    ensures Agrees(s.heap, v, g, slot, k)
    decreases k, 2
  {
    hide AllSettled, Slots, Tag, ListHolds;
    if k > 0 {
      match slot
      case Child(n) =>
        NodeAgrees(g, s, v, n, k);
      case OptChild(Some(n)) =>
        NodeAgrees(g, s, s.heap[v.addr].fields[0], n, k - 1);
      case Children(ns) =>
        ListAgrees(g, s, v, ns, k);
      case _ =>
    }
  }

  /** With no block left open, every translated value mirrors its node. */
  lemma TranslationMirrorsSource(g: Graph, s: State, pending: set<nat>, v: Value, n: Node)
    requires Inv(g, s, {}, pending) && Refers(s, v, n)
    ensures Mirrors(s.heap, v, g, n)
  {
    NothingOpenMeansSettled(g, s, pending);
    forall k: nat ensures Agrees(s.heap, v, g, Child(n), k) {
      NodeAgrees(g, s, v, n, k);
    }
  }

  // ---------- everything reachable is translated ----------

  ghost predicate Translated(s: State, n: Node) {
    exists a :: a in s.origin && s.origin[a] == n
  }

  lemma {:induction false} ListMembersAreTranslated(s: State, v: Value, ns: seq<Node>, c: Node)
    requires ListHolds(s, v, ns) && c in ns
    ensures Translated(s, c)
    decreases |ns|
  {
    if ns[0] == c {
      var f := s.heap[v.addr].fields[0];
      assert f.addr in s.origin && s.origin[f.addr] == c;
    } else {
      assert c in ns[1..];
      ListMembersAreTranslated(s, s.heap[v.addr].fields[1], ns[1..], c);
    }
  }

  lemma MentionedIsTranslated(s: State, v: Value, slot: Slot, c: Node)
    requires SlotHolds(s, slot, v) && Mentions(slot, c)
    ensures Translated(s, c)
  {
    match slot
    case Child(m) =>
      assert v.addr in s.origin && s.origin[v.addr] == c;
    case OptChild(Some(m)) =>
      var w := s.heap[v.addr].fields[0];
      assert w.addr in s.origin && s.origin[w.addr] == c;
    case Children(ns) =>
      ListMembersAreTranslated(s, v, ns, c);
  }

  lemma EdgesLeadToTranslated(g: Graph, s: State, n: Node, c: Node)
    requires AllSettled(g, s) && Translated(s, n) && Edge(g, n, c)
    ensures Translated(s, c)
  {
    var a :| a in s.origin && s.origin[a] == n;
    assert Refers(s, Ptr(a), n) && Settled(g, s, Ptr(a), n);
    var i :| 0 <= i < |Slots(g, n)| && Mentions(Slots(g, n)[i], c);
    MentionedIsTranslated(s, s.heap[a].fields[i], Slots(g, n)[i], c);
  }

  lemma {:induction false} ReachableIsTranslated(g: Graph, s: State, pending: set<nat>, path: seq<Node>)
    requires Inv(g, s, {}, pending) && IsPath(g, path) && Translated(s, path[0])
    ensures Translated(s, path[|path| - 1])
    decreases |path|
  {
    hide Inv, AllSettled, Edge;
    if |path| > 1 {
      NothingOpenMeansSettled(g, s, pending);
      EdgesLeadToTranslated(g, s, path[0], path[1]);
      ReachableIsTranslated(g, s, pending, path[1..]);
    }
  }

  lemma WhatIsReachedIsTranslated(g: Graph, s: State, pending: set<nat>, n: Node, m: Node)
    requires Inv(g, s, {}, pending) && Translated(s, n) && Reaches(g, n, m)
    ensures Translated(s, m)
  {
    hide Inv, Edge;
    var path :| IsPath(g, path) && path[0] == n && path[|path| - 1] == m;
    ReachableIsTranslated(g, s, pending, path);
  }

  /** Starting from nothing, exactly what the root reaches is translated. */
  lemma TranslatedIsReachable(g: Graph, s: State, s': State, pending: set<nat>, v: Value, root: Node, m: Node)
    requires s.origin == map[] && NewUnder(g, s, s', root) && Inv(g, s', {}, pending) && Refers(s', v, root)
    ensures Translated(s', m) <==> Reaches(g, root, m)
  {
    hide Inv, Reaches;
    assert Translated(s', root);
    if Reaches(g, root, m) {
      WhatIsReachedIsTranslated(g, s', pending, root, m);
    }
  }

  // ---------- sharing and identity ----------

  /** A type or declaration is built once, so that sharing in the source is sharing in the heap;
      a qualified type is built at most twice, and more than once only if it lies on a cycle. */
  lemma SharingIsPhysical(g: Graph, s: State, open: set<nat>, pending: set<nat>, n: Node)
    requires Inv(g, s, open, pending)
    ensures !n.QualN? ==> forall a, b :: a in s.origin && b in s.origin && s.origin[a] == s.origin[b] == n ==> a == b
    ensures |BlocksFor(s, n)| <= if n.QualN? && OnCycle(g, n.id) then 2 else 1
  {
    if !n.QualN? {
      forall a, b | a in s.origin && b in s.origin && s.origin[a] == s.origin[b] == n ensures a == b {
        assert Ptr(a) == CacheFor(s, n)[n.id] == Ptr(b);
      }
      AtMostOne(BlocksFor(s, n));
    } else {
      assert |BlocksFor(s, QualN(n.id))| == QualCount(s, pending, n.id);
    }
  }

  lemma AtMostOne(s: set<nat>)
    requires forall a, b :: a in s && b in s ==> a == b
    ensures |s| <= 1
  {
    if s != {} {
      var x :| x in s;
      assert s == {x};
    }
  }

  /** Each uid below the counter belongs to exactly one declaration's block, and each such block has one. */
  lemma UidsAreBijective(g: Graph, s: State, open: set<nat>, pending: set<nat>, u: nat)
    requires Inv(g, s, open, pending)
    ensures u < s.uid <==> exists a :: HasUid(s, a, u)
    ensures forall a, b :: HasUid(s, a, u) && HasUid(s, b, u) ==> a == b
    ensures forall a :: a in s.origin && IsDecl(s.origin[a]) ==> exists v :: HasUid(s, a, v)
  {
    if u < s.uid {
      assert UidGiven(s, u);
    }
    forall a | HasUid(s, a, u) ensures u < s.uid {
      var v :| 0 <= v < s.uid && HasUid(s, a, v);
    }
    forall a | a in s.origin && IsDecl(s.origin[a]) ensures exists v :: HasUid(s, a, v) {
      var v :| 0 <= v < s.uid && HasUid(s, a, v);
    }
  }

  // ---------- qualified types that are built twice ----------

  /** The block at v was made for q, last of all, after q's type had been translated in state r. */
  ghost predicate BuiltAfterItsType(g: Graph, r: State, s: State, open: set<nat>, pending: set<nat>, v: Value, q: nat) {
    && (Inv(g, r, open, pending) || Inv(g, r, open, pending + {q}))
    && q in g.quals && Translated(r, TypeN(g.quals[q].ty))
    && v.Ptr? && v.addr !in r.origin && s.origin == r.origin[v.addr := QualN(q)]
    && (BlocksFor(r, QualN(q)) != {} ==> OnCycle(g, q))
  }

  /** A qualified type whose type leads back to it gets a block on the way down and another one on the way up;
      any other gets one. */
  lemma QualIsBuiltTwiceIffOnCycle(g: Graph, r: State, s: State, v: Value, q: nat)
    requires BuiltAfterItsType(g, r, s, {}, {}, v, q) && Inv(g, s, {}, {})
    ensures |BlocksFor(s, QualN(q))| == if OnCycle(g, q) then 2 else 1
  {
    hide Reaches, Inv;
    if OnCycle(g, q) {
      var pending := if Inv(g, r, {}, {}) then {} else {} + {q};
      WhatIsReachedIsTranslated(g, r, pending, TypeN(g.quals[q].ty), QualN(q));
      var b :| b in r.origin && r.origin[b] == QualN(q);
      AtLeastTwo(BlocksFor(s, QualN(q)), b, v.addr);
      SharingIsPhysical(g, s, {}, {}, QualN(q));
    } else {
      assert BlocksFor(s, QualN(q)) == {v.addr};
    }
  }

  /** When nothing is being built, the number of blocks of every qualified type: none if it is not cached, two if it
      was asked for again while it was being built before its type was known, and else one. */
  lemma QualIsBuiltTwiceIffAskedAgain(g: Graph, s: State, open: set<nat>, q: nat)
    requires Inv(g, s, open, {})
    ensures |BlocksFor(s, QualN(q))| == if q !in s.quals then 0 else if q in s.again then 2 else 1
    ensures q in s.again ==> OnCycle(g, q)
  {
    assert |BlocksFor(s, QualN(q))| == QualCount(s, {}, q);
  }

  lemma AtLeastTwo(s: set<nat>, a: nat, b: nat)
    requires a in s && b in s && a != b
    ensures |s| >= 2
  {
    assert s == {a, b} + (s - {a, b});
  }
}
