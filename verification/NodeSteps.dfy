/** The stages through which each kind of node is translated, as facts about states. */
module NodeSteps {
  import opened Caches
  import opened Options
  import opened ClangGraph
  import opened HeapSteps
  import opened ListSteps

  // ---------- termination ----------

  /** The types and declarations not translated yet: what bounds the recursion. */
  ghost function Todo(g: Graph, s: State): set<Node> {
    (set t | t in g.types && t !in s.types :: TypeN(t)) +
    (set r | r in g.records && r !in s.misc :: RecordN(r)) +
    (set t | t in g.typedefs && t !in s.misc :: TypedefN(t)) +
    (set f | f in g.fields && f !in s.misc2 :: FieldN(f))
  }

  lemma TodoShrinks(g: Graph, s: State, s': State)
    requires Extends(s, s')
    ensures Todo(g, s') <= Todo(g, s)
  {
    forall n | n in Todo(g, s') ensures n in Todo(g, s) {
      assert Cached(s, n) ==> Cached(s', n);
    }
  }

  lemma TodoDrops(g: Graph, s: State, s': State, n: Node)
    requires Extends(s, s') && InGraph(g, n) && !n.QualN? && !Cached(s, n) && Cached(s', n)
    ensures Todo(g, s') < Todo(g, s)
  {
    TodoShrinks(g, s, s');
    assert n in Todo(g, s) && n !in Todo(g, s');
  }

  // ---------- what a translation adds ----------

  lemma ReachesItself(g: Graph, n: Node)
    ensures Reaches(g, n, n)
  {
    assert IsPath(g, [n]);
  }

  lemma ReachesThrough(g: Graph, n: Node, c: Node, m: Node)
    requires Edge(g, n, c) && Reaches(g, c, m)
    ensures Reaches(g, n, m)
  {
    hide Edge;
    var path :| IsPath(g, path) && path[0] == c && path[|path| - 1] == m;
    assert IsPath(g, [n] + path);
  }

  lemma NothingNew(g: Graph, s: State, s': State, n: Node)
    requires s'.origin == s.origin
    ensures NewUnder(g, s, s', n)
  {
  }

  /** What is reachable from a child is reachable from its parent. */
  lemma NewUnderChild(g: Graph, s: State, s': State, n: Node, c: Node)
    requires Edge(g, n, c) && NewUnder(g, s, s', c)
    ensures NewUnder(g, s, s', n)
  {
    hide Edge, Reaches;
    forall a | a in s'.origin && a !in s.origin ensures Reaches(g, n, s'.origin[a]) {
      ReachesThrough(g, n, c, s'.origin[a]);
    }
  }

  lemma NewUnderTransitive(g: Graph, r: State, s: State, s': State, n: Node)
    requires NewUnder(g, r, s, n) && NewUnder(g, s, s', n) && Extends(s, s')
    ensures NewUnder(g, r, s', n)
  {
    hide Reaches;
  }

  /** Allocation and stores add nothing. */
  lemma SameNews(g: Graph, r: State, s: State, s': State, t: State, n: Node)
    requires NewUnder(g, s, s', n) && r.origin == s.origin && t.origin == s'.origin
    ensures NewUnder(g, r, t, n)
  {
    hide Reaches;
  }

  lemma FieldAdds(g: Graph, base: State, s: State, s1: State, s2: State, n: Node, c: Node)
    requires NewUnder(g, base, s, n) && s1.origin == s.origin && NewUnder(g, s1, s2, c) && Extends(s1, s2)
    requires Edge(g, n, c)
    ensures NewUnder(g, base, s2, n)
  {
    hide NewUnder, Edge;
    SameNews(g, base, base, s, s1, n);
    NewUnderChild(g, s1, s2, n, c);
    NewUnderTransitive(g, base, s1, s2, n);
  }

  /** n itself is new. */
  lemma NewItself(g: Graph, r: State, s: State, s': State, n: Node, a: nat)
    requires NewUnder(g, r, s, n) && s'.origin == s.origin[a := n]
    ensures NewUnder(g, r, s', n)
  {
    hide Reaches;
    ReachesItself(g, n);
  }

  /** What translating a slot's node adds is below the slot's owner. */
  lemma SlotAdds(g: Graph, s: State, s': State, n: Node, k: nat, c: Node)
    requires InGraph(g, n) && k < |Slots(g, n)| && Mentions(Slots(g, n)[k], c) && NewUnder(g, s, s', c)
    ensures NewUnder(g, s, s', n)
  {
    hide Slots, NewUnder, Edge;
    SlotIsEdge(g, n, k, c);
    NewUnderChild(g, s, s', n, c);
  }

  lemma SlotIsEdge(g: Graph, n: Node, k: nat, c: Node)
    requires InGraph(g, n) && k < |Slots(g, n)| && Mentions(Slots(g, n)[k], c)
    ensures Edge(g, n, c)
  {
  }

  // ---------- qualified types that are being built ----------

  /** The qualified types being built further up whose type is already in its cache. */
  ghost predicate PendingReady(g: Graph, s: State, pending: set<nat>) {
    forall q :: q in pending ==> q in g.quals && Cached(s, TypeN(g.quals[q].ty))
  }

  /** What the type of a qualified type may rely on: every pending one is ready, or waits for this very type. */
  ghost predicate PendingOn(g: Graph, s: State, pending: set<nat>, t: nat) {
    forall q :: q in pending ==> q in g.quals && (Cached(s, TypeN(g.quals[q].ty)) || g.quals[q].ty == t)
  }

  lemma PendingStays(g: Graph, s: State, s': State, pending: set<nat>)
    requires PendingReady(g, s, pending) && Extends(s, s')
    ensures PendingReady(g, s', pending)
  {
  }

  /** A qualified type becomes pending only if its type is still to be translated. */
  ghost function NowPending(g: Graph, s: State, pending: set<nat>, q: nat): set<nat>
    requires q in g.quals
  {
    if g.quals[q].ty in s.types then pending else pending + {q}
  }

  /** The block of q is allocated and its tuple of qualifiers is made; its type comes next. */
  ghost predicate QualStarted(g: Graph, base: State, s: State, open: set<nat>, pending: set<nat>, a: nat, q: nat,
                              qual: Value) {
    && q in g.quals && q !in s.quals && s.origin == base.origin && a !in s.origin && PendingReady(g, s, pending)
    && Filling(g, base, s, open, NowPending(g, s, pending, q), a, QualN(q), 0)
    && g.quals[q].ty in g.types && PendingOn(g, s, NowPending(g, s, pending, q), g.quals[q].ty)
    && SlotHolds(s, QualSlots(g.quals[q])[1], qual)
    && Todo(g, s) <= Todo(g, base)
  }

  /** The type is translated, during which q may have been pending; q can be finished. */
  ghost predicate QualResumed(g: Graph, base: State, s: State, open: set<nat>, during: set<nat>, pending: set<nat>,
                              a: nat, q: nat, qual: Value) {
    && q in g.quals && a !in s.origin && Filling(g, base, s, open, during, a, QualN(q), 0)
    && CanFinish(g, s, during, pending, q)
    && NewUnder(g, base, s, QualN(q))
    && SlotHolds(s, QualSlots(g.quals[q])[1], qual)
  }

  lemma QualStarts(g: Graph, base: State, s: State, s': State, open: set<nat>, pending: set<nat>, a: nat, q: nat,
                   qual: Value)
    requires Inv(g, s, open, pending) && PendingReady(g, base, pending) && Extends(base, s) && s.origin == base.origin
    requires q in g.quals && q !in s.quals && SlotHolds(s, QualSlots(g.quals[q])[1], qual)
    requires a == |s.heap| && s' == s.(heap := s.heap + [FreshBlock(0, 2)])
    ensures QualStarted(g, base, s', open, pending, a, q, qual)
  {
    hide Inv, Extends, PendingReady, PendingOn, Todo, SlotHolds;
    AllocStep(g, base, s, s', open, pending, FreshBlock(0, 2));
    ExtendsTransitive(base, s, s');
    PendingStays(g, base, s', pending);
    TodoShrinks(g, base, s');
    SlotHoldsExtended(s, s', QualSlots(g.quals[q])[1], qual);
    PendingGrows(g, s', open, pending, q);
    TypeIsInGraph(g, s', open, pending, q);
    NowPendingWaits(g, s', pending, q);
  }

  lemma SlotHoldsExtended(s: State, s': State, slot: Slot, v: Value)
    requires SlotHolds(s, slot, v) && Extends(s, s')
    ensures SlotHolds(s', slot, v)
  {
    ExtendsKeepsAux(s, s');
    SlotHoldsKept(s, s', slot, v);
  }

  lemma TypeIsInGraph(g: Graph, s: State, open: set<nat>, pending: set<nat>, q: nat)
    requires Inv(g, s, open, pending) && q in g.quals
    ensures g.quals[q].ty in g.types
  {
    assert SlotInGraph(g, Slots(g, QualN(q))[0]);
  }

  lemma NowPendingWaits(g: Graph, s: State, pending: set<nat>, q: nat)
    requires PendingReady(g, s, pending) && q in g.quals
    ensures PendingOn(g, s, NowPending(g, s, pending, q), g.quals[q].ty)
  {
  }

  lemma QualResumes(g: Graph, base: State, s: State, s': State, open: set<nat>, pending: set<nat>, a: nat, q: nat,
                    qual: Value, t: Value)
    requires QualStarted(g, base, s, open, pending, a, q, qual)
    requires Inv(g, s', open, NowPending(g, s, pending, q)) && Extends(s, s')
    requires Answers(s, s', TypeN(g.quals[q].ty), t) && NewUnder(g, s, s', TypeN(g.quals[q].ty))
    ensures QualResumed(g, base, s', open, NowPending(g, s, pending, q), pending, a, q, qual)
  {
    hide PendingOn, Todo, SlotHolds, Filled, NewUnder, Reaches, OnCycle, CanFinish, Slots;
    var during := NowPending(g, s, pending, q);
    FillingKept(g, base, s, s', open, during, during, a, QualN(q), 0);
    SlotHoldsExtended(s, s', QualSlots(g.quals[q])[1], qual);
    NewUnderType(g, base, s, s', q);
    assert |BlocksFor(s, QualN(q))| == 0;
    assert |BlocksFor(s', QualN(q))| == QualCount(s', during, q);
    ResumesToFinish(g, s, s', pending, q);
  }

  lemma NewUnderType(g: Graph, base: State, s: State, s': State, q: nat)
    requires q in g.quals && s.origin == base.origin && NewUnder(g, s, s', TypeN(g.quals[q].ty))
    ensures NewUnder(g, base, s', QualN(q))
  {
    SlotIsEdge(g, QualN(q), 0, TypeN(g.quals[q].ty));
    NewUnderChild(g, s, s', QualN(q), TypeN(g.quals[q].ty));
  }

  /** If q was finished while its type was translated, then q lies on a cycle. */
  lemma ResumesToFinish(g: Graph, s: State, s': State, pending: set<nat>, q: nat)
    requires q in g.quals && NewUnder(g, s, s', TypeN(g.quals[q].ty)) && |BlocksFor(s, QualN(q))| == 0
    requires q !in s.quals && Extends(s, s') && (q in s'.quals ==> |BlocksFor(s', QualN(q))| > 0)
    requires PendingReady(g, s, pending) && (g.quals[q].ty in s.types ==> s' == s)
    ensures CanFinish(g, s', NowPending(g, s, pending, q), pending, q)
  {
    hide Reaches;
    if q in s'.quals {
      var b :| b in BlocksFor(s', QualN(q));
      assert b !in BlocksFor(s, QualN(q));
      assert b !in s.origin;
    }
  }

  /** Both fields stored and the block entered in the cache. */
  lemma QualFinishes(g: Graph, base: State, s: State, open: set<nat>, during: set<nat>, pending: set<nat>, a: nat,
                     q: nat, t: Value, qual: Value)
    requires QualResumed(g, base, s, open, during, pending, a, q, qual) && Refers(s, t, TypeN(g.quals[q].ty))
    ensures a < |s.heap| && |s.heap[a].fields| == 2
    ensures var h := s.heap[a := SetField(SetField(s.heap[a], 0, t), 1, qual)];
            var s' := Finished(s.(heap := h), q, a, pending);
            Inv(g, s', open, pending) && Extends(base, s') && Refers(s', Ptr(a), QualN(q)) &&
            NewUnder(g, base, s', QualN(q))
  {
    hide Inv, Extends, PendingReady, Todo, SlotHolds, NewUnder, OnCycle;
    var n := QualN(q);
    var s1 := s.(heap := s.heap[a := SetField(s.heap[a], 0, t)]);
    ChildSlot(s, TypeN(g.quals[q].ty), t);
    FillStep(g, base, s, s1, open, during, a, n, 0, t);
    WriteKeepsAux(base, s, s1, open, a);
    SlotHoldsKept(s, s1, QualSlots(g.quals[q])[1], qual);
    var s2 := s1.(heap := s1.heap[a := SetField(s1.heap[a], 1, qual)]);
    FillStep(g, base, s1, s2, open, during, a, n, 1, qual);
    StoreQualStep(g, base, s2, open, during, pending, a, q);
    NewItself(g, base, s, Finished(s2, q, a, pending), n, a);
    assert s2.heap == s.heap[a := SetField(SetField(s.heap[a], 0, t), 1, qual)];
  }

  lemma ChildSlot(s: State, n: Node, v: Value)
    ensures SlotHolds(s, Child(n), v) == Refers(s, v, n)
  {
  }

  lemma WriteKeepsAux(base: State, s: State, s': State, open: set<nat>, a: nat)
    requires Own(base, s, open, a) && |s'.heap| == |s.heap| && s'.heap == s.heap[a := s'.heap[a]]
    requires s'.origin == s.origin && s'.aux == s.aux
    ensures KeepsAux(s, s')
  {
  }

  // ---------- auxiliary blocks ----------

  /** The state after a tuple has been made. */
  function WithTuple(s: State, values: seq<Value>): State {
    s.(heap := s.heap + [Block(0, values)], aux := s.aux + {|s.heap|})
  }

  lemma TupleIsMade(g: Graph, s: State, open: set<nat>, pending: set<nat>, values: seq<Value>)
    requires Inv(g, s, open, pending)
    ensures Inv(g, WithTuple(s, values), open, pending) && Extends(s, WithTuple(s, values))
    ensures IsAux(WithTuple(s, values), Ptr(|s.heap|), |values|)
  {
    hide Inv, Extends;
    ExtendsReflexive(s);
    var s1 := s.(heap := s.heap + [Block(0, values)]);
    AllocStep(g, s, s, s1, open, pending, Block(0, values));
    AuxStep(g, s, s1, WithTuple(s, values), open, pending, {|s.heap|});
  }

  lemma ExtendsReflexive(s: State)
    ensures Extends(s, s)
  {
  }

  // ---------- types and declarations that are being built ----------

  /** The fields of block a from the k-th on are as they were allocated, and the block of a declaration has uid u. */
  ghost predicate Untouched(s: State, a: nat, k: nat, u: nat, n: Node) {
    && a < |s.heap| && (forall i :: k <= i < |s.heap[a].fields| ==> s.heap[a].fields[i] == UNIT)
    && (IsDecl(n) ==> |s.heap[a].fields| > 0 && s.heap[a].fields[0] == Imm(u))
  }

  /** Node n is in its cache at a, its first k fields are done and the others untouched, and fewer nodes are
      left than before it. */
  ghost predicate Building(g: Graph, base: State, s: State, open: set<nat>, pending: set<nat>, a: nat, n: Node,
                           k: nat) {
    && Filling(g, base, s, open + {a}, pending, a, n, k) && Untouched(s, a, k, base.uid, n)
    && PendingReady(g, s, pending)
    && a in s.origin && a !in open && Todo(g, s) < Todo(g, base) && NewUnder(g, base, s, n)
  }

  lemma TypeStarts(g: Graph, base: State, open: set<nat>, pending: set<nat>, a: nat, t: nat)
    requires Inv(g, base, open, pending) && PendingOn(g, base, pending, t) && t in g.types && t !in base.types
    requires a == |base.heap|
    ensures var n := TypeN(t);
            var s := base.(heap := base.heap + [FreshBlock(Tag(g, n), |Slots(g, n)|)]);
            Building(g, base, Remember(s, n, a), open, pending, a, n, 0)
  {
    hide PendingReady, PendingOn, Todo, Filled, Slots, Tag, WellFormed, ClosedAreComplete, CachesRefer, OneBlockEach;
    hide UidsMatch, QualBlocks, NewUnder;
    var n := TypeN(t);
    var b := FreshBlock(Tag(g, n), |Slots(g, n)|);
    var s := base.(heap := base.heap + [b]);
    ExtendsReflexive(base);
    AllocStep(g, base, base, s, open, pending, b);
    TypeEnters(g, base, s, open, pending, a, n);
    RememberCaches(g, s, n, a, n);
    TodoDrops(g, base, Remember(s, n, a), n);
    ReadyOnceCached(g, base, Remember(s, n, a), pending, t);
    NothingNew(g, base, base, n);
    NewItself(g, base, base, Remember(s, n, a), n, a);
  }

  lemma ReadyOnceCached(g: Graph, s: State, s': State, pending: set<nat>, t: nat)
    requires PendingOn(g, s, pending, t) && Extends(s, s') && Cached(s', TypeN(t))
    ensures PendingReady(g, s', pending)
  {
  }

  /** The state in which declaration n has just entered its cache at a with the next uid. */
  function Declared(s: State, n: Node, a: nat, size: nat): State
    requires size > 0 && a == |s.heap|
  {
    Remember(s, n, a).(heap := s.heap + [SetField(FreshBlock(0, size), 0, Imm(s.uid))], uid := s.uid + 1)
  }

  lemma DeclStarts(g: Graph, base: State, open: set<nat>, pending: set<nat>, a: nat, n: Node)
    requires Inv(g, base, open, pending) && PendingReady(g, base, pending) && InGraph(g, n) && IsDecl(n)
    requires !Cached(base, n)
    requires a == |base.heap| && |Slots(g, n)| > 0 && Slots(g, n)[0] == Uid
    ensures Building(g, base, Declared(base, n, a, |Slots(g, n)|), open, pending, a, n, 1)
  {
    hide PendingReady, Todo, Filled, Slots, Tag, WellFormed, ClosedAreComplete, CachesRefer, OneBlockEach, UidsMatch;
    hide QualBlocks, NewUnder;
    var size := |Slots(g, n)|;
    var b := FreshBlock(0, size);
    var s := base.(heap := base.heap + [b]);
    ExtendsReflexive(base);
    AllocStep(g, base, base, s, open, pending, b);
    DeclEnters(g, base, s, open, pending, a, n);
    var s' := Declared(base, n, a, size);
    DeclaredIsRemembered(base, n, a, size);
    DeclaredIsCached(g, base, open, pending, n, a, size);
    TodoDrops(g, base, s', n);
    PendingStays(g, base, s', pending);
    NothingNew(g, base, base, n);
    NewItself(g, base, base, s', n, a);
  }

  lemma DeclaredIsRemembered(s: State, n: Node, a: nat, size: nat)
    requires size > 0 && a == |s.heap|
    ensures var s1 := s.(heap := s.heap + [FreshBlock(0, size)]);
            Declared(s, n, a, size) ==
            Remember(s1.(heap := s1.heap[a := SetField(s1.heap[a], 0, Imm(s.uid))]), n, a).(uid := s.uid + 1)
  {
  }

  lemma DeclaredIsCached(g: Graph, s: State, open: set<nat>, pending: set<nat>, n: Node, a: nat, size: nat)
    requires Inv(g, s, open, pending) && InGraph(g, n) && size > 0 && a == |s.heap|
    ensures Cached(Declared(s, n, a, size), n)
  {
  }

  lemma FillLeavesUntouched(g: Graph, s: State, s': State, a: nat, n: Node, k: nat, v: Value, u: nat)
    requires Untouched(s, a, k, u, n) && (IsDecl(n) ==> k > 0) && InGraph(g, n) && Filled(g, s, a, n, k)
    requires k < |Slots(g, n)|
    requires s' == s.(heap := s.heap[a := SetField(s.heap[a], k, v)])
    ensures Untouched(s', a, k + 1, u, n)
  {
  }

  /** The next field is stored. */
  lemma BuildingFills(g: Graph, base: State, s: State, s': State, open: set<nat>, pending: set<nat>, a: nat, n: Node,
                      k: nat, v: Value)
    requires Building(g, base, s, open, pending, a, n, k) && k < |Slots(g, n)| && (IsDecl(n) ==> k > 0)
    requires SlotHolds(s, Slots(g, n)[k], v) && s' == s.(heap := s.heap[a := SetField(s.heap[a], k, v)])
    ensures Building(g, base, s', open, pending, a, n, k + 1) && Todo(g, s') == Todo(g, s)
  {
    hide Filled, Inv, Own, Slots, SlotHolds, Untouched;
    FillStep(g, base, s, s', open + {a}, pending, a, n, k, v);
    FillLeavesUntouched(g, s, s', a, n, k, v, base.uid);
    assert Todo(g, s') == Todo(g, s);
  }

  /** A field that is to hold unit needs no store. */
  lemma BuildingSkips(g: Graph, base: State, s: State, open: set<nat>, pending: set<nat>, a: nat, n: Node, k: nat)
    requires Building(g, base, s, open, pending, a, n, k) && k < |Slots(g, n)| && Slots(g, n)[k] == Exactly(UNIT)
    ensures Building(g, base, s, open, pending, a, n, k + 1)
  {
    hide Filled, Untouched, Inv, Own, Slots, Todo, PendingReady, NewUnder;
    FilledSkips(g, s, a, n, k, base.uid);
  }

  lemma FilledSkips(g: Graph, s: State, a: nat, n: Node, k: nat, u: nat)
    requires InGraph(g, n) && Filled(g, s, a, n, k) && Untouched(s, a, k, u, n)
    requires k < |Slots(g, n)| && Slots(g, n)[k] == Exactly(UNIT)
    ensures Filled(g, s, a, n, k + 1) && Untouched(s, a, k + 1, u, n)
  {
    hide Slots;
  }

  /** A nested translation has returned. */
  lemma BuildingKept(g: Graph, base: State, s: State, s': State, open: set<nat>, pending: set<nat>, a: nat, n: Node,
                     k: nat)
    requires Building(g, base, s, open, pending, a, n, k) && Extends(s, s') && Inv(g, s', open + {a}, pending)
    requires NewUnder(g, s, s', n)
    ensures Building(g, base, s', open, pending, a, n, k) && Todo(g, s') <= Todo(g, s)
  {
    hide Filling, Inv, PendingReady, Todo, Untouched, NewUnder;
    NewUnderTransitive(g, base, s, s', n);
    FillingKept(g, base, s, s', open + {a}, pending, pending, a, n, k);
    UntouchedKept(s, s', a, k, base.uid, n);
    PendingStays(g, s, s', pending);
    TodoShrinks(g, s, s');
  }

  lemma UntouchedKept(s: State, s': State, a: nat, k: nat, u: nat, n: Node)
    requires Untouched(s, a, k, u, n) && Extends(s, s')
    ensures Untouched(s', a, k, u, n)
  {
  }

  lemma BuildingEnds(g: Graph, base: State, s: State, open: set<nat>, pending: set<nat>, a: nat, n: Node)
    requires InGraph(g, n) && Building(g, base, s, open, pending, a, n, |Slots(g, n)|)
    ensures Inv(g, s, open, pending) && Extends(base, s) && Refers(s, Ptr(a), n) && NewUnder(g, base, s, n)
    ensures TakesUid(base, s, n, Ptr(a))
  {
    hide Filling, Inv, PendingReady, Todo, Slots, NewUnder;
    NodeLeaves(g, base, s, open, pending, a, n);
  }

  // ---------- an optional child ----------

  /** The option's block is made, its child translated: store it and keep the block. */
  lemma OptionIsMade(g: Graph, base: State, s: State, s': State, open: set<nat>, pending: set<nat>, a: nat, v: Value,
                     n: Node)
    requires Inv(g, base, open, pending) && a == |base.heap|
    requires Inv(g, s, open, pending) && Extends(base.(heap := base.heap + [FreshBlock(0, 1)]), s) && Refers(s, v, n)
    requires a < |s.heap| && s.heap[a] == FreshBlock(0, 1)
    requires s' == s.(heap := s.heap[a := SetField(s.heap[a], 0, v)], aux := s.aux + {a})
    ensures Inv(g, s', open, pending) && Extends(base, s') && SlotHolds(s', OptChild(Some(n)), Ptr(a))
  {
    hide WellFormed, ClosedAreComplete, CachesRefer, OneBlockEach, UidsMatch, QualBlocks, Extends, KeepsAux;
    var s0 := base.(heap := base.heap + [FreshBlock(0, 1)]);
    ExtendsReflexive(base);
    AllocStep(g, base, base, s0, open, pending, FreshBlock(0, 1));
    OwnKept(base, s0, s, open, a);
    var s1 := s.(heap := s.heap[a := SetField(s.heap[a], 0, v)]);
    WriteStep(g, base, s, s1, open, pending, a, SetField(s.heap[a], 0, v));
    AuxStep(g, base, s1, s', open, pending, {a});
  }

  /** The option's block is allocated; its child comes next. */
  lemma OptionStarts(g: Graph, s: State, s': State, open: set<nat>, pending: set<nat>, size: nat)
    requires Inv(g, s, open, pending) && PendingReady(g, s, pending)
    requires s' == s.(heap := s.heap + [FreshBlock(0, size)])
    ensures Inv(g, s', open, pending) && PendingReady(g, s', pending) && Extends(s, s') && Todo(g, s') <= Todo(g, s)
  {
    hide Inv, Extends, PendingReady, Todo;
    ExtendsReflexive(s);
    AllocStep(g, s, s, s', open, pending, FreshBlock(0, size));
    PendingStays(g, s, s', pending);
    TodoShrinks(g, s, s');
  }

  lemma EmptyOption(s: State)
    ensures SlotHolds(s, OptChild(TypedefNode(None)), UNIT)
  {
  }

  /** A block nobody knows is where and what it was. */
  lemma BlockStays(s: State, s': State, a: nat)
    requires Extends(s, s') && a < |s.heap|
    ensures a < |s'.heap| && s'.heap[a] == s.heap[a]
  {
  }

  // ---------- a list of fields ----------

  lemma ListStarts(g: Graph, base: State, open: set<nat>, pending: set<nat>, a: nat)
    requires Inv(g, base, open, pending) && a == |base.heap|
    ensures var s := base.(heap := base.heap + [FreshBlock(0, 2)]);
            Inv(g, s, open, pending) && Extends(base, s) && Chain(base, s, [a], [])
  {
    hide WellFormed, ClosedAreComplete, CachesRefer, OneBlockEach, UidsMatch, QualBlocks, Extends;
    var s := base.(heap := base.heap + [FreshBlock(0, 2)]);
    ExtendsReflexive(base);
    AllocStep(g, base, base, s, open, pending, FreshBlock(0, 2));
    assert LooseCell(base, s, a) && LinksTo(s, a, UNIT);
  }

  /** A cell was allocated, a field translated, and the cell linked behind the last one. */
  lemma ListGrows(g: Graph, base: State, s: State, s2: State, s3: State, open: set<nat>, pending: set<nat>,
                  cells: seq<nat>, ids: seq<nat>, next: nat, x: Value, id: nat)
    requires Inv(g, s, open, pending) && Extends(base, s) && Chain(base, s, cells, ids) && next == |s.heap|
    requires Inv(g, s2, open, pending) && Extends(s.(heap := s.heap + [FreshBlock(0, 2)]), s2)
    requires Refers(s2, x, FieldN(id))
    requires next < |s2.heap| && cells[|ids|] < next
    requires s3 == s2.(heap := s2.heap[next := Block(0, [x, UNIT])]
                                      [cells[|ids|] := SetField(s2.heap[cells[|ids|]], 1, Ptr(next))])
    ensures Inv(g, s3, open, pending) && Extends(base, s3) && Chain(base, s3, cells + [next], ids + [id])
  {
    hide Inv, Extends, Chain, KeepsAux;
    var s1 := s.(heap := s.heap + [FreshBlock(0, 2)]);
    AllocStep(g, base, s, s1, open, pending, FreshBlock(0, 2));
    ExtendsTransitive(s, s1, s2);
    ExtendsTransitive(base, s, s2);
    ChainKept(base, s, s2, cells, ids);
    OwnKept(base, s1, s2, open, next);
    var last := cells[|ids|];
    LastCellIsLoose(base, s2, cells, ids);
    var t := s2.(heap := s2.heap[next := Block(0, [x, UNIT])]);
    WriteStep(g, base, s2, t, open, pending, next, Block(0, [x, UNIT]));
    WriteStep(g, base, t, s3, open, pending, last, SetField(t.heap[last], 1, Ptr(next)));
    ChainAppend(base, s2, s3, cells, ids, next, x, id);
  }

  /** The chain is ready for one more field: what its new cell may rely on. */
  lemma CellStarts(g: Graph, base: State, s: State, s': State, open: set<nat>, pending: set<nat>, cells: seq<nat>,
                   ids: seq<nat>)
    requires Inv(g, s, open, pending) && Extends(base, s) && PendingReady(g, s, pending) && Chain(base, s, cells, ids)
    requires s' == s.(heap := s.heap + [FreshBlock(0, 2)])
    ensures Inv(g, s', open, pending) && PendingReady(g, s', pending) && Todo(g, s') <= Todo(g, s)
    ensures |cells| == |ids| + 1 && cells[|ids|] < |s.heap|
  {
    hide Inv, Extends, PendingReady, Todo;
    OptionStarts(g, s, s', open, pending, 2);
    LastCellIsLoose(base, s, cells, ids);
  }

  /** Linking the new cell disturbs no pending qualified type. */
  lemma CellEnds(g: Graph, base: State, s: State, s2: State, s3: State, pending: set<nat>)
    requires PendingReady(g, s, pending) && Extends(s.(heap := s.heap + [FreshBlock(0, 2)]), s2)
    requires s3 == s2.(heap := s3.heap)
    ensures PendingReady(g, s3, pending)
  {
    PendingStays(g, s.(heap := s.heap + [FreshBlock(0, 2)]), s2, pending);
  }

  lemma FreshCells(x: Value)
    ensures |FreshBlock(0, 2).fields| == 2
    ensures SetField(FreshBlock(0, 2), 1, UNIT) == FreshBlock(0, 2)
    ensures SetField(SetField(FreshBlock(0, 2), 0, x), 1, UNIT) == Block(0, [x, UNIT])
  {
  }

  /** Nothing happened to the new cell, nor to the last one, while the field was translated. */
  lemma CellsStay(base: State, s: State, s1: State, s2: State, cells: seq<nat>, ids: seq<nat>)
    requires Chain(base, s, cells, ids) && s1 == s.(heap := s.heap + [FreshBlock(0, 2)]) && Extends(s1, s2)
    ensures |s.heap| < |s2.heap| && s2.heap[|s.heap|] == FreshBlock(0, 2)
    ensures |cells| == |ids| + 1 && cells[|ids|] < |s.heap| && |s2.heap[cells[|ids|]].fields| == 2
  {
  }

  lemma LastCellIsLoose(base: State, s: State, cells: seq<nat>, ids: seq<nat>)
    requires Chain(base, s, cells, ids)
    ensures |cells| == |ids| + 1 && LooseCell(base, s, cells[|ids|])
  {
  }

  lemma ListEnds(g: Graph, base: State, s: State, s': State, open: set<nat>, pending: set<nat>, cells: seq<nat>,
                 ids: seq<nat>)
    requires Inv(g, s, open, pending) && Extends(base, s) && Chain(base, s, cells, ids)
    requires s' == s.(aux := s.aux + set i | 1 <= i < |cells| :: cells[i])
    ensures Inv(g, s', open, pending) && Extends(base, s')
    ensures cells[0] < |s.heap| && |s.heap[cells[0]].fields| == 2
    ensures ListHolds(s', s.heap[cells[0]].fields[1], FieldNodes(ids))
  {
    hide Inv, Extends, KeepsAux, CarriesField, LinksTo;
    var xs := set i | 1 <= i < |cells| :: cells[i];
    forall x | x in xs ensures |base.heap| <= x < |s.heap| && x !in s.origin {
      var i :| 1 <= i < |cells| && cells[i] == x;
      assert LooseCell(base, s, cells[i]);
    }
    AuxStep(g, base, s, s', open, pending, xs);
    assert LooseCell(base, s, cells[0]);
    forall i | 1 <= i < |cells| ensures cells[i] in s'.aux {
      assert cells[i] in xs;
    }
    ChainIsList(base, s, s', cells, ids, 0);
    assert ids[0..] == ids;
  }

  // ---------- answers from the caches ----------

  /** v is what the cache holds for n, and if it held n before, nothing has changed. */
  ghost predicate Answers(s: State, s': State, n: Node, v: Value) {
    Cached(s', n) && CacheFor(s', n)[n.id] == v && (Cached(s, n) ==> s' == s)
  }

  lemma BuiltQualIsCached(s: State, s': State, q: nat, v: Value)
    requires q !in s.quals && q in s'.quals && s'.quals[q] == v
    ensures Answers(s, s', QualN(q), v)
  {
  }

  /** A declaration that is new takes the next uid, before anything under it does. */
  ghost predicate TakesUid(s: State, s': State, n: Node, v: Value) {
    IsDecl(n) && !Cached(s, n) ==> v.Ptr? && HasUid(s', v.addr, s.uid)
  }

  /** A type or declaration that has just been built is the one in the cache. */
  lemma BuiltIsCached(g: Graph, s: State, s': State, open: set<nat>, pending: set<nat>, n: Node, v: Value)
    requires Inv(g, s', open, pending) && Refers(s', v, n) && !n.QualN? && !Cached(s, n)
    ensures Answers(s, s', n, v)
  {
  }

  // ---------- small facts the translator calls on ----------

  lemma CachedRefers(g: Graph, s: State, open: set<nat>, pending: set<nat>, n: Node)
    requires Inv(g, s, open, pending) && InGraph(g, n) && Cached(s, n)
    ensures Refers(s, CacheFor(s, n)[n.id], n) && Answers(s, s, n, CacheFor(s, n)[n.id])
  {
  }

  lemma QualIsStarted(g: Graph, base: State, s: State, open: set<nat>, pending: set<nat>, a: nat, q: nat, qual: Value)
    requires QualStarted(g, base, s, open, pending, a, q, qual)
    ensures q in g.quals && g.quals[q].ty in g.types && Inv(g, s, open, NowPending(g, s, pending, q))
    ensures PendingOn(g, s, NowPending(g, s, pending, q), g.quals[q].ty) && Todo(g, s) <= Todo(g, base)
  {
  }

  lemma BuildingIsInv(g: Graph, base: State, s: State, open: set<nat>, pending: set<nat>, a: nat, n: Node, k: nat)
    requires Building(g, base, s, open, pending, a, n, k)
    ensures Inv(g, s, open + {a}, pending) && PendingReady(g, s, pending) && InGraph(g, n)
  {
  }

  lemma BuildingDrops(g: Graph, base: State, s: State, open: set<nat>, pending: set<nat>, a: nat, n: Node, k: nat)
    requires Building(g, base, s, open, pending, a, n, k)
    ensures Todo(g, s) < Todo(g, base)
  {
  }

  lemma BuildingHasField(g: Graph, base: State, s: State, open: set<nat>, pending: set<nat>, a: nat, n: Node, k: nat)
    requires Building(g, base, s, open, pending, a, n, k) && InGraph(g, n) && k < |Slots(g, n)|
    ensures a < |s.heap| && k < |s.heap[a].fields|
  {
  }

  lemma ChildIsInGraph(g: Graph, s: State, open: set<nat>, pending: set<nat>, n: Node, k: nat, c: Node)
    requires Inv(g, s, open, pending) && InGraph(g, n) && k < |Slots(g, n)| && Slots(g, n)[k] == Child(c)
    ensures InGraph(g, c)
  {
  }

  lemma FieldsAreInGraph(g: Graph, s: State, open: set<nat>, pending: set<nat>, n: Node, k: nat, ids: seq<nat>)
    requires Inv(g, s, open, pending) && InGraph(g, n) && k < |Slots(g, n)|
    requires Slots(g, n)[k] == Children(FieldNodes(ids))
    ensures forall i :: 0 <= i < |ids| ==> ids[i] in g.fields && Edge(g, n, FieldN(ids[i]))
  {
    assert SlotInGraph(g, Slots(g, n)[k]);
    forall i | 0 <= i < |ids| ensures ids[i] in g.fields && Edge(g, n, FieldN(ids[i])) {
      assert InGraph(g, FieldNodes(ids)[i]);
      assert FieldNodes(ids)[i] == FieldN(ids[i]);
      SlotIsEdge(g, n, k, FieldN(ids[i]));
    }
  }

  lemma TypedefIsInGraph(g: Graph, s: State, open: set<nat>, pending: set<nat>, n: Node, k: nat, d: Option<nat>)
    requires Inv(g, s, open, pending) && InGraph(g, n) && k < |Slots(g, n)|
    requires Slots(g, n)[k] == OptChild(TypedefNode(d))
    ensures d.Some? ==> d.value in g.typedefs && Edge(g, n, TypedefN(d.value))
  {
    assert SlotInGraph(g, Slots(g, n)[k]);
    if d.Some? {
      SlotIsEdge(g, n, k, TypedefN(d.value));
    }
  }

  // ---------- the slots of the declarations, one by one ----------

  lemma SlotsOfTypedef(g: Graph, d: nat, x: Typedef)
    requires d in g.typedefs && x == g.typedefs[d]
    ensures var slots := Slots(g, TypedefN(d));
            |slots| == 5 && slots[0] == Uid &&
            slots[1] == Exactly(Foreign(x.name)) && slots[2] == Child(QualN(x.underlying)) &&
            slots[3] == Exactly(Foreign(x.range)) && slots[4] == Exactly(Foreign(x.comments))
  {
  }

  lemma SlotsOfField(g: Graph, f: nat, x: Field)
    requires f in g.fields && x == g.fields[f] && x.parent in g.records
    ensures var slots, p := Slots(g, FieldN(f)), g.records[x.parent];
            |slots| == 12 && slots[0] == Uid &&
            slots[1] == Exactly(Foreign(x.name)) && slots[2] == Exactly(Imm(x.index)) &&
            slots[3] == Child(QualN(x.ty)) && slots[4] == OptValue(BitWidth(x)) &&
            slots[5] == Exactly(BoolValue(x.unnamed)) &&
            slots[6] == Exactly(BoolValue(HasLayout(p))) && slots[7] == LayoutValue(p, x.offset) &&
            slots[8] == OptValue(VlaSize(x)) && slots[9] == Exactly(Foreign(x.range)) &&
            slots[10] == Exactly(Foreign(x.comments)) && slots[11] == Exactly(UNIT)
  {
  }

  lemma SlotsOfRecordHead(g: Graph, r: nat, x: Record)
    requires r in g.records && x == g.records[r]
    ensures var slots := Slots(g, RecordN(r));
            |slots| == 19 && slots[0] == Uid && slots[1] == Exactly(Foreign(x.name)) &&
            slots[2] == Exactly(Imm(RecordKindTag(x.kind))) && slots[3] == Exactly(BoolValue(x.flexible)) &&
            slots[4] == Exactly(BoolValue(x.hasVolatile)) && slots[5] == Exactly(BoolValue(x.anonymous)) &&
            slots[6] == Exactly(BoolValue(x.complete)) && slots[7] == Exactly(BoolValue(!x.invalid)) &&
            slots[8] == LayoutValue(x, x.size) &&
            slots[9] == LayoutValue(x, x.dataSize) && slots[10] == LayoutValue(x, x.alignment)
  {
    hide RecordRest;
    SlotsOfRecordSplit(g, r, x);
  }

  lemma SlotsOfRecordRest(g: Graph, r: nat, x: Record)
    requires r in g.records && x == g.records[r]
    ensures var slots := Slots(g, RecordN(r));
            |slots| == 19 &&
            slots[11] == Children(FieldNodes(x.fields)) && slots[12] == OptChild(TypedefNode(x.typedefForAnon)) &&
            slots[13] == Exactly(Foreign(x.range)) && slots[14] == Exactly(Foreign(x.comments)) &&
            slots[15] == slots[16] == slots[17] == slots[18] == Exactly(UNIT)
  {
    hide RecordHead;
    SlotsOfRecordSplit(g, r, x);
    forall i | 0 <= i < 8 ensures Slots(g, RecordN(r))[11 + i] == RecordRest(x)[i] {
    }
  }

  lemma SlotsOfRecordSplit(g: Graph, r: nat, x: Record)
    requires r in g.records && x == g.records[r]
    ensures Slots(g, RecordN(r)) == RecordHead(x) + RecordRest(x) && |RecordHead(x)| == 11 && |RecordRest(x)| == 8
  {
  }

  lemma ParentIsInGraph(g: Graph, s: State, open: set<nat>, pending: set<nat>, f: nat)
    requires Inv(g, s, open, pending) && f in g.fields
    ensures g.fields[f].parent in g.records
  {
  }

  /** Storing the uid after entering the cache gives the declared state. */
  lemma DeclaredStep(s: State, n: Node, a: nat, size: nat)
    requires size > 0 && a == |s.heap|
    ensures var s1 := Remember(s.(heap := s.heap + [FreshBlock(0, size)]), n, a);
            s1.heap == s.heap + [FreshBlock(0, size)] && s1.uid == s.uid &&
            s1.(heap := s1.heap[a := SetField(s1.heap[a], 0, Imm(s1.uid))], uid := s1.uid + 1) ==
            Declared(s, n, a, size)
  {
  }
}
