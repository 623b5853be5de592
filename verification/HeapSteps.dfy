/** The elementary steps of the translation, on states: each keeps the invariant and only adds to
    what an earlier state, base, already had. */
module HeapSteps {
  import opened Caches
  import opened ClangGraph

  /** Block a was allocated after base and is the caller's to write: it is being filled, or nobody knows it yet. */
  ghost predicate Own(base: State, s: State, open: set<nat>, a: nat) {
    && Extends(base, s) && |base.heap| <= a < |s.heap| && a !in s.aux
    && (a in open || a !in s.origin)
  }

  // ---------- uids ----------

  /** Two states that agree on the blocks of declarations agree on uids. */
  lemma UidsKept(s: State, s': State)
    requires UidsMatch(s) && s'.uid == s.uid
    requires forall a, u :: HasUid(s, a, u) <==> HasUid(s', a, u)
    requires forall a :: a in s'.origin && IsDecl(s'.origin[a]) ==> a in s.origin && IsDecl(s.origin[a])
    ensures UidsMatch(s')
  {
    forall u | 0 <= u < s'.uid ensures UidGiven(s', u) {
      assert UidGiven(s, u);
      var a :| HasUid(s, a, u);
      assert HasUid(s', a, u);
    }
    forall a | a in s'.origin && IsDecl(s'.origin[a]) ensures exists u :: 0 <= u < s'.uid && HasUid(s', a, u) {
      var u :| 0 <= u < s.uid && HasUid(s, a, u);
      assert HasUid(s', a, u);
    }
  }

  /** A new declaration takes the next uid. */
  lemma UidsGrow(s: State, s': State, a: nat)
    requires UidsMatch(s) && s'.uid == s.uid + 1 && a !in s.origin
    requires forall b, u :: b != a ==> (HasUid(s, b, u) <==> HasUid(s', b, u))
    requires HasUid(s', a, s.uid)
    requires forall b :: b in s'.origin && b != a && IsDecl(s'.origin[b]) ==> b in s.origin && IsDecl(s.origin[b])
    requires forall b, u :: HasUid(s, b, u) ==> 0 <= u < s.uid
    ensures UidsMatch(s')
  {
    forall u | 0 <= u < s'.uid ensures UidGiven(s', u) {
      if u == s.uid {
        assert HasUid(s', a, u);
      } else {
        assert UidGiven(s, u);
        var b :| HasUid(s, b, u);
        assert HasUid(s', b, u);
      }
    }
    forall b | b in s'.origin && IsDecl(s'.origin[b]) ensures exists u :: 0 <= u < s'.uid && HasUid(s', b, u) {
      if b == a {
        assert HasUid(s', a, s.uid);
      } else {
        var u :| 0 <= u < s.uid && HasUid(s, b, u);
        assert HasUid(s', b, u);
      }
    }
  }

  lemma UidsAreBelow(s: State, b: nat, u: int)
    requires UidsMatch(s) && HasUid(s, b, u)
    ensures 0 <= u < s.uid
  {
  }

  // ---------- steps ----------

  /** A change that touches neither closed nor auxiliary blocks, nor who is who, keeps the invariant. */
  lemma HarmlessStep(g: Graph, s: State, s': State, open: set<nat>, pending: set<nat>)
    requires Inv(g, s, open, pending) && KeepsAux(s, s') && BlocksKnown(g, s', open)
    requires s' == s.(heap := s'.heap, aux := s'.aux)
    requires forall a :: a in s.origin && a !in open ==> s'.heap[a] == s.heap[a]
    requires forall a, u :: HasUid(s, a, u) <==> HasUid(s', a, u)
    ensures Inv(g, s', open, pending)
  {
    hide WellFormed, UidsMatch, QualBlocks, CachesRefer, OneBlockEach, KeepsAux, Slots, Filled;
    CachesUnmoved(g, s, s', pending);
    forall a | a in s'.origin && a !in open ensures Complete(g, s', a, s'.origin[a]) {
      FilledKept(g, s, s', a, s.origin[a], |Slots(g, s.origin[a])|);
    }
    UidsKept(s, s');
  }

  lemma CachesUnmoved(g: Graph, s: State, s': State, pending: set<nat>)
    requires s' == s.(heap := s'.heap, aux := s'.aux)
    ensures CachesRefer(g, s) ==> CachesRefer(g, s')
    ensures OneBlockEach(s) ==> OneBlockEach(s')
    ensures QualBlocks(g, s, pending) ==> QualBlocks(g, s', pending)
  {
  }

  lemma AllocStep(g: Graph, base: State, s: State, s': State, open: set<nat>, pending: set<nat>, b: Block)
    requires Inv(g, s, open, pending) && Extends(base, s) && s' == s.(heap := s.heap + [b])
    ensures Inv(g, s', open, pending) && Extends(s, s') && Own(base, s', open, |s.heap|) && |s.heap| !in s'.origin
  {
    hide WellFormed, ClosedAreComplete, CachesRefer, OneBlockEach, UidsMatch, QualBlocks, Slots, InGraph;
    assert forall x :: 0 <= x < |s.heap| ==> s'.heap[x] == s.heap[x];
    HarmlessStep(g, s, s', open, pending);
  }

  lemma WriteStep(g: Graph, base: State, s: State, s': State, open: set<nat>, pending: set<nat>, a: nat, b: Block)
    requires Inv(g, s, open, pending) && Own(base, s, open, a) && s' == s.(heap := s.heap[a := b])
    requires a in s.origin && IsDecl(s.origin[a]) ==>
               |s.heap[a].fields| > 0 && |b.fields| > 0 && b.fields[0] == s.heap[a].fields[0]
    ensures Inv(g, s', open, pending) && Own(base, s', open, a) && KeepsAux(s, s')
  {
    hide WellFormed, ClosedAreComplete, CachesRefer, OneBlockEach, UidsMatch, QualBlocks, Slots, InGraph;
    HarmlessStep(g, s, s', open, pending);
  }

  lemma CloseStep(g: Graph, s: State, open: set<nat>, pending: set<nat>, a: nat)
    requires Inv(g, s, open, pending) && a in s.origin && Complete(g, s, a, s.origin[a])
    ensures Inv(g, s, open - {a}, pending)
  {
  }

  lemma AuxExtends(base: State, s: State, s': State, xs: set<nat>)
    requires Extends(base, s) && s' == s.(aux := s.aux + xs)
    requires forall x :: x in xs ==> |base.heap| <= x
    ensures Extends(base, s') && KeepsAux(s, s')
  {
  }

  lemma AuxStep(g: Graph, base: State, s: State, s': State, open: set<nat>, pending: set<nat>, xs: set<nat>)
    requires Inv(g, s, open, pending) && Extends(base, s) && s' == s.(aux := s.aux + xs)
    requires forall x :: x in xs ==> |base.heap| <= x < |s.heap| && x !in s.origin
    ensures Inv(g, s', open, pending) && Extends(base, s') && KeepsAux(s, s')
  {
    AuxExtends(base, s, s', xs);
    HarmlessStep(g, s, s', open, pending);
  }

  /** The state in which n is cached at a. */
  function Remember(s: State, n: Node, a: nat): State {
    var s1 := s.(origin := s.origin[a := n]);
    match n
    case QualN(q) => s1.(quals := s.quals[q := Ptr(a)])
    case TypeN(t) => s1.(types := s.types[t := Ptr(a)])
    case RecordN(r) => s1.(misc := s.misc[r := Ptr(a)])
    case TypedefN(t) => s1.(misc := s.misc[t := Ptr(a)])
    case FieldN(f) => s1.(misc2 := s.misc2[f := Ptr(a)])
  }

  lemma RememberCaches(g: Graph, s: State, n: Node, a: nat, m: Node)
    requires WellFormed(g) && InGraph(g, n) && InGraph(g, m)
    ensures var s' := Remember(s, n, a);
            Cached(s', n) && CacheFor(s', n)[n.id] == Ptr(a) &&
            (m != n ==>
               (Cached(s', m) <==> Cached(s, m)) && (Cached(s, m) ==> CacheFor(s', m)[m.id] == CacheFor(s, m)[m.id]))
  {
    if n.RecordN? && m.TypedefN? {
      assert n.id in g.records.Keys && m.id in g.typedefs.Keys;
    }
    if n.TypedefN? && m.RecordN? {
      assert m.id in g.records.Keys && n.id in g.typedefs.Keys;
    }
  }

  lemma RememberExtends(base: State, s: State, n: Node, a: nat, uid: nat)
    requires Extends(base, s) && a >= |base.heap| && a !in s.origin
    ensures Extends(base, Remember(s, n, a).(uid := uid)) && KeepsAux(s, Remember(s, n, a).(uid := uid))
  {
    forall m | Cached(base, m) ensures Cached(Remember(s, n, a).(uid := uid), m) {
      assert Cached(s, m);
    }
  }

  lemma BlocksAfterRemember(s: State, n: Node, a: nat, m: Node)
    requires a !in s.origin
    ensures BlocksFor(Remember(s, n, a), m) == if m == n then BlocksFor(s, m) + {a} else BlocksFor(s, m)
  {
  }

  lemma RememberKeepsCaches(g: Graph, s: State, n: Node, a: nat, uid: nat)
    requires WellFormed(g) && CachesRefer(g, s) && InGraph(g, n) && a !in s.origin
    ensures CachesRefer(g, Remember(s, n, a).(uid := uid))
  {
    hide WellFormed, InGraph;
    var s' := Remember(s, n, a).(uid := uid);
    forall m | InGraph(g, m) && Cached(s', m) ensures Refers(s', CacheFor(s', m)[m.id], m) {
      RememberCaches(g, s, n, a, m);
    }
  }

  lemma RememberKeepsOneBlock(g: Graph, s: State, n: Node, a: nat, uid: nat)
    requires WellFormed(g) && OneBlockEach(s) && InGraph(g, n) && a !in s.origin
    requires forall b :: b in s.origin ==> InGraph(g, s.origin[b])
    requires n.QualN? || !Cached(s, n)
    ensures OneBlockEach(Remember(s, n, a).(uid := uid))
  {
    var s' := Remember(s, n, a).(uid := uid);
    forall b | b in s'.origin && !s'.origin[b].QualN?
      ensures Cached(s', s'.origin[b]) && CacheFor(s', s'.origin[b])[s'.origin[b].id] == Ptr(b)
    {
      RememberCaches(g, s, n, a, s'.origin[b]);
    }
  }

  lemma RememberKeepsQuals(g: Graph, s: State, n: Node, a: nat, uid: nat, pending: set<nat>)
    requires QualBlocks(g, s, pending) && a !in s.origin && !n.QualN?
    ensures QualBlocks(g, Remember(s, n, a).(uid := uid), pending)
  {
    hide OnCycle;
    var s' := Remember(s, n, a).(uid := uid);
    forall q: nat ensures BlocksFor(s', QualN(q)) == BlocksFor(s, QualN(q)) {
    }
  }

  /** The state in which q's pair is cached at a; it is noted if q is being built further up as well. */
  function Finished(s: State, q: nat, a: nat, pending: set<nat>): State {
    Remember(s, QualN(q), a).(again := if q in pending then s.again + {q} else s.again)
  }

  /** When q is finished: either its type was cached from the start and nothing has happened to q since, or q was
      pending while its type was translated. */
  ghost predicate CanFinish(g: Graph, s: State, during: set<nat>, pending: set<nat>, q: nat) {
    || (during == pending && q !in s.quals)
    || (during == pending + {q} && q !in pending && (q in s.quals ==> OnCycle(g, q)))
  }

  lemma FinishedKeepsQuals(g: Graph, s: State, q: nat, a: nat, during: set<nat>, pending: set<nat>)
    requires QualBlocks(g, s, during) && a !in s.origin && CanFinish(g, s, during, pending, q)
    ensures QualBlocks(g, Finished(s, q, a, pending), pending)
  {
    hide OnCycle;
    var s' := Finished(s, q, a, pending);
    forall p: nat ensures |BlocksFor(s', QualN(p))| == QualCount(s', pending, p) {
      BlocksAfterRemember(s, QualN(q), a, QualN(p));
      assert BlocksFor(s', QualN(p)) == BlocksFor(Remember(s, QualN(q), a), QualN(p));
      assert |BlocksFor(s, QualN(p))| == QualCount(s, during, p);
    }
  }

  /** What the invariant says apart from the number of blocks does not depend on what is noted. */
  lemma NotesAreAside(g: Graph, base: State, s: State, s': State, open: set<nat>)
    requires s' == s.(again := s'.again) && Extends(base, s)
    requires BlocksKnown(g, s, open) && ClosedAreComplete(g, s, open)
    ensures BlocksKnown(g, s', open) && ClosedAreComplete(g, s', open) && Extends(base, s')
    ensures CachesRefer(g, s) ==> CachesRefer(g, s')
    ensures OneBlockEach(s) ==> OneBlockEach(s')
    ensures UidsMatch(s) ==> UidsMatch(s')
  {
    hide WellFormed, ClosedAreComplete, CachesRefer, OneBlockEach, UidsMatch, Extends;
    NotesKeepBlocks(g, s, s', open);
    NotesKeepCaches(g, base, s, s');
    NotesKeepUids(s, s');
  }

  lemma NotesKeepBlocks(g: Graph, s: State, s': State, open: set<nat>)
    requires s' == s.(again := s'.again) && BlocksKnown(g, s, open) && ClosedAreComplete(g, s, open)
    ensures BlocksKnown(g, s', open) && ClosedAreComplete(g, s', open)
  {
    hide Slots, Filled, InGraph;
    forall b | b in s'.origin && b !in open ensures Complete(g, s', b, s'.origin[b]) {
      FilledKept(g, s, s', b, s'.origin[b], |Slots(g, s'.origin[b])|);
    }
  }

  lemma NotesKeepCaches(g: Graph, base: State, s: State, s': State)
    requires s' == s.(again := s'.again) && Extends(base, s)
    ensures Extends(base, s')
    ensures CachesRefer(g, s) ==> CachesRefer(g, s')
    ensures OneBlockEach(s) ==> OneBlockEach(s')
  {
    hide InGraph;
    assert forall n :: Cached(s', n) <==> Cached(s, n);
  }

  lemma NotesKeepUids(s: State, s': State)
    requires s' == s.(again := s'.again)
    ensures UidsMatch(s) ==> UidsMatch(s')
  {
    if UidsMatch(s) {
      UidsKept(s, s');
    }
  }

  lemma RememberKeepsComplete(g: Graph, s: State, n: Node, a: nat, uid: nat, open: set<nat>, open': set<nat>)
    requires BlocksKnown(g, s, open) && ClosedAreComplete(g, s, open) && InGraph(g, n)
    requires a !in s.origin && a < |s.heap| && a !in s.aux
    requires open' == open + {a} || (open' == open && Complete(g, s, a, n))
    ensures var s' := Remember(s, n, a).(uid := uid); BlocksKnown(g, s', open') && ClosedAreComplete(g, s', open')
  {
    hide Slots, Filled, InGraph;
    var s' := Remember(s, n, a).(uid := uid);
    forall b | b in s'.origin && b !in open' ensures Complete(g, s', b, s'.origin[b]) {
      FilledKept(g, s, s', b, s'.origin[b], |Slots(g, s'.origin[b])|);
    }
  }

  lemma RememberKeepsUids(s: State, n: Node, a: nat)
    requires UidsMatch(s) && a !in s.origin && !IsDecl(n)
    ensures UidsMatch(Remember(s, n, a))
  {
    UidsKept(s, Remember(s, n, a));
  }

  lemma RememberGivesUid(s: State, n: Node, a: nat)
    requires UidsMatch(s) && a !in s.origin && IsDecl(n)
    requires a < |s.heap| && |s.heap[a].fields| > 0 && s.heap[a].fields[0] == Imm(s.uid)
    ensures UidsMatch(Remember(s, n, a).(uid := s.uid + 1))
  {
    forall b, u | HasUid(s, b, u) ensures 0 <= u < s.uid {
      UidsAreBelow(s, b, u);
    }
    UidsGrow(s, Remember(s, n, a).(uid := s.uid + 1), a);
  }

  /** A type's block enters the cache before it is filled. */
  lemma OpenTypeStep(g: Graph, base: State, s: State, open: set<nat>, pending: set<nat>, a: nat, n: Node)
    requires Inv(g, s, open, pending) && Own(base, s, open, a) && a !in s.origin
    requires InGraph(g, n) && n.TypeN? && !Cached(s, n)
    ensures Inv(g, Remember(s, n, a), open + {a}, pending) && Own(base, Remember(s, n, a), open + {a}, a)
    ensures KeepsAux(s, Remember(s, n, a))
  {
    assert Remember(s, n, a) == Remember(s, n, a).(uid := s.uid);
    RememberExtends(base, s, n, a, s.uid);
    RememberKeepsCaches(g, s, n, a, s.uid);
    RememberKeepsOneBlock(g, s, n, a, s.uid);
    RememberKeepsQuals(g, s, n, a, s.uid, pending);
    RememberKeepsComplete(g, s, n, a, s.uid, open, open + {a});
    RememberKeepsUids(s, n, a);
  }

  /** So does a declaration's, together with the next uid. */
  lemma OpenDeclStep(g: Graph, base: State, s: State, open: set<nat>, pending: set<nat>, a: nat, n: Node)
    requires Inv(g, s, open, pending) && Own(base, s, open, a) && a !in s.origin
    requires InGraph(g, n) && IsDecl(n) && !Cached(s, n)
    requires |s.heap[a].fields| > 0 && s.heap[a].fields[0] == Imm(s.uid)
    ensures var s' := Remember(s, n, a).(uid := s.uid + 1);
            Inv(g, s', open + {a}, pending) && Own(base, s', open + {a}, a) && KeepsAux(s, s')
  {
    var uid := s.uid + 1;
    RememberExtends(base, s, n, a, uid);
    RememberKeepsCaches(g, s, n, a, uid);
    RememberKeepsOneBlock(g, s, n, a, uid);
    RememberKeepsQuals(g, s, n, a, uid, pending);
    RememberKeepsComplete(g, s, n, a, uid, open, open + {a});
    RememberGivesUid(s, n, a);
  }

  /** A qualified type's block enters the cache when it is complete, over any earlier entry. */
  lemma StoreQualStep(g: Graph, base: State, s: State, open: set<nat>, during: set<nat>, pending: set<nat>, a: nat,
                      q: nat)
    requires Inv(g, s, open, during) && Own(base, s, open, a) && a !in s.origin
    requires q in g.quals && Complete(g, s, a, QualN(q)) && CanFinish(g, s, during, pending, q)
    ensures Inv(g, Finished(s, q, a, pending), open, pending) && Extends(base, Finished(s, q, a, pending))
  {
    hide Slots, Filled, QualBlocks, CanFinish, OneBlockEach, CachesRefer, UidsMatch, WellFormed, ClosedAreComplete;
    hide KeepsAux;
    var n, s1 := QualN(q), Remember(s, QualN(q), a);
    assert s1 == s1.(uid := s.uid);
    RememberExtends(base, s, n, a, s.uid);
    RememberKeepsCaches(g, s, n, a, s.uid);
    RememberKeepsOneBlock(g, s, n, a, s.uid);
    RememberKeepsComplete(g, s, n, a, s.uid, open, open);
    RememberKeepsUids(s, n, a);
    NotesAreAside(g, base, s1, Finished(s, q, a, pending), open);
    FinishedKeepsQuals(g, s, q, a, during, pending);
  }

  // ---------- filling a block ----------

  function SetField(b: Block, i: nat, v: Value): Block
    requires i < |b.fields|
  {
    b.(fields := b.fields[i := v])
  }

  /** Block a is the caller's, belongs to n, and its first k fields are done. */
  ghost predicate Filling(g: Graph, base: State, s: State, open: set<nat>, pending: set<nat>, a: nat, n: Node, k: nat) {
    && Inv(g, s, open, pending) && Own(base, s, open, a) && InGraph(g, n) && Filled(g, s, a, n, k)
    && (a in s.origin ==> s.origin[a] == n)
  }

  /** Storing the next field. */
  lemma FillStep(g: Graph, base: State, s: State, s': State, open: set<nat>, pending: set<nat>, a: nat, n: Node,
                 k: nat, v: Value)
    requires Filling(g, base, s, open, pending, a, n, k) && k < |Slots(g, n)| && (a in s.origin && IsDecl(n) ==> k > 0)
    requires SlotHolds(s, Slots(g, n)[k], v) && s' == s.(heap := s.heap[a := SetField(s.heap[a], k, v)])
    ensures Filling(g, base, s', open, pending, a, n, k + 1)
  {
    hide Inv, Extends, KeepsAux, SlotHolds, Slots;
    WriteStep(g, base, s, s', open, pending, a, SetField(s.heap[a], k, v));
    forall i | 0 <= i < k + 1 ensures SlotHolds(s', Slots(g, n)[i], s'.heap[a].fields[i]) {
      SlotHoldsKept(s, s', Slots(g, n)[i], s'.heap[a].fields[i]);
    }
  }

  /** A nested translation does not disturb a block that is being filled. */
  lemma FillingKept(g: Graph, base: State, s: State, s': State, open: set<nat>, pending: set<nat>, pending': set<nat>,
                    a: nat, n: Node, k: nat)
    requires Filling(g, base, s, open, pending, a, n, k) && Extends(s, s') && Inv(g, s', open, pending')
    ensures Filling(g, base, s', open, pending', a, n, k)
  {
    ExtendsTransitive(base, s, s');
    ExtendsKeepsAux(s, s');
    FilledKept(g, s, s', a, n, k);
  }

  function FreshBlock(tag: nat, size: nat): Block {
    Block(tag, seq(size, _ => UNIT))
  }

  lemma OwnKept(base: State, s: State, s': State, open: set<nat>, a: nat)
    requires Own(base, s, open, a) && Extends(s, s')
    ensures Own(base, s', open, a) && s'.heap[a] == s.heap[a] && (a !in s.origin ==> a !in s'.origin)
  {
  }

  // ---------- entering and leaving a node ----------

  /** A type enters its cache with all fields still to do. */
  lemma TypeEnters(g: Graph, base: State, s: State, open: set<nat>, pending: set<nat>, a: nat, n: Node)
    requires Inv(g, s, open, pending) && Own(base, s, open, a) && a !in s.origin
    requires InGraph(g, n) && n.TypeN? && !Cached(s, n) && s.heap[a] == FreshBlock(Tag(g, n), |Slots(g, n)|)
    ensures Filling(g, base, Remember(s, n, a), open + {a}, pending, a, n, 0)
  {
    OpenTypeStep(g, base, s, open, pending, a, n);
  }

  /** A declaration enters its cache with its uid in place. */
  lemma DeclEnters(g: Graph, base: State, s: State, open: set<nat>, pending: set<nat>, a: nat, n: Node)
    requires Inv(g, s, open, pending) && Own(base, s, open, a) && a !in s.origin
    requires InGraph(g, n) && IsDecl(n) && !Cached(s, n) && s.heap[a] == FreshBlock(0, |Slots(g, n)|)
    requires |Slots(g, n)| > 0 && Slots(g, n)[0] == Uid
    ensures var s1 := s.(heap := s.heap[a := SetField(s.heap[a], 0, Imm(s.uid))]);
            Filling(g, base, Remember(s1, n, a).(uid := s.uid + 1), open + {a}, pending, a, n, 1)
  {
    hide Inv, Extends, KeepsAux, Slots;
    var s1 := s.(heap := s.heap[a := SetField(s.heap[a], 0, Imm(s.uid))]);
    WriteStep(g, base, s, s1, open, pending, a, SetField(s.heap[a], 0, Imm(s.uid)));
    OpenDeclStep(g, base, s1, open, pending, a, n);
  }

  /** A node leaves when its block is complete. */
  lemma NodeLeaves(g: Graph, base: State, s: State, open: set<nat>, pending: set<nat>, a: nat, n: Node)
    requires InGraph(g, n) && Filling(g, base, s, open + {a}, pending, a, n, |Slots(g, n)|) && a in s.origin
    requires a !in open
    ensures Inv(g, s, open, pending) && Extends(base, s) && Refers(s, Ptr(a), n)
  {
    CloseStep(g, s, open + {a}, pending, a);
    assert open + {a} - {a} == open;
  }

  lemma PendingGrows(g: Graph, s: State, open: set<nat>, pending: set<nat>, q: nat)
    requires Inv(g, s, open, pending) && q !in s.quals
    ensures Inv(g, s, open, pending + {q})
  {
    hide Reaches, WellFormed, ClosedAreComplete, CachesRefer, OneBlockEach, UidsMatch;
  }
}
