/** The memoising translator from the Clang AST graph to OCaml blocks. */
module Translator {
  import opened Caches
  import opened Options
  import opened ClangGraph
  import opened HeapSteps
  import opened ListSteps
  import opened NodeSteps
  import opened Mirror

  function EmptyState(): State {
    State([], map[], map[], map[], map[], 0, map[], {}, {})
  }

  lemma EmptyStateIsFine(g: Graph)
    requires WellFormed(g)
    ensures Inv(g, EmptyState(), {}, {})
  {
    forall q: nat ensures BlocksFor(EmptyState(), QualN(q)) == {} {
    }
  }

  lemma EmptyIsReady(g: Graph, s: State)
    ensures PendingReady(g, s, {})
  {
  }

  lemma NowCached(s: State, q: nat, a: nat, pending: set<nat>)
    ensures var s' := Finished(s, q, a, pending);
            q in s'.quals && s'.quals[q] == Ptr(a) && (q in pending ==> q in s'.again)
  {
  }

  lemma PendingIsNoted(g: Graph, s: State, open: set<nat>, pending: set<nat>, q: nat)
    requires Inv(g, s, open, pending) && q in s.quals
    ensures q in pending ==> q in s.again
  {
  }

  lemma ResumedIsBuilt(g: Graph, base: State, s: State, s': State, h: seq<Block>, open: set<nat>, during: set<nat>,
                       pending: set<nat>, a: nat, q: nat, t: Value, qual: Value)
    requires QualResumed(g, base, s, open, during, pending, a, q, qual) && Refers(s, t, TypeN(g.quals[q].ty))
    requires s' == Finished(s.(heap := h), q, a, pending)
    ensures BuiltAfterItsType(g, s, s', open, pending, Ptr(a), q)
  {
    hide OnCycle, Filled, Own;
    assert |BlocksFor(s, QualN(q))| == QualCount(s, during, q);
    assert t.addr in s.origin && s.origin[t.addr] == TypeN(g.quals[q].ty);
  }

  /** The first i of the values, then units. */
  ghost function Partial(values: seq<Value>, i: nat): seq<Value> {
    seq(|values|, j requires 0 <= j < |values| => if j < i then values[j] else UNIT)
  }

  method NewCaches() returns (types: Cache, quals: Cache, misc: Cache, misc2: Cache)
    ensures fresh(types) && fresh(quals) && fresh(misc) && fresh(misc2)
    ensures fresh(types.mlvalues) && fresh(quals.mlvalues) && fresh(misc.mlvalues) && fresh(misc2.mlvalues)
    ensures types != quals && types != misc && types != misc2 && quals != misc && quals != misc2 && misc != misc2
    ensures types.mlvalues != quals.mlvalues && types.mlvalues != misc.mlvalues && types.mlvalues != misc2.mlvalues
    ensures quals.mlvalues != misc.mlvalues && quals.mlvalues != misc2.mlvalues && misc.mlvalues != misc2.mlvalues
    ensures types.Valid() && quals.Valid() && misc.Valid() && misc2.Valid()
    ensures types.Contents() == quals.Contents() == misc.Contents() == misc2.Contents() == map[]
  {
    hide Indexes, Denotes;
    types := new Cache();
    quals := new Cache();
    misc := new Cache();
    misc2 := new Cache();
  }

  class Translator {
    const graph: Graph
    const cacheType: Cache
    const cacheTypeQual: Cache
    const cacheMisc: Cache
    const cacheMisc2: Cache
    /** The OCaml heap; a block's address is its position. */
    var heap: seq<Block>
    var uid: nat
    ghost var origin: map<nat, Node>
    ghost var aux: set<nat>
    /** The qualified types that were finished while they were themselves being built. */
    ghost var again: set<nat>

    ghost function Repr(): set<object>
      reads cacheType, cacheTypeQual, cacheMisc, cacheMisc2
    {
      {this, cacheType, cacheTypeQual, cacheMisc, cacheMisc2,
       cacheType.mlvalues, cacheTypeQual.mlvalues, cacheMisc.mlvalues, cacheMisc2.mlvalues}
    }

    ghost predicate Ready()
      reads cacheType, cacheTypeQual, cacheMisc, cacheMisc2
      reads cacheType.mlvalues, cacheTypeQual.mlvalues, cacheMisc.mlvalues, cacheMisc2.mlvalues
    {
      && cacheType != cacheTypeQual && cacheType != cacheMisc && cacheType != cacheMisc2
      && cacheTypeQual != cacheMisc && cacheTypeQual != cacheMisc2 && cacheMisc != cacheMisc2
      && cacheType.mlvalues != cacheTypeQual.mlvalues && cacheType.mlvalues != cacheMisc.mlvalues
      && cacheType.mlvalues != cacheMisc2.mlvalues && cacheTypeQual.mlvalues != cacheMisc.mlvalues
      && cacheTypeQual.mlvalues != cacheMisc2.mlvalues && cacheMisc.mlvalues != cacheMisc2.mlvalues
      && cacheType.Valid() && cacheTypeQual.Valid() && cacheMisc.Valid() && cacheMisc2.Valid()
    }

    /** The abstract state. */
    ghost function S(): State
      requires Ready()
      reads this, cacheType, cacheTypeQual, cacheMisc, cacheMisc2
      reads cacheType.mlvalues, cacheTypeQual.mlvalues, cacheMisc.mlvalues, cacheMisc2.mlvalues
    {
      State(heap, cacheType.Contents(), cacheTypeQual.Contents(), cacheMisc.Contents(), cacheMisc2.Contents(),
            uid, origin, aux, again)
    }

    constructor (graph: Graph)
      ensures this.graph == graph && Ready() && fresh(Repr()) && S() == EmptyState()
    {
      this.graph := graph;
      var types, quals, misc, misc2 := NewCaches();
      cacheType, cacheTypeQual, cacheMisc, cacheMisc2 := types, quals, misc, misc2;
      heap, uid, origin, aux, again := [], 0, map[], {}, {};
      new;
      assert Ready();
    }

    // ---------- elementary steps ----------

    /** Allocates a block whose fields all hold unit. */
    method Alloc(tag: nat, size: nat) returns (a: nat)
      requires Ready()
      modifies this`heap
      ensures Ready() && a == |old(S()).heap| && S() == old(S()).(heap := old(S()).heap + [FreshBlock(tag, size)])
    {
      a := |heap|;
      heap := heap + [FreshBlock(tag, size)];
    }

    method StoreField(a: nat, i: nat, v: Value)
      requires Ready() && a < |S().heap| && i < |S().heap[a].fields|
      modifies this`heap
      ensures Ready() && S() == old(S()).(heap := old(S()).heap[a := SetField(old(S()).heap[a], i, v)])
    {
      heap := heap[a := SetField(heap[a], i, v)];
    }

    method StoreUid(a: nat)
      requires Ready() && a < |S().heap| && |S().heap[a].fields| > 0
      modifies this`heap, this`uid
      ensures Ready()
      ensures S() == old(S()).(heap := old(S()).heap[a := SetField(old(S()).heap[a], 0, Imm(old(S()).uid))],
                               uid := old(S()).uid + 1)
    {
      hide Ready, S, NewUnder, Edge, SetField;
      var u := NextUid();
      StoreField(a, 0, Imm(u));
    }

    method NextUid() returns (u: nat)
      requires Ready()
      modifies this`uid
      ensures Ready() && u == old(S()).uid && S() == old(S()).(uid := u + 1)
    {
      u := uid;
      uid := uid + 1;
    }

    method GetField(a: nat, i: nat) returns (v: Value)
      requires Ready() && a < |S().heap| && i < |S().heap[a].fields|
      ensures v == S().heap[a].fields[i]
    {
      v := heap[a].fields[i];
    }

    ghost method KeepAux(xs: set<nat>)
      requires Ready()
      modifies this`aux
      ensures Ready() && S() == old(S()).(aux := old(S()).aux + xs)
    {
      aux := aux + xs;
    }

    method LookupType(t: nat) returns (hit: bool, v: Value)
      requires Ready()
      ensures hit <==> t in S().types
      ensures hit ==> v == S().types[t]
    {
      v := UNIT;
      hit := cacheType.Contains(t);
      if hit {
        v := cacheType.Get(t);
      }
    }

    method LookupQual(q: nat) returns (hit: bool, v: Value)
      requires Ready()
      ensures hit <==> q in S().quals
      ensures hit ==> v == S().quals[q]
    {
      v := UNIT;
      hit := cacheTypeQual.Contains(q);
      if hit {
        v := cacheTypeQual.Get(q);
      }
    }

    method LookupMisc(k: nat) returns (hit: bool, v: Value)
      requires Ready()
      ensures hit <==> k in S().misc
      ensures hit ==> v == S().misc[k]
    {
      v := UNIT;
      hit := cacheMisc.Contains(k);
      if hit {
        v := cacheMisc.Get(k);
      }
    }

    method LookupMisc2(k: nat) returns (hit: bool, v: Value)
      requires Ready()
      ensures hit <==> k in S().misc2
      ensures hit ==> v == S().misc2[k]
    {
      v := UNIT;
      hit := cacheMisc2.Contains(k);
      if hit {
        v := cacheMisc2.Get(k);
      }
    }

    method RememberType(a: nat, t: nat)
      requires Ready()
      modifies this`origin, cacheType, cacheType.mlvalues
      ensures Ready() && fresh(Repr() - old(Repr())) && S() == Remember(old(S()), TypeN(t), a)
    {
      cacheType.Store(t, Ptr(a));
      origin := origin[a := TypeN(t)];
    }

    method RememberQual(a: nat, q: nat, ghost pending: set<nat>)
      requires Ready()
      modifies this`origin, this`again, cacheTypeQual, cacheTypeQual.mlvalues
      ensures Ready() && fresh(Repr() - old(Repr())) && S() == Finished(old(S()), q, a, pending)
    {
      cacheTypeQual.Store(q, Ptr(a));
      origin := origin[a := QualN(q)];
      again := if q in pending then again + {q} else again;
    }

    method RememberRecord(a: nat, r: nat)
      requires Ready()
      modifies this`origin, cacheMisc, cacheMisc.mlvalues
      ensures Ready() && fresh(Repr() - old(Repr())) && S() == Remember(old(S()), RecordN(r), a)
    {
      cacheMisc.Store(r, Ptr(a));
      origin := origin[a := RecordN(r)];
    }

    method RememberTypedef(a: nat, d: nat)
      requires Ready()
      modifies this`origin, cacheMisc, cacheMisc.mlvalues
      ensures Ready() && fresh(Repr() - old(Repr())) && S() == Remember(old(S()), TypedefN(d), a)
    {
      cacheMisc.Store(d, Ptr(a));
      origin := origin[a := TypedefN(d)];
    }

    method RememberField(a: nat, f: nat)
      requires Ready()
      modifies this`origin, cacheMisc2, cacheMisc2.mlvalues
      ensures Ready() && fresh(Repr() - old(Repr())) && S() == Remember(old(S()), FieldN(f), a)
    {
      cacheMisc2.Store(f, Ptr(a));
      origin := origin[a := FieldN(f)];
    }

    // ---------- auxiliary blocks ----------

    /** A tuple with the given fields, and nothing else changed. */
    method MakeTuple(values: seq<Value>) returns (v: Value)
      requires Ready()
      modifies this`heap, this`aux
      ensures Ready() && v == Ptr(|old(S()).heap|) && S() == WithTuple(old(S()), values)
    {
      hide Ready, S;
      ghost var base := S();
      var a := Alloc(0, |values|);
      assert FreshBlock(0, |values|) == Block(0, Partial(values, 0));
      for i := 0 to |values|
        invariant Ready() && a == |base.heap|
        invariant S() == base.(heap := base.heap + [Block(0, Partial(values, i))])
      {
        StoreField(a, i, values[i]);
        assert SetField(Block(0, Partial(values, i)), i, values[i]) == Block(0, Partial(values, i + 1));
        assert S().heap == base.heap + [Block(0, Partial(values, i + 1))];
      }
      assert Partial(values, |values|) == values;
      KeepAux({a});
      v := Ptr(a);
    }

    method MakeOption(value: Option<Value>, ghost open: set<nat>, ghost pending: set<nat>) returns (v: Value)
      requires Ready() && Inv(graph, S(), open, pending)
      modifies this`heap, this`aux
      ensures Ready() && Inv(graph, S(), open, pending) && Extends(old(S()), S()) && SlotHolds(S(), OptValue(value), v)
      ensures S().origin == old(S()).origin
    {
      hide Inv, Extends, Ready, S;
      match value
      case None =>
        v := UNIT;
        ExtendsReflexive(S());
      case Some(x) =>
        TupleIsMade(graph, S(), open, pending, [x]);
        v := MakeTuple([x]);
    }

    // ---------- filling a node's block ----------

    /** Stores the next field. */
    method Fill(a: nat, k: nat, v: Value, ghost n: Node, ghost base: State, ghost open: set<nat>,
                ghost pending: set<nat>)
      requires Ready() && Building(graph, base, S(), open, pending, a, n, k) && k < |Slots(graph, n)|
      requires (IsDecl(n) ==> k > 0)
      requires SlotHolds(S(), Slots(graph, n)[k], v)
      modifies this`heap
      ensures Ready() && Building(graph, base, S(), open, pending, a, n, k + 1)
      ensures Todo(graph, S()) == Todo(graph, old(S()))
    {
      hide Building, SlotHolds, Ready, S;
      ghost var s := S();
      BuildingIsInv(graph, base, s, open, pending, a, n, k);
      BuildingHasField(graph, base, s, open, pending, a, n, k);
      BuildingFills(graph, base, s, s.(heap := s.heap[a := SetField(s.heap[a], k, v)]), open, pending, a, n, k, v);
      StoreField(a, k, v);
    }

    /** Stores a field whose value is given. */
    method FillExactly(a: nat, k: nat, v: Value, ghost n: Node, ghost base: State, ghost open: set<nat>,
                       ghost pending: set<nat>)
      requires Ready() && Building(graph, base, S(), open, pending, a, n, k) && k < |Slots(graph, n)|
      requires (IsDecl(n) ==> k > 0)
      requires Slots(graph, n)[k] == Exactly(v)
      modifies this`heap
      ensures Ready() && Building(graph, base, S(), open, pending, a, n, k + 1)
      ensures Todo(graph, S()) == Todo(graph, old(S()))
    {
      hide Building, Ready, S, NewUnder, Edge, Slots, Todo;
      Fill(a, k, v, n, base, open, pending);
    }

    method FillOption(a: nat, k: nat, value: Option<Value>, ghost n: Node, ghost base: State, ghost open: set<nat>,
                      ghost pending: set<nat>)
      requires Ready() && Building(graph, base, S(), open, pending, a, n, k) && k < |Slots(graph, n)|
      requires (IsDecl(n) ==> k > 0)
      requires Slots(graph, n)[k] == OptValue(value)
      modifies this`heap, this`aux
      ensures Ready() && Building(graph, base, S(), open, pending, a, n, k + 1)
      ensures Todo(graph, S()) <= Todo(graph, old(S()))
    {
      hide Building, Ready, S, NewUnder, Edge, Slots, Todo, SlotHolds, Inv, Extends;
      ghost var s := S();
      BuildingIsInv(graph, base, s, open, pending, a, n, k);
      var v := MakeOption(value, open + {a}, pending);
      NothingNew(graph, s, S(), n);
      BuildingKept(graph, base, s, S(), open, pending, a, n, k);
      Fill(a, k, v, n, base, open, pending);
    }

    /** Stores the translation of a qualified type. */
    method FillQual(a: nat, k: nat, q: nat, ghost n: Node, ghost base: State, ghost open: set<nat>,
                    ghost pending: set<nat>)
      requires Ready() && Building(graph, base, S(), open, pending, a, n, k) && k < |Slots(graph, n)|
      requires (IsDecl(n) ==> k > 0)
      requires Slots(graph, n)[k] == Child(QualN(q))
      modifies Repr()
      ensures Ready() && fresh(Repr() - old(Repr()))
      ensures Building(graph, base, S(), open, pending, a, n, k + 1) && Todo(graph, S()) <= Todo(graph, old(S()))
      decreases Todo(graph, S()), 4
    {
      hide Building, Ready, S, NewUnder, Edge, Slots, Todo, SlotHolds, Inv, Extends, PendingReady;
      ghost var s := S();
      BuildingIsInv(graph, base, s, open, pending, a, n, k);
      ChildIsInGraph(graph, s, open + {a}, pending, n, k, QualN(q));
      var v, _ := TranslateQualType(q, open + {a}, pending);
      SlotAdds(graph, s, S(), n, k, QualN(q));
      BuildingKept(graph, base, s, S(), open, pending, a, n, k);
      ChildSlot(S(), QualN(q), v);
      Fill(a, k, v, n, base, open, pending);
    }

    // ---------- the translation ----------

    /** Translates a whole graph from one qualified type. */
    method Translate(q: nat) returns (ret: Value)
      requires Ready() && Inv(graph, S(), {}, {}) && q in graph.quals
      modifies Repr()
      ensures Ready() && fresh(Repr() - old(Repr()))
      ensures Inv(graph, S(), {}, {}) && Extends(old(S()), S()) && Mirrors(S().heap, ret, graph, QualN(q))
      ensures q !in old(S()).quals ==> |BlocksFor(S(), QualN(q))| == if OnCycle(graph, q) then 2 else 1
      ensures NewUnder(graph, old(S()), S(), QualN(q))
      ensures Answers(old(S()), S(), QualN(q), ret)
      ensures old(S()).origin == map[] ==> forall m :: Translated(S(), m) <==> Reaches(graph, QualN(q), m)
    {
      hide Ready, S, NewUnder, Edge, Inv, Extends, Reaches, Mirrors, BuiltAfterItsType, BlocksFor;
      ghost var base := S();
      EmptyIsReady(graph, base);
      ghost var before: State;
      ret, before := TranslateQualType(q, {}, {});
      ghost var s := S();
      TranslationMirrorsSource(graph, s, {}, ret, QualN(q));
      if base.origin == map[] {
        forall m ensures Translated(s, m) <==> Reaches(graph, QualN(q), m) {
          TranslatedIsReachable(graph, base, s, {}, ret, QualN(q), m);
        }
      }
      if q !in base.quals {
        QualIsBuiltTwiceIffOnCycle(graph, before, s, ret, q);
      }
    }

    /** Translates a qualified type; the result enters the cache after it is built. */
    method TranslateQualType(q: nat, ghost open: set<nat>, ghost pending: set<nat>) returns (ret: Value,
                             ghost before: State)
      requires Ready() && Inv(graph, S(), open, pending) && PendingReady(graph, S(), pending) && q in graph.quals
      modifies Repr()
      ensures Ready() && fresh(Repr() - old(Repr()))
      ensures Inv(graph, S(), open, pending) && Extends(old(S()), S()) && Refers(S(), ret, QualN(q))
      ensures NewUnder(graph, old(S()), S(), QualN(q))
      ensures Answers(old(S()), S(), QualN(q), ret)
      ensures q in pending ==> q in S().again
      ensures q !in old(S()).quals ==> BuiltAfterItsType(graph, before, S(), open, pending, ret, q)
      decreases Todo(graph, S()), 3
    {
      hide Answers, Ready, S, NewUnder, Edge, Inv, Extends, PendingReady, Refers, BuiltAfterItsType;
      ghost var base := S();
      before := base;
      var hit;
      hit, ret := LookupQual(q);
      if hit {
        CachedRefers(graph, base, open, pending, QualN(q));
        ExtendsReflexive(base);
        NothingNew(graph, base, base, QualN(q));
        PendingIsNoted(graph, base, open, pending, q);
        return;
      }
      ret, before := BuildQual(q, open, pending);
    }

    method BuildQual(q: nat, ghost open: set<nat>, ghost pending: set<nat>) returns (ret: Value, ghost before: State)
      requires Ready() && Inv(graph, S(), open, pending) && PendingReady(graph, S(), pending)
      requires q in graph.quals && q !in S().quals
      modifies Repr()
      ensures Ready() && fresh(Repr() - old(Repr()))
      ensures Inv(graph, S(), open, pending) && Extends(old(S()), S()) && Refers(S(), ret, QualN(q))
      ensures NewUnder(graph, old(S()), S(), QualN(q))
      ensures Answers(old(S()), S(), QualN(q), ret)
      ensures q in pending ==> q in S().again
      ensures BuiltAfterItsType(graph, before, S(), open, pending, ret, q)
      decreases Todo(graph, S()), 2
    {
      hide Answers, Ready, S, NewUnder, Inv, Extends, PendingReady, Refers, QualResumed, BuiltAfterItsType;
      ghost var base := S();
      var qual, a, t;
      ghost var during;
      qual, a, t, during := PrepareQual(q, open, pending);
      before := S();
      FinishQual(a, q, t, qual, base, open, during, pending);
      ret := Ptr(a);
      BuiltQualIsCached(base, S(), q, ret);
    }

    /** Everything but the two fields of the pair and its cache entry; q is pending during that time if its type is
        still to be translated. */
    method PrepareQual(q: nat, ghost open: set<nat>, ghost pending: set<nat>)
      returns (qual: Value, a: nat, t: Value, ghost during: set<nat>)
      requires Ready() && Inv(graph, S(), open, pending) && PendingReady(graph, S(), pending)
      requires q in graph.quals && q !in S().quals
      modifies Repr()
      ensures Ready() && fresh(Repr() - old(Repr())) && q in graph.quals
      ensures QualResumed(graph, old(S()), S(), open, during, pending, a, q, qual)
      ensures Refers(S(), t, TypeN(graph.quals[q].ty))
      decreases Todo(graph, S()), 1
    {
      hide Answers, NowPending, Ready, S, NewUnder, Edge, Todo, SlotHolds, Inv, Extends, PendingReady, PendingOn;
      hide Refers, QualStarted, QualResumed;
      ghost var base := S();
      qual, a := StartQual(q, open, pending);
      ghost var started := S();
      QualIsStarted(graph, base, started, open, pending, a, q, qual);
      during := NowPending(graph, started, pending, q);
      t := TranslateType(graph.quals[q].ty, open, during);
      QualResumes(graph, base, started, S(), open, pending, a, q, qual, t);
    }

    /** Makes the tuple of qualifiers and allocates the pair. */
    method StartQual(q: nat, ghost open: set<nat>, ghost pending: set<nat>) returns (qual: Value, a: nat)
      requires Ready() && Inv(graph, S(), open, pending) && PendingReady(graph, S(), pending)
      requires q in graph.quals && q !in S().quals
      modifies this`heap, this`aux
      ensures Ready() && QualStarted(graph, old(S()), S(), open, pending, a, q, qual)
    {
      hide Ready, S, NewUnder, Edge, Inv, Extends, PendingReady, QualStarted;
      ghost var base := S();
      var x := graph.quals[q];
      var values := [BoolValue(x.isConst), BoolValue(x.isRestrict), BoolValue(x.isVolatile)];
      TupleIsMade(graph, base, open, pending, values);
      qual := MakeTuple(values);
      ghost var s := S();
      assert SlotHolds(s, QualSlots(x)[1], qual);
      a := Alloc(0, 2);
      QualStarts(graph, base, s, S(), open, pending, a, q, qual);
    }

    /** Fills the pair and enters it in the cache. */
    method FinishQual(a: nat, q: nat, t: Value, qual: Value, ghost base: State, ghost open: set<nat>,
                      ghost during: set<nat>, ghost pending: set<nat>)
      requires Ready() && QualResumed(graph, base, S(), open, during, pending, a, q, qual)
      requires Refers(S(), t, TypeN(graph.quals[q].ty))
      modifies Repr()
      ensures Ready() && fresh(Repr() - old(Repr()))
      ensures Inv(graph, S(), open, pending) && Extends(base, S()) && Refers(S(), Ptr(a), QualN(q))
      ensures NewUnder(graph, base, S(), QualN(q)) && q in S().quals && S().quals[q] == Ptr(a)
      ensures q in pending ==> q in S().again
      ensures BuiltAfterItsType(graph, old(S()), S(), open, pending, Ptr(a), q)
    {
      hide Ready, S, NewUnder, Edge, Inv, Extends, PendingReady, QualResumed, Refers, Finished, BuiltAfterItsType;
      ghost var s := S();
      QualFinishes(graph, base, s, open, during, pending, a, q, t, qual);
      StoreField(a, 0, t);
      StoreField(a, 1, qual);
      assert S().heap == s.heap[a := SetField(SetField(s.heap[a], 0, t), 1, qual)];
      ghost var h := S().heap;
      RememberQual(a, q, pending);
      NowCached(s.(heap := h), q, a, pending);
      ResumedIsBuilt(graph, base, s, S(), h, open, during, pending, a, q, t, qual);
    }

    /** Translates a type; its block enters the cache before it is filled. */
    method TranslateType(t: nat, ghost open: set<nat>, ghost pending: set<nat>) returns (ret: Value)
      requires Ready() && Inv(graph, S(), open, pending) && t in graph.types && PendingOn(graph, S(), pending, t)
      modifies Repr()
      ensures Ready() && fresh(Repr() - old(Repr()))
      ensures Inv(graph, S(), open, pending) && Extends(old(S()), S()) && Refers(S(), ret, TypeN(t))
      ensures NewUnder(graph, old(S()), S(), TypeN(t))
      ensures Answers(old(S()), S(), TypeN(t), ret)
      decreases Todo(graph, S()), 0
    {
      hide Answers, Ready, S, NewUnder, Edge, Todo, Inv, Extends, PendingOn, Refers, Building, TypeSlots, TypeTag;
      hide Remember;
      ghost var base, n := S(), TypeN(t);
      var hit;
      hit, ret := LookupType(t);
      if hit {
        CachedRefers(graph, base, open, pending, n);
        ExtendsReflexive(base);
        NothingNew(graph, base, base, n);
        return;
      }
      var x := graph.types[t];
      TypeStarts(graph, base, open, pending, |base.heap|, t);
      var a := Alloc(TypeTag(x), |TypeSlots(x)|);
      RememberType(a, t);
      BuildingDrops(graph, base, S(), open, pending, a, n, 0);
      FillType(a, t, base, open, pending);
      BuildingEnds(graph, base, S(), open, pending, a, n);
      ret := Ptr(a);
      BuiltIsCached(graph, base, S(), open, pending, n, ret);
    }

    /** Fills the block of a type that has just entered the cache. */
    method FillType(a: nat, t: nat, ghost base: State, ghost open: set<nat>, ghost pending: set<nat>)
      requires Ready() && t in graph.types && Building(graph, base, S(), open, pending, a, TypeN(t), 0)
      modifies Repr()
      ensures Ready() && fresh(Repr() - old(Repr()))
      ensures Building(graph, base, S(), open, pending, a, TypeN(t), |Slots(graph, TypeN(t))|)
      decreases Todo(graph, S()), 5
    {
      hide Ready, S, NewUnder, Edge, Todo, Inv, Extends, PendingReady, Refers, Building, SlotHolds;
      ghost var n := TypeN(t);
      match graph.types[t]
      case Wrapper(_, q) =>
        FillQual(a, 0, q, n, base, open, pending);
      case Decayed(d, p) =>
        FillQual(a, 0, d, n, base, open, pending);
        FillQual(a, 1, p, n, base, open, pending);
      case UnaryTransform(u, b) =>
        FillQual(a, 0, u, n, base, open, pending);
        FillQual(a, 1, b, n, base, open, pending);
        FillExactly(a, 2, UNIT, n, base, open, pending);
      case Builtin(k) =>
        FillExactly(a, 0, Imm(k), n, base, open, pending);
      case RecordType(r) =>
        FillRecord(a, r, n, base, open, pending);
      case TypedefType(d) =>
        FillTypedef(a, d, n, base, open, pending);
      case Vector(e, size, kind) =>
        FillQual(a, 0, e, n, base, open, pending);
        FillExactly(a, 1, Imm(size), n, base, open, pending);
        FillExactly(a, 2, Imm(kind), n, base, open, pending);
      case Unknown(c, name) =>
        FillExactly(a, 0, Imm(c), n, base, open, pending);
        FillExactly(a, 1, Foreign(name), n, base, open, pending);
    }

    method FillRecord(a: nat, r: nat, ghost n: Node, ghost base: State, ghost open: set<nat>, ghost pending: set<nat>)
      requires Ready() && Building(graph, base, S(), open, pending, a, n, 0) && 0 < |Slots(graph, n)| && !IsDecl(n)
      requires Slots(graph, n)[0] == Child(RecordN(r))
      modifies Repr()
      ensures Ready() && fresh(Repr() - old(Repr())) && Building(graph, base, S(), open, pending, a, n, 1)
      decreases Todo(graph, S()), 2
    {
      hide Building, Ready, S, NewUnder, Edge, Slots, Todo, SlotHolds, Inv, Extends, PendingReady;
      ghost var s := S();
      BuildingIsInv(graph, base, s, open, pending, a, n, 0);
      ChildIsInGraph(graph, s, open + {a}, pending, n, 0, RecordN(r));
      var v := TranslateRecordDecl(r, open + {a}, pending);
      SlotAdds(graph, s, S(), n, 0, RecordN(r));
      BuildingKept(graph, base, s, S(), open, pending, a, n, 0);
      ChildSlot(S(), RecordN(r), v);
      Fill(a, 0, v, n, base, open, pending);
    }

    method FillTypedef(a: nat, d: nat, ghost n: Node, ghost base: State, ghost open: set<nat>, ghost pending: set<nat>)
      requires Ready() && Building(graph, base, S(), open, pending, a, n, 0) && 0 < |Slots(graph, n)| && !IsDecl(n)
      requires Slots(graph, n)[0] == Child(TypedefN(d))
      modifies Repr()
      ensures Ready() && fresh(Repr() - old(Repr())) && Building(graph, base, S(), open, pending, a, n, 1)
      decreases Todo(graph, S()), 2
    {
      hide Building, Ready, S, NewUnder, Edge, Slots, Todo, SlotHolds, Inv, Extends, PendingReady;
      ghost var s := S();
      BuildingIsInv(graph, base, s, open, pending, a, n, 0);
      ChildIsInGraph(graph, s, open + {a}, pending, n, 0, TypedefN(d));
      var v := TranslateTypedefNameDecl(d, open + {a}, pending);
      SlotAdds(graph, s, S(), n, 0, TypedefN(d));
      BuildingKept(graph, base, s, S(), open, pending, a, n, 0);
      ChildSlot(S(), TypedefN(d), v);
      Fill(a, 0, v, n, base, open, pending);
    }

    /** Allocates the block, enters it in the cache and gives it the next uid. */
    method StartTypedef(d: nat, ghost open: set<nat>, ghost pending: set<nat>) returns (a: nat)
      requires Ready() && Inv(graph, S(), open, pending) && PendingReady(graph, S(), pending)
      requires d in graph.typedefs && d !in S().misc
      modifies this`heap, this`uid, this`origin, cacheMisc, cacheMisc.mlvalues
      ensures Ready() && fresh(Repr() - old(Repr())) && Building(graph, old(S()), S(), open, pending, a, TypedefN(d), 1)
    {
      hide Ready, S, NewUnder, Edge, Inv, PendingReady, Building, Remember, Declared, Slots;
      ghost var base, n := S(), TypedefN(d);
      SlotsOfTypedef(graph, d, graph.typedefs[d]);
      DeclStarts(graph, base, open, pending, |base.heap|, n);
      a := Alloc(0, 5);
      RememberTypedef(a, d);
      DeclaredStep(base, n, a, 5);
      StoreUid(a);
    }

    method TranslateTypedefNameDecl(d: nat, ghost open: set<nat>, ghost pending: set<nat>) returns (ret: Value)
      requires Ready() && Inv(graph, S(), open, pending) && PendingReady(graph, S(), pending) && d in graph.typedefs
      modifies Repr()
      ensures Ready() && fresh(Repr() - old(Repr()))
      ensures Inv(graph, S(), open, pending) && Extends(old(S()), S()) && Refers(S(), ret, TypedefN(d))
      ensures NewUnder(graph, old(S()), S(), TypedefN(d))
      ensures Answers(old(S()), S(), TypedefN(d), ret)
      ensures TakesUid(old(S()), S(), TypedefN(d), ret)
      decreases Todo(graph, S()), 0
    {
      hide HasUid, Answers, Ready, S, NewUnder, Edge, Todo, Inv, Extends, PendingReady, Refers, Building, Remember;
      hide Declared;
      hide Slots;
      ghost var base, n := S(), TypedefN(d);
      var hit;
      hit, ret := LookupMisc(d);
      if hit {
        CachedRefers(graph, base, open, pending, n);
        ExtendsReflexive(base);
        NothingNew(graph, base, base, n);
        return;
      }
      var a := StartTypedef(d, open, pending);
      BuildingDrops(graph, base, S(), open, pending, a, n, 1);
      FillTypedefDecl(a, d, base, open, pending);
      BuildingEnds(graph, base, S(), open, pending, a, n);
      ret := Ptr(a);
      BuiltIsCached(graph, base, S(), open, pending, n, ret);
    }

    method FillTypedefDecl(a: nat, d: nat, ghost base: State, ghost open: set<nat>, ghost pending: set<nat>)
      requires Ready() && d in graph.typedefs && Building(graph, base, S(), open, pending, a, TypedefN(d), 1)
      modifies Repr()
      ensures Ready() && fresh(Repr() - old(Repr()))
      ensures Building(graph, base, S(), open, pending, a, TypedefN(d), |Slots(graph, TypedefN(d))|)
      decreases Todo(graph, S()), 5
    {
      hide Ready, S, NewUnder, Edge, Todo, Inv, Extends, PendingReady, Refers, Building, Slots;
      ghost var n := TypedefN(d);
      var x := graph.typedefs[d];
      SlotsOfTypedef(graph, d, x);
      FillExactly(a, 1, Foreign(x.name), n, base, open, pending);
      FillQual(a, 2, x.underlying, n, base, open, pending);
      FillExactly(a, 3, Foreign(x.range), n, base, open, pending);
      FillExactly(a, 4, Foreign(x.comments), n, base, open, pending);
    }

    /** Allocates the block, enters it in the cache and gives it the next uid. */
    method StartField(f: nat, ghost open: set<nat>, ghost pending: set<nat>) returns (a: nat)
      requires Ready() && Inv(graph, S(), open, pending) && PendingReady(graph, S(), pending)
      requires f in graph.fields && f !in S().misc2 && graph.fields[f].parent in graph.records
      modifies this`heap, this`uid, this`origin, cacheMisc2, cacheMisc2.mlvalues
      ensures Ready() && fresh(Repr() - old(Repr())) && Building(graph, old(S()), S(), open, pending, a, FieldN(f), 1)
    {
      hide Ready, S, NewUnder, Edge, Inv, PendingReady, Building, Remember, Declared, Slots;
      ghost var base, n := S(), FieldN(f);
      SlotsOfField(graph, f, graph.fields[f]);
      DeclStarts(graph, base, open, pending, |base.heap|, n);
      a := Alloc(0, 12);
      RememberField(a, f);
      DeclaredStep(base, n, a, 12);
      StoreUid(a);
    }

    method TranslateFieldDecl(f: nat, ghost open: set<nat>, ghost pending: set<nat>) returns (ret: Value)
      requires Ready() && Inv(graph, S(), open, pending) && PendingReady(graph, S(), pending) && f in graph.fields
      modifies Repr()
      ensures Ready() && fresh(Repr() - old(Repr()))
      ensures Inv(graph, S(), open, pending) && Extends(old(S()), S()) && Refers(S(), ret, FieldN(f))
      ensures NewUnder(graph, old(S()), S(), FieldN(f))
      ensures Answers(old(S()), S(), FieldN(f), ret)
      ensures TakesUid(old(S()), S(), FieldN(f), ret)
      decreases Todo(graph, S()), 0
    {
      hide HasUid, Answers, Ready, S, NewUnder, Edge, Todo, Inv, Extends, PendingReady, Refers, Building, Remember;
      hide Declared;
      hide Slots;
      ghost var base, n := S(), FieldN(f);
      var hit;
      hit, ret := LookupMisc2(f);
      if hit {
        CachedRefers(graph, base, open, pending, n);
        ExtendsReflexive(base);
        NothingNew(graph, base, base, n);
        return;
      }
      ParentIsInGraph(graph, base, open, pending, f);
      var a := StartField(f, open, pending);
      BuildingDrops(graph, base, S(), open, pending, a, n, 1);
      FillFieldDecl(a, f, base, open, pending);
      BuildingEnds(graph, base, S(), open, pending, a, n);
      ret := Ptr(a);
      BuiltIsCached(graph, base, S(), open, pending, n, ret);
    }

    /** The twelfth slot of the block is left as allocated. */
    method FillFieldDecl(a: nat, f: nat, ghost base: State, ghost open: set<nat>, ghost pending: set<nat>)
      requires Ready() && f in graph.fields && graph.fields[f].parent in graph.records
      requires Building(graph, base, S(), open, pending, a, FieldN(f), 1)
      modifies Repr()
      ensures Ready() && fresh(Repr() - old(Repr()))
      ensures Building(graph, base, S(), open, pending, a, FieldN(f), |Slots(graph, FieldN(f))|)
      decreases Todo(graph, S()), 5
    {
      hide Ready, S, NewUnder, Edge, Todo, Inv, Extends, PendingReady, Refers, Building, Slots, HasLayout, BoolValue;
      ghost var n := FieldN(f);
      var x := graph.fields[f];
      var parent := graph.records[x.parent];
      SlotsOfField(graph, f, x);
      FillExactly(a, 1, Foreign(x.name), n, base, open, pending);
      FillExactly(a, 2, Imm(x.index), n, base, open, pending);
      FillQual(a, 3, x.ty, n, base, open, pending);
      FillOption(a, 4, BitWidth(x), n, base, open, pending);
      FillExactly(a, 5, BoolValue(x.unnamed), n, base, open, pending);
      FillFieldLayout(a, f, x, parent, base, open, pending);
      FillOption(a, 8, VlaSize(x), n, base, open, pending);
      FillExactly(a, 9, Foreign(x.range), n, base, open, pending);
      FillExactly(a, 10, Foreign(x.comments), n, base, open, pending);
      BuildingSkips(graph, base, S(), open, pending, a, n, 11);
    }

    /** The offset is 0 unless the record has a layout. */
    method FillFieldLayout(a: nat, f: nat, x: Field, parent: Record, ghost base: State, ghost open: set<nat>,
                           ghost pending: set<nat>)
      requires Ready() && f in graph.fields && Building(graph, base, S(), open, pending, a, FieldN(f), 6)
      requires x == graph.fields[f] && x.parent in graph.records && parent == graph.records[x.parent]
      modifies this`heap
      ensures Ready() && Building(graph, base, S(), open, pending, a, FieldN(f), 8)
      ensures Todo(graph, S()) == Todo(graph, old(S()))
    {
      hide Ready, S, Todo, Building, Slots, HasLayout, BoolValue;
      ghost var n := FieldN(f);
      SlotsOfField(graph, f, x);
      if HasLayout(parent) {
        FillExactly(a, 6, BoolValue(true), n, base, open, pending);
        FillExactly(a, 7, Int64(x.offset), n, base, open, pending);
      } else {
        FillExactly(a, 6, BoolValue(false), n, base, open, pending);
        FillExactly(a, 7, Int64(0), n, base, open, pending);
      }
    }

    /** Allocates the block, enters it in the cache and gives it the next uid. */
    method StartRecord(r: nat, ghost open: set<nat>, ghost pending: set<nat>) returns (a: nat)
      requires Ready() && Inv(graph, S(), open, pending) && PendingReady(graph, S(), pending)
      requires r in graph.records && r !in S().misc
      modifies this`heap, this`uid, this`origin, cacheMisc, cacheMisc.mlvalues
      ensures Ready() && fresh(Repr() - old(Repr())) && Building(graph, old(S()), S(), open, pending, a, RecordN(r), 1)
    {
      hide Ready, S, NewUnder, Edge, Inv, PendingReady, Building, Remember, Declared, Slots;
      ghost var base, n := S(), RecordN(r);
      SlotsOfRecordHead(graph, r, graph.records[r]);
      DeclStarts(graph, base, open, pending, |base.heap|, n);
      a := Alloc(0, 19);
      RememberRecord(a, r);
      DeclaredStep(base, n, a, 19);
      StoreUid(a);
    }

    method TranslateRecordDecl(r: nat, ghost open: set<nat>, ghost pending: set<nat>) returns (ret: Value)
      requires Ready() && Inv(graph, S(), open, pending) && PendingReady(graph, S(), pending) && r in graph.records
      modifies Repr()
      ensures Ready() && fresh(Repr() - old(Repr()))
      ensures Inv(graph, S(), open, pending) && Extends(old(S()), S()) && Refers(S(), ret, RecordN(r))
      ensures NewUnder(graph, old(S()), S(), RecordN(r))
      ensures Answers(old(S()), S(), RecordN(r), ret)
      ensures TakesUid(old(S()), S(), RecordN(r), ret)
      decreases Todo(graph, S()), 0
    {
      hide HasUid, Answers, Ready, S, NewUnder, Edge, Todo, Inv, Extends, PendingReady, Refers, Building, Remember;
      hide Declared;
      hide Slots;
      ghost var base, n := S(), RecordN(r);
      var hit;
      hit, ret := LookupMisc(r);
      if hit {
        CachedRefers(graph, base, open, pending, n);
        ExtendsReflexive(base);
        NothingNew(graph, base, base, n);
        return;
      }
      var a := StartRecord(r, open, pending);
      BuildingDrops(graph, base, S(), open, pending, a, n, 1);
      FillRecordDecl(a, r, base, open, pending);
      BuildingEnds(graph, base, S(), open, pending, a, n);
      ret := Ptr(a);
      BuiltIsCached(graph, base, S(), open, pending, n, ret);
    }

    method FillRecordDecl(a: nat, r: nat, ghost base: State, ghost open: set<nat>, ghost pending: set<nat>)
      requires Ready() && r in graph.records && Building(graph, base, S(), open, pending, a, RecordN(r), 1)
      modifies Repr()
      ensures Ready() && fresh(Repr() - old(Repr()))
      ensures Building(graph, base, S(), open, pending, a, RecordN(r), |Slots(graph, RecordN(r))|)
      decreases Todo(graph, S()), 5
    {
      hide Ready, S, Todo, Building, Slots;
      FillRecordHead(a, r, base, open, pending);
      FillRecordRest(a, r, base, open, pending);
    }

    /** The fields of the block that need no translation. */
    method FillRecordHead(a: nat, r: nat, ghost base: State, ghost open: set<nat>, ghost pending: set<nat>)
      requires Ready() && r in graph.records && Building(graph, base, S(), open, pending, a, RecordN(r), 1)
      modifies this`heap
      ensures Ready() && Todo(graph, S()) == Todo(graph, old(S()))
      ensures Building(graph, base, S(), open, pending, a, RecordN(r), 11)
    {
      hide Ready, S, NewUnder, Edge, Todo, Inv, Extends, PendingReady, Refers, Building, Slots, HasLayout, BoolValue;
      hide RecordKindTag;
      ghost var n := RecordN(r);
      var x := graph.records[r];
      SlotsOfRecordHead(graph, r, x);
      FillExactly(a, 1, Foreign(x.name), n, base, open, pending);
      FillExactly(a, 2, Imm(RecordKindTag(x.kind)), n, base, open, pending);
      FillExactly(a, 3, BoolValue(x.flexible), n, base, open, pending);
      FillExactly(a, 4, BoolValue(x.hasVolatile), n, base, open, pending);
      FillExactly(a, 5, BoolValue(x.anonymous), n, base, open, pending);
      FillExactly(a, 6, BoolValue(x.complete), n, base, open, pending);
      FillExactly(a, 7, BoolValue(!x.invalid), n, base, open, pending);
      if HasLayout(x) {
        FillExactly(a, 8, Int64(x.size), n, base, open, pending);
        FillExactly(a, 9, Int64(x.dataSize), n, base, open, pending);
        FillExactly(a, 10, Int64(x.alignment), n, base, open, pending);
      } else {
        FillExactly(a, 8, Int64(0), n, base, open, pending);
        FillExactly(a, 9, Int64(0), n, base, open, pending);
        FillExactly(a, 10, Int64(0), n, base, open, pending);
      }
    }

    /** The fields of the block from the list of record fields on. */
    method FillRecordRest(a: nat, r: nat, ghost base: State, ghost open: set<nat>, ghost pending: set<nat>)
      requires Ready() && r in graph.records && Building(graph, base, S(), open, pending, a, RecordN(r), 11)
      modifies Repr()
      ensures Ready() && fresh(Repr() - old(Repr()))
      ensures Building(graph, base, S(), open, pending, a, RecordN(r), |Slots(graph, RecordN(r))|)
      decreases Todo(graph, S()), 4
    {
      hide Ready, S, NewUnder, Edge, Todo, Inv, Extends, PendingReady, Refers, Building, Slots, FieldNodes, TypedefNode;
      ghost var n := RecordN(r);
      var x := graph.records[r];
      SlotsOfRecordRest(graph, r, x);
      FillFields(a, 11, x.fields, n, base, open, pending);
      FillTypedefOption(a, 12, x.typedefForAnon, n, base, open, pending);
      FillExactly(a, 13, Foreign(x.range), n, base, open, pending);
      FillExactly(a, 14, Foreign(x.comments), n, base, open, pending);
      FillExactly(a, 15, UNIT, n, base, open, pending);
      FillExactly(a, 16, UNIT, n, base, open, pending);
      FillExactly(a, 17, UNIT, n, base, open, pending);
      FillExactly(a, 18, UNIT, n, base, open, pending);
    }

    // ---------- the fields of a record, and its typedef ----------

    method FillFields(a: nat, k: nat, ids: seq<nat>, ghost n: Node, ghost base: State, ghost open: set<nat>,
                      ghost pending: set<nat>)
      requires Ready() && Building(graph, base, S(), open, pending, a, n, k) && k < |Slots(graph, n)|
      requires (IsDecl(n) ==> k > 0)
      requires Slots(graph, n)[k] == Children(FieldNodes(ids))
      modifies Repr()
      ensures Ready() && fresh(Repr() - old(Repr()))
      ensures Building(graph, base, S(), open, pending, a, n, k + 1) && Todo(graph, S()) <= Todo(graph, old(S()))
      decreases Todo(graph, S()), 3
    {
      hide Building, Ready, S, NewUnder, Edge, Slots, Todo, SlotHolds, Inv, Extends, PendingReady, FieldNodes;
      ghost var s := S();
      BuildingIsInv(graph, base, s, open, pending, a, n, k);
      FieldsAreInGraph(graph, s, open + {a}, pending, n, k, ids);
      var v := TranslateFieldList(ids, n, open + {a}, pending);
      BuildingKept(graph, base, s, S(), open, pending, a, n, k);
      Fill(a, k, v, n, base, open, pending);
    }

    /** Allocates the dummy cell. */
    method StartList() returns (head: nat)
      requires Ready()
      modifies this`heap
      ensures Ready() && head == |old(S()).heap| && S() == old(S()).(heap := old(S()).heap + [FreshBlock(0, 2)])
    {
      hide Ready, S, NewUnder, Edge, FreshBlock;
      FreshCells(UNIT);
      ghost var h := S().heap;
      head := Alloc(0, 2);
      StoreField(head, 1, UNIT);
      assert S().heap == h + [FreshBlock(0, 2)];
    }

    /** Builds the list front to back behind a dummy cell. */
    method TranslateFieldList(ids: seq<nat>, ghost n: Node, ghost open: set<nat>,
                              ghost pending: set<nat>) returns (v: Value)
      requires Ready() && Inv(graph, S(), open, pending) && PendingReady(graph, S(), pending)
      requires forall i :: 0 <= i < |ids| ==> ids[i] in graph.fields && Edge(graph, n, FieldN(ids[i]))
      modifies Repr()
      ensures Ready() && fresh(Repr() - old(Repr()))
      ensures Inv(graph, S(), open, pending) && Extends(old(S()), S()) && SlotHolds(S(), Children(FieldNodes(ids)), v)
      ensures NewUnder(graph, old(S()), S(), n)
      decreases Todo(graph, S()), 2
    {
      hide Ready, S, NewUnder, Edge, Todo, Inv, Extends, PendingReady, Refers, Chain, FieldNodes, ListHolds;
      ghost var base := S();
      ListStarts(graph, base, open, pending, |base.heap|);
      var head := StartList();
      PendingStays(graph, base, S(), pending);
      TodoShrinks(graph, base, S());
      NothingNew(graph, base, S(), n);
      var last := head;
      ghost var cells := [head];
      for i := 0 to |ids|
        invariant Ready() && fresh(Repr() - old(Repr()))
        invariant Inv(graph, S(), open, pending) && PendingReady(graph, S(), pending) && Extends(base, S())
        invariant NewUnder(graph, base, S(), n)
        invariant Todo(graph, S()) <= Todo(graph, base)
        invariant Chain(base, S(), cells, ids[..i]) && |cells| == i + 1 && cells[0] == head && cells[i] == last
      {
        var next := AddField(last, ids[i], ids[..i], cells, n, base, open, pending);
        assert ids[..i] + [ids[i]] == ids[..i + 1];
        cells := cells + [next];
        last := next;
        TodoShrinks(graph, base, S());
      }
      assert ids[..|ids|] == ids;
      ghost var s := S();
      ListEnds(graph, base, s, s.(aux := s.aux + set i | 1 <= i < |cells| :: cells[i]), open, pending, cells, ids);
      v := GetField(head, 1);
      KeepAux(set i | 1 <= i < |cells| :: cells[i]);
      SameNews(graph, base, base, s, S(), n);
    }

    /** Allocates a cell, translates a field into it and links it behind the last cell. */
    method AddField(last: nat, id: nat, ghost ids: seq<nat>, ghost cells: seq<nat>, ghost n: Node, ghost base: State,
                    ghost open: set<nat>, ghost pending: set<nat>) returns (next: nat)
      requires Ready() && Inv(graph, S(), open, pending) && PendingReady(graph, S(), pending) && Extends(base, S())
      requires Chain(base, S(), cells, ids) && |cells| == |ids| + 1 && cells[|ids|] == last && id in graph.fields
      requires Edge(graph, n, FieldN(id)) && NewUnder(graph, base, S(), n)
      modifies Repr()
      ensures Ready() && fresh(Repr() - old(Repr()))
      ensures Inv(graph, S(), open, pending) && PendingReady(graph, S(), pending) && Extends(base, S())
      ensures Chain(base, S(), cells + [next], ids + [id]) && NewUnder(graph, base, S(), n)
      decreases Todo(graph, S()), 1
    {
      hide Ready, S, NewUnder, Edge, Todo, Inv, Extends, PendingReady, Refers, Chain;
      ghost var s := S();
      CellStarts(graph, base, s, s.(heap := s.heap + [FreshBlock(0, 2)]), open, pending, cells, ids);
      next := Alloc(0, 2);
      ghost var s1 := S();
      var x := TranslateFieldDecl(id, open, pending);
      ghost var s2 := S();
      FieldAdds(graph, base, s, s1, s2, n, FieldN(id));
      CellsStay(base, s, s1, s2, cells, ids);
      LinkCell(next, last, x);
      SameNews(graph, base, base, s2, S(), n);
      CellEnds(graph, base, s, s2, S(), pending);
      ListGrows(graph, base, s, s2, S(), open, pending, cells, ids, next, x, id);
    }

    method LinkCell(next: nat, last: nat, x: Value)
      requires Ready() && last < next < |S().heap| && S().heap[next] == FreshBlock(0, 2) && |S().heap[last].fields| == 2
      modifies this`heap
      ensures Ready()
      ensures S() == old(S()).(heap := old(S()).heap[next := Block(0, [x, UNIT])]
                                                    [last := SetField(old(S()).heap[last], 1, Ptr(next))])
    {
      hide Ready, S, NewUnder, Edge, FreshBlock;
      FreshCells(x);
      StoreField(next, 0, x);
      StoreField(next, 1, UNIT);
      StoreField(last, 1, Ptr(next));
    }

    method FillTypedefOption(a: nat, k: nat, d: Option<nat>, ghost n: Node, ghost base: State, ghost open: set<nat>,
                             ghost pending: set<nat>)
      requires Ready() && Building(graph, base, S(), open, pending, a, n, k) && k < |Slots(graph, n)|
      requires (IsDecl(n) ==> k > 0)
      requires Slots(graph, n)[k] == OptChild(TypedefNode(d))
      modifies Repr()
      ensures Ready() && fresh(Repr() - old(Repr()))
      ensures Building(graph, base, S(), open, pending, a, n, k + 1) && Todo(graph, S()) <= Todo(graph, old(S()))
      decreases Todo(graph, S()), 3
    {
      hide Building, Ready, S, NewUnder, Edge, Slots, Todo, SlotHolds, Inv, Extends, PendingReady, TypedefNode;
      ghost var s := S();
      BuildingIsInv(graph, base, s, open, pending, a, n, k);
      TypedefIsInGraph(graph, s, open + {a}, pending, n, k, d);
      var v := TranslateTypedefOption(d, n, open + {a}, pending);
      BuildingKept(graph, base, s, S(), open, pending, a, n, k);
      Fill(a, k, v, n, base, open, pending);
    }

    method TranslateTypedefOption(d: Option<nat>, ghost n: Node, ghost open: set<nat>,
                                  ghost pending: set<nat>) returns (v: Value)
      requires Ready() && Inv(graph, S(), open, pending) && PendingReady(graph, S(), pending)
      requires d.Some? ==> d.value in graph.typedefs && Edge(graph, n, TypedefN(d.value))
      modifies Repr()
      ensures Ready() && fresh(Repr() - old(Repr()))
      ensures Inv(graph, S(), open, pending) && Extends(old(S()), S()) && SlotHolds(S(), OptChild(TypedefNode(d)), v)
      ensures NewUnder(graph, old(S()), S(), n)
      decreases Todo(graph, S()), 2
    {
      hide Ready, S, NewUnder, Edge, Todo, Inv, Extends, PendingReady, Refers, SlotHolds;
      ghost var base := S();
      match d
      case None =>
        v := UNIT;
        ExtendsReflexive(base);
        EmptyOption(base);
        NothingNew(graph, base, base, n);
      case Some(t) =>
        OptionStarts(graph, base, base.(heap := base.heap + [FreshBlock(0, 1)]), open, pending, 1);
        var a := Alloc(0, 1);
        ghost var s1 := S();
        var x := TranslateTypedefNameDecl(t, open, pending);
        ghost var s2 := S();
        BlockStays(s1, s2, a);
        NewUnderChild(graph, s1, s2, n, TypedefN(t));
        ghost var s3 := s2.(heap := s2.heap[a := SetField(s2.heap[a], 0, x)], aux := s2.aux + {a});
        OptionIsMade(graph, base, s2, s3, open, pending, a, x, TypedefN(t));
        StoreField(a, 0, x);
        KeepAux({a});
        SameNews(graph, base, s1, s2, S(), n);
        v := Ptr(a);
    }
  }

  // ---------- the smallest cycle ----------

  /** A pointer type whose target is that very pointer type. */
  function SelfPointer(): Graph {
    Graph(map[0 := QualType(0, false, false, false)], map[0 := Wrapper(Pointer, 0)], map[], map[], map[])
  }

  lemma SelfPointerIsCyclic()
    ensures WellFormed(SelfPointer()) && OnCycle(SelfPointer(), 0)
  {
    var g := SelfPointer();
    forall n, i | InGraph(g, n) && 0 <= i < |Slots(g, n)| ensures SlotInGraph(g, Slots(g, n)[i]) {
      assert n == QualN(0) || n == TypeN(0);
    }
    var path := [TypeN(0), QualN(0)];
    assert Mentions(Slots(g, TypeN(0))[0], QualN(0));
    assert Edge(g, path[0], path[1]);
    assert IsPath(g, path);
  }

  /** Its qualified type is built twice, and the result mirrors the source all the same. */
  method TranslateSelfPointer() returns (t: Translator, ret: Value)
    ensures fresh(t) && t.Ready() && Mirrors(t.S().heap, ret, SelfPointer(), QualN(0))
    ensures |BlocksFor(t.S(), QualN(0))| == 2
  {
    SelfPointerIsCyclic();
    EmptyStateIsFine(SelfPointer());
    t := new Translator(SelfPointer());
    ret := t.Translate(0);
  }
}
