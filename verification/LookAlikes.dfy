/** Nothing is lost in translation: nodes that one value mirrors look alike in the source, to any depth. */
module LookAlikes {
  import opened Caches
  import opened Options
  import opened ClangGraph
  import opened NodeSteps
  import opened Mirror

  // ---------- the source alone ----------

  /** The number a record's layout contributes. */
  function LaidOut(r: Record, x: int): int {
    if r.complete && !r.invalid && !r.dependent then x else 0
  }

  ghost predicate RecordsAlike(x: Record, y: Record) {
    && x.name == y.name && x.kind == y.kind && x.flexible == y.flexible && x.hasVolatile == y.hasVolatile
    && x.anonymous == y.anonymous && x.complete == y.complete && x.invalid == y.invalid
    && LaidOut(x, x.size) == LaidOut(y, y.size) && LaidOut(x, x.dataSize) == LaidOut(y, y.dataSize)
    && LaidOut(x, x.alignment) == LaidOut(y, y.alignment)
    && |x.fields| == |y.fields| && x.typedefForAnon.Some? == y.typedefForAnon.Some?
    && x.range == y.range && x.comments == y.comments
  }

  ghost predicate FieldsAlike(x: Field, p: Record, y: Field, q: Record) {
    && x.name == y.name && x.index == y.index && x.bitWidth == y.bitWidth && x.unnamed == y.unnamed
    && LaidOut(p, 1) == LaidOut(q, 1) && LaidOut(p, x.offset) == LaidOut(q, y.offset)
    && x.vlaSize == y.vlaSize && x.range == y.range && x.comments == y.comments
  }

  /** Looking k levels deep, n and m are the same kind of node with the same properties and children that look alike. */
  ghost predicate LookAlike(g: Graph, n: Node, m: Node, k: nat)
    decreases k
  {
    k == 0 ||
    match (n, m)
    case (QualN(a), QualN(b)) =>
      a in g.quals && b in g.quals &&
      var x, y := g.quals[a], g.quals[b];
      x.isConst == y.isConst && x.isRestrict == y.isRestrict && x.isVolatile == y.isVolatile &&
      LookAlike(g, TypeN(x.ty), TypeN(y.ty), k - 1)
    case (TypeN(a), TypeN(b)) =>
      a in g.types && b in g.types &&
      (match (g.types[a], g.types[b])
       case (Wrapper(c, p), Wrapper(d, q)) => c == d && LookAlike(g, QualN(p), QualN(q), k - 1)
       case (Decayed(p, q), Decayed(r, s)) =>
         LookAlike(g, QualN(p), QualN(r), k - 1) && LookAlike(g, QualN(q), QualN(s), k - 1)
       case (UnaryTransform(p, q), UnaryTransform(r, s)) =>
         LookAlike(g, QualN(p), QualN(r), k - 1) && LookAlike(g, QualN(q), QualN(s), k - 1)
       case (Builtin(c), Builtin(d)) => c == d
       case (RecordType(p), RecordType(q)) => LookAlike(g, RecordN(p), RecordN(q), k - 1)
       case (TypedefType(p), TypedefType(q)) => LookAlike(g, TypedefN(p), TypedefN(q), k - 1)
       case (Vector(p, c, d), Vector(q, c', d')) => c == c' && d == d' && LookAlike(g, QualN(p), QualN(q), k - 1)
       case (Unknown(c, d), Unknown(c', d')) => c == c' && d == d'
       case _ => false)
    case (RecordN(a), RecordN(b)) =>
      a in g.records && b in g.records &&
      var x, y := g.records[a], g.records[b];
      RecordsAlike(x, y) &&
      (forall i :: 0 <= i < |x.fields| ==> LookAlike(g, FieldN(x.fields[i]), FieldN(y.fields[i]), k - 1)) &&
      (x.typedefForAnon.Some? ==>
         LookAlike(g, TypedefN(x.typedefForAnon.value), TypedefN(y.typedefForAnon.value), k - 1))
    case (FieldN(a), FieldN(b)) =>
      a in g.fields && b in g.fields &&
      var x, y := g.fields[a], g.fields[b];
      x.parent in g.records && y.parent in g.records && FieldsAlike(x, g.records[x.parent], y, g.records[y.parent]) &&
      LookAlike(g, QualN(x.ty), QualN(y.ty), k - 1)
    case (TypedefN(a), TypedefN(b)) =>
      a in g.typedefs && b in g.typedefs &&
      var x, y := g.typedefs[a], g.typedefs[b];
      x.name == y.name && x.range == y.range && x.comments == y.comments &&
      LookAlike(g, QualN(x.underlying), QualN(y.underlying), k - 1)
    case _ => false
  }

  // ---------- what a value that mirrors a slot must be ----------

  ghost predicate MirrorsSlot(h: seq<Block>, v: Value, g: Graph, slot: Slot) {
    forall k: nat :: Agrees(h, v, g, slot, k)
  }

  /** One value mirrors both. */
  ghost predicate Shared(h: seq<Block>, g: Graph, n: Node, m: Node) {
    exists v :: Mirrors(h, v, g, n) && Mirrors(h, v, g, m)
  }

  lemma NodeIsMirrored(h: seq<Block>, v: Value, g: Graph, n: Node)
    requires Mirrors(h, v, g, n)
    ensures InGraph(g, n) && IsBlock(h, v, Tag(g, n), |Slots(g, n)|)
    ensures forall i :: 0 <= i < |Slots(g, n)| ==> MirrorsSlot(h, h[v.addr].fields[i], g, Slots(g, n)[i])
  {
    assert Agrees(h, v, g, Child(n), 1);
    forall i, k: nat | 0 <= i < |Slots(g, n)| ensures Agrees(h, h[v.addr].fields[i], g, Slots(g, n)[i], k) {
      assert Agrees(h, v, g, Child(n), k + 1);
    }
  }

  lemma SameExactly(h: seq<Block>, v: Value, g: Graph, x: Value, y: Value)
    requires MirrorsSlot(h, v, g, Exactly(x)) && MirrorsSlot(h, v, g, Exactly(y))
    ensures x == y
  {
    assert Agrees(h, v, g, Exactly(x), 1) && Agrees(h, v, g, Exactly(y), 1);
  }

  lemma SameTuple(h: seq<Block>, v: Value, g: Graph, xs: seq<Value>, ys: seq<Value>)
    requires MirrorsSlot(h, v, g, Tuple(xs)) && MirrorsSlot(h, v, g, Tuple(ys))
    ensures xs == ys
  {
    assert Agrees(h, v, g, Tuple(xs), 1) && Agrees(h, v, g, Tuple(ys), 1);
  }

  lemma SameOption(h: seq<Block>, v: Value, g: Graph, x: Option<Value>, y: Option<Value>)
    requires MirrorsSlot(h, v, g, OptValue(x)) && MirrorsSlot(h, v, g, OptValue(y))
    ensures x == y
  {
    assert Agrees(h, v, g, OptValue(x), 1) && Agrees(h, v, g, OptValue(y), 1);
    if x.Some? && y.Some? {
      assert [x.value] == [y.value];
      assert [x.value][0] == [y.value][0];
    }
  }

  lemma SharedChild(h: seq<Block>, v: Value, g: Graph, n: Node, m: Node)
    requires MirrorsSlot(h, v, g, Child(n)) && MirrorsSlot(h, v, g, Child(m))
    ensures Shared(h, g, n, m)
  {
    assert Mirrors(h, v, g, n) && Mirrors(h, v, g, m);
  }

  lemma SharedOption(h: seq<Block>, v: Value, g: Graph, n: Option<Node>, m: Option<Node>)
    requires MirrorsSlot(h, v, g, OptChild(n)) && MirrorsSlot(h, v, g, OptChild(m))
    ensures n.Some? == m.Some? && (n.Some? ==> Shared(h, g, n.value, m.value))
  {
    assert Agrees(h, v, g, OptChild(n), 1) && Agrees(h, v, g, OptChild(m), 1);
    if n.Some? {
      forall k: nat
        ensures Agrees(h, h[v.addr].fields[0], g, Child(n.value), k)
        ensures Agrees(h, h[v.addr].fields[0], g, Child(m.value), k)
      {
        assert Agrees(h, v, g, OptChild(n), k + 1) && Agrees(h, v, g, OptChild(m), k + 1);
      }
      SharedChild(h, h[v.addr].fields[0], g, n.value, m.value);
    }
  }

  lemma ListIsMirrored(h: seq<Block>, v: Value, g: Graph, ns: seq<Node>)
    requires MirrorsSlot(h, v, g, Children(ns))
    ensures ns == [] <==> v == UNIT
    ensures ns != [] ==>
              IsBlock(h, v, 0, 2) && MirrorsSlot(h, h[v.addr].fields[0], g, Child(ns[0])) &&
              MirrorsSlot(h, h[v.addr].fields[1], g, Children(ns[1..]))
  {
    assert Agrees(h, v, g, Children(ns), 1);
    if ns != [] {
      forall k: nat
        ensures Agrees(h, h[v.addr].fields[0], g, Child(ns[0]), k)
        ensures Agrees(h, h[v.addr].fields[1], g, Children(ns[1..]), k)
      {
        assert Agrees(h, v, g, Children(ns), k + 1);
      }
    }
  }

  lemma {:induction false} SharedList(h: seq<Block>, v: Value, g: Graph, ns: seq<Node>, ms: seq<Node>)
    requires MirrorsSlot(h, v, g, Children(ns)) && MirrorsSlot(h, v, g, Children(ms))
    ensures |ns| == |ms| && forall i :: 0 <= i < |ns| ==> Shared(h, g, ns[i], ms[i])
    decreases |ns|
  {
    hide MirrorsSlot, Shared;
    ListIsMirrored(h, v, g, ns);
    ListIsMirrored(h, v, g, ms);
    if ns != [] {
      SharedChild(h, h[v.addr].fields[0], g, ns[0], ms[0]);
      SharedList(h, h[v.addr].fields[1], g, ns[1..], ms[1..]);
      forall i | 0 <= i < |ns| ensures Shared(h, g, ns[i], ms[i]) {
        assert i > 0 ==> ns[i] == ns[1..][i - 1] && ms[i] == ms[1..][i - 1];
      }
    }
  }

  /** Two slots at the same place in the same block. */
  ghost predicate SlotsMeet(h: seq<Block>, g: Graph, a: Slot, b: Slot) {
    exists v :: MirrorsSlot(h, v, g, a) && MirrorsSlot(h, v, g, b)
  }

  lemma BlocksMeet(h: seq<Block>, g: Graph, n: Node, m: Node)
    requires Shared(h, g, n, m)
    ensures InGraph(g, n) && InGraph(g, m) && Tag(g, n) == Tag(g, m) && |Slots(g, n)| == |Slots(g, m)|
    ensures forall i :: 0 <= i < |Slots(g, n)| ==> SlotsMeet(h, g, Slots(g, n)[i], Slots(g, m)[i])
  {
    hide Slots, Tag, MirrorsSlot, Mirrors;
    var v :| Mirrors(h, v, g, n) && Mirrors(h, v, g, m);
    NodeIsMirrored(h, v, g, n);
    NodeIsMirrored(h, v, g, m);
  }

  lemma MeetExactly(h: seq<Block>, g: Graph, x: Value, y: Value)
    requires SlotsMeet(h, g, Exactly(x), Exactly(y))
    ensures x == y
  {
    var v :| MirrorsSlot(h, v, g, Exactly(x)) && MirrorsSlot(h, v, g, Exactly(y));
    SameExactly(h, v, g, x, y);
  }

  lemma MeetChild(h: seq<Block>, g: Graph, n: Node, m: Node)
    requires SlotsMeet(h, g, Child(n), Child(m))
    ensures Shared(h, g, n, m)
  {
    var v :| MirrorsSlot(h, v, g, Child(n)) && MirrorsSlot(h, v, g, Child(m));
    SharedChild(h, v, g, n, m);
  }

  lemma MeetTuple(h: seq<Block>, g: Graph, xs: seq<Value>, ys: seq<Value>)
    requires SlotsMeet(h, g, Tuple(xs), Tuple(ys))
    ensures xs == ys
  {
    var v :| MirrorsSlot(h, v, g, Tuple(xs)) && MirrorsSlot(h, v, g, Tuple(ys));
    SameTuple(h, v, g, xs, ys);
  }

  lemma MeetOption(h: seq<Block>, g: Graph, x: Option<Value>, y: Option<Value>)
    requires SlotsMeet(h, g, OptValue(x), OptValue(y))
    ensures x == y
  {
    var v :| MirrorsSlot(h, v, g, OptValue(x)) && MirrorsSlot(h, v, g, OptValue(y));
    SameOption(h, v, g, x, y);
  }

  lemma MeetOptChild(h: seq<Block>, g: Graph, n: Option<Node>, m: Option<Node>)
    requires SlotsMeet(h, g, OptChild(n), OptChild(m))
    ensures n.Some? == m.Some? && (n.Some? ==> Shared(h, g, n.value, m.value))
  {
    var v :| MirrorsSlot(h, v, g, OptChild(n)) && MirrorsSlot(h, v, g, OptChild(m));
    SharedOption(h, v, g, n, m);
  }

  lemma MeetList(h: seq<Block>, g: Graph, ns: seq<Node>, ms: seq<Node>)
    requires SlotsMeet(h, g, Children(ns), Children(ms))
    ensures |ns| == |ms| && forall i :: 0 <= i < |ns| ==> Shared(h, g, ns[i], ms[i])
  {
    var v :| MirrorsSlot(h, v, g, Children(ns)) && MirrorsSlot(h, v, g, Children(ms));
    SharedList(h, v, g, ns, ms);
  }

  // ---------- node by node ----------

  /** A tag tells the kind of a type. */
  lemma TagTellsKind(t: Type, u: Type)
    requires TypeTag(t) == TypeTag(u)
    ensures t.Wrapper? <==> u.Wrapper?
    ensures t.Decayed? <==> u.Decayed?
    ensures t.UnaryTransform? <==> u.UnaryTransform?
    ensures t.Builtin? <==> u.Builtin?
    ensures t.RecordType? <==> u.RecordType?
    ensures t.TypedefType? <==> u.TypedefType?
    ensures t.Vector? <==> u.Vector?
    ensures t.Unknown? <==> u.Unknown?
    ensures t.Wrapper? ==> t.kind == u.kind
  {
  }

  lemma {:induction false} QualsLookAlike(h: seq<Block>, g: Graph, a: nat, b: nat, k: nat)
    requires WellFormed(g) && Shared(h, g, QualN(a), QualN(b))
    ensures LookAlike(g, QualN(a), QualN(b), k)
    decreases k
  {
    if k > 0 {
      hide WellFormed, Shared, SlotsMeet;
      BlocksMeet(h, g, QualN(a), QualN(b));
      var x, y := g.quals[a], g.quals[b];
      var xs := [BoolValue(x.isConst), BoolValue(x.isRestrict), BoolValue(x.isVolatile)];
      var ys := [BoolValue(y.isConst), BoolValue(y.isRestrict), BoolValue(y.isVolatile)];
      assert SlotsMeet(h, g, QualSlots(x)[0], QualSlots(y)[0]) && SlotsMeet(h, g, QualSlots(x)[1], QualSlots(y)[1]);
      MeetTuple(h, g, xs, ys);
      assert xs[0] == ys[0] && xs[1] == ys[1] && xs[2] == ys[2];
      MeetChild(h, g, TypeN(x.ty), TypeN(y.ty));
      TypesLookAlike(h, g, x.ty, y.ty, k - 1);
    }
  }

  /** The properties of two types are the same, and one value mirrors their children. */
  ghost predicate TypesMeet(h: seq<Block>, g: Graph, t: Type, u: Type) {
    match (t, u)
    case (Wrapper(c, p), Wrapper(d, q)) => c == d && Shared(h, g, QualN(p), QualN(q))
    case (Decayed(p, q), Decayed(r, s)) => Shared(h, g, QualN(p), QualN(r)) && Shared(h, g, QualN(q), QualN(s))
    case (UnaryTransform(p, q), UnaryTransform(r, s)) =>
      Shared(h, g, QualN(p), QualN(r)) && Shared(h, g, QualN(q), QualN(s))
    case (Builtin(c), Builtin(d)) => c == d
    case (RecordType(p), RecordType(q)) => Shared(h, g, RecordN(p), RecordN(q))
    case (TypedefType(p), TypedefType(q)) => Shared(h, g, TypedefN(p), TypedefN(q))
    case (Vector(p, c, d), Vector(q, c', d')) => c == c' && d == d' && Shared(h, g, QualN(p), QualN(q))
    case (Unknown(c, d), Unknown(c', d')) => c == c' && d == d'
    case _ => false
  }

  ghost predicate AllSlotsMeet(h: seq<Block>, g: Graph, a: seq<Slot>, b: seq<Slot>) {
    |a| == |b| && forall i :: 0 <= i < |a| ==> SlotsMeet(h, g, a[i], b[i])
  }

  lemma OneSlotMeets(h: seq<Block>, g: Graph, a: seq<Slot>, b: seq<Slot>, i: nat)
    requires AllSlotsMeet(h, g, a, b) && i < |a|
    ensures i < |b| && SlotsMeet(h, g, a[i], b[i])
  {
  }

  /** The first two slots of two blocks are children. */
  lemma TwoChildrenMeet(h: seq<Block>, g: Graph, a: seq<Slot>, b: seq<Slot>, p: nat, q: nat, r: nat, s: nat)
    requires AllSlotsMeet(h, g, a, b) && |a| >= 2
    requires a[0] == Child(QualN(p)) && a[1] == Child(QualN(q)) && b[0] == Child(QualN(r)) && b[1] == Child(QualN(s))
    ensures Shared(h, g, QualN(p), QualN(r)) && Shared(h, g, QualN(q), QualN(s))
  {
    hide Shared, SlotsMeet;
    MeetChild(h, g, QualN(p), QualN(r));
    MeetChild(h, g, QualN(q), QualN(s));
  }

  lemma TypesThatMeet(h: seq<Block>, g: Graph, t: Type, u: Type)
    requires TypeTag(t) == TypeTag(u) && AllSlotsMeet(h, g, TypeSlots(t), TypeSlots(u))
    ensures TypesMeet(h, g, t, u)
  {
    TagTellsKind(t, u);
    hide TypeTag, WrapperTag, AllSlotsMeet, SlotsMeet, Shared;
    var a, b := TypeSlots(t), TypeSlots(u);
    OneSlotMeets(h, g, a, b, 0);
    match (t, u)
    case (Wrapper(_, p), Wrapper(_, q)) =>
      MeetChild(h, g, QualN(p), QualN(q));
    case (Decayed(p, q), Decayed(r, s)) =>
      TwoChildrenMeet(h, g, a, b, p, q, r, s);
    case (UnaryTransform(p, q), UnaryTransform(r, s)) =>
      TwoChildrenMeet(h, g, a, b, p, q, r, s);
    case (Builtin(c), Builtin(d)) =>
      MeetExactly(h, g, Imm(c), Imm(d));
    case (RecordType(p), RecordType(q)) =>
      MeetChild(h, g, RecordN(p), RecordN(q));
    case (TypedefType(p), TypedefType(q)) =>
      MeetChild(h, g, TypedefN(p), TypedefN(q));
    case (Vector(p, c, d), Vector(q, c', d')) =>
      OneSlotMeets(h, g, a, b, 1);
      OneSlotMeets(h, g, a, b, 2);
      MeetChild(h, g, QualN(p), QualN(q));
      MeetExactly(h, g, Imm(c), Imm(c'));
      MeetExactly(h, g, Imm(d), Imm(d'));
    case (Unknown(c, d), Unknown(c', d')) =>
      OneSlotMeets(h, g, a, b, 1);
      MeetExactly(h, g, Imm(c), Imm(c'));
      MeetExactly(h, g, Foreign(d), Foreign(d'));
  }

  /** Two types that one value mirrors look alike. */
  lemma {:induction false} TypesLookAlike(h: seq<Block>, g: Graph, a: nat, b: nat, k: nat)
    requires WellFormed(g) && Shared(h, g, TypeN(a), TypeN(b))
    ensures LookAlike(g, TypeN(a), TypeN(b), k)
    decreases k
  {
    if k > 0 {
      hide WellFormed, Shared, SlotsMeet, TypeTag, TypeSlots;
      BlocksMeet(h, g, TypeN(a), TypeN(b));
      var t, u := g.types[a], g.types[b];
      TypesThatMeet(h, g, t, u);
      match (t, u)
      case (Wrapper(_, p), Wrapper(_, q)) =>
        QualsLookAlike(h, g, p, q, k - 1);
      case (Decayed(p, q), Decayed(r, s)) =>
        QualsLookAlike(h, g, p, r, k - 1);
        QualsLookAlike(h, g, q, s, k - 1);
      case (UnaryTransform(p, q), UnaryTransform(r, s)) =>
        QualsLookAlike(h, g, p, r, k - 1);
        QualsLookAlike(h, g, q, s, k - 1);
      case (RecordType(p), RecordType(q)) =>
        RecordsLookAlike(h, g, p, q, k - 1);
      case (TypedefType(p), TypedefType(q)) =>
        TypedefsLookAlike(h, g, p, q, k - 1);
      case (Vector(p, _, _), Vector(q, _, _)) =>
        QualsLookAlike(h, g, p, q, k - 1);
      case _ =>
    }
  }

  lemma {:induction false} TypedefsLookAlike(h: seq<Block>, g: Graph, a: nat, b: nat, k: nat)
    requires WellFormed(g) && Shared(h, g, TypedefN(a), TypedefN(b))
    ensures LookAlike(g, TypedefN(a), TypedefN(b), k)
    decreases k
  {
    if k > 0 {
      hide WellFormed, Shared, SlotsMeet, Slots;
      BlocksMeet(h, g, TypedefN(a), TypedefN(b));
      var x, y := g.typedefs[a], g.typedefs[b];
      SlotsOfTypedef(g, a, x);
      SlotsOfTypedef(g, b, y);
      MeetExactly(h, g, Foreign(x.name), Foreign(y.name));
      MeetChild(h, g, QualN(x.underlying), QualN(y.underlying));
      MeetExactly(h, g, Foreign(x.range), Foreign(y.range));
      MeetExactly(h, g, Foreign(x.comments), Foreign(y.comments));
      QualsLookAlike(h, g, x.underlying, y.underlying, k - 1);
    }
  }

  lemma {:induction false} FieldsLookAlike(h: seq<Block>, g: Graph, a: nat, b: nat, k: nat)
    requires WellFormed(g) && Shared(h, g, FieldN(a), FieldN(b))
    ensures LookAlike(g, FieldN(a), FieldN(b), k)
    decreases k
  {
    if k > 0 {
      hide WellFormed, Shared, SlotsMeet;
      FieldsMeet(h, g, a, b);
      var x, y := g.fields[a], g.fields[b];
      QualsLookAlike(h, g, x.ty, y.ty, k - 1);
    }
  }

  lemma SameInt64(h: seq<Block>, g: Graph, p: Record, x: int, q: Record, y: int)
    requires SlotsMeet(h, g, LayoutValue(p, x), LayoutValue(q, y))
    ensures LaidOut(p, x) == LaidOut(q, y)
  {
    hide SlotsMeet;
    MeetExactly(h, g, Int64(if HasLayout(p) then x else 0), Int64(if HasLayout(q) then y else 0));
  }

  lemma FieldsMeet(h: seq<Block>, g: Graph, a: nat, b: nat)
    requires WellFormed(g) && Shared(h, g, FieldN(a), FieldN(b))
    ensures a in g.fields && b in g.fields
    ensures var x, y := g.fields[a], g.fields[b];
            x.parent in g.records && y.parent in g.records &&
            FieldsAlike(x, g.records[x.parent], y, g.records[y.parent]) && Shared(h, g, QualN(x.ty), QualN(y.ty))
  {
    BlocksMeet(h, g, FieldN(a), FieldN(b));
    var x, y := g.fields[a], g.fields[b];
    hide WellFormed, Shared, SlotsMeet, Slots, FieldSlots;
    FieldSlotsMeet(h, g, a, b, x, g.records[x.parent], y, g.records[y.parent]);
  }

  lemma FieldSlotsMeet(h: seq<Block>, g: Graph, a: nat, b: nat, x: Field, p: Record, y: Field, q: Record)
    requires a in g.fields && b in g.fields && x == g.fields[a] && y == g.fields[b]
    requires x.parent in g.records && y.parent in g.records && p == g.records[x.parent] && q == g.records[y.parent]
    requires AllSlotsMeet(h, g, Slots(g, FieldN(a)), Slots(g, FieldN(b)))
    ensures FieldsAlike(x, p, y, q) && Shared(h, g, QualN(x.ty), QualN(y.ty))
  {
    hide Shared, SlotsMeet, Slots, LayoutValue;
    SlotsOfField(g, a, x);
    SlotsOfField(g, b, y);
    MeetExactly(h, g, Foreign(x.name), Foreign(y.name));
    MeetExactly(h, g, Imm(x.index), Imm(y.index));
    MeetChild(h, g, QualN(x.ty), QualN(y.ty));
    MeetOption(h, g, BitWidth(x), BitWidth(y));
    MeetExactly(h, g, BoolValue(x.unnamed), BoolValue(y.unnamed));
    MeetExactly(h, g, BoolValue(HasLayout(p)), BoolValue(HasLayout(q)));
    SameInt64(h, g, p, x.offset, q, y.offset);
    MeetOption(h, g, VlaSize(x), VlaSize(y));
    MeetExactly(h, g, Foreign(x.range), Foreign(y.range));
    MeetExactly(h, g, Foreign(x.comments), Foreign(y.comments));
  }

  lemma {:induction false} RecordsLookAlike(h: seq<Block>, g: Graph, a: nat, b: nat, k: nat)
    requires WellFormed(g) && Shared(h, g, RecordN(a), RecordN(b))
    ensures LookAlike(g, RecordN(a), RecordN(b), k)
    decreases k
  {
    if k > 0 {
      hide WellFormed, Shared, SlotsMeet, Slots, RecordsAlike;
      RecordHeadsMeet(h, g, a, b);
      RecordRestsMeet(h, g, a, b);
      var x, y := g.records[a], g.records[b];
      RecordsAreAlike(x, y);
      forall i | 0 <= i < |x.fields| ensures LookAlike(g, FieldN(x.fields[i]), FieldN(y.fields[i]), k - 1) {
        FieldsLookAlike(h, g, x.fields[i], y.fields[i], k - 1);
      }
      if x.typedefForAnon.Some? {
        TypedefsLookAlike(h, g, x.typedefForAnon.value, y.typedefForAnon.value, k - 1);
      }
    }
  }

  ghost predicate HeadsAlike(x: Record, y: Record) {
    && x.name == y.name && x.kind == y.kind && x.flexible == y.flexible && x.hasVolatile == y.hasVolatile
    && x.anonymous == y.anonymous && x.complete == y.complete && x.invalid == y.invalid
    && LaidOut(x, x.size) == LaidOut(y, y.size) && LaidOut(x, x.dataSize) == LaidOut(y, y.dataSize)
    && LaidOut(x, x.alignment) == LaidOut(y, y.alignment)
  }

  lemma RecordsAreAlike(x: Record, y: Record)
    requires HeadsAlike(x, y) && |x.fields| == |y.fields| && x.typedefForAnon.Some? == y.typedefForAnon.Some?
    requires x.range == y.range && x.comments == y.comments
    ensures RecordsAlike(x, y)
  {
  }

  lemma RecordHeadsMeet(h: seq<Block>, g: Graph, a: nat, b: nat)
    requires Shared(h, g, RecordN(a), RecordN(b))
    ensures a in g.records && b in g.records && HeadsAlike(g.records[a], g.records[b])
  {
    BlocksMeet(h, g, RecordN(a), RecordN(b));
    var x, y := g.records[a], g.records[b];
    hide Shared, SlotsMeet, Slots, LayoutValue;
    SlotsOfRecordHead(g, a, x);
    SlotsOfRecordHead(g, b, y);
    MeetExactly(h, g, Foreign(x.name), Foreign(y.name));
    MeetExactly(h, g, Imm(RecordKindTag(x.kind)), Imm(RecordKindTag(y.kind)));
    MeetExactly(h, g, BoolValue(x.flexible), BoolValue(y.flexible));
    MeetExactly(h, g, BoolValue(x.hasVolatile), BoolValue(y.hasVolatile));
    MeetExactly(h, g, BoolValue(x.anonymous), BoolValue(y.anonymous));
    MeetExactly(h, g, BoolValue(x.complete), BoolValue(y.complete));
    MeetExactly(h, g, BoolValue(!x.invalid), BoolValue(!y.invalid));
    SameInt64(h, g, x, x.size, y, y.size);
    SameInt64(h, g, x, x.dataSize, y, y.dataSize);
    SameInt64(h, g, x, x.alignment, y, y.alignment);
  }

  lemma RecordRestsMeet(h: seq<Block>, g: Graph, a: nat, b: nat)
    requires Shared(h, g, RecordN(a), RecordN(b))
    ensures a in g.records && b in g.records
    ensures var x, y := g.records[a], g.records[b];
            |x.fields| == |y.fields| && x.range == y.range && x.comments == y.comments &&
            (forall i :: 0 <= i < |x.fields| ==> Shared(h, g, FieldN(x.fields[i]), FieldN(y.fields[i]))) &&
            x.typedefForAnon.Some? == y.typedefForAnon.Some? &&
            (x.typedefForAnon.Some? ==>
               Shared(h, g, TypedefN(x.typedefForAnon.value), TypedefN(y.typedefForAnon.value)))
  {
    BlocksMeet(h, g, RecordN(a), RecordN(b));
    var x, y := g.records[a], g.records[b];
    hide Shared, SlotsMeet, Slots;
    SlotsOfRecordRest(g, a, x);
    SlotsOfRecordRest(g, b, y);
    MeetList(h, g, FieldNodes(x.fields), FieldNodes(y.fields));
    forall i | 0 <= i < |x.fields| ensures Shared(h, g, FieldN(x.fields[i]), FieldN(y.fields[i])) {
      assert FieldNodes(x.fields)[i] == FieldN(x.fields[i]) && FieldNodes(y.fields)[i] == FieldN(y.fields[i]);
    }
    MeetOptChild(h, g, TypedefNode(x.typedefForAnon), TypedefNode(y.typedefForAnon));
    MeetExactly(h, g, Foreign(x.range), Foreign(y.range));
    MeetExactly(h, g, Foreign(x.comments), Foreign(y.comments));
  }

  /** What one value mirrors cannot be told apart in the source: translating loses nothing. */
  lemma NothingIsLost(h: seq<Block>, v: Value, g: Graph, n: Node, m: Node, k: nat)
    requires WellFormed(g) && Mirrors(h, v, g, n) && Mirrors(h, v, g, m)
    requires (n.QualN? && m.QualN?) || (n.TypeN? && m.TypeN?) || (n.RecordN? && m.RecordN?) ||
             (n.FieldN? && m.FieldN?) || (n.TypedefN? && m.TypedefN?)
    ensures LookAlike(g, n, m, k)
  {
    hide LookAlike, Mirrors, WellFormed;
    assert Shared(h, g, n, m);
    match n
    case QualN(a) => QualsLookAlike(h, g, a, m.id, k);
    case TypeN(a) => TypesLookAlike(h, g, a, m.id, k);
    case RecordN(a) => RecordsLookAlike(h, g, a, m.id, k);
    case FieldN(a) => FieldsLookAlike(h, g, a, m.id, k);
    case TypedefN(a) => TypedefsLookAlike(h, g, a, m.id, k);
  }
}
