/** The part of the Clang AST that the translator copies, the OCaml heap it builds,
    and what it means for the heap to mirror the AST. */
module ClangGraph {
  import opened Caches
  import opened Options

  // ---------- the source graph ----------

  /** A qualified type, a type, or a declaration, named by its address. */
  datatype Node = QualN(id: nat) | TypeN(id: nat) | RecordN(id: nat) | FieldN(id: nat) | TypedefN(id: nat)

  datatype QualType = QualType(ty: nat, isConst: bool, isRestrict: bool, isVolatile: bool)

  datatype WrapperKind =
    | Atomic | Attributed | Complex | Paren | Pointer | Elaborated | TypeOf | LValueReference | RValueReference

  datatype Type =
    | Wrapper(kind: WrapperKind, inner: nat)
    | Decayed(decayed: nat, pointee: nat)
    | UnaryTransform(underlying: nat, base: nat)
    | Builtin(builtin: int)
    | RecordType(record: nat)
    | TypedefType(typedef: nat)
    | Vector(element: nat, numElements: int, vectorKind: int)
    | Unknown(typeClass: int, className: nat)

  datatype RecordKind = Struct | Union | Class | Interface

  datatype Record = Record(name: nat, kind: RecordKind, flexible: bool, hasVolatile: bool, anonymous: bool,
                           complete: bool, invalid: bool, dependent: bool, size: int, dataSize: int, alignment: int,
                           fields: seq<nat>, typedefForAnon: Option<nat>, range: nat, comments: nat)

  datatype Field = Field(parent: nat, name: nat, index: int, ty: nat, bitWidth: Option<int>, unnamed: bool,
                         offset: int, vlaSize: Option<nat>, range: nat, comments: nat)

  datatype Typedef = Typedef(name: nat, underlying: nat, range: nat, comments: nat)

  datatype Graph = Graph(quals: map<nat, QualType>, types: map<nat, Type>, records: map<nat, Record>,
                         fields: map<nat, Field>, typedefs: map<nat, Typedef>)

  predicate InGraph(g: Graph, n: Node) {
    match n
    case QualN(q) => q in g.quals
    case TypeN(t) => t in g.types
    case RecordN(r) => r in g.records
    case FieldN(f) => f in g.fields
    case TypedefN(t) => t in g.typedefs
  }

  // ---------- the block each node becomes ----------

  datatype Block = Block(tag: nat, fields: seq<Value>)

  /** What one field of a block has to hold. */
  datatype Slot =
    | Exactly(v: Value)
    | Uid
    | Child(n: Node)
    | Tuple(values: seq<Value>)
    | OptValue(value: Option<Value>)
    | OptChild(child: Option<Node>)
    | Children(ns: seq<Node>)

  function BoolValue(b: bool): Value {
    Imm(if b then 1 else 0)
  }

  function WrapperTag(k: WrapperKind): nat {
    match k
    case Atomic => 2
    case Attributed => 3
    case Complex => 5
    case Paren => 8
    case Pointer => 9
    case Elaborated => 13
    case TypeOf => 16
    case LValueReference => 24
    case RValueReference => 25
  }

  function RecordKindTag(k: RecordKind): int {
    match k
    case Struct => 0
    case Union => 1
    case Class => 2
    case Interface => 3
  }

  function TypeTag(t: Type): nat {
    match t
    case Wrapper(k, _) => WrapperTag(k)
    case Decayed(_, _) => 0
    case UnaryTransform(_, _) => 14
    case Builtin(_) => 4
    case RecordType(_) => 11
    case TypedefType(_) => 12
    case Vector(_, _, _) => 33
    case Unknown(_, _) => 34
  }

  function TypeSlots(t: Type): seq<Slot> {
    match t
    case Wrapper(_, q) => [Child(QualN(q))]
    case Decayed(d, p) => [Child(QualN(d)), Child(QualN(p))]
    case UnaryTransform(u, b) => [Child(QualN(u)), Child(QualN(b)), Exactly(UNIT)]
    case Builtin(k) => [Exactly(Imm(k))]
    case RecordType(r) => [Child(RecordN(r))]
    case TypedefType(d) => [Child(TypedefN(d))]
    case Vector(e, n, k) => [Child(QualN(e)), Exactly(Imm(n)), Exactly(Imm(k))]
    case Unknown(c, name) => [Exactly(Imm(c)), Exactly(Foreign(name))]
  }

  function QualSlots(q: QualType): seq<Slot> {
    [Child(TypeN(q.ty)), Tuple([BoolValue(q.isConst), BoolValue(q.isRestrict), BoolValue(q.isVolatile)])]
  }

  predicate HasLayout(r: Record) {
    r.complete && !r.invalid && !r.dependent
  }

  /** A measure of the layout, or 0 if there is none. */
  function LayoutValue(r: Record, bits: int): Slot {
    Exactly(Int64(if HasLayout(r) then bits else 0))
  }

  function FieldNodes(fields: seq<nat>): seq<Node> {
    seq(|fields|, i requires 0 <= i < |fields| => FieldN(fields[i]))
  }

  function TypedefNode(t: Option<nat>): Option<Node> {
    match t
    case None => None
    case Some(d) => Some(TypedefN(d))
  }

  function RecordSlots(r: Record): seq<Slot> {
    RecordHead(r) + RecordRest(r)
  }

  /** What can be stored without translating anything else. */
  function RecordHead(r: Record): seq<Slot> {
    [Uid, Exactly(Foreign(r.name)), Exactly(Imm(RecordKindTag(r.kind))),
     Exactly(BoolValue(r.flexible)), Exactly(BoolValue(r.hasVolatile)), Exactly(BoolValue(r.anonymous)),
     Exactly(BoolValue(r.complete)), Exactly(BoolValue(!r.invalid)),
     LayoutValue(r, r.size), LayoutValue(r, r.dataSize), LayoutValue(r, r.alignment)]
  }

  function RecordRest(r: Record): seq<Slot> {
    [Children(FieldNodes(r.fields)), OptChild(TypedefNode(r.typedefForAnon)),
     Exactly(Foreign(r.range)), Exactly(Foreign(r.comments)),
     Exactly(UNIT), Exactly(UNIT), Exactly(UNIT), Exactly(UNIT)]
  }

  function BitWidth(f: Field): Option<Value> {
    match f.bitWidth
    case None => None
    case Some(w) => Some(Imm(w))
  }

  function VlaSize(f: Field): Option<Value> {
    match f.vlaSize
    case None => None
    case Some(e) => Some(Foreign(e))
  }

  /** The block of a field has a twelfth slot that is never written. */
  function FieldSlots(f: Field, parent: Record): seq<Slot> {
    [Uid, Exactly(Foreign(f.name)), Exactly(Imm(f.index)), Child(QualN(f.ty)), OptValue(BitWidth(f)),
     Exactly(BoolValue(f.unnamed)), Exactly(BoolValue(HasLayout(parent))), LayoutValue(parent, f.offset),
     OptValue(VlaSize(f)), Exactly(Foreign(f.range)), Exactly(Foreign(f.comments)), Exactly(UNIT)]
  }

  function TypedefSlots(d: Typedef): seq<Slot> {
    [Uid, Exactly(Foreign(d.name)), Child(QualN(d.underlying)), Exactly(Foreign(d.range)), Exactly(Foreign(d.comments))]
  }

  function Tag(g: Graph, n: Node): nat
    requires InGraph(g, n)
  {
    if n.TypeN? then TypeTag(g.types[n.id]) else 0
  }

  ghost predicate WellFormed(g: Graph) {
    && g.records.Keys !! g.typedefs.Keys
    && (forall f :: f in g.fields ==> g.fields[f].parent in g.records)
    && (forall n, i :: InGraph(g, n) && 0 <= i < |Slots(g, n)| ==> SlotInGraph(g, Slots(g, n)[i]))
  }

  function Slots(g: Graph, n: Node): seq<Slot>
    requires InGraph(g, n)
  {
    match n
    case QualN(q) => QualSlots(g.quals[q])
    case TypeN(t) => TypeSlots(g.types[t])
    case RecordN(r) => RecordSlots(g.records[r])
    case FieldN(f) =>
      if g.fields[f].parent in g.records then FieldSlots(g.fields[f], g.records[g.fields[f].parent]) else []
    case TypedefN(t) => TypedefSlots(g.typedefs[t])
  }

  ghost predicate SlotInGraph(g: Graph, slot: Slot) {
    && (slot.Child? ==> InGraph(g, slot.n))
    && (slot.OptChild? && slot.child.Some? ==> InGraph(g, slot.child.value))
    && (slot.Children? ==> forall i :: 0 <= i < |slot.ns| ==> InGraph(g, slot.ns[i]))
  }

  // ---------- paths through the source graph ----------

  ghost predicate Mentions(slot: Slot, c: Node) {
    slot == Child(c) || slot == OptChild(Some(c)) || (slot.Children? && c in slot.ns)
  }

  ghost predicate Edge(g: Graph, n: Node, c: Node) {
    InGraph(g, n) && exists i :: 0 <= i < |Slots(g, n)| && Mentions(Slots(g, n)[i], c)
  }

  ghost predicate IsPath(g: Graph, path: seq<Node>) {
    path != [] && forall i :: 0 <= i < |path| - 1 ==> Edge(g, path[i], path[i + 1])
  }

  ghost predicate Reaches(g: Graph, n: Node, m: Node) {
    exists path :: IsPath(g, path) && path[0] == n && path[|path| - 1] == m
  }

  /** q's type leads back to q. */
  ghost predicate OnCycle(g: Graph, q: nat) {
    q in g.quals && Reaches(g, TypeN(g.quals[q].ty), QualN(q))
  }

  // ---------- the translator's state ----------

  /** origin says which node a block was built for; aux are the list cells, options and tuples that are in use;
      again are the qualified types that were finished while they were themselves being built. */
  datatype State = State(heap: seq<Block>, types: map<nat, Value>, quals: map<nat, Value>, misc: map<nat, Value>,
                         misc2: map<nat, Value>, uid: nat, origin: map<nat, Node>, aux: set<nat>, again: set<nat>)

  function CacheFor(s: State, n: Node): map<nat, Value> {
    match n
    case QualN(_) => s.quals
    case TypeN(_) => s.types
    case RecordN(_) => s.misc
    case TypedefN(_) => s.misc
    case FieldN(_) => s.misc2
  }

  ghost predicate Cached(s: State, n: Node) {
    n.id in CacheFor(s, n)
  }

  /** v is the address of a block built for n. */
  ghost predicate Refers(s: State, v: Value, n: Node) {
    v.Ptr? && v.addr in s.origin && s.origin[v.addr] == n
  }

  /** v is the address of an auxiliary block with the given number of fields. */
  ghost predicate IsAux(s: State, v: Value, size: nat) {
    v.Ptr? && v.addr in s.aux && v.addr < |s.heap| && s.heap[v.addr].tag == 0 && |s.heap[v.addr].fields| == size
  }

  ghost predicate ListHolds(s: State, v: Value, ns: seq<Node>)
    decreases |ns|
  {
    if ns == [] then v == UNIT
    else
      IsAux(s, v, 2) && Refers(s, s.heap[v.addr].fields[0], ns[0]) && ListHolds(s, s.heap[v.addr].fields[1], ns[1..])
  }

  ghost predicate SlotHolds(s: State, slot: Slot, v: Value) {
    match slot
    case Exactly(x) => v == x
    case Uid => v.Imm?
    case Child(n) => Refers(s, v, n)
    case Tuple(values) => IsAux(s, v, |values|) && s.heap[v.addr].fields == values
    case OptValue(None) => v == UNIT
    case OptValue(Some(x)) => IsAux(s, v, 1) && s.heap[v.addr].fields[0] == x
    case OptChild(None) => v == UNIT
    case OptChild(Some(n)) => IsAux(s, v, 1) && Refers(s, s.heap[v.addr].fields[0], n)
    case Children(ns) => ListHolds(s, v, ns)
  }

  /** Block a has the shape of n and its first k fields hold what they should. */
  ghost predicate Filled(g: Graph, s: State, a: nat, n: Node, k: nat)
    requires InGraph(g, n)
  {
    && a < |s.heap| && s.heap[a].tag == Tag(g, n) && |s.heap[a].fields| == |Slots(g, n)| && k <= |Slots(g, n)|
    && forall i :: 0 <= i < k ==> SlotHolds(s, Slots(g, n)[i], s.heap[a].fields[i])
  }

  ghost predicate Complete(g: Graph, s: State, a: nat, n: Node)
    requires InGraph(g, n)
  {
    Filled(g, s, a, n, |Slots(g, n)|)
  }

  // ---------- the invariant ----------

  predicate IsDecl(n: Node) {
    n.RecordN? || n.FieldN? || n.TypedefN?
  }

  ghost predicate HasUid(s: State, a: nat, u: int) {
    a in s.origin && IsDecl(s.origin[a]) && a < |s.heap| && |s.heap[a].fields| > 0 && s.heap[a].fields[0] == Imm(u)
  }

  ghost predicate UidGiven(s: State, u: int) {
    exists a :: HasUid(s, a, u)
  }

  /** The uids given out so far are in bijection with the declarations translated so far. */
  ghost predicate UidsMatch(s: State) {
    && (forall a :: a in s.origin && IsDecl(s.origin[a]) ==> exists u :: 0 <= u < s.uid && HasUid(s, a, u))
    && (forall a, b, u :: HasUid(s, a, u) && HasUid(s, b, u) ==> a == b)
    && (forall u :: 0 <= u < s.uid ==> UidGiven(s, u))
  }

  ghost function BlocksFor(s: State, n: Node): set<nat> {
    set a | a in s.origin && s.origin[a] == n
  }

  /** One block for each qualified type in its cache; another one if it was finished while it was itself being built,
      and is no longer. */
  ghost function QualCount(s: State, pending: set<nat>, q: nat): nat {
    if q !in s.quals then 0 else if q in s.again && q !in pending then 2 else 1
  }

  ghost predicate QualBlocks(g: Graph, s: State, pending: set<nat>) {
    && (forall q: nat :: |BlocksFor(s, QualN(q))| == QualCount(s, pending, q))
    && (forall q :: q in pending && q in s.quals ==> q in s.again)
    && (forall q :: q in s.again ==> q in s.quals && (q !in pending ==> OnCycle(g, q)))
  }

  ghost predicate BlocksKnown(g: Graph, s: State, open: set<nat>) {
    && (forall a :: a in s.origin ==> a < |s.heap| && InGraph(g, s.origin[a]) && a !in s.aux)
    && (forall x :: x in s.aux ==> x < |s.heap|)
    && open <= s.origin.Keys
  }

  ghost predicate ClosedAreComplete(g: Graph, s: State, open: set<nat>)
    requires BlocksKnown(g, s, open)
  {
    forall a :: a in s.origin && a !in open ==> Complete(g, s, a, s.origin[a])
  }

  ghost predicate CachesRefer(g: Graph, s: State) {
    forall n :: InGraph(g, n) && Cached(s, n) ==> Refers(s, CacheFor(s, n)[n.id], n)
  }

  /** Types and declarations have one block, the one in the cache. */
  ghost predicate OneBlockEach(s: State) {
    forall a :: a in s.origin && !s.origin[a].QualN? ==>
      Cached(s, s.origin[a]) && CacheFor(s, s.origin[a])[s.origin[a].id] == Ptr(a)
  }

  /** open are the blocks being filled; every other block is complete. */
  ghost predicate Inv(g: Graph, s: State, open: set<nat>, pending: set<nat>) {
    && WellFormed(g)
    && BlocksKnown(g, s, open)
    && ClosedAreComplete(g, s, open)
    && CachesRefer(g, s)
    && OneBlockEach(s)
    && UidsMatch(s)
    && QualBlocks(g, s, pending)
  }

  /** s' has all that s has, unchanged, and what is new in it lies beyond the end of s's heap. */
  ghost predicate Extends(s: State, s': State) {
    && s.heap <= s'.heap
    && (forall a :: a in s.origin ==> a in s'.origin && s'.origin[a] == s.origin[a])
    && (forall a :: a in s'.origin && a < |s.heap| ==> a in s.origin)
    && s.aux <= s'.aux
    && (forall x :: x in s'.aux && x < |s.heap| ==> x in s.aux)
    && (forall n :: Cached(s, n) ==> Cached(s', n))
  }

  /** Whatever is new in s' can be reached from n. */
  ghost predicate NewUnder(g: Graph, s: State, s': State, n: Node) {
    forall a :: a in s'.origin && a !in s.origin ==> Reaches(g, n, s'.origin[a])
  }

  lemma ExtendsTransitive(a: State, b: State, c: State)
    requires Extends(a, b) && Extends(b, c)
    ensures Extends(a, c)
  {
  }

  /** Enough of the heap is kept for slots to keep holding. */
  ghost predicate KeepsAux(s: State, s': State) {
    && |s.heap| <= |s'.heap|
    && (forall x :: x in s.aux ==> x in s'.aux && (x < |s.heap| ==> s'.heap[x] == s.heap[x]))
    && (forall a :: a in s.origin ==> a in s'.origin && s'.origin[a] == s.origin[a])
  }

  lemma {:induction false} ListHoldsKept(s: State, s': State, v: Value, ns: seq<Node>)
    requires KeepsAux(s, s') && ListHolds(s, v, ns)
    ensures ListHolds(s', v, ns)
    decreases |ns|
  {
    if ns != [] {
      ListHoldsKept(s, s', s.heap[v.addr].fields[1], ns[1..]);
    }
  }

  lemma SlotHoldsKept(s: State, s': State, slot: Slot, v: Value)
    requires KeepsAux(s, s') && SlotHolds(s, slot, v)
    ensures SlotHolds(s', slot, v)
  {
    if slot.Children? {
      ListHoldsKept(s, s', v, slot.ns);
    }
  }

  lemma FilledKept(g: Graph, s: State, s': State, a: nat, n: Node, k: nat)
    requires InGraph(g, n) && KeepsAux(s, s') && Filled(g, s, a, n, k) && s'.heap[a] == s.heap[a]
    ensures Filled(g, s', a, n, k)
  {
    forall i | 0 <= i < k ensures SlotHolds(s', Slots(g, n)[i], s'.heap[a].fields[i]) {
      SlotHoldsKept(s, s', Slots(g, n)[i], s.heap[a].fields[i]);
    }
  }

  lemma ExtendsKeepsAux(s: State, s': State)
    requires Extends(s, s')
    ensures KeepsAux(s, s')
  {
  }
}
