/** The OCaml types the blocks are read as, and whether the blocks have their layout. Constructors with arguments
    are numbered in the order of their declaration, and so are the fields of records. */
module OCamlTypes {
  import opened Caches
  import opened Options
  import opened ClangGraph
  import opened NodeSteps

  // ---------- tags ----------

  datatype Constructor =
    | DecayedType | ArrayType | AtomicType | AttributedType | BuiltinType | ComplexType | FunctionProtoType
    | FunctionNoProtoType | ParenType | PointerType | EnumType | RecordOf | TypedefOf | ElaboratedType
    | UnaryTransformType | TypeOfExprType | TypeOfType | DecltypeType | AutoType | DeducedTemplateSpecializationType
    | DependentSizedExtVectorType | InjectedClassNameType | MemberPointerType | PackExpansionType
    | LValueReferenceType | RValueReferenceType | SubstTemplateTypeParmPackType | SubstTemplateTypeParmType
    | TemplateSpecializationType | TemplateTypeParmType | DependentNameType | DependentTemplateSpecializationType
    | UnresolvedUsingType | VectorType | UnknownType

  /** The constructors of typ, in the order of their declaration. */
  function Constructors(): seq<Constructor> {
    [DecayedType, ArrayType, AtomicType, AttributedType, BuiltinType, ComplexType, FunctionProtoType,
     FunctionNoProtoType, ParenType, PointerType, EnumType, RecordOf, TypedefOf, ElaboratedType,
     UnaryTransformType, TypeOfExprType, TypeOfType, DecltypeType, AutoType, DeducedTemplateSpecializationType,
     DependentSizedExtVectorType, InjectedClassNameType, MemberPointerType, PackExpansionType,
     LValueReferenceType, RValueReferenceType, SubstTemplateTypeParmPackType, SubstTemplateTypeParmType,
     TemplateSpecializationType, TemplateTypeParmType, DependentNameType, DependentTemplateSpecializationType,
     UnresolvedUsingType, VectorType, UnknownType]
  }

  function ConstructorOf(t: Type): Constructor {
    match t
    case Wrapper(Atomic, _) => AtomicType
    case Wrapper(Attributed, _) => AttributedType
    case Wrapper(Complex, _) => ComplexType
    case Wrapper(Paren, _) => ParenType
    case Wrapper(Pointer, _) => PointerType
    case Wrapper(Elaborated, _) => ElaboratedType
    case Wrapper(TypeOf, _) => TypeOfType
    case Wrapper(LValueReference, _) => LValueReferenceType
    case Wrapper(RValueReference, _) => RValueReferenceType
    case Decayed(_, _) => DecayedType
    case UnaryTransform(_, _) => UnaryTransformType
    case Builtin(_) => BuiltinType
    case RecordType(_) => RecordOf
    case TypedefType(_) => TypedefOf
    case Vector(_, _, _) => VectorType
    case Unknown(_, _) => UnknownType
  }

  /** Every type's block is tagged with the position of its constructor. */
  lemma TagIsPosition(t: Type)
    ensures TypeTag(t) < |Constructors()| && Constructors()[TypeTag(t)] == ConstructorOf(t)
  {
  }

  function RecordKinds(): seq<RecordKind> {
    [Struct, Union, Class, Interface]
  }

  lemma RecordKindIsPosition(k: RecordKind)
    ensures 0 <= RecordKindTag(k) < |RecordKinds()| && RecordKinds()[RecordKindTag(k)] == k
  {
  }

  // ---------- the arguments of the constructors ----------

  /** What an argument of a constructor is. */
  datatype Argument = AQual | ARecord | ATypedef | AnInt | AString | AUnaryTransform | AnotherType

  /** The arguments of a constructor, as far as the constructors are translated here. */
  function Arguments(c: Constructor): seq<Argument> {
    match c
    case DecayedType => [AQual, AQual]
    case AtomicType => [AQual]
    case AttributedType => [AQual]
    case BuiltinType => [AnInt]
    case ComplexType => [AQual]
    case ParenType => [AQual]
    case PointerType => [AQual]
    case RecordOf => [ARecord]
    case TypedefOf => [ATypedef]
    case ElaboratedType => [AQual]
    case UnaryTransformType => [AUnaryTransform]
    case TypeOfType => [AQual]
    case LValueReferenceType => [AQual]
    case RValueReferenceType => [AQual]
    case VectorType => [AQual, AnInt, AnInt]
    case UnknownType => [AnInt, AString]
    case _ => [AnotherType]
  }

  predicate SlotFits(slot: Slot, a: Argument) {
    match a
    case AQual => slot.Child? && slot.n.QualN?
    case ARecord => slot.Child? && slot.n.RecordN?
    case ATypedef => slot.Child? && slot.n.TypedefN?
    case AnInt => slot.Exactly? && slot.v.Imm?
    case AString => slot.Exactly? && slot.v.Foreign?
    case AUnaryTransform => false
    case AnotherType => false
  }

  ghost predicate BlockFits(t: Type) {
    && |TypeSlots(t)| == |Arguments(ConstructorOf(t))|
    && forall i :: 0 <= i < |TypeSlots(t)| ==> SlotFits(TypeSlots(t)[i], Arguments(ConstructorOf(t))[i])
  }

  /** A type's block has the arguments of its constructor, except that a unary transform has one argument, a record
      of three fields, and its block has those three fields itself. */
  lemma BlockFitsIff(t: Type)
    ensures BlockFits(t) <==> !t.UnaryTransform?
    ensures t.UnaryTransform? ==> |TypeSlots(t)| == 3 && |Arguments(ConstructorOf(t))| == 1
  {
    if t.UnaryTransform? {
      assert |TypeSlots(t)| == 3;
    }
  }

  // ---------- the fields of records ----------

  datatype QualLabel = QualIsConst | QualIsRestrict | QualIsVolatile

  function QualLabels(): seq<QualLabel> {
    [QualIsConst, QualIsRestrict, QualIsVolatile]
  }

  function QualPart(x: QualType, l: QualLabel): Value {
    match l
    case QualIsConst => if x.isConst then Imm(1) else Imm(0)
    case QualIsRestrict => if x.isRestrict then Imm(1) else Imm(0)
    case QualIsVolatile => if x.isVolatile then Imm(1) else Imm(0)
  }

  /** A qualified type is a pair of a type and a record of three flags. */
  lemma QualTypeFits(g: Graph, q: nat)
    requires q in g.quals
    ensures var slots, x := Slots(g, QualN(q)), g.quals[q];
            |slots| == 2 && slots[0] == Child(TypeN(x.ty)) && slots[1].Tuple? &&
            |slots[1].values| == |QualLabels()| &&
            forall i :: 0 <= i < |QualLabels()| ==> slots[1].values[i] == QualPart(x, QualLabels()[i])
  {
  }

  datatype TypedefLabel = TypedefUid | TypedefName | TypedefUnderlyingType | TypedefRange | TypedefCom

  function TypedefLabels(): seq<TypedefLabel> {
    [TypedefUid, TypedefName, TypedefUnderlyingType, TypedefRange, TypedefCom]
  }

  function TypedefPart(x: Typedef, l: TypedefLabel): Slot {
    match l
    case TypedefUid => Uid
    case TypedefName => Exactly(Foreign(x.name))
    case TypedefUnderlyingType => Child(QualN(x.underlying))
    case TypedefRange => Exactly(Foreign(x.range))
    case TypedefCom => Exactly(Foreign(x.comments))
  }

  lemma TypedefFits(g: Graph, d: nat, i: nat)
    requires d in g.typedefs
    ensures |Slots(g, TypedefN(d))| == |TypedefLabels()|
    ensures i < |TypedefLabels()| ==> Slots(g, TypedefN(d))[i] == TypedefPart(g.typedefs[d], TypedefLabels()[i])
  {
  }

  datatype FieldLabel =
    | FieldUid | FieldName | FieldIndex | FieldType | FieldBitwidth | FieldIsUnnamedBitfield | FieldIsInValidRecord
    | FieldOffset | FieldVariableLengthArray | FieldRange | FieldCom

  function FieldLabels(): seq<FieldLabel> {
    [FieldUid, FieldName, FieldIndex, FieldType, FieldBitwidth, FieldIsUnnamedBitfield, FieldIsInValidRecord,
     FieldOffset, FieldVariableLengthArray, FieldRange, FieldCom]
  }

  predicate LaidOut(r: Record) {
    r.complete && !r.invalid && !r.dependent
  }

  function FieldPart(x: Field, p: Record, l: FieldLabel): Slot {
    match l
    case FieldUid => Uid
    case FieldName => Exactly(Foreign(x.name))
    case FieldIndex => Exactly(Imm(x.index))
    case FieldType => Child(QualN(x.ty))
    case FieldBitwidth => OptValue(if x.bitWidth.Some? then Some(Imm(x.bitWidth.value)) else None)
    case FieldIsUnnamedBitfield => Exactly(if x.unnamed then Imm(1) else Imm(0))
    case FieldIsInValidRecord => Exactly(if LaidOut(p) then Imm(1) else Imm(0))
    case FieldOffset => Exactly(Int64(if LaidOut(p) then x.offset else 0))
    case FieldVariableLengthArray => OptValue(if x.vlaSize.Some? then Some(Foreign(x.vlaSize.value)) else None)
    case FieldRange => Exactly(Foreign(x.range))
    case FieldCom => Exactly(Foreign(x.comments))
  }

  /** A field's block has the fields of the record it is read as, and one more behind them. */
  lemma FieldFits(g: Graph, f: nat, i: nat)
    requires f in g.fields && g.fields[f].parent in g.records
    ensures |Slots(g, FieldN(f))| == |FieldLabels()| + 1
    ensures i < |FieldLabels()| ==>
              Slots(g, FieldN(f))[i] == FieldPart(g.fields[f], g.records[g.fields[f].parent], FieldLabels()[i])
  {
    hide Slots;
    SlotsOfField(g, f, g.fields[f]);
  }

  datatype RecordLabel =
    | RecordUid | RecordName | RecordKindOf | RecordHasFlexibleArrayMember | RecordHasVolatileMember
    | RecordIsAnonymous | RecordIsComplete | RecordIsValid | RecordSize | RecordDataSize | RecordAlignment
    | RecordFields | RecordTypedef | RecordRange | RecordCom | RecordTemplate | RecordBaseClass | RecordMethods
    | RecordFriends

  function RecordLabels(): seq<RecordLabel> {
    FirstRecordLabels() + LastRecordLabels()
  }

  function FirstRecordLabels(): seq<RecordLabel> {
    [RecordUid, RecordName, RecordKindOf, RecordHasFlexibleArrayMember, RecordHasVolatileMember,
     RecordIsAnonymous, RecordIsComplete, RecordIsValid, RecordSize, RecordDataSize, RecordAlignment]
  }

  function LastRecordLabels(): seq<RecordLabel> {
    [RecordFields, RecordTypedef, RecordRange, RecordCom, RecordTemplate, RecordBaseClass, RecordMethods,
     RecordFriends]
  }

  /** The last four are empty in C: no template, and no lists of bases, methods and friends. */
  function RecordPart(x: Record, l: RecordLabel): Slot {
    match l
    case RecordUid => Uid
    case RecordName => Exactly(Foreign(x.name))
    case RecordKindOf => Exactly(Imm(RecordKindTag(x.kind)))
    case RecordHasFlexibleArrayMember => Exactly(if x.flexible then Imm(1) else Imm(0))
    case RecordHasVolatileMember => Exactly(if x.hasVolatile then Imm(1) else Imm(0))
    case RecordIsAnonymous => Exactly(if x.anonymous then Imm(1) else Imm(0))
    case RecordIsComplete => Exactly(if x.complete then Imm(1) else Imm(0))
    case RecordIsValid => Exactly(if x.invalid then Imm(0) else Imm(1))
    case RecordSize => Exactly(Int64(if LaidOut(x) then x.size else 0))
    case RecordDataSize => Exactly(Int64(if LaidOut(x) then x.dataSize else 0))
    case RecordAlignment => Exactly(Int64(if LaidOut(x) then x.alignment else 0))
    case RecordFields => Children(FieldNodes(x.fields))
    case RecordTypedef => OptChild(TypedefNode(x.typedefForAnon))
    case RecordRange => Exactly(Foreign(x.range))
    case RecordCom => Exactly(Foreign(x.comments))
    case RecordTemplate => Exactly(Imm(0))
    case RecordBaseClass => Exactly(Imm(0))
    case RecordMethods => Exactly(Imm(0))
    case RecordFriends => Exactly(Imm(0))
  }

  /** A record's block has the fields of the record it is read as. */
  lemma RecordFits(g: Graph, r: nat, i: nat)
    requires r in g.records
    ensures |Slots(g, RecordN(r))| == |RecordLabels()|
    ensures i < |RecordLabels()| ==> Slots(g, RecordN(r))[i] == RecordPart(g.records[r], RecordLabels()[i])
  {
    hide Slots, FirstRecordLabels, LastRecordLabels;
    RecordLabelsSplit();
    if i < 11 {
      RecordHeadFits(g, r, i);
    } else if i < 19 {
      RecordRestFits(g, r, i - 11);
    }
    SlotsOfRecordHead(g, r, g.records[r]);
  }

  lemma RecordLabelsSplit()
    ensures |FirstRecordLabels()| == 11 && |LastRecordLabels()| == 8
  {
  }

  lemma RecordHeadFits(g: Graph, r: nat, i: nat)
    requires r in g.records && i < 11
    ensures |Slots(g, RecordN(r))| == 19 && |FirstRecordLabels()| == 11
    ensures Slots(g, RecordN(r))[i] == RecordPart(g.records[r], FirstRecordLabels()[i])
  {
    hide Slots;
    SlotsOfRecordHead(g, r, g.records[r]);
  }

  lemma RecordRestFits(g: Graph, r: nat, i: nat)
    requires r in g.records && i < 8
    ensures |Slots(g, RecordN(r))| == 19 && |LastRecordLabels()| == 8
    ensures Slots(g, RecordN(r))[11 + i] == RecordPart(g.records[r], LastRecordLabels()[i])
  {
    hide Slots;
    SlotsOfRecordRest(g, r, g.records[r]);
  }
}
