/** Target options cross the border between C++ and OCaml as a block of strings and string lists. */
module TargetOptions {

  /** OCaml values as this code sees them: strings are values of their own. */
  datatype MLValue = Int(n: int) | Str(chars: string) | Ref(addr: nat)

  type Heap = seq<seq<MLValue>>

  datatype EABI = Unknown | Default | EABI4 | EABI5 | GNU

  datatype Options = Options(triple: string, hostTriple: string, cpu: string, fpMath: string, abi: string, eabi: EABI,
                             linkerVersion: string, featuresAsWritten: seq<string>, features: seq<string>)

  // ---------- strings ----------

  /** A C string ends at its first NUL. */
  function CString(s: string): string {
    if s == "" || s[0] == '\0' then "" else [s[0]] + CString(s[1..])
  }

  function CStrings(ss: seq<string>): seq<string> {
    seq(|ss|, i requires 0 <= i < |ss| => CString(ss[i]))
  }

  lemma {:induction false} CStringIsWhole(s: string)
    ensures CString(s) == s <==> '\0' !in s
    ensures '\0' !in CString(s)
  {
    if s != "" && s[0] != '\0' {
      CStringIsWhole(s[1..]);
      assert s == [s[0]] + s[1..];
    }
  }

  /** What is left of the options when every string is cut at its first NUL. */
  function Cut(o: Options): Options {
    Options(CString(o.triple), CString(o.hostTriple), CString(o.cpu), CString(o.fpMath), CString(o.abi), o.eabi,
            CString(o.linkerVersion), CStrings(o.featuresAsWritten), CStrings(o.features))
  }

  ghost predicate NoNul(ss: seq<string>) {
    forall i :: 0 <= i < |ss| ==> '\0' !in ss[i]
  }

  ghost predicate NulFree(o: Options) {
    && NoNul([o.triple, o.hostTriple, o.cpu, o.fpMath, o.abi, o.linkerVersion])
    && NoNul(o.featuresAsWritten) && NoNul(o.features)
  }

  lemma CStringsAreWhole(ss: seq<string>)
    ensures CStrings(ss) == ss <==> NoNul(ss)
    ensures CStrings(CStrings(ss)) == CStrings(ss)
  {
    forall i | 0 <= i < |ss|
      ensures CString(CString(ss[i])) == CString(ss[i]) && (CStrings(ss)[i] == ss[i] <==> '\0' !in ss[i])
    {
      CStringIsWhole(ss[i]);
      CStringIsWhole(CString(ss[i]));
    }
  }

  /** Cutting loses nothing exactly when there is no NUL, and cutting twice is cutting once. */
  lemma CutIsWhole(o: Options)
    ensures Cut(o) == o <==> NulFree(o)
    ensures Cut(Cut(o)) == Cut(o)
  {
    hide CStrings, CString;
    var scalars := [o.triple, o.hostTriple, o.cpu, o.fpMath, o.abi, o.linkerVersion];
    forall s | s in scalars ensures (CString(s) == s <==> '\0' !in s) && CString(CString(s)) == CString(s) {
      CStringIsWhole(s);
      CStringIsWhole(CString(s));
    }
    assert scalars[0] == o.triple && scalars[1] == o.hostTriple && scalars[2] == o.cpu && scalars[3] == o.fpMath;
    assert scalars[4] == o.abi && scalars[5] == o.linkerVersion;
    CStringsAreWhole(o.featuresAsWritten);
    CStringsAreWhole(o.features);
  }

  // ---------- what a value stands for ----------

  function EabiTag(e: EABI): int {
    match e
    case Unknown => 0
    case Default => 1
    case EABI4 => 2
    case EABI5 => 3
    case GNU => 4
  }

  function EabiOfTag(n: int): (e: EABI)
    ensures TagHolds(Int(n), e)
    ensures forall e' :: TagHolds(Int(n), e') ==> e == e'
  {
    if n == 0 then Unknown
    else if n == 1 then Default
    else if n == 2 then EABI4
    else if n == 3 then EABI5
    else if n == 4 then GNU
    else Default
  }

  /** The constructors of the OCaml type, in the order of their declaration. */
  function EabiConstructors(): seq<EABI> {
    [Unknown, Default, EABI4, EABI5, GNU]
  }

  lemma EabiTagIsPosition(e: EABI)
    ensures 0 <= EabiTag(e) < |EabiConstructors()| && EabiConstructors()[EabiTag(e)] == e
  {
  }

  ghost predicate IsCell(h: Heap, v: MLValue, size: nat) {
    v.Ref? && v.addr < |h| && |h[v.addr]| >= size
  }

  /** v is an OCaml list of these strings, made of cells at address lo or beyond. */
  ghost predicate ListHolds(h: Heap, v: MLValue, ss: seq<string>, lo: nat)
    decreases |ss|
  {
    if ss == [] then v == Int(0)
    else IsCell(h, v, 2) && v.addr >= lo && h[v.addr][0] == Str(ss[0]) && ListHolds(h, h[v.addr][1], ss[1..], lo)
  }

  /** A tag that names no EABI version stands for the default one. */
  ghost predicate TagHolds(v: MLValue, e: EABI) {
    v.Int? && (v.n == EabiTag(e) || (e == Default && !(0 <= v.n <= 4)))
  }

  ghost predicate Represents(h: Heap, v: MLValue, o: Options) {
    && IsCell(h, v, 9)
    && h[v.addr][0] == Str(o.triple) && h[v.addr][1] == Str(o.hostTriple) && h[v.addr][2] == Str(o.cpu)
    && h[v.addr][3] == Str(o.fpMath) && h[v.addr][4] == Str(o.abi) && TagHolds(h[v.addr][5], o.eabi)
    && h[v.addr][6] == Str(o.linkerVersion)
    && ListHolds(h, h[v.addr][7], o.featuresAsWritten, 0) && ListHolds(h, h[v.addr][8], o.features, 0)
  }

  datatype Label = Triple | HostTriple | CPU | FPMath | ABI | EABIVersion | LinkerVersion | FeaturesAsWritten | Features

  /** The fields of the OCaml record, in the order of their declaration. */
  function Labels(): seq<Label> {
    [Triple, HostTriple, CPU, FPMath, ABI, EABIVersion, LinkerVersion, FeaturesAsWritten, Features]
  }

  ghost predicate PartHolds(h: Heap, v: MLValue, o: Options, l: Label) {
    match l
    case Triple => v == Str(o.triple)
    case HostTriple => v == Str(o.hostTriple)
    case CPU => v == Str(o.cpu)
    case FPMath => v == Str(o.fpMath)
    case ABI => v == Str(o.abi)
    case EABIVersion => TagHolds(v, o.eabi)
    case LinkerVersion => v == Str(o.linkerVersion)
    case FeaturesAsWritten => ListHolds(h, v, o.featuresAsWritten, 0)
    case Features => ListHolds(h, v, o.features, 0)
  }

  /** A block stands for options exactly when its fields, read as the OCaml record, hold their parts. */
  lemma RepresentsAsRecord(h: Heap, v: MLValue, o: Options)
    ensures Represents(h, v, o) <==>
            IsCell(h, v, |Labels()|) && forall i :: 0 <= i < |Labels()| ==> PartHolds(h, h[v.addr][i], o, Labels()[i])
  {
    hide ListHolds;
    if IsCell(h, v, 9) && forall i :: 0 <= i < |Labels()| ==> PartHolds(h, h[v.addr][i], o, Labels()[i]) {
      var b := h[v.addr];
      assert PartHolds(h, b[0], o, Labels()[0]) && PartHolds(h, b[1], o, Labels()[1]);
      assert PartHolds(h, b[2], o, Labels()[2]) && PartHolds(h, b[3], o, Labels()[3]);
      assert PartHolds(h, b[4], o, Labels()[4]) && PartHolds(h, b[5], o, Labels()[5]);
      assert PartHolds(h, b[6], o, Labels()[6]) && PartHolds(h, b[7], o, Labels()[7]);
      assert PartHolds(h, b[8], o, Labels()[8]);
    }
  }

  lemma {:induction false} ListHoldsOneList(h: Heap, v: MLValue, ss: seq<string>, ts: seq<string>)
    requires ListHolds(h, v, ss, 0) && ListHolds(h, v, ts, 0)
    ensures ss == ts
    decreases |ss|
  {
    if ss != [] {
      ListHoldsOneList(h, h[v.addr][1], ss[1..], ts[1..]);
      assert ss == [ss[0]] + ss[1..] && ts == [ts[0]] + ts[1..];
    }
  }

  /** A value stands for at most one set of options. */
  lemma RepresentsOne(h: Heap, v: MLValue, o: Options, o': Options)
    requires Represents(h, v, o) && Represents(h, v, o')
    ensures o == o'
  {
    ListHoldsOneList(h, h[v.addr][7], o.featuresAsWritten, o'.featuresAsWritten);
    ListHoldsOneList(h, h[v.addr][8], o.features, o'.features);
  }

  lemma {:induction false} ListHoldsKept(h: Heap, h': Heap, v: MLValue, ss: seq<string>, lo: nat, lo': nat)
    requires ListHolds(h, v, ss, lo) && |h| <= |h'| && lo' <= lo && forall a :: lo <= a < |h| ==> h'[a] == h[a]
    ensures ListHolds(h', v, ss, lo')
    decreases |ss|
  {
    if ss != [] {
      ListHoldsKept(h, h', h[v.addr][1], ss[1..], lo, lo');
    }
  }

  // ---------- building a list behind a dummy cell ----------

  /** Cells first..first + n lie in a row: a dummy, then one cell for each string, each linked to the next. */
  ghost predicate Row(h: Heap, first: nat, ss: seq<string>) {
    && first + |ss| + 1 == |h|
    && (forall j :: first <= j < |h| ==> |h[j]| == 2)
    && (forall j :: 0 <= j < |ss| ==> h[first + j + 1][0] == Str(ss[j]))
    && (forall j :: first <= j < first + |ss| ==> h[j][1] == Ref(j + 1))
    && h[first + |ss|][1] == Int(0)
  }

  lemma {:induction false} RowIsList(h: Heap, first: nat, ss: seq<string>, j: nat)
    requires Row(h, first, ss) && j <= |ss|
    ensures ListHolds(h, h[first + j][1], ss[j..], first)
    decreases |ss| - j
  {
    if j < |ss| {
      RowIsList(h, first, ss, j + 1);
      assert ss[j..][1..] == ss[j + 1..];
    }
  }

  /** The fields of the C++ object that cross the border, and one that does not. */
  class TargetOptions {
    var options: Options
    var reciprocals: seq<string>

    constructor (options: Options, reciprocals: seq<string>)
      ensures this.options == options && this.reciprocals == reciprocals
    {
      this.options, this.reciprocals := options, reciprocals;
    }
  }

  class OCaml {
    var heap: Heap

    constructor ()
      ensures heap == []
    {
      heap := [];
    }

    /** Allocates a block whose fields all hold unit. */
    method Alloc(size: nat) returns (a: nat)
      modifies this
      ensures a == |old(heap)| && heap == old(heap) + [seq(size, _ => Int(0))]
    {
      a := |heap|;
      heap := heap + [seq(size, _ => Int(0))];
    }

    method StoreField(a: nat, i: nat, v: MLValue)
      requires a < |heap| && i < |heap[a]|
      modifies this
      ensures heap == old(heap)[a := old(heap)[a][i := v]]
    {
      heap := heap[a := heap[a][i := v]];
    }

    /** An OCaml list of copies of the strings, in order. */
    method CopyStrings(ss: seq<string>) returns (v: MLValue)
      modifies this
      ensures old(heap) <= heap && ListHolds(heap, v, CStrings(ss), |old(heap)|)
    {
      var head := Alloc(2);
      var last := head;
      StoreField(last, 1, Int(0));
      for i := 0 to |ss|
        invariant old(heap) <= heap && head == |old(heap)| && last == head + i
        invariant Row(heap, head, CStrings(ss[..i]))
      {
        last := AddString(last, head, ss[i], CStrings(ss[..i]));
        assert CStrings(ss[..i]) + [CString(ss[i])] == CStrings(ss[..i + 1]);
      }
      assert ss[..|ss|] == ss && CStrings(ss)[0..] == CStrings(ss);
      RowIsList(heap, head, CStrings(ss), 0);
      v := heap[head][1];
    }

    method AddString(last: nat, ghost head: nat, s: string, ghost done: seq<string>) returns (next: nat)
      requires Row(heap, head, done) && last == head + |done|
      modifies this
      ensures next == last + 1 && |heap| == |old(heap)| + 1 && Row(heap, head, done + [CString(s)])
      ensures forall a :: 0 <= a < head ==> heap[a] == old(heap)[a]
    {
      next := Alloc(2);
      StoreField(next, 0, Str(CString(s)));
      StoreField(next, 1, Int(0));
      StoreField(last, 1, Ref(next));
    }

    /** The strings of an OCaml list, in order. */
    method ReadStrings(v: MLValue, ghost ss: seq<string>) returns (strings: seq<string>)
      requires ListHolds(heap, v, ss, 0)
      ensures strings == CStrings(ss)
    {
      strings := [];
      var head := v;
      ghost var done := 0;
      while !head.Int?
        invariant 0 <= done <= |ss| && ListHolds(heap, head, ss[done..], 0) && strings == CStrings(ss[..done])
        decreases |ss| - done
      {
        assert ss[done..][1..] == ss[done + 1..] && ss[done..][0] == ss[done];
        assert CStrings(ss[..done + 1]) == CStrings(ss[..done]) + [CString(ss[done])];
        strings := strings + [CString(heap[head.addr][0].chars)];
        head := heap[head.addr][1];
        done := done + 1;
      }
      assert ss[..done] == ss;
    }

    /** The tenth field of the block stays unit. */
    method TargetOptionsToML(t: TargetOptions) returns (v: MLValue)
      modifies this
      ensures old(heap) <= heap && Represents(heap, v, Cut(t.options))
    {
      hide ListHolds, CStrings, CString;
      var o := t.options;
      var a := Alloc(10);
      StoreScalars(a, o);
      var written := CopyStrings(o.featuresAsWritten);
      ghost var h1 := heap;
      StoreField(a, 7, written);
      ListHoldsKept(h1, heap, written, CStrings(o.featuresAsWritten), a + 1, 0);
      ghost var h2 := heap;
      var features := CopyStrings(o.features);
      ghost var h3 := heap;
      StoreField(a, 8, features);
      ListHoldsKept(h1, heap, written, CStrings(o.featuresAsWritten), a + 1, 0);
      ListHoldsKept(h3, heap, features, CStrings(o.features), |h2|, 0);
      v := Ref(a);
    }

    method StoreScalars(a: nat, o: Options)
      requires a < |heap| && |heap[a]| == 10
      modifies this
      ensures |heap| == |old(heap)| && |heap[a]| == 10
      ensures forall x :: 0 <= x < |heap| && x != a ==> heap[x] == old(heap)[x]
      ensures heap[a][0] == Str(CString(o.triple)) && heap[a][1] == Str(CString(o.hostTriple))
      ensures heap[a][2] == Str(CString(o.cpu)) && heap[a][3] == Str(CString(o.fpMath))
      ensures heap[a][4] == Str(CString(o.abi))
      ensures heap[a][5] == Int(EabiTag(o.eabi)) && heap[a][6] == Str(CString(o.linkerVersion))
    {
      StoreField(a, 0, Str(CString(o.triple)));
      StoreField(a, 1, Str(CString(o.hostTriple)));
      StoreField(a, 2, Str(CString(o.cpu)));
      StoreField(a, 3, Str(CString(o.fpMath)));
      StoreField(a, 4, Str(CString(o.abi)));
      var i := EabiTag(Default);
      match o.eabi {
        case Unknown => i := EabiTag(Unknown);
        case Default => i := EabiTag(Default);
        case EABI4 => i := EabiTag(EABI4);
        case EABI5 => i := EabiTag(EABI5);
        case GNU => i := EabiTag(GNU);
      }
      StoreField(a, 5, Int(i));
      StoreField(a, 6, Str(CString(o.linkerVersion)));
    }

    /** Overwrites what crosses the border, and nothing else. */
    method TargetOptionsFromML(v: MLValue, t: TargetOptions, ghost o: Options)
      requires Represents(heap, v, o)
      modifies t
      ensures t.options == Cut(o) && t.reciprocals == old(t.reciprocals)
    {
      hide ListHolds, CStrings, CString;
      var block := heap[v.addr];
      t.options := t.options.(triple := CString(block[0].chars));
      t.options := t.options.(hostTriple := CString(block[1].chars));
      t.options := t.options.(cpu := CString(block[2].chars));
      t.options := t.options.(fpMath := CString(block[3].chars));
      t.options := t.options.(abi := CString(block[4].chars));
      t.options := t.options.(eabi := EabiOfTag(block[5].n));
      t.options := t.options.(linkerVersion := CString(block[6].chars));
      var written := ReadStrings(block[7], o.featuresAsWritten);
      t.options := t.options.(featuresAsWritten := written);
      var features := ReadStrings(block[8], o.features);
      t.options := t.options.(features := features);
    }

    /** To OCaml and back: nothing changes exactly when no string contains a NUL. */
    method ThereAndBack(t: TargetOptions, u: TargetOptions)
      requires t != u
      modifies this, u
      ensures u.options == Cut(t.options)
      ensures u.options == t.options <==> NulFree(t.options)
    {
      var v := TargetOptionsToML(t);
      TargetOptionsFromML(v, u, Cut(t.options));
      CutIsWhole(t.options);
    }

    /** To C++ and back: the new block stands for the same options, up to NULs. */
    method BackAndThere(v: MLValue, t: TargetOptions, ghost o: Options) returns (w: MLValue)
      requires Represents(heap, v, o)
      modifies this, t
      ensures old(heap) <= heap && Represents(heap, w, Cut(o)) && (Represents(heap, w, o) <==> NulFree(o))
    {
      TargetOptionsFromML(v, t, o);
      w := TargetOptionsToML(t);
      CutIsWhole(o);
      if Represents(heap, w, o) {
        RepresentsOne(heap, w, o, Cut(o));
      }
    }
  }
}
