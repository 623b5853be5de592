/** Building an OCaml list front to back through a pointer to its last cell. */
module ListSteps {
  import opened Caches
  import opened ClangGraph
  import opened HeapSteps

  /** A cell nobody else knows. */
  ghost predicate LooseCell(base: State, s: State, c: nat) {
    |base.heap| <= c < |s.heap| && c !in s.origin && c !in s.aux && s.heap[c].tag == 0 && |s.heap[c].fields| == 2
  }

  /** cells is a chain of loose cells: a dummy head, then one cell for each of ids, linked in order. */
  ghost predicate Chain(base: State, s: State, cells: seq<nat>, ids: seq<nat>) {
    && |cells| == |ids| + 1
    && (forall j :: 0 <= j < |cells| ==> LooseCell(base, s, cells[j]))
    && (forall i, j :: 0 <= i < j < |cells| ==> cells[i] < cells[j])
    && (forall j :: 0 <= j < |ids| ==> CarriesField(s, cells[j + 1], ids[j]))
    && (forall j :: 0 <= j < |ids| ==> LinksTo(s, cells[j], Ptr(cells[j + 1])))
    && LinksTo(s, cells[|ids|], UNIT)
  }

  ghost predicate CarriesField(s: State, c: nat, id: nat) {
    c < |s.heap| && |s.heap[c].fields| == 2 && Refers(s, s.heap[c].fields[0], FieldN(id))
  }

  ghost predicate LinksTo(s: State, c: nat, v: Value) {
    c < |s.heap| && |s.heap[c].fields| == 2 && s.heap[c].fields[1] == v
  }

  lemma ChainKept(base: State, s: State, s': State, cells: seq<nat>, ids: seq<nat>)
    requires Chain(base, s, cells, ids) && Extends(s, s')
    ensures Chain(base, s', cells, ids)
  {
  }

  /** Filling a new last cell and linking the old last cell to it. */
  lemma ChainAppend(base: State, s: State, s': State, cells: seq<nat>, ids: seq<nat>, next: nat, x: Value, id: nat)
    requires Chain(base, s, cells, ids) && LooseCell(base, s, next) && cells[|ids|] < next && Refers(s, x, FieldN(id))
    requires s' == s.(heap := s.heap[next := Block(0, [x, UNIT])]
                                   [cells[|ids|] := SetField(s.heap[cells[|ids|]], 1, Ptr(next))])
    ensures Chain(base, s', cells + [next], ids + [id])
  {
  }

  lemma FieldNodesTail(ids: seq<nat>)
    requires ids != []
    ensures FieldNodes(ids)[0] == FieldN(ids[0]) && FieldNodes(ids)[1..] == FieldNodes(ids[1..])
  {
  }

  /** Once its cells are known as auxiliary blocks, the chain behind cell j is the list of the remaining fields. */
  lemma {:induction false} ChainIsList(base: State, s: State, t: State, cells: seq<nat>, ids: seq<nat>, j: nat)
    requires Chain(base, s, cells, ids) && j <= |ids|
    requires t.heap == s.heap && t.origin == s.origin && forall i :: 1 <= i < |cells| ==> cells[i] in t.aux
    ensures ListHolds(t, s.heap[cells[j]].fields[1], FieldNodes(ids[j..]))
    decreases |ids| - j
  {
    assert LooseCell(base, s, cells[j]);
    if j < |ids| {
      assert LinksTo(s, cells[j], Ptr(cells[j + 1])) && CarriesField(s, cells[j + 1], ids[j]);
      assert LooseCell(base, s, cells[j + 1]);
      ChainIsList(base, s, t, cells, ids, j + 1);
      FieldNodesTail(ids[j..]);
      assert ids[j..][1..] == ids[j + 1..];
    } else {
      assert LinksTo(s, cells[j], UNIT);
    }
  }
}
