/** OCaml values as the translator sees them, and the growable cache that maps source objects to them. */
module Caches {

  /** An immediate integer, the address of a block, a boxed 64-bit integer, or data made by other code. */
  datatype Value = Imm(n: int) | Ptr(addr: nat) | Int64(bits: int) | Foreign(id: nat)

  /** Val_unit, Val_false, None and the empty list are the same immediate value. */
  const UNIT := Imm(0)

  const INITIAL_SLOTS: nat := 100

  datatype List<T> = Nil | Cons(head: T, tail: List<T>)

  function Length<T>(l: List<T>): nat {
    match l
    case Nil => 0
    case Cons(_, tail) => 1 + Length(tail)
  }

  ghost function Elements<T(!new)>(l: List<T>): set<T> {
    match l
    case Nil => {}
    case Cons(x, tail) => {x} + Elements(tail)
  }

  /** The values in slots below i that are not unit, highest slot first. */
  function LiveBelow(slots: seq<Value>, i: nat): List<Value>
    requires i <= |slots|
  {
    if i == 0 then Nil
    else if slots[i - 1] == UNIT then LiveBelow(slots, i - 1)
    else Cons(slots[i - 1], LiveBelow(slots, i - 1))
  }

  // ---------- the abstract map behind the slots ----------

  /** index sends keys to distinct used slots; used slots without a key hold unit. */
  ghost predicate Indexes(index: map<nat, nat>, slots: seq<Value>, nb: nat) {
    && nb <= |slots|
    && (forall k :: k in index ==> index[k] < nb)
    && (forall j, k :: j in index && k in index && j != k ==> index[j] != index[k])
    && (forall i :: 0 <= i < nb && slots[i] != UNIT ==> exists k :: k in index && index[k] == i)
  }

  ghost function Denotes(index: map<nat, nat>, slots: seq<Value>): map<nat, Value>
    requires forall k :: k in index ==> index[k] < |slots|
  {
    map k | k in index :: slots[index[k]]
  }

  ghost function LiveKeys(index: map<nat, nat>, slots: seq<Value>, i: nat): set<nat>
    requires i <= |slots|
  {
    set k | k in index && index[k] < i && slots[index[k]] != UNIT
  }

  /** One more slot shows one more live key, unless it holds unit. */
  lemma LiveKeysStep(index: map<nat, nat>, slots: seq<Value>, nb: nat, i: nat) returns (k: nat)
    requires Indexes(index, slots, nb) && i < nb
    ensures slots[i] == UNIT ==> LiveKeys(index, slots, i + 1) == LiveKeys(index, slots, i)
    ensures slots[i] != UNIT ==>
      k in index && index[k] == i && k !in LiveKeys(index, slots, i) &&
      LiveKeys(index, slots, i + 1) == LiveKeys(index, slots, i) + {k}
  {
    if slots[i] == UNIT {
      k := 0;
    } else {
      k :| k in index && index[k] == i;
    }
  }

  lemma {:induction false} ListingLength(index: map<nat, nat>, slots: seq<Value>, nb: nat, i: nat)
    requires Indexes(index, slots, nb) && i <= nb
    ensures Length(LiveBelow(slots, i)) == |LiveKeys(index, slots, i)|
  {
    if i == 0 {
      assert LiveKeys(index, slots, 0) == {};
    } else {
      hide Indexes, LiveKeys;
      ListingLength(index, slots, nb, i - 1);
      var k := LiveKeysStep(index, slots, nb, i - 1);
    }
  }

  lemma {:induction false} ListingElements(index: map<nat, nat>, slots: seq<Value>, nb: nat, i: nat, v: Value)
    requires Indexes(index, slots, nb) && i <= nb
    ensures v in Elements(LiveBelow(slots, i)) <==> exists k :: k in LiveKeys(index, slots, i) && slots[index[k]] == v
  {
    if i > 0 {
      ListingElements(index, slots, nb, i - 1, v);
      var k := LiveKeysStep(index, slots, nb, i - 1);
      if slots[i - 1] != UNIT {
        assert k in LiveKeys(index, slots, i);
      }
    }
  }

  ghost function LiveIn(m: map<nat, Value>): set<nat> {
    set k | k in m && m[k] != UNIT
  }

  /** The listing holds exactly the live values other than unit, one entry for each live key. */
  lemma ListingIsExact(index: map<nat, nat>, slots: seq<Value>, nb: nat, v: Value)
    requires Indexes(index, slots, nb)
    ensures Length(LiveBelow(slots, nb)) == |LiveIn(Denotes(index, slots))|
    ensures v in Elements(LiveBelow(slots, nb)) <==>
            exists k :: k in LiveIn(Denotes(index, slots)) && Denotes(index, slots)[k] == v
  {
    ListingLength(index, slots, nb, nb);
    ListingElements(index, slots, nb, nb, v);
    assert LiveKeys(index, slots, nb) == LiveIn(Denotes(index, slots));
  }

  // ---------- the order of the listing ----------

  function Items<T>(l: List<T>): seq<T> {
    match l
    case Nil => []
    case Cons(x, tail) => [x] + Items(tail)
  }

  ghost predicate Decreasing(order: seq<nat>) {
    forall i, j :: 0 <= i < j < |order| ==> order[i] > order[j]
  }

  /** l is what the slots in order hold. */
  ghost predicate Holds(slots: seq<Value>, order: seq<nat>, l: seq<Value>) {
    |l| == |order| && forall i :: 0 <= i < |order| ==> order[i] < |slots| && l[i] == slots[order[i]]
  }

  /** order are the slots of the live keys whose value is not unit, highest first, and l is what they hold. */
  ghost predicate ReadsOff(index: map<nat, nat>, slots: seq<Value>, nb: nat, order: seq<nat>, l: List<Value>)
    requires nb <= |slots|
  {
    && Decreasing(order) && Holds(slots, order, Items(l))
    && (forall x: nat :: x in order <==> x < nb && slots[x] != UNIT && exists k :: k in index && index[k] == x)
  }

  function Order(slots: seq<Value>, i: nat): (order: seq<nat>)
    requires i <= |slots|
    ensures forall x: nat :: x in order <==> x < i && slots[x] != UNIT
  {
    if i == 0 then []
    else if slots[i - 1] == UNIT then Order(slots, i - 1)
    else [i - 1] + Order(slots, i - 1)
  }

  lemma {:induction false} OrderDecreases(slots: seq<Value>, i: nat)
    requires i <= |slots|
    ensures Decreasing(Order(slots, i))
  {
    if i > 0 {
      OrderDecreases(slots, i - 1);
      var rest := Order(slots, i - 1);
      assert forall j :: 0 <= j < |rest| ==> rest[j] in rest;
    }
  }

  lemma {:induction false} OrderHolds(slots: seq<Value>, i: nat)
    requires i <= |slots|
    ensures Holds(slots, Order(slots, i), Items(LiveBelow(slots, i)))
  {
    if i > 0 {
      OrderHolds(slots, i - 1);
    }
  }

  /** The listing is read off the slots of the live keys, from the newest slot to the oldest. */
  lemma ListingIsReadOff(index: map<nat, nat>, slots: seq<Value>, nb: nat)
    requires Indexes(index, slots, nb)
    ensures exists order :: ReadsOff(index, slots, nb, order, LiveBelow(slots, nb))
  {
    var order := Order(slots, nb);
    OrderDecreases(slots, nb);
    OrderHolds(slots, nb);
    assert ReadsOff(index, slots, nb, order, LiveBelow(slots, nb));
  }

  // ---------- what the slot operations mean for the map ----------

  lemma Overwrite(index: map<nat, nat>, slots: seq<Value>, nb: nat, key: nat, v: Value)
    requires Indexes(index, slots, nb) && key in index
    ensures Indexes(index, slots[index[key] := v], nb)
    ensures Denotes(index, slots[index[key] := v]) == Denotes(index, slots)[key := v]
  {
  }

  lemma Append(index: map<nat, nat>, slots: seq<Value>, nb: nat, key: nat, v: Value)
    requires Indexes(index, slots, nb) && key !in index && nb < |slots|
    ensures Indexes(index[key := nb], slots[nb := v], nb + 1)
    ensures Denotes(index[key := nb], slots[nb := v]) == Denotes(index, slots)[key := v]
  {
    var index', slots' := index[key := nb], slots[nb := v];
    forall i | 0 <= i < nb + 1 && slots'[i] != UNIT ensures exists k :: k in index' && index'[k] == i {
      if i == nb {
        assert key in index' && index'[key] == i;
      } else {
        var k :| k in index && index[k] == i;
        assert k in index' && index'[k] == i;
      }
    }
  }

  lemma Erase(index: map<nat, nat>, slots: seq<Value>, nb: nat, key: nat)
    requires Indexes(index, slots, nb) && key in index
    ensures Indexes(index - {key}, slots[index[key] := UNIT], nb)
    ensures Denotes(index - {key}, slots[index[key] := UNIT]) == Denotes(index, slots) - {key}
  {
    var index', slots' := index - {key}, slots[index[key] := UNIT];
    forall i | 0 <= i < nb && slots'[i] != UNIT ensures exists k :: k in index' && index'[k] == i {
      var k :| k in index && index[k] == i;
      assert k in index';
    }
  }

  lemma Extend(index: map<nat, nat>, slots: seq<Value>, slots': seq<Value>, nb: nat)
    requires Indexes(index, slots, nb) && slots <= slots'
    ensures Indexes(index, slots', nb) && Denotes(index, slots') == Denotes(index, slots)
  {
  }

  class Cache {
    var index: map<nat, nat>
    var mlvalues: array<Value>
    var nb: nat
    /** Words copied so far by growing. */
    ghost var copied: nat

    ghost predicate Valid()
      reads this, mlvalues
    {
      && Indexes(index, mlvalues[..], nb)
      && mlvalues.Length >= INITIAL_SLOTS
      && copied == mlvalues.Length - INITIAL_SLOTS
      && (mlvalues.Length > INITIAL_SLOTS ==> mlvalues.Length < 2 * nb)
    }

    /** The finite map this cache stands for. */
    ghost function Contents(): map<nat, Value>
      reads this, mlvalues
      requires Valid()
    {
      Denotes(index, mlvalues[..])
    }

    constructor ()
      ensures Valid() && Contents() == map[] && fresh(mlvalues)
    {
      index, nb, copied := map[], 0, 0;
      mlvalues := new Value[INITIAL_SLOTS](_ => UNIT);
    }

    method Contains(key: nat) returns (hit: bool)
      requires Valid()
      ensures hit <==> key in Contents()
    {
      hit := key in index;
    }

    method Get(key: nat) returns (v: Value)
      requires Valid() && key in Contents()
      ensures v == Contents()[key]
    {
      v := mlvalues[index[key]];
    }

    /** Doubles the block and copies every word. */
    method Grow()
      requires Valid() && nb == mlvalues.Length
      modifies this
      ensures Indexes(index, mlvalues[..], nb) && fresh(mlvalues) && nb < mlvalues.Length < 2 * (nb + 1)
      ensures mlvalues.Length >= INITIAL_SLOTS && copied == mlvalues.Length - INITIAL_SLOTS
      ensures Denotes(index, mlvalues[..]) == old(Contents()) && index == old(index) && nb == old(nb)
    {
      var tmp := new Value[2 * mlvalues.Length](_ => UNIT);
      for i := 0 to mlvalues.Length
        modifies tmp
        invariant forall x :: 0 <= x < i ==> tmp[x] == mlvalues[x]
      {
        tmp[i] := mlvalues[i];
      }
      Extend(index, mlvalues[..], tmp[..], nb);
      copied := copied + mlvalues.Length;
      mlvalues := tmp;
    }

    /** Associates v with key, in its slot if key is present and else in a new one; the words copied stay below twice
        the slots used. */
    method Store(key: nat, v: Value)
      requires Valid()
      modifies this, mlvalues
      ensures Valid() && (mlvalues == old(mlvalues) || fresh(mlvalues))
      ensures Contents() == old(Contents())[key := v]
      ensures copied <= 2 * nb
      ensures key in old(index) ==> index == old(index) && nb == old(nb)
      ensures key !in old(index) ==> index == old(index)[key := old(nb)] && nb == old(nb) + 1
    {
      hide Denotes;
      if key in index {
        ghost var slots := mlvalues[..];
        Overwrite(index, slots, nb, key, v);
        mlvalues[index[key]] := v;
        assert mlvalues[..] == slots[index[key] := v];
      } else {
        if nb >= mlvalues.Length {
          Grow();
        }
        ghost var slots := mlvalues[..];
        Append(index, slots, nb, key, v);
        index := index[key := nb];
        mlvalues[nb] := v;
        assert mlvalues[..] == slots[nb := v];
        nb := nb + 1;
      }
    }

    method Uncache(key: nat)
      requires Valid() && key in Contents()
      modifies this, mlvalues
      ensures Valid() && mlvalues == old(mlvalues) && Contents() == old(Contents()) - {key}
      ensures index == old(index) - {key} && nb == old(nb)
    {
      ghost var slots := mlvalues[..];
      Erase(index, slots, nb, key);
      mlvalues[index[key]] := UNIT;
      assert mlvalues[..] == slots[index[key] := UNIT];
      index := index - {key};
    }

    /** Newest slot first. */
    method GetValues() returns (values: List<Value>)
      requires Valid()
      ensures exists order :: ReadsOff(index, mlvalues[..], nb, order, values)
      ensures values == LiveBelow(mlvalues[..], nb)
    {
      ListingIsReadOff(index, mlvalues[..], nb);
      values := Nil;
      for i := 0 to nb
        invariant values == LiveBelow(mlvalues[..], i)
      {
        var v := mlvalues[i];
        if v != UNIT {
          values := Cons(v, values);
        }
      }
    }
  }
}
