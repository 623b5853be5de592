/** How Python indexes a list. */
module PythonLists {

  /** i is a legal index of a list of length n: negative indices count from the end. */
  predicate Indexable(i: int, n: nat) {
    -(n as int) <= i < n
  }

  /** The position that i denotes. */
  function At(i: int, n: nat): nat
    requires Indexable(i, n)
  {
    if i < 0 then i + n else i
  }
}
