/** All divisors of a number, found in pairs up to the square root and then sorted. */
module Divisors {
  import opened Factorization

  ghost predicate Increasing(s: seq<nat>) {
    forall i, j :: 0 <= i < j < |s| ==> s[i] < s[j]
  }

  ghost predicate Distinct(s: seq<nat>) {
    forall i, j :: 0 <= i < j < |s| ==> s[i] != s[j]
  }

  function Insert(x: nat, s: seq<nat>): (r: seq<nat>)
    requires Increasing(s) && x !in s
    ensures Increasing(r) && forall y :: y in r <==> y == x || y in s
  {
    if s == [] || x < s[0] then [x] + s
    else
      var r := Insert(x, s[1..]);
      assert forall i :: 0 <= i < |r| ==> r[i] in r;
      [s[0]] + r
  }

  /** The elements of s in increasing order. */
  function Sorted(s: seq<nat>): (r: seq<nat>)
    requires Distinct(s)
    ensures Increasing(r) && forall y :: y in r <==> y in s
  {
    if s == [] then []
    else
      assert s[0] !in s[1..];
      Insert(s[0], Sorted(s[1..]))
  }

  /** m or its cofactor has been tried. */
  ghost predicate Tried(m: nat, n: int, d: nat) {
    m >= 1 && n >= 1 && Divides(m, n) && (m < d || n / m < d)
  }

  lemma CofactorOfCofactor(d: nat, n: nat)
    requires d >= 1 && n >= 1 && Divides(d, n)
    ensures n / d >= 1 && Divides(n / d, n) && n / (n / d) == d
  {
    DivideOut(d, n);
    assert n == (n / d) * d;
    DividesMultiple(n / d, d);
  }

  /** Trying d settles d and its cofactor, and nothing else. */
  lemma TryOne(m: nat, n: nat, d: nat)
    requires d >= 1 && n >= 1
    ensures Tried(m, n, d + 1) <==> Tried(m, n, d) || (Divides(d, n) && (m == d || m == n / d))
  {
    if Divides(d, n) {
      CofactorOfCofactor(d, n);
    }
    if m >= 1 && Divides(m, n) {
      CofactorOfCofactor(m, n);
    }
  }

  lemma NotYetTried(d: nat, n: nat)
    requires d >= 1 && d * d <= n && Divides(d, n)
    ensures !Tried(d, n, d) && !Tried(n / d, n, d) && (d == n / d <==> d * d == n)
  {
    CofactorOfCofactor(d, n);
    DivideOut(d, n);
    var k := n / d;
    if k < d {
      StrictlyMonotone(d, k, d);
    }
    if k != d && d * d == n {
      Cancel(d, k, d);
    }
  }

  lemma AllTried(m: nat, n: nat, d: nat)
    requires m >= 1 && n >= 1 && Divides(m, n) && d * d > n
    ensures Tried(m, n, d)
  {
    DivideOut(m, n);
    if m >= d && n / m >= d {
      ProductMonotone(d, d, m, n / m);
    }
  }

  /** The result lists exactly the positive divisors of n, each once and in increasing order. */
  method GetAllDivisors(n: int) returns (result: seq<nat>)
    ensures Increasing(result)
    ensures forall m: nat :: m in result <==> m >= 1 && n >= 1 && Divides(m, n)
  {
    var divisors: seq<nat> := [];
    var d: nat := 1;
    while d * d <= n
      invariant d >= 1 && Distinct(divisors)
      invariant forall m: nat :: m in divisors <==> Tried(m, n, d)
      decreases n + 1 - d
    {
      SquareBound(d, n);
      forall m: nat ensures Tried(m, n, d + 1) <==> Tried(m, n, d) || (Divides(d, n) && (m == d || m == n / d)) {
        TryOne(m, n, d);
      }
      if n % d == 0 {
        NotYetTried(d, n);
        divisors := divisors + [d];
        if d * d != n {
          divisors := divisors + [n / d];
        }
      }
      d := d + 1;
    }
    forall m: nat | m >= 1 && n >= 1 && Divides(m, n) ensures m in divisors {
      AllTried(m, n, d);
    }
    result := Sorted(divisors);
  }
}
