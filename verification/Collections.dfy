/** Ranges of numbers, lists of the elements of a set, and products of lists. */
module Collections {

  function Range(n: nat): (r: set<nat>)
    ensures forall y: nat :: y in r <==> y < n
  {
    if n == 0 then {} else Range(n - 1) + {n - 1}
  }

  /** The elements in some order. */
  method ListOf<T(==)>(xs: set<T>) returns (r: seq<T>)
    ensures |r| == |xs| && forall x :: x in r <==> x in xs
    ensures forall i, j | 0 <= i < j < |r| :: r[i] != r[j]
  {
    r := [];
    var rest := xs;
    while rest != {}
      invariant rest <= xs && |r| + |rest| == |xs|
      invariant forall x :: x in r <==> x in xs - rest
      invariant forall i, j | 0 <= i < j < |r| :: r[i] != r[j]
      decreases rest
    {
      var x :| x in rest;
      assert x !in r;
      r := r + [x];
      rest := rest - {x};
    }
  }

  /** All ways to pick one element of every list (itertools.product). */
  function Product<T>(lists: seq<seq<T>>): seq<seq<T>> {
    if lists == [] then [[]] else Prefixed(lists[0], Product(lists[1..]))
  }

  function Prefixed<T>(heads: seq<T>, tails: seq<seq<T>>): seq<seq<T>> {
    if heads == [] then [] else Prepended(heads[0], tails) + Prefixed(heads[1..], tails)
  }

  function Prepended<T>(x: T, tails: seq<seq<T>>): (r: seq<seq<T>>)
    ensures |r| == |tails| && forall i | 0 <= i < |r| :: r[i] == [x] + tails[i]
  {
    seq(|tails|, i requires 0 <= i < |tails| => [x] + tails[i])
  }

  lemma {:induction false} InPrefixed<T>(heads: seq<T>, tails: seq<seq<T>>, x: seq<T>)
    ensures x in Prefixed(heads, tails) <==> x != [] && x[0] in heads && x[1..] in tails
  {
    if heads != [] {
      InPrefixed(heads[1..], tails, x);
      if x != [] && x[0] == heads[0] && x[1..] in tails {
        var i :| 0 <= i < |tails| && tails[i] == x[1..];
        assert Prepended(heads[0], tails)[i] == x;
      }
    }
  }

  ghost predicate Picks<T>(x: seq<T>, lists: seq<seq<T>>) {
    |x| == |lists| && forall i | 0 <= i < |x| :: x[i] in lists[i]
  }

  lemma PicksTail<T>(x: seq<T>, lists: seq<seq<T>>)
    requires x != [] && lists != []
    ensures Picks(x, lists) <==> x[0] in lists[0] && Picks(x[1..], lists[1..])
  {
    if x[0] in lists[0] && Picks(x[1..], lists[1..]) {
      forall i | 0 <= i < |x|
        ensures x[i] in lists[i]
      {
        assert i > 0 ==> x[1..][i - 1] in lists[1..][i - 1];
      }
    }
  }

  /** The product holds exactly the choices of one element from each list. */
  lemma {:induction false} InProduct<T>(lists: seq<seq<T>>, x: seq<T>)
    ensures x in Product(lists) <==> Picks(x, lists)
  {
    if lists != [] {
      InPrefixed(lists[0], Product(lists[1..]), x);
      if x != [] {
        InProduct(lists[1..], x[1..]);
        PicksTail(x, lists);
      }
    }
  }
}
