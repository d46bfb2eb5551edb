/** Sequences: repetition, and how concatenations come apart. */
module Seqs {

  predicate Distinct<T(==)>(q: seq<T>) {
    forall i, j :: 0 <= i < j < |q| ==> q[i] != q[j]
  }

  /** list.remove() on a list that holds the element at most once. */
  function Without<T(!new,==)>(q: seq<T>, x: T): (r: seq<T>)
    ensures forall y :: y in r <==> y in q && y != x
    ensures Distinct(q) ==> Distinct(r)
  {
    if q == [] then []
    else
      var r := Without(q[1..], x);
      assert Distinct(q) ==> Distinct(q[1..]) && q[0] !in q[1..];
      if q[0] == x then r else [q[0]] + r
  }

  lemma DistinctTail<T>(q: seq<T>)
    requires Distinct(q) && q != []
    ensures Distinct(q[1..]) && q[0] !in q[1..]
    ensures forall x :: x in q <==> x == q[0] || x in q[1..]
  {
  }

  lemma DistinctAppend<T>(q: seq<T>, x: T)
    requires Distinct(q) && x !in q
    ensures Distinct(q + [x])
    ensures forall y :: y in q + [x] <==> y == x || y in q
  {
  }

  /** Taking the first element off a concatenation. */
  lemma ConcatTail<T>(a: seq<T>, b: seq<T>, both: seq<T>)
    requires a != [] && both == a + b
    ensures both != [] && both[0] == a[0] && both[1..] == a[1..] + b
  {
  }

  lemma ConcatNothing<T>(a: seq<T>, b: seq<T>, both: seq<T>)
    requires a == [] && both == a + b
    ensures both == b
  {
  }

  /** Taking the last element off a concatenation. */
  lemma ConcatInit<T>(a: seq<T>, b: seq<T>, both: seq<T>)
    requires b != [] && both == a + b
    ensures both != [] && both[|both| - 1] == b[|b| - 1] && both[..|both| - 1] == a + b[..|b| - 1]
  {
  }

  lemma ConcatNone<T>(a: seq<T>, b: seq<T>)
    requires b == []
    ensures a + b == a
  {
  }

  lemma PrefixOfPrefix<T>(s: seq<T>, n: nat, i: nat)
    requires i <= n <= |s|
    ensures s[..n][..i] == s[..i]
  {
  }

  lemma ConcatAssoc<T>(x: seq<T>, y: seq<T>, z: seq<T>)
    ensures x + (y + z) == (x + y) + z
  {
  }
}
