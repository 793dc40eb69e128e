/** Order-preserving removal of repeats, as done with a `seen` set or with insertion-ordered dictionary keys. */
module Sequences {

  /** No element occurs twice. */
  predicate Distinct<T(==)>(xs: seq<T>) {
    forall i, j :: 0 <= i < j < |xs| ==> xs[i] != xs[j]
  }

  /** The index where `x` first occurs in `xs`, or `|xs|` if it does not occur. */
  function FirstIndex<T(==)>(xs: seq<T>, x: T): (i: nat)
    ensures i <= |xs| && (i < |xs| ==> xs[i] == x)
    ensures forall j :: 0 <= j < i ==> xs[j] != x
  {
    if xs == [] then 0 else if xs[0] == x then 0 else 1 + FirstIndex(xs[1..], x)
  }

  /** Each element of `xs` once, kept where it first occurs. */
  function Dedup<T(==)>(xs: seq<T>): seq<T>
    decreases |xs|
  {
    if xs == [] then []
    else
      var init := xs[..|xs| - 1];
      if xs[|xs| - 1] in init then Dedup(init) else Dedup(init) + [xs[|xs| - 1]]
  }

  /** `Dedup` keeps exactly the elements of `xs`, each once. */
  lemma {:induction false} DedupMembers<T>(xs: seq<T>)
    ensures Distinct(Dedup(xs))
    ensures forall x :: x in Dedup(xs) ==> x in xs
    ensures forall x :: x in xs ==> x in Dedup(xs)
    decreases |xs|
  {
    if xs != [] {
      var init := xs[..|xs| - 1];
      DedupMembers(init);
      assert xs == init + [xs[|xs| - 1]];
    }
  }

  lemma FirstIndexOfPrefix<T>(xs: seq<T>, n: nat, x: T)
    requires n <= |xs| && x in xs[..n]
    ensures FirstIndex(xs, x) == FirstIndex(xs[..n], x) < n
  {
    var i := FirstIndex(xs[..n], x);
    assert xs[i] == x;
    var f := FirstIndex(xs, x);
    assert f <= i;
    assert xs[..n][f] == x;
  }

  /** `Dedup` lists the elements in the order of their first occurrences in `xs`. */
  lemma {:induction false} DedupOrder<T>(xs: seq<T>)
    ensures forall i, j :: 0 <= i < j < |Dedup(xs)| ==> FirstIndex(xs, Dedup(xs)[i]) < FirstIndex(xs, Dedup(xs)[j])
    decreases |xs|
  {
    DedupMembers(xs);
    if xs != [] {
      var n := |xs| - 1;
      var init := xs[..n];
      DedupOrder(init);
      DedupMembers(init);
      var d := Dedup(xs);
      var di := Dedup(init);
      forall i, j | 0 <= i < j < |d|
        ensures FirstIndex(xs, d[i]) < FirstIndex(xs, d[j])
      {
        assert d == di || d == di + [xs[n]];
        assert i < |di| && d[i] == di[i] && di[i] in di;
        FirstIndexOfPrefix(xs, n, d[i]);
        if j < |di| {
          assert d[j] == di[j] && di[j] in di;
          FirstIndexOfPrefix(xs, n, d[j]);
          assert FirstIndex(init, di[i]) < FirstIndex(init, di[j]);
        } else {
          assert d[j] == xs[n] && xs[n] !in init;
          assert FirstIndex(xs, d[j]) == n;
          assert FirstIndex(xs, d[i]) == FirstIndex(init, d[i]) < n;
        }
      }
    }
  }
}
