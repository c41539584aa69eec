/** Sequence helpers shared by the taxonomy and selection modules. */
module Lists {

  datatype Option<+T> = None | Some(value: T)

  function Min(a: int, b: int): int { if a <= b then a else b }

  function Last<T>(xs: seq<T>): T
    requires |xs| > 0
  {
    xs[|xs| - 1]
  }

  predicate NoDuplicates<T(==)>(xs: seq<T>) {
    forall i, j :: 0 <= i < j < |xs| ==> xs[i] != xs[j]
  }

  /** Python's `xs[:n]` for n >= 0. */
  function Take<T>(xs: seq<T>, n: nat): (r: seq<T>)
    ensures |r| == Min(n, |xs|) && r == xs[..|r|]
  {
    if n <= |xs| then xs[..n] else xs
  }

  /**
   * Order-preserving de-duplication keeping first occurrences: the list that a
   * loop appending every element not yet in a `seen` set produces.
   */
  function Dedup<T(==)>(xs: seq<T>): seq<T> {
    if |xs| == 0 then []
    else
      var rest := Dedup(xs[..|xs| - 1]);
      var x := xs[|xs| - 1];
      if x in rest then rest else rest + [x]
  }

  /** The de-duplicated list has the same elements as the input, each once. */
  lemma {:induction false} DedupShape<T>(xs: seq<T>)
    ensures forall x :: x in Dedup(xs) ==> x in xs
    ensures forall x :: x in xs ==> x in Dedup(xs)
    ensures NoDuplicates(Dedup(xs))
    ensures |Dedup(xs)| <= |xs|
  {
    if |xs| > 0 {
      var init := xs[..|xs| - 1];
      DedupShape(init);
      assert forall x :: x in xs <==> x in init || x == xs[|xs| - 1];
    }
  }

  lemma {:induction false} DedupOfDistinct<T>(xs: seq<T>)
    requires NoDuplicates(xs)
    ensures Dedup(xs) == xs
  {
    if |xs| > 0 {
      var init := xs[..|xs| - 1];
      DedupOfDistinct(init);
      assert xs[|xs| - 1] !in init;
      assert init + [xs[|xs| - 1]] == xs;
    }
  }

  /** Index of the first occurrence of `x` in `xs`. */
  function FirstIndex<T(==)>(xs: seq<T>, x: T): (i: nat)
    requires x in xs
    ensures i < |xs| && xs[i] == x && x !in xs[..i]
  {
    if xs[0] == x then 0
    else
      assert x in xs[1..];
      var k := FirstIndex(xs[1..], x);
      assert xs[..k + 1] == [xs[0]] + xs[1..][..k];
      k + 1
  }

  lemma FirstIndexOfPrefix<T>(xs: seq<T>, n: nat, x: T)
    requires n <= |xs| && x in xs[..n]
    ensures x in xs && FirstIndex(xs, x) == FirstIndex(xs[..n], x)
  {
    var i := FirstIndex(xs[..n], x);
    assert xs[..n][..i] == xs[..i];
  }

  /**
   * Dedup keeps elements in the order of their first occurrence in the input:
   * the "first-seen order" of the source's de-duplication loops.
   */
  lemma {:induction false} DedupFirstSeenOrder<T>(xs: seq<T>)
    ensures forall a, b :: 0 <= a < b < |Dedup(xs)| ==>
      Dedup(xs)[a] in xs && Dedup(xs)[b] in xs
      && FirstIndex(xs, Dedup(xs)[a]) < FirstIndex(xs, Dedup(xs)[b])
  {
    DedupShape(xs);
    if |xs| > 0 {
      var init := xs[..|xs| - 1];
      var x := xs[|xs| - 1];
      var rest := Dedup(init);
      DedupShape(init);
      DedupFirstSeenOrder(init);
      forall y | y in rest
        ensures y in init && y in xs && FirstIndex(xs, y) == FirstIndex(init, y) && FirstIndex(xs, y) < |xs| - 1
      {
        FirstIndexOfPrefix(xs, |xs| - 1, y);
      }
      if x !in rest {
        assert x !in init;
        assert FirstIndex(xs, x) == |xs| - 1;
        assert Dedup(xs) == rest + [x];
      } else {
        assert Dedup(xs) == rest;
      }
    }
  }

  /** Two duplicate-free lists with nothing in common concatenate without duplicates. */
  lemma NoDuplicatesConcat<T>(a: seq<T>, b: seq<T>)
    requires NoDuplicates(a) && NoDuplicates(b)
    requires forall x :: x in b ==> x !in a
    ensures NoDuplicates(a + b)
  {
    forall i, j | 0 <= i < j < |a + b|
      ensures (a + b)[i] != (a + b)[j]
    {
      if j < |a| {
        assert (a + b)[i] == a[i] && (a + b)[j] == a[j];
      } else if i < |a| {
        assert (a + b)[i] == a[i] && (a + b)[j] == b[j - |a|];
        assert b[j - |a|] in b;
      } else {
        assert (a + b)[i] == b[i - |a|] && (a + b)[j] == b[j - |a|];
      }
    }
  }

  /** Appending one element to the input appends it to the output unless already seen. */
  lemma DedupSnoc<T>(xs: seq<T>, x: T)
    ensures Dedup(xs + [x]) == if x in Dedup(xs) then Dedup(xs) else Dedup(xs) + [x]
  {
    assert (xs + [x])[..|xs|] == xs;
  }

  /** The source's `seen`-set de-duplication loop. */
  method RemoveDuplicates<T(==)>(xs: seq<T>) returns (unique: seq<T>)
    ensures unique == Dedup(xs)
  {
    var seen: set<T> := {};
    unique := [];
    for i := 0 to |xs|
      invariant unique == Dedup(xs[..i])
      invariant seen == set y | y in unique
    {
      assert xs[..i + 1][..i] == xs[..i];
      if xs[i] !in seen {
        seen := seen + {xs[i]};
        unique := unique + [xs[i]];
      }
    }
    assert xs[..|xs|] == xs;
  }
}
