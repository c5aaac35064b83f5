/** Reorderings of sequences, as equal multisets. */
module Permutations {

  /**
   * When `b` reorders `a`, the last element of `a` sits somewhere in `b`, and
   * the rest of `a` reorders what is left of `b` around it.
   */
  lemma TakeOut<T>(a: seq<T>, b: seq<T>) returns (front: seq<T>, back: seq<T>)
    requires a != [] && multiset(a) == multiset(b)
    ensures b == front + [a[|a| - 1]] + back
    ensures multiset(a[..|a| - 1]) == multiset(front + back)
    ensures |front + back| < |a|
  {
    var x := a[|a| - 1];
    var init := a[..|a| - 1];
    assert a == init + [x];
    assert x in multiset(b);
    var j :| 0 <= j < |b| && b[j] == x;
    front, back := b[..j], b[j + 1..];
    assert b == front + [x] + back;
    calc {
      multiset(init);
      multiset(init + [x]) - multiset{x};
      multiset(front + [x] + back) - multiset{x};
      multiset(front) + multiset(back);
      multiset(front + back);
    }
  }

  /** Only the empty sequence reorders the empty sequence. */
  lemma EmptyReorder<T>(a: seq<T>, b: seq<T>)
    requires a == [] && multiset(a) == multiset(b)
    ensures b == []
  {
    assert |b| == |multiset(b)| == 0;
  }
}
