/** Facts about sequences and sets that the proofs about work lists, frames and the registry share. */
module Sequences {

  /** Concatenation regroups freely. */
  lemma ConcatAssoc<T>(a: seq<T>, b: seq<T>, c: seq<T>)
    ensures (a + b) + c == a + (b + c)
  {
  }

  /** The front and the remainder of a concatenation with a non-empty left part. */
  lemma ConcatFront<T>(a: seq<T>, b: seq<T>)
    requires a != []
    ensures (a + b)[0] == a[0] && (a + b)[1..] == a[1..] + b
  {
  }

  /** Splitting the tail of `x + part` after `r` splits the whole after `x + r`. */
  lemma ConcatChain<T>(whole: seq<T>, part: seq<T>, front: seq<T>, x: seq<T>, r: seq<T>, t: seq<T>)
    requires whole == x + part && part == r + t && front == x + r
    ensures whole == front + t
  {
  }

  /** A prefix of `a` one longer than one of its tail `b` is `a`'s head, then that prefix of `b`. */
  lemma PrefixAfterHead<T>(a: seq<T>, b: seq<T>, k: nat)
    requires a != [] && a[1..] == b && k <= |b|
    ensures a[..k + 1] == [a[0]] + b[..k]
  {
  }

  /** A prefix of a prefix is a prefix. */
  lemma PrefixOfPrefix<T>(a: seq<T>, b: seq<T>, c: seq<T>)
    requires |c| <= |b| <= |a| && a[..|b|] == b && b[..|c|] == c
    ensures a[..|c|] == c
  {
    assert a[..|c|] == a[..|b|][..|c|];
  }

  /** A union is no larger than its parts together. */
  lemma {:induction false} SetUnionSize<T>(a: set<T>, b: set<T>)
    ensures |a + b| <= |a| + |b|
  {
    if b != {} {
      var x :| x in b;
      SetUnionSize(a, b - {x});
      assert a + b == (a + (b - {x})) + {x};
    }
  }

  /** `g` applied to every element, in order. */
  function MapSeq<A, B>(g: A -> B, xs: seq<A>): (r: seq<B>)
    ensures |r| == |xs|
    ensures forall i :: 0 <= i < |xs| ==> r[i] == g(xs[i])
  {
    if xs == [] then [] else [g(xs[0])] + MapSeq(g, xs[1..])
  }
}
