/** Concatenation and sums over sequences, with the facts the framing proofs use. */
module Seqs {

  function Concat<T>(ss: seq<seq<T>>): (r: seq<T>)
  {
    if ss == [] then [] else ss[0] + Concat(ss[1..])
  }

  function Sum(xs: seq<int>): int
  {
    if xs == [] then 0 else xs[0] + Sum(xs[1..])
  }

  function MapSeq<A, B>(f: A -> B, xs: seq<A>): (r: seq<B>)
    ensures |r| == |xs|
    ensures forall i :: 0 <= i < |xs| ==> r[i] == f(xs[i])
  {
    if xs == [] then [] else [f(xs[0])] + MapSeq(f, xs[1..])
  }

  lemma {:induction false} ConcatAppend<T>(a: seq<seq<T>>, b: seq<seq<T>>)
    ensures Concat(a + b) == Concat(a) + Concat(b)
  {
    if a != [] {
      assert (a + b)[0] == a[0] && (a + b)[1..] == a[1..] + b;
      ConcatAppend(a[1..], b);
    } else {
      assert a + b == b;
    }
  }

  lemma ConcatSnoc<T>(a: seq<seq<T>>, x: seq<T>)
    ensures Concat(a + [x]) == Concat(a) + x
  {
    ConcatAppend(a, [x]);
    assert Concat([x]) == x + Concat([]);
  }

  /** One more element of a prefix adds its concatenation at the end. */
  lemma ConcatPrefix<T>(a: seq<seq<T>>, n: nat)
    requires n < |a|
    ensures Concat(a[..n + 1]) == Concat(a[..n]) + a[n]
  {
    assert a[..n + 1] == a[..n] + [a[n]];
    ConcatSnoc(a[..n], a[n]);
  }

  lemma {:induction false} SumAppend(a: seq<int>, b: seq<int>)
    ensures Sum(a + b) == Sum(a) + Sum(b)
  {
    if a != [] {
      assert (a + b)[0] == a[0] && (a + b)[1..] == a[1..] + b;
      SumAppend(a[1..], b);
    } else {
      assert a + b == b;
    }
  }

  lemma SumSnoc(a: seq<int>, x: int)
    ensures Sum(a + [x]) == Sum(a) + x
  {
    SumAppend(a, [x]);
  }

  lemma {:induction false} MapSeqAppend<A, B>(f: A -> B, a: seq<A>, b: seq<A>)
    ensures MapSeq(f, a + b) == MapSeq(f, a) + MapSeq(f, b)
  {
  }

  /** Concatenation is associative. */
  lemma AppendAssoc<T>(a: seq<T>, b: seq<T>, c: seq<T>)
    ensures a + (b + c) == (a + b) + c
  {
  }

  /** A slice that is three pieces in a row splits into those pieces. */
  lemma ThreeParts<T>(s: seq<T>, pos: nat, a: seq<T>, b: seq<T>, c: seq<T>)
    requires pos <= |s| && s[pos..] == a + b + c
    ensures pos + |a| + |b| <= |s|
    ensures s[pos..pos + |a|] == a
    ensures s[pos + |a|..pos + |a| + |b|] == b
    ensures s[pos + |a| + |b|..] == c
  {
    assert s[pos..pos + |a|] == s[pos..][..|a|];
    assert s[pos + |a|..pos + |a| + |b|] == s[pos..][|a|..|a| + |b|];
    assert s[pos + |a| + |b|..] == s[pos..][|a| + |b|..];
  }
}
