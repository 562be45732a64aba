/** Small facts about sequence concatenation, stated for any element type so
    that the verifier need not look inside the elements. */
module Seqs {

  lemma AppendAssoc<E>(u: seq<E>, v: seq<E>, w: seq<E>)
    ensures u + (v + w) == (u + v) + w
  {
  }

  lemma DropAppend<E>(u: seq<E>, v: seq<E>, n: nat)
    requires n <= |u|
    ensures (u + v)[n..] == u[n..] + v
  {
  }

  lemma TakeAppend<E>(u: seq<E>, v: seq<E>, n: nat)
    requires n <= |u|
    ensures (u + v)[..n] == u[..n]
  {
  }

  lemma TakeOfDrop<E>(s: seq<E>, i: nat, n: nat)
    requires i + n <= |s|
    ensures s[i..][..n] == s[i..i + n]
  {
  }

  /** `f` applied to every element, in order. */
  function Map<A, B>(s: seq<A>, f: A -> B): (r: seq<B>)
    ensures |r| == |s|
    ensures forall k :: 0 <= k < |r| ==> r[k] == f(s[k])
  {
    if s == [] then [] else [f(s[0])] + Map(s[1..], f)
  }

  lemma MapAppend<A, B>(a: seq<A>, b: seq<A>, f: A -> B)
    ensures Map(a + b, f) == Map(a, f) + Map(b, f)
  {
  }

  /** The first element of `a` sits somewhere in a permutation `b` of it,
      and the rests are permutations of each other. */
  lemma PermutationHead<T>(a: seq<T>, b: seq<T>) returns (i: nat)
    requires multiset(a) == multiset(b) && a != []
    ensures i < |b| && b[i] == a[0]
    ensures multiset(a[1..]) == multiset(b[..i] + b[i + 1..])
  {
    assert a[0] in multiset(b);
    i :| 0 <= i < |b| && b[i] == a[0];
    assert b == b[..i] + [b[i]] + b[i + 1..];
    assert a == [a[0]] + a[1..];
    assert multiset(b) == multiset(b[..i]) + multiset{b[i]} + multiset(b[i + 1..]);
    assert multiset(a) == multiset{a[0]} + multiset(a[1..]);
    assert multiset(b[..i] + b[i + 1..]) == multiset(b[..i]) + multiset(b[i + 1..]);
    assert multiset(a[1..]) == multiset(a) - multiset{a[0]};
  }

  /** Mapping a permutation gives a permutation. */
  lemma {:induction false} MapPermutation<A, B>(a: seq<A>, b: seq<A>, f: A -> B)
    requires multiset(a) == multiset(b)
    ensures multiset(Map(a, f)) == multiset(Map(b, f))
    decreases |a|
  {
    if a == [] {
      assert |b| == |multiset(b)|;
    } else {
      var i := PermutationHead(a, b);
      var b1, b2 := b[..i], b[i + 1..];
      assert b == b1 + [b[i]] + b2;
      MapPermutation(a[1..], b1 + b2, f);
      MapAppend(b1 + [b[i]], b2, f);
      MapAppend(b1, [b[i]], f);
      MapAppend(b1, b2, f);
      assert Map(a, f) == [f(a[0])] + Map(a[1..], f);
    }
  }
}
