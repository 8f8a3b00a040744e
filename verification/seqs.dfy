/** Sequence helpers shared by the table stages: search, filtering and mapping. */
module Seqs {
  import opened Wrappers

  /** The first position of `x` in `s`, if any. */
  function IndexOf<T(==)>(s: seq<T>, x: T): (r: Option<nat>)
    ensures r.None? <==> x !in s
    ensures r.Some? ==> r.value < |s| && s[r.value] == x && x !in s[..r.value]
  {
    if s == [] then None
    else if s[0] == x then Some(0)
    else match IndexOf(s[1..], x)
      case None => None
      case Some(k) =>
        assert s[..k + 1] == [s[0]] + s[1..][..k];
        Some(k + 1)
  }

  /** The first position whose element satisfies `p`, if any. */
  function FindFirst<T>(s: seq<T>, p: T -> bool): (r: Option<nat>)
    ensures r.None? <==> forall i :: 0 <= i < |s| ==> !p(s[i])
    ensures r.Some? ==> r.value < |s| && p(s[r.value]) && forall i :: 0 <= i < r.value ==> !p(s[i])
  {
    if s == [] then None
    else if p(s[0]) then Some(0)
    else match FindFirst(s[1..], p)
      case None => None
      case Some(k) => Some(k + 1)
  }

  /** When `p` holds at `j` and nowhere else, the search finds `j`. */
  lemma FindFirstUnique<T>(s: seq<T>, p: T -> bool, j: nat)
    requires j < |s| && p(s[j])
    requires forall i :: 0 <= i < |s| && i != j ==> !p(s[i])
    ensures FindFirst(s, p) == Some(j)
  {
    var k := FindFirst(s, p);
    assert k.Some? && k.value <= j;
  }

  /** The elements of `s` that satisfy `p`, in their original order. */
  function Filter<T(==, !new)>(s: seq<T>, p: T -> bool): (r: seq<T>)
    ensures |r| <= |s|
    ensures forall x :: x in r <==> x in s && p(x)
    ensures multiset(r) <= multiset(s)
  {
    if s == [] then []
    else
      assert s == [s[0]] + s[1..];
      (if p(s[0]) then [s[0]] else []) + Filter(s[1..], p)
  }

  /** Filtering commutes with concatenation, so relative order is kept. */
  lemma {:induction false} FilterConcat<T(!new)>(a: seq<T>, b: seq<T>, p: T -> bool)
    ensures Filter(a + b, p) == Filter(a, p) + Filter(b, p)
  {
    if a == [] {
      assert a + b == b;
    } else {
      assert (a + b)[1..] == a[1..] + b;
      FilterConcat(a[1..], b, p);
    }
  }

  /** `f` applied to every element of `s`. */
  function MapSeq<A, B>(f: A -> B, s: seq<A>): (r: seq<B>)
    ensures |r| == |s| && forall i :: 0 <= i < |s| ==> r[i] == f(s[i])
  {
    if s == [] then [] else [f(s[0])] + MapSeq(f, s[1..])
  }

  lemma {:induction false} MapConcat<A, B>(f: A -> B, a: seq<A>, b: seq<A>)
    ensures MapSeq(f, a + b) == MapSeq(f, a) + MapSeq(f, b)
  {
    if a != [] {
      assert (a + b)[1..] == a[1..] + b;
      MapConcat(f, a[1..], b);
    } else {
      assert a + b == b;
    }
  }

  /** Taking out the element at `j` takes one copy of it out of the multiset. */
  lemma RemoveAt<A>(b: seq<A>, j: nat)
    requires j < |b|
    ensures b == b[..j] + [b[j]] + b[j + 1..]
    ensures multiset(b[..j] + b[j + 1..]) == multiset(b) - multiset{b[j]}
  {
    assert b == b[..j] + [b[j]] + b[j + 1..];
  }

  /** Mapping two permutations of each other gives permutations of each other. */
  lemma {:induction false} PermutationMap<A, B>(f: A -> B, a: seq<A>, b: seq<A>)
    requires multiset(a) == multiset(b)
    ensures multiset(MapSeq(f, a)) == multiset(MapSeq(f, b))
    decreases |a|
  {
    if a == [] {
      assert |multiset(b)| == 0;
      assert b == [];
    } else {
      var x := a[0];
      assert x in multiset(b);
      var j :| 0 <= j < |b| && b[j] == x;
      var rest := b[..j] + b[j + 1..];
      RemoveAt(b, j);
      RemoveAt(a, 0);
      assert a[..0] + a[1..] == a[1..];
      PermutationMap(f, a[1..], rest);
      var left, right := MapSeq(f, b[..j]), MapSeq(f, b[j + 1..]);
      assert MapSeq(f, a) == [f(x)] + MapSeq(f, a[1..]);
      MapConcat(f, b[..j] + [x], b[j + 1..]);
      MapConcat(f, b[..j], [x]);
      assert MapSeq(f, [x]) == [f(x)];
      assert MapSeq(f, b) == left + [f(x)] + right;
      MapConcat(f, b[..j], b[j + 1..]);
      assert MapSeq(f, rest) == left + right;
      Reinsert(f(x), MapSeq(f, a[1..]), left, right);
    }
  }

  lemma Reinsert<B>(y: B, tail: seq<B>, left: seq<B>, right: seq<B>)
    requires multiset(tail) == multiset(left + right)
    ensures multiset([y] + tail) == multiset(left + [y] + right)
  {
    assert multiset([y] + tail) == multiset{y} + multiset(tail);
    assert multiset(left + right) == multiset(left) + multiset(right);
    assert multiset(left + [y] + right) == multiset(left) + multiset{y} + multiset(right);
  }

  /** 1, 2, ..., n: the positional ranks of an n-row table. */
  function OneTo(n: nat): (r: seq<int>)
    ensures |r| == n && forall i :: 0 <= i < n ==> r[i] == i + 1
  {
    seq(n, i => i + 1)
  }

  /** A map that `g` cannot see through changes nothing `g` reports. */
  lemma MapSeqAbsorb<A, B>(f: A -> A, g: A -> B, s: seq<A>)
    requires forall x :: g(f(x)) == g(x)
    ensures MapSeq(g, MapSeq(f, s)) == MapSeq(g, s)
  {
  }

  /** A value at two positions is counted twice. */
  lemma TwoCopies<T>(t: seq<T>, i: nat, j: nat)
    requires i < j < |t| && t[i] == t[j]
    ensures multiset(t)[t[i]] >= 2
  {
    assert t == t[..j] + t[j..];
    assert t[i] in t[..j] && t[j] in t[j..];
    assert multiset(t[..j])[t[i]] >= 1 && multiset(t[j..])[t[i]] >= 1;
  }

  /** 1..n holds each value at most once. */
  lemma {:induction false} OneToOnce(n: nat, v: int)
    ensures multiset(OneTo(n))[v] <= 1
    ensures multiset(OneTo(n))[v] == 1 <==> 1 <= v <= n
  {
    if n > 0 {
      OneToOnce(n - 1, v);
      assert OneTo(n) == OneTo(n - 1) + [n];
      assert n !in OneTo(n - 1);
    }
  }

  /** A sequence whose values are a permutation of 1..n holds each of
      1..n exactly once and nothing else. */
  lemma PermutationOfOneTo(t: seq<int>)
    requires multiset(t) == multiset(OneTo(|t|))
    ensures forall i :: 0 <= i < |t| ==> 1 <= t[i] <= |t|
    ensures forall i, j :: 0 <= i < j < |t| ==> t[i] != t[j]
    ensures forall v :: 1 <= v <= |t| ==> v in t
  {
    forall i | 0 <= i < |t| ensures 1 <= t[i] <= |t| {
      assert t[i] in multiset(t);
      OneToOnce(|t|, t[i]);
    }
    forall i, j | 0 <= i < j < |t| ensures t[i] != t[j] {
      if t[i] == t[j] {
        TwoCopies(t, i, j);
        OneToOnce(|t|, t[i]);
      }
    }
    forall v | 1 <= v <= |t| ensures v in t {
      OneToOnce(|t|, v);
      assert v in multiset(t);
    }
  }
}
