/** Order-preserving sequence operations the source gets from `Array.prototype.filter` and
    from concatenating arrays, with the facts the rest of the model uses about them. */
module Seqs {

  /** The elements of `s` that satisfy `p`, in their original order. */
  function Filter<T(!new)>(s: seq<T>, p: T -> bool): (r: seq<T>)
    ensures |r| <= |s|
    ensures forall x :: x in r <==> x in s && p(x)
    decreases |s|
  {
    if s == [] then []
    else
      var rest := Filter(s[..|s| - 1], p);
      if p(s[|s| - 1]) then rest + [s[|s| - 1]] else rest
  }

  /** Where the parts of a concatenation sit. */
  lemma AppendedAt<T>(a: seq<T>, b: seq<T>)
    ensures (a + b)[..|a|] == a
    ensures forall k :: 0 <= k < |b| ==> (a + b)[|a| + k] == b[k]
  {
  }

  lemma FilterSnoc<T(!new)>(s: seq<T>, x: T, p: T -> bool)
    ensures Filter(s + [x], p) == Filter(s, p) + (if p(x) then [x] else [])
  {
    assert (s + [x])[..|s|] == s;
  }

  /** Filtering distributes over concatenation: what is kept from `a` stays before what is kept from `b`. */
  lemma {:induction false} FilterConcat<T(!new)>(a: seq<T>, b: seq<T>, p: T -> bool)
    ensures Filter(a + b, p) == Filter(a, p) + Filter(b, p)
    decreases |b|
  {
    if b == [] {
      assert a + b == a;
    } else {
      var b0, x := b[..|b| - 1], b[|b| - 1];
      assert b == b0 + [x];
      assert a + b == (a + b0) + [x];
      FilterConcat(a, b0, p);
      FilterSnoc(a + b0, x, p);
      FilterSnoc(b0, x, p);
      var fa, fb, tail := Filter(a, p), Filter(b0, p), if p(x) then [x] else [];
      assert (fa + fb) + tail == fa + (fb + tail);
    }
  }

  /** Nothing is removed when every element passes. */
  lemma {:induction false} FilterAllKept<T(!new)>(s: seq<T>, p: T -> bool)
    requires forall k :: 0 <= k < |s| ==> p(s[k])
    ensures Filter(s, p) == s
    decreases |s|
  {
    if s != [] {
      FilterAllKept(s[..|s| - 1], p);
      assert s[..|s| - 1] + [s[|s| - 1]] == s;
    }
  }

  /** Everything is removed when no element passes. */
  lemma {:induction false} FilterNoneKept<T(!new)>(s: seq<T>, p: T -> bool)
    requires forall k :: 0 <= k < |s| ==> !p(s[k])
    ensures Filter(s, p) == []
    decreases |s|
  {
    if s != [] {
      FilterNoneKept(s[..|s| - 1], p);
    }
  }

  /** The concatenation of `ss`, first sequence first. */
  function Flatten<T>(ss: seq<seq<T>>): seq<T>
    decreases |ss|
  {
    if ss == [] then [] else Flatten(ss[..|ss| - 1]) + ss[|ss| - 1]
  }

  /** Growing one of the sequences by `x` grows the multiset of the concatenation by `x`. */
  lemma {:induction false} FlattenGrowOne<T>(ss: seq<seq<T>>, b: nat, x: T)
    requires b < |ss|
    ensures multiset(Flatten(ss[b := ss[b] + [x]])) == multiset(Flatten(ss)) + multiset{x}
    decreases |ss|
  {
    var ts := ss[b := ss[b] + [x]];
    var n := |ss| - 1;
    assert Flatten(ts) == Flatten(ts[..n]) + ts[n];
    if b < n {
      assert ts[..n] == ss[..n][b := ss[b] + [x]];
      assert ts[n] == ss[n];
      FlattenGrowOne(ss[..n], b, x);
    } else {
      assert ts[..n] == ss[..n];
      assert Flatten(ts) == Flatten(ss[..n]) + ss[n] + [x];
    }
  }

  /** The multiset of a concatenation only depends on the multisets of its parts. */
  lemma {:induction false} FlattenPermuted<T>(ss: seq<seq<T>>, ts: seq<seq<T>>)
    requires |ss| == |ts|
    requires forall b :: 0 <= b < |ss| ==> multiset(ss[b]) == multiset(ts[b])
    ensures multiset(Flatten(ss)) == multiset(Flatten(ts))
    decreases |ss|
  {
    if ss != [] {
      FlattenPermuted(ss[..|ss| - 1], ts[..|ts| - 1]);
    }
  }

  /** Every element of the concatenation comes from one of the parts. */
  lemma {:induction false} FlattenMember<T>(ss: seq<seq<T>>, x: T)
    requires x in Flatten(ss)
    ensures exists b :: 0 <= b < |ss| && x in ss[b]
    decreases |ss|
  {
    var n := |ss| - 1;
    if x !in ss[n] {
      FlattenMember(ss[..n], x);
      var b :| 0 <= b < n && x in ss[..n][b];
      assert x in ss[b];
    }
  }
}
