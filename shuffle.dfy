/** The Fisher–Yates shuffle of `utils/seatingLogic.ts`, with `Math.random` injected: `random(n)`
    stands for the value the n-th call returns, a real in [0, 1). */
module Shuffle {

  /** What `Math.random` promises about every value it returns. */
  ghost predicate RandomInRange(random: nat -> real) {
    forall n: nat :: 0.0 <= random(n) < 1.0
  }

  /** `Math.floor(r * (i + 1))`: the index, at most `i`, that step `i` swaps with. */
  function RandomIndex(r: real, i: nat): (j: nat)
    requires 0.0 <= r < 1.0
    ensures j <= i
  {
    ScaledBelow(r, i + 1);
    (r * (i + 1) as real).Floor
  }

  lemma ScaledBelow(r: real, n: nat)
    requires 0.0 <= r < 1.0 && n > 0
    ensures 0.0 <= r * n as real < n as real
  {}

  function Swap<T>(s: seq<T>, i: nat, j: nat): (r: seq<T>)
    requires i < |s| && j < |s|
    ensures |r| == |s|
  {
    s[i := s[j]][j := s[i]]
  }

  lemma SwapPermutes<T>(s: seq<T>, i: nat, j: nat)
    requires i < |s| && j < |s|
    ensures multiset(Swap(s, i, j)) == multiset(s)
  {}

  /** The steps `i`, `i - 1`, ..., `1` of the shuffle applied to `s`, step `i` using the value of
      call number `call` and each later step the next call. */
  function ShuffleFrom<T>(s: seq<T>, i: int, random: nat -> real, call: nat): seq<T>
    requires RandomInRange(random)
    requires i < |s|
    decreases i
  {
    if i <= 0 then s
    else ShuffleFrom(Swap(s, i, RandomIndex(random(call), i)), i - 1, random, call + 1)
  }

  /** The whole shuffle of `s`, starting at call number `call`. */
  function Shuffled<T>(s: seq<T>, random: nat -> real, call: nat): seq<T>
    requires RandomInRange(random)
  {
    ShuffleFrom(s, |s| - 1, random, call)
  }

  /** Whatever values the random source returns, the shuffle only rearranges. */
  lemma {:induction false} ShuffleFromPermutes<T>(s: seq<T>, i: int, random: nat -> real, call: nat)
    requires RandomInRange(random)
    requires i < |s|
    ensures |ShuffleFrom(s, i, random, call)| == |s|
    ensures multiset(ShuffleFrom(s, i, random, call)) == multiset(s)
    decreases i
  {
    if i > 0 {
      SwapPermutes(s, i, RandomIndex(random(call), i));
      ShuffleFromPermutes(Swap(s, i, RandomIndex(random(call), i)), i - 1, random, call + 1);
    }
  }

  /** One step of the shuffle: swap position `i` with the index the current call picks. */
  lemma ShuffleFromStep<T>(s: seq<T>, i: int, random: nat -> real, call: nat)
    requires RandomInRange(random)
    requires 0 < i < |s|
    ensures ShuffleFrom(s, i, random, call)
         == ShuffleFrom(Swap(s, i, RandomIndex(random(call), i)), i - 1, random, call + 1)
  {
  }

  /** The whole shuffle only rearranges. */
  lemma ShuffledPermutes<T>(s: seq<T>, random: nat -> real, call: nat)
    requires RandomInRange(random)
    ensures |Shuffled(s, random, call)| == |s|
    ensures multiset(Shuffled(s, random, call)) == multiset(s)
  {
    ShuffleFromPermutes(s, |s| - 1, random, call);
  }

  /** The number of calls to `Math.random` a shuffle of `n` elements makes. */
  function CallsFor(n: nat): nat {
    if n == 0 then 0 else n - 1
  }

  /** `shuffleArray`: copies `items` into a fresh array and shuffles that copy in place. `next` is
      the number of the first call to `Math.random` after the shuffle. */
  method ShuffleArray<T>(items: seq<T>, random: nat -> real, call: nat) returns (shuffled: seq<T>, next: nat)
    requires RandomInRange(random)
    ensures |shuffled| == |items| && multiset(shuffled) == multiset(items)
    ensures shuffled == Shuffled(items, random, call)
    ensures next == call + CallsFor(|items|)
  {
    var a := new T[|items|](k requires 0 <= k < |items| => items[k]);
    assert a[..] == items;
    next := ShuffleInPlace(a, random, call);
    shuffled := a[..];
    ShuffledPermutes(items, random, call);
  }

  /** The loop of `shuffleArray`: from the last index down to index 1, swap position `i` with the
      index the next call to `Math.random` picks. */
  method ShuffleInPlace<T>(a: array<T>, random: nat -> real, call: nat) returns (next: nat)
    requires RandomInRange(random)
    modifies a
    ensures a[..] == Shuffled(old(a[..]), random, call)
    ensures next == call + CallsFor(a.Length)
  {
    ghost var items := a[..];
    var i := a.Length - 1;
    next := call;
    while i > 0
      invariant -1 <= i < a.Length
      invariant a.Length > 0 ==> i >= 0
      invariant next == call + (a.Length - 1 - i)
      invariant ShuffleFrom(a[..], i, random, next) == Shuffled(items, random, call)
      decreases i
    {
      var j := RandomIndex(random(next), i);
      ShuffleFromStep(a[..], i, random, next);
      SwapAt(a, i, j);
      next := next + 1;
      i := i - 1;
    }
  }

  /** `[array[i], array[j]] = [array[j], array[i]]`. */
  method SwapAt<T>(a: array<T>, i: nat, j: nat)
    requires i < a.Length && j < a.Length
    modifies a
    ensures a[..] == Swap(old(a[..]), i, j)
  {
    var t := a[i];
    a[i] := a[j];
    a[j] := t;
  }
}
