/** Stage 3 of `generateSeating` (utils/seatingLogic.ts): the shuffled buckets are interleaved
    round by round into one placement list. Round `i` takes element `i` of every bucket long
    enough to have one, in bucket order. */
module Dispersion {
  import opened Types
  import opened Seqs

  function Max(a: nat, b: nat): nat {
    if a < b then b else a
  }

  /** The size of the largest group, 0 for no groups. */
  function Longest<T>(groups: seq<seq<T>>): (m: nat)
    ensures forall b :: 0 <= b < |groups| ==> |groups[b]| <= m
    ensures m == 0 || exists b :: 0 <= b < |groups| && |groups[b]| == m
    decreases |groups|
  {
    if groups == [] then 0 else Max(Longest(groups[..|groups| - 1]), |groups[|groups| - 1]|)
  }

  /** Round `i`: element `i` of each group that has one, in group order. */
  function Round<T>(groups: seq<seq<T>>, i: nat): seq<T>
    decreases |groups|
  {
    if groups == [] then []
    else
      var g := groups[|groups| - 1];
      Round(groups[..|groups| - 1], i) + (if i < |g| then [g[i]] else [])
  }

  /** Rounds `0` to `n - 1`, one after the other. */
  function Rounds<T>(groups: seq<seq<T>>, n: nat): seq<T>
    decreases n
  {
    if n == 0 then [] else Rounds(groups, n - 1) + Round(groups, n - 1)
  }

  /** The placement list built from the groups: as many rounds as the largest group has elements. */
  function RoundRobin<T>(groups: seq<seq<T>>): seq<T> {
    Rounds(groups, Longest(groups))
  }

  /** The `forEach` that computes `maxLen`. */
  method MaxLength<T>(groups: seq<seq<T>>) returns (maxLen: nat)
    ensures maxLen == Longest(groups)
    ensures forall b :: 0 <= b < |groups| ==> |groups[b]| <= maxLen
  {
    maxLen := 0;
    var b := 0;
    while b < |groups|
      invariant 0 <= b <= |groups|
      invariant maxLen == Longest(groups[..b])
    {
      assert groups[..b + 1][..b] == groups[..b];
      maxLen := Max(maxLen, |groups[b]|);
      b := b + 1;
    }
    assert groups[..|groups|] == groups;
  }

  /** The nested loop that pushes `group[i]` for every round `i` and every group in order. */
  method Disperse<T>(groups: seq<seq<T>>) returns (list: seq<T>)
    ensures list == RoundRobin(groups)
  {
    var maxLen := MaxLength(groups);
    list := [];
    var i := 0;
    while i < maxLen
      invariant 0 <= i <= maxLen
      invariant list == Rounds(groups, i)
    {
      list := DealRound(groups, i, list);
      i := i + 1;
    }
  }

  /** The inner `groups.forEach`: appends element `i` of every group long enough to have one. */
  method DealRound<T>(groups: seq<seq<T>>, i: nat, list: seq<T>) returns (dealt: seq<T>)
    ensures dealt == list + Round(groups, i)
  {
    dealt := list;
    var b := 0;
    while b < |groups|
      invariant 0 <= b <= |groups|
      invariant dealt == list + Round(groups[..b], i)
    {
      assert groups[..b + 1][..b] == groups[..b];
      if i < |groups[b]| {
        dealt := dealt + [groups[b][i]];
      }
      b := b + 1;
    }
    assert groups[..|groups|] == groups;
  }

  // ----- Each element is placed exactly once -----

  /** The elements of the first `n` positions of every group, taken together. */
  function Prefixes<T>(groups: seq<seq<T>>, n: nat): multiset<T>
    decreases |groups|
  {
    if groups == [] then multiset{}
    else
      var g := groups[|groups| - 1];
      Prefixes(groups[..|groups| - 1], n) + multiset(g[..if n < |g| then n else |g|])
  }

  lemma {:induction false} PrefixesStep<T>(groups: seq<seq<T>>, n: nat)
    ensures Prefixes(groups, n + 1) == Prefixes(groups, n) + multiset(Round(groups, n))
    decreases |groups|
  {
    if groups != [] {
      var init, g := groups[..|groups| - 1], groups[|groups| - 1];
      PrefixesStep(init, n);
      if n < |g| {
        assert g[..n + 1] == g[..n] + [g[n]];
        assert Round(groups, n) == Round(init, n) + [g[n]];
      } else {
        assert Round(groups, n) == Round(init, n);
      }
    }
  }

  lemma {:induction false} PrefixesZero<T>(groups: seq<seq<T>>)
    ensures Prefixes(groups, 0) == multiset{}
    decreases |groups|
  {
    if groups != [] {
      PrefixesZero(groups[..|groups| - 1]);
    }
  }

  lemma {:induction false} PrefixesAll<T>(groups: seq<seq<T>>, n: nat)
    requires forall b :: 0 <= b < |groups| ==> |groups[b]| <= n
    ensures Prefixes(groups, n) == multiset(Flatten(groups))
    decreases |groups|
  {
    if groups != [] {
      var g := groups[|groups| - 1];
      PrefixesAll(groups[..|groups| - 1], n);
      assert g[..|g|] == g;
    }
  }

  /** The first `n` rounds hold exactly the first `n` elements of every group. */
  lemma {:induction false} RoundsHoldPrefixes<T>(groups: seq<seq<T>>, n: nat)
    ensures multiset(Rounds(groups, n)) == Prefixes(groups, n)
    decreases n
  {
    if n == 0 {
      PrefixesZero(groups);
    } else {
      var m := n - 1;
      RoundsHoldPrefixes(groups, m);
      PrefixesStep(groups, m);
      RoundsStep(groups, m);
    }
  }

  lemma RoundsStep<T>(groups: seq<seq<T>>, m: nat)
    ensures multiset(Rounds(groups, m + 1)) == multiset(Rounds(groups, m)) + multiset(Round(groups, m))
  {
  }

  /** The placement list is a rearrangement of all the groups' elements together: nobody is
      dropped or repeated, and its length is the sum of the group sizes. */
  lemma RoundRobinPermutes<T>(groups: seq<seq<T>>)
    ensures multiset(RoundRobin(groups)) == multiset(Flatten(groups))
    ensures |RoundRobin(groups)| == |Flatten(groups)|
  {
    RoundsHoldPrefixes(groups, Longest(groups));
    PrefixesAll(groups, Longest(groups));
    assert |multiset(RoundRobin(groups))| == |RoundRobin(groups)|;
  }

  // ----- Where each element goes -----

  /** Rounds distribute over a split of the groups. */
  lemma {:induction false} RoundConcat<T>(a: seq<seq<T>>, b: seq<seq<T>>, i: nat)
    ensures Round(a + b, i) == Round(a, i) + Round(b, i)
    decreases |b|
  {
    if b == [] {
      assert a + b == a;
    } else {
      var b0 := b[..|b| - 1];
      assert (a + b)[..|a + b| - 1] == a + b0;
      RoundConcat(a, b0, i);
    }
  }

  /** Within round `i`, group `b` contributes its element `i` right after the groups before it. */
  lemma RoundAt<T>(groups: seq<seq<T>>, b: nat, i: nat)
    requires b < |groups| && i < |groups[b]|
    ensures |Round(groups[..b], i)| < |Round(groups, i)|
    ensures Round(groups, i)[|Round(groups[..b], i)|] == groups[b][i]
    ensures Round(groups[..b + 1], i) == Round(groups[..b], i) + [groups[b][i]]
  {
    assert groups[..b + 1][..b] == groups[..b];
    assert groups == groups[..b + 1] + groups[b + 1..];
    RoundConcat(groups[..b + 1], groups[b + 1..], i);
  }

  /** Earlier rounds are a prefix of later ones. */
  lemma {:induction false} RoundsPrefix<T>(groups: seq<seq<T>>, n: nat, m: nat)
    requires n <= m
    ensures |Rounds(groups, n)| <= |Rounds(groups, m)|
    ensures Rounds(groups, m)[..|Rounds(groups, n)|] == Rounds(groups, n)
    decreases m
  {
    if n < m {
      RoundsPrefix(groups, n, m - 1);
    }
  }

  /** The position element `i` of group `b` gets in the placement list. */
  function Position<T>(groups: seq<seq<T>>, b: nat, i: nat): nat
    requires b <= |groups|
  {
    |Rounds(groups, i)| + |Round(groups[..b], i)|
  }

  /** Element `i` of group `b` sits at `Position(groups, b, i)` in any list of more than `i` rounds,
      in particular in the placement list. */
  lemma PlacedAt<T>(groups: seq<seq<T>>, b: nat, i: nat, n: nat)
    requires b < |groups| && i < |groups[b]| && i < n
    ensures Position(groups, b, i) < |Rounds(groups, n)|
    ensures Rounds(groups, n)[Position(groups, b, i)] == groups[b][i]
  {
    RoundAt(groups, b, i);
    RoundsPrefix(groups, i + 1, n);
    var before, round := Rounds(groups, i), Round(groups, i);
    var pos := Position(groups, b, i);
    assert Rounds(groups, i + 1) == before + round;
    assert (before + round)[pos] == round[pos - |before|];
    assert Rounds(groups, n)[pos] == Rounds(groups, n)[..|before + round|][pos];
  }

  /** Positions follow the order of rounds first and of groups second: element `i` of any group
      comes before element `i + 1` of any group, and within a round group order is kept. */
  lemma PositionOrder<T>(groups: seq<seq<T>>, b: nat, i: nat, c: nat, j: nat)
    requires b < |groups| && i < |groups[b]|
    requires c < |groups| && j < |groups[c]|
    ensures Position(groups, b, i) < Position(groups, c, j) <==> i < j || (i == j && b < c)
  {
    if i < j || (i == j && b < c) {
      PositionBefore(groups, b, i, c, j);
    } else if i > j || (i == j && b > c) {
      PositionBefore(groups, c, j, b, i);
    }
  }

  lemma PositionBefore<T>(groups: seq<seq<T>>, b: nat, i: nat, c: nat, j: nat)
    requires b < |groups| && i < |groups[b]|
    requires c < |groups| && j < |groups[c]|
    requires i < j || (i == j && b < c)
    ensures Position(groups, b, i) < Position(groups, c, j)
  {
    RoundAt(groups, b, i);
    if i < j {
      RoundsPrefix(groups, i + 1, j);
      assert |Rounds(groups, i + 1)| == |Rounds(groups, i)| + |Round(groups, i)|;
    } else {
      assert groups[..c] == groups[..b + 1] + groups[b + 1..c];
      RoundConcat(groups[..b + 1], groups[b + 1..c], i);
    }
  }

  // ----- No tag twice in a round -----

  lemma {:induction false} RoundMember<T>(groups: seq<seq<T>>, i: nat, x: T)
    requires x in Round(groups, i)
    ensures exists b :: 0 <= b < |groups| && i < |groups[b]| && x == groups[b][i]
    decreases |groups|
  {
    var n := |groups| - 1;
    var g := groups[n];
    if !(i < |g| && x == g[i]) {
      RoundMember(groups[..n], i, x);
      var b :| 0 <= b < n && i < |groups[..n][b]| && x == groups[..n][b][i];
      assert groups[b] == groups[..n][b];
    }
  }

  /** When every group holds members of its own tag and no two groups share a tag, no round holds
      two members with the same tag. */
  lemma {:induction false} RoundTagsDistinct(groups: seq<seq<Member>>, keys: seq<string>, i: nat)
    requires |groups| == |keys|
    requires forall a, b :: 0 <= a < b < |keys| ==> keys[a] != keys[b]
    requires forall b, x :: 0 <= b < |groups| && x in groups[b] ==> HasTag(x, keys[b])
    ensures forall p, q :: 0 <= p < q < |Round(groups, i)| ==> Round(groups, i)[p].tagId != Round(groups, i)[q].tagId
    decreases |groups|
  {
    if groups != [] {
      var n := |groups| - 1;
      var g := groups[n];
      var init := groups[..n];
      RoundTagsDistinct(init, keys[..n], i);
      var r0 := Round(init, i);
      forall p | 0 <= p < |r0| ensures r0[p].tagId != Some(keys[n]) {
        RoundMember(init, i, r0[p]);
        var b :| 0 <= b < n && i < |init[b]| && r0[p] == init[b][i];
        assert groups[b] == init[b];
        assert HasTag(r0[p], keys[b]);
      }
      if i < |g| {
        assert g[i] in groups[n];
        assert HasTag(g[i], keys[n]);
      }
    }
  }

  /** Interleaving only separates while every group still has members: with groups of three and of
      one element, the last two elements of the larger group end up next to each other. */
  lemma UnevenGroupsMeet()
    ensures RoundRobin([[1, 2, 3], [4]]) == [1, 4, 2, 3]
  {
    var groups := [[1, 2, 3], [4]];
    assert Longest(groups[..1]) == 3;
    assert Longest(groups) == 3;
    assert Round(groups, 0) == [1, 4];
    assert Round(groups, 1) == [2];
    assert Round(groups, 2) == [3];
  }
}
