/** Stage 1 of `generateSeating` (utils/seatingLogic.ts): members are put into one bucket per
    truthy `tagId`, in order of first appearance, and everything else into an untagged pool. */
module Grouping {
  import opened Types
  import opened Seqs

  /** The test that decides membership of the bucket for `key`. */
  function InGroup(key: string): Member -> bool {
    (m: Member) => HasTag(m, key)
  }

  /** The test that decides membership of the untagged pool. */
  const NoGroup: Member -> bool := (m: Member) => !IsTagged(m)

  /** The bucket for `key`, in input order. */
  function Bucket(members: seq<Member>, key: string): (r: seq<Member>)
    ensures forall m :: m in r <==> m in members && HasTag(m, key)
  {
    Filter(members, InGroup(key))
  }

  /** The untagged pool, in input order: tag null or the empty string. */
  function Untagged(members: seq<Member>): (r: seq<Member>)
    ensures forall m :: m in r <==> m in members && !IsTagged(m)
  {
    Filter(members, NoGroup)
  }

  lemma BucketSnoc(members: seq<Member>, m: Member, key: string)
    ensures Bucket(members + [m], key) == Bucket(members, key) + (if HasTag(m, key) then [m] else [])
  {
    FilterSnoc(members, m, InGroup(key));
  }

  lemma UntaggedSnoc(members: seq<Member>, m: Member)
    ensures Untagged(members + [m]) == Untagged(members) + (if IsTagged(m) then [] else [m])
  {
    FilterSnoc(members, m, NoGroup);
  }

  /** Some member belongs to the group `key`. */
  ghost predicate Occurs(members: seq<Member>, key: string) {
    exists m :: m in members && HasTag(m, key)
  }

  lemma OccursSnoc(members: seq<Member>, m: Member)
    ensures forall k :: Occurs(members + [m], k) <==> Occurs(members, k) || HasTag(m, k)
  {
    forall k ensures Occurs(members + [m], k) ==> Occurs(members, k) || HasTag(m, k) {
      if Occurs(members + [m], k) {
        var x :| x in members + [m] && HasTag(x, k);
        if x != m {
          assert x in members;
        }
      }
    }
    forall k ensures Occurs(members, k) ==> Occurs(members + [m], k) {
      if Occurs(members, k) {
        var x :| x in members && HasTag(x, k);
        assert x in members + [m];
      }
    }
    forall k ensures HasTag(m, k) ==> Occurs(members + [m], k) {
      assert m in members + [m];
    }
  }

  lemma NonEmptyBucketOccurs(members: seq<Member>, key: string)
    ensures Bucket(members, key) != [] ==> Occurs(members, key)
  {
    var r := Bucket(members, key);
    if r != [] {
      assert r[0] in r;
    }
  }

  /** The bucket keys, in the order in which each first appears: no key twice, and exactly the
      truthy tag ids that occur. */
  function TagKeys(members: seq<Member>): (keys: seq<string>)
    ensures forall a, b :: 0 <= a < b < |keys| ==> keys[a] != keys[b]
    ensures forall k :: k in keys <==> Occurs(members, k)
    decreases |members|
  {
    if members == [] then []
    else
      var init, m := members[..|members| - 1], members[|members| - 1];
      OccursSnoc(init, m);
      assert init + [m] == members;
      var keys := TagKeys(init);
      if IsTagged(m) && m.tagId.value !in keys then keys + [m.tagId.value] else keys
  }

  /** The buckets for `keys`, in the order of `keys`. */
  function Buckets(members: seq<Member>, keys: seq<string>): (r: seq<seq<Member>>)
    ensures |r| == |keys|
    ensures forall b :: 0 <= b < |keys| ==> r[b] == Bucket(members, keys[b])
  {
    seq(|keys|, b requires 0 <= b < |keys| => Bucket(members, keys[b]))
  }

  /** With distinct keys that cover every tag present, the buckets and the untagged pool hold
      every member exactly once. */
  lemma {:induction false} BucketsPartition(members: seq<Member>, keys: seq<string>)
    requires forall a, b :: 0 <= a < b < |keys| ==> keys[a] != keys[b]
    requires forall m :: m in members && IsTagged(m) ==> m.tagId.value in keys
    ensures multiset(Flatten(Buckets(members, keys))) + multiset(Untagged(members)) == multiset(members)
    decreases |members|
  {
    if members == [] {
      assert forall b :: 0 <= b < |keys| ==> Buckets(members, keys)[b] == [];
      EmptyParts(Buckets(members, keys));
    } else {
      var init, m := members[..|members| - 1], members[|members| - 1];
      assert members == init + [m];
      BucketsPartition(init, keys);
      UntaggedSnoc(init, m);
      BucketsSnoc(init, m, keys);
    }
  }

  /** Adding one member adds it to exactly one part: its own bucket or the untagged pool. */
  lemma BucketsSnoc(members: seq<Member>, m: Member, keys: seq<string>)
    requires forall a, b :: 0 <= a < b < |keys| ==> keys[a] != keys[b]
    requires IsTagged(m) ==> m.tagId.value in keys
    ensures multiset(Flatten(Buckets(members + [m], keys)))
         == multiset(Flatten(Buckets(members, keys))) + (if IsTagged(m) then multiset{m} else multiset{})
  {
    var before, after := Buckets(members, keys), Buckets(members + [m], keys);
    forall c | 0 <= c < |keys| ensures after[c] == before[c] + (if HasTag(m, keys[c]) then [m] else []) {
      BucketSnoc(members, m, keys[c]);
    }
    if IsTagged(m) {
      var b :| 0 <= b < |keys| && keys[b] == m.tagId.value;
      assert after == before[b := before[b] + [m]];
      FlattenGrowOne(before, b, m);
    } else {
      assert after == before;
    }
  }

  lemma {:induction false} EmptyParts(ss: seq<seq<Member>>)
    requires forall b :: 0 <= b < |ss| ==> ss[b] == []
    ensures Flatten(ss) == []
    decreases |ss|
  {
    if ss != [] {
      EmptyParts(ss[..|ss| - 1]);
    }
  }

  /** The grouping loses and duplicates no one: the buckets, in key order, and then the untagged
      pool are a rearrangement of the members. */
  lemma GroupingPartition(members: seq<Member>)
    ensures multiset(Flatten(Buckets(members, TagKeys(members)))) + multiset(Untagged(members)) == multiset(members)
    ensures |Flatten(Buckets(members, TagKeys(members)))| + |Untagged(members)| == |members|
  {
    BucketsPartition(members, TagKeys(members));
    assert |multiset(members)| == |members|;
  }

  /** The index of the first member of group `key`. */
  ghost function FirstIndex(members: seq<Member>, key: string): (r: nat)
    requires Occurs(members, key)
    ensures r < |members| && HasTag(members[r], key)
    ensures forall j :: 0 <= j < r ==> !HasTag(members[j], key)
    decreases |members|
  {
    if HasTag(members[0], key) then 0
    else
      var x :| x in members && HasTag(x, key);
      assert x in members[1..];
      1 + FirstIndex(members[1..], key)
  }

  /** An index holding the group's first member is `FirstIndex`. */
  lemma FirstIndexIs(members: seq<Member>, key: string, r: nat)
    requires r < |members| && HasTag(members[r], key)
    requires forall j :: 0 <= j < r ==> !HasTag(members[j], key)
    ensures Occurs(members, key) && FirstIndex(members, key) == r
  {
    assert members[r] in members;
  }

  /** A later member does not move the first appearance of a group that already occurs. */
  lemma FirstIndexSnoc(members: seq<Member>, m: Member, key: string)
    requires Occurs(members, key)
    ensures Occurs(members + [m], key) && FirstIndex(members + [m], key) == FirstIndex(members, key)
  {
    var r := FirstIndex(members, key);
    forall j | 0 <= j < r ensures !HasTag((members + [m])[j], key) {
      assert (members + [m])[j] == members[j];
    }
    FirstIndexIs(members + [m], key, r);
  }

  /** Of two keys in `keys`, the earlier one's group has its first member earlier in `members`. */
  ghost predicate FirstAppearanceOrder(members: seq<Member>, keys: seq<string>) {
    forall a, b :: 0 <= a < b < |keys| ==>
      && Occurs(members, keys[a]) && Occurs(members, keys[b])
      && FirstIndex(members, keys[a]) < FirstIndex(members, keys[b])
  }

  /** The bucket keys are in order of first appearance. */
  lemma {:induction false} TagKeysFirstAppearance(members: seq<Member>)
    ensures FirstAppearanceOrder(members, TagKeys(members))
    decreases |members|
  {
    if members == [] {
      assert TagKeys(members) == [];
    } else {
      var init, m := members[..|members| - 1], members[|members| - 1];
      assert members == init + [m];
      TagKeysFirstAppearance(init);
      FirstAppearanceSnoc(init, m);
    }
  }

  /** One more member keeps the keys in order of first appearance. */
  lemma FirstAppearanceSnoc(init: seq<Member>, m: Member)
    requires FirstAppearanceOrder(init, TagKeys(init))
    ensures FirstAppearanceOrder(init + [m], TagKeys(init + [m]))
  {
    var members := init + [m];
    assert members[..|members| - 1] == init;
    var before, keys := TagKeys(init), TagKeys(members);
    forall k | k in before ensures Occurs(members, k) && FirstIndex(members, k) == FirstIndex(init, k) {
      FirstIndexSnoc(init, m, k);
    }
    if keys != before {
      var key := m.tagId.value;
      assert keys == before + [key] && !Occurs(init, key);
      forall j | 0 <= j < |init| ensures !HasTag(members[j], key) {
        assert members[j] == init[j] && init[j] in init;
      }
      FirstIndexIs(members, key, |init|);
    }
    forall a, b | 0 <= a < b < |keys|
      ensures Occurs(members, keys[a]) && Occurs(members, keys[b])
      ensures FirstIndex(members, keys[a]) < FirstIndex(members, keys[b])
    {
      assert keys[a] == before[a] && keys[a] in before;
      if b < |before| {
        assert keys[b] == before[b] && keys[b] in before;
      }
    }
  }

  /** The record `groupedMembers` after the members `members`, built one member at a time. */
  function GroupMap(members: seq<Member>): map<string, seq<Member>>
    decreases |members|
  {
    if members == [] then map[]
    else
      var init, m := members[..|members| - 1], members[|members| - 1];
      var g := GroupMap(init);
      if IsTagged(m) then
        var key := m.tagId.value;
        var withKey := if key in g then g else g[key := []];
        withKey[key := withKey[key] + [m]]
      else g
  }

  /** One step of the `forEach`: the keys, the record and the pool after `members[..i + 1]`. */
  lemma GroupStep(members: seq<Member>, i: nat)
    requires i < |members|
    ensures Untagged(members[..i + 1])
         == if IsTagged(members[i]) then Untagged(members[..i]) else Untagged(members[..i]) + [members[i]]
    ensures TagKeys(members[..i + 1])
         == if IsTagged(members[i]) && members[i].tagId.value !in GroupMap(members[..i])
            then TagKeys(members[..i]) + [members[i].tagId.value] else TagKeys(members[..i])
    ensures var m, g := members[i], GroupMap(members[..i]);
      GroupMap(members[..i + 1])
        == if IsTagged(m) then
             var key := m.tagId.value;
             var withKey := if key in g then g else g[key := []];
             withKey[key := withKey[key] + [m]]
           else g
  {
    var m, seen := members[i], members[..i];
    assert members[..i + 1] == seen + [m];
    assert (seen + [m])[..|seen|] == seen;
    UntaggedSnoc(seen, m);
    GroupMapKeys(seen);
  }

  /** The record has a key exactly for each truthy tag id that occurs. */
  lemma {:induction false} GroupMapKeys(members: seq<Member>)
    ensures forall k :: k in GroupMap(members) <==> Occurs(members, k)
    decreases |members|
  {
    if members != [] {
      var init, m := members[..|members| - 1], members[|members| - 1];
      assert members == init + [m];
      GroupMapKeys(init);
      assert init + [m] == members;
      OccursSnoc(init, m);
    }
  }

  /** Each key of the record holds the bucket for that key. */
  lemma {:induction false} GroupMapBuckets(members: seq<Member>)
    ensures forall k :: k in GroupMap(members) ==> GroupMap(members)[k] == Bucket(members, k)
    decreases |members|
  {
    if members != [] {
      var init, m := members[..|members| - 1], members[|members| - 1];
      assert members == init + [m];
      GroupMapBuckets(init);
      assert init + [m] == members;
      var g := GroupMap(members);
      forall k | k in g ensures g[k] == Bucket(members, k) {
        BucketSnoc(init, m, k);
        if k !in GroupMap(init) {
          GroupMapKeys(init);
          NonEmptyBucketOccurs(init, k);
        }
      }
    }
  }

  /** The `forEach` that fills `groupedMembers` (a string-keyed record whose keys keep their
      insertion order, modelled as `keys` plus `grouped`) and `untaggedMembers`. */
  method GroupByTag(members: seq<Member>) returns (keys: seq<string>, grouped: map<string, seq<Member>>, untagged: seq<Member>)
    ensures keys == TagKeys(members)
    ensures forall k :: k in grouped <==> k in keys
    ensures forall k :: k in grouped ==> grouped[k] == Bucket(members, k)
    ensures untagged == Untagged(members)
  {
    keys, grouped, untagged := [], map[], [];
    var i := 0;
    while i < |members|
      invariant 0 <= i <= |members|
      invariant keys == TagKeys(members[..i])
      invariant grouped == GroupMap(members[..i])
      invariant untagged == Untagged(members[..i])
    {
      var m := members[i];
      GroupStep(members, i);
      if m.tagId.Some? && m.tagId.value != "" {
        var key := m.tagId.value;
        if key !in grouped {
          keys := keys + [key];
          grouped := grouped[key := []];
        }
        grouped := grouped[key := grouped[key] + [m]];
      } else {
        untagged := untagged + [m];
      }
      i := i + 1;
    }
    assert members[..|members|] == members;
    GroupMapKeys(members);
    GroupMapBuckets(members);
  }
}
