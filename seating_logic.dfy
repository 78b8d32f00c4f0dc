/** `generateSeating` of utils/seatingLogic.ts: tables are built from the definitions, members are
    bucketed by tag, every bucket and the untagged pool are shuffled, the buckets are interleaved
    round by round with the untagged pool appended, and that placement list is poured into the
    tables in order by a cursor that only moves forward. */
module SeatingLogic {
  import opened Types
  import opened Seqs
  import opened Shuffle
  import opened Grouping
  import opened Dispersion

  // ----- The tables -----

  /** `String.fromCharCode(65 + i)`: the UTF-16 code unit `(65 + i) mod 65536`. A code unit in the
      surrogate range is no character on its own; the model puts U+FFFD there. */
  function TableLetter(i: nat): char {
    var code := (65 + i) % 0x1_0000;
    if 0xD800 <= code < 0xE000 then '\U{FFFD}' else code as char
  }

  /** The name of table `i`: `Table A`, `Table B`, ... */
  function TableName(i: nat): string {
    "Table " + [TableLetter(i)]
  }

  /** The first 26 tables are lettered A to Z. */
  lemma FirstTableNames(i: nat)
    requires i < 26
    ensures TableName(i) == "Table " + ["ABCDEFGHIJKLMNOPQRSTUVWXYZ"[i]]
  {
  }

  /** Until the letters reach the surrogate range, different tables get different names. */
  lemma TableNamesDistinct(i: nat, j: nat)
    requires i < 0xD800 - 65 && j < 0xD800 - 65 && i != j
    ensures TableName(i) != TableName(j)
  {
    assert TableName(i)[6] == TableLetter(i);
    assert TableName(j)[6] == TableLetter(j);
  }

  /** The `tableDefinitions.map` that builds one empty table per definition. */
  function InitialTables(defs: seq<TableDefinition>): (ts: seq<Table>)
    ensures |ts| == |defs|
    ensures forall i :: 0 <= i < |defs| ==>
      ts[i] == Table(defs[i].id, TableName(i), defs[i].capacity, [])
  {
    seq(|defs|, i requires 0 <= i < |defs| => Table(defs[i].id, TableName(i), defs[i].capacity, []))
  }

  // ----- Shuffling every bucket -----

  /** The number of calls to `Math.random` that shuffling each of `gs` in turn makes. */
  function CallsForAll<T>(gs: seq<seq<T>>): nat
    decreases |gs|
  {
    if gs == [] then 0 else CallsForAll(gs[..|gs| - 1]) + CallsFor(|gs[|gs| - 1]|)
  }

  /** Each of `gs` shuffled in turn, the first starting at call number `call` and every later one
      where the previous one stopped. */
  function ShuffleEach<T>(gs: seq<seq<T>>, random: nat -> real, call: nat): (r: seq<seq<T>>)
    requires RandomInRange(random)
    ensures |r| == |gs|
    decreases |gs|
  {
    if gs == [] then []
    else
      var n := |gs| - 1;
      ShuffleEach(gs[..n], random, call) + [Shuffled(gs[n], random, call + CallsForAll(gs[..n]))]
  }

  /** Each shuffled group is a rearrangement of its group. */
  lemma {:induction false} ShuffleEachPermutes<T>(gs: seq<seq<T>>, random: nat -> real, call: nat)
    requires RandomInRange(random)
    ensures forall b :: 0 <= b < |gs| ==> multiset(ShuffleEach(gs, random, call)[b]) == multiset(gs[b])
    decreases |gs|
  {
    if gs != [] {
      var n := |gs| - 1;
      ShuffleEachPermutes(gs[..n], random, call);
      ShuffledPermutes(gs[n], random, call + CallsForAll(gs[..n]));
    }
  }

  /** `Object.values` of the bucket record, whose keys are `keys` in insertion order. */
  function Values(keys: seq<string>, grouped: map<string, seq<Member>>): (gs: seq<seq<Member>>)
    requires forall k :: k in keys ==> k in grouped
    ensures |gs| == |keys|
    ensures forall b :: 0 <= b < |keys| ==> gs[b] == grouped[keys[b]]
  {
    seq(|keys|, b requires 0 <= b < |keys| => grouped[keys[b]])
  }

  lemma ShuffleEachSnoc<T>(gs: seq<seq<T>>, i: nat, random: nat -> real, call: nat)
    requires RandomInRange(random)
    requires i < |gs|
    ensures ShuffleEach(gs[..i + 1], random, call)
         == ShuffleEach(gs[..i], random, call) + [Shuffled(gs[i], random, call + CallsForAll(gs[..i]))]
    ensures CallsForAll(gs[..i + 1]) == CallsForAll(gs[..i]) + CallsFor(|gs[i]|)
  {
    assert gs[..i + 1][..i] == gs[..i];
  }

  /** Replacing the bucket of `keys[i]` extends the values of the first `i` keys by the new bucket. */
  lemma ValuesSnoc(keys: seq<string>, i: nat, grouped: map<string, seq<Member>>, s: seq<Member>)
    requires i < |keys|
    requires forall a, b :: 0 <= a < b < |keys| ==> keys[a] != keys[b]
    requires forall k :: k in keys ==> k in grouped
    ensures Values(keys[..i + 1], grouped[keys[i] := s]) == Values(keys[..i], grouped) + [s]
  {
    var r := Values(keys[..i + 1], grouped[keys[i] := s]);
    forall b | 0 <= b < i ensures r[b] == Values(keys[..i], grouped)[b] {
      assert keys[b] != keys[i];
    }
  }

  /** After `i` steps of the loop below: the first `i` buckets are shuffled in turn, the others are
      untouched, and `next` is the number of the next call to `Math.random`. */
  ghost predicate ShuffledUpTo(keys: seq<string>, grouped: map<string, seq<Member>>, shuffled: map<string, seq<Member>>,
                               i: nat, random: nat -> real, call: nat, next: nat)
    requires RandomInRange(random)
    requires forall k :: k in keys ==> k in grouped
  {
    && i <= |keys|
    && shuffled.Keys == grouped.Keys
    && (forall j :: i <= j < |keys| ==> shuffled[keys[j]] == grouped[keys[j]])
    && Values(keys[..i], shuffled) == ShuffleEach(Values(keys, grouped)[..i], random, call)
    && next == call + CallsForAll(Values(keys, grouped)[..i])
  }

  /** One step of the loop below keeps `ShuffledUpTo`. */
  lemma ShuffleStep(keys: seq<string>, grouped: map<string, seq<Member>>, shuffled: map<string, seq<Member>>,
                    i: nat, random: nat -> real, call: nat, next: nat, s: seq<Member>, n: nat)
    requires RandomInRange(random)
    requires forall a, b :: 0 <= a < b < |keys| ==> keys[a] != keys[b]
    requires forall k :: k in keys ==> k in grouped
    requires i < |keys| && ShuffledUpTo(keys, grouped, shuffled, i, random, call, next)
    requires keys[i] in shuffled
    requires s == Shuffled(shuffled[keys[i]], random, next) && n == next + CallsFor(|shuffled[keys[i]]|)
    ensures ShuffledUpTo(keys, grouped, shuffled[keys[i] := s], i + 1, random, call, n)
  {
    var gs := Values(keys, grouped);
    var after := shuffled[keys[i] := s];
    assert shuffled[keys[i]] == gs[i];
    ShuffleStepValues(keys, gs, shuffled, i, random, call, s);
    ShuffleEachSnoc(gs, i, random, call);
    forall j | i + 1 <= j < |keys| ensures after[keys[j]] == grouped[keys[j]] {
      assert keys[j] != keys[i];
    }
  }

  lemma ShuffleStepValues(keys: seq<string>, gs: seq<seq<Member>>, shuffled: map<string, seq<Member>>,
                          i: nat, random: nat -> real, call: nat, s: seq<Member>)
    requires RandomInRange(random)
    requires forall a, b :: 0 <= a < b < |keys| ==> keys[a] != keys[b]
    requires forall k :: k in keys ==> k in shuffled
    requires i < |keys| == |gs|
    requires Values(keys[..i], shuffled) == ShuffleEach(gs[..i], random, call)
    requires s == Shuffled(gs[i], random, call + CallsForAll(gs[..i]))
    ensures Values(keys[..i + 1], shuffled[keys[i] := s]) == ShuffleEach(gs[..i + 1], random, call)
  {
    ShuffleEachSnoc(gs, i, random, call);
    ValuesSnoc(keys, i, shuffled, s);
  }

  /** The `Object.keys(groupedMembers).forEach` that replaces every bucket by its shuffle. */
  method ShuffleGroups(keys: seq<string>, grouped: map<string, seq<Member>>, random: nat -> real, call: nat)
    returns (shuffled: map<string, seq<Member>>, next: nat)
    requires RandomInRange(random)
    requires forall a, b :: 0 <= a < b < |keys| ==> keys[a] != keys[b]
    requires forall k :: k in keys ==> k in grouped
    ensures shuffled.Keys == grouped.Keys
    ensures Values(keys, shuffled) == ShuffleEach(Values(keys, grouped), random, call)
    ensures next == call + CallsForAll(Values(keys, grouped))
  {
    shuffled, next := grouped, call;
    var i := 0;
    while i < |keys|
      invariant 0 <= i <= |keys|
      invariant ShuffledUpTo(keys, grouped, shuffled, i, random, call, next)
    {
      var s, n := ShuffleArray(shuffled[keys[i]], random, next);
      ShuffleStep(keys, grouped, shuffled, i, random, call, next, s, n);
      shuffled := shuffled[keys[i] := s];
      next := n;
      i := i + 1;
    }
    ShuffledAll(keys, grouped, shuffled, random, call, next);
  }

  lemma ShuffledAll(keys: seq<string>, grouped: map<string, seq<Member>>, shuffled: map<string, seq<Member>>,
                    random: nat -> real, call: nat, next: nat)
    requires RandomInRange(random)
    requires forall k :: k in keys ==> k in grouped
    requires ShuffledUpTo(keys, grouped, shuffled, |keys|, random, call, next)
    ensures shuffled.Keys == grouped.Keys
    ensures Values(keys, shuffled) == ShuffleEach(Values(keys, grouped), random, call)
    ensures next == call + CallsForAll(Values(keys, grouped))
  {
    assert keys[..|keys|] == keys;
    assert Values(keys, grouped)[..|keys|] == Values(keys, grouped);
  }

  // ----- The placement list -----

  /** The buckets after their shuffles, in key order. */
  function ShuffledBuckets(members: seq<Member>, random: nat -> real): seq<seq<Member>>
    requires RandomInRange(random)
  {
    ShuffleEach(Buckets(members, TagKeys(members)), random, 0)
  }

  /** The dispersion list: the shuffled buckets dealt round-robin, then the shuffled untagged pool,
      whose shuffle draws the random values that follow those of the buckets. */
  function Placement(members: seq<Member>, random: nat -> real): seq<Member>
    requires RandomInRange(random)
  {
    RoundRobin(ShuffledBuckets(members, random))
      + Shuffled(Untagged(members), random, CallsForAll(Buckets(members, TagKeys(members))))
  }

  /** Every member of shuffled bucket `b` has tag `TagKeys(members)[b]`. */
  lemma ShuffledBucketsTagged(members: seq<Member>, random: nat -> real)
    requires RandomInRange(random)
    ensures |ShuffledBuckets(members, random)| == |TagKeys(members)|
    ensures forall b, x :: 0 <= b < |TagKeys(members)| && x in ShuffledBuckets(members, random)[b] ==> HasTag(x, TagKeys(members)[b])
  {
    var keys, sb := TagKeys(members), ShuffledBuckets(members, random);
    ShuffleEachPermutes(Buckets(members, keys), random, 0);
    forall b, x | 0 <= b < |keys| && x in sb[b] ensures HasTag(x, keys[b]) {
      assert x in multiset(sb[b]);
      assert x in Bucket(members, keys[b]);
    }
  }

  /** The dispersion list is a rearrangement of the members. */
  lemma PlacementPermutes(members: seq<Member>, random: nat -> real)
    requires RandomInRange(random)
    ensures multiset(Placement(members, random)) == multiset(members)
    ensures |Placement(members, random)| == |members|
  {
    var buckets := Buckets(members, TagKeys(members));
    var untagged := Untagged(members);
    DealtPermutes(members, random);
    GroupingPartition(members);
    ShuffledPermutes(untagged, random, CallsForAll(buckets));
    assert |multiset(Placement(members, random))| == |Placement(members, random)|;
    assert |multiset(members)| == |members|;
  }

  /** The dealt part of the dispersion list is a rearrangement of the buckets' members. */
  lemma DealtPermutes(members: seq<Member>, random: nat -> real)
    requires RandomInRange(random)
    ensures multiset(RoundRobin(ShuffledBuckets(members, random))) == multiset(Flatten(Buckets(members, TagKeys(members))))
  {
    var buckets := Buckets(members, TagKeys(members));
    var sb := ShuffledBuckets(members, random);
    RoundRobinPermutes(sb);
    ShuffleEachPermutes(buckets, random, 0);
    FlattenPermuted(sb, buckets);
  }

  /** The dealt part of the dispersion list holds tagged members only, as many as the buckets hold. */
  lemma RoundRobinTagged(members: seq<Member>, random: nat -> real)
    requires RandomInRange(random)
    ensures |RoundRobin(ShuffledBuckets(members, random))| == |Flatten(Buckets(members, TagKeys(members)))|
    ensures forall p :: 0 <= p < |RoundRobin(ShuffledBuckets(members, random))| ==>
      IsTagged(RoundRobin(ShuffledBuckets(members, random))[p])
  {
    var buckets := Buckets(members, TagKeys(members));
    var sb := ShuffledBuckets(members, random);
    var rr := RoundRobin(sb);
    RoundRobinPermutes(sb);
    DealtPermutes(members, random);
    ShuffledBucketsTagged(members, random);
    assert |multiset(Flatten(buckets))| == |Flatten(buckets)|;
    assert |multiset(rr)| == |rr|;
    forall p | 0 <= p < |rr| ensures IsTagged(rr[p]) {
      assert rr[p] in multiset(Flatten(sb));
      FlattenMember(sb, rr[p]);
    }
  }

  /** The shuffled untagged pool holds untagged members only. */
  lemma ShuffledPoolUntagged(members: seq<Member>, random: nat -> real, call: nat)
    requires RandomInRange(random)
    ensures forall p :: 0 <= p < |Shuffled(Untagged(members), random, call)| ==>
      !IsTagged(Shuffled(Untagged(members), random, call)[p])
  {
    var untagged := Untagged(members);
    var tail := Shuffled(untagged, random, call);
    ShuffleFromPermutes(untagged, |untagged| - 1, random, call);
    forall p | 0 <= p < |tail| ensures !IsTagged(tail[p]) {
      assert tail[p] in multiset(untagged);
    }
  }

  /** The dispersion list holds the tagged members first, as many as the buckets hold together,
      and every untagged member after them. */
  lemma PlacementTaggedFirst(members: seq<Member>, random: nat -> real)
    requires RandomInRange(random)
    ensures forall p :: 0 <= p < |Placement(members, random)| ==>
      (IsTagged(Placement(members, random)[p]) <==> p < |Flatten(Buckets(members, TagKeys(members)))|)
  {
    var buckets := Buckets(members, TagKeys(members));
    var rr := RoundRobin(ShuffledBuckets(members, random));
    var tail := Shuffled(Untagged(members), random, CallsForAll(buckets));
    RoundRobinTagged(members, random);
    ShuffledPoolUntagged(members, random, CallsForAll(buckets));
    var pl := Placement(members, random);
    assert pl == rr + tail;
    forall p | 0 <= p < |pl| ensures IsTagged(pl[p]) <==> p < |rr| {
      if p < |rr| {
        assert pl[p] == rr[p];
      } else {
        assert pl[p] == tail[p - |rr|];
      }
    }
  }

  /** No round of the dispersal holds two members with the same tag. */
  lemma PlacementRoundsDistinct(members: seq<Member>, random: nat -> real, i: nat)
    requires RandomInRange(random)
    ensures var r := Round(ShuffledBuckets(members, random), i);
      forall p, q :: 0 <= p < q < |r| ==> r[p].tagId != r[q].tagId
  {
    ShuffledBucketsTagged(members, random);
    RoundTagsDistinct(ShuffledBuckets(members, random), TagKeys(members), i);
  }

  // ----- Filling the tables -----

  /** The members seated at the tables, table by table. */
  function Seated(ts: seq<Table>): seq<Member>
    decreases |ts|
  {
    if ts == [] then [] else Seated(ts[..|ts| - 1]) + ts[|ts| - 1].members
  }

  /** The fill loop skips a table once it holds `capacity` members or more. */
  predicate Full(t: Table) {
    |t.members| >= t.capacity
  }

  /** No table holds more than its capacity; one with a capacity of 0 or less holds no one. */
  predicate WithinCapacity(t: Table) {
    t.members == [] || |t.members| <= t.capacity
  }

  /** A table only receives members once every table before it is full. */
  predicate FilledInOrder(ts: seq<Table>) {
    forall j, k :: 0 <= j < k < |ts| && ts[k].members != [] ==> Full(ts[j])
  }

  /** Two tables that differ at most in who sits at them. */
  predicate SameTable(t: Table, u: Table) {
    t.id == u.id && t.name == u.name && t.capacity == u.capacity
  }

  lemma {:induction false} SeatedEmpty(ts: seq<Table>)
    requires forall k :: 0 <= k < |ts| ==> ts[k].members == []
    ensures Seated(ts) == []
    decreases |ts|
  {
    if ts != [] {
      SeatedEmpty(ts[..|ts| - 1]);
    }
  }

  /** Seating `m` at table `c` when every later table is still empty puts `m` last. */
  lemma {:induction false} SeatedAppendAt(ts: seq<Table>, c: nat, m: Member)
    requires c < |ts|
    requires forall k :: c < k < |ts| ==> ts[k].members == []
    ensures Seated(ts[c := ts[c].(members := ts[c].members + [m])]) == Seated(ts) + [m]
    decreases |ts|
  {
    var us := ts[c := ts[c].(members := ts[c].members + [m])];
    var n := |ts| - 1;
    if c == n {
      assert us[..n] == ts[..n];
    } else {
      assert us[..n] == ts[..n][c := ts[c].(members := ts[c].members + [m])];
      SeatedAppendAt(ts[..n], c, m);
    }
  }

  /** The state of the fill loop after the members `done` have been handled: `ts` are the tables,
      which started as `orig`, and `cur` is `currentTableIndex`. */
  ghost predicate Pouring(ts: seq<Table>, orig: seq<Table>, cur: nat, unassigned: seq<Member>, done: seq<Member>) {
    && |ts| == |orig| && cur <= |ts|
    && (forall k :: 0 <= k < |ts| ==> SameTable(ts[k], orig[k]) && WithinCapacity(ts[k]))
    && (forall k :: 0 <= k < cur ==> Full(ts[k]))
    && (forall k :: cur < k < |ts| ==> ts[k].members == [])
    && (unassigned != [] ==> cur == |ts|)
    && Seated(ts) + unassigned == done
  }

  lemma PouringStart(ts: seq<Table>)
    requires forall k :: 0 <= k < |ts| ==> ts[k].members == []
    ensures Pouring(ts, ts, 0, [], [])
  {
    SeatedEmpty(ts);
  }

  /** Moving past full tables. */
  lemma PouringSkip(ts: seq<Table>, orig: seq<Table>, cur: nat, next: nat, unassigned: seq<Member>, done: seq<Member>)
    requires Pouring(ts, orig, cur, unassigned, done)
    requires cur <= next <= |ts| && forall k :: cur <= k < next ==> Full(ts[k])
    ensures Pouring(ts, orig, next, unassigned, done)
  {
  }

  /** Seating the next member at the current table, which has room. */
  lemma PouringSeat(ts: seq<Table>, orig: seq<Table>, cur: nat, unassigned: seq<Member>, done: seq<Member>, m: Member)
    requires Pouring(ts, orig, cur, unassigned, done)
    requires cur < |ts| && !Full(ts[cur])
    ensures Pouring(ts[cur := ts[cur].(members := ts[cur].members + [m])], orig, cur, unassigned, done + [m])
  {
    SeatedAppendAt(ts, cur, m);
  }

  /** Leaving the next member unassigned once every table has been passed. */
  lemma PouringLeave(ts: seq<Table>, orig: seq<Table>, cur: nat, unassigned: seq<Member>, done: seq<Member>, m: Member)
    requires Pouring(ts, orig, cur, unassigned, done)
    requires cur == |ts|
    ensures Pouring(ts, orig, cur, unassigned + [m], done + [m])
  {
  }

  /** Once every member has been handled, the loop's state gives the outcome's guarantees. */
  lemma PouringDone(ts: seq<Table>, orig: seq<Table>, cur: nat, unassigned: seq<Member>, done: seq<Member>)
    requires Pouring(ts, orig, cur, unassigned, done)
    ensures Arranged(orig, ts, unassigned, done)
  {
  }

  /** The inner `while` of the fill loop: the first table from `cur` on that is not full, or
      `tables.Length` when there is none. */
  method NextOpen(tables: array<Table>, cur: nat) returns (next: nat)
    requires cur <= tables.Length
    ensures cur <= next <= tables.Length
    ensures forall k :: cur <= k < next ==> Full(tables[k])
    ensures next < tables.Length ==> !Full(tables[next])
  {
    next := cur;
    while next < tables.Length && |tables[next].members| >= tables[next].capacity
      invariant cur <= next <= tables.Length
      invariant forall k :: cur <= k < next ==> Full(tables[k])
    {
      next := next + 1;
    }
  }

  /** The `dispersionList.forEach` that pours the list into the tables: `cur` is
      `currentTableIndex`, advanced past full tables and never moved back. */
  method Distribute(tables: array<Table>, placement: seq<Member>) returns (unassigned: seq<Member>)
    requires forall k :: 0 <= k < tables.Length ==> tables[k].members == []
    modifies tables
    ensures Arranged(old(tables[..]), tables[..], unassigned, placement)
  {
    ghost var orig := tables[..];
    PouringStart(orig);
    unassigned := [];
    var cur := 0;
    var i := 0;
    while i < |placement|
      invariant 0 <= i <= |placement|
      invariant Pouring(tables[..], orig, cur, unassigned, placement[..i])
    {
      var next := NextOpen(tables, cur);
      PouringSkip(tables[..], orig, cur, next, unassigned, placement[..i]);
      cur := next;
      assert placement[..i + 1] == placement[..i] + [placement[i]];
      if cur < tables.Length {
        ghost var before := tables[..];
        PouringSeat(before, orig, cur, unassigned, placement[..i], placement[i]);
        tables[cur] := tables[cur].(members := tables[cur].members + [placement[i]]);
        assert tables[..] == before[cur := before[cur].(members := before[cur].members + [placement[i]])];
      } else {
        PouringLeave(tables[..], orig, cur, unassigned, placement[..i], placement[i]);
        unassigned := unassigned + [placement[i]];
      }
      i := i + 1;
    }
    assert placement[..|placement|] == placement;
    PouringDone(tables[..], orig, cur, unassigned, placement);
  }

  // ----- The fill as a function -----

  /** How many of `remaining` members a table of capacity `capacity` takes while it is the current one. */
  function Take(capacity: int, remaining: nat): (n: nat)
    ensures n <= remaining
    ensures capacity <= 0 ==> n == 0
    ensures 0 < capacity ==> n == (if capacity < remaining then capacity else remaining)
  {
    if capacity <= 0 then 0 else if capacity < remaining then capacity else remaining
  }

  /** The greedy fill of empty tables, table by table: each takes the next members of `list` up to its
      capacity, and what is left once the tables run out is unassigned. */
  function Fill(ts: seq<Table>, list: seq<Member>): (r: (seq<Table>, seq<Member>))
    ensures |r.0| == |ts|
    decreases |ts|
  {
    if ts == [] then ([], list)
    else
      var take := Take(ts[0].capacity, |list|);
      var rest := Fill(ts[1..], list[take..]);
      ([ts[0].(members := list[..take])] + rest.0, rest.1)
  }

  /** The seats on offer: the capacities added up, a capacity of 0 or less counting as none. */
  function SeatCount(ts: seq<Table>): nat
    decreases |ts|
  {
    if ts == [] then 0 else (if ts[0].capacity <= 0 then 0 else ts[0].capacity) + SeatCount(ts[1..])
  }

  /** The fill leaves exactly the members beyond the seats on offer unassigned. */
  lemma {:induction false} FillLeftover(ts: seq<Table>, list: seq<Member>)
    ensures |Fill(ts, list).1| == if |list| <= SeatCount(ts) then 0 else |list| - SeatCount(ts)
    decreases |ts|
  {
    if ts != [] {
      FillLeftover(ts[1..], list[Take(ts[0].capacity, |list|)..]);
    }
  }

  lemma {:induction false} SeatedFront(ts: seq<Table>)
    requires ts != []
    ensures Seated(ts) == ts[0].members + Seated(ts[1..])
    decreases |ts|
  {
    var n := |ts| - 1;
    if n > 0 {
      SeatedFront(ts[..n]);
      assert ts[..n][1..] == ts[1..][..n - 1];
    }
  }

  lemma {:induction false} SeatedNonEmpty(ts: seq<Table>)
    requires Seated(ts) != []
    ensures exists k :: 0 <= k < |ts| && ts[k].members != []
    decreases |ts|
  {
    var n := |ts| - 1;
    if ts[n].members == [] {
      SeatedNonEmpty(ts[..n]);
      var k :| 0 <= k < n && ts[..n][k].members != [];
      assert ts[k] == ts[..n][k];
    }
  }

  /** What the fill loop guarantees about its outcome `seated` and `unassigned` when it pours `list`
      into the tables `ts`: the tables keep their id, name and capacity; reading the tables in order
      and then the unassigned members gives back `list`; no table is over capacity and one of
      capacity 0 or less stays empty; a table only has members if every table before it is full;
      and members are left unassigned only when every table is full. */
  ghost predicate Arranged(ts: seq<Table>, seated: seq<Table>, unassigned: seq<Member>, list: seq<Member>) {
    && |seated| == |ts|
    && (forall k :: 0 <= k < |ts| ==> SameTable(seated[k], ts[k]))
    && Seated(seated) + unassigned == list
    && (forall k :: 0 <= k < |ts| ==> WithinCapacity(seated[k]))
    && FilledInOrder(seated)
    && (unassigned != [] ==> forall k :: 0 <= k < |ts| ==> Full(seated[k]))
  }

  /** Those guarantees pin the outcome down: it can only be the greedy fill. */
  lemma {:induction false} ArrangedIsFill(ts: seq<Table>, seated: seq<Table>, unassigned: seq<Member>, list: seq<Member>)
    requires Arranged(ts, seated, unassigned, list)
    ensures Fill(ts, list) == (seated, unassigned)
    decreases |ts|
  {
    if ts == [] {
      assert Seated(seated) == [];
      assert unassigned == list;
    } else {
      var m0, rest, after := seated[0].members, seated[1..], Seated(seated[1..]) + unassigned;
      ArrangedHead(ts, seated, unassigned, list);
      ArrangedTail(ts, seated, unassigned, list);
      ArrangedIsFill(ts[1..], rest, unassigned, after);
      FillFront(ts, list, m0, rest, unassigned);
      assert seated == [seated[0]] + rest;
      assert seated[0] == ts[0].(members := m0);
    }
  }

  /** The first table of an arranged outcome holds the first `Take` members of the list. */
  lemma ArrangedHead(ts: seq<Table>, seated: seq<Table>, unassigned: seq<Member>, list: seq<Member>)
    requires Arranged(ts, seated, unassigned, list) && ts != []
    ensures var m0, take := seated[0].members, Take(ts[0].capacity, |list|);
      |m0| == take && list == m0 + (Seated(seated[1..]) + unassigned)
  {
    var t, rest := seated[0], seated[1..];
    SeatedFront(seated);
    var after := Seated(rest) + unassigned;
    assert list == t.members + after;
    if after != [] {
      if unassigned == [] {
        SeatedNonEmpty(rest);
        var k :| 0 <= k < |rest| && rest[k].members != [];
        assert seated[k + 1] == rest[k];
      }
      assert Full(t);
    }
  }

  /** The tables after the first, with what is left of the list, are arranged too. */
  lemma ArrangedTail(ts: seq<Table>, seated: seq<Table>, unassigned: seq<Member>, list: seq<Member>)
    requires Arranged(ts, seated, unassigned, list) && ts != []
    ensures Arranged(ts[1..], seated[1..], unassigned, Seated(seated[1..]) + unassigned)
  {
    var rest := seated[1..];
    forall k | 0 <= k < |rest| ensures SameTable(rest[k], ts[1..][k]) && WithinCapacity(rest[k]) {
      assert rest[k] == seated[k + 1];
    }
    forall j, k | 0 <= j < k < |rest| && rest[k].members != [] ensures Full(rest[j]) {
      assert rest[k] == seated[k + 1] && rest[j] == seated[j + 1];
    }
  }

  /** One step of `Fill`: the first table takes `m0`, a `Take`-long prefix, and the rest fill from there. */
  lemma FillFront(ts: seq<Table>, list: seq<Member>, m0: seq<Member>, rest: seq<Table>, unassigned: seq<Member>)
    requires ts != [] && |m0| == Take(ts[0].capacity, |list|)
    requires Fill(ts[1..], list[|m0|..]) == (rest, unassigned) && list[..|m0|] == m0
    ensures Fill(ts, list) == ([ts[0].(members := m0)] + rest, unassigned)
  {
  }

  /** Stages 1 to 3 of `generateSeating`: grouping, shuffling and the dispersion list. */
  method BuildDispersionList(members: seq<Member>, random: nat -> real) returns (dispersionList: seq<Member>)
    requires RandomInRange(random)
    ensures dispersionList == Placement(members, random)
  {
    var keys, grouped, untaggedMembers := GroupByTag(members);
    GroupedValues(members, keys, grouped);
    var shuffledGroups, next := ShuffleGroups(keys, grouped, random, 0);
    var shuffledUntagged, _ := ShuffleArray(untaggedMembers, random, next);
    var groups := Values(keys, shuffledGroups);
    dispersionList := Disperse(groups);
    dispersionList := dispersionList + shuffledUntagged;
  }

  /** The record `GroupByTag` builds, read in key order, is the list of buckets. */
  lemma GroupedValues(members: seq<Member>, keys: seq<string>, grouped: map<string, seq<Member>>)
    requires keys == TagKeys(members)
    requires forall k :: k in grouped <==> k in keys
    requires forall k :: k in grouped ==> grouped[k] == Bucket(members, k)
    ensures forall k :: k in keys ==> k in grouped
    ensures Values(keys, grouped) == Buckets(members, TagKeys(members))
  {
  }

  /** What a fill of the tables built from `defs` satisfies. */
  lemma SeatingOutcome(defs: seq<TableDefinition>, tables: seq<Table>, unassigned: seq<Member>, list: seq<Member>)
    requires Arranged(InitialTables(defs), tables, unassigned, list)
    ensures |tables| == |defs|
    ensures forall i :: 0 <= i < |defs| ==>
      tables[i].id == defs[i].id && tables[i].name == TableName(i) && tables[i].capacity == defs[i].capacity
    ensures Seated(tables) + unassigned == list
    ensures forall i :: 0 <= i < |tables| ==> WithinCapacity(tables[i])
    ensures forall i :: 0 <= i < |tables| && tables[i].capacity <= 0 ==> tables[i].members == []
    ensures FilledInOrder(tables)
    ensures unassigned != [] ==> forall i :: 0 <= i < |tables| ==> Full(tables[i])
    ensures defs == [] ==> unassigned == list
    ensures (tables, unassigned) == Fill(InitialTables(defs), list)
    ensures |unassigned| == if |list| <= SeatCount(InitialTables(defs)) then 0 else |list| - SeatCount(InitialTables(defs))
  {
    var initial := InitialTables(defs);
    ArrangedIsFill(initial, tables, unassigned, list);
    FillLeftover(initial, list);
    if defs == [] {
      assert Seated(tables) == [];
    }
  }

  /** `generateSeating`. `random(n)` is the value of the n-th call to `Math.random` during this run. */
  method GenerateSeating(members: seq<Member>, defs: seq<TableDefinition>, random: nat -> real)
    returns (tables: seq<Table>, unassigned: seq<Member>)
    requires RandomInRange(random)
    ensures |tables| == |defs|
    ensures forall i :: 0 <= i < |defs| ==>
      tables[i].id == defs[i].id && tables[i].name == TableName(i) && tables[i].capacity == defs[i].capacity
    ensures Seated(tables) + unassigned == Placement(members, random)
    ensures multiset(Seated(tables) + unassigned) == multiset(members)
    ensures forall i :: 0 <= i < |tables| ==> WithinCapacity(tables[i])
    ensures forall i :: 0 <= i < |tables| && tables[i].capacity <= 0 ==> tables[i].members == []
    ensures FilledInOrder(tables)
    ensures unassigned != [] ==> forall i :: 0 <= i < |tables| ==> Full(tables[i])
    ensures defs == [] ==> unassigned == Placement(members, random)
    ensures (tables, unassigned) == Fill(InitialTables(defs), Placement(members, random))
    ensures |unassigned| == if |members| <= SeatCount(InitialTables(defs)) then 0 else |members| - SeatCount(InitialTables(defs))
  {
    var arr := new Table[|defs|](i requires 0 <= i < |defs| => Table(defs[i].id, TableName(i), defs[i].capacity, []));
    assert arr[..] == InitialTables(defs);
    var dispersionList := BuildDispersionList(members, random);
    unassigned := Distribute(arr, dispersionList);
    tables := arr[..];
    SeatingOutcome(defs, tables, unassigned, dispersionList);
    PlacementPermutes(members, random);
  }
}
