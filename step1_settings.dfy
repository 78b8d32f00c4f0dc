/** The state transitions of the settings screen (components/Step1Settings.tsx): the member count
    buttons, the table list editor and the seat total. Every handler computes the new list from the
    old one, so each is a function here; the ids the source draws from `Math.random` are parameters. */
module Step1Settings {
  import opened Types
  import opened Seqs
  import SeatingLogic

  // ----- The seat total -----

  /** `totalSeats`: the capacities of all definitions added up. */
  function TotalSeats(defs: seq<TableDefinition>): int
    decreases |defs|
  {
    if defs == [] then 0 else defs[0].capacity + TotalSeats(defs[1..])
  }

  /** The total of a concatenation is the sum of the totals. */
  lemma {:induction false} TotalSeatsConcat(a: seq<TableDefinition>, b: seq<TableDefinition>)
    ensures TotalSeats(a + b) == TotalSeats(a) + TotalSeats(b)
    decreases |a|
  {
    if a == [] {
      assert a + b == b;
    } else {
      assert (a + b)[1..] == a[1..] + b;
      TotalSeatsConcat(a[1..], b);
    }
  }

  /** Every capacity the editor can produce is at least 1. */
  predicate AllPositive(defs: seq<TableDefinition>) {
    forall k :: 0 <= k < |defs| ==> defs[k].capacity >= 1
  }

  /** With capacities of at least 1 there are at least as many seats as tables. */
  lemma {:induction false} TotalSeatsAtLeastTables(defs: seq<TableDefinition>)
    requires AllPositive(defs)
    ensures TotalSeats(defs) >= |defs|
    decreases |defs|
  {
    if defs != [] {
      TotalSeatsAtLeastTables(defs[1..]);
    }
  }

  /** Without negative capacities the total counts exactly the seats the generator fills. */
  lemma {:induction false} TotalSeatsCountsSeats(defs: seq<TableDefinition>, ts: seq<Table>)
    requires |ts| == |defs|
    requires forall k :: 0 <= k < |defs| ==> defs[k].capacity >= 0 && ts[k].capacity == defs[k].capacity
    ensures TotalSeats(defs) == SeatingLogic.SeatCount(ts)
    decreases |defs|
  {
    if defs != [] {
      TotalSeatsCountsSeats(defs[1..], ts[1..]);
    }
  }

  /** The seat card turns pink exactly when `generateSeating` will leave someone unassigned (for
      capacities that are not negative, which the editor guarantees). */
  lemma ShortOfSeats(defs: seq<TableDefinition>, list: seq<Member>)
    requires forall k :: 0 <= k < |defs| ==> defs[k].capacity >= 0
    ensures TotalSeats(defs) < |list| <==> SeatingLogic.Fill(SeatingLogic.InitialTables(defs), list).1 != []
  {
    var ts := SeatingLogic.InitialTables(defs);
    TotalSeatsCountsSeats(defs, ts);
    SeatingLogic.FillLeftover(ts, list);
  }

  // ----- The member count buttons -----

  function DigitChar(d: nat): char
    requires d < 10
  {
    ('0' as int + d) as char
  }

  predicate IsDigit(c: char) {
    '0' <= c <= '9'
  }

  /** The decimal numeral of `n`, as a template literal prints an integer: digits only, and no
      leading zero except in "0". */
  function NatToDecimal(n: nat): (s: string)
    ensures |s| >= 1
    ensures forall k :: 0 <= k < |s| ==> IsDigit(s[k])
    ensures s[0] == '0' ==> n == 0 && s == "0"
    decreases n
  {
    if n < 10 then [DigitChar(n)] else NatToDecimal(n / 10) + [DigitChar(n % 10)]
  }

  /** The number a string of digits denotes. */
  function DecimalValue(s: string): nat
    requires forall k :: 0 <= k < |s| ==> IsDigit(s[k])
    decreases |s|
  {
    if s == [] then 0
    else
      assert IsDigit(s[|s| - 1]);
      DecimalValue(s[..|s| - 1]) * 10 + (s[|s| - 1] as int - '0' as int)
  }

  /** Reading the numeral back gives the number. */
  lemma {:induction false} DecimalRoundTrip(n: nat)
    ensures DecimalValue(NatToDecimal(n)) == n
    decreases n
  {
    if n >= 10 {
      DecimalRoundTrip(n / 10);
      var s := NatToDecimal(n);
      assert s[..|s| - 1] == NatToDecimal(n / 10);
    }
  }

  /** The name `increaseMembers` gives the `n`-th participant: `参加者 n`. */
  function ParticipantName(n: nat): string {
    "\U{53C2}\U{52A0}\U{8005} " + NatToDecimal(n)
  }

  /** Different numbers give different names. */
  lemma ParticipantNamesDistinct(n: nat, m: nat)
    requires n != m
    ensures ParticipantName(n) != ParticipantName(m)
  {
    DecimalRoundTrip(n);
    DecimalRoundTrip(m);
    assert ParticipantName(n)[4..] == NatToDecimal(n);
    assert ParticipantName(m)[4..] == NatToDecimal(m);
  }

  /** `increaseMembers`: appends an untagged member named after the new count. */
  function IncreaseMembers(members: seq<Member>, newId: string): (r: seq<Member>)
    ensures |r| == |members| + 1 && r[..|members|] == members
    ensures r[|members|] == Member(newId, ParticipantName(|r|), None)
  {
    members + [Member(newId, ParticipantName(|members| + 1), None)]
  }

  /** `decreaseMembers`: drops the last member; an empty list stays empty. */
  function DecreaseMembers(members: seq<Member>): (r: seq<Member>)
    ensures members == [] ==> r == []
    ensures members != [] ==> |r| == |members| - 1 && members == r + [members[|members| - 1]]
  {
    if |members| == 0 then members else members[..|members| - 1]
  }

  /** The minus button undoes the plus button. */
  lemma DecreaseUndoesIncrease(members: seq<Member>, newId: string)
    ensures DecreaseMembers(IncreaseMembers(members, newId)) == members
  {
  }

  // ----- The table list editor -----

  /** `addTable`: appends one definition with the given capacity. */
  function AddTable(defs: seq<TableDefinition>, newId: string, capacity: int): (r: seq<TableDefinition>)
    ensures |r| == |defs| + 1 && r[..|defs|] == defs && r[|defs|] == TableDefinition(newId, capacity)
  {
    defs + [TableDefinition(newId, capacity)]
  }

  /** Adding a table adds its capacity to the total. */
  lemma AddTableSeats(defs: seq<TableDefinition>, newId: string, capacity: int)
    ensures TotalSeats(AddTable(defs, newId, capacity)) == TotalSeats(defs) + capacity
  {
    TotalSeatsConcat(defs, [TableDefinition(newId, capacity)]);
  }

  function KeepOthers(id: string): TableDefinition -> bool {
    (t: TableDefinition) => t.id != id
  }

  /** `removeTable`: keeps, in order, the definitions whose id differs from `id`. */
  function RemoveTable(defs: seq<TableDefinition>, id: string): (r: seq<TableDefinition>)
    ensures |r| <= |defs|
    ensures forall t :: t in r <==> t in defs && t.id != id
  {
    Filter(defs, KeepOthers(id))
  }

  /** Removing the table just added, under an id no other table has, restores the list. */
  lemma RemoveUndoesAdd(defs: seq<TableDefinition>, newId: string, capacity: int)
    requires forall k :: 0 <= k < |defs| ==> defs[k].id != newId
    ensures RemoveTable(AddTable(defs, newId, capacity), newId) == defs
  {
    FilterSnoc(defs, TableDefinition(newId, capacity), KeepOthers(newId));
    FilterAllKept(defs, KeepOthers(newId));
  }

  /** Removal distributes over concatenation, so the survivors keep their relative order. */
  lemma RemoveTableConcat(a: seq<TableDefinition>, b: seq<TableDefinition>, id: string)
    ensures RemoveTable(a + b, id) == RemoveTable(a, id) + RemoveTable(b, id)
  {
    FilterConcat(a, b, KeepOthers(id));
  }

  /** Removing a table takes its capacity off the total. */
  lemma {:induction false} RemoveTableSeats(defs: seq<TableDefinition>, k: nat)
    requires k < |defs|
    requires forall j :: 0 <= j < |defs| && j != k ==> defs[j].id != defs[k].id
    ensures TotalSeats(RemoveTable(defs, defs[k].id)) == TotalSeats(defs) - defs[k].capacity
  {
    var id := defs[k].id;
    var before, after := defs[..k], defs[k + 1..];
    assert defs == before + [defs[k]] + after;
    RemoveTableConcat(before + [defs[k]], after, id);
    RemoveTableConcat(before, [defs[k]], id);
    forall j | 0 <= j < |before| ensures KeepOthers(id)(before[j]) {
      assert before[j] == defs[j];
    }
    forall j | 0 <= j < |after| ensures KeepOthers(id)(after[j]) {
      assert after[j] == defs[k + 1 + j];
    }
    FilterAllKept(before, KeepOthers(id));
    FilterAllKept(after, KeepOthers(id));
    assert Filter([defs[k]], KeepOthers(id)) == [];
    TotalSeatsConcat(before, after);
    TotalSeatsConcat(before + [defs[k]], after);
    TotalSeatsConcat(before, [defs[k]]);
  }

  /** `Math.max(1, capacity + delta)`. */
  function ClampCapacity(capacity: int, delta: int): (c: int)
    ensures c >= 1
    ensures capacity + delta >= 1 ==> c == capacity + delta
    ensures capacity + delta < 1 ==> c == 1
  {
    if 1 < capacity + delta then capacity + delta else 1
  }

  /** `updateCapacity`: every definition with id `id` gets capacity `max(1, capacity + delta)`;
      all others, and the length and order, stay as they were. */
  function UpdateCapacity(defs: seq<TableDefinition>, id: string, delta: int): (r: seq<TableDefinition>)
    ensures |r| == |defs|
    ensures forall k :: 0 <= k < |defs| ==> r[k].id == defs[k].id
    ensures forall k :: 0 <= k < |defs| && defs[k].id == id ==> r[k].capacity >= 1 && r[k].capacity == ClampCapacity(defs[k].capacity, delta)
    ensures forall k :: 0 <= k < |defs| && defs[k].id != id ==> r[k] == defs[k]
  {
    seq(|defs|, k requires 0 <= k < |defs| =>
      if defs[k].id == id then defs[k].(capacity := ClampCapacity(defs[k].capacity, delta)) else defs[k])
  }

  /** The minus button undoes the plus button on tables whose capacity is at least 1. */
  lemma UpdateCapacityRoundTrip(defs: seq<TableDefinition>, id: string)
    requires AllPositive(defs)
    ensures UpdateCapacity(UpdateCapacity(defs, id, 1), id, -1) == defs
  {
    var r := UpdateCapacity(UpdateCapacity(defs, id, 1), id, -1);
    forall k | 0 <= k < |defs| ensures r[k] == defs[k] {
    }
  }

  /** Adding a capacity of at least 1, as the preset buttons 2, 4, 6 and 8 do, removing, and updating
      all keep every capacity at least 1. */
  lemma EditsKeepPositive(defs: seq<TableDefinition>, id: string, newId: string, capacity: int, delta: int)
    requires AllPositive(defs)
    ensures capacity >= 1 ==> AllPositive(AddTable(defs, newId, capacity))
    ensures AllPositive(RemoveTable(defs, id))
    ensures AllPositive(UpdateCapacity(defs, id, delta))
  {
    var r := RemoveTable(defs, id);
    forall k | 0 <= k < |r| ensures r[k].capacity >= 1 {
      assert r[k] in defs;
    }
  }
}
