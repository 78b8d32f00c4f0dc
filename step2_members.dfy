/** The member editor (components/Step2Members.tsx): tags are looked up by label or created with
    the next colour of the palette, a pasted list is parsed into one name per non-blank line, and
    members are added under one shared tag or removed by id. The ids the source draws from
    `Math.random` are parameters. */
module Step2Members {
  import opened Types
  import opened Seqs
  import opened JsString

  // ----- Tags -----

  /** `tags.find(t => t.label === name)`, as the index of the first tag with that label. */
  function FindTag(tags: seq<Tag>, name: string): (r: Option<nat>)
    ensures r.Some? ==> r.value < |tags| && tags[r.value].text == name
    ensures r.Some? ==> forall j :: 0 <= j < r.value ==> tags[j].text != name
    ensures r.None? ==> forall j :: 0 <= j < |tags| ==> tags[j].text != name
    decreases |tags|
  {
    if tags == [] then None
    else if tags[0].text == name then Some(0)
    else
      match FindTag(tags[1..], name)
      case None => None
      case Some(k) => Some(k + 1)
  }

  /** The colour a new tag gets: the palette cycled by the number of tags so far. */
  function NextColor(tags: seq<Tag>): string {
    TagColors[|tags| % |TagColors|]
  }

  /** `getOrCreateTagId`: the id of the first tag labelled `name` and the tags unchanged, or else the
      fresh id `newId` and the tags with one new tag appended. */
  function GetOrCreateTagId(tags: seq<Tag>, name: string, newId: string): (r: (string, seq<Tag>))
    ensures forall j :: 0 <= j < |tags| && tags[j].text == name ==>
      r.1 == tags && exists k :: 0 <= k <= j && tags[k].text == name && r.0 == tags[k].id
    ensures (forall j :: 0 <= j < |tags| ==> tags[j].text != name) ==>
      r.0 == newId && r.1 == tags + [Tag(newId, name, TagColors[|tags| % 10])]
  {
    match FindTag(tags, name)
    case Some(k) => (tags[k].id, tags)
    case None => (newId, tags + [Tag(newId, name, NextColor(tags))])
  }

  /** After the call some tag carries the label, and the first one of them has the returned id. */
  lemma GetOrCreateFinds(tags: seq<Tag>, name: string, newId: string)
    ensures var (id, after) := GetOrCreateTagId(tags, name, newId);
      FindTag(after, name).Some? && after[FindTag(after, name).value].id == id
  {
    var (id, after) := GetOrCreateTagId(tags, name, newId);
    if FindTag(tags, name).None? {
      assert after[|tags|].text == name;
    }
  }

  /** Asking a second time for the same label creates nothing and returns the same id. */
  lemma GetOrCreateIdempotent(tags: seq<Tag>, name: string, newId: string, otherId: string)
    ensures var (id, after) := GetOrCreateTagId(tags, name, newId);
      GetOrCreateTagId(after, name, otherId) == (id, after)
  {
    GetOrCreateFinds(tags, name, newId);
  }

  // ----- Parsing the pasted list -----

  /** `lines.map(line => line.trim())`. */
  function TrimAll(lines: seq<string>): (r: seq<string>)
    ensures |r| == |lines|
    ensures forall k :: 0 <= k < |lines| ==> r[k] == Trim(lines[k])
  {
    seq(|lines|, k requires 0 <= k < |lines| => Trim(lines[k]))
  }

  function NonBlank(line: string): bool {
    |line| > 0
  }

  /** `input.split('\n').map(line => line.trim()).filter(line => line.length > 0)`. */
  function ParseNames(input: string): seq<string> {
    Filter(TrimAll(Split(input, '\n')), NonBlank)
  }

  /** Every parsed name is a non-empty line of the input with its surrounding white space removed. */
  lemma ParsedNamesAreTrimmedLines(input: string)
    ensures forall k :: 0 <= k < |ParseNames(input)| ==> ParseNames(input)[k] != []
    ensures forall k :: 0 <= k < |ParseNames(input)| ==> Trim(ParseNames(input)[k]) == ParseNames(input)[k]
    ensures forall k :: 0 <= k < |ParseNames(input)| ==>
      !IsWhiteSpace(ParseNames(input)[k][0]) && !IsWhiteSpace(ParseNames(input)[k][|ParseNames(input)[k]| - 1])
    ensures forall k :: 0 <= k < |ParseNames(input)| ==> ParseNames(input)[k] in TrimAll(Split(input, '\n'))
  {
    var names := ParseNames(input);
    var trimmed := TrimAll(Split(input, '\n'));
    forall k | 0 <= k < |names|
      ensures names[k] != [] && names[k] in trimmed
    {
      assert names[k] in names;
    }
    forall k | 0 <= k < |names|
      ensures Trim(names[k]) == names[k]
      ensures !IsWhiteSpace(names[k][0]) && !IsWhiteSpace(names[k][|names[k]| - 1])
    {
      TrimmedLine(Split(input, '\n'), names[k]);
    }
  }

  /** A trimmed line is its own trim, and a non-empty one starts and ends with a visible character. */
  lemma TrimmedLine(lines: seq<string>, line: string)
    requires line in TrimAll(lines)
    ensures Trim(line) == line
    ensures line != [] ==> !IsWhiteSpace(line[0]) && !IsWhiteSpace(line[|line| - 1])
  {
    var j :| 0 <= j < |lines| && TrimAll(lines)[j] == line;
    TrimIdempotent(lines[j]);
  }

  lemma TrimAllConcat(a: seq<string>, b: seq<string>)
    ensures TrimAll(a + b) == TrimAll(a) + TrimAll(b)
  {
  }

  /** Lines are parsed independently and keep their order: the names of `a` come before those of `b`. */
  lemma ParseNamesConcat(a: string, b: string)
    ensures ParseNames(a + "\n" + b) == ParseNames(a) + ParseNames(b)
  {
    assert a + "\n" + b == a + ['\n'] + b;
    SplitConcat(a, b, '\n');
    TrimAllConcat(Split(a, '\n'), Split(b, '\n'));
    FilterConcat(TrimAll(Split(a, '\n')), TrimAll(Split(b, '\n')), NonBlank);
  }

  /** A single line gives its trimmed self, or nothing when it is blank. */
  lemma ParseOneLine(line: string)
    requires '\n' !in line
    ensures ParseNames(line) == if Trim(line) == "" then [] else [Trim(line)]
  {
    SplitFree(line, '\n');
    assert TrimAll([line]) == [Trim(line)];
    FilterSnoc([], Trim(line), NonBlank);
    assert [] + [Trim(line)] == [Trim(line)];
  }

  /** Every character of a blank string is white space. */
  lemma BlankChars(s: string)
    requires AllWhiteSpace(s)
    ensures forall c :: c in s ==> IsWhiteSpace(c)
  {
    forall c | c in s ensures IsWhiteSpace(c) {
      var i :| 0 <= i < |s| && s[i] == c;
    }
  }

  /** A blank input yields no name. */
  lemma BlankInputNoNames(input: string)
    requires AllWhiteSpace(input)
    ensures ParseNames(input) == []
  {
    var lines := Split(input, '\n');
    var trimmed := TrimAll(lines);
    SplitChars(input, '\n');
    BlankChars(input);
    forall k | 0 <= k < |lines| ensures trimmed[k] == [] {
      assert forall c :: c in lines[k] ==> c in input;
      assert forall p :: 0 <= p < |lines[k]| ==> lines[k][p] in lines[k];
    }
    FilterNoneKept(trimmed, NonBlank);
  }

  /** An input with a character other than white space yields some name. */
  lemma NonBlankInputHasNames(input: string, i: nat)
    requires i < |input| && !IsWhiteSpace(input[i])
    ensures ParseNames(input) != []
  {
    var lines := Split(input, '\n');
    var trimmed := TrimAll(lines);
    SplitChars(input, '\n');
    var c := input[i];
    assert c in input && c != '\n';
    var k :| 0 <= k < |lines| && c in lines[k];
    assert !AllWhiteSpace(lines[k]);
    assert trimmed[k] != [] && trimmed[k] in trimmed;
  }

  /** The list yields no name exactly when the whole input is blank, which is what the guard
      `!memberListInput.trim()` tests. */
  lemma ParseNamesEmpty(input: string)
    ensures ParseNames(input) == [] <==> Trim(input) == ""
  {
    if AllWhiteSpace(input) {
      BlankInputNoNames(input);
    } else {
      var i :| 0 <= i < |input| && !IsWhiteSpace(input[i]);
      NonBlankInputHasNames(input, i);
    }
  }

  // ----- Adding and removing members -----

  /** What the member editor holds: the members, the tags and the two text inputs. */
  datatype Step2State = Step2State(members: seq<Member>, tags: seq<Tag>, groupNameInput: string, memberListInput: string)

  /** `names.map(name => ({ id, name, tagId }))`: the `k`-th new member gets id `newIds(k)`. */
  function NewMembers(names: seq<string>, tagId: Option<string>, newIds: nat -> string): (r: seq<Member>)
    ensures |r| == |names|
    ensures forall k :: 0 <= k < |names| ==> r[k] == Member(newIds(k), names[k], tagId)
  {
    seq(|names|, k requires 0 <= k < |names| => Member(newIds(k), names[k], tagId))
  }

  /** The tag the new members get: none for a blank group name, otherwise the id of the tag
      labelled with the trimmed name, together with the tags after the lookup. */
  function TargetTag(tags: seq<Tag>, groupNameInput: string, newTagId: string): (r: (Option<string>, seq<Tag>))
    ensures r.0.None? <==> Trim(groupNameInput) == ""
    ensures r.0.None? ==> r.1 == tags
    ensures r.0.Some? ==> (r.0.value, r.1) == GetOrCreateTagId(tags, Trim(groupNameInput), newTagId)
  {
    var group := Trim(groupNameInput);
    if group == "" then (None, tags)
    else
      var (id, after) := GetOrCreateTagId(tags, group, newTagId);
      (Some(id), after)
  }

  /** `handleAddGroupAndMembers`. A blank member list changes nothing. Otherwise one member per
      parsed name is appended under the target tag, and both inputs are cleared. */
  function HandleAddGroupAndMembers(st: Step2State, newTagId: string, newIds: nat -> string): (r: Step2State)
    ensures Trim(st.memberListInput) == "" ==> r == st
  {
    if Trim(st.memberListInput) == "" then st
    else
      var target := TargetTag(st.tags, st.groupNameInput, newTagId);
      Step2State(st.members + NewMembers(ParseNames(st.memberListInput), target.0, newIds), target.1, "", "")
  }

  /** A non-blank member list yields at least one name, both inputs are cleared and the tags are
      those after the lookup of the group name. */
  lemma AddGroupAndMembersEffect(st: Step2State, newTagId: string, newIds: nat -> string)
    requires Trim(st.memberListInput) != ""
    ensures ParseNames(st.memberListInput) != []
    ensures HandleAddGroupAndMembers(st, newTagId, newIds).groupNameInput == ""
    ensures HandleAddGroupAndMembers(st, newTagId, newIds).memberListInput == ""
    ensures HandleAddGroupAndMembers(st, newTagId, newIds).tags == TargetTag(st.tags, st.groupNameInput, newTagId).1
  {
    ParseNamesEmpty(st.memberListInput);
  }

  /** A non-blank member list appends one member per parsed name, in their order and all with the
      same tag, which is null exactly when the group name is blank; the existing members stay in
      front. */
  lemma AddGroupAndMembersAppends(st: Step2State, newTagId: string, newIds: nat -> string)
    requires Trim(st.memberListInput) != ""
    ensures var r := HandleAddGroupAndMembers(st, newTagId, newIds).members;
      |r| == |st.members| + |ParseNames(st.memberListInput)| && r[..|st.members|] == st.members
    ensures var r, names := HandleAddGroupAndMembers(st, newTagId, newIds).members, ParseNames(st.memberListInput);
      forall k :: 0 <= k < |names| ==>
        r[|st.members| + k] == Member(newIds(k), names[k], TargetTag(st.tags, st.groupNameInput, newTagId).0)
  {
    AppendNewMembers(st.members, ParseNames(st.memberListInput), TargetTag(st.tags, st.groupNameInput, newTagId).0, newIds);
  }

  /** The new members sit, in order, after the existing ones. */
  lemma AppendNewMembers(members: seq<Member>, names: seq<string>, tagId: Option<string>, newIds: nat -> string)
    ensures var r := members + NewMembers(names, tagId, newIds);
      |r| == |members| + |names| && r[..|members|] == members
    ensures var r := members + NewMembers(names, tagId, newIds);
      forall k :: 0 <= k < |names| ==> r[|members| + k] == Member(newIds(k), names[k], tagId)
  {
    AppendedAt(members, NewMembers(names, tagId, newIds));
  }

  /** When a group name is given, every new member carries the id of the tag labelled with it. */
  lemma AddedMembersCarryGroupTag(st: Step2State, newTagId: string, newIds: nat -> string)
    requires Trim(st.memberListInput) != "" && Trim(st.groupNameInput) != ""
    ensures var r := HandleAddGroupAndMembers(st, newTagId, newIds);
      var found := FindTag(r.tags, Trim(st.groupNameInput));
      found.Some? && forall k :: |st.members| <= k < |r.members| ==> r.members[k].tagId == Some(r.tags[found.value].id)
  {
    GetOrCreateFinds(st.tags, Trim(st.groupNameInput), newTagId);
  }

  function KeepOthers(id: string): Member -> bool {
    (m: Member) => m.id != id
  }

  /** `removeMember`: keeps, in order, the members whose id differs from `id`. */
  function RemoveMember(members: seq<Member>, id: string): (r: seq<Member>)
    ensures |r| <= |members|
    ensures forall m :: m in r <==> m in members && m.id != id
  {
    Filter(members, KeepOthers(id))
  }

  /** Removal keeps the survivors in their order: it distributes over concatenation. */
  lemma RemoveMemberConcat(a: seq<Member>, b: seq<Member>, id: string)
    ensures RemoveMember(a + b, id) == RemoveMember(a, id) + RemoveMember(b, id)
  {
    FilterConcat(a, b, KeepOthers(id));
  }

  /** Removing an id nobody has changes nothing. */
  lemma RemoveAbsentMember(members: seq<Member>, id: string)
    requires forall k :: 0 <= k < |members| ==> members[k].id != id
    ensures RemoveMember(members, id) == members
  {
    FilterAllKept(members, KeepOthers(id));
  }

  /** Removing a member just added under a fresh id restores the list. */
  lemma RemoveUndoesAdd(members: seq<Member>, m: Member)
    requires forall k :: 0 <= k < |members| ==> members[k].id != m.id
    ensures RemoveMember(members + [m], m.id) == members
  {
    FilterSnoc(members, m, KeepOthers(m.id));
    RemoveAbsentMember(members, m.id);
  }
}
