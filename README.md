# Seating generator: a verified model

This project models the logic of a web app that seats party guests at tables. There are three parts:

- **The generator** (`utils/seatingLogic.ts`). `generateSeating` works in five steps:
  1. It builds one empty table per table definition, named `Table A`, `Table B`, and so on.
  2. It puts each member into the bucket for their group tag; members without a tag go into an untagged pool.
  3. It applies a Fisher–Yates shuffle (`shuffleArray`) to every bucket and to the pool.
  4. It deals the buckets round-robin into a single list and appends the pool after them. This list is the dispersion list.
  5. It pours that list into the tables in order. A cursor moves forward past each full table, and whoever is left over once the cursor passes the last table is unassigned.
- **The settings screen** (`components/Step1Settings.tsx`): the member-count buttons, the table list editor and the seat total.
- **The member editor** (`components/Step2Members.tsx`):
  - looking up or creating a tag;
  - parsing a pasted list into one name per non-blank line;
  - adding members under a group tag;
  - removing a member.

## Structure

| file | module | what it holds |
|---|---|---|
| types.dfy | `Types` | Member, Tag, TableDefinition and Table; the tag palette; what counts as tagged. |
| seqs.dfy | `Seqs` | `Filter` (`Array.prototype.filter`) and `Flatten`, with their facts. |
| js_string.dfy | `JsString` | `trim` and `split` for one-character separators, and their inverse `join`. |
| shuffle.dfy | `Shuffle` | `shuffleArray`: a fresh array shuffled in place, specified by the function `Shuffled`. |
| grouping.dfy | `Grouping` | The bucketing `forEach`, specified by `TagKeys`, `GroupMap` and `Bucket`. |
| dispersion.dfy | `Dispersion` | The round-robin loops, specified by `Round`, `Rounds` and `RoundRobin`. |
| seating_logic.dfy | `SeatingLogic` | Table construction, shuffling every bucket, the dispersion list, the fill loop on an `array<Table>`, the greedy fill as a function, and `generateSeating`. |
| step1_settings.dfy | `Step1Settings` | The settings handlers as functions on sequences. |
| step2_members.dfy | `Step2Members` | The member editor's handlers as functions on sequences and on the editor state. |

### How `Math.random` and ids are modelled

`Math.random` becomes a parameter `random: nat -> real`. `random(n)` is the value returned by the n-th call during one run, and `RandomInRange` requires every value to lie in [0, 1).

The shuffle of `n` elements uses `CallsFor(n)` consecutive calls, that is `max(n - 1, 0)`: none for an empty or one-element array. The shuffles run in this order: the buckets in key order, then the pool. That ties the arrangement to the random values, so the arrangement is a function of them: `Placement` and `Fill`.

Ids that the source draws from `Math.random().toString(36)` are passed in as parameters.

### Behaviour of the code worth knowing

- **Table names** (utils/seatingLogic.ts:28). The comment there reads "Table A, B, C...", but the name is `"Table " + String.fromCharCode(65 + i)`, so the 27th table is called `Table [`. `FirstTableNames` proves the names A to Z for the first 26 tables. `TableNamesDistinct` proves the names stay distinct until the code unit reaches the surrogate range.
- **Untagged members** (utils/seatingLogic.ts:38). The test `if (m.tagId)` is a truthiness test, so a member whose `tagId` is `null` or the empty string goes to the untagged pool (`Types.IsTagged`).
- **Capacity bound** (utils/seatingLogic.ts:90). The cursor skips a table when `members.length >= capacity`, so a table with capacity 0 or less receives no one. The bound is therefore stated as "empty, or at most `capacity` members" (`WithinCapacity`), not as `|members| <= capacity`.
- **Adjacent members of one group** (utils/seatingLogic.ts:55). The comment there calls the round-robin list "well-mixed", but two members of one group can still end up next to each other once the smaller groups run out. `Dispersion.UnevenGroupsMeet` gives such an input. What the loops do guarantee is proved instead:
  - no round holds two members with the same tag;
  - the dispersion list follows rounds first and buckets second.

## Model

| member | source | states |
|---|---|---|
| Shuffle.Swap | utils/seatingLogic.ts:10 | Definition of the destructuring swap, keeping the length. Its meaning is proved by `SwapPermutes` and `SwapAt`. |
| Shuffle.ShuffleFrom | utils/seatingLogic.ts:8-11 | Definition of the remaining loop from index `i` down to 1. Its meaning is proved by `ShuffleFromPermutes`; `ShuffleInPlace` computes it. |
| Shuffle.Shuffled | utils/seatingLogic.ts:6-13 | Definition of the whole shuffle. Its meaning is proved by `ShuffledPermutes`; `ShuffleArray` computes it. |
| Shuffle.RandomIndex | utils/seatingLogic.ts:9 | For a random value in [0, 1), `Math.floor(r * (i + 1))` is an index at most `i`, so every swap stays inside the array. |
| Shuffle.SwapPermutes | utils/seatingLogic.ts:10 | The destructuring swap only rearranges: the multiset is unchanged. |
| Shuffle.ShuffleFromPermutes | utils/seatingLogic.ts:8-11 | Whatever values the random source returns, the remaining loop steps keep the length and the multiset of the array. |
| Shuffle.ShuffledPermutes | utils/seatingLogic.ts:6-13 | The whole shuffle returns a sequence of the same length with the same elements, each as often as before. |
| Shuffle.ShuffleArray | utils/seatingLogic.ts:6-13 | The returned array:<br>• is a permutation of the input;<br>• is exactly the shuffle `Shuffled` of the input for the given random values;<br>• comes from a fresh copy, so the caller's sequence cannot be changed.<br>It also returns the number of the next call to `Math.random`, that is, what the shuffle did not use. |
| Shuffle.ShuffleInPlace | utils/seatingLogic.ts:8-11 | The descending loop leaves the array holding `Shuffled` of its old contents, and it uses `CallsFor(length)` random values, that is `max(length - 1, 0)`. |
| Shuffle.SwapAt | utils/seatingLogic.ts:10 | The array afterwards is the old one with positions `i` and `j` exchanged. |
| Types.IsTagged | utils/seatingLogic.ts:38 | Definition of the truthiness test `if (m.tagId)`: not null and not the empty string. Its meaning is proved by `Grouping.Bucket` and `Grouping.Untagged`. |
| Grouping.Bucket | utils/seatingLogic.ts:38-42 | A member is in the bucket for `key` exactly when it is one of the members and its `tagId` is truthy and equal to `key`. |
| Grouping.Untagged | utils/seatingLogic.ts:43-44 | A member is in the pool exactly when it is one of the members and its `tagId` is null or empty. |
| Grouping.TagKeys | utils/seatingLogic.ts:39-41 | The bucket keys contain no key twice and are exactly the truthy tag ids that occur. |
| Grouping.TagKeysFirstAppearance | utils/seatingLogic.ts:39-41 | The keys are in order of first appearance: for keys `a` before `b`, the first member tagged `a` comes before the first member tagged `b`. |
| Grouping.FirstAppearanceSnoc | utils/seatingLogic.ts:39-41 | One more member keeps that order: an existing key keeps its first member, and a new key is last and first appears last. |
| Grouping.GroupStep | utils/seatingLogic.ts:37-46 | One iteration of the `forEach` does two things:<br>• a tagged member creates its bucket if it is new, with the key appended, and is pushed onto that bucket;<br>• any other member is pushed onto the pool. |
| Grouping.GroupMap | utils/seatingLogic.ts:37-46 | Definition of the record after the `forEach`. Its meaning is proved by `GroupMapKeys`, `GroupMapBuckets` and `GroupByTag`. |
| Grouping.GroupMapKeys | utils/seatingLogic.ts:39-41 | The record has a key exactly for each truthy tag id that occurs. |
| Grouping.GroupMapBuckets | utils/seatingLogic.ts:39-42 | Each key of the record holds the bucket for that tag, in input order. |
| Grouping.GroupByTag | utils/seatingLogic.ts:33-46 | Afterwards the loop's record holds exactly the first-appearance keys, key `k` holds the bucket for `k`, and the pool holds exactly the untagged members. |
| Grouping.BucketsPartition | utils/seatingLogic.ts:37-46 | With distinct keys that cover every tag present, the buckets and the pool together are a permutation of the members. |
| Grouping.BucketsSnoc | utils/seatingLogic.ts:37-46 | One more member adds exactly one copy of itself to the buckets when it is tagged, and none when it is not. |
| Grouping.GroupingPartition | utils/seatingLogic.ts:37-46 | Grouping loses and duplicates no one: the buckets and the pool together are a permutation of the members, and their sizes add up. |
| Dispersion.Round | utils/seatingLogic.ts:65-69 | Definition of one pass of the inner `forEach`. Its meaning is proved by `PrefixesStep`, `RoundAt`, `RoundMember` and `DealRound`. |
| Dispersion.Rounds | utils/seatingLogic.ts:64-70 | Definition of the first `n` passes of the outer loop. Its meaning is proved by `RoundsHoldPrefixes` and `RoundsPrefix`. |
| Dispersion.RoundRobin | utils/seatingLogic.ts:64-70 | Definition of the dealt list. Its meaning is proved by `RoundRobinPermutes`, `PlacedAt` and `PositionOrder`; `Disperse` computes it. |
| Dispersion.Longest | utils/seatingLogic.ts:61-62 | `maxLen` is at least the size of every group and equals the size of one of them, or is 0 when there are no groups. |
| Dispersion.MaxLength | utils/seatingLogic.ts:61-62 | The `forEach` computes `Longest`. |
| Dispersion.DealRound | utils/seatingLogic.ts:65-69 | The inner loop appends round `i`: element `i` of every group that has one, in group order. |
| Dispersion.Disperse | utils/seatingLogic.ts:64-70 | The nested loop builds exactly `RoundRobin`: rounds 0 to `maxLen - 1`, one after the other. |
| Dispersion.PrefixesStep | utils/seatingLogic.ts:65-69 | Round `n` holds exactly position `n` of every group that is long enough. |
| Dispersion.RoundsHoldPrefixes | utils/seatingLogic.ts:64-70 | The first `n` rounds hold exactly the first `n` elements of every group. |
| Dispersion.PrefixesAll | utils/seatingLogic.ts:61-64 | Once `n` reaches every group's size, those prefixes are all the groups' elements. |
| Dispersion.RoundRobinPermutes | utils/seatingLogic.ts:61-70 | The dealt list is a permutation of all the groups' elements together, of the same length. |
| Dispersion.RoundConcat | utils/seatingLogic.ts:65-69 | A round over two runs of groups is the round over the first run followed by the round over the second. |
| Dispersion.RoundAt | utils/seatingLogic.ts:65-69 | Within round `i`, group `b` contributes its element `i` right after the contributions of the groups before it. |
| Dispersion.RoundsPrefix | utils/seatingLogic.ts:64 | The first `n` rounds are a prefix of the first `m` rounds whenever `n <= m`: appending never rewrites. |
| Dispersion.PlacedAt | utils/seatingLogic.ts:64-70 | Element `i` of group `b` sits at position `Position(b, i)` of the dealt list. |
| Dispersion.PositionBefore | utils/seatingLogic.ts:64-70 | An element of an earlier round, or of an earlier group in the same round, has a smaller position. |
| Dispersion.PositionOrder | utils/seatingLogic.ts:64-70 | Positions are ordered by round first and group second, in both directions. In particular a bucket's element `i` always comes before its element `i + 1`. |
| Dispersion.RoundMember | utils/seatingLogic.ts:65-68 | Whatever a round holds is element `i` of some group. |
| Dispersion.RoundTagsDistinct | utils/seatingLogic.ts:64-70 | When each group holds members of its own tag and no two groups share a tag, no round holds two members with the same tag. |
| Dispersion.UnevenGroupsMeet | utils/seatingLogic.ts:64-70 | Groups of sizes three and one are dealt as `1, 4, 2, 3`: two elements of the larger group end up adjacent. |
| SeatingLogic.TableLetter | utils/seatingLogic.ts:28 | Definition of `String.fromCharCode(65 + i)`, with the code unit reduced modulo 2^16. Its meaning is proved by `FirstTableNames` and `TableNamesDistinct`. |
| SeatingLogic.TableName | utils/seatingLogic.ts:28 | Definition of the template literal `Table ${...}`. Its meaning is proved by `FirstTableNames` and `TableNamesDistinct`. |
| SeatingLogic.FirstTableNames | utils/seatingLogic.ts:28 | The first 26 tables are named `Table A` to `Table Z`. |
| SeatingLogic.TableNamesDistinct | utils/seatingLogic.ts:28 | Different tables get different names until the letter code reaches the surrogate range. |
| SeatingLogic.InitialTables | utils/seatingLogic.ts:26-31 | There is one table per definition, in order. Table `i` has definition `i`'s id and capacity, the name `TableName(i)` and no members. |
| SeatingLogic.ShuffleEach | utils/seatingLogic.ts:49-51 | Definition of shuffling the buckets one after another, each with the next unused random values. Its meaning is proved by `ShuffleEachPermutes`; `ShuffleGroups` computes it. |
| SeatingLogic.ShuffleEachPermutes | utils/seatingLogic.ts:49-51 | Every shuffled bucket is a permutation of its bucket. |
| SeatingLogic.Values | utils/seatingLogic.ts:57 | `Object.values` lists, for each key in insertion order, that key's bucket. |
| SeatingLogic.ShuffleStep | utils/seatingLogic.ts:49-51 | One iteration replaces the bucket of the next key by its shuffle drawn at the current call number. It leaves the later buckets untouched and advances the call number by the calls used. |
| SeatingLogic.ShuffleGroups | utils/seatingLogic.ts:49-51 | The loop keeps the record's keys, replaces every bucket, in key order, by its shuffle, and reports the calls used. |
| SeatingLogic.ShuffledBucketsTagged | utils/seatingLogic.ts:49-51 | Every member of shuffled bucket `b` has the tag of key `b`. |
| SeatingLogic.Placement | utils/seatingLogic.ts:56-78 | Definition of the dispersion list. Its meaning is proved by `PlacementPermutes`, `PlacementTaggedFirst` and `PlacementRoundsDistinct`; `BuildDispersionList` computes it. |
| SeatingLogic.DealtPermutes | utils/seatingLogic.ts:56-70 | The dealt part of the dispersion list is a permutation of the buckets' members. |
| SeatingLogic.PlacementPermutes | utils/seatingLogic.ts:56-78 | The dispersion list is a permutation of the input members, of the same length. |
| SeatingLogic.RoundRobinTagged | utils/seatingLogic.ts:64-70 | The dealt part holds tagged members only, and it is exactly as long as the buckets together. |
| SeatingLogic.ShuffledPoolUntagged | utils/seatingLogic.ts:52 | The shuffled pool holds untagged members only. |
| SeatingLogic.PlacementTaggedFirst | utils/seatingLogic.ts:56-78 | Position `p` of the dispersion list holds a tagged member exactly when `p` is less than the total bucket size. Every untagged member therefore comes after every tagged one. |
| SeatingLogic.PlacementRoundsDistinct | utils/seatingLogic.ts:64-70 | No round of the actual dispersal holds two members with the same tag. |
| SeatingLogic.SeatedAppendAt | utils/seatingLogic.ts:96 | Pushing onto the current table, when every later table is still empty, puts the member last in table order. |
| SeatingLogic.PouringStart | utils/seatingLogic.ts:83-84 | With empty tables, the cursor at 0 and nothing unassigned, the loop state holds. |
| SeatingLogic.PouringSkip | utils/seatingLogic.ts:88-93 | Moving the cursor past full tables keeps the loop state. |
| SeatingLogic.PouringSeat | utils/seatingLogic.ts:95-96 | Seating the member at a current table that has room keeps the loop state, and the member is handled. |
| SeatingLogic.PouringLeave | utils/seatingLogic.ts:97-98 | Once the cursor has passed every table, pushing the member onto `unassigned` keeps the loop state. |
| SeatingLogic.PouringDone | utils/seatingLogic.ts:86-100 | After the whole list, the loop state gives every guarantee of `Arranged`. |
| SeatingLogic.Full | utils/seatingLogic.ts:90 | Definition of the loop test `members.length >= capacity`. Its meaning is proved by `NextOpen`, which skips exactly the full tables. |
| SeatingLogic.NextOpen | utils/seatingLogic.ts:88-93 | The `while` loop stops at the first table from the cursor on that is not full, or at the end. It skips only full tables. |
| SeatingLogic.Distribute | utils/seatingLogic.ts:83-100 | The fill loop on the table array guarantees `Arranged`:<br>• tables keep id, name and capacity;<br>• the tables' members in order, then `unassigned`, give back the list;<br>• no capacity is exceeded;<br>• a table has members only if every earlier table is full;<br>• someone is unassigned only if every table is full. |
| SeatingLogic.Take | utils/seatingLogic.ts:88-96 | A table of capacity 0 or less takes no one. Otherwise it takes as many of the remaining members as fit. |
| SeatingLogic.Fill | utils/seatingLogic.ts:83-100 | Definition of the greedy fill, table by table. Its meaning is proved by `ArrangedIsFill` and `FillLeftover`. |
| SeatingLogic.FillLeftover | utils/seatingLogic.ts:83-100 | The greedy fill leaves unassigned exactly the members beyond the seats on offer. |
| SeatingLogic.ArrangedIsFill | utils/seatingLogic.ts:83-100 | Any outcome with the guarantees of `Arranged` is the greedy fill `Fill`, so those guarantees determine the outcome completely. |
| SeatingLogic.ArrangedHead | utils/seatingLogic.ts:88-96 | In such an outcome, the first table holds exactly the first `Take` members of the list. |
| SeatingLogic.ArrangedTail | utils/seatingLogic.ts:88-96 | The remaining tables, with the rest of the list, again have the guarantees of `Arranged`. |
| SeatingLogic.BuildDispersionList | utils/seatingLogic.ts:33-78 | Grouping, shuffling, dealing and appending the pool produce exactly `Placement`: the shuffled buckets dealt round-robin, followed by the pool shuffled with the next random values. |
| SeatingLogic.GroupedValues | utils/seatingLogic.ts:57 | The record built by the grouping loop, read in key order, is the list of buckets. |
| SeatingLogic.SeatingOutcome | utils/seatingLogic.ts:26-102 | For tables built from the definitions, `Arranged` gives the generator's guarantees listed under `GenerateSeating`. |
| SeatingLogic.GenerateSeating | utils/seatingLogic.ts:20-103 | Guarantees about the tables:<br>• one table per definition, in order, with its id, capacity and name;<br>• no capacity exceeded, and no one at a table of capacity 0 or less;<br>• tables filled in order.<br>Guarantees about who sits where:<br>• the tables' members, then `unassigned`, are exactly the dispersion list, so conservation holds as a permutation of the members;<br>• exactly the members beyond the seats on offer are unassigned, someone is unassigned only if every table is full, and with no tables everyone is;<br>• the outcome is the greedy `Fill` of the dispersion list. |
| Step1Settings.TotalSeats | components/Step1Settings.tsx:15 | Definition of the `reduce` that sums the capacities. Its meaning is proved by `TotalSeatsConcat`, `TotalSeatsCountsSeats` and `ShortOfSeats`. |
| Step1Settings.TotalSeatsConcat | components/Step1Settings.tsx:15 | The seat total of two lists of definitions is the sum of their totals. |
| Step1Settings.TotalSeatsAtLeastTables | components/Step1Settings.tsx:15 | When every capacity is at least 1, there are at least as many seats as tables. |
| Step1Settings.TotalSeatsCountsSeats | components/Step1Settings.tsx:15 | Without negative capacities, `totalSeats` equals the seats the generator fills. |
| Step1Settings.ShortOfSeats | components/Step1Settings.tsx:101 | The seat card turns pink (`totalSeats < memberCount`) exactly when the generator leaves someone unassigned, assuming no capacity is negative. |
| Step1Settings.NatToDecimal | components/Step1Settings.tsx:21 | An integer is printed in a template literal as digits only, with no leading zero except in `0`. |
| Step1Settings.DecimalRoundTrip | components/Step1Settings.tsx:21 | Reading the printed numeral back gives the number. |
| Step1Settings.ParticipantName | components/Step1Settings.tsx:21 | Definition of the default name `参加者 ${n}`. Its meaning is proved by `NatToDecimal`, `DecimalRoundTrip` and `ParticipantNamesDistinct`. |
| Step1Settings.ParticipantNamesDistinct | components/Step1Settings.tsx:21 | Different counts give different default names. |
| Step1Settings.IncreaseMembers | components/Step1Settings.tsx:18-25 | The old members are kept, followed by one new untagged member named `参加者 n+1`, where `n` is the old count. |
| Step1Settings.DecreaseMembers | components/Step1Settings.tsx:27-32 | An empty list stays empty. Otherwise exactly the last member is dropped. |
| Step1Settings.DecreaseUndoesIncrease | components/Step1Settings.tsx:18-32 | The minus button undoes the plus button. |
| Step1Settings.AddTable | components/Step1Settings.tsx:34-43 | Exactly one definition, with the given id and capacity, is appended; the others are unchanged. |
| Step1Settings.AddTableSeats | components/Step1Settings.tsx:34-43 | Adding a table adds its capacity to the seat total. |
| Step1Settings.RemoveTable | components/Step1Settings.tsx:45-50 | A definition survives exactly when it was present and its id differs from the argument. |
| Step1Settings.RemoveTableConcat | components/Step1Settings.tsx:48 | Removal distributes over concatenation, so the survivors keep their relative order. |
| Step1Settings.RemoveUndoesAdd | components/Step1Settings.tsx:34-50 | Removing a table just added under a fresh id restores the list. |
| Step1Settings.RemoveTableSeats | components/Step1Settings.tsx:45-50 | Removing a table with a unique id takes its capacity off the total. |
| Step1Settings.ClampCapacity | components/Step1Settings.tsx:57 | `Math.max(1, capacity + delta)` gives the sum when it is at least 1, and 1 otherwise. |
| Step1Settings.UpdateCapacity | components/Step1Settings.tsx:52-62 | Length, order and ids are kept. A definition with the id gets the clamped capacity, which is at least 1; every other definition is unchanged. |
| Step1Settings.UpdateCapacityRoundTrip | components/Step1Settings.tsx:52-62 | On capacities of at least 1, the minus button undoes the plus button. |
| Step1Settings.EditsKeepPositive | components/Step1Settings.tsx:34-62 | Adding a capacity of at least 1 (the presets 2, 4, 6 and 8), removing a table and updating a capacity all keep every capacity at least 1. |
| Step2Members.FindTag | components/Step2Members.tsx:22 | `find` returns the first tag with the label, or nothing when no tag has it. |
| Step2Members.NextColor | components/Step2Members.tsx:28 | Definition of `TAG_COLORS[tags.length % TAG_COLORS.length]`. Its use is stated by `GetOrCreateTagId`. |
| Step2Members.GetOrCreateTagId | components/Step2Members.tsx:21-31 | If some tag has the label, the function returns the id of the first such tag and adds no tag. Otherwise it returns the fresh id and appends one tag with that label and colour `TAG_COLORS[tags.length % 10]`. |
| Step2Members.GetOrCreateFinds | components/Step2Members.tsx:21-31 | Afterwards some tag has the label, and the first such tag has the returned id. |
| Step2Members.GetOrCreateIdempotent | components/Step2Members.tsx:21-31 | Asking again for the same label creates nothing and returns the same id. |
| Step2Members.TrimAll | components/Step2Members.tsx:44 | Every line is replaced by its trim, and the order and the count are kept. |
| Step2Members.ParseNames | components/Step2Members.tsx:42-45 | Definition of split on newlines, trim each line, keep the non-empty ones. Its meaning is proved by `ParsedNamesAreTrimmedLines`, `ParseNamesConcat`, `ParseOneLine`, `BlankInputNoNames` and `NonBlankInputHasNames`. |
| Step2Members.ParsedNamesAreTrimmedLines | components/Step2Members.tsx:42-45 | Every parsed name is non-empty and is its own trim. It starts and ends with a non-white-space character, and it is one of the trimmed lines. |
| Step2Members.ParseNamesConcat | components/Step2Members.tsx:42-45 | Lines are parsed independently and keep their order: the names of `a` come before the names of `b`. |
| Step2Members.ParseOneLine | components/Step2Members.tsx:42-45 | A single line gives its trim, or nothing when it is blank. |
| Step2Members.BlankInputNoNames | components/Step2Members.tsx:42-45 | An all-white-space input yields no name. |
| Step2Members.NonBlankInputHasNames | components/Step2Members.tsx:42-45 | An input with a character other than white space yields at least one name. |
| Step2Members.ParseNamesEmpty | components/Step2Members.tsx:35-45 | The list yields no name exactly when the guard `!memberListInput.trim()` fires. |
| Step2Members.NewMembers | components/Step2Members.tsx:47-51 | One member per name, in order: the `k`-th gets the `k`-th fresh id, that name and the shared tag. |
| Step2Members.TargetTag | components/Step2Members.tsx:37-40 | The tag is null exactly when the group name trims to empty, and then the tags are unchanged. Otherwise the tag and tags are those of `getOrCreateTagId` on the trimmed name. |
| Step2Members.HandleAddGroupAndMembers | components/Step2Members.tsx:35 | A member list that trims to empty changes nothing: no members, no tags, and the inputs are kept. |
| Step2Members.AddGroupAndMembersEffect | components/Step2Members.tsx:34-58 | A non-blank member list:<br>• yields at least one name;<br>• clears both inputs;<br>• leaves the tags as the group-name lookup left them. |
| Step2Members.AddGroupAndMembersAppends | components/Step2Members.tsx:47-53 | The old members stay in front, followed by one new member per parsed name, in order. All new members share the target tag, which is null exactly when the group name is blank. |
| Step2Members.AddedMembersCarryGroupTag | components/Step2Members.tsx:37-51 | With a group name, every new member carries the id of the first tag labelled with the trimmed name. |
| Step2Members.RemoveMember | components/Step2Members.tsx:60-62 | A member survives exactly when it was present and its id differs from the argument. |
| Step2Members.RemoveMemberConcat | components/Step2Members.tsx:61 | Removal distributes over concatenation, so the survivors keep their order. |
| Step2Members.RemoveAbsentMember | components/Step2Members.tsx:61 | Removing an id nobody has changes nothing. |
| Step2Members.RemoveUndoesAdd | components/Step2Members.tsx:60-62 | Removing a member just appended under a fresh id restores the list. |
| JsString.TrimStart | components/Step2Members.tsx:44 | The result is the suffix of the string left after removing the leading white space; it does not start with white space. |
| JsString.TrimEnd | components/Step2Members.tsx:44 | The result is the prefix of the string left after removing the trailing white space; it does not end with white space. |
| JsString.TrimByEnds | components/Step2Members.tsx:44 | Trimming gives the empty string exactly when every character is white. Otherwise the result starts and ends with a non-white character. |
| JsString.TrimBySlice | components/Step2Members.tsx:44 | Trimming keeps one contiguous slice of the input. |
| JsString.TrimByRemovesWhite | components/Step2Members.tsx:44 | Everything before and after that slice is white. |
| JsString.TrimByIdempotent | components/Step2Members.tsx:44 | Trimming twice is the same as trimming once. |
| JsString.Trim | components/Step2Members.tsx:35 | `trim` gives `""` exactly for all-white-space input. Otherwise its result starts and ends with a character that is not white space. |
| JsString.TrimRemovesOnlyWhiteSpace | components/Step2Members.tsx:44 | `trim` removes nothing but white space, and only at the two ends. |
| JsString.TrimIdempotent | components/Step2Members.tsx:44 | `trim` of a trimmed string changes nothing. |
| JsString.Split | components/Step2Members.tsx:43 | `split` gives at least one piece, and no piece contains the separator. |
| JsString.JoinSplit | components/Step2Members.tsx:43 | Joining the pieces back with the separator gives the original string. |
| JsString.SplitJoin | components/Step2Members.tsx:43 | Splitting a join of separator-free pieces gives the pieces back. |
| JsString.SplitFree | components/Step2Members.tsx:43 | A string without the separator is one piece. |
| JsString.ExtendConcat | components/Step2Members.tsx:43 | Extending the last piece of a concatenation extends the last piece of its second half. |
| JsString.SplitConcat | components/Step2Members.tsx:43 | Text on the two sides of a separator splits independently, in order. |
| JsString.SplitChars | components/Step2Members.tsx:43 | Every non-separator character of the input lies in some piece, and each piece's characters come from the input. |
| Seqs.Filter | components/Step1Settings.tsx:48 | `filter` keeps at most the elements it had, and exactly those satisfying the test. |
| Seqs.FilterConcat | components/Step2Members.tsx:45 | Filtering distributes over concatenation, so what is kept keeps its order. |
| Seqs.FilterAllKept | components/Step2Members.tsx:61 | When every element passes, the filter changes nothing. |
| Seqs.FilterNoneKept | components/Step2Members.tsx:45 | When no element passes, the filter gives the empty list. |
| Seqs.FlattenGrowOne | utils/seatingLogic.ts:42 | Pushing one element onto one bucket adds exactly that element to the buckets taken together. |
| Seqs.FlattenPermuted | utils/seatingLogic.ts:49-51 | Permuting each bucket permutes the buckets taken together. |
| Seqs.FlattenMember | utils/seatingLogic.ts:57-70 | Whatever is in the buckets taken together is in one of the buckets. |

## Left out

- Randomness quality: the model proves what holds for every sequence of random values in [0, 1). It does not prove that the shuffle is uniform.
- Random ids are not modelled. The ids drawn by `Math.random().toString(36).substr(2, 9)` are parameters (`newId`, `newTagId`, `newIds`), and nothing is assumed about them beyond what a lemma requires.
- `Math.random() * (i + 1)` is computed on exact reals. The rounding of double-precision multiplication before `Math.floor` is not modelled.
- `Object.keys` order of the bucket record is modelled as insertion order. JavaScript lists integer-like keys first, in ascending numeric order; integer-like means a canonical array-index numeral such as `7` or `42`, so `01` is not one. The walk over `Object.keys` at utils/seatingLogic.ts:49-51 also fixes the order of the bucket shuffles. With such ids each bucket would therefore be shuffled with different `Math.random` values, not only dealt in a different order. The buckets' members before shuffling are the same.
- Prototype keys are not modelled. A tag id such as `constructor` finds an inherited property in the record built from `{}`; the model treats every tag id as a fresh key.
- The record's and arrays' in-place `push` is modelled by value (`map` and `seq` updates) in the grouping and dealing loops. Only the shuffle and the fill loop work on arrays, and no other reference shares them.
- Capacities are mathematical integers. The NaN and fractional values a JavaScript `number` allows are left out.
- Stale closures are not modelled. `increaseMembers` reads the rendered `members.length` and `getOrCreateTagId` reads the rendered `tags`; the model reads the same list the update is applied to. Batched React updates that would make them differ are out of scope.
- React state, `setState` plumbing, step navigation and the mock data loader of App.tsx are out of scope: they are user-interface wiring or fixed data.
- Rendering is not modelled: JSX, Tailwind classes, `UNTAGGED_COLOR`, `SUGGESTED_GROUPS`, the results screen (components/Step3Results.tsx) and its timer.
- `Types.Tag`: `label` is a reserved word in Dafny, so a tag's `label` is stored in the field `text`.
- `SeatingLogic.TableLetter`: a single UTF-16 code unit in the surrogate range (table indices 55231 to 57278, counting from 0) is not a Dafny `char`. The model puts U+FFFD there instead.
- `Step1Settings.NatToDecimal`: covers the decimal form only. It does not model the exponent notation JavaScript uses from 10^21 on.
- `JsString.IsWhiteSpace` fixes the white-space set as a list of code points: the ECMAScript WhiteSpace and LineTerminator characters, with the Space_Separator characters of current Unicode. A space character added by a later Unicode version is not covered.
- `SeatingLogic.Fill` states only its length. Its meaning is given by `ArrangedIsFill`, `FillLeftover` and `GenerateSeating`.
