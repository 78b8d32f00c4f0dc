/** The entities shared by the settings editor, the member editor and the seating generator. */
module Types {

  datatype Option<+T> = None | Some(value: T)

  /** A participant. `tagId` is the id of the group tag the member belongs to; `None` stands for null. */
  datatype Member = Member(id: string, name: string, tagId: Option<string>)

  /** A group label with its display colour (`label` is a reserved word in Dafny, hence `text`). */
  datatype Tag = Tag(id: string, text: string, color: string)

  /** One table as configured: its id and the number of seats. Nothing stops a caller from
      handing the generator a capacity of zero or less. */
  datatype TableDefinition = TableDefinition(id: string, capacity: int)

  /** One table of a generated arrangement; `members` is in assignment order. */
  datatype Table = Table(id: string, name: string, capacity: int, members: seq<Member>)

  /** The palette new tags cycle through, in order. */
  const TagColors: seq<string> := [
    "bg-blue-100 text-blue-700 border-blue-200",
    "bg-pink-100 text-pink-700 border-pink-200",
    "bg-purple-100 text-purple-700 border-purple-200",
    "bg-green-100 text-green-700 border-green-200",
    "bg-orange-100 text-orange-700 border-orange-200",
    "bg-cyan-100 text-cyan-700 border-cyan-200",
    "bg-yellow-100 text-yellow-700 border-yellow-200",
    "bg-red-100 text-red-700 border-red-200",
    "bg-lime-100 text-lime-700 border-lime-200",
    "bg-indigo-100 text-indigo-700 border-indigo-200"
  ]

  /** JavaScript truthiness of `m.tagId`: both null and the empty string count as "no group". */
  predicate IsTagged(m: Member) {
    m.tagId.Some? && m.tagId.value != ""
  }

  /** The member belongs to the group whose tag id is `key`. */
  predicate HasTag(m: Member, key: string) {
    IsTagged(m) && m.tagId.value == key
  }
}
