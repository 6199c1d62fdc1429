/** Rights, and the records of the authorization store seen as lists of rights. */
module Rights {
  import opened Access

  const NO_MARKER: char := '\0'
  const IS_EXCLUSIVE: char := 'X'
  const IGNORE_EXCLUSIVE: char := 'N'

  datatype Right = Right(
    id: string, access: Access, marker: char, isDeleted: bool, level: nat, counters: map<char, nat>)

  /** The right a fresh record entry starts from: full access, no marker. */
  function NewRight(id: string): Right {
    Right(id, FULL, NO_MARKER, false, 0, map[])
  }

  /** The level beyond which neither the groups of an object nor those of a subject are followed. */
  const MAX_LEVEL: nat := 32

  // ----- the store

  const PERMISSION_PREFIX := "P"
  const FILTER_PREFIX := "F"
  const MEMBERSHIP_PREFIX := "M"

  /** One lookup: the text of the record with the rights it decodes to, or an error code; negative codes are failures. */
  datatype Fetched = Text(text: string, rights: seq<Right>) | Missing(code: int)

  /** What a lookup means for a reference walk, which takes every missing record alike. */
  datatype Record = NoRecord | Entries(rights: seq<Right>)

  function RecordOf(f: Fetched): Record {
    match f
    case Text(_, rights) => Entries(rights)
    case Missing(_) => NoRecord
  }

  function Memberships(db: string -> Fetched): string -> Record {
    (uri: string) => RecordOf(db(MEMBERSHIP_PREFIX + uri))
  }

  function Permissions(db: string -> Fetched, filter: string): string -> Record {
    (uri: string) => RecordOf(db(PERMISSION_PREFIX + filter + uri))
  }

  predicate Contains(text: string, part: string) {
    exists i | 0 <= i <= |text| :: OccursAt(text, part, i)
  }

  predicate OccursAt(text: string, part: string, i: nat) {
    i + |part| <= |text| && text[i..i + |part|] == part
  }
}
