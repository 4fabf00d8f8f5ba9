/**
  Positions in a change journal (usn.go).
 */
module UsnCursor {

  /** A resumable position: which journal, and how far. */
  datatype Cursor = Cursor(journalId: nat, nextUsn: int)

  /** The cursor of a snapshot that has none. */
  const ZERO: Cursor := Cursor(0, 0)

  /** What a query of a journal says. */
  datatype Info = Info(id: nat, firstUsn: int, nextUsn: int)

  /** `USNJournalInfo.Cursor`. */
  function CursorOf(info: Info): Cursor {
    Cursor(info.id, info.nextUsn)
  }
}
