/** `update_note`: a partial update of one note. The id is parsed first, then
    the body; only then is the note looked up, and only a note the caller owns
    is changed. The notes table is a map from note id to row. */
module NotesUpdate {
  import opened Wrappers
  import opened Ids
  import opened Http
  import Note
  import NoteTitle
  import NoteContent

  const QUERY_FAILED := "Failed to query the notes table"

  datatype UpdateNoteError = ValidationError(message: string) | NotFound | InvalidId | UnexpectedError(cause: string) {

    /** `ResponseError::status_code`. */
    function StatusCode(): (code: int)
      ensures code == BAD_REQUEST <==> ValidationError? || InvalidId?
      ensures code == NOT_FOUND <==> NotFound?
      ensures code == INTERNAL_SERVER_ERROR <==> UnexpectedError?
    {
      match this
      case ValidationError(_) => BAD_REQUEST
      case NotFound => NOT_FOUND
      case InvalidId => BAD_REQUEST
      case UnexpectedError(_) => INTERNAL_SERVER_ERROR
    }

    /** `Display`. */
    function Message(): (m: string)
      ensures ValidationError? ==> m == "Invalid input: " + message
      ensures NotFound? ==> m == "Note not found"
      ensures InvalidId? ==> m == "Invalid note ID"
      ensures UnexpectedError? ==> m == cause
    {
      match this
      case ValidationError(msg) => "Invalid input: " + msg
      case NotFound => "Note not found"
      case InvalidId => "Invalid note ID"
      case UnexpectedError(c) => c
    }
  }

  /** A stored note: its owner, its text, and when it was last changed. */
  datatype NoteRow = NoteRow(userId: Uuid, title: string, content: string, createdAt: int, updatedAt: int)

  /** The body of a successful answer, as `RETURNING` gives it. */
  datatype UpdateNoteResponse = UpdateNoteResponse(noteId: string, title: string, content: string, updatedAt: int)

  /** The row the lookup finds: the note with that id, owned by that user. */
  predicate Owns(rows: map<Uuid, NoteRow>, noteId: Uuid, userId: Uuid) {
    noteId in rows && rows[noteId].userId == userId
  }

  /** The field merge: a provided field replaces the stored one, an absent one
      keeps it; the owner and creation time stay, the change time is `now`. */
  function Merge(update: Note.UpdateNote, existing: NoteRow, now: int): (r: NoteRow)
    ensures update.title.Some? ==> r.title == update.title.value.AsRef()
    ensures update.title.None? ==> r.title == existing.title
    ensures update.content.Some? ==> r.content == update.content.value.AsRef()
    ensures update.content.None? ==> r.content == existing.content
    ensures r.userId == existing.userId && r.createdAt == existing.createdAt && r.updatedAt == now
  {
    NoteRow(
      existing.userId,
      if update.title.Some? then update.title.value.AsRef() else existing.title,
      if update.content.Some? then update.content.value.AsRef() else existing.content,
      existing.createdAt,
      now)
  }

  /** Applying the same update twice is applying it once. */
  lemma MergeIdempotent(update: Note.UpdateNote, existing: NoteRow, now: int)
    ensures Merge(update, Merge(update, existing, now), now) == Merge(update, existing, now)
  {
  }

  /** An update carrying both fields makes the stored text irrelevant. */
  lemma FullUpdateOverwrites(update: Note.UpdateNote, a: NoteRow, b: NoteRow, now: int)
    requires update.title.Some? && update.content.Some?
    requires a.userId == b.userId && a.createdAt == b.createdAt
    ensures Merge(update, a, now) == Merge(update, b, now)
  {
  }

  /** A parsed update leaves the text it carries unchanged, so a provided title
      or content is stored exactly as sent. */
  lemma ParsedUpdateStoredVerbatim(title: Option<string>, content: Option<string>, existing: NoteRow, now: int)
    requires Note.ParseUpdateNote(title, content).Ok?
    ensures var merged := Merge(Note.ParseUpdateNote(title, content).value, existing, now);
            && merged.title == (if title.Some? then title.value else existing.title)
            && merged.content == (if content.Some? then content.value else existing.content)
  {
  }

  /** The checks before the database, in order: the id, then the body. */
  function CheckRequest(noteIdText: string, title: Option<string>, content: Option<string>,
                        parseUuid: string -> Option<Uuid>): (r: Result<(Uuid, Note.UpdateNote), UpdateNoteError>)
    ensures r == Err(InvalidId) <==> parseUuid(noteIdText).None?
    ensures r.Err? && r.error.ValidationError? <==>
              parseUuid(noteIdText).Some? && !Note.ValidUpdate(title, content)
    ensures r.Err? && r.error.ValidationError? ==> r.error.message == Note.ParseUpdateNote(title, content).error
    ensures r.Ok? <==> parseUuid(noteIdText).Some? && Note.ValidUpdate(title, content)
    ensures r.Ok? ==> r.value == (parseUuid(noteIdText).value, Note.ParseUpdateNote(title, content).value)
  {
    match parseUuid(noteIdText)
    case None => Err(InvalidId)
    case Some(id) =>
      match Note.ParseUpdateNote(title, content)
      case Err(message) => Err(ValidationError(message))
      case Ok(update) => Ok((id, update))
  }

  /** A malformed id is reported as such whatever the body holds, even an
      empty one. */
  lemma InvalidIdBeforeBody(noteIdText: string, parseUuid: string -> Option<Uuid>)
    requires parseUuid(noteIdText).None?
    ensures CheckRequest(noteIdText, None, None, parseUuid) == Err(InvalidId)
    ensures CheckRequest(noteIdText, None, None, parseUuid).Err?
    ensures CheckRequest(noteIdText, None, None, parseUuid).error.StatusCode() == BAD_REQUEST
  {
  }

  /** An update with neither field is a validation error, answered with 400. */
  lemma EmptyBodyRejected(noteIdText: string, parseUuid: string -> Option<Uuid>)
    requires parseUuid(noteIdText).Some?
    ensures CheckRequest(noteIdText, None, None, parseUuid) == Err(ValidationError(Note.NO_FIELDS))
    ensures CheckRequest(noteIdText, None, None, parseUuid).error.StatusCode() == BAD_REQUEST
  {
  }

  /** The HTTP status of an outcome. */
  function StatusOf(r: Result<UpdateNoteResponse, UpdateNoteError>): (code: int)
    ensures r.Ok? <==> code == OK
    ensures r.Err? ==> code == r.error.StatusCode()
  {
    if r.Ok? then OK else r.error.StatusCode()
  }

  class NotesTable {
    var rows: map<Uuid, NoteRow>

    constructor (rows: map<Uuid, NoteRow>)
      ensures this.rows == rows
    {
      this.rows := rows;
    }

    /** `update_note_in_db`: look the note up by id and owner, merge, write it
        back at instant `now`. `selectFails` and `updateFails` stand for the
        two queries failing; a failed statement changes nothing. */
    method UpdateNoteInDb(noteId: Uuid, userId: Uuid, update: Note.UpdateNote, now: int,
                          selectFails: bool, updateFails: bool)
      returns (r: Result<UpdateNoteResponse, UpdateNoteError>)
      modifies this
      ensures selectFails ==> r == Err(UnexpectedError(QUERY_FAILED)) && rows == old(rows)
      // a missing note and someone else's note are both "not found", and that
      // note is left as it was
      ensures !selectFails && !Owns(old(rows), noteId, userId) ==> r == Err(NotFound) && rows == old(rows)
      ensures !selectFails && Owns(old(rows), noteId, userId) && updateFails ==>
                r == Err(UnexpectedError(QUERY_FAILED)) && rows == old(rows)
      // otherwise exactly that row changes, and the answer shows it as stored
      ensures !selectFails && Owns(old(rows), noteId, userId) && !updateFails ==>
                && rows == old(rows)[noteId := Merge(update, old(rows)[noteId], now)]
                && r == Ok(UpdateNoteResponse(noteId.ToString(), rows[noteId].title, rows[noteId].content, now))
    {
      if selectFails {
        return Err(UnexpectedError(QUERY_FAILED));
      }
      if !Owns(rows, noteId, userId) {
        return Err(NotFound);
      }
      var existing := rows[noteId];
      var newTitle := if update.title.Some? then update.title.value.AsRef() else existing.title;
      var newContent := if update.content.Some? then update.content.value.AsRef() else existing.content;
      if updateFails {
        return Err(UnexpectedError(QUERY_FAILED));
      }
      rows := rows[noteId := NoteRow(existing.userId, newTitle, newContent, existing.createdAt, now)];
      var row := rows[noteId];
      r := Ok(UpdateNoteResponse(noteId.ToString(), row.title, row.content, row.updatedAt));
    }

    /** `update_note`: the id, then the body, then the database. */
    method HandleUpdate(userId: Uuid, noteIdText: string, title: Option<string>, content: Option<string>,
                        parseUuid: string -> Option<Uuid>, now: int, selectFails: bool, updateFails: bool)
      returns (r: Result<UpdateNoteResponse, UpdateNoteError>)
      modifies this
      // a request refused before the database leaves every note as it was
      ensures CheckRequest(noteIdText, title, content, parseUuid).Err? ==>
                r == Err(CheckRequest(noteIdText, title, content, parseUuid).error) && rows == old(rows)
      ensures r.Ok? ==> CheckRequest(noteIdText, title, content, parseUuid).Ok?
      // a request that passes both checks gets what the database step answers
      ensures CheckRequest(noteIdText, title, content, parseUuid).Ok? && selectFails ==>
                r == Err(UnexpectedError(QUERY_FAILED)) && rows == old(rows)
      ensures CheckRequest(noteIdText, title, content, parseUuid).Ok? && !selectFails ==>
                var (noteId, update) := CheckRequest(noteIdText, title, content, parseUuid).value;
                && (!Owns(old(rows), noteId, userId) ==> r == Err(NotFound) && rows == old(rows))
                && (Owns(old(rows), noteId, userId) && updateFails ==>
                      r == Err(UnexpectedError(QUERY_FAILED)) && rows == old(rows))
                && (Owns(old(rows), noteId, userId) && !updateFails ==>
                      && rows == old(rows)[noteId := Merge(update, old(rows)[noteId], now)]
                      && r == Ok(UpdateNoteResponse(noteId.ToString(), rows[noteId].title, rows[noteId].content, now)))
      ensures r.Ok? ==>
                var (noteId, update) := CheckRequest(noteIdText, title, content, parseUuid).value;
                && Owns(old(rows), noteId, userId)
                && rows == old(rows)[noteId := Merge(update, old(rows)[noteId], now)]
      // only the caller's own notes can change
      ensures forall id | id in old(rows) && old(rows)[id].userId != userId :: id in rows && rows[id] == old(rows)[id]
      ensures rows.Keys == old(rows).Keys
    {
      var checked := CheckRequest(noteIdText, title, content, parseUuid);
      if checked.Err? {
        return Err(checked.error);
      }
      var (noteId, update) := checked.value;
      r := UpdateNoteInDb(noteId, userId, update, now, selectFails, updateFails);
    }
  }
}
