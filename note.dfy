/** `NewNote::parse` and `UpdateNote::parse`: composition of the title and
    content parsers, title first. */
module Note {
  import opened Wrappers
  import opened Ids
  import NoteTitle
  import NoteContent

  datatype NewNote = NewNote(userId: Uuid, title: NoteTitle.NoteTitle, content: NoteContent.NoteContent)

  /** A partial update: each field is either replaced (`Some`) or kept (`None`). */
  datatype UpdateNote = UpdateNote(title: Option<NoteTitle.NoteTitle>, content: Option<NoteContent.NoteContent>)

  const NO_FIELDS := "At least one field (title or content) must be provided"

  function ParseNewNote(userId: Uuid, title: string, content: string): (r: Result<NewNote, string>)
    ensures r.Ok? <==> NoteTitle.Valid(title) && NoteContent.Parse(content).Ok?
    ensures r.Ok? ==> r.value == NewNote(userId, NoteTitle.NoteTitle(title), NoteContent.NoteContent(content))
    // the title's error wins over the content's
    ensures !NoteTitle.Valid(title) ==> r == Err(NoteTitle.Parse(title).error)
    ensures NoteTitle.Valid(title) && NoteContent.Parse(content).Err? ==> r == Err(NoteContent.EMPTY)
  {
    var t :- NoteTitle.Parse(title);
    var c :- NoteContent.Parse(content);
    Ok(NewNote(userId, t, c))
  }

  /** The field-by-field acceptance rule of an update request. */
  predicate ValidUpdate(title: Option<string>, content: Option<string>) {
    && (title.Some? || content.Some?)
    && (title.Some? ==> NoteTitle.Valid(title.value))
    && (content.Some? ==> NoteContent.Parse(content.value).Ok?)
  }

  function ParseUpdateNote(title: Option<string>, content: Option<string>): (r: Result<UpdateNote, string>)
    ensures r.Ok? <==> ValidUpdate(title, content)
    // a provided field becomes its parsed value, an absent one stays absent
    ensures r.Ok? ==> r.value.title == (if title.Some? then Some(NoteTitle.NoteTitle(title.value)) else None)
    ensures r.Ok? ==> r.value.content == (if content.Some? then Some(NoteContent.NoteContent(content.value)) else None)
    // errors take precedence in the order title, content, "at least one field"
    ensures title.Some? && !NoteTitle.Valid(title.value) ==> r == Err(NoteTitle.Parse(title.value).error)
    ensures (title.Some? ==> NoteTitle.Valid(title.value)) && content.Some? && NoteContent.Parse(content.value).Err? ==>
              r == Err(NoteContent.EMPTY)
    ensures r == Err(NO_FIELDS) <==> title.None? && content.None?
  {
    var t :- match title {
      case Some(s) => (var p :- NoteTitle.Parse(s); Ok(Some(p)))
      case None => Ok(None)
    };
    var c :- match content {
      case Some(s) => (var p :- NoteContent.Parse(s); Ok(Some(p)))
      case None => Ok(None)
    };
    if t.None? && c.None? then Err(NO_FIELDS) else Ok(UpdateNote(t, c))
  }

  /** An invalid field rejects the whole update, even when the other is valid. */
  lemma OneBadFieldRejectsUpdate(title: string, content: string)
    requires NoteTitle.Valid(title) != NoteContent.Parse(content).Ok?
    ensures ParseUpdateNote(Some(title), Some(content)).Err?
    ensures ParseUpdateNote(Some(title), Some(content)).error != NO_FIELDS
  {
  }
}
