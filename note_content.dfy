/** `NoteContent::parse`: any text that is not blank, with no length limit. */
module NoteContent {
  import opened Wrappers
  import opened Text

  const EMPTY := "Content cannot be empty"

  datatype NoteContent = NoteContent(value: string) {

    function AsRef(): string {
      value
    }
  }

  function Parse(s: string): (r: Result<NoteContent, string>)
    ensures r.Ok? <==> !IsBlank(s)
    ensures r.Ok? ==> r.value.AsRef() == s
    ensures r.Err? ==> r.error == EMPTY
    ensures r.Ok? ==> exists i | 0 <= i < |s| :: !IsWhitespace(s[i])
  {
    TrimEmptyIffBlank(s);
    if Trim(s) == [] then Err(EMPTY) else Ok(NoteContent(s))
  }

  /** Length is no limit: accepted content stays accepted, and verbatim,
      whatever is appended to it. */
  lemma {:induction false} NoLengthLimit(s: string, more: string)
    requires Parse(s).Ok?
    ensures Parse(s + more).Ok?
    ensures Parse(s + more).value.AsRef() == s + more
  {
    var i :| 0 <= i < |s| && !IsWhitespace(s[i]);
    assert (s + more)[i] == s[i];
  }
}
