/** `NoteTitle::parse`: not blank, at most 200 graphemes, none of nine
    forbidden characters; checked in that order. */
module NoteTitle {
  import opened Wrappers
  import opened Text

  const MAX_GRAPHEMES := 200
  const FORBIDDEN: seq<char> := ['/', '(', ')', '"', '<', '>', '\\', '{', '}']

  const EMPTY := "Title cannot be empty"
  const TOO_LONG := "Title is too long (max 200 characters)"
  const FORBIDDEN_CHARACTERS := "Title contains forbidden characters"

  /** A title that passed the checks, stored as given (not trimmed). */
  datatype NoteTitle = NoteTitle(value: string) {

    function AsRef(): string {
      value
    }
  }

  predicate HasForbidden(s: string) {
    exists i | 0 <= i < |s| :: s[i] in FORBIDDEN
  }

  /** The three checks as one statement. */
  predicate Valid(s: string) {
    !IsBlank(s) && GraphemeCount(s) <= MAX_GRAPHEMES && !HasForbidden(s)
  }

  function Parse(s: string): (r: Result<NoteTitle, string>)
    ensures r.Ok? <==> Valid(s)
    ensures r.Ok? ==> r.value.AsRef() == s
    ensures r == Err(EMPTY) <==> IsBlank(s)
    ensures r == Err(TOO_LONG) <==> !IsBlank(s) && GraphemeCount(s) > MAX_GRAPHEMES
    ensures r == Err(FORBIDDEN_CHARACTERS) <==>
              !IsBlank(s) && GraphemeCount(s) <= MAX_GRAPHEMES && HasForbidden(s)
  {
    TrimEmptyIffBlank(s);
    var isEmptyOrWhitespace := Trim(s) == [];
    var isTooLong := GraphemeCount(s) > MAX_GRAPHEMES;
    var containsForbiddenCharacters := HasForbidden(s);
    if isEmptyOrWhitespace then Err(EMPTY)
    else if isTooLong then Err(TOO_LONG)
    else if containsForbiddenCharacters then Err(FORBIDDEN_CHARACTERS)
    else Ok(NoteTitle(s))
  }

  /** The empty and the whitespace-only titles of the create tests are refused. */
  lemma EmptyTitleRefused()
    ensures Parse("") == Err(EMPTY)
  {
    assert IsBlank("");
  }

  lemma SpacesTitleRefused()
    ensures Parse("   ") == Err(EMPTY)
  {
    var s := "   ";
    assert IsBlank(s) by {
      assert forall i | 0 <= i < |s| :: s[i] == ' ';
    }
  }
}
