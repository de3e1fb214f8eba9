/** `TagName::parse` and `NewTag::parse`: a tag name is not blank, at most 50
    graphemes, and made of alphanumerics, `-` and `_`; it is stored lower-cased. */
module Tag {
  import opened Wrappers
  import opened Ids
  import opened Text

  const MAX_GRAPHEMES := 50

  const EMPTY := "Tag name cannot be empty"
  // the missing parenthesis is the source's own message
  const TOO_LONG := "Tag name is too long (max 50 characters"
  const BAD_CHARACTERS := "Tag name can only contain letters, numbers, hyphens, and underscores"

  datatype TagName = TagName(value: string) {

    function AsRef(): string {
      value
    }
  }

  datatype NewTag = NewTag(userId: Uuid, name: TagName)

  predicate IsTagChar(c: char) {
    IsAlphanumeric(c) || c == '-' || c == '_'
  }

  /** `s.chars().all(|c| c.is_alphanumeric() || c == '-' || c == '_')`. */
  predicate AllTagChars(s: string) {
    forall i | 0 <= i < |s| :: IsTagChar(s[i])
  }

  predicate Valid(s: string) {
    !IsBlank(s) && GraphemeCount(s) <= MAX_GRAPHEMES && AllTagChars(s)
  }

  function ParseTagName(s: string): (r: Result<TagName, string>)
    ensures r.Ok? <==> Valid(s)
    ensures r.Ok? ==> r.value.AsRef() == ToLowercase(s)
    ensures r == Err(EMPTY) <==> IsBlank(s)
    ensures r == Err(TOO_LONG) <==> !IsBlank(s) && GraphemeCount(s) > MAX_GRAPHEMES
    ensures r == Err(BAD_CHARACTERS) <==>
              !IsBlank(s) && GraphemeCount(s) <= MAX_GRAPHEMES && !AllTagChars(s)
  {
    TrimEmptyIffBlank(s);
    var isEmptyOrWhitespace := Trim(s) == [];
    var isTooLong := GraphemeCount(s) > MAX_GRAPHEMES;
    var isValid := AllTagChars(s);
    if isEmptyOrWhitespace then Err(EMPTY)
    else if isTooLong then Err(TOO_LONG)
    else if !isValid then Err(BAD_CHARACTERS)
    else Ok(TagName(ToLowercase(s)))
  }

  function ParseNewTag(userId: Uuid, name: string): (r: Result<NewTag, string>)
    ensures r.Ok? <==> Valid(name)
    ensures r.Ok? ==> r.value.userId == userId && r.value.name.AsRef() == ToLowercase(name)
    ensures r.Err? ==> r == Err(ParseTagName(name).error)
  {
    var n :- ParseTagName(name);
    Ok(NewTag(userId, n))
  }

  /** A stored name has the length of the input and no capital letter. */
  lemma StoredNameIsLowercase(s: string)
    requires ParseTagName(s).Ok?
    ensures |ParseTagName(s).value.AsRef()| == |s|
    ensures forall i | 0 <= i < |s| :: !('A' <= ParseTagName(s).value.AsRef()[i] <= 'Z')
  {
    ToLowercaseIsLower(s);
  }

  /** A name without ASCII capitals is stored exactly as given. */
  lemma {:induction false} LowercaseNameStoredVerbatim(s: string)
    requires Valid(s)
    requires forall i | 0 <= i < |s| :: !('A' <= s[i] <= 'Z')
    ensures ParseTagName(s) == Ok(TagName(s))
  {
    assert ToLowercase(s) == s by {
      forall i | 0 <= i < |s| ensures ToLowercase(s)[i] == s[i] {
        assert LowerChar(s[i]) == s[i];
      }
    }
  }

  /** The names the tag tests accept, stored unchanged. */
  lemma WorkAccepted()
    ensures ParseTagName("work") == Ok(TagName("work"))
  {
    PlainNameAccepted("work");
  }

  lemma HyphenatedNameAccepted()
    ensures ParseTagName("my-tag") == Ok(TagName("my-tag"))
  {
    PlainNameAccepted("my-tag");
  }

  lemma UnderscoredNameAccepted()
    ensures ParseTagName("tag_123") == Ok(TagName("tag_123"))
  {
    PlainNameAccepted("tag_123");
  }

  lemma ManyHyphensAccepted()
    ensures ParseTagName("tag-with-hyphens") == Ok(TagName("tag-with-hyphens"))
  {
    PlainNameAccepted("tag-with-hyphens");
  }

  lemma PlainNameAccepted(s: string)
    requires 0 < |s| <= MAX_GRAPHEMES
    requires forall i | 0 <= i < |s| :: ('a' <= s[i] <= 'z') || ('0' <= s[i] <= '9') || s[i] == '-' || s[i] == '_'
    ensures ParseTagName(s) == Ok(TagName(s))
  {
    assert forall i | 0 <= i < |s| :: IsTagChar(s[i]);
    assert !IsWhitespace(s[0]);
    LowercaseNameStoredVerbatim(s);
  }

  /** A capital letter is accepted and stored lower-cased. */
  lemma CapitalsStoredLowercased()
    ensures ParseTagName("Work") == Ok(TagName("work"))
  {
    var s := "Work";
    assert Valid(s) by {
      assert !IsWhitespace(s[0]);
      assert forall i | 0 <= i < |s| :: IsAlphanumeric(s[i]);
    }
    var l := ToLowercase(s);
    assert l[0] == 'w' && l[1] == 'o' && l[2] == 'r' && l[3] == 'k';
    assert l == "work";
  }

  /** The names the tag tests refuse, each for its own reason. */
  lemma EmptyNameRefused()
    ensures ParseTagName("") == Err(EMPTY)
  {
    assert IsBlank("");
  }

  lemma SpacesNameRefused()
    ensures ParseTagName("   ") == Err(EMPTY)
  {
    var s := "   ";
    assert IsBlank(s) by {
      assert forall i | 0 <= i < |s| :: s[i] == ' ';
    }
  }

  /** A name with a space, `@` or `!` in it is refused as badly formed. */
  lemma PunctuatedNameRefused(s: string, i: nat)
    requires !IsBlank(s) && |s| <= MAX_GRAPHEMES
    requires i < |s| && s[i] in {' ', '@', '!'}
    ensures ParseTagName(s) == Err(BAD_CHARACTERS)
  {
    assert !IsTagChar(s[i]);
  }

  lemma SpacedNameRefused()
    ensures ParseTagName("tag name") == Err(BAD_CHARACTERS)
  {
    var s := "tag name";
    assert !IsWhitespace(s[0]);
    PunctuatedNameRefused(s, 3);
  }

  lemma AtSignNameRefused()
    ensures ParseTagName("tag@name") == Err(BAD_CHARACTERS)
  {
    var s := "tag@name";
    assert !IsWhitespace(s[0]);
    PunctuatedNameRefused(s, 3);
  }

  lemma BangNameRefused()
    ensures ParseTagName("tag!name") == Err(BAD_CHARACTERS)
  {
    var s := "tag!name";
    assert !IsWhitespace(s[0]);
    PunctuatedNameRefused(s, 3);
  }

  /** Any name longer than 50 characters that is not blank is refused as too
      long, whatever it contains. */
  lemma LongNameRefused(s: string)
    requires MAX_GRAPHEMES < |s| && !IsBlank(s)
    ensures ParseTagName(s) == Err(TOO_LONG)
  {
  }
}
