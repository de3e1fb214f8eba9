/** The parts of Rust's `str` and `char` API that the validators use:
    `trim`, `len` (UTF-8 bytes), `chars().any/all`, the ASCII classifiers,
    `is_alphanumeric`, `to_lowercase` and the grapheme count. */
module Text {

  /** `char::is_whitespace`: the characters with the Unicode White_Space property. */
  predicate IsWhitespace(c: char) {
    || c == ' '
    || ('\t' <= c <= '\r')
    || c == '\U{0085}' || c == '\U{00A0}' || c == '\U{1680}'
    || ('\U{2000}' <= c <= '\U{200A}')
    || c == '\U{2028}' || c == '\U{2029}' || c == '\U{202F}' || c == '\U{205F}' || c == '\U{3000}'
  }

  /** Every character is whitespace (the empty string included). */
  predicate IsBlank(s: string) {
    forall i | 0 <= i < |s| :: IsWhitespace(s[i])
  }

  /** `str::trim_start`: drops the leading whitespace. */
  function TrimStart(s: string): (r: string)
    ensures |r| <= |s| && r == s[|s| - |r|..]
    ensures r != [] ==> !IsWhitespace(r[0])
  {
    if s != [] && IsWhitespace(s[0]) then
      var r := TrimStart(s[1..]);
      assert s[|s| - |r|..] == s[1..][|s[1..]| - |r|..];
      r
    else
      s
  }

  /** What `trim_start` drops is whitespace only. */
  lemma {:induction false} TrimStartDropsBlank(s: string)
    ensures IsBlank(s[..|s| - |TrimStart(s)|])
  {
    if s != [] && IsWhitespace(s[0]) {
      var t := s[1..];
      TrimStartDropsBlank(t);
      var dropped := t[..|t| - |TrimStart(t)|];
      forall i | 0 < i < |s| - |TrimStart(s)| ensures IsWhitespace(s[i]) {
        assert s[i] == dropped[i - 1];
      }
    }
  }

  /** `str::trim_end`: drops the trailing whitespace. */
  function TrimEnd(s: string): (r: string)
    ensures |r| <= |s| && r == s[..|r|]
    ensures r != [] ==> !IsWhitespace(r[|r| - 1])
  {
    if s != [] && IsWhitespace(s[|s| - 1]) then
      var r := TrimEnd(s[..|s| - 1]);
      assert s[..|r|] == s[..|s| - 1][..|r|];
      r
    else
      s
  }

  /** What `trim_end` drops is whitespace only. */
  lemma {:induction false} TrimEndDropsBlank(s: string)
    ensures IsBlank(s[|TrimEnd(s)|..])
  {
    if s != [] && IsWhitespace(s[|s| - 1]) {
      var t := s[..|s| - 1];
      TrimEndDropsBlank(t);
      var n := |TrimEnd(t)|;
      assert TrimEnd(s) == TrimEnd(t);
      var dropped := t[n..];
      forall k | 0 <= k < |s| - n ensures IsWhitespace(s[n..][k]) {
        if k < |s| - 1 - n {
          assert s[n..][k] == dropped[k];
        }
      }
    }
  }

  /** `str::trim`. */
  function Trim(s: string): string {
    TrimEnd(TrimStart(s))
  }

  /** `s.trim().is_empty()` holds exactly for the blank strings. */
  lemma TrimEmptyIffBlank(s: string)
    ensures Trim(s) == [] <==> IsBlank(s)
  {
    var t := TrimStart(s);
    TrimStartDropsBlank(s);
    TrimEndDropsBlank(t);
    if t == [] {
      assert s[..|s|] == s;
    } else {
      assert s[|s| - |t|] == t[0];
      assert TrimEnd(t) == [] ==> IsBlank(t) by {
        assert t[0..] == t;
      }
    }
  }

  /** Number of bytes of the UTF-8 encoding of one scalar value. */
  function Utf8Width(c: char): nat {
    if c as int < 0x80 then 1
    else if c as int < 0x800 then 2
    else if c as int < 0x1_0000 then 3
    else 4
  }

  /** `str::len`: the length of the UTF-8 encoding, in bytes. */
  function Utf8Len(s: string): nat {
    if s == [] then 0 else Utf8Width(s[0]) + Utf8Len(s[1..])
  }

  predicate IsAscii(c: char) {
    c as int < 0x80
  }

  /** Every character of `s` takes one to four bytes. */
  lemma {:induction false} Utf8LenBounds(s: string)
    ensures |s| <= Utf8Len(s) <= 4 * |s|
  {
    if s != [] {
      Utf8LenBounds(s[1..]);
    }
  }

  /** On ASCII text the byte length is the character count. */
  lemma {:induction false} Utf8LenAscii(s: string)
    requires forall i | 0 <= i < |s| :: IsAscii(s[i])
    ensures Utf8Len(s) == |s|
  {
    if s != [] {
      assert forall i | 0 <= i < |s[1..]| :: IsAscii(s[1..][i]) by {
        forall i | 0 <= i < |s[1..]| ensures IsAscii(s[1..][i]) {
          assert s[1..][i] == s[i + 1];
        }
      }
      Utf8LenAscii(s[1..]);
    }
  }

  /** The byte length of a concatenation is the sum of the byte lengths. */
  lemma {:induction false} Utf8LenAppend(s: string, t: string)
    ensures Utf8Len(s + t) == Utf8Len(s) + Utf8Len(t)
  {
    if s != [] {
      assert (s + t)[1..] == s[1..] + t;
      Utf8LenAppend(s[1..], t);
    } else {
      assert s + t == t;
    }
  }

  /** `char::is_ascii_digit`. */
  predicate IsAsciiDigit(c: char) {
    '0' <= c <= '9'
  }

  /** `char::is_ascii_alphabetic`. */
  predicate IsAsciiAlphabetic(c: char) {
    ('a' <= c <= 'z') || ('A' <= c <= 'Z')
  }

  /** `char::is_alphanumeric`, restricted to ASCII: letters and numbers of other
      scripts are not modelled and count as not alphanumeric. */
  predicate IsAlphanumeric(c: char) {
    IsAsciiDigit(c) || IsAsciiAlphabetic(c)
  }

  /** `s.chars().any(|c| c.is_ascii_digit())`. */
  predicate HasAsciiDigit(s: string) {
    exists i | 0 <= i < |s| :: IsAsciiDigit(s[i])
  }

  /** `s.chars().any(|c| c.is_ascii_alphabetic())`. */
  predicate HasAsciiAlphabetic(s: string) {
    exists i | 0 <= i < |s| :: IsAsciiAlphabetic(s[i])
  }

  /** `char::to_lowercase` on ASCII: upper-case letters move down by 32, every
      other character is kept. */
  function LowerChar(c: char): char {
    if 'A' <= c <= 'Z' then (c as int + 32) as char else c
  }

  /** `str::to_lowercase`, character by character: each ASCII capital moves to
      its small letter, every other character stays where it is. */
  function ToLowercase(s: string): (r: string)
    ensures |r| == |s|
    ensures forall i | 0 <= i < |r| :: !('A' <= r[i] <= 'Z')
    ensures forall i | 0 <= i < |s| && 'A' <= s[i] <= 'Z' :: r[i] as int == s[i] as int + 32
    ensures forall i | 0 <= i < |s| && !('A' <= s[i] <= 'Z') :: r[i] == s[i]
  {
    seq(|s|, i requires 0 <= i < |s| => LowerChar(s[i]))
  }

  /** Lower-casing leaves no ASCII capital behind and is idempotent. */
  lemma ToLowercaseIsLower(s: string)
    ensures forall i | 0 <= i < |s| :: !('A' <= ToLowercase(s)[i] <= 'Z')
    ensures ToLowercase(ToLowercase(s)) == ToLowercase(s)
  {
  }

  /** `s.graphemes(true).count()`, approximated by the number of scalar values:
      the two agree when every grapheme cluster is a single scalar value. */
  function GraphemeCount(s: string): nat {
    |s|
  }
}
