/** `UserPassWord::parse`: the password policy, checked in a fixed order with
    early returns; the first failing check decides the message. */
module UserPassword {
  import opened Wrappers
  import opened Text

  const MIN_BYTES := 8
  const MAX_BYTES := 128

  const TOO_SHORT := "Password must be atleast 8 characters long"
  const TOO_LONG := "Password must be at most 128 characters long"
  const NO_DIGIT := "Password must contain at least one digit"
  const NO_LETTER := "Password must contain at least one letter"

  /** A password that passed the policy; the secret is kept as given. */
  datatype UserPassWord = UserPassWord(secret: string) {

    /** `expose_secret`: the wrapped text. */
    function ExposeSecret(): string {
      secret
    }
  }

  /** The policy as one statement: 8 to 128 UTF-8 bytes, at least one ASCII
      digit and at least one ASCII letter. */
  predicate Acceptable(s: string) {
    && MIN_BYTES <= Utf8Len(s) <= MAX_BYTES
    && HasAsciiDigit(s)
    && HasAsciiAlphabetic(s)
  }

  function Parse(s: string): (r: Result<UserPassWord, string>)
    ensures r.Ok? <==> Acceptable(s)
    ensures r.Ok? ==> r.value.ExposeSecret() == s
    // each message is reported exactly when its check is the first to fail
    ensures r == Err(TOO_SHORT) <==> Utf8Len(s) < MIN_BYTES
    ensures r == Err(TOO_LONG) <==> MAX_BYTES < Utf8Len(s)
    ensures r == Err(NO_DIGIT) <==> MIN_BYTES <= Utf8Len(s) <= MAX_BYTES && !HasAsciiDigit(s)
    ensures r == Err(NO_LETTER) <==> MIN_BYTES <= Utf8Len(s) <= MAX_BYTES && HasAsciiDigit(s) && !HasAsciiAlphabetic(s)
  {
    if Utf8Len(s) < MIN_BYTES then Err(TOO_SHORT)
    else if Utf8Len(s) > MAX_BYTES then Err(TOO_LONG)
    else if !HasAsciiDigit(s) then Err(NO_DIGIT)
    else if !HasAsciiAlphabetic(s) then Err(NO_LETTER)
    else Ok(UserPassWord(s))
  }

  /** Every rejection carries one of the four policy messages. */
  lemma ParseErrorIsPolicyMessage(s: string)
    ensures Parse(s).Err? ==> Parse(s).error in {TOO_SHORT, TOO_LONG, NO_DIGIT, NO_LETTER}
  {
  }

  /** The limits count bytes, not characters: five characters, three of them
      two bytes wide, already meet the minimum length. */
  lemma {:induction false} LengthCountsBytes()
    ensures |"\U{00E9}\U{00E9}\U{00E9}a1"| == 5
    ensures Parse("\U{00E9}\U{00E9}\U{00E9}a1").Ok?
  {
    var s := "\U{00E9}\U{00E9}\U{00E9}a1";
    assert Utf8Len(s) == 8;
    assert IsAsciiDigit(s[4]) && IsAsciiAlphabetic(s[3]);
  }

  /** The weak passwords of the registration tests fall into these classes,
      each refused for its own reason: fewer than eight ASCII characters,
      more than 128 characters of any kind, letters only, digits only. */
  lemma ShortPasswordRefused(s: string)
    requires |s| < MIN_BYTES && forall i | 0 <= i < |s| :: IsAscii(s[i])
    ensures Parse(s) == Err(TOO_SHORT)
  {
    Utf8LenAscii(s);
  }

  lemma LongPasswordRefused(s: string)
    requires MAX_BYTES < |s|
    ensures Parse(s) == Err(TOO_LONG)
  {
    Utf8LenBounds(s);
  }

  lemma PasswordWithoutDigitRefused(s: string)
    requires MIN_BYTES <= |s| <= MAX_BYTES
    requires forall i | 0 <= i < |s| :: 'a' <= s[i] <= 'z'
    ensures Parse(s) == Err(NO_DIGIT)
  {
    Utf8LenAscii(s);
    assert !HasAsciiDigit(s) by {
      forall i | 0 <= i < |s| ensures !IsAsciiDigit(s[i]) {
        assert 'a' <= s[i] <= 'z';
      }
    }
  }

  lemma PasswordWithoutLetterRefused(s: string)
    requires MIN_BYTES <= |s| <= MAX_BYTES
    requires forall i | 0 <= i < |s| :: '0' <= s[i] <= '9'
    ensures Parse(s) == Err(NO_LETTER)
  {
    Utf8LenAscii(s);
    assert IsAsciiDigit(s[0]);
    assert !HasAsciiAlphabetic(s) by {
      forall i | 0 <= i < |s| ensures !IsAsciiAlphabetic(s[i]) {
        assert '0' <= s[i] <= '9';
      }
    }
  }

  /** For an ASCII password the byte limits are character limits. */
  lemma AsciiPasswordAcceptance(s: string)
    requires forall i | 0 <= i < |s| :: IsAscii(s[i])
    ensures Parse(s).Ok? <==> MIN_BYTES <= |s| <= MAX_BYTES && HasAsciiDigit(s) && HasAsciiAlphabetic(s)
  {
    Utf8LenAscii(s);
  }
}
