/** `validate_credentials`: look the email up, verify the candidate password
    against the stored hash (or against a fixed dummy hash when the email is
    unknown, so that both cases do the same work), and only then decide.
    Argon2 is not modelled: a hash is judged by two given functions, whether
    it parses as a PHC string and whether a candidate verifies against it. */
module Password {
  import opened Wrappers
  import opened Ids

  /** The context messages attached to each failure. */
  const SPAWN_FAILED := "Failed to spawn blocking task."
  const UNKNOWN_EMAIL := "Unknown email."
  const BAD_PHC := "Failed to parse hash in PHC string format"
  const INVALID_PASSWORD := "Invalid password"
  const QUERY_FAILED := "Failed to perform a query to retrieve stored credentials."

  /** The hash verified when the email is unknown. */
  const DUMMY_HASH := "$argon2id$v=19$m=15000,t=2,p=1$gZiV/M1gPc22ElAH/Jh1Hw$CWOrkoo7oJBQ/iyh7uJ0LO2aLEfrHwTWllSAxT0zRno"

  /** The two outcomes of a failed validation; `cause` is the message of the
      error it wraps. */
  datatype AuthError = InvalidCredentials(cause: string) | UnexpectedError(cause: string) {

    /** `Display`: a fixed text for refused credentials; an unexpected error
        shows the error it wraps. */
    function Message(): (m: string)
      ensures InvalidCredentials? ==> m == "Invalid credentials."
      ensures UnexpectedError? ==> m == cause
    {
      match this
      case InvalidCredentials(_) => "Invalid credentials."
      case UnexpectedError(c) => c
    }
  }

  datatype Credentials = Credentials(email: string, password: string)

  /** Argon2 as seen from here: `parsesAsPhc(h)` for `PasswordHash::new(h)`
      succeeding, `verifies(h, p)` for `verify_password(p, h)` succeeding. */
  datatype Argon2 = Argon2(parsesAsPhc: string -> bool, verifies: (string, string) -> bool)

  datatype StoredCredential = StoredCredential(userId: Uuid, passwordHash: string)

  /** The `users` table keyed by email, and whether the query can reach it. */
  datatype UserStore = UserStore(rows: map<string, StoredCredential>, reachable: bool)

  /** `get_stored_credentials`: the row for `email`, if any; a failed query
      carries its context message. */
  function GetStoredCredentials(email: string, store: UserStore): (r: Result<Option<StoredCredential>, string>)
    ensures r.Ok? <==> store.reachable
    ensures r.Err? ==> r.error == QUERY_FAILED
    ensures r.Ok? ==> (r.value.Some? <==> email in store.rows)
    ensures r.Ok? && r.value.Some? ==> r.value.value == store.rows[email]
  {
    if !store.reachable then Err(QUERY_FAILED)
    else if email in store.rows then Ok(Some(store.rows[email]))
    else Ok(None)
  }

  /** `verify_password_hash`: a hash that does not parse is an unexpected
      error; a candidate that does not verify is refused credentials. */
  function VerifyPasswordHash(expected: string, candidate: string, argon: Argon2): (r: Result<(), AuthError>)
    ensures r.Ok? <==> argon.parsesAsPhc(expected) && argon.verifies(expected, candidate)
    ensures r.Err? && r.error.UnexpectedError? <==> !argon.parsesAsPhc(expected)
    ensures r.Err? && r.error.UnexpectedError? ==> r.error.cause == BAD_PHC
    ensures r.Err? && r.error.InvalidCredentials? ==> r.error.cause == INVALID_PASSWORD
  {
    if !argon.parsesAsPhc(expected) then Err(UnexpectedError(BAD_PHC))
    else if !argon.verifies(expected, candidate) then Err(InvalidCredentials(INVALID_PASSWORD))
    else Ok(())
  }

  /** The hash the candidate is checked against once the lookup succeeded. */
  function ExpectedHash(row: Option<StoredCredential>): string {
    if row.Some? then row.value.passwordHash else DUMMY_HASH
  }

  /** What validation returns, stage by stage: lookup, verification (in a
      blocking task that may fail to complete), then the email check. */
  function Outcome(credentials: Credentials, store: UserStore, argon: Argon2, taskFails: bool): Result<Uuid, AuthError> {
    match GetStoredCredentials(credentials.email, store)
    case Err(e) => Err(UnexpectedError(e))
    case Ok(row) =>
      if taskFails then Err(UnexpectedError(SPAWN_FAILED))
      else
        match VerifyPasswordHash(ExpectedHash(row), credentials.password, argon)
        case Err(e) => Err(e)
        case Ok(_) => if row.Some? then Ok(row.value.userId) else Err(InvalidCredentials(UNKNOWN_EMAIL))
  }

  /** `validate_credentials`. `verified` lists the hashes handed to the
      verifier, in order. */
  method ValidateCredentials(credentials: Credentials, store: UserStore, argon: Argon2, taskFails: bool)
    returns (r: Result<Uuid, AuthError>, ghost verified: seq<string>)
    ensures r == Outcome(credentials, store, argon, taskFails)
    // a failed lookup verifies nothing; past it, exactly one hash is verified:
    // the stored one for a known email, the dummy one otherwise
    ensures !store.reachable ==> verified == []
    ensures store.reachable ==>
              verified == [if credentials.email in store.rows then store.rows[credentials.email].passwordHash else DUMMY_HASH]
  {
    verified := [];
    var userId: Option<Uuid> := None;
    var expectedPasswordHash := DUMMY_HASH;
    var lookup := GetStoredCredentials(credentials.email, store);
    if lookup.Err? {
      return Err(UnexpectedError(lookup.error)), verified;
    }
    if lookup.value.Some? {
      userId := Some(lookup.value.value.userId);
      expectedPasswordHash := lookup.value.value.passwordHash;
    }
    verified := verified + [expectedPasswordHash];
    var verification := VerifyPasswordHash(expectedPasswordHash, credentials.password, argon);
    if taskFails {
      return Err(UnexpectedError(SPAWN_FAILED)), verified;
    }
    if verification.Err? {
      return Err(verification.error), verified;
    }
    if userId.None? {
      return Err(InvalidCredentials(UNKNOWN_EMAIL)), verified;
    }
    r := Ok(userId.value);
  }

  /** Success exactly when the email is known, with that user's id, and the
      candidate verifies against that user's stored hash. */
  lemma OkIffStoredHashVerifies(credentials: Credentials, store: UserStore, argon: Argon2, taskFails: bool, id: Uuid)
    ensures Outcome(credentials, store, argon, taskFails) == Ok(id) <==>
              && store.reachable && !taskFails
              && credentials.email in store.rows
              && store.rows[credentials.email].userId == id
              && argon.parsesAsPhc(store.rows[credentials.email].passwordHash)
              && argon.verifies(store.rows[credentials.email].passwordHash, credentials.password)
  {
    if Outcome(credentials, store, argon, taskFails) == Ok(id) {
      var row := GetStoredCredentials(credentials.email, store);
      assert row.Ok? && row.value.Some?;
    }
  }

  /** An unknown email is refused credentials even when the candidate happens
      to verify against the dummy hash. */
  lemma UnknownEmailRefused(credentials: Credentials, store: UserStore, argon: Argon2)
    requires store.reachable && credentials.email !in store.rows
    requires argon.parsesAsPhc(DUMMY_HASH)
    ensures Outcome(credentials, store, argon, false).Err?
    ensures Outcome(credentials, store, argon, false).error.InvalidCredentials?
  {
  }

  /** A known email with a wrong password is refused in the same way. */
  lemma WrongPasswordRefused(credentials: Credentials, store: UserStore, argon: Argon2)
    requires store.reachable && credentials.email in store.rows
    requires argon.parsesAsPhc(store.rows[credentials.email].passwordHash)
    requires !argon.verifies(store.rows[credentials.email].passwordHash, credentials.password)
    ensures Outcome(credentials, store, argon, false) == Err(InvalidCredentials(INVALID_PASSWORD))
  {
  }

  /** Every failure is one of the two kinds, and the refusal for an unknown
      email and for a wrong password reads the same. */
  lemma RefusalsIndistinguishable(unknown: Credentials, wrong: Credentials, store: UserStore, argon: Argon2)
    requires store.reachable && unknown.email !in store.rows && argon.parsesAsPhc(DUMMY_HASH)
    requires wrong.email in store.rows
    requires argon.parsesAsPhc(store.rows[wrong.email].passwordHash)
    requires !argon.verifies(store.rows[wrong.email].passwordHash, wrong.password)
    ensures Outcome(unknown, store, argon, false).Err? && Outcome(wrong, store, argon, false).Err?
    ensures Outcome(unknown, store, argon, false).error.Message() == Outcome(wrong, store, argon, false).error.Message()
  {
    UnknownEmailRefused(unknown, store, argon);
    WrongPasswordRefused(wrong, store, argon);
  }

  /** A failed query is an unexpected error, whatever the credentials. */
  lemma QueryFailureUnexpected(credentials: Credentials, store: UserStore, argon: Argon2, taskFails: bool)
    requires !store.reachable
    ensures Outcome(credentials, store, argon, taskFails) == Err(UnexpectedError(QUERY_FAILED))
  {
  }

  /** A stored hash that is not a PHC string is an unexpected error, not
      refused credentials. */
  lemma MalformedHashUnexpected(credentials: Credentials, store: UserStore, argon: Argon2)
    requires store.reachable && credentials.email in store.rows
    requires !argon.parsesAsPhc(store.rows[credentials.email].passwordHash)
    ensures Outcome(credentials, store, argon, false) == Err(UnexpectedError(BAD_PHC))
  {
  }

  /** A blocking task that does not complete is an unexpected error. */
  lemma TaskFailureUnexpected(credentials: Credentials, store: UserStore, argon: Argon2)
    requires store.reachable
    ensures Outcome(credentials, store, argon, true) == Err(UnexpectedError(SPAWN_FAILED))
  {
  }
}
