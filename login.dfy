/** The login handler: validate the credentials, then rotate the session and
    store the user id in it, and answer with the id. */
module Login {
  import opened Wrappers
  import opened Ids
  import opened Http
  import Password

  const LOGIN_SUCCESSFUL := "Login successful"

  /** The two errors the handler reports; `cause` is the text of the error
      it wraps. */
  datatype LoginError = AuthError(cause: string) | UnexpectedError(cause: string) {

    /** `ResponseError::status_code`. */
    function StatusCode(): (code: int)
      ensures AuthError? <==> code == UNAUTHORIZED
      ensures UnexpectedError? <==> code == INTERNAL_SERVER_ERROR
    {
      match this
      case AuthError(_) => UNAUTHORIZED
      case UnexpectedError(_) => INTERNAL_SERVER_ERROR
    }

    /** `Display`: refused credentials show their cause; an unexpected
        error shows nothing of it. */
    function Message(): (m: string)
      ensures AuthError? ==> m == "Invalid credentials: " + cause
      ensures UnexpectedError? ==> m == "Something went wrong"
    {
      match this
      case AuthError(c) => "Invalid credentials: " + c
      case UnexpectedError(_) => "Something went wrong"
    }

    /** The response actix-web builds for an error: a 401 or a 500 with a text
        body, which mentions the credentials exactly on a 401. */
    function ToResponse(): (r: Response)
      ensures r.status == StatusCode()
      ensures r.status == UNAUTHORIZED || r.status == INTERNAL_SERVER_ERROR
      ensures r.body.Text?
      ensures AuthError? <==> StartsWith(r.body.text, "Invalid credentials: ")
    {
      Response(StatusCode(), Text(Message()))
    }
  }

  predicate StartsWith(s: string, prefix: string) {
    |prefix| <= |s| && s[..|prefix|] == prefix
  }

  /** The `map_err` after validation: refused credentials become an
      authentication error, anything else an unexpected one. */
  function FromAuthError(e: Password.AuthError): (r: LoginError)
    ensures e.InvalidCredentials? <==> r.AuthError?
    ensures r.cause == e.Message()
  {
    match e
    case InvalidCredentials(_) => AuthError(e.Message())
    case UnexpectedError(_) => UnexpectedError(e.Message())
  }

  /** Refused credentials answer 401, an unexpected failure 500. */
  lemma ValidationStatus(e: Password.AuthError)
    ensures e.InvalidCredentials? ==> FromAuthError(e).ToResponse().status == UNAUTHORIZED
    ensures e.UnexpectedError? ==> FromAuthError(e).ToResponse().status == INTERNAL_SERVER_ERROR
  {
  }

  /** Every refusal of credentials gets one and the same response, status 401
      with the text "Invalid credentials: Invalid credentials.", so the answer
      does not tell an unknown email from a wrong password. */
  lemma RefusalResponseIsFixed(e: Password.AuthError, other: Password.AuthError)
    requires e.InvalidCredentials? && other.InvalidCredentials?
    ensures FromAuthError(e).ToResponse() == FromAuthError(other).ToResponse()
    ensures FromAuthError(e).ToResponse() ==
              Response(UNAUTHORIZED, Text("Invalid credentials: " + "Invalid credentials."))
  {
  }

  datatype LoginForm = LoginForm(email: string, password: string)

  /** The session operations, for the record `TypedSession` keeps. */
  datatype SessionOp = Renew | InsertUserId(id: Uuid)

  /** The user's session: its key, the user id stored in it, and the
      operations applied to it so far. */
  class TypedSession {
    var key: string
    var userId: Option<Uuid>
    ghost var ops: seq<SessionOp>

    constructor (key: string)
      ensures this.key == key && userId == None && ops == []
    {
      this.key := key;
      userId := None;
      ops := [];
    }

    /** `renew`: a fresh key, different from the current one, and the state
        kept. */
    method Renew(newKey: string)
      requires newKey != key
      modifies this
      ensures key == newKey && userId == old(userId)
      ensures ops == old(ops) + [SessionOp.Renew]
    {
      key := newKey;
      ops := ops + [SessionOp.Renew];
    }

    /** `insert_user_id`; `fails` stands for the serialisation error the
        session store may report, which leaves the state as it was. */
    method InsertUserId(id: Uuid, fails: bool) returns (r: Result<(), string>)
      modifies this
      ensures r.Err? <==> fails
      ensures key == old(key)
      ensures userId == if fails then old(userId) else Some(id)
      ensures ops == old(ops) + [SessionOp.InsertUserId(id)]
    {
      ops := ops + [SessionOp.InsertUserId(id)];
      if fails {
        return Err("Failed to insert the user id into the session");
      }
      userId := Some(id);
      r := Ok(());
    }
  }

  function LoginSuccess(id: Uuid): (r: Response)
    ensures r.status == OK
    ensures r.body == Json([("message", LOGIN_SUCCESSFUL), ("user_id", id.ToString())])
  {
    Response(OK, Json([("message", LOGIN_SUCCESSFUL), ("user_id", id.ToString())]))
  }

  /** The success answer is told apart from every error answer by its status
      and by its JSON body. */
  lemma SuccessUnlikeError(id: Uuid, e: LoginError)
    ensures LoginSuccess(id).status == OK && LoginSuccess(id).body.Json?
    ensures LoginSuccess(id) != e.ToResponse()
    ensures LoginSuccess(id).status != e.ToResponse().status
  {
  }

  /** `login`. `outcome` is what validation returned; `newKey` is the fresh
      session key the store issues on renewal. */
  method HandleLogin(form: LoginForm, store: Password.UserStore, argon: Password.Argon2, taskFails: bool,
                     session: TypedSession, newKey: string, insertFails: bool)
    returns (resp: Response, ghost outcome: Result<Uuid, Password.AuthError>)
    requires newKey != session.key
    modifies session
    ensures outcome == Password.Outcome(Password.Credentials(form.email, form.password), store, argon, taskFails)
    // a failed validation touches the session not at all
    ensures outcome.Err? ==> resp == FromAuthError(outcome.error).ToResponse()
    ensures outcome.Err? ==> session.key == old(session.key) && session.userId == old(session.userId)
    ensures outcome.Err? ==> session.ops == old(session.ops)
    // success renews the session, then stores the validated id in it
    ensures outcome.Ok? ==> session.key == newKey && session.key != old(session.key)
    ensures outcome.Ok? ==> session.ops == old(session.ops) + [SessionOp.Renew, SessionOp.InsertUserId(outcome.value)]
    ensures outcome.Ok? && !insertFails ==> session.userId == Some(outcome.value) && resp == LoginSuccess(outcome.value)
    ensures outcome.Ok? && insertFails ==> session.userId == old(session.userId)
    ensures outcome.Ok? && insertFails ==> resp == UnexpectedError("Failed to insert the user id into the session").ToResponse()
  {
    var credentials := Password.Credentials(form.email, form.password);
    var validated;
    ghost var verified;
    validated, verified := Password.ValidateCredentials(credentials, store, argon, taskFails);
    outcome := validated;
    if validated.Err? {
      return FromAuthError(validated.error).ToResponse(), outcome;
    }
    var userId := validated.value;
    session.Renew(newKey);
    var inserted := session.InsertUserId(userId, insertFails);
    if inserted.Err? {
      return UnexpectedError(inserted.error).ToResponse(), outcome;
    }
    resp := LoginSuccess(userId);
  }

  /** Login answers 200 exactly when validation succeeds and the session
      store accepts the id; the id in the body is then the id the session
      holds, and a fresh session holds none otherwise. */
  method LoginReportsSessionUser(form: LoginForm, store: Password.UserStore, argon: Password.Argon2, taskFails: bool,
                                 insertFails: bool)
    returns (resp: Response, stored: Option<Uuid>)
    ensures resp.status == OK <==>
              Password.Outcome(Password.Credentials(form.email, form.password), store, argon, taskFails).Ok? && !insertFails
    ensures resp.status == OK ==> stored.Some? && resp == LoginSuccess(stored.value)
    ensures resp.status != OK ==> stored.None?
  {
    var session := new TypedSession("anonymous");
    ghost var outcome;
    resp, outcome := HandleLogin(form, store, argon, taskFails, session, "renewed", insertFails);
    stored := session.userId;
  }
}
