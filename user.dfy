/** `NewUser::parse`: the e-mail is parsed first, then the password; the
    first failure is returned. */
module User {
  import opened Wrappers
  import UserEmail
  import UserPassword

  datatype NewUser = NewUser(email: UserEmail.UserEmail, password: UserPassword.UserPassWord)

  function Parse(email: string, password: string, validateEmail: string -> bool): (r: Result<NewUser, string>)
    // success exactly when both components pass, declaratively
    ensures r.Ok? <==> UserEmail.Parse(email, validateEmail).Ok? && UserPassword.Acceptable(password)
    // the fields are exactly the inputs, unchanged
    ensures r.Ok? ==> r.value.email.AsRef() == email && r.value.password.ExposeSecret() == password
    // the e-mail error wins, whatever the password
    ensures UserEmail.Parse(email, validateEmail).Err? ==> r == Err(UserEmail.Parse(email, validateEmail).error)
    // with a valid e-mail, a bad password gives the policy's message
    ensures UserEmail.Parse(email, validateEmail).Ok? && !UserPassword.Acceptable(password) ==>
              r == Err(UserPassword.Parse(password).error)
  {
    var e :- UserEmail.Parse(email, validateEmail);
    var p :- UserPassword.Parse(password);
    Ok(NewUser(e, p))
  }

  /** A request with a bad e-mail and a bad password is refused for the e-mail. */
  lemma EmailCheckedBeforePassword(email: string, password: string, validateEmail: string -> bool)
    requires !validateEmail(email)
    requires UserPassword.Parse(password).Err?
    ensures Parse(email, password, validateEmail).Err?
    ensures Parse(email, password, validateEmail).error !in
              {UserPassword.TOO_SHORT, UserPassword.TOO_LONG, UserPassword.NO_DIGIT, UserPassword.NO_LETTER}
  {
    var err := Parse(email, password, validateEmail).error;
    assert err == UserEmail.EMPTY || err == UserEmail.Invalid(email);
    assert err[0] in {'E', '\''};
  }
}
