/** `UserEmail::parse`: a blank check, then the `validator` crate's
    `validate_email`, which the model takes as a parameter. */
module UserEmail {
  import opened Wrappers
  import opened Text

  const EMPTY := "Email cannot be empty"

  function Invalid(s: string): string {
    "'" + s + "' is not a valid email address"
  }

  datatype UserEmail = UserEmail(address: string) {

    function AsRef(): string {
      address
    }
  }

  function Parse(s: string, validateEmail: string -> bool): (r: Result<UserEmail, string>)
    ensures r.Ok? <==> !IsBlank(s) && validateEmail(s)
    ensures r.Ok? ==> r.value.AsRef() == s
    ensures r == Err(EMPTY) <==> IsBlank(s)
    ensures r == Err(Invalid(s)) <==> !IsBlank(s) && !validateEmail(s)
  {
    TrimEmptyIffBlank(s);
    if Trim(s) == [] then Err(EMPTY)
    else if !validateEmail(s) then Err(Invalid(s))
    else Ok(UserEmail(s))
  }
}
