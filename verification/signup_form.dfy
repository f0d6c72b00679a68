/**
 * The sign-up page's submit check (client/src/pages/SignUp.jsx): every
 * field filled in, then a password of at least six characters.
 */
module SignUpForm {
  import opened Common

  const FillAllMessage := "Please fill in all fields."
  const MinLengthMessage := "Password must be at least 6 characters."

  const MinLength := 6

  /** The alert `handleSubmit` raises, or `None` when the form gets through. */
  function SubmitCheck(username: string, email: string, password: string): (alert: Option<string>)
    ensures alert == Some(FillAllMessage) <==> username == "" || email == "" || password == ""
    ensures alert == Some(MinLengthMessage) <==>
      username != "" && email != "" && password != "" && |password| < MinLength
    ensures alert.None? <==>
      username != "" && email != "" && password != "" && |password| >= MinLength
  {
    if username == "" || email == "" || password == "" then Some(FillAllMessage)
    else if |password| < MinLength then Some(MinLengthMessage)
    else None
  }
}
