/**
 * The profile page (client/src/pages/Profile.jsx): the live password-rule
 * message, the submit gate, and the request body the form sends.
 */
module ProfileForm {
  import opened Common
  import opened RuleChains
  import opened Users

  const Prefix := "Password must: "

  const LengthRule := "Be at least 8 characters long."
  const UpperRule := "Contain at least one uppercase letter."
  const LowerRule := "Contain at least one lowercase letter."
  const NumberRule := "Contain at least one number."
  const SpecialRule := "Contain at least one special character."

  /**
   * `/.{8,}/`: eight consecutive characters none of which is a line
   * terminator (`.` does not match one).
   */
  predicate HasLongRun(s: string) {
    exists i :: 0 <= i <= |s| && RunAt(s, i)
  }

  /** Eight characters starting at `i`, none a line terminator. */
  predicate RunAt(s: string, i: int) {
    0 <= i && i + 8 <= |s| && forall k :: i <= k < i + 8 ==> !IsLineTerminator(s[k])
  }

  predicate NoLineTerminator(s: string) {
    forall k :: 0 <= k < |s| ==> !IsLineTerminator(s[k])
  }

  /** The `validations` array, in order. */
  const Rules: seq<Rule> := [
    Rule(HasLongRun, LengthRule),
    Rule(HasUpper, UpperRule),
    Rule(HasLower, LowerRule),
    Rule(HasDigit, NumberRule),
    Rule(HasNonAlnum, SpecialRule)
  ]

  predicate PassesAllRules(p: string) {
    HasLongRun(p) && HasUpper(p) && HasLower(p) && HasDigit(p) && HasNonAlnum(p)
  }

  /** `currentUser.authMethod === 'google'`: the page's `isGoogleUser` flag. */
  predicate IsGoogleUser(u: User) {
    u.authMethod == Some("google")
  }

  /**
   * The value the password effect leaves in `passwordError`: empty for an
   * empty password or a Google account, otherwise the prefixed message of
   * the first rule the password breaks, or empty when it breaks none.
   */
  function PasswordError(password: string, isGoogleUser: bool): (err: string)
    ensures err == "" <==> password == "" || isGoogleUser || PassesAllRules(password)
    ensures err != "" ==>
      exists i :: FirstFailingAt(Rules, password, i) && err == Prefix + Rules[i].message
  {
    if password != "" && !isGoogleUser then
      match FirstFailure(Rules, password)
      case None =>
        assert AllHold(Rules, password);
        assert Rules[0].holds(password) && Rules[1].holds(password) && Rules[2].holds(password);
        assert Rules[3].holds(password) && Rules[4].holds(password);
        ""
      case Some(m) =>
        assert !AllHold(Rules, password);
        Prefix + m
    else ""
  }

  /** The rules are tried in the order length, uppercase, lowercase, digit, special. */
  lemma RuleOrder(password: string)
    requires password != ""
    ensures !HasLongRun(password) ==>
      PasswordError(password, false) == Prefix + LengthRule
    ensures HasLongRun(password) && !HasUpper(password) ==>
      PasswordError(password, false) == Prefix + UpperRule
    ensures HasLongRun(password) && HasUpper(password) && !HasLower(password) ==>
      PasswordError(password, false) == Prefix + LowerRule
    ensures HasLongRun(password) && HasUpper(password) && HasLower(password) && !HasDigit(password) ==>
      PasswordError(password, false) == Prefix + NumberRule
    ensures (HasLongRun(password) && HasUpper(password) && HasLower(password) && HasDigit(password)
      && !HasNonAlnum(password)) ==>
      PasswordError(password, false) == Prefix + SpecialRule
  {
    var err := PasswordError(password, false);
    if err != "" {
      var i :| FirstFailingAt(Rules, password, i) && err == Prefix + Rules[i].message;
      assert i == 0 || i == 1 || i == 2 || i == 3 || i == 4;
      if i >= 1 { assert Rules[0].holds(password); }
      if i >= 2 { assert Rules[1].holds(password); }
      if i >= 3 { assert Rules[2].holds(password); }
      if i >= 4 { assert Rules[3].holds(password); }
    }
  }

  /** On text without line breaks the length rule is plain `length >= 8`. */
  lemma {:induction false} LongRunIsLength(s: string)
    requires NoLineTerminator(s)
    ensures HasLongRun(s) <==> |s| >= 8
  {
    if |s| >= 8 {
      assert RunAt(s, 0);
    }
  }

  /** A line break splits the run: nine characters with a newline in the middle break the length rule. */
  lemma LineBreakDefeatsLengthRule()
    ensures !HasLongRun("abcd\nefgh")
  {
    var s := "abcd\nefgh";
    forall i | 0 <= i && i + 8 <= |s| ensures !RunAt(s, i) {
      assert i <= 4 < i + 8 && IsLineTerminator(s[4]);
    }
  }

  /** The form state the page keeps. */
  datatype FormData = FormData(username: string, email: string, avatar: Field, password: string)

  /** The form as the page first renders it for the signed-in user. */
  function InitialForm(u: User): (f: FormData)
    ensures f.password == ""
    ensures f.username == u.username && f.email == u.email && f.avatar == u.avatar
  {
    FormData(u.username, u.email, u.avatar, "")
  }

  /**
   * Submitting the form untouched is never blocked, and sends the user's own
   * username, email and avatar back with an empty password.
   */
  lemma InitialFormSends(u: User)
    ensures PasswordError(InitialForm(u).password, IsGoogleUser(u)) == ""
    ensures Submit(InitialForm(u), IsGoogleUser(u)) == Some(UpdateBody(Some(u.username), Some(u.email), Some(""), None, u.avatar))
  {
  }

  /** `handleChange` for the three editable inputs; other ids leave the form as it is. */
  function HandleChange(f: FormData, id: string, value: string): (r: FormData)
    ensures id == "username" ==> r == f.(username := value)
    ensures id == "email" ==> r == f.(email := value)
    ensures id == "password" ==> r == f.(password := value)
    ensures id !in {"username", "email", "password"} ==> r == f
  {
    if id == "username" then f.(username := value)
    else if id == "email" then f.(email := value)
    else if id == "password" then f.(password := value)
    else f
  }

  /**
   * `handleSubmit`: nothing is sent while a password message is shown;
   * otherwise the whole form goes out as the update body. The form has no
   * current-password field, so the body never carries one.
   */
  function Submit(f: FormData, isGoogleUser: bool): (r: Option<UpdateBody>)
    ensures r.Some? <==> f.password == "" || isGoogleUser || PassesAllRules(f.password)
    ensures r.Some? ==> r.value.currentPassword.None?
    ensures r.Some? ==> r.value.password == Some(f.password) && r.value.email == Some(f.email)
    ensures r.Some? ==> r.value.username == Some(f.username) && r.value.avatar == f.avatar
  {
    if PasswordError(f.password, isGoogleUser) != "" then None
    else Some(UpdateBody(Some(f.username), Some(f.email), Some(f.password), None, f.avatar))
  }

  /** Editing the username or the email never changes the password message, nor whether a submit goes out. */
  lemma OtherInputsKeepPasswordError(f: FormData, id: string, value: string, isGoogleUser: bool)
    requires id != "password"
    ensures PasswordError(HandleChange(f, id, value).password, isGoogleUser) == PasswordError(f.password, isGoogleUser)
    ensures Submit(HandleChange(f, id, value), isGoogleUser).Some? == Submit(f, isGoogleUser).Some?
  {
  }

  /** The submit button: disabled while a request is pending or a password message is shown. */
  function SubmitEnabled(loading: bool, f: FormData, isGoogleUser: bool): (enabled: bool)
    ensures enabled ==> Submit(f, isGoogleUser).Some?
    ensures enabled <==> !loading && (f.password == "" || isGoogleUser || PassesAllRules(f.password))
  {
    !loading && PasswordError(f.password, isGoogleUser) == ""
  }
}
