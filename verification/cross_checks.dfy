/**
 * What happens when the pages' requests meet the server's handlers, and how
 * the three password rules of the application relate to each other: the
 * sign-up page's six characters, the profile page's five patterns and the
 * server's `validatePassword`.
 */
module CrossChecks {
  import opened Common
  import opened Http
  import opened Users
  import ServerPolicy
  import ProfileForm
  import SignUpForm
  import UserController
  import opened Listings
  import ListingController
  import ListingWizard

  // ---------------------------------------------------------------------------
  // Profile page -> updateUser

  /**
   * The profile form sends its email every time and has no current-password
   * input, so with a non-empty email every request it sends is refused
   * with 400 and nothing is written.
   */
  lemma ProfileSubmitRefused(users: UserStore, h: Hasher, id: Id, f: ProfileForm.FormData, isGoogleUser: bool)
    requires f.email != ""
    requires ProfileForm.Submit(f, isGoogleUser).Some?
    ensures UserController.UpdateUser(users, h, id, id, ProfileForm.Submit(f, isGoogleUser).value).0 ==
      Failure(BAD_REQUEST, UserController.CurrentRequiredMessage)
    ensures UserController.UpdateUser(users, h, id, id, ProfileForm.Submit(f, isGoogleUser).value).1 == users
  {
  }

  /**
   * In particular, saving the profile page as it first renders is refused
   * for every user whose stored email is non-empty.
   */
  lemma InitialProfileRefused(users: UserStore, h: Hasher, id: Id, u: User)
    requires u.email != ""
    ensures ProfileForm.Submit(ProfileForm.InitialForm(u), ProfileForm.IsGoogleUser(u)).Some?
    ensures UserController.UpdateUser(users, h, id, id,
      ProfileForm.Submit(ProfileForm.InitialForm(u), ProfileForm.IsGoogleUser(u)).value).0 ==
      Failure(BAD_REQUEST, UserController.CurrentRequiredMessage)
  {
    ProfileForm.InitialFormSends(u);
    ProfileSubmitRefused(users, h, id, ProfileForm.InitialForm(u), ProfileForm.IsGoogleUser(u));
  }

  /**
   * With the email field cleared and the password left empty, the request
   * is accepted: the stored email becomes "" and the stored password
   * becomes "" in plain text.
   */
  lemma ProfileBlankEmailStoresPlain(users: UserStore, h: Hasher, id: Id, f: ProfileForm.FormData, isGoogleUser: bool)
    requires id in users
    requires f.email == "" && f.password == ""
    ensures ProfileForm.Submit(f, isGoogleUser).Some?
    ensures UserController.UpdateUser(users, h, id, id, ProfileForm.Submit(f, isGoogleUser).value).0.Ok?
    ensures UserController.UpdateUser(users, h, id, id, ProfileForm.Submit(f, isGoogleUser).value).1[id].password == Plain("")
    ensures UserController.UpdateUser(users, h, id, id, ProfileForm.Submit(f, isGoogleUser).value).1[id].email == ""
  {
  }

  /** Under the corrected update, the same request leaves the stored password alone. */
  lemma ProfileBlankEmailCorrected(users: UserStore, h: Hasher, id: Id, f: ProfileForm.FormData, isGoogleUser: bool)
    requires id in users
    requires f.email == "" && f.password == ""
    ensures ProfileForm.Submit(f, isGoogleUser).Some?
    ensures UserController.UpdateUserCorrected(users, h, id, id, ProfileForm.Submit(f, isGoogleUser).value).0.Ok?
    ensures UserController.UpdateUserCorrected(users, h, id, id, ProfileForm.Submit(f, isGoogleUser).value).1[id].password ==
      users[id].password
  {
  }

  // ---------------------------------------------------------------------------
  // The three password rules

  /**
   * A password of six or seven characters gets through the sign-up page's
   * check, yet the server's update rule refuses it for its length.
   */
  lemma SignUpPageLooserThanUpdateRule(username: string, email: string, password: string)
    requires username != "" && email != ""
    requires SignUpForm.MinLength <= |password| < ServerPolicy.MinLength
    ensures SignUpForm.SubmitCheck(username, email, password).None?
    ensures ServerPolicy.ValidatePassword(password) == Some(ServerPolicy.LengthMessage)
    ensures ServerPolicy.ValidatePasswordIntended(password) == Some(ServerPolicy.LengthMessage)
  {
  }

  /**
   * The profile page and the server's corrected rule are incomparable:
   * "Abcdefg1#" satisfies every profile pattern but `#` is not one of the
   * server's special characters; "abcdefg1@" satisfies the server but has
   * no capital letter.
   */
  lemma ProfileAndServerIncomparable()
    ensures ProfileForm.PassesAllRules("Abcdefg1#")
    ensures ServerPolicy.ValidatePasswordIntended("Abcdefg1#") == Some(ServerPolicy.SpecialMessage)
    ensures ServerPolicy.ValidatePasswordIntended("abcdefg1@").None?
    ensures !ProfileForm.PassesAllRules("abcdefg1@")
  {
    var p := "Abcdefg1#";
    assert ProfileForm.RunAt(p, 0);
    assert IsUpper(p[0]) && IsLower(p[1]) && IsDigit(p[7]) && !IsAlnum(p[8]);
    assert !ServerPolicy.HasSpecial(p) by {
      forall i | 0 <= i < |p| ensures !ServerPolicy.IsSpecial(p[i]) {
        assert p[i] in "Abcdefg1#";
      }
    }
    var q := "abcdefg1@";
    assert IsLetter(q[0]) && IsDigit(q[7]) && ServerPolicy.IsSpecial(q[8]);
    assert !HasUpper(q) by {
      forall i | 0 <= i < |q| ensures !IsUpper(q[i]) {
        assert q[i] in "abcdefg1@";
      }
    }
  }

  // ---------------------------------------------------------------------------
  // Listing editor -> editListing

  /**
   * The editor sends the whole form with `userRef` set to the signed-in
   * user. When that user owns the listing, the edit stores exactly the
   * body, so ownership stays with them. This assumes the request reaches
   * `editListing`: the listing router (api/routes/listing.route.js) routes
   * only create and delete, and the server entry point (api/index.js)
   * mounts no router at all.
   */
  lemma WizardEditKeepsOwner(store: ListingController.ListingStore, id: Id, s: ListingWizard.State, owner: Id)
    requires id in store && store[id].userRef == owner
    requires ListingWizard.Submit(s, owner).Send?
    ensures ListingController.EditListing(store, owner, id, Full(ListingWizard.Submit(s, owner).body)).0.Ok?
    ensures ListingController.EditListing(store, owner, id, Full(ListingWizard.Submit(s, owner).body)).1[id] ==
      s.form.(userRef := owner)
  {
    MergeFull(store[id], s.form.(userRef := owner));
  }
}
