/**
 * `updateUser` (api/controllers/user.controllers.js): the self-service
 * account update. Only the account's own user may update it; a change of
 * email or password needs the current password; a new password must pass
 * `validatePassword` and is stored hashed; the four writable fields are
 * `$set` and the stored record is returned without its password.
 *
 * `$set` drops keys whose value is `undefined`, so an absent body field
 * leaves the stored field alone. A body field that is present but empty is
 * written as it is: for `password` that stores "" unhashed, and because ""
 * is falsy it also skips the current-password check. `UpdateUser` keeps
 * that behaviour; `UpdateUserCorrected` treats an empty password as no
 * change and uses the corrected password rule.
 */
module UserController {
  import opened Common
  import opened Http
  import opened Users
  import ServerPolicy

  const NotOwnAccountMessage := "You can only update your own account!"
  const CurrentRequiredMessage := "Current password is required to make these changes."
  const InvalidCurrentMessage := "Invalid current password."

  /** The body asks to change the email or the password (JavaScript `email || password`). */
  predicate Sensitive(b: UpdateBody) {
    Truthy(b.email) || Truthy(b.password)
  }

  /** A `$set` of one field: an absent value keeps what is stored. */
  function SetField<T>(stored: T, given: Option<T>): T {
    if given.Some? then given.value else stored
  }

  /**
   * The shared flow. `validate` is the password rule in force and
   * `writeEmptyPassword` says whether a present-but-empty password is
   * written to the record (as the source does) or ignored.
   */
  function Update(
    users: UserStore, h: Hasher, requester: Id, target: Id, b: UpdateBody,
    validate: string -> Option<string>, writeEmptyPassword: bool
  ): (Response<PublicUser>, UserStore)
  {
    if requester != target then
      (Failure(UNAUTHORIZED, NotOwnAccountMessage), users)
    else if Sensitive(b) && !Truthy(b.currentPassword) then
      (Failure(BAD_REQUEST, CurrentRequiredMessage), users)
    else if Sensitive(b) && target !in users then
      (Forwarded(NullRecord), users)
    else if Sensitive(b) && !Verify(h, b.currentPassword.value, users[target].password) then
      (Failure(UNAUTHORIZED, InvalidCurrentMessage), users)
    else if Sensitive(b) && Truthy(b.password) && validate(b.password.value).Some? then
      (Failure(BAD_REQUEST, validate(b.password.value).value), users)
    else if target !in users then
      (Forwarded(NullRecord), users)
    else
      var u := users[target];
      var newPassword :=
        if Truthy(b.password) then Some(Hashed(h.hash(b.password.value)))
        else if b.password.Some? && writeEmptyPassword then Some(Plain(b.password.value))
        else None;
      var u' := u.(
        username := SetField(u.username, b.username),
        email := SetField(u.email, b.email),
        password := SetField(u.password, newPassword),
        avatar := if b.avatar.Some? then b.avatar else u.avatar);
      (Ok(OK, Public(target, u')), users[target := u'])
  }

  /** The conditions under which the update reaches the `$set`, with `validate` the password rule in force. */
  ghost predicate Accepted(users: UserStore, h: Hasher, requester: Id, target: Id, b: UpdateBody, validate: string -> Option<string>) {
    && requester == target
    && target in users
    && (Sensitive(b) ==> Truthy(b.currentPassword) && Verify(h, b.currentPassword.value, users[target].password))
    && (Truthy(b.password) ==> validate(b.password.value).None?)
  }

  /** `updateUser` as written. */
  function UpdateUser(users: UserStore, h: Hasher, requester: Id, target: Id, b: UpdateBody): (r: (Response<PublicUser>, UserStore))
    // the ownership gate, before anything is read
    ensures requester != target ==> r.0 == Failure(UNAUTHORIZED, NotOwnAccountMessage)
    // email or password without the current password
    ensures requester == target && Sensitive(b) && !Truthy(b.currentPassword) ==>
      r.0 == Failure(BAD_REQUEST, CurrentRequiredMessage)
    // a current password that does not match
    ensures (requester == target && Sensitive(b) && Truthy(b.currentPassword) && target in users
      && !Verify(h, b.currentPassword.value, users[target].password)) ==>
      r.0 == Failure(UNAUTHORIZED, InvalidCurrentMessage)
    // a new password the rule refuses
    ensures (requester == target && Truthy(b.password) && Truthy(b.currentPassword) && target in users
      && Verify(h, b.currentPassword.value, users[target].password)
      && ServerPolicy.ValidatePassword(b.password.value).Some?) ==>
      r.0 == Failure(BAD_REQUEST, ServerPolicy.ValidatePassword(b.password.value).value)
    ensures r.0.Ok? <==> Accepted(users, h, requester, target, b, ServerPolicy.ValidatePassword)
    // a rejected request changes nothing
    ensures !r.0.Ok? ==> r.1 == users
    // an accepted one rewrites the target record only, and returns it without its password
    ensures r.0.Ok? ==>
      && r.1.Keys == users.Keys
      && (forall id :: id in users && id != target ==> r.1[id] == users[id])
      && r.0 == Ok(OK, Public(target, r.1[target]))
    ensures r.0.Ok? ==>
      && r.1[target].username == SetField(users[target].username, b.username)
      && r.1[target].email == SetField(users[target].email, b.email)
      && r.1[target].avatar == (if b.avatar.Some? then b.avatar else users[target].avatar)
      && r.1[target].authMethod == users[target].authMethod
    // a new password is stored as its digest; an absent one leaves the stored value
    ensures r.0.Ok? && Truthy(b.password) ==> r.1[target].password == Hashed(h.hash(b.password.value))
    ensures r.0.Ok? && b.password.None? ==> r.1[target].password == users[target].password
    // a present but empty password is written as it is
    ensures r.0.Ok? && b.password == Some("") ==> r.1[target].password == Plain("")
  {
    Update(users, h, requester, target, b, ServerPolicy.ValidatePassword, true)
  }

  /**
   * The answer to a request for someone else's account does not depend on
   * the user collection: no record is consulted.
   */
  lemma NotOwnerIgnoresStore(users1: UserStore, users2: UserStore, h: Hasher, requester: Id, target: Id, b: UpdateBody)
    requires requester != target
    ensures UpdateUser(users1, h, requester, target, b).0 == UpdateUser(users2, h, requester, target, b).0
  {
  }

  /** Neither does the refusal of an email or password change that lacks the current password. */
  lemma MissingCurrentIgnoresStore(users1: UserStore, users2: UserStore, h: Hasher, id: Id, b: UpdateBody)
    requires Sensitive(b) && !Truthy(b.currentPassword)
    ensures UpdateUser(users1, h, id, id, b).0 == UpdateUser(users2, h, id, id, b).0
  {
  }

  /** Once a new password is accepted, it is the password that matches the record. */
  lemma NewPasswordVerifies(users: UserStore, h: Hasher, id: Id, b: UpdateBody)
    requires Sound(h)
    requires Truthy(b.password)
    requires UpdateUser(users, h, id, id, b).0.Ok?
    ensures Verify(h, b.password.value, UpdateUser(users, h, id, id, b).1[id].password)
  {
    assert h.compare(b.password.value, h.hash(b.password.value));
  }

  /**
   * The source as written: a body whose password is "" passes without the
   * current password and leaves "" in the record, unhashed, so no password
   * matches the account afterwards.
   */
  lemma EmptyPasswordStoredPlain(users: UserStore, h: Hasher, id: Id, candidate: string)
    requires id in users
    ensures UpdateUser(users, h, id, id, UpdateBody(None, None, Some(""), None, None)).0.Ok?
    ensures UpdateUser(users, h, id, id, UpdateBody(None, None, Some(""), None, None)).1[id].password == Plain("")
    ensures !Verify(h, candidate, UpdateUser(users, h, id, id, UpdateBody(None, None, Some(""), None, None)).1[id].password)
  {
  }

  /** The corrected update: an empty password is no change, and the corrected rule applies. */
  function UpdateUserCorrected(users: UserStore, h: Hasher, requester: Id, target: Id, b: UpdateBody): (r: (Response<PublicUser>, UserStore))
    ensures requester != target ==> r.0 == Failure(UNAUTHORIZED, NotOwnAccountMessage)
    ensures requester == target && Sensitive(b) && !Truthy(b.currentPassword) ==>
      r.0 == Failure(BAD_REQUEST, CurrentRequiredMessage)
    ensures (requester == target && Sensitive(b) && Truthy(b.currentPassword) && target in users
      && !Verify(h, b.currentPassword.value, users[target].password)) ==>
      r.0 == Failure(UNAUTHORIZED, InvalidCurrentMessage)
    ensures (requester == target && Truthy(b.password) && Truthy(b.currentPassword) && target in users
      && Verify(h, b.currentPassword.value, users[target].password)
      && ServerPolicy.ValidatePasswordIntended(b.password.value).Some?) ==>
      r.0 == Failure(BAD_REQUEST, ServerPolicy.ValidatePasswordIntended(b.password.value).value)
    ensures r.0.Ok? <==> Accepted(users, h, requester, target, b, ServerPolicy.ValidatePasswordIntended)
    ensures !r.0.Ok? ==> r.1 == users
    ensures r.0.Ok? ==>
      && r.1.Keys == users.Keys
      && (forall id :: id in users && id != target ==> r.1[id] == users[id])
      && r.0 == Ok(OK, Public(target, r.1[target]))
    ensures r.0.Ok? ==>
      && r.1[target].username == SetField(users[target].username, b.username)
      && r.1[target].email == SetField(users[target].email, b.email)
      && r.1[target].avatar == (if b.avatar.Some? then b.avatar else users[target].avatar)
      && r.1[target].authMethod == users[target].authMethod
    // the password field is only ever written with a digest
    ensures r.0.Ok? ==>
      r.1[target].password == (if Truthy(b.password) then Hashed(h.hash(b.password.value)) else users[target].password)
  {
    Update(users, h, requester, target, b, ServerPolicy.ValidatePasswordIntended, false)
  }

  /** The corrected update keeps a collection of digests a collection of digests. */
  lemma CorrectedKeepsAllHashed(users: UserStore, h: Hasher, requester: Id, target: Id, b: UpdateBody)
    requires AllHashed(users)
    ensures AllHashed(UpdateUserCorrected(users, h, requester, target, b).1)
  {
    var r := UpdateUserCorrected(users, h, requester, target, b);
    if r.0.Ok? {
      forall id | id in r.1 ensures r.1[id].password.Hashed? {
        if id != target { assert r.1[id] == users[id]; }
      }
    }
  }
}
