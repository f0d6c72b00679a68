/**
 * `signup` (api/controllers/auth.controller.js): all three fields present,
 * hash the password, save the record, answer 201 with a fixed message.
 * The uniqueness of username and email is the collection's business: the
 * outcome of `save()` is an input here, and a refusal is passed on as it is.
 */
module AuthController {
  import opened Common
  import opened Http
  import opened Users
  import ServerPolicy

  const RequiredMessage := "All fields are required."
  const RegisteredMessage := "User registered successfully"

  datatype SignupBody = SignupBody(username: Field, email: Field, password: Field)

  /** What `newUser.save()` reports: the id the database gave the record, or the error it raised. */
  datatype SaveOutcome = Saved(id: Id) | SaveFailed(cause: string)

  predicate AllFieldsPresent(b: SignupBody) {
    Truthy(b.username) && Truthy(b.email) && Truthy(b.password)
  }

  /** The record `new User({ username, email, password: hashedPassword })` describes. */
  function NewUser(h: Hasher, b: SignupBody): User
    requires AllFieldsPresent(b)
  {
    User(b.username.value, b.email.value, Hashed(h.hash(b.password.value)), None, None)
  }

  /**
   * The response and the user collection after the request. The database
   * hands out a fresh id, hence the precondition on `save`.
   */
  function Signup(users: UserStore, h: Hasher, b: SignupBody, save: SaveOutcome): (r: (Response<string>, UserStore))
    requires save.Saved? ==> save.id !in users
    ensures !AllFieldsPresent(b) ==> r.0 == Failure(BAD_REQUEST, RequiredMessage)
    ensures AllFieldsPresent(b) && save.SaveFailed? ==> r.0 == Forwarded(save.cause)
    ensures r.0.Ok? <==> AllFieldsPresent(b) && save.Saved?
    ensures r.0.Ok? ==> r.0 == Ok(CREATED, RegisteredMessage)
    ensures !r.0.Ok? ==> r.1 == users
    ensures r.0.Ok? ==>
      && r.1.Keys == users.Keys + {save.id}
      && (forall id :: id in users ==> r.1[id] == users[id])
      && r.1[save.id].username == b.username.value
      && r.1[save.id].email == b.email.value
      && r.1[save.id].password == Hashed(h.hash(b.password.value))
  {
    if !AllFieldsPresent(b) then (Failure(BAD_REQUEST, RequiredMessage), users)
    else
      match save
      case SaveFailed(cause) => (Forwarded(cause), users)
      case Saved(id) => (Ok(CREATED, RegisteredMessage), users[id := NewUser(h, b)])
  }

  /** After a successful signup the submitted password matches what was stored. */
  lemma SignupPasswordVerifies(users: UserStore, h: Hasher, b: SignupBody, id: Id)
    requires Sound(h) && id !in users
    requires AllFieldsPresent(b)
    ensures Verify(h, b.password.value, Signup(users, h, b, Saved(id)).1[id].password)
  {
    assert h.compare(b.password.value, h.hash(b.password.value));
  }

  /** Signup keeps a collection of digests a collection of digests. */
  lemma SignupKeepsAllHashed(users: UserStore, h: Hasher, b: SignupBody, save: SaveOutcome)
    requires save.Saved? ==> save.id !in users
    requires AllHashed(users)
    ensures AllHashed(Signup(users, h, b, save).1)
  {
    var r := Signup(users, h, b, save);
    forall id | id in r.1 ensures r.1[id].password.Hashed? {
      if id in users { assert r.1[id] == users[id]; }
    }
  }

  /**
   * No password policy is applied: "a", which the update rule refuses, is
   * accepted at signup.
   */
  lemma SignupSkipsPasswordPolicy(users: UserStore, h: Hasher, id: Id)
    requires id !in users
    ensures ServerPolicy.ValidatePassword("a").Some?
    ensures Signup(users, h, SignupBody(Some("u"), Some("e"), Some("a")), Saved(id)).0.Ok?
  {
  }
}
