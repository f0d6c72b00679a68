/**
 * The listing endpoints (api/controllers/listing.controller.js) as
 * transitions of the listing collection. Delete and edit look the listing
 * up, answer 404 when it is missing and 401 when the requester is not its
 * `userRef`, and only then write. Create has no ownership check at all.
 */
module ListingController {
  import opened Common
  import opened Http
  import opened Listings
  import Users

  type ListingStore = map<Id, Listing>

  const NotFoundMessage := "Listing not found"
  const NotOwnDeleteMessage := "You can only delete your own listings!"
  const NotOwnEditMessage := "You can only edit your own listings!"
  const DeletedMessage := "Listing has been deleted"

  /** The two guards every mutating listing endpoint applies, in order. */
  datatype Gate = Missing | NotOwner | Owner

  function Guard(store: ListingStore, requester: Id, id: Id): (g: Gate)
    ensures g == Owner <==> id in store && store[id].userRef == requester
    ensures g == Missing <==> id !in store
  {
    if id !in store then Missing
    else if requester != store[id].userRef then NotOwner
    else Owner
  }

  /** What `Listing.create(req.body)` reports: the new document's id, or the error it raised. */
  datatype CreateOutcome = Created(id: Id) | CreateFailed(cause: string)

  /** The created document as the response carries it. */
  datatype StoredListing = StoredListing(id: Id, listing: Listing)

  /**
   * `createListing`: the body is inserted as it is. The requester's identity
   * is at hand but plays no part, so any `userRef` may be recorded.
   */
  function CreateListing(store: ListingStore, requester: Id, body: Listing, create: CreateOutcome): (r: (Response<StoredListing>, ListingStore))
    requires create.Created? ==> create.id !in store
    ensures create.CreateFailed? ==> r == (Forwarded(create.cause), store)
    ensures create.Created? ==>
      && r.0 == Ok(CREATED, StoredListing(create.id, body))
      && r.1.Keys == store.Keys + {create.id}
      && r.1[create.id] == body
      && (forall id :: id in store ==> r.1[id] == store[id])
  {
    match create
    case CreateFailed(cause) => (Forwarded(cause), store)
    case Created(id) => (Ok(CREATED, StoredListing(id, body)), store[id := body])
  }

  /** `deleteListing` */
  function DeleteListing(store: ListingStore, requester: Id, id: Id): (r: (Response<string>, ListingStore))
    ensures id !in store ==> r == (Failure(NOT_FOUND, NotFoundMessage), store)
    ensures id in store && store[id].userRef != requester ==>
      r == (Failure(UNAUTHORIZED, NotOwnDeleteMessage), store)
    // the owner removes exactly that listing
    ensures id in store && store[id].userRef == requester ==>
      && r.0 == Ok(OK, DeletedMessage)
      && r.1.Keys == store.Keys - {id}
      && (forall k :: k in r.1 ==> r.1[k] == store[k])
    // whoever changes the collection owns the listing
    ensures r.1 != store ==> id in store && store[id].userRef == requester
  {
    match Guard(store, requester, id)
    case Missing => (Failure(NOT_FOUND, NotFoundMessage), store)
    case NotOwner => (Failure(UNAUTHORIZED, NotOwnDeleteMessage), store)
    case Owner => (Ok(OK, DeletedMessage), store - {id})
  }

  /** `editListing`: the owner's body is merged into the listing and the result returned. */
  function EditListing(store: ListingStore, requester: Id, id: Id, body: Patch): (r: (Response<Listing>, ListingStore))
    ensures id !in store ==> r == (Failure(NOT_FOUND, NotFoundMessage), store)
    ensures id in store && store[id].userRef != requester ==>
      r == (Failure(UNAUTHORIZED, NotOwnEditMessage), store)
    ensures id in store && store[id].userRef == requester ==>
      && r.1 == store[id := Merge(store[id], body)]
      && r.0 == Ok(OK, r.1[id])
    ensures r.1 != store ==> id in store && store[id].userRef == requester
  {
    match Guard(store, requester, id)
    case Missing => (Failure(NOT_FOUND, NotFoundMessage), store)
    case NotOwner => (Failure(UNAUTHORIZED, NotOwnEditMessage), store)
    case Owner =>
      var updated := Merge(store[id], body);
      (Ok(OK, updated), store[id := updated])
  }

  /** `getListing` */
  function GetListing(store: ListingStore, id: Id): (r: Response<Listing>)
    ensures r.Ok? <==> id in store
    ensures r.Ok? ==> r == Ok(OK, store[id])
    ensures !r.Ok? ==> r == Failure(NOT_FOUND, NotFoundMessage)
  {
    if id !in store then Failure(NOT_FOUND, NotFoundMessage) else Ok(OK, store[id])
  }

  /**
   * The body `getListing` sends: the listing with its `userRef` replaced by
   * what `populate('userRef')` finds, the owner's whole user document, or
   * `null` when no user has that id.
   */
  datatype PopulatedListing = PopulatedListing(listing: Listing, owner: Option<Users.User>)

  /**
   * `getListing` as written. Nothing is taken out of the populated owner,
   * so the response carries the owner's email and stored password.
   */
  function GetListingPopulated(store: ListingStore, users: Users.UserStore, id: Id): (r: Response<PopulatedListing>)
    ensures r.Ok? <==> id in store
    ensures !r.Ok? ==> r == Failure(NOT_FOUND, NotFoundMessage)
    ensures r.Ok? ==> r.status == OK && r.body.listing == store[id]
    ensures r.Ok? ==> (r.body.owner.Some? <==> store[id].userRef in users)
    ensures r.Ok? && r.body.owner.Some? ==> r.body.owner.value == users[store[id].userRef]
  {
    if id !in store then Failure(NOT_FOUND, NotFoundMessage)
    else
      var ref := store[id].userRef;
      Ok(OK, PopulatedListing(store[id], if ref in users then Some(users[ref]) else None))
  }

  /** The listing part of the populated answer is what `GetListing` answers. */
  lemma PopulatedAgreesWithGet(store: ListingStore, users: Users.UserStore, id: Id)
    ensures GetListingPopulated(store, users, id).Ok? == GetListing(store, id).Ok?
    ensures GetListing(store, id).Ok? ==> GetListingPopulated(store, users, id).body.listing == GetListing(store, id).body
  {
  }

  /**
   * Anyone who asks for a listing whose owner exists receives that owner's
   * stored password, the bcrypt digest, and email.
   */
  lemma GetListingExposesDigest(store: ListingStore, users: Users.UserStore, id: Id)
    requires id in store && store[id].userRef in users
    ensures GetListingPopulated(store, users, id).body.owner.Some?
    ensures GetListingPopulated(store, users, id).body.owner.value.password == users[store[id].userRef].password
    ensures GetListingPopulated(store, users, id).body.owner.value.email == users[store[id].userRef].email
  {
  }

  /** The body of the corrected `getListing`: the owner without the `password` field. */
  datatype PublicListing = PublicListing(listing: Listing, owner: Option<Users.PublicUser>)

  /** `getListing` with the owner's password left out, as `updateUser` already does for its answer. */
  function GetListingCorrected(store: ListingStore, users: Users.UserStore, id: Id): (r: Response<PublicListing>)
    ensures r.Ok? <==> id in store
    ensures !r.Ok? ==> r == Failure(NOT_FOUND, NotFoundMessage)
    ensures r.Ok? ==> r.status == OK && r.body.listing == store[id]
    ensures r.Ok? ==> (r.body.owner.Some? <==> store[id].userRef in users)
    ensures r.Ok? && r.body.owner.Some? ==>
      r.body.owner.value == Users.Public(store[id].userRef, users[store[id].userRef])
  {
    if id !in store then Failure(NOT_FOUND, NotFoundMessage)
    else
      var ref := store[id].userRef;
      Ok(OK, PublicListing(store[id], if ref in users then Some(Users.Public(ref, users[ref])) else None))
  }

  /**
   * The corrected answer is the as-written one with the owner projected to
   * its public fields: the same listing, the same owner, no password.
   */
  lemma CorrectedIsPublicProjection(store: ListingStore, users: Users.UserStore, id: Id)
    ensures GetListingCorrected(store, users, id).Ok? == GetListingPopulated(store, users, id).Ok?
    ensures GetListingPopulated(store, users, id).Ok? ==>
      var w := GetListingPopulated(store, users, id).body;
      var c := GetListingCorrected(store, users, id).body;
      && c.listing == w.listing
      && c.owner.Some? == w.owner.Some?
      && (w.owner.Some? ==> c.owner.value == Users.Public(store[id].userRef, w.owner.value))
  {
  }

  /** Delete and edit refuse the same requests with the same status: 404 before 401. */
  lemma GuardsAgree(store: ListingStore, requester: Id, id: Id, body: Patch)
    ensures DeleteListing(store, requester, id).0.Ok? <==> EditListing(store, requester, id, body).0.Ok?
    ensures !DeleteListing(store, requester, id).0.Ok? ==>
      DeleteListing(store, requester, id).0.status == EditListing(store, requester, id, body).0.status
  {
  }

  /** A listing that was read back after an owner's edit is the merged listing. */
  lemma GetAfterEdit(store: ListingStore, requester: Id, id: Id, body: Patch)
    requires id in store && store[id].userRef == requester
    ensures GetListing(EditListing(store, requester, id, body).1, id) == EditListing(store, requester, id, body).0
  {
  }

  /** After an owner's delete the listing is gone, and a second delete answers 404. */
  lemma DeleteThenGone(store: ListingStore, requester: Id, id: Id)
    requires id in store && store[id].userRef == requester
    ensures GetListing(DeleteListing(store, requester, id).1, id) == Failure(NOT_FOUND, NotFoundMessage)
    ensures DeleteListing(DeleteListing(store, requester, id).1, requester, id).0.status == NOT_FOUND
  {
  }

  /**
   * The body may carry `userRef`: an owner's edit can hand the listing to
   * someone else, after which the former owner is refused with 401.
   */
  lemma EditTransfersOwnership(store: ListingStore, owner: Id, other: Id, id: Id, body: Patch)
    requires id in store && store[id].userRef == owner
    requires body.userRef == Some(other) && other != owner
    ensures EditListing(store, owner, id, body).1[id].userRef == other
    ensures DeleteListing(EditListing(store, owner, id, body).1, owner, id).0 ==
      Failure(UNAUTHORIZED, NotOwnDeleteMessage)
    ensures DeleteListing(EditListing(store, owner, id, body).1, other, id).0.Ok?
  {
  }

  /** Creation records whatever owner the body names, whoever sends it. */
  lemma CreateIgnoresRequester(store: ListingStore, requester: Id, body: Listing, id: Id)
    requires id !in store && body.userRef != requester
    ensures CreateListing(store, requester, body, Created(id)).0.Ok?
    ensures CreateListing(store, requester, body, Created(id)).1[id].userRef != requester
  {
  }
}
