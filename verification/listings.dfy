/**
 * A property listing as the server stores it and the listing pages edit it,
 * and the partial object an edit request may carry.
 */
module Listings {
  import opened Common

  type Id = string

  /** `kind` is the listing's `type` field ("rent" or "sale"). Prices and counts are whole numbers. */
  datatype Listing = Listing(
    name: string,
    description: string,
    address: string,
    kind: string,
    bedrooms: int,
    bathrooms: int,
    regularPrice: int,
    discountPrice: int,
    offer: bool,
    parking: bool,
    furnished: bool,
    imageUrls: seq<string>,
    userRef: Id
  )

  /** A request body: any subset of the listing's fields. */
  datatype Patch = Patch(
    name: Option<string>,
    description: Option<string>,
    address: Option<string>,
    kind: Option<string>,
    bedrooms: Option<int>,
    bathrooms: Option<int>,
    regularPrice: Option<int>,
    discountPrice: Option<int>,
    offer: Option<bool>,
    parking: Option<bool>,
    furnished: Option<bool>,
    imageUrls: Option<seq<string>>,
    userRef: Option<Id>
  )

  function Pick<T>(stored: T, given: Option<T>): T {
    if given.Some? then given.value else stored
  }

  /** `result` is the body's value when the body has the field, and the stored value otherwise. */
  predicate Overwritten<T(==)>(stored: T, given: Option<T>, result: T) {
    && (given.Some? ==> result == given.value)
    && (given.None? ==> result == stored)
  }

  /** The fields a body carries replace the stored ones; the others stay. */
  function Merge(l: Listing, p: Patch): (r: Listing)
    ensures Overwritten(l.name, p.name, r.name)
    ensures Overwritten(l.description, p.description, r.description)
    ensures Overwritten(l.address, p.address, r.address)
    ensures Overwritten(l.kind, p.kind, r.kind)
    ensures Overwritten(l.bedrooms, p.bedrooms, r.bedrooms)
    ensures Overwritten(l.bathrooms, p.bathrooms, r.bathrooms)
    ensures Overwritten(l.regularPrice, p.regularPrice, r.regularPrice)
    ensures Overwritten(l.discountPrice, p.discountPrice, r.discountPrice)
    ensures Overwritten(l.offer, p.offer, r.offer)
    ensures Overwritten(l.parking, p.parking, r.parking)
    ensures Overwritten(l.furnished, p.furnished, r.furnished)
    ensures Overwritten(l.imageUrls, p.imageUrls, r.imageUrls)
    ensures Overwritten(l.userRef, p.userRef, r.userRef)
  {
    Listing(
      Pick(l.name, p.name), Pick(l.description, p.description), Pick(l.address, p.address),
      Pick(l.kind, p.kind), Pick(l.bedrooms, p.bedrooms), Pick(l.bathrooms, p.bathrooms),
      Pick(l.regularPrice, p.regularPrice), Pick(l.discountPrice, p.discountPrice),
      Pick(l.offer, p.offer), Pick(l.parking, p.parking), Pick(l.furnished, p.furnished),
      Pick(l.imageUrls, p.imageUrls), Pick(l.userRef, p.userRef))
  }

  /** A whole listing sent as a body: every field present. */
  function Full(l: Listing): Patch {
    Patch(
      Some(l.name), Some(l.description), Some(l.address), Some(l.kind),
      Some(l.bedrooms), Some(l.bathrooms), Some(l.regularPrice), Some(l.discountPrice),
      Some(l.offer), Some(l.parking), Some(l.furnished), Some(l.imageUrls), Some(l.userRef))
  }

  const Empty := Patch(None, None, None, None, None, None, None, None, None, None, None, None, None)

  /** Sending a whole listing replaces the stored one entirely. */
  lemma MergeFull(stored: Listing, l: Listing)
    ensures Merge(stored, Full(l)) == l
  {
  }

  /** An empty body changes nothing. */
  lemma MergeEmpty(stored: Listing)
    ensures Merge(stored, Empty) == stored
  {
  }

  /** Applying the same body twice is applying it once. */
  lemma MergeIdempotent(stored: Listing, p: Patch)
    ensures Merge(Merge(stored, p), p) == Merge(stored, p)
  {
  }
}
