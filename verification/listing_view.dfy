/**
 * The listing page (client/src/pages/Listing.jsx): the image slider, the
 * price shown, the amenity labels and the "Contact landlord" button.
 *
 * `getListing` populates `userRef`, so the page receives the owner's user
 * document there, not an id; the page compares that value with the
 * signed-in user's id using `!==`. `ContactShown` keeps that comparison;
 * `ContactShownCorrected` compares the owner's id.
 */
module ListingView {
  import opened Common
  import opened Listings

  // ---------------------------------------------------------------------------
  // Image slider

  /** `nextImage`: the last image wraps to the first. */
  function NextImage(i: int, n: int): (r: int)
    ensures 0 <= i < n ==> 0 <= r < n
  {
    if i == n - 1 then 0 else i + 1
  }

  /** `prevImage`: the first image wraps to the last. */
  function PrevImage(i: int, n: int): (r: int)
    ensures 0 <= i < n ==> 0 <= r < n
  {
    if i == 0 then n - 1 else i - 1
  }

  /** Forward and back undo each other on every valid index. */
  lemma NextPrevInverse(i: int, n: int)
    requires 0 <= i < n
    ensures PrevImage(NextImage(i, n), n) == i
    ensures NextImage(PrevImage(i, n), n) == i
  {
  }

  /** Pressing the forward arrow `k` times. */
  function Forward(i: int, n: int, k: nat): int
  {
    if k == 0 then i else NextImage(Forward(i, n, k - 1), n)
  }

  /** Euclidean division is unique: a quotient and remainder in range are the ones `/` and `%` give. */
  lemma DivModUnique(a: int, n: int, q: int, r: int)
    requires n > 0 && 0 <= r < n && a == q * n + r
    ensures a % n == r
  {
    var q', r' := a / n, a % n;
    assert (q - q') * n == r' - r;
    if q > q' {
      assert (q - q') * n >= n by { MulAtLeast(q - q', n); }
    } else if q < q' {
      assert (q' - q) * n >= n by { MulAtLeast(q' - q, n); }
    }
  }

  lemma MulAtLeast(a: int, n: int)
    requires a >= 1 && n > 0
    ensures a * n >= n
  {
  }

  /** One more step round the circle: the remainder wraps from `n - 1` to 0. */
  lemma SuccMod(a: int, n: int)
    requires n > 0
    ensures (a + 1) % n == NextImage(a % n, n)
  {
    var q, j := a / n, a % n;
    if j == n - 1 {
      DivModUnique(a + 1, n, q + 1, 0);
    } else {
      DivModUnique(a + 1, n, q, j + 1);
    }
  }

  /** `k` forward presses move `k` places round the circle of `n` images. */
  lemma {:induction false} ForwardIsModular(i: int, n: int, k: nat)
    requires 0 <= i < n
    ensures Forward(i, n, k) == (i + k) % n
  {
    if k == 0 {
      DivModUnique(i, n, 0, i);
    } else {
      ForwardIsModular(i, n, k - 1);
      SuccMod(i + k - 1, n);
    }
  }

  /** A full turn of `n` presses comes back to the starting image. */
  lemma FullTurn(i: int, n: int)
    requires 0 <= i < n
    ensures Forward(i, n, n) == i
  {
    ForwardIsModular(i, n, n);
    DivModUnique(i + n, n, 1, i);
  }

  // ---------------------------------------------------------------------------
  // Prices and labels

  /** The price in the heading: the discounted one while an offer runs. */
  function HeadlinePrice(l: Listing): (p: int)
    ensures l.offer ==> p == l.discountPrice
    ensures !l.offer ==> p == l.regularPrice
  {
    if l.offer then l.discountPrice else l.regularPrice
  }

  /** The "$… OFF" badge, shown only while an offer runs. */
  function OffBadge(l: Listing): (amount: Option<int>)
    ensures amount.Some? <==> l.offer
    ensures amount.Some? ==> HeadlinePrice(l) + amount.value == l.regularPrice
  {
    if l.offer then Some(l.regularPrice - l.discountPrice) else None
  }

  /** The noun after a count: the plural adds an "s", and only counts above one take it. */
  function CountNoun(count: int, singular: string): (noun: string)
    ensures |singular| <= |noun| <= |singular| + 1 && noun[..|singular|] == singular
    ensures noun == singular <==> count <= 1
    ensures noun != singular ==> noun[|singular|..] == "s"
  {
    if count > 1 then singular + "s" else singular
  }

  /** The badge text and the suffix after the price. */
  function KindLabels(l: Listing): (labels: (string, string))
    ensures labels.0 == "For Rent" <==> l.kind == "rent"
    ensures labels.0 == "For Rent" || labels.0 == "For Sale"
    // the price reads per month exactly when the badge says the listing is for rent
    ensures labels.1 != "" <==> labels.0 == "For Rent"
    ensures labels.1 != "" ==> labels.1 == " / month"
  {
    if l.kind == "rent" then ("For Rent", " / month") else ("For Sale", "")
  }

  /** Any type other than "rent", "sale" or not, is shown as for sale with a plain price. */
  lemma OtherKindsShownForSale(l: Listing)
    requires l.kind != "rent"
    ensures KindLabels(l) == ("For Sale", "")
  {
  }

  // ---------------------------------------------------------------------------
  // Contact button

  /** What the page finds in the listing's `userRef`: the owner's document once populated, or `null`. */
  datatype OwnerRef = PopulatedOwner(ownerId: Id) | PlainId(id: Id) | NullOwner

  /** JavaScript `ref !== id` for a string `id`: only a string with the same characters is equal. */
  predicate StrictlyDiffers(ref: OwnerRef, id: Id) {
    ref != PlainId(id)
  }

  /** As written: signed in, `userRef !== currentUser._id`, and the contact form not yet open. */
  function ContactShown(currentUser: Option<Id>, ref: OwnerRef, contactOpen: bool): (shown: bool)
    ensures shown <==> currentUser.Some? && StrictlyDiffers(ref, currentUser.value) && !contactOpen
  {
    currentUser.Some? && StrictlyDiffers(ref, currentUser.value) && !contactOpen
  }

  /** The owner's id behind the reference, when there is one. */
  function OwnerIdOf(ref: OwnerRef): Option<Id> {
    match ref
    case PopulatedOwner(id) => Some(id)
    case PlainId(id) => Some(id)
    case NullOwner => None
  }

  /** Corrected: the button is for signed-in visitors other than the owner. */
  function ContactShownCorrected(currentUser: Option<Id>, ref: OwnerRef, contactOpen: bool): (shown: bool)
    ensures shown ==> currentUser.Some? && !contactOpen
    ensures shown ==> OwnerIdOf(ref) != currentUser
    ensures currentUser.Some? && !contactOpen && OwnerIdOf(ref) != currentUser ==> shown
  {
    currentUser.Some? && OwnerIdOf(ref) != currentUser && !contactOpen
  }

  /**
   * With the populated reference the page receives, the owner is offered
   * the button to contact themselves; the corrected condition hides it.
   */
  lemma OwnerOfferedContact(owner: Id)
    ensures ContactShown(Some(owner), PopulatedOwner(owner), false)
    ensures !ContactShownCorrected(Some(owner), PopulatedOwner(owner), false)
  {
  }

  /** For a plain id, as the stored listing holds it, the two conditions agree. */
  lemma ConditionsAgreeOnPlainIds(currentUser: Option<Id>, owner: Id, contactOpen: bool)
    ensures ContactShown(currentUser, PlainId(owner), contactOpen) ==
      ContactShownCorrected(currentUser, PlainId(owner), contactOpen)
  {
  }
}
