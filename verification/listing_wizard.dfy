/**
 * The four-step listing editor (client/src/pages/UpdateListing.jsx):
 * per-step validation, the Next and Back buttons, field changes, the image
 * list (batch upload with a cap of six, removal by index) and the final
 * submit checks that produce the edit request body.
 */
module ListingWizard {
  import opened Common
  import opened Listings

  type Errors = map<string, string>

  const NameRequired := "Property name is required."
  const DescriptionRequired := "Description is required."
  const AddressRequired := "Address is required."
  const RegularPriceTooLow := "Regular price must be greater than 0."
  const DiscountTooHigh := "Discount price must be less than the regular price."
  const ImageLimitMessage := "You can only upload up to 6 images per listing."
  const NoImageMessage := "You must upload at least one image."
  const DiscountAboveRegular := "Discount price must be lower than regular price"

  const MaxImages := 6
  const LastStep := 4

  datatype State = State(step: int, form: Listing, errors: Errors)

  // ---------------------------------------------------------------------------
  // validateStep

  /** The error object `validateStep` builds for `step`, and whether it came out empty. */
  datatype StepCheck = StepCheck(ok: bool, errors: Errors)

  predicate DiscountNotBelowRegular(f: Listing) {
    f.kind == "sale" && f.offer && f.discountPrice >= f.regularPrice
  }

  /**
   * Step 1's errors: one for each of name, description and address that is
   * empty after `trim()`, that is, blank (`Common.BlankIsEmptyTrim`).
   */
  function DetailsErrors(f: Listing): (e: Errors)
    ensures "name" in e <==> IsBlank(f.name)
    ensures "description" in e <==> IsBlank(f.description)
    ensures "address" in e <==> IsBlank(f.address)
    ensures e.Keys <= {"name", "description", "address"}
    ensures "name" in e ==> e["name"] == NameRequired
    ensures "description" in e ==> e["description"] == DescriptionRequired
    ensures "address" in e ==> e["address"] == AddressRequired
  {
    var e1: Errors := if IsBlank(f.name) then map["name" := NameRequired] else map[];
    var e2 := if IsBlank(f.description) then e1["description" := DescriptionRequired] else e1;
    if IsBlank(f.address) then e2["address" := AddressRequired] else e2
  }

  /** Step 2's errors: a price that is not positive, and a sale offer whose discount is not below the price. */
  function PricingErrors(f: Listing): (e: Errors)
    ensures "regularPrice" in e <==> f.regularPrice <= 0
    ensures "discountPrice" in e <==> DiscountNotBelowRegular(f)
    ensures e.Keys <= {"regularPrice", "discountPrice"}
    ensures "regularPrice" in e ==> e["regularPrice"] == RegularPriceTooLow
    ensures "discountPrice" in e ==> e["discountPrice"] == DiscountTooHigh
  {
    var e1: Errors := if f.regularPrice <= 0 then map["regularPrice" := RegularPriceTooLow] else map[];
    if DiscountNotBelowRegular(f) then e1["discountPrice" := DiscountTooHigh] else e1
  }

  /** `validateStep`: the step's errors, and whether there are none. Steps other than 1 and 2 have no rule. */
  function ValidateStep(step: int, f: Listing): (r: StepCheck)
    ensures r.ok <==> r.errors == map[]
    ensures step == 1 ==> r.errors == DetailsErrors(f)
    ensures step == 2 ==> r.errors == PricingErrors(f)
    ensures step != 1 && step != 2 ==> r.ok
  {
    var errors := if step == 1 then DetailsErrors(f) else if step == 2 then PricingErrors(f) else map[];
    assert errors == map[] <==> errors.Keys == {};
    StepCheck(errors == map[], errors)
  }

  /** Step 1 passes iff name, description and address are all non-blank. */
  lemma DetailsStepRule(f: Listing)
    ensures ValidateStep(1, f).ok <==> !IsBlank(f.name) && !IsBlank(f.description) && !IsBlank(f.address)
  {
    var e := DetailsErrors(f);
    if IsBlank(f.name) { assert "name" in e; }
    if IsBlank(f.description) { assert "description" in e; }
    if IsBlank(f.address) { assert "address" in e; }
    if !IsBlank(f.name) && !IsBlank(f.description) && !IsBlank(f.address) {
      assert e.Keys == {};
    }
  }

  /** Step 2 fails iff the price is not positive or a sale offer's discount is not below it. */
  lemma PricingStepRule(f: Listing)
    ensures !ValidateStep(2, f).ok <==> f.regularPrice <= 0 || DiscountNotBelowRegular(f)
  {
    var e := PricingErrors(f);
    if f.regularPrice <= 0 { assert "regularPrice" in e; }
    if DiscountNotBelowRegular(f) { assert "discountPrice" in e; }
    if f.regularPrice > 0 && !DiscountNotBelowRegular(f) {
      assert e.Keys == {};
    }
  }

  // ---------------------------------------------------------------------------
  // Navigation

  /** `handleNext`: the step's errors are shown, and the step advances only if there are none. */
  function Next(s: State): (r: State)
    ensures r.step == if ValidateStep(s.step, s.form).ok then s.step + 1 else s.step
    ensures r.form == s.form
    ensures r.errors == ValidateStep(s.step, s.form).errors
  {
    var check := ValidateStep(s.step, s.form);
    s.(step := if check.ok then s.step + 1 else s.step, errors := check.errors)
  }

  /** `handleBack` */
  function Back(s: State): (r: State)
    ensures r == s.(step := s.step - 1)
  {
    s.(step := s.step - 1)
  }

  /** Back after a Next that advanced returns to the same step and form, with no error shown. */
  lemma BackUndoesNext(s: State)
    requires ValidateStep(s.step, s.form).ok
    ensures Back(Next(s)) == s.(errors := map[])
  {
  }

  datatype Button = NextButton | BackButton

  /** Next is rendered on steps 1 to 3, Back on steps 2 to 4. */
  predicate Shown(step: int, b: Button) {
    match b
    case NextButton => 1 <= step < LastStep
    case BackButton => 1 < step <= LastStep
  }

  /** Press the buttons in turn; a press on a button that is not rendered cannot happen and does nothing. */
  function Navigate(s: State, presses: seq<Button>): State
    decreases |presses|
  {
    if presses == [] then s
    else
      var b := presses[0];
      var s' := if !Shown(s.step, b) then s else if b == NextButton then Next(s) else Back(s);
      Navigate(s', presses[1..])
  }

  /** Whatever the user clicks, the step stays between 1 and 4 and the form is untouched. */
  lemma {:induction false} NavigateStaysInRange(s: State, presses: seq<Button>)
    requires 1 <= s.step <= LastStep
    ensures 1 <= Navigate(s, presses).step <= LastStep
    ensures Navigate(s, presses).form == s.form
    decreases |presses|
  {
    if presses != [] {
      var b := presses[0];
      var s' := if !Shown(s.step, b) then s else if b == NextButton then Next(s) else Back(s);
      assert 1 <= s'.step <= LastStep && s'.form == s.form;
      NavigateStaysInRange(s', presses[1..]);
    }
  }

  // ---------------------------------------------------------------------------
  // handleChange

  /** The parts of an input event the handler reads: `id`, `value` (text or number) and `checked`. */
  datatype ChangeEvent = ChangeEvent(id: string, text: string, number: int, checked: bool)

  const TextFields := {"name", "description", "address"}
  const NumberFields := {"bedrooms", "bathrooms", "regularPrice", "discountPrice"}
  const Checkboxes := {"parking", "furnished", "offer"}

  /** The form after an input event; ids that name no input of the form change nothing. */
  function ChangeForm(f: Listing, e: ChangeEvent): (r: Listing)
    // choosing sale or rent resets the offer and the discount, nothing else
    ensures e.id == "sale" || e.id == "rent" ==> r == f.(kind := e.id, offer := false, discountPrice := 0)
    // a checkbox sets its own flag only
    ensures e.id == "parking" ==> r == f.(parking := e.checked)
    ensures e.id == "furnished" ==> r == f.(furnished := e.checked)
    ensures e.id == "offer" ==> r == f.(offer := e.checked)
    ensures e.id == "regularPrice" ==> r == f.(regularPrice := e.number)
    ensures e.id == "discountPrice" ==> r == f.(discountPrice := e.number)
    ensures e.id == "name" ==> r == f.(name := e.text)
    ensures e.id == "description" ==> r == f.(description := e.text)
    ensures e.id == "address" ==> r == f.(address := e.text)
    ensures e.id == "bedrooms" ==> r == f.(bedrooms := e.number)
    ensures e.id == "bathrooms" ==> r == f.(bathrooms := e.number)
    // only the named field is ever touched: the owner and the images never change here
    ensures r.userRef == f.userRef && r.imageUrls == f.imageUrls
    ensures e.id !in TextFields + NumberFields + Checkboxes + {"sale", "rent"} ==> r == f
  {
    if e.id == "sale" || e.id == "rent" then f.(kind := e.id, offer := false, discountPrice := 0)
    else if e.id == "parking" then f.(parking := e.checked)
    else if e.id == "furnished" then f.(furnished := e.checked)
    else if e.id == "offer" then f.(offer := e.checked)
    else if e.id == "name" then f.(name := e.text)
    else if e.id == "description" then f.(description := e.text)
    else if e.id == "address" then f.(address := e.text)
    else if e.id == "bedrooms" then f.(bedrooms := e.number)
    else if e.id == "bathrooms" then f.(bathrooms := e.number)
    else if e.id == "regularPrice" then f.(regularPrice := e.number)
    else if e.id == "discountPrice" then f.(discountPrice := e.number)
    else f
  }

  /** Choosing sale or rent switches the offer off, so step 2 can no longer complain about the discount. */
  lemma TypeChoiceClearsDiscountError(f: Listing, e: ChangeEvent)
    requires e.id == "sale" || e.id == "rent"
    ensures "discountPrice" !in PricingErrors(ChangeForm(f, e))
    ensures ValidateStep(2, ChangeForm(f, e)).ok <==> f.regularPrice > 0
  {
    PricingStepRule(ChangeForm(f, e));
  }

  /** Only the name, description and address inputs can change step 1's errors. */
  lemma OtherInputsKeepDetailsErrors(f: Listing, e: ChangeEvent)
    requires e.id !in TextFields
    ensures DetailsErrors(ChangeForm(f, e)) == DetailsErrors(f)
  {
  }

  /**
   * `handleChange`: the field's error, if one is shown, is cleared as well.
   * The source overwrites it with `null`; an empty message stands for that.
   */
  function HandleChange(s: State, e: ChangeEvent): (r: State)
    ensures r.step == s.step && r.form == ChangeForm(s.form, e)
    ensures r.errors.Keys == s.errors.Keys
    ensures e.id in r.errors ==> r.errors[e.id] == ""
    ensures forall k :: k in s.errors && k != e.id ==> r.errors[k] == s.errors[k]
  {
    var errors := if e.id in s.errors && s.errors[e.id] != "" then s.errors[e.id := ""] else s.errors;
    s.(form := ChangeForm(s.form, e), errors := errors)
  }

  /**
   * Clearing a shown error does not make the field valid: a name edited to
   * blank text shows no message until Next, which brings the message back.
   */
  lemma ClearedErrorReturnsOnNext(s: State, e: ChangeEvent)
    requires s.step == 1 && e.id == "name" && IsBlank(e.text)
    requires "name" in s.errors
    ensures HandleChange(s, e).errors["name"] == ""
    ensures Next(HandleChange(s, e)).step == 1
    ensures Next(HandleChange(s, e)).errors["name"] == NameRequired
  {
    DetailsStepRule(HandleChange(s, e).form);
  }

  /** Conversely, a name edited to non-blank text leaves step 1 without a name error. */
  lemma FilledNamePassesOnNext(s: State, e: ChangeEvent)
    requires s.step == 1 && e.id == "name" && !IsBlank(e.text)
    ensures "name" !in Next(HandleChange(s, e)).errors
  {
  }

  // ---------------------------------------------------------------------------
  // Images

  /** The outcome of choosing a batch of files: the uploaded URLs appended, or the limit message. */
  datatype ImageOutcome = Uploaded(form: Listing) | Refused(message: string)

  /** `handleImageSubmit`, with the uploads already done: `urls` are their results in file order. */
  function AddImages(f: Listing, urls: seq<string>): (r: ImageOutcome)
    ensures r.Uploaded? <==> |urls| > 0 && |urls| + |f.imageUrls| < 7
    ensures r.Uploaded? ==> r.form == f.(imageUrls := f.imageUrls + urls)
    ensures r.Uploaded? ==> |r.form.imageUrls| <= MaxImages
    ensures r.Refused? ==> r.message == ImageLimitMessage
  {
    if |urls| > 0 && |urls| + |f.imageUrls| < 7 then Uploaded(f.(imageUrls := f.imageUrls + urls))
    else Refused(ImageLimitMessage)
  }

  /** `array.filter((_, i) => i !== index)` */
  function DropIndex<T>(s: seq<T>, index: int): (r: seq<T>)
    ensures 0 <= index < |s| ==> r == s[..index] + s[index + 1..]
    ensures !(0 <= index < |s|) ==> r == s
  {
    if s == [] then []
    else (if index == 0 then [] else [s[0]]) + DropIndex(s[1..], index - 1)
  }

  /** `handleRemoveImage` */
  function RemoveImage(f: Listing, index: int): (r: Listing)
    ensures 0 <= index < |f.imageUrls| ==> |r.imageUrls| == |f.imageUrls| - 1
    ensures r == f.(imageUrls := DropIndex(f.imageUrls, index))
  {
    f.(imageUrls := DropIndex(f.imageUrls, index))
  }

  datatype ImageAction = AddBatch(urls: seq<string>) | Remove(index: int)

  function ApplyImages(f: Listing, actions: seq<ImageAction>): Listing
    decreases |actions|
  {
    if actions == [] then f
    else
      var f' := match actions[0]
        case AddBatch(urls) => (match AddImages(f, urls) case Uploaded(g) => g case Refused(_) => f)
        case Remove(i) => RemoveImage(f, i);
      ApplyImages(f', actions[1..])
  }

  /** Uploads and removals never take a listing with at most six images past six. */
  lemma {:induction false} ImagesStayWithinLimit(f: Listing, actions: seq<ImageAction>)
    requires |f.imageUrls| <= MaxImages
    ensures |ApplyImages(f, actions).imageUrls| <= MaxImages
    decreases |actions|
  {
    if actions != [] {
      var f' := match actions[0]
        case AddBatch(urls) => (match AddImages(f, urls) case Uploaded(g) => g case Refused(_) => f)
        case Remove(i) => RemoveImage(f, i);
      assert |f'.imageUrls| <= MaxImages;
      ImagesStayWithinLimit(f', actions[1..]);
    }
  }

  // ---------------------------------------------------------------------------
  // handleSubmit

  /** What submitting does: errors shown and nothing sent, or the body of the edit request. */
  datatype SubmitOutcome = Blocked(errors: Errors) | Send(body: Listing)

  function Submit(s: State, currentUser: Id): (r: SubmitOutcome)
    ensures r.Send? <==>
      ValidateStep(s.step, s.form).ok && |s.form.imageUrls| >= 1 && s.form.regularPrice >= s.form.discountPrice
    ensures r.Send? ==> r.body == s.form.(userRef := currentUser)
    ensures ValidateStep(s.step, s.form).ok && |s.form.imageUrls| == 0 ==> r == Blocked(map["images" := NoImageMessage])
    ensures ValidateStep(s.step, s.form).ok && |s.form.imageUrls| >= 1 && s.form.regularPrice < s.form.discountPrice ==>
      r == Blocked(map["discountPrice" := DiscountAboveRegular])
  {
    var check := ValidateStep(s.step, s.form);
    if !check.ok then Blocked(check.errors)
    else if |s.form.imageUrls| < 1 then Blocked(map["images" := NoImageMessage])
    else if s.form.regularPrice < s.form.discountPrice then Blocked(map["discountPrice" := DiscountAboveRegular])
    else Send(s.form.(userRef := currentUser))
  }

  /** The submit button sits on the last step, where `validateStep` has no rule: only images and prices decide. */
  lemma SubmitOnLastStep(s: State, currentUser: Id)
    requires s.step == LastStep
    ensures Submit(s, currentUser).Send? <==>
      |s.form.imageUrls| >= 1 && s.form.regularPrice >= s.form.discountPrice
  {
  }
}
