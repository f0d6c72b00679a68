# WebProgramming real-estate app: a Dafny model of its rules

The application is a property-listing site. It has an Express API (sign-up, account update,
listing create/edit/delete/read) and React pages (profile, sign-up, the four-step listing editor,
the listing page, the search page). This project models the parts of it that decide things. It
keeps them apart from what they only display or send over the network:

- **Server mutation rules.** These are pure transitions over a user collection `map<Id, User>` and
  a listing collection `map<Id, Listing>`.
  - Each returns a `Response` and the new collection. The response is a status with a payload,
    a status with a message, or an error forwarded to the error middleware.
  - bcrypt is a `Hasher` value: a `hash` and a `compare` function. Its one property,
    `compare(p, hash(p))`, appears only as a precondition (`Users.Sound`) of the lemmas that need it.
  - A stored password is either `Hashed(digest)` or `Plain(text)`. This lets "never stored in plain
    text" be stated.
- **The three password rules.**
  - The server's `validatePassword` and the profile page's five patterns are written as ordered
    first-failure rule lists (`RuleChains.FirstFailure`). The sign-up page's check is a plain chain
    of two alerts (`SignUpForm.SubmitCheck`): fill in every field, then at least six characters.
  - Their regular expressions are spelled out character by character:
    - `.` excludes line terminators.
    - `/\d]/` means "a digit followed by `]`".
    - `[^A-Za-z0-9]` means any character outside ASCII letters and digits.
    - `trim` removes the ECMAScript white-space and line-terminator set.
- **Client state logic.**
  - The listing editor: step validation, Next/Back, field changes, the image list with its cap of
    six, and the final submit checks.
  - The listing page: the cyclic image slider, the displayed prices and the contact-button condition.
  - The search page: the sidebar read from and written to `URLSearchParams`, its change handler,
    and the "Show more" paging.
- **Cross-component facts.** These state what happens when a page's request reaches its handler
  (module `CrossChecks`). The routers in api/routes mount only sign-up, account update, listing
  create and listing delete, and api/index.js mounts none of them. Each fact therefore assumes the
  request reaches the handler it names.

JavaScript truthiness of a request-body field is `Common.Truthy`: the field is present and is not
the empty string. Mongoose `$set` leaves a stored field alone when the body omits it (`None`). A body
field sent as JSON `null` is not modelled: `$set` would write it (see "## Left out").

Facts about the code that the model keeps as they are:

- Sign-up applies no password policy.
- A duplicate user is not answered with 409. The save error is forwarded unchanged.
- A request by someone other than the owner is answered with 401, not 403.
- Token checking is `verifyToken` in api/utils/verifyUser.js, which is not part of this model. The
  auth controller has no sign-in handler, so nothing modelled here issues a token. `req.user.id` is
  an input here.

The comparison `req.user.id !== listing.userRef` is modelled as string equality. This assumes the
listing schema (not part of this model) stores `userRef` as the owner's id string, which is what the
listing editor sends.

## Model

| member | source | states |
|---|---|---|
| RuleChains.FirstFailure | api/controllers/user.controllers.js:14-28 | No message iff every rule holds; otherwise the message of the first rule that fails, all earlier rules holding |
| ServerPolicy.ValidatePassword | api/controllers/user.controllers.js:14-28 | `null` iff length at least 8, a letter, a digit followed by `]`, and one of `@$!%*?&`; under 8 characters always the length message; any message is one of the four |
| ServerPolicy.ValidatePasswordIsFirstFailure | api/controllers/user.controllers.js:15-27 | The if-chain equals the first failure of the rule list length, letter, number, special, in that order |
| ServerPolicy.DigitTestNeedsBracket | api/controllers/user.controllers.js:21-23 | "abcdefg1!" is refused with the number message although it has a digit; the corrected rule accepts it |
| ServerPolicy.ValidatePasswordIntended | api/controllers/user.controllers.js:14-28 | Corrected rule (any digit): `null` iff length, letter, digit and special all hold |
| ServerPolicy.ValidatePasswordIntendedIsFirstFailure | api/controllers/user.controllers.js:15-27 | The corrected chain is the first failure of its rule list in the same order |
| ServerPolicy.AsWrittenStricterThanIntended | api/controllers/user.controllers.js:21 | Every password the rule as written accepts, the corrected rule accepts too |
| UserController.UpdateUser | api/controllers/user.controllers.js:30-75 | 401 for another account; 400 when email or password comes without a current password; 401 on a wrong current password; 400 with the policy message; accepted iff all gates pass; a refusal changes nothing; success rewrites only the target's username, email, password and avatar, stores a new password as its digest, stores a present empty password as plain "", and answers with the record without its password |
| UserController.NotOwnerIgnoresStore | api/controllers/user.controllers.js:31-33 | The answer to a request for another account does not depend on any stored record |
| UserController.MissingCurrentIgnoresStore | api/controllers/user.controllers.js:37-40 | The missing-current-password refusal does not depend on any stored record |
| UserController.NewPasswordVerifies | api/controllers/user.controllers.js:47-54 | After an accepted password change, the new password matches the stored record |
| UserController.EmptyPasswordStoredPlain | api/controllers/user.controllers.js:37-63 | A body with password "" passes without a current password, stores "" in plain text, and afterwards no password matches |
| UserController.UpdateUserCorrected | api/controllers/user.controllers.js:30-75 | Corrected update: the same refusals, with the corrected rule's message; accepted iff owner, record present, current password verified for an email or password change, and a non-empty new password passes the corrected rule; the same username, email and avatar writes; the password is only ever written as a digest, an empty one leaving it unchanged |
| UserController.CorrectedKeepsAllHashed | api/controllers/user.controllers.js:53-63 | If every stored password is a digest before the corrected update, every one is after |
| AuthController.Signup | api/controllers/auth.controller.js:4-24 | 400 when a field is missing; a save error is forwarded; success iff all fields are present and the save succeeds, answering 201 with the fixed message; only the new id is added, with the password stored as its digest; otherwise nothing changes |
| AuthController.SignupPasswordVerifies | api/controllers/auth.controller.js:14-18 | The password given at sign-up matches the stored record |
| AuthController.SignupKeepsAllHashed | api/controllers/auth.controller.js:14-18 | Sign-up keeps every stored password a digest |
| AuthController.SignupSkipsPasswordPolicy | api/controllers/auth.controller.js:8-20 | A one-character password the update rule refuses is accepted at sign-up |
| Listings.Merge | api/controllers/listing.controller.js:45 | Each of the thirteen fields takes the body's value when the body has it and keeps the stored value otherwise |
| Listings.MergeFull | api/controllers/listing.controller.js:45 | A body carrying the whole listing replaces it entirely |
| Listings.MergeEmpty | api/controllers/listing.controller.js:45 | An empty body changes nothing |
| Listings.MergeIdempotent | api/controllers/listing.controller.js:45 | Applying the same body twice equals applying it once |
| ListingController.Guard | api/controllers/listing.controller.js:14-22 | The owner gate passes iff the listing exists and its `userRef` is the requester; missing iff absent |
| ListingController.CreateListing | api/controllers/listing.controller.js:4-11 | A failed create is forwarded and changes nothing; otherwise 201 with the body under the new id, every other listing unchanged |
| ListingController.DeleteListing | api/controllers/listing.controller.js:13-30 | 404 if missing, then 401 for a non-owner, both leaving the collection unchanged; the owner removes exactly that listing; any change to the collection was made by the owner |
| ListingController.EditListing | api/controllers/listing.controller.js:33-50 | 404, then 401, both unchanged; the owner's body is merged into that listing only and the merged listing is returned |
| ListingController.GetListing | api/controllers/listing.controller.js:52-70 | 200 with the stored listing iff it exists, else 404 |
| ListingController.GetListingPopulated | api/controllers/listing.controller.js:52-70 | As written: 404 iff the listing is missing; otherwise 200 with the stored listing and the owner's whole user record, or `null` when no user has that id |
| ListingController.PopulatedAgreesWithGet | api/controllers/listing.controller.js:55-66 | The populated answer succeeds exactly when `GetListing` does, with the same listing |
| ListingController.GetListingExposesDigest | api/controllers/listing.controller.js:55-66 | Whenever the owner exists, the answer carries the owner's stored password and email |
| ListingController.GetListingCorrected | api/controllers/listing.controller.js:52-70 | Corrected: the same answers, with the owner reduced to its public fields, which have no password |
| ListingController.CorrectedIsPublicProjection | api/controllers/listing.controller.js:55-66 | The corrected answer is the as-written one with the owner projected to its public record |
| ListingController.GuardsAgree | api/controllers/listing.controller.js:13-42 | Delete and edit accept the same requests and refuse the rest with the same status |
| ListingController.GetAfterEdit | api/controllers/listing.controller.js:45-46 | Reading a listing after an owner's edit returns what the edit answered |
| ListingController.DeleteThenGone | api/controllers/listing.controller.js:24-26 | After an owner's delete the listing reads as 404 and a second delete answers 404 |
| ListingController.EditTransfersOwnership | api/controllers/listing.controller.js:40-45 | An owner's body naming another `userRef` hands the listing over: the old owner is then refused 401 and the new one may delete |
| ListingController.CreateIgnoresRequester | api/controllers/listing.controller.js:4-7 | A listing can be created with an owner other than the requester |
| ProfileForm.PasswordError | client/src/pages/Profile.jsx:41-60 | Empty iff the password is empty, the account is a Google account, or all five rules hold; otherwise "Password must: " and the message of the first rule that fails |
| ProfileForm.RuleOrder | client/src/pages/Profile.jsx:43-54 | The message names the length, uppercase, lowercase, number and special rules in that order of precedence |
| ProfileForm.LongRunIsLength | client/src/pages/Profile.jsx:44 | Without line terminators, `.{8,}` holds iff the password has at least eight characters |
| ProfileForm.LineBreakDefeatsLengthRule | client/src/pages/Profile.jsx:44 | "abcd\nefgh" has eight non-newline characters yet fails the length pattern |
| ProfileForm.InitialFormSends | client/src/pages/Profile.jsx:16-23 | The form as first rendered shows no password message, and submitting it sends the user's own username, email and avatar with password "" |
| ProfileForm.HandleChange | client/src/pages/Profile.jsx:92-94 | An input changes only the field its id names |
| ProfileForm.OtherInputsKeepPasswordError | client/src/pages/Profile.jsx:41-60 | Editing the username or email never changes the password message or whether a submit is sent |
| ProfileForm.Submit | client/src/pages/Profile.jsx:96-106 | A body is sent iff no password message is shown; it carries the whole form and never a current password |
| ProfileForm.SubmitEnabled | client/src/pages/Profile.jsx:216 | The button is enabled iff nothing is loading and no password message is shown, and an enabled button sends |
| SignUpForm.SubmitCheck | client/src/pages/SignUp.jsx:16-31 | The fill-in alert iff a field is empty; the length alert iff all are filled but the password is under 6; no alert iff filled with at least 6 |
| ListingWizard.DetailsErrors | client/src/pages/UpdateListing.jsx:68-73 | Step 1 has an error for name, description or address exactly when that field is blank after trimming, and no other key |
| ListingWizard.PricingErrors | client/src/pages/UpdateListing.jsx:74-85 | Step 2 has a price error exactly when the regular price is not positive, a discount error exactly when a sale offer's discount is not below it, and no other key |
| ListingWizard.ValidateStep | client/src/pages/UpdateListing.jsx:66-88 | The step passes iff its error object is empty; steps 1 and 2 use their own rules and every other step passes |
| ListingWizard.DetailsStepRule | client/src/pages/UpdateListing.jsx:68-73 | Step 1 passes iff name, description and address are all non-blank |
| ListingWizard.PricingStepRule | client/src/pages/UpdateListing.jsx:74-85 | Step 2 fails iff the price is not positive, or the listing is a sale offer whose discount is at or above the price |
| ListingWizard.Next | client/src/pages/UpdateListing.jsx:91-95 | The step grows by one exactly when it validates; the errors shown are the step's errors; the form is untouched |
| ListingWizard.Back | client/src/pages/UpdateListing.jsx:96 | The step goes down by one; the form and the shown errors stay |
| ListingWizard.BackUndoesNext | client/src/pages/UpdateListing.jsx:91-96 | Back after a Next that advanced returns to the same step and form, with no error shown |
| ListingWizard.NavigateStaysInRange | client/src/pages/UpdateListing.jsx:91-96 | Any sequence of rendered Next/Back presses keeps the step within 1 to 4 and leaves the form alone |
| ListingWizard.ChangeForm | client/src/pages/UpdateListing.jsx:99-119 | Choosing sale or rent resets offer and discount only; a checkbox sets its own flag; each of the seven text and number inputs sets its own field; owner and images never change; unknown ids change nothing |
| ListingWizard.TypeChoiceClearsDiscountError | client/src/pages/UpdateListing.jsx:74-107 | After choosing sale or rent, step 2 has no discount error and passes iff the regular price is positive |
| ListingWizard.OtherInputsKeepDetailsErrors | client/src/pages/UpdateListing.jsx:99-119 | Inputs other than name, description and address leave step 1's errors as they were |
| ListingWizard.HandleChange | client/src/pages/UpdateListing.jsx:99-103 | The edited field's shown error is cleared; all other errors stay |
| ListingWizard.ClearedErrorReturnsOnNext | client/src/pages/UpdateListing.jsx:66-103 | A name edited to blank text has its message cleared, and Next stays on step 1 and shows the message again |
| ListingWizard.FilledNamePassesOnNext | client/src/pages/UpdateListing.jsx:66-103 | A name edited to non-blank text leaves no name error after Next |
| ListingWizard.AddImages | client/src/pages/UpdateListing.jsx:122-157 | A batch is taken iff it is non-empty and the total stays under 7, appended in order; otherwise the limit message |
| ListingWizard.DropIndex | client/src/pages/UpdateListing.jsx:163 | Filtering out index i leaves exactly the elements before and after i, in order; an index out of range changes nothing |
| ListingWizard.RemoveImage | client/src/pages/UpdateListing.jsx:160-165 | Removing a valid index shortens the image list by one, dropping exactly that image |
| ListingWizard.ImagesStayWithinLimit | client/src/pages/UpdateListing.jsx:124 | Any sequence of uploads and removals keeps a listing at six images or fewer |
| ListingWizard.Submit | client/src/pages/UpdateListing.jsx:168-186 | A body is sent iff the step validates, there is an image and the regular price is not below the discount; it is the form with `userRef` set to the signed-in user; the image and price errors are the ones shown |
| ListingWizard.SubmitOnLastStep | client/src/pages/UpdateListing.jsx:170-176 | On step 4 only the image count and the price order decide |
| ListingView.NextPrevInverse | client/src/pages/Listing.jsx:52-62 | The forward and back arrows undo each other on every valid index |
| ListingView.NextImage | client/src/pages/Listing.jsx:52-56 | The forward arrow keeps the index within the images |
| ListingView.PrevImage | client/src/pages/Listing.jsx:58-62 | The back arrow keeps the index within the images |
| ListingView.ForwardIsModular | client/src/pages/Listing.jsx:52-56 | k forward presses from i land on (i + k) mod n |
| ListingView.FullTurn | client/src/pages/Listing.jsx:52-56 | n forward presses come back to the starting image |
| ListingView.HeadlinePrice | client/src/pages/Listing.jsx:119-121 | The discounted price during an offer, otherwise the regular price |
| ListingView.OffBadge | client/src/pages/Listing.jsx:132-135 | The badge is shown iff an offer runs, and the headline price plus the badge amount is the regular price |
| ListingView.CountNoun | client/src/pages/Listing.jsx:148 | The noun is the singular or the singular with one "s" added, and the singular iff the count is at most one |
| ListingView.KindLabels | client/src/pages/Listing.jsx:122-130 | The badge reads "For Rent" iff the type is "rent", else "For Sale"; the " / month" suffix appears iff the badge reads "For Rent" |
| ListingView.OtherKindsShownForSale | client/src/pages/Listing.jsx:122-130 | Any type other than "rent", including an unknown one, is shown as for sale with no suffix |
| ListingView.ContactShown | client/src/pages/Listing.jsx:165 | As written: shown iff signed in, the reference differs from the user's id under `!==`, and contact is not open |
| ListingView.OwnerOfferedContact | client/src/pages/Listing.jsx:165 | With the populated owner the page receives, the owner is offered the button; the corrected condition hides it |
| ListingView.ContactShownCorrected | client/src/pages/Listing.jsx:165 | Shown iff signed in, not the owner, and contact not open |
| ListingView.ConditionsAgreeOnPlainIds | client/src/pages/Listing.jsx:165 | For a plain id reference the written and corrected conditions agree |
| SearchPage.Get | client/src/pages/Search.jsx:25-31 | No value iff no pair has the key; otherwise the value of the first pair with the key |
| SearchPage.GetSet | client/src/pages/Search.jsx:75-82 | After `set`, the key reads back the new value and every other key reads as before |
| SearchPage.FromParams | client/src/pages/Search.jsx:23-51 | With no non-empty recognised parameter the sidebar is kept; otherwise each field comes from its parameter or its default, and a flag is on iff its parameter is exactly "true" |
| SearchPage.ToParams | client/src/pages/Search.jsx:75-82 | Each of the seven keys set in turn reads back its sidebar field, flags as "true" or "false", and no other key is present |
| SearchPage.RoundTrip | client/src/pages/Search.jsx:42-50 | Writing the sidebar to the URL and reading it back gives the same sidebar when type, sort and order are non-empty |
| SearchPage.EmptyKindBecomesAll | client/src/pages/Search.jsx:44 | An empty type does not survive the trip: it comes back as "all" |
| SearchPage.SortOrder | client/src/pages/Search.jsx:101-102 | Sort and order are never empty; the sort is the default or the text before the first `_` (all of it without one); an order other than the default needs a `_` in the value |
| SearchPage.HandleChange | client/src/pages/Search.jsx:91-104 | A type button sets the type; the search box sets the term; each toggle sets only its own flag; the sort menu sets sort and order from the split value; other ids change nothing |
| SearchPage.SortOrderSplits | client/src/pages/Search.jsx:100-102 | "X_Y" with no `_` in X or Y gives sort X and order Y, empty parts taking their defaults |
| SearchPage.SortOnly | client/src/pages/Search.jsx:100-102 | A value without `_` sets the sort and falls back to descending order |
| SearchPage.MenuOptions | client/src/pages/Search.jsx:168-171 | Each of the four menu values selects the sort and order its label names |
| SearchPage.DefaultMatchesNoOption | client/src/pages/Search.jsx:164-171 | The default state's menu value "created_at_desc" is none of the four options, and no option sets the default sort "created_at" |
| SearchPage.FirstPage | client/src/pages/Search.jsx:59-64 | Results replace the list; "Show more" is on iff more than eight arrived |
| SearchPage.MorePage | client/src/pages/Search.jsx:113-117 | Results are appended in order; "Show more" stays on iff it was on and at least nine arrived |
| SearchPage.ShowMoreQuery | client/src/pages/Search.jsx:107-111 | The follow-up query is the current one with `startIndex` set to the number of results shown, all other keys unchanged |
| SearchPage.DecimalRoundTrip | client/src/pages/Search.jsx:110 | The start index written as decimal text reads back as the same number |
| SearchPage.BrowseKeepsEverything | client/src/pages/Search.jsx:59-117 | After any number of "Show more" fetches, the list is every batch in fetch order, and the button is on iff the first page had more than eight and every later batch at least nine |
| CrossChecks.ProfileSubmitRefused | api/controllers/user.controllers.js:37-40 | Every profile submit with a non-empty email is refused 400 by the update handler, leaving the collection unchanged |
| CrossChecks.InitialProfileRefused | client/src/pages/Profile.jsx:18-23 | Saving the profile form as first rendered, for a user with a non-empty email, is refused with 400 |
| CrossChecks.ProfileBlankEmailStoresPlain | client/src/pages/Profile.jsx:105 | A profile submit with email and password cleared is accepted and stores the password "" in plain text |
| CrossChecks.ProfileBlankEmailCorrected | api/controllers/user.controllers.js:47-63 | Under the corrected update the same submit leaves the stored password as it was |
| CrossChecks.SignUpPageLooserThanUpdateRule | client/src/pages/SignUp.jsx:24-27 | A six- or seven-character password passes the sign-up page but the server rule refuses it for length |
| CrossChecks.ProfileAndServerIncomparable | client/src/pages/Profile.jsx:43-49 | "Abcdefg1#" passes the profile page but not the server's special set; "abcdefg1@" passes the corrected server rule but not the profile page |
| CrossChecks.WizardEditKeepsOwner | client/src/pages/UpdateListing.jsx:182-186 | The editor's body, sent by the owner, is stored exactly, with the owner unchanged (api/routes/listing.route.js has no edit route and api/index.js mounts no router, so this assumes the request reaches the handler) |
| Common.TrimStart | client/src/pages/UpdateListing.jsx:69 | The result is a suffix of the input, everything dropped is white space, and it is empty iff the input is all white space or else starts with a non-white-space character |
| Common.TrimEnd | client/src/pages/UpdateListing.jsx:69 | The mirror image: a prefix, only white space dropped, ending with a non-white-space character when non-empty |
| Common.Trim | client/src/pages/UpdateListing.jsx:69 | The trimmed text is a contiguous part of the input with only white space before and after it, empty iff every character is white space, and otherwise begins and ends with a non-white-space character |
| Common.BlankIsEmptyTrim | client/src/pages/UpdateListing.jsx:69-72 | A field is blank (all white space) exactly when `trim()` leaves nothing |
| Common.JoinSplit | client/src/pages/Search.jsx:101 | Joining the parts of `split` with the separator gives back the original string |

## Left out

- Token issuing and verification, Google sign-in, cookies and sign-in: their handlers are not part of this model. `req.user.id` is a parameter.
- bcrypt salting, cost factor and timing: `hash` and `compare` are opaque functions. `Users.Sound` is the only fact about them, and it appears as a precondition.
- Mongoose schemas, unique indexes, id generation and concurrent requests. A successful save or create is given its fresh id as a parameter.
- Database failures: only a failing save at sign-up and a failing create of a listing are modelled, as a forwarded cause. `DeleteListing`, `EditListing`, `GetListing` and `UpdateUser` have no database-failure outcome.
- `Listing.findById` in `deleteListing` and `editListing` (api/controllers/listing.controller.js:14 and :34) runs before the `try`. A failure there, such as a `CastError` for a malformed id, is not passed to `next`, and the model has no outcome for it.
- The listing router (api/routes/listing.route.js) routes only create and delete, and api/index.js mounts no router. The model treats every handler as reachable.
- ListingController.GetListing: answers with the stored listing alone. The populated owner the source embeds, the whole user document with its email and password digest, is modelled by `ListingController.GetListingPopulated` (see "## Findings").
- `fetch`, Cloudinary and Firebase uploads: an image batch arrives as its list of URLs. An upload failure, which leaves the list unchanged, is not modelled.
- The profile page's avatar upload, progress bar and Redux dispatches: these are network plumbing and presentation.
- UserController.UpdateUser: a body field sent as JSON `null` is treated like an absent one. In the source `null` is falsy, so `{ "password": null }` skips the current-password check (api/controllers/user.controllers.js:37), and `$set` then writes `null` over the stored password (:60-65). A `null` email or username clears that field the same way. The model has no cleared value for a field. The same gap holds for `UserController.UpdateUserCorrected`.
- Listings.Merge: a `null` field of the edit body keeps the stored value here, while `findByIdAndUpdate` (api/controllers/listing.controller.js:45) writes the `null`.
- ListingController.EditListing: it merges through `Listings.Merge`, so it inherits that `null` gap. A `null` field of an owner's edit body is stored as `null` by the source and left unchanged by the model.
- ListingWizard.AddImages: the source appends the uploaded URLs to the form captured when the files were chosen (client/src/pages/UpdateListing.jsx:144-146). A field edit or image removal made while the upload runs is undone when it finishes, and of two overlapping batches the earlier one is lost. The model appends to the current form, as if each upload finished at once. The cap of six still holds, since each batch is checked against the list it extends.
- The search page's 500 ms debounce and the ordering of asynchronous effects: each effect is a function applied to the state it reads.
- `URLSearchParams.toString()` percent-encoding and parsing a query string: a query is its list of key/value pairs.
- JavaScript `Number` coercion and `toLocaleString`: prices and counts are integers.
- String length in UTF-16 code units: lengths count Dafny characters, which agree on the Basic Multilingual Plane.
- ListingWizard.ChangeForm: an input id that names no form field adds that key to the form object in the source. The model leaves the form unchanged because the record has no such field.
- The editor's Submit button being disabled while loading or uploading, and the sign-up page, which sends nothing after its checks: presentation or absent behaviour.
- ListingView.NextImage: the range guarantee is stated for valid indices only. The arrows are rendered only with at least two images.
- Home, About, headers, routing, the Redux store and the server bootstrap: presentation and configuration.

## Findings

| source | as written | input that shows it | evidently intended | confidence | as-written member | corrected member |
|---|---|---|---|---|---|---|
| api/controllers/user.controllers.js:21 | `/\d]/` passes only when a digit is immediately followed by `]` | new password "abcdefg1!" is refused with "must contain at least one number" | any digit satisfies the number rule (`/\d/`) | high; not executed | ServerPolicy.DigitTestNeedsBracket | ServerPolicy.ValidatePasswordIntended |
| api/controllers/user.controllers.js:37-63 | a present but empty `password` is falsy, so it skips the current-password check and the hashing, yet `$set` writes it | own-account body `{ password: "" }` (the profile page sends `password: ""` whenever its field is empty) | an empty password means "no change" | medium; not executed | UserController.EmptyPasswordStoredPlain | UserController.UpdateUserCorrected |
| client/src/pages/Listing.jsx:165 | `listing.userRef !== currentUser._id` compares the owner document that `getListing` populates with an id string, so it is always true | the owner opens their own listing | hide the button from the owner by comparing the owner's id | medium (depends on the listing schema); not executed | ListingView.OwnerOfferedContact | ListingView.ContactShownCorrected |
| api/controllers/listing.controller.js:55-66 | `populate('userRef')` embeds the owner's whole user document, and the handler sends it unfiltered | any request for a listing whose owner exists receives the owner's email and bcrypt digest (the user schema does not hide `password`: api/controllers/user.controllers.js:42 reads it from a plain `findById` and :70 removes it by hand) | send only the owner's public fields, as `updateUser` does for its own answer | medium (depends on the user schema); not executed | ListingController.GetListingExposesDigest | ListingController.GetListingCorrected |
