# Royal Photowaala page script — a Dafny model

This project models the decision logic of the photography site's page
script (`js/main.js`), lifted out of the browser calls and stated over
plain sequences, strings and small records:

- **Store schema upgrade** (`Store`). The image database `RoyalPhotowaalaDB`
  is opened at version 1. When it is older, the upgrade step creates each
  missing store: `galleryImages` and `homeImages` with generated keys,
  `websiteLogo` with an explicit `id` key. Stores already present are left
  alone. A newer database, or a browser that refuses access to its storage,
  makes the open fail, and then nothing is rendered.
- **Image surfaces** (`Images`, `Slideshow`). The logo slot shows the record
  with key 1 when its payload is non-empty. The gallery shows a placeholder
  text for an empty store. Otherwise it shows at most 50 lazily loaded
  images labelled "Gallery Image 1", "Gallery Image 2", …. The home hero gets
  a fixed fallback background when the store is empty. Otherwise it shows
  the first image and a rotation advances `current := (current + 1) % n`
  on every timer tick.
- **Booking-form checks** (`Validation`). Each value is trimmed. Then the
  rules run in a fixed order: required, email pattern, 10-digit phone,
  date not in the past. The first rule that rejects a field decides its
  message. The form is valid when no field is rejected.
- **Reviews list** (`Reviews`). An empty array gives a placeholder. Otherwise
  there is one card per review, in order, with `rating` stars. A rejected
  request, or a negative rating (for which `repeat` throws), shows the
  unavailable message instead.

Document elements are modelled as small classes (`Dom.Container`,
`Dom.Hero`) whose children or background the loaders clear and append to,
as the script does. Each loader is proved against a pure view function
(`LogoView`, `GalleryView`, `ReviewsView`), and the properties are proved
about those functions.

## Model

| member | source | states |
|---|---|---|
| `Store.Upgraded` | js/main.js:65-73 | after the upgrade all three image stores exist; missing ones get their key policy (generated `id` for gallery and home, explicit `id` for the logo); stores already present keep theirs; no other store appears |
| `Store.UpgradeIdempotent` | js/main.js:65-73 | running the upgrade step a second time changes nothing |
| `Store.UpgradeKeepsCompleteSchema` | js/main.js:67-72 | a schema that already holds the three stores is left exactly as it was |
| `Store.Database.CreateObjectStore` | js/main.js:67-72 | creating a store adds exactly that name with its policy (the browser refuses an existing name) |
| `Store.Database.OnUpgradeNeeded` | js/main.js:65-73 | the handler leaves the database's stores equal to `Upgraded` of the old ones |
| `Store.Database.Open` | js/main.js:54-63 | opening at version 1 succeeds exactly when the browser grants access and the database is not newer; a failed open changes nothing; an older database is upgraded first; an open database is at version 1 |
| `Store.Get` | js/main.js:78-81 | the lookup by key returns a stored record with that key, and nothing exactly when no record has it |
| `Images.LogoView` | js/main.js:84-93 | the logo slot holds at most one element; it is empty exactly when no record was found or its payload is empty; otherwise it is the logo image of the stored payload |
| `Images.LoadLogo` | js/main.js:76-95 | a present slot is cleared and then holds `LogoView` of the key-1 lookup; a missing slot is skipped |
| `Images.Tiles` | js/main.js:112-119 | one tile per shown record, the i-th made from the i-th record and numbered from the given offset |
| `Images.GalleryView` | js/main.js:106-119 | no records give only the placeholder text; n records give exactly min(n, 50) images, the i-th with the i-th record's payload as source, alt "Gallery Image i+1", lazy loading and async decoding, and no inline height or margin (the whole element is the gallery tile) |
| `Images.LoadGallery` | js/main.js:98-121 | a present gallery is cleared and then holds `GalleryView` of the records; a missing one is skipped |
| `Images.GalleryLabelNumber` | js/main.js:115 | every alt text is "Gallery Image " followed by the decimal position counted from 1 |
| `Images.GalleryLabelsDistinct` | js/main.js:115 | no two gallery images share an alt text |
| `Images.GalleryIgnoresTail` | js/main.js:112 | records after the fiftieth do not change what the gallery shows |
| `Images.GalleryTwoRecords` | js/main.js:112-119 | records "x" and "y" give two lazily loaded images with sources "x" then "y" |
| `Text.Trim` | js/main.js:161 | the trimmed value is the infix left after dropping only white space from both ends; it neither starts nor ends with white space; it is empty exactly when the value is all white space |
| `Text.TrimIdempotent` | js/main.js:161 | trimming a trimmed value changes nothing |
| `Text.Decimal` | js/main.js:115 | the decimal text of a number is non-empty, all digits, and has no leading zero |
| `Text.DecimalRoundTrip` | js/main.js:115 | reading back the decimal text of n gives n |
| `Text.DecimalInjective` | js/main.js:115 | different numbers have different decimal texts |
| `Slideshow.Advance` | js/main.js:140 | a tick keeps the index in range; it moves to the next frame, and back to 0 after the last |
| `Slideshow.AfterTicks` | js/main.js:139-142 | the index after any number of ticks stays below the number of images |
| `Slideshow.TicksCompose` | js/main.js:139-142 | a ticks followed by b ticks are a + b ticks |
| `Slideshow.TicksClimb` | js/main.js:140 | before wrapping, k ticks move k frames forward |
| `Slideshow.TicksPeriod` | js/main.js:139-142 | from any frame, n ticks return to that frame |
| `Slideshow.TicksFromStart` | js/main.js:137-142 | starting from the first image, the frame after k ticks is k mod n |
| `Slideshow.Rotation.Start` | js/main.js:137-138 | the rotation starts at index 0 with the hero showing the first image |
| `Slideshow.Rotation.Tick` | js/main.js:139-141 | each tick advances the index by `Advance` and the hero shows the new current image |
| `Slideshow.LoadSlideshow` | js/main.js:124-144 | a missing hero is skipped; no home images give the fixed fallback URL and no rotation; otherwise a new rotation over all images starts at the first |
| `Validation.EmailCheckSound` | js/main.js:169-175 | every value the email check accepts matches `/^[^\s@]+@[^\s@]+\.[^\s@]+$/` |
| `Validation.EmailCheckComplete` | js/main.js:169-175 | every value the email pattern matches is accepted by the email check |
| `Validation.EmailCheckMatchesPattern` | js/main.js:169-175 | a value passes the email check (no white space, exactly one '@', non-empty local part, a '.' inside the domain neither first nor last) exactly when it matches the email pattern |
| `Validation.MatchesDigits` | js/main.js:178-184 | a value matches `[0-9]{count}` in full exactly when it has count characters, all digits |
| `Validation.PhoneRule10Digits` | js/main.js:178-184 | a non-blank value in a field named "phone" whose type is neither email nor date passes exactly when it is 10 digits |
| `Validation.EmailRuleExactly` | js/main.js:169-175 | a non-blank value in an email field not named "phone" passes exactly when it matches the email pattern |
| `Validation.IsPastDate` | js/main.js:187-196 | a date counts as past only when it parses; an Invalid Date never does |
| `Validation.CheckInput` | js/main.js:160-197 | a failing field's message is one of the four rule messages; a field fails only when it is required or its trimmed value is non-empty |
| `Validation.FirstViolationSpec` | js/main.js:160-198 | a field passes when no rule in the list rejects it; otherwise its message is that of the first rule that rejects it |
| `Validation.CheckInputFollowsRuleOrder` | js/main.js:160-197 | the checks of one field are the first-rejection reading of the order required, email, phone, date on the trimmed value |
| `Validation.RequiredMessageExactly` | js/main.js:163-167 | the required message appears exactly for a required field that is blank after trimming |
| `Validation.BlankOptionalPasses` | js/main.js:163-197 | a blank field that is not required passes, whatever its type or name |
| `Validation.ValidateForm` | js/main.js:149-201 | a missing form is invalid; otherwise every field gets its verdict and the form is valid exactly when no field fails |
| `Validation.ValidateFormAsWritten` | js/main.js:149-221 | as written the call returns true when every field passes, and otherwise throws at the first failing field after showing its message; it never returns false for a present form |
| `Validation.BlankRequiredNameThrows` | js/main.js:160-220 | a form whose required name is blank is invalid, yet the code as written throws at that field instead of returning false |
| `Reviews.Stars` | js/main.js:348 | the star string for n has exactly n characters, each U+2B50 |
| `Reviews.Cards` | js/main.js:344-352 | one card per review, in order, each made from its review |
| `Reviews.ReviewsView` | js/main.js:334-360 | a rejected request or a negative rating shows the unavailable message; an empty array shows the empty-list message; otherwise one card per review in input order, with its name, its comment and `rating` stars |
| `Reviews.RenderReviews` | js/main.js:334-360 | a present list ends up holding `ReviewsView` of the response, cards appended one by one; a missing list is skipped |
| `Page.OpenAndRender` | js/main.js:54-144 | the page opens the database exactly when the browser grants access and the database is not newer; when the open fails nothing on the page or in the database changes; otherwise the schema is upgraded if needed, after which all three stores exist. The loaders run in order and stop at the first missing store. Each surface reached shows its view of the stored records, and the surfaces after the missing store are unchanged. No rotation starts without a hero element, without home images or without the home store |

## Left out

- Store.Database.Open: why the browser refuses access (private mode, storage policy, quota) is an input flag, `denied`; the model only distinguishes a refused open from a granted one.
- Page.OpenAndRender: takes the same `denied` flag and passes it to the open. A database already at version 1 that lacks a store is modelled by its effect: the loader for that store and every later one render nothing. The error itself (`NotFoundError`, uncaught in the success callback) is not modelled.
- Asynchronous open, transactions and request callbacks of the browser database: the model takes the stores' records as input and renders them in sequence. The three loaders touch disjoint elements, so their order does not matter.
- Which records the stores hold is an input. Writing to the stores happens on another page and is not part of this model.
- The `setInterval` timer and its 4000 ms period: rotation is modelled as discrete ticks (`Slideshow.Rotation.Tick`). The timer is never cancelled, which the model reflects by offering no stop operation.
- Element properties and inline style besides the ones kept (the properties `loading`, `decoding` and `alt`, the styles `height` and `marginRight`), and the way CSS parses `url('…')` for a payload containing a quote.
- The payload of a record is modelled as a string that is truthy exactly when it is non-empty. A record whose `data` is missing or not a string is not modelled.
- The date rule depends on JavaScript `Date` parsing and on the local time zone. `Validation.DateEnv` takes the parsed time (None for an Invalid Date, which never compares as past) and today's local midnight as inputs.
- `showError`'s document effects: the error class, the single message element per parent, and the scroll to the first error. The model reports one verdict per field instead. Removing earlier error messages at the start of `validateForm` is not modelled either.
- Booking submission, the messaging-app hand-off and its fallback (`showWhatsAppFallback`, which relies on `decodeURIComponent`), the review POST and its alerts: these are network and window calls.
- Reviews: decoding the response is an input (`ReviewsResponse`). A body that is not an array is treated as a rejection; a non-array body whose `length` is 0 would in fact show the empty-list message. Ratings are whole numbers; fractional, NaN and string ratings (which `repeat` converts) are not modelled. Names and comments are kept as text; their interpretation as markup by `innerHTML` is not modelled.
- Reviews.ReviewsView: a rating larger than the engine's maximum string length also makes `repeat` throw a RangeError, which the `.catch` turns into the unavailable message; that limit differs between engines and is not modelled, so for such a rating the model shows a card with that many stars.
- Reviews.RenderReviews: shares the limitation of `Reviews.ReviewsView` for ratings beyond the engine's maximum string length.
- Reviews.Stars: repeats any natural count, without the engine's maximum string length.
- Theme toggle, mobile menu and smooth scrolling: user-interface only. `js/config.js` is not part of this model; it only builds endpoint strings.
- The API base URL and `import.meta` configuration: constants with no logic.

## Findings

| source | as written | input that shows it | evidently intended | confidence | as-written member | corrected member |
|---|---|---|---|---|---|---|
| js/main.js:217-220 | `showError` reads and writes `isFirstError`, which is declared inside `validateForm` and is not in scope in `showError`; the first call throws a ReferenceError, so `validateForm` stops at the first failing field and never returns false | a booking form whose required name field holds only spaces | every failing field gets its message and `validateForm` returns false | high, not executed (assumes no other script defines a global `isFirstError`) | `Validation.ValidateFormAsWritten`, `Validation.BlankRequiredNameThrows` | `Validation.ValidateForm` |
