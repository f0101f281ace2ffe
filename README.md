# Dream-Home: the CreateListing draft as a verified state machine

This project models the listing-creation page of the Dream-Home real-estate
app (`client/src/pages/CreateListing.jsx`) in Dafny. Without the browser, the
page holds five pieces of state: the staged files, a progress map, the draft
record (`formData`, including the ordered image list), two error strings and
the `uploading`/`loading` flags. Its handlers change that state:

- file selection, with a 6-image cap and a type/size filter;
- removal of a staged file by id;
- a sequential upload loop that stops at the first failure;
- removal of an uploaded image by index;
- a field-update dispatcher that coerces each field's value;
- submit-time validation in a fixed order, then reading of the server's reply.

Layout:

- `wrappers.dfy` (`Wrappers`): `Option` and `Result`.
- `decimal.dfy` (`Decimal`): how a template literal prints an integer, and the parser that inverts it.
- `jsnumbers.dfy` (`JsNumbers`): `Number(value)` for number inputs, and JavaScript's `<` with NaN.
- `seqs.dfy` (`Seqs`): `Array.prototype.filter`, and filter-by-position.
- `listing.dfy` (`Listing`): the data model and the pure logic: file ids, the selection filter, the change dispatcher, submit checks, reply classification.
- `upload.dfy` (`Upload`): how one finished upload request is read, and the batch loop.
- `page.dfy` (`CreateListing`): class `CreateListingPage`, which holds the page's state. Each handler is a method with a `modifies` frame naming exactly the fields it may change.
- `scenarios.dfy` (`Scenarios`): two client runs that use only the handlers' contracts.

The network is an oracle passed to the handlers:

- `server(i, entry)` gives what the i-th upload request of a batch did: its progress percentages, then its load or error event.
- `clock(i)` gives the `uploadedAt` text.
- A submit takes the reply (or the thrown error) of the create request as a parameter.
- The router is the `route` field, which holds the last route the page navigated to.

Facts about the code's flow that the contracts make explicit:

- A selection that would exceed the cap is refused whole; no part of it is staged.
- Files already staged do not count towards the cap at selection time. Two selections of four therefore stage eight files, and the upload button then refuses them (`Scenarios.StagedFilesEscapeTheSelectionCap`).
- Merging uploaded images appends them without removing duplicate ids.
- The price check runs whether or not `offer` is set, and equal prices pass.
- A submit request that throws and a reply that is not JSON take the same path: the thrown error's message becomes the page error.

## Model

| member | source | states |
|---|---|---|
| `Decimal.NatToStringRoundTrip` | client/src/pages/CreateListing.jsx:41 | The digits printed for a size parse back to that size |
| `Decimal.IntToStringRoundTrip` | client/src/pages/CreateListing.jsx:41 | The text printed for a timestamp, negative ones included, parses back to that timestamp |
| `Decimal.IntToStringInjective` | client/src/pages/CreateListing.jsx:41 | Two distinct integers never print the same text |
| `Decimal.IntToString` | client/src/pages/CreateListing.jsx:41 | The printed text of an integer is non-empty, begins with `-` exactly when the integer is negative, and is digits after that first character |
| `Listing.MakeFileId` | client/src/pages/CreateListing.jsx:40-41 | The id is the file name followed by `_`, then the size and the timestamp, and it ends in a digit; the two lemmas below show these three parts determine it |
| `Listing.FileIdRoundTrip` | client/src/pages/CreateListing.jsx:40-41 | `makeFileId` can be inverted: splitting the id at its last two `_` recovers the file's name, size and last-modified time, even when the name contains `_` |
| `Listing.FileIdInjective` | client/src/pages/CreateListing.jsx:40-41 | Two files get the same id only when their name, size and timestamp all agree. Files that differ only in MIME type share an id |
| `Listing.IsAcceptedImage` | client/src/pages/CreateListing.jsx:55 | A file passes the selection filter exactly when its MIME type starts with `image/` and its size is at most 5,242,880 bytes (5 MiB) |
| `Seqs.Filter` | client/src/pages/CreateListing.jsx:54-56 | The result is no longer than the input, holds only elements that pass the predicate, and keeps every input element that passes |
| `Seqs.FilterAppend` | client/src/pages/CreateListing.jsx:54-56 | Filtering a concatenation gives the filtered parts in the same order, so the input order is kept |
| `Seqs.FilterCount` | client/src/pages/CreateListing.jsx:76 | A kept value appears in the result as often as in the input; a dropped value does not appear at all |
| `Seqs.FilterDropsSome` | client/src/pages/CreateListing.jsx:58-62 | The filtered list is shorter exactly when some element fails the predicate, which is the test that sets the "invalid files" error |
| `Seqs.FilterKeepsAll` | client/src/pages/CreateListing.jsx:76 | Filtering with a predicate every element passes returns the input unchanged |
| `Listing.StageAll` | client/src/pages/CreateListing.jsx:64-68 | Each staged entry is built from the file at the same position, with its id, the file and its name |
| `Listing.StageAllAppend` | client/src/pages/CreateListing.jsx:64-68 | Building entries for a concatenation gives the entries of each part in order |
| `Listing.StageAccepted` | client/src/pages/CreateListing.jsx:53-68 | Every staged entry comes from the selection, is an image type of at most 5 MiB, and carries `makeFileId` of its file and the file's name; all files are staged exactly when all pass the filter |
| `Listing.StagedInSelectionOrder` | client/src/pages/CreateListing.jsx:53-69 | Staging goes file by file in selection order: a single file adds its own entry exactly when it passes the filter |
| `CreateListing.CreateListingPage.HandleFileChange` | client/src/pages/CreateListing.jsx:44-72 | Over the cap (selected plus uploaded, staged files not counted): nothing is staged and the cap error is set. Otherwise the accepted files are appended after the current ones, and the error is "invalid" if any file was dropped and cleared if none was. No other field changes |
| `Listing.WithoutStaged` | client/src/pages/CreateListing.jsx:75-76 | No entry with the removed id is left; if no entry had that id, the list is unchanged |
| `Listing.WithoutStagedKeepsOthers` | client/src/pages/CreateListing.jsx:75-76 | Removal by id keeps every entry with a different id as often as before, in the original order |
| `CreateListing.CreateListingPage.HandleRemoveSelectedFile` | client/src/pages/CreateListing.jsx:75-82 | Removes that id's staged entries and its progress key; the other entries and keys are unchanged |
| `Upload.ClassifyUpload` | client/src/pages/CreateListing.jsx:103-129 | A 2xx reply whose text is JSON other than `null` succeeds. The image gets the entry's id and name, the given time, and the object's `secure_url`, or "" when it has none or is an array or primitive. A 2xx reply that is not JSON, or is `null`, fails with the parse message. Any other status fails with the body's `error.message`, or "Upload failed". The error event fails with the network message. Every failure message is non-empty |
| `Upload.UploadFrom` | client/src/pages/CreateListing.jsx:148-153 | A batch from position i that succeeds holds one image per remaining entry; a stopped one names a position inside the batch at or after i |
| `Upload.UploadFromMeaning` | client/src/pages/CreateListing.jsx:148-153 | The batch succeeds exactly when every upload succeeds, and then holds one image per staged file in staged order. Otherwise it reports the first failing position and that upload's message, and every earlier upload succeeded |
| `Upload.ProgressRecordsEveryReport` | client/src/pages/CreateListing.jsx:96-101 | Every file whose request, among the first n, reported a progress event has a progress entry after those n requests |
| `Upload.ProgressKeepsLatestReport` | client/src/pages/CreateListing.jsx:96-101 | For a request that is the last among the first n to report for its id, that id's progress entry is the last percentage this request reported. Later requests for the same id override earlier ones |
| `Upload.ProgressOfAttempted` | client/src/pages/CreateListing.jsx:96-101 | Conversely, every progress entry after n requests belongs to an id one of those n requests reported for, and to the last request for that id that reported. Files never attempted get no entry |
| `Upload.UploadBatch` | client/src/pages/CreateListing.jsx:146-153 | The loop's outcome is `UploadFrom` of the batch, and a failure position is inside the batch. Its progress map is built from the events of exactly the requests it made: all of them, or those up to the failing one |
| `CreateListing.CreateListingPage.HandleImageUpload` | client/src/pages/CreateListing.jsx:134-166 | With no staged files, or more staged than remaining room, only the error changes. On success the images are appended to the draft in staged order and staging and progress are cleared. On failure the draft and the staged files are unchanged and the error is "Upload error: " plus the message. `uploading` ends false. The draft never exceeds six images |
| `Seqs.WithoutIndex` | client/src/pages/CreateListing.jsx:172 | The list loses one element exactly when the index is in range |
| `Seqs.WithoutIndexDeletesPosition` | client/src/pages/CreateListing.jsx:169-174 | Removing index i gives the list without position i, with later items shifted down and no gap; an index outside the list changes nothing |
| `CreateListing.CreateListingPage.HandleRemoveImage` | client/src/pages/CreateListing.jsx:169-174 | Only the image list changes, and it loses exactly that position |
| `JsNumbers.ToNumber` | client/src/pages/CreateListing.jsx:188 | An empty number input stores 0 |
| `JsNumbers.Less` | client/src/pages/CreateListing.jsx:200 | `a < b` is false when either side is NaN, and otherwise compares the two values |
| `JsNumbers.ToNumberOfDigits` | client/src/pages/CreateListing.jsx:188 | A run of digits converts to the integer it spells |
| `JsNumbers.ToNumberOfSigned` | client/src/pages/CreateListing.jsx:188 | A leading `-` negates what the rest converts to, NaN staying NaN; a leading `+` changes nothing |
| `JsNumbers.ToNumberOfNegatedDigits` | client/src/pages/CreateListing.jsx:188 | `-` followed by digits converts to minus the integer they spell |
| `JsNumbers.ToNumberOfDecimal` | client/src/pages/CreateListing.jsx:188 | `w.f` (digits on either side, at least one digit overall) converts to the digits of w and f read together divided by 10 to the length of f |
| `JsNumbers.ToNumberOfScientific` | client/src/pages/CreateListing.jsx:188 | `w.f` followed by `e` or `E` and an optionally signed digit run x converts to the digits of w and f times 10 to the power x less the length of f |
| `JsNumbers.ToNumberOfIntegerScientific` | client/src/pages/CreateListing.jsx:188 | Digits w followed by `e` or `E` and an optionally signed digit run x convert to w times 10 to the power x |
| `JsNumbers.ToNumberOfIntString` | client/src/pages/CreateListing.jsx:188 | `Number` of an integer's decimal text is that integer |
| `Listing.ApplyChange` | client/src/pages/CreateListing.jsx:177-192 | Only the targeted field changes. "sale"/"rent" set the deal type to the id. parking/furnished/offer take `checked`. Number inputs store `Number(value)`. Text inputs store the raw value. The image list is never touched |
| `CreateListing.CreateListingPage.HandleChange` | client/src/pages/CreateListing.jsx:177-192 | The draft becomes `ApplyChange` of the old draft, and nothing else changes |
| `Listing.ValidateDraft` | client/src/pages/CreateListing.jsx:197-202 | The image error is reported exactly when there is no image, whatever the prices. The price error is reported exactly when there are images and the regular price is below the discount, whether or not there is an offer. Otherwise the draft passes |
| `Listing.ClassifySubmitReply` | client/src/pages/CreateListing.jsx:215-225 | Only a reply whose `success` is `false` (or a thrown error) is a rejection, carrying its message. Every other reply navigates to `/listing/` followed by the `_id` (or "undefined") |
| `CreateListing.CreateListingPage.HandleSubmit` | client/src/pages/CreateListing.jsx:195-226 | A draft that fails validation sends nothing and shows the first failed check. Otherwise it posts the draft with `userRef`, ends with `loading` false, and either shows the rejection or clears the error and navigates |
| `CreateListing.CreateListingPage.constructor` | client/src/pages/CreateListing.jsx:16-37 | The initial state: nothing staged, no progress, no errors, the default draft |
| `Scenarios.StopsAfterTwoRequests` | client/src/pages/CreateListing.jsx:148-153 | Three staged files whose second upload is refused: the batch stops at position 1 after exactly two requests, with the host's message |

## Left out

- The XMLHttpRequest, Cloudinary, `fetch` and `FormData` transport. Each upload and each submit reply is an outcome supplied by the caller.
- The value of a progress percentage (`Math.round(loaded*100/total)`) is floating point driven by browser events. Percentages are opaque integers reported by the oracle, and only the last one per request is kept.
- `new Date().toISOString()` is the `clock` parameter.
- React scheduling: every handler runs to completion, and the intermediate `uploading = true` and `loading = true` are not observable.
- The `fileInputRef` resets and all JSX, including the HTML `min`/`max`/`minLength` attributes, which the browser enforces, not the code.
- JSON is abstracted. An upload body is unparseable, `null`, an object whose `secure_url` and `error.message` are present or absent, or some other value (array, number, string, boolean), on which both read as absent. A non-string `secure_url` or message is not modelled; an empty one behaves as absent, as `||` makes it.
- A submit reply's `message` that is absent is modelled as "". The source stores `undefined`, which the page also shows as nothing.
- A `null` `currentUser`, or a JSON `null` reply, makes the source throw inside the `try`. This is the `Thrown` case with whatever message the caller supplies.
- `JsNumbers.ToNumber`: numbers are exact reals, with no double rounding or overflow to Infinity. Input text outside an optionally signed decimal literal (surrounding whitespace, "Infinity", hex) is NaN in the model, whereas JavaScript converts some of it. A browser number input holds only "" or a decimal literal.
- `CreateListing.CreateListingPage.HandleChange`: an input id other than the form's twelve inputs would add a new key to `formData` in JavaScript. The model requires the event to come from one of the form's inputs, with its declared `type`.
- Profile.jsx, SignUp.jsx, SignIn.jsx, the API controllers, routes and server, the headers and the Firebase setup are not part of this model: they are I/O glue around foreign libraries.
