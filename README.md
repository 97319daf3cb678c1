# shareonline share-code core, in Dafny

This project models the share-record logic of shareonline. A user shares text or a file and
gets a four-digit code. Anyone who types that code into the retrieve dialog sees the content.
The model covers four parts:

- **`uploadData`** (`UploadAction`, `upload.dfy`). It draws integers in [1000, 9999] until the
  `clipboard` table has no row under the printed code. It uploads the payload to the blob store
  only when it is a `data:image…` URL. It then inserts one row that expires two hours after the
  current time.
- **`retrieveData`** (`RetrieveAction`, `retrieve.dfy`). It looks up one row by code. It shapes
  the row into `{ type, content, fileName, fileUrl }`. It makes no expiry check.
- **The retrieve dialog** (`RetrieveModal`, `retrieve_modal.dfy`). It covers code sanitising,
  the 4-digit test, the button rule, and the input → result steps of `handleRetrieve`.
- **The share dialog** (`ShareModal`, `share_modal.dfy`). It covers the 10 MiB check, the
  payload choice, the button rule, and the input → code steps of `handleShare`.

The `clipboard` table is a class `ShareStore.Clipboard` holding a `map<string, Row>` keyed by
code (`store.dfy`). `Create` inserts a row in place. `FindUnique` reads one. `Js` (`js.dfy`)
holds JavaScript nullability and the `x || d` idiom. `Decimal` (`decimal.dfy`) holds `toString`
on integers and the `\d` class. `Scenarios` (`scenarios.dfy`) drives both dialogs against one
table.

Collaborators are parameters:

- the blob-store call is a `BlobOutcome` (an uploaded `Blob(secureUrl, publicId)`, or a failure
  message);
- `Date.now()` is `now`, in milliseconds;
- a failing `FileReader` is `readFails`;
- a lookup that throws is `serverFails`;
- `Math.random()` is a nondeterministic choice (`:|`) of an integer in [1000, 9999].

The source promises expiry in three places only. The share dialog tells the user "This code will
expire in 2 hours" (app/components/share-modal.jsx:209). `uploadData` passes an `expiration=2h`
hint to the blob store (app/actions/upload.js:28) and stores `expiresAt`
(app/actions/upload.js:39). The retrieve dialog tests `expiresAt` against the clock
(app/components/retrieve-modal.jsx:41-46). Nothing acts on these:

- `retrieveData` reads no clock and returns no `expiresAt` (app/actions/retrieve.js:5-24), so
  `RetrieveData` has no clock either. `ExpiredRowStillReturned` and
  `Scenarios.ShareTextThenRetrieve` show that a row past its `expiresAt` is still returned, shaped like any present row.
- The dialog's expiry test can never fire, because the reply carries no `expiresAt`
  (`RetrieveModal.ExpiryBranchUnreachable`).
- No code deletes rows or blobs. What the blob store does with its hint is outside this model.

## Model

| member | source | states |
|---|---|---|
| `Decimal.DecimalString` | app/actions/upload.js:17 | `n.toString()` is a non-empty string of digits whose first digit is not 0 when n ≥ 1 |
| `Decimal.DecimalRoundTrip` | app/actions/upload.js:17 | reading back the printed numeral gives the drawn integer |
| `Decimal.DecimalStringInjective` | app/actions/upload.js:17 | two draws print the same code exactly when they are the same integer |
| `Decimal.DecimalLength` | app/actions/upload.js:17 | an integer with k+1 decimal digits prints as k+1 characters |
| `ShareStore.Clipboard.FindUnique` | app/actions/upload.js:18 | the lookup finds a row exactly when the code is a key, and returns that key's row |
| `ShareStore.Clipboard.constructor` | app/actions/upload.js:18 | the table starts with no rows |
| `ShareStore.Clipboard.Create` | app/actions/upload.js:41-49 | the insert succeeds exactly when the code is not yet a key; on success the table gains that one row, otherwise it is unchanged |
| `UploadAction.UploadData` | app/actions/upload.js:14-54 | fails exactly when an image upload fails, with "Failed to upload file: " + the message, and then the table is unchanged; on success the code has 4 digits with a non-zero first digit, was not a key before, and the table gains exactly that key's row: text or "", the blob's secure_url/public_id (null unless an image was uploaded), expiresAt = now + 7 200 000 ms |
| `UploadAction.IsImageDataUrl` | app/actions/upload.js:23 | the payload goes to the blob store exactly when it is present and its first ten characters are `data:image` |
| `UploadAction.UploadedBlob` | app/actions/upload.js:20-32 | no payload gives no blob; a blob is kept only for an image payload whose upload succeeded, and it is the blob store's answer; every such upload gives one |
| `UploadAction.NewRow` | app/actions/upload.js:39-48 | the row's text is always present: the input when non-empty, "" otherwise; fileUrl and publicId are present exactly when a blob is, and are its secure_url and public_id; expiresAt is two hours after the clock reading |
| `UploadAction.UploadErrorMessage` | app/actions/upload.js:35 | the thrown message is "Failed to upload file: " followed by the blob store's message, unchanged |
| `UploadAction.DrawnCodeIsIssued` | app/actions/upload.js:17 | every integer in [1000, 9999] prints as four digits with a non-zero first digit |
| `UploadAction.StoredText` | app/actions/upload.js:44 | the stored text is the input text, or "" when it is missing |
| `UploadAction.PrintedCodes` | app/actions/upload.js:16-18 | the codes printed from [lo, hi) are hi − lo distinct strings, each the numeral of its own value |
| `UploadAction.FreeCodeBelowCapacity` | app/actions/upload.js:16-18 | with fewer than 9000 rows some drawable code is free, so the draw loop can end |
| `RetrieveAction.Shape` | app/actions/retrieve.js:15-24 | type is "file" exactly when fileUrl is non-empty; fileUrl and fileName are present exactly for "file"; fileUrl is the row's URL; fileName is publicId, or "file" when that is empty; content is the text, or "" when empty or missing |
| `RetrieveAction.RetrieveData` | app/actions/retrieve.js:5-24 | null exactly when no row has the code, otherwise the shaped row; it takes no clock and changes nothing |
| `RetrieveAction.ExpiredRowStillReturned` | app/actions/retrieve.js:7-24 | a row whose expiresAt has passed is still returned, shaped like any present row (the reply never carries expiresAt); there is no clock in the lookup |
| `RetrieveAction.TextRoundTrip` | app/actions/retrieve.js:16-24 | a row inserted by uploadData without a file reads back as type "text" with the stored text, no fileName and no fileUrl |
| `RetrieveAction.ImageRoundTrip` | app/actions/retrieve.js:16-23 | a row inserted with an uploaded image reads back as type "file" with its URL, named by publicId or "file"; it requires a non-empty secure_url, since an empty one is falsy and the row reads back as text |
| `RetrieveAction.NonImageFileDropped` | app/actions/upload.js:20-23 | a file payload that is not an image data URL leaves no trace: the share reads back as text |
| `RetrieveAction.InsertLeavesOtherLookups` | app/actions/upload.js:41-49 | inserting under one code does not change the lookup of any other code |
| `RetrieveModal.Digits` | app/components/retrieve-modal.jsx:78 | removing `\D` yields only digits and never lengthens the input |
| `RetrieveModal.Sanitize` | app/components/retrieve-modal.jsx:78 | the sanitised value is the prefix of the input's digits of length min(4, number of digits) |
| `RetrieveModal.IsFourDigits` | app/components/retrieve-modal.jsx:21 | the test `/^\d{4}$/`: exactly four characters, all ASCII digits (a passing value is a fixed point of sanitising by `SanitizeKeepsShortDigitStrings`) |
| `RetrieveModal.RetrieveEnabled` | app/components/retrieve-modal.jsx:136 | an enabled button means nothing is loading, and, for a digits-only code, that the code passes the 4-digit test |
| `RetrieveModal.DigitsCounts` | app/components/retrieve-modal.jsx:78 | every digit character of the input is kept as often as it occurs, and no other character is |
| `RetrieveModal.DigitsAppend` | app/components/retrieve-modal.jsx:78 | the digits of a concatenation are the concatenated digits, so their order is kept |
| `RetrieveModal.DigitsOfDigitString` | app/components/retrieve-modal.jsx:78 | a string of digits is left as it is |
| `RetrieveModal.SanitizeIdempotent` | app/components/retrieve-modal.jsx:78 | sanitising twice equals sanitising once |
| `RetrieveModal.SanitizeKeepsShortDigitStrings` | app/components/retrieve-modal.jsx:78 | a string of at most four digits passes through unchanged |
| `RetrieveModal.SanitizedIsValidIff` | app/components/retrieve-modal.jsx:78-80 | the sanitised value passes `/^\d{4}$/` exactly when the input holds at least four digits |
| `RetrieveModal.EnabledOnlyForValidCodes` | app/components/retrieve-modal.jsx:136 | for a sanitised code the button (length 4 and not loading) is enabled exactly when the code passes the 4-digit test and nothing is loading |
| `RetrieveModal.EnabledStateIsFourDigits` | app/components/retrieve-modal.jsx:136 | in any dialog state whose code was set by sanitising, an enabled Retrieve button means the code passes the 4-digit test, so the "Please enter a valid 4-digit code" branch is not reached from the button |
| `RetrieveModal.ReplyExpiresAt` | app/components/retrieve-modal.jsx:42 | the reply built by retrieveData has no expiresAt key, so the read is absent |
| `RetrieveModal.ClientExpired` | app/components/retrieve-modal.jsx:42 | a reply without `expiresAt` is never expired; an expired one has an `expiresAt` before the clock reading |
| `RetrieveModal.ClassifyReply` | app/components/retrieve-modal.jsx:35-53 | a null reply is "not found" and only a null reply is; a displayed reply is the server's reply field for field; a present reply that is not expired is displayed |
| `RetrieveModal.OutcomeError` | app/components/retrieve-modal.jsx:35-46 | the error is empty exactly when the reply is displayed |
| `RetrieveModal.ExpiryBranchUnreachable` | app/components/retrieve-modal.jsx:42-46 | a reply from retrieveData never takes the "expired" branch; a present row is displayed as shaped |
| `RetrieveModal.RetrieveModalState.constructor` | app/components/retrieve-modal.jsx:13-18 | step "input", empty code, no content, no error, not loading, not copied |
| `RetrieveModal.RetrieveModalState.HandleCodeChange` | app/components/retrieve-modal.jsx:77-83 | the code becomes the sanitised input; a pending error is cleared only when that value is four digits; nothing else changes |
| `RetrieveModal.RetrieveModalState.HandleRetrieve` | app/components/retrieve-modal.jsx:20-62 | a code that is not four digits sets "Please enter a valid 4-digit code" without a lookup; a throwing lookup sets the retry message; a missing row sets "No content found with that code"; in these cases the step and content stay; a found row is shown unchanged with step "result" and no error; loading ends false once the code passed |
| `RetrieveModal.RetrieveModalState.ResetModal` | app/components/retrieve-modal.jsx:64-70 | step "input", empty code, no content, no error, not copied; loading untouched |
| `ShareModal.ImageDataUrlIffImageType` | app/components/share-modal.jsx:31-39 | the data URL of a picked file passes the `data:image` guard exactly when its media type starts with "image" |
| `ShareModal.DataUrl` | app/components/share-modal.jsx:38 | the data URL is "data:", the file's media type, ";base64," and the base64 text, in that order and nothing else |
| `ShareModal.SentText` | app/components/share-modal.jsx:43 | the text sent is the textarea's text or ""; on the file tab it is always "" |
| `ShareModal.SentFileData` | app/components/share-modal.jsx:31-40 | a payload is sent exactly when a file is selected, whichever tab is active, and it is that file's data URL |
| `ShareModal.ErrorText` | app/components/share-modal.jsx:49 | the shown error is never empty: the thrown message when it is non-empty, the generic retry message otherwise |
| `ShareModal.ShareDisabled` | app/components/share-modal.jsx:154 | the button is disabled while loading or while an error is shown; with a text and a file both present, those are the only reasons |
| `ShareModal.EnabledShareSendsActivePayload` | app/components/share-modal.jsx:154 | when the button is enabled the active tab's payload is present (non-empty text, or a selected file), nothing is loading and no error is set |
| `ShareModal.ShareModalState.constructor` | app/components/share-modal.jsx:16-23 | step "input", text tab, empty text, no file, empty code, not loading, no error; the dialog invariant (no selected file over 10 MiB) holds |
| `ShareModal.ShareModalState.SetActiveTab` | app/components/share-modal.jsx:112 | only the active tab changes; the dialog invariant is kept |
| `ShareModal.ShareModalState.SetText` | app/components/share-modal.jsx:123 | only the text changes; the dialog invariant is kept |
| `ShareModal.ShareModalState.HandleFileChange` | app/components/share-modal.jsx:61-72 | a first file over 10·1024·1024 bytes sets "File size exceeds 10MB limit" and keeps the selection; one within the limit (exactly 10 MiB included) is selected and the error cleared; no file changes nothing; so the selected file is never over 10 MiB (the dialog invariant is kept) |
| `ShareModal.ShareModalState.HandleShare` | app/components/share-modal.jsx:25-53 | a file-read error or a failed image upload sets the error and leaves step, code and table as they were; otherwise step becomes "code", the error is cleared and the code is a fresh issued code whose row holds the text tab's text (or ""), and the uploaded image's URL and public id when the selected file is an image, null file fields otherwise; a file that is sent is never over 10 MiB; loading is false in every case |
| `ShareModal.ShareModalState.ResetModal` | app/components/share-modal.jsx:74-80 | step "input", empty text, no file, empty code, no error; the active tab is kept; the dialog invariant holds |
| `Scenarios.IssuedCodeSurvivesTyping` | app/components/retrieve-modal.jsx:78-80 | an issued code typed into the retrieve dialog is kept as is and passes its 4-digit test |
| `Scenarios.ShareTextThenRetrieve` | app/actions/retrieve.js:16-24 | non-empty text (empty text leaves the button disabled) shared from the text tab is shown unchanged under the issued code, even more than two hours later |
| `Scenarios.ShareImageThenRetrieve` | app/actions/upload.js:23-32 | an image shared from the file tab is shown as a file with the stored URL and an empty text |
| `Scenarios.ShareOtherFileThenRetrieve` | app/actions/upload.js:20-23 | a file whose media type does not start with "image" (an empty type included) is accepted within the size limit, shared from the file tab and comes back as empty text |

## Left out

- Rendering is not modelled: JSX markup, animation, icons and dialogs. `app/page.js` only opens and closes the two dialogs and is not modelled either.
- Browser-only actions are not modelled: clipboard copies (`handleCopy`, `handleCopyCode`), the timers that reset `copied`, `handleDownload`'s `window.open`, `handleClose`'s delayed `resetModal`, and `console` logging.
- The blob-store and database client setup, and the upload options (`folder`, `resource_type`, the `expiration=2h` hint), are foreign configuration. The upload is only its outcome.
- The `FileReader` base64 encoding is abstract: a `File` carries its media type and base64 text, and only the reader's failure is a parameter.
- The `typeof fileData === 'string'` test is not modelled. In the model a payload is always a string or null.
- Asynchrony is not modelled. `loading` is set and cleared within one method call, so the intermediate render is not visible.
- Concurrency is not modelled: calls run one after another, so the race between the free-code lookup and the insert is not modelled.
- Failures other than the blob upload and the file read are not modelled for sharing: database errors in `uploadData` and network failures of the server action. For retrieval, any throwing lookup is the one flag `serverFails`.
- Error messages that cross the server-action boundary are assumed to arrive intact. `HandleShare` puts the message thrown inside `uploadData` straight into the dialog's `error`. How the framework transports a server action's error, and whether a production build replaces it with a generic message, is not modelled.
- The table's other columns (an id or creation time, if the schema has them) are not modelled. The schema file is not part of this model.
- UploadAction.UploadData: requires that some code in [1000, 9999] is free. When all 9000 codes are taken, the code loops forever. `FreeCodeBelowCapacity` shows that fewer than 9000 rows is enough.
- UploadAction.UploadData: the draw never repeats a candidate it already tried. Drawing a taken code again changes nothing, so the reachable results and tables are the same. Only the number of iterations differs.
- RetrieveModal.RetrieveModalState.HandleRetrieve: the JavaScript truthiness of `data.expiresAt` is reduced to "present or absent". The reply never has the key.
