# Event registration backend: admission, export lock and status lookup

This project models the core of a small fest-registration backend. Teams
register for events, and coordinators later export each event's registrants.
The model covers four parts:

- **Admission** (`models/registerModel.js`, `routes/registers.js`). A team
  submits one registration, either as JSON (INTERNAL teams) or as a multipart
  form with a payment screenshot (EXTERNAL teams). The route runs its guards
  in this order:
  1. the event is on the allow-list;
  2. the mandatory fields are present;
  3. the captcha passes;
  4. the device has fewer than five registrations.

  The document then goes through Mongoose's save pipeline, in this order:
  1. the setters (trim, then upper-case for rolls);
  2. the `pre("validate")` self-check for repeated phones and rolls inside
     the submission;
  3. the schema validators;
  4. the `pre("save")` conflict query against the same event;
  5. the `pre("save")` receipt generator;
  6. the three unique indexes.

  Each failure becomes a 400 or 409 reply. A success becomes a 201 reply.
- **Export lock** (`middleware/download.js`, `models/coordsLogModel.js`). A
  coordinator with the right passkey gets the event's sheet. The first
  coordinator also gets the vCard contacts: a compare-and-swap on a lock
  record keyed by the event name as sent ensures exactly one coordinator per
  name receives them. Everyone after that gets an alert that names the first
  downloader.
- **Export data shaping** (`middleware/download.js`): the sheet's columns and
  rows, the maximum team size, the contact IDs, and the vCard text.
- **Status lookup** (`routes/checkStatus.js`): a team finds its own
  registration by receipt ID or by a roll it holds, and sees only the public
  part of the record.

## How the model is laid out

| Module | File | What it holds |
|---|---|---|
| `Wrappers` | `wrappers.dfy` | `Option` and `Result` |
| `Text` | `text.dfy` | JavaScript string helpers (`trim`, `toUpperCase`, `padEnd`, digit filtering); case mapping is ASCII only |
| `RegisterModel` | `register_model.dfy` | The schema: payload, document, stored registration, setters, validators, unique indexes |
| `RegisterHooks` | `register_hooks.dfy` | The two save hooks, the receipt generator, and `SaveSpec` (one whole `save()`) |
| `CoordsLogModel` | `coords_log_model.dfy` | The per-event lock record and its claim |
| `DocumentStore` | `document_store.dfy` | A `Store` class whose fields are the two collections; its methods are the database operations the handlers perform |
| `Registers` | `registers.dfy` | The registration route |
| `ExportData` | `export_data.dfy` | Columns, rows, contact IDs, vCards |
| `Download` | `download.dfy` | The export handler |
| `CheckStatus` | `check_status.dfy` | The status route |
| `Scenarios` | `scenarios.dfy` | Concrete submissions worked through the whole handler |

### Interfaces and loops

- **Store class.** The stateful handlers (`Registers.Register`,
  `Download.HandleDownload`) are methods on the `Store` class. Their new
  state and their reply are tied to pure functions: `RegisterSpec`,
  `DownloadSpec` and `SaveSpec`. The properties are proved about those
  functions.
- **Loops.** Each loop in the source is a method with a `while` loop, proved
  equal to a specification function:
  - the self-check sets → `CheckSubmission`;
  - the conflict lists → `CollectCheckValues`;
  - the receipt retry → `GenerateReceipt`;
  - the maximum team size → `ComputeMaxTeamSize`;
  - the columns → `BuildColumns`;
  - the rows → `BuildRow` and `BuildRows`;
  - the vCard text → `BuildVcf`.
- **Effects become parameters.** Anything the handlers cannot compute
  themselves is passed in:
  - the captcha verdict → `captchaOk`;
  - the allow-list → `allowed`;
  - `process.env` → `env`;
  - the clock → `now`;
  - `toLocaleString` → `formatTime`;
  - the random bytes of the receipt loop → `draws`.

### Where the specification and the code differ

The model follows the code in each of these cases:

- **External rolls share the roll index.** The partial roll index covers
  every string `capRoll`, whatever the participant type. An EXTERNAL team
  that sends a roll can therefore collide with an earlier team's roll, and
  an empty-string roll is stored as `""` rather than dropped. Shown by
  `Scenarios.SharedExternalRollReply`.
- **A repeated captain phone gets 400, not 409.** When a second submission
  repeats a captain phone that is already stored, the `pre("save")` conflict
  query rejects it first, so the reply is 400 with the generic conflict
  message. The unique index (409) is reached only by races, which are not
  modelled. Shown by `Scenarios.AlphaResubmitted`.
- **The passkey is keyed by coordinator group, not by event.** The
  variable is named after `coordsValue`; see `Download.PasskeyVariable`.
- **The export lock is per name as sent.** Registrations are found by the
  trimmed event name, but the lock record is keyed by the name exactly as the
  coordinator sent it. A second coordinator who adds white space to the name
  therefore gets the vCards again (`Download.PaddedNameBypassesLock`).
- **The client can set `status` and `receiptId`.** Both come from the
  request body. A truthy client `receiptId` skips generation and is checked
  only by the unique index (`RegisterHooks.HooksSkipExisting`).

## Model

| member | source | states |
|---|---|---|
| Text.Trim | models/registerModel.js:32 | The result is no longer than the input and neither starts nor ends with white space |
| Text.TrimMeans | models/registerModel.js:32 | The result is one slice of the input with only white space before and after it; with the unpadded ends above, it is the longest such slice |
| Text.TrimIdempotent | models/registerModel.js:32 | Trimming twice is the same as trimming once |
| Text.ToUpperIdempotent | models/registerModel.js:55 | Upper-casing twice is the same as upper-casing once |
| Text.KeepDigits | middleware/download.js:145 | The result contains only digits and is no longer than the input |
| Text.KeepDigitsAppend | middleware/download.js:145 | Filtering distributes over concatenation, and a single character is kept exactly when it is a digit; together these fix the result for every string |
| Text.TakeLast | middleware/download.js:145 | `slice(-8)`: the result is the suffix of length min(n, length) |
| Text.KeepAlphanumeric | models/registerModel.js:154 | The result contains only ASCII letters and digits and is no longer than the input |
| Text.KeepAlphanumericAppend | models/registerModel.js:154 | Filtering distributes over concatenation, and a single character is kept exactly when it is an ASCII letter or digit |
| Text.PadEnd | models/registerModel.js:156-158 | `padEnd`: the input is kept as a prefix, and the fill character is appended until the length is reached |
| RegisterModel.NormRollIdempotent | models/registerModel.js:22-23 | The roll setters (trim, then upper-case) are idempotent |
| RegisterModel.NormRollOfRoll | models/registerModel.js:55-57 | A string matching the roll pattern is left unchanged by the roll setters |
| RegisterModel.MobileIsDigits | models/registerModel.js:4 | A valid mobile number is all digits, so removing non-digits leaves it unchanged |
| RegisterModel.ParseParticipantType | models/registerModel.js:63-67 | The enum accepts exactly "INTERNAL" and "EXTERNAL", and the parsed value prints back to the input |
| RegisterModel.ParseStatus | models/registerModel.js:80-86 | The enum accepts exactly "VERIFIED", "PENDING" and "REJECTED", and the parsed value prints back to the input |
| RegisterModel.ConstructCanonical | models/registerModel.js:28-62 | A payload that is already trimmed and upper-cased passes through the setters unchanged; only the status default is added |
| RegisterModel.Validate | models/registerModel.js:6-87 | Validation succeeds exactly when the document passes every validator. The registration then conforms and carries the document's own event, team and captain names, phones, rolls, members, type, status, screenshot, device fingerprint and receipt, with creation time 0 until the save stamps it |
| RegisterModel.DefaultStatusByType | models/registerModel.js:83-85 | With no status given, a stored INTERNAL team is VERIFIED and an EXTERNAL team is PENDING |
| RegisterModel.ScreenshotRequiredIffExternal | models/registerModel.js:76-79 | Removing the screenshot from a valid document keeps it valid exactly when the team is INTERNAL |
| RegisterModel.CaptainRollRequiredIffInternal | models/registerModel.js:50-54 | Removing the captain roll from a valid document keeps it valid exactly when the team is EXTERNAL |
| RegisterModel.MemberRollRequiredIffInternal | models/registerModel.js:17-21 | Removing any member's roll from a valid document keeps it valid exactly when the team is EXTERNAL |
| RegisterModel.MemberRolls | models/registerModel.js:129-131 | A roll is collected exactly when some member carries it as a non-empty roll |
| RegisterModel.IndexViolation | models/registerModel.js:89-93 | No index is reported exactly when the new registration collides with no stored one on any unique index; a reported index is one it collides on |
| RegisterModel.InsertKeepsIndexes | models/registerModel.js:72-75 | Inserting a registration that violates no index keeps all three unique indexes satisfied |
| RegisterHooks.CheckSubmission | models/registerModel.js:94-120 | The set-based loop returns exactly the first repeat that `SelfCheck` defines |
| RegisterHooks.FirstRepeatMeans | models/registerModel.js:105-118 | The reported member is the first whose phone or roll repeats an earlier one; its name is carried in the error; no repeat is reported exactly when none exists |
| RegisterHooks.SelfCheckPassesIffDistinct | models/registerModel.js:94-120 | The self-check passes exactly when the submission's phones are pairwise distinct and (for INTERNAL teams) its rolls are too |
| RegisterHooks.ValidatedDistinct | models/registerModel.js:94-120 | A document that passes both the self-check and validation stores distinct phones and distinct rolls |
| RegisterHooks.CollectCheckValues | models/registerModel.js:124-132 | The two lists built by the conflict hook are the registration's phones and its counted rolls |
| RegisterHooks.ConflictIff | models/registerModel.js:133-149 | The conflict query finds a document exactly when a registration of the same event shares a phone (captain or member) or holds one of the new INTERNAL rolls |
| RegisterHooks.RollsAreTruthy | models/registerModel.js:128-130 | Every roll the conflict query compares is non-empty |
| RegisterHooks.ReceiptPrefix | models/registerModel.js:154-158 | The prefix has three characters: the upper-cased first alphanumerics of the event name, padded with 'X' |
| RegisterHooks.CandidateShape | models/registerModel.js:162-163 | Every candidate is the prefix, a dash and six upper-case hex digits |
| RegisterHooks.FreshReceipt | models/registerModel.js:159-166 | The chosen candidate is held by no registration; nothing is chosen only when every drawn candidate is taken |
| RegisterHooks.GenerateReceipt | models/registerModel.js:159-167 | The retry loop returns the first candidate no registration holds |
| RegisterHooks.HooksSkipExisting | models/registerModel.js:152-153 | A document that is not new skips both hooks, and a truthy receipt is kept unchanged |
| RegisterHooks.AssignedReceiptIsFresh | models/registerModel.js:152-169 | A generated receipt has the receipt shape and the event's prefix, and no stored registration holds it |
| RegisterHooks.SaveStoresValidated | models/registerModel.js:94-169 | A successful save stores the validated document with only its receipt and creation time filled in |
| RegisterHooks.SaveAdmitsOnlyFresh | models/registerModel.js:121-169 | A successful save stores a conforming registration with distinct phones and rolls, no phone or roll shared with the same event, an unheld receipt and no index violation |
| RegisterHooks.SavePreservesDedup | models/registerModel.js:121-151 | If phones are unique per event and INTERNAL rolls are unique per event before a successful save, both still hold after it |
| DocumentStore.SaveKeepsInvariant | models/registerModel.js:89-151 | A successful save keeps the store invariant: indexes hold, every registration conforms, the deduplication holds, and each lock record is keyed by its event |
| DocumentStore.IndexesMeanUnique | models/registerModel.js:89-93 | Under the indexes, receipts are pairwise distinct, and within an event captain phones and present captain rolls are distinct |
| DocumentStore.Store.Save | routes/registers.js:63-64 | `save()` returns what `SaveSpec` gives; the registration is appended on success and nothing changes on failure |
| DocumentStore.Store.FindOrCreateLock | middleware/download.js:40-47 | An existing lock record is returned unchanged; otherwise a fresh unclaimed record is created for the event |
| DocumentStore.Store.ClaimLock | middleware/download.js:52-62 | `findOneAndUpdate` with `vCardsDownloaded: false` updates the record and returns it only when it was unclaimed |
| Registers.PreparePayload | routes/registers.js:102-123 | A JSON request passes through unchanged. A multipart request becomes EXTERNAL, takes the file path as its screenshot and parses `teamMembers`; it fails exactly when `teamMembers` or `captain` does not parse |
| Registers.Classify | routes/registers.js:82-89 | A duplicate-key error gets the roll message exactly when the violated index covers `capRoll`, and the phone message otherwise |
| Registers.ClassifyAsWrittenMissesRolls | routes/registers.js:82-89 | The route as written sends the phone message for every index, including the roll index |
| Registers.ClassifyDistinguishesRolls | routes/registers.js:84-86 | The corrected classification gives the roll message exactly for the (eventName, capRoll) index |
| Registers.SaveErrorReply | routes/registers.js:81-97 | As the route is written: a duplicate key on any index gives 409 with the phone message; an existing registration, a repeat inside the submission and a failed validator each give 400 with their own message; only an exhausted receipt stream leaves the request unanswered |
| Registers.IntendedReplyDiffersOnlyOnRolls | routes/registers.js:82-89 | The corrected reply (`SaveErrorReplyIntended`) differs from the route's exactly for the (eventName, capRoll) index, where it gives 409 with the roll message |
| Registers.Register | routes/registers.js:31-98 | The handler replies as `RegisterSpec` says (the route as written, so every duplicate key gets the phone message), stores the saved registration and nothing otherwise, and leaves the locks alone |
| Registers.GuardsInOrder | routes/registers.js:45-54 | Allow-list, then mandatory fields, then captcha: each first failure gives its own 400 and saves nothing |
| Registers.DeviceLimitGuard | routes/registers.js:55-60 | Once the earlier guards pass, the 429 device-limit reply comes exactly when the device already has five registrations |
| Registers.DeviceLimitEnforced | routes/registers.js:55-60 | A registration is saved only when its device had fewer than five before |
| Registers.DeviceCapPreserved | routes/registers.js:55-64 | No device ever gets more than five registrations |
| Registers.AdmitSaves | routes/registers.js:63-78 | Past the guards, something is saved exactly when `save()` succeeds; then the 201 reply is sent; otherwise the save error's reply is sent |
| Registers.RegisterSavesThroughAdmit | routes/registers.js:45-64 | A saved registration means the payload parsed and every guard passed |
| Registers.SuccessReplies | routes/registers.js:65-78 | 201 is sent exactly when a registration is saved; an EXTERNAL team is told "PENDING" instead of its receipt, and an INTERNAL team gets its receipt |
| Registers.AdmittedRegistrationIsFresh | routes/registers.js:45-64 | A saved registration conforms, belongs to an allowed event (after trimming), shares no phone or INTERNAL roll with its event, and holds an unheld receipt |
| Registers.SaveErrorsMapped | routes/registers.js:81-97 | Each save error reaches the client as its own reply: 409 with the phone message for any duplicate key, as the route is written, or 400 with the conflict, self-check or validation message |
| CoordsLogModel.NewLockRecord | models/coordsLogModel.js:2-20 | A new lock record is for its event, unclaimed, with no downloader and no time |
| CoordsLogModel.Claim | middleware/download.js:52-62 | The claim succeeds exactly on an unclaimed record, and sets the flag, the downloader name and the time |
| CoordsLogModel.ClaimKeepsWellFormed | middleware/download.js:52-62 | A claim keeps the record well formed, leaves a claimed record unchanged, and is idempotent |
| CoordsLogModel.ClaimedStaysPut | middleware/download.js:52-53 | Once claimed, a record survives any sequence of claims unchanged and every one of them fails |
| CoordsLogModel.FirstAttemptWins | middleware/download.js:52-70 | On a fresh record, exactly the first of a sequence of claims succeeds, and the record keeps the first claimant's name and time |
| Download.EventRegistrations | middleware/download.js:27-29 | `find({ eventName })` returns exactly the registrations of that event. The handler passes the trimmed name, because Mongoose casts the filter value through the path's `trim` setter |
| Download.HandleDownload | middleware/download.js:17-175 | The handler replies and updates the lock table as `DownloadSpec` says, and leaves the registrations alone |
| Download.GuardsLeaveLocks | middleware/download.js:19-37 | A missing `coordsValue` gives 500, a wrong passkey gives 401, and an event with no registrations gives "No one registered yet!"; none of them touches the locks |
| Download.FirstExportWins | middleware/download.js:40-169 | The first authorised export of an event gets the first-download message, the sheet and the vCards, and claims the lock under its name and time |
| Download.LaterExportDenied | middleware/download.js:159-169 | A later one gets the sheet and an alert naming the first downloader and time, no vCards, and an unchanged lock table |
| Download.ClaimedLockKept | middleware/download.js:52-70 | No export changes a lock record that is already claimed |
| Download.CardsClaimLock | middleware/download.js:64-66 | vCards are returned only when the event's lock was unclaimed, and afterwards it is claimed |
| Download.NoCardsAfterClaim | middleware/download.js:52-70 | In any sequence of exports, none for an already claimed event returns vCards |
| Download.FirstCardsAreTheOnly | middleware/download.js:52-70 | If the first export in a sequence returned vCards, no later export for that event does |
| Download.CardsAtMostOncePerEvent | middleware/download.js:39-70 | In any sequence of exports, at most one of those sending the same event name returns vCards. The lock is keyed by the name as sent, so this is exclusivity per lock key |
| Download.UnlockedNameGetsCards | middleware/download.js:27-66 | An authorised export whose trimmed name has registrations and whose name as sent has no lock record gets vCards, and claims a record under that name and no other key |
| Download.PaddedNameBypassesLock | middleware/download.js:27-66 | Two authorised exports whose names differ but trim alike, neither locked yet, both get vCards, one after the other |
| Download.PaddedRunGivesCardsTwice | middleware/download.js:27-70 | The same inside one run of exports: both replies carry vCards |
| Download.SheetCoversEvent | middleware/download.js:76-124 | The sheet has one row per registration of the event and 6 + 3 × (largest team) columns, and every cell of every row has a column |
| ExportData.VCardShape | middleware/download.js:7-15 | A vCard is the six lines BEGIN, VERSION, FN, N, TEL and END joined by newlines; the `name` argument has no effect |
| ExportData.VCardLinesRecovered | middleware/download.js:8-14 | Splitting a vCard at newlines gives back its six lines |
| ExportData.EventPrefix | middleware/download.js:140 | The contact-ID prefix is the event name's first two characters, or all of a shorter name, each lower-cased |
| ExportData.ContactIdOfStored | middleware/download.js:140-147 | For a stored team, the contact ID is the prefix plus the captain roll (INTERNAL), or the prefix, "EXT" and the phone's last eight digits (EXTERNAL) |
| ExportData.ContactIdsOfStored | middleware/download.js:140-147 | Two INTERNAL IDs agree exactly when the rolls agree; INTERNAL and EXTERNAL IDs never agree; two EXTERNAL IDs agree exactly when the phones' last eight digits agree |
| ExportData.StoredInternalIdsDistinct | middleware/download.js:142-143 | Under the roll index, two INTERNAL registrations of an event get different contact IDs |
| ExportData.ColumnsFor | middleware/download.js:85-98 | There are 6 + 3n columns |
| ExportData.ColumnsOrder | middleware/download.js:85-98 | The six captain columns come first, then member i's three columns at positions 3 + 3i to 6 + 3i |
| ExportData.ColumnKeys | middleware/download.js:85-98 | A key has a column exactly when it is a captain key, or a member key numbered 1 to n |
| ExportData.ColumnKeysDistinct | middleware/download.js:85-98 | No two columns share a key |
| ExportData.BuildColumns | middleware/download.js:94-98 | The loop builds exactly `ColumnsFor(maxTeamMembers)` |
| ExportData.MaxTeamSizeIsMax | middleware/download.js:77-82 | Every team is no larger than the maximum, and the maximum is 0 or some team's size |
| ExportData.ComputeMaxTeamSize | middleware/download.js:77-82 | The loop computes `MaxTeamSize` |
| ExportData.BuildRow | middleware/download.js:104-121 | The row built in place is `RowFor` of the registration |
| ExportData.BuildRows | middleware/download.js:103-124 | One row per registration, in order |
| ExportData.RowLayout | middleware/download.js:104-121 | A row has the captain cells plus three cells per member; the roll cell says "EXTERNAL" for non-INTERNAL teams, and each member's empty name, roll or phone becomes "-" |
| ExportData.RowsFitColumns | middleware/download.js:100-123 | Every cell of every registration's row has a column in the sheet built for those registrations |
| ExportData.RegistrationCardsText | middleware/download.js:139-157 | A registration contributes the captain's vCard ("-1") and, when the first member has a phone, that member's vCard ("-2") |
| ExportData.BuildVcf | middleware/download.js:133-158 | The accumulating loop produces exactly `Vcf` of the registrations |
| ExportData.StoredCards | middleware/download.js:148-157 | A stored team yields two cards when it has members (captain and first member) and one card otherwise |
| ExportData.CardCount | middleware/download.js:139-158 | The number of cards lies between the number of registrations and twice that number |
| CheckStatus.QueryFor | routes/checkStatus.js:16-24 | A query is built exactly for the fields "receiptID" and "RollNo" |
| CheckStatus.FindOne | routes/checkStatus.js:25 | The result is the first registration that matches, or nothing when none matches |
| CheckStatus.GuardsInOrder | routes/checkStatus.js:13-24 | Unknown event, then missing field, then unknown search field, each giving its own 400; every error is a 400 |
| CheckStatus.FoundIffMatch | routes/checkStatus.js:16-39 | A well-formed search finds a registration exactly when one of that event matches, shows a matching one, and otherwise gives "No registration found" |
| CheckStatus.ReceiptLookup | routes/checkStatus.js:17 | Under the receipt index, a search by a (possibly padded) receipt shows the registration holding it |
| CheckStatus.ReceiptsDiffer | models/registerModel.js:72-75 | Distinct positions of an indexed store hold distinct receipts |
| CheckStatus.RollLookup | routes/checkStatus.js:18-23 | A search by a roll an INTERNAL team holds shows that team, given that no EXTERNAL team of the event declared the roll |
| CheckStatus.HeldRollIsChecked | models/registerModel.js:126-132 | A roll an INTERNAL registration holds is among the rolls the conflict hook compares |
| CheckStatus.ProjectionHidesPrivateFields | routes/checkStatus.js:27-39 | The reply does not depend on the fingerprint, screenshot, status or registration time, and it carries the receipt and the members |
| Scenarios.KnightsHitRollIndex | models/registerModel.js:90-93 | An EXTERNAL team sending a roll already held in the event passes both hooks and fails on the roll index |
| Scenarios.SharedExternalRollReply | routes/registers.js:82-89 | The handler, as the route is written, answers that team 409 with the phone message; the corrected reply to the same save error is 409 with the roll message |
| Scenarios.AlphaAdmitted | routes/registers.js:73-78 | A valid INTERNAL team is admitted with 201, "Registration Successful", its generated receipt and VERIFIED |
| Scenarios.AlphaResubmitted | models/registerModel.js:145-149 | Submitting the same team again is refused with 400 and the conflict message, not 409 |
| Scenarios.RepeatedPhoneNamed | models/registerModel.js:107-109 | A member repeating the captain's phone fails the self-check, which names that member |
| Scenarios.ExternalContactIdsCollide | middleware/download.js:144-147 | Two conforming EXTERNAL teams with different phones can get the same contact ID, so their cards carry the same FN and N |
| Scenarios.PaddedNameTrims | models/registerModel.js:32 | "Chess " and "Chess" are different lock keys that trim to the same event name |

## Left out

- Concurrency: each request is modelled as one sequential step on the store. The compare-and-swap of `findOneAndUpdate` is an atomic step. Races between the conflict hook and the unique indexes are not modelled.
- The `create` catch in `middleware/download.js:44-46` re-reads the record. Sequentially the create cannot fail, and the value read is overwritten before use, so the branch is not modelled.
- I/O: the HTTP layer, the rate limiter, the captcha service (the `captchaOk` parameter), multer's storage, and the file-type and size filter are not modelled. Multer's result is only the uploaded file's path (`Request.file`).
- The allow-list module is the `allowed` parameter; `process.env` is the `env` map.
- Randomness: `crypto.randomBytes` is the `draws` sequence. When every draw is taken, the model answers `StillGenerating`, where the source would keep looping.
- The clock is the `now` parameter. `updatedAt` is not modelled.
- ExcelJS and base64: the workbook is the `Sheet` value (columns and rows) before encoding. The column widths are kept; the header styling is not.
- `toLocaleString` is the `formatTime` parameter of the export; the sheet's registration time is a `Time` cell.
- Sort order: the model keeps store order, oldest first, which is the reverse of `find(...).sort({ createdAt: -1 })`. The sheet rows and the vCards have the same contents as the source's, in the opposite order.
- Database errors and other unexpected exceptions (the 500 replies of `routes/checkStatus.js:40-43` and `middleware/download.js:171-174`) are not modelled, except that a missing `coordsValue` gives the 500 it causes.
- The text of a Mongoose `ValidationError` is the fixed `ValidationMessage`; which field failed is not carried into the message.
- Case mapping (`toUpperCase`, `toLowerCase`) covers ASCII letters only. `trim` removes ECMAScript's WhiteSpace and LineTerminator characters.
- `Download.HandleDownload`: the request's `eventName` is always a string; an absent `eventName` is not modelled.
- An undefined `coordinatorName` leaves `firstDownloaderName` at its default `null`, so the alert prints "null"; the model does not separate undefined from null.
- Captain repeat checks: the `pre("validate")` checks at `models/registerModel.js:97-104` compare against empty sets and can never fire, so they are not separate error cases.
- `CheckStatus.CheckStatusReply`: the `eventName` of the status query is compared as sent; Mongoose's `trim` cast of that filter value is not applied. It matters only for an allow-listed name with white space at either end.
- `CheckStatus.RollLookup`: an EXTERNAL team of the event may hold the same roll and be found first, so the lemma assumes none does.
- `server.js`, `middleware/verifyCaptcha.js` and `middleware/rateLimiter.js` are not part of this model.

## Findings

| source | as written | input that shows it | evidently intended | confidence | as-written member | corrected member |
|---|---|---|---|---|---|---|
| routes/registers.js:83-84 | The route takes `Object.keys(err.keyPattern)[0]`. For the compound index `{ eventName, capRoll }` that key is `eventName`, so the `capRoll` branch is never taken | An EXTERNAL team "Rooks" for Chess holds roll 2023MEB025; a second EXTERNAL team "Knights" for Chess, with a different phone, sends the same roll. Saving fails on the roll index, and the route answers with the phone/captain message | A duplicate on the (eventName, capRoll) index answers "This Roll Number is already registered for this event." | not executed | Registers.ClassifyAsWritten, Registers.SaveErrorReply (Registers.ClassifyAsWrittenMissesRolls, Scenarios.SharedExternalRollReply) | Registers.Classify, Registers.SaveErrorReplyIntended (Registers.ClassifyDistinguishesRolls, Registers.IntendedReplyDiffersOnlyOnRolls) |

The handler model (`RegisterSpec`, `Register`) follows the route as written; the corrected reply is kept beside it and is proved to differ only for the roll index.
