# Verified models of the production tools and the bulk create

The command-line tools of this repository decide, from outside, whether production is sound: they count what a model
request was billed, compare histories, gate and redact, render manifests and poll for a purchase. The generated ent code
behind the control plane inserts batches through a chain of hooks. This project models that behaviour in Dafny and
proves what it is relied on for. `dafny verify dfyconfig.toml` checks everything.

**Usage reconciliation** (`QaErrors`, `UsageSnapshot`, `GrowingLog`, `UsageDifference`, `Reconciliation`, `LiveQa`, `Convergence`,
`HonestServer`).
A QA run reads a key's usage log page by page, triggers one model request, and re-reads log, stats and wallet until all
three agree that exactly this request was billed. The server is any function from requests to replies; an honest log is
one that only gains records (anywhere: newest first or last) between any two requests. The paged read, one attempt,
the retry loop and the run are methods proved against specification functions; the theorems are about those: a paged
read is atomic, a pass is safe, and a server that settles is recognised in the first attempt at which it has settled. A
server that bills the request correctly, for any account and any delay, is built to show that all of this applies.

**Canonical history** (`StableSort`, `JsonValue`, `CanonicalHistory`, `OperationHistory`). JSON values with ordered
members, canonicalised and printed character by character as `JSON.stringify` does, and the comparison of two listings
of an account's runtime operations.

**Approval and redaction** (`Calendar`, `Expiry`, `Approval`, `Redaction`). The Gregorian calendar of ECMA-262, the one
canonical spelling of a moment, what an approval manifest must say, and what evidence keeps once secrets are removed.

**Manifest rendering** (`ManifestRendering`, `ManifestTree`). The setters at work on cloned item objects, proved against
functions on their contents, and the overwrite law of those functions.

**Bulk create** (`MutatorChain`, `BulkCreate`). Mutators chained through a slice with hooks wrapped around them, on
mutation objects that hooks edit and that are marked done on the way back, proved against a recursive function from
hooks and mutations to the effect of a call. A hook may edit its mutation, stop with any answer, or call on and answer
as it likes.

**Acceptance polling and parsers** (`Acceptance`, `CliArgs`, `EnvFile`, and `JsText` for trimming and decimals). A polling loop, the two argument parsers and
the env-file parser.

Where the code falls short of what one might expect of it, the exact condition is proved: the server's listing order
stays hidden from the history comparison exactly when `localeCompare` tells the ids apart; the comparison takes a number
beyond the range of Number for `null`; the two argument parsers agree exactly on lists without `--__proto__`; an env
file reads back exactly for good keys (not `__proto__`) and single-line values; and a bulk create, whose hooks may
answer as they like to what they are told, is all or nothing exactly when every mutator on the way reports success if
the insert is reached and taken, and a failure if not.

## Model

| member | source | states |
|---|---|---|
| JsText.TrimParts | tools/staging-env.ts:36-58 | trimming takes white space off both edges and nothing else |
| JsText.TrimPadded | tools/staging-env.ts:36-58 | white space around a text that has none at its edges is exactly what trimming takes off |
| JsText.SpacesAre | tools/staging-env.ts:36-58 | the characters trimmed are the white space and line terminators of ECMA-262 |
| JsText.DigitsRead | tools/production-live-qa.ts:197 | a whole number is shown by its decimal digits, without a leading zero |
| UsageSnapshot.GatewayUsageSnapshot | tools/production-live-qa.ts:175-206 | on every server, honest or not, the read ends within 100 requests; it succeeds exactly when all pages are accepted, the trimmed ids are non-blank and distinct and the rows add up to the total, with one request per page; otherwise the error is that of the first page that is wrong, the last one requested |
| UsageSnapshot.CollectRows | tools/production-live-qa.ts:196-201 | a page's rows are taken in exactly when the ids stay non-blank and pairwise different, and then all of them, in order |
| UsageSnapshot.FirstFault | tools/production-live-qa.ts:179-204 | from any page reached, having no fault means the whole read is in order, and a fault is that of a definite page |
| UsageSnapshot.FailureIsDetermined | tools/production-live-qa.ts:184-204 | a read fails at one page and with one error only |
| UsageSnapshot.FailureIsUnreadable | tools/production-live-qa.ts:184-204 | a read with a page that fails is never a success: success and failure exclude each other |
| UsageSnapshot.FirstPageIff | tools/production-live-qa.ts:184-192 | the first page is accepted exactly if it says it is page 1, of a hundred rows a page, of a log of at most 10000 records in as few pages as hold them, empty or available as it should be |
| UsageSnapshot.LaterPageIff | tools/production-live-qa.ts:187-195 | a later page is accepted exactly if it is the page asked for, of a hundred rows a page and of the same totals |
| UsageSnapshot.PageErrors | tools/production-live-qa.ts:180-195 | a refused request, an exceeded limit, changed totals on a page otherwise in order, and anything else wrong are told apart |
| UsageSnapshot.PaddedIdsCollide | tools/production-live-qa.ts:197-198 | ids that differ by white space at their edges are one id, and no snapshot holds both |
| UsageSnapshot.BlankIdsFail | tools/production-live-qa.ts:197-198 | an id of nothing but white space is none |
| GrowingLog.GrowthAddsLength | tools/production-live-qa.ts:193-195 | a log that grew without getting longer did not change; why equal totals on every page exclude growth |
| GrowingLog.AtomicRead | tools/production-live-qa.ts:175-206 | on a log that only grows the read succeeds exactly when the log has at most 10000 records with good ids and stood still during the read, and then it returns that one state, in order |
| GrowingLog.PagesInOrder | tools/production-live-qa.ts:179-202 | while the log stands still, k pages of 100 concatenate to its first 100k records |
| GrowingLog.PagingCompleteness | tools/production-live-qa.ts:175-206 | a log at rest is read in full exactly when it has at most 10000 records with good ids, in as few pages of a hundred as hold it, at least one and at most 100 |
| GrowingLog.GrowthIsReported | tools/production-live-qa.ts:184-195 | a log that grows between two pages is reported as changed, or as beyond the limit if it has outgrown that |
| GrowingLog.TooLongIsReported | tools/production-live-qa.ts:184-186 | a log of more than 10000 records at the start is reported as beyond the limit (as invalid if even its page count is no safe integer) |
| GrowingLog.AppendingGrows | tools/production-live-qa.ts:179-206 | listings that add new records at the end, or at the front, are both covered by the notion of a growing log |
| UsageDifference.TotalsDecide | tools/production-live-qa.ts:216-224 | for snapshots of the paged read that keep the old ids, the size test and the added-length test follow from the totals |
| UsageDifference.DifferenceIsExact | tools/production-live-qa.ts:216-232 | nothing is reported exactly when the id sets agree; r exactly when r is the unique new item, its raw id is trimmed and it meets the request contract; a mismatch exactly when the id sets differ by anything but one addition |
| UsageDifference.ValidUsageIff | tools/production-live-qa.ts:226-228 | the record of the model request is a synchronous request to `/v1/responses`, by this key and for this model, of four token counts, some input or output among them, at a positive cost; rounding makes no difference |
| UsageDifference.TrimOfNewId | tools/production-live-qa.ts:196-201 | an item found by its raw id also carries that id once trimmed, so looking up raw what was collected trimmed cannot hit another record |
| UsageDifference.RoundedTokens | tools/production-live-qa.ts:244-249 | the four-term token sum, rounded after each addition, equals a safe delta exactly when the unbounded sum does |
| UsageDifference.RoundingKeepsVerdict | tools/production-live-qa.ts:234-249 | for any monotone rounding exact up to 2^53 the stats test holds exactly when stats grew, in unbounded integers, by one request, its four token counts and its cost |
| UsageDifference.RoundingKeepsDifferences | tools/production-live-qa.ts:227-228 | the wallet difference and the lower bound on tokens are decided as in unbounded integers too |
| Reconciliation.RetryLoop | tools/production-live-qa.ts:443-465 | the variables that outlive an attempt hold, when the loop stops, exactly what the attempt it stops at read, and a mismatch that attempt saw has raised its flag |
| Reconciliation.RememberedConclusion | tools/production-live-qa.ts:466-470 | the checks after the loop conclude what the last attempt says, with none but the not-found and the two mismatch errors |
| Reconciliation.StopIsFirst | tools/production-live-qa.ts:450-465 | the attempt a run stops at is the first to fail or settle, else the last, and no other |
| Reconciliation.Reconcile | tools/production-live-qa.ts:443-470 | although record, stats, wallet and two mismatch flags outlive an attempt, the loop and the checks after it conclude what the last executed attempt alone says; the two `invalid` fallbacks after the loop are never taken |
| Reconciliation.FallbacksUnreachable | tools/production-live-qa.ts:466-470 | `gateway_wallet_invalid` is no outcome of any attempt, and `gateway_usage_stats_invalid` only that of a malformed stats reply |
| Reconciliation.StatsIff | tools/production-live-qa.ts:208-214 | stats are read exactly from a reply of five counts, each under its own name |
| Reconciliation.WalletIff | tools/production-verifier.ts:157-164 | the wallet is read exactly from an available, active wallet in dollars of this user, with a count of micros |
| Reconciliation.KeyIff | tools/production-verifier.ts:166-175 | the key is read exactly from a listing of one active key `opl-workspace` with a decimal id and no secret, and if a key is expected, of that one |
| Reconciliation.ChangedKeyFails | tools/production-live-qa.ts:452 | a key that is no longer the baseline's ends the attempt |
| Reconciliation.OtherWalletFails | tools/production-live-qa.ts:457 | an attempt never finds anything in another user's wallet |
| Reconciliation.FaultEndsTheLoop | tools/production-live-qa.ts:450-465 | the first attempt that fails ends the loop, and its error is the outcome |
| LiveQa.VerifyProductionLiveQa | tools/production-live-qa.ts:392-477 | one model request is triggered exactly when the chain report, the resource ids, access, the baseline reads and the approval for the very key read are in order, none otherwise; the run passes exactly when moreover the model check passed, the attempt it stopped at is settled and ids, receipt and operations print as before; it fails with the first thing that goes wrong |
| LiveQa.GrowthByOne | tools/production-live-qa.ts:221 | a log one record longer is the old one with one record put in at a definite place |
| LiveQa.FoundInLog | tools/production-live-qa.ts:453-454 | an attempt that fails at nothing finds a record exactly when the log is no longer the one of the baseline, and then the one record the log has gained, valid and under an id the baseline lacks |
| LiveQa.DifferenceInLog | tools/production-live-qa.ts:216-232 | between two states of a growing log the difference check reports nothing exactly when they are the same, and a record only if it is the one gained |
| LiveQa.SameRecordFound | tools/production-live-qa.ts:450-465 | any two attempts that find a record find the same one in the same log |
| LiveQa.WholeRunSafety | tools/production-live-qa.ts:423-470 | against any growing log and any stats and wallet replies, a pass means: exactly one record was added up to the accepted snapshot, in all its fields that of the request; every attempt before found nothing or that record; and its cost equals both the wallet drop and the stats cost delta, along with one request and its tokens |
| LiveQa.UnsettledMeans | tools/production-live-qa.ts:466-470 | a loop whose reads all succeed but never settle reports the request not found exactly when the log is still the baseline's; else the log has gained one valid record, and it reports a stats mismatch exactly when the stats did not grow by it, a balance mismatch exactly when they did and the wallet did not shrink by its cost |
| LiveQa.RequestIsGranted | tools/production-live-qa.ts:427-432 | no model request without a manifest for this approval, still in force, that names the account, the workspace, the slot and the very key whose usage was read |
| LiveQa.SettledPassesIff | tools/production-live-qa.ts:472-477 | a run whose request was billed as it should passes exactly if the slot is still reusable, with the same resources, the same receipt as printed and the same operation rows |
| LiveQa.SettledFailure | tools/production-live-qa.ts:472-477 | if it does not pass, its error names the first of these that is off |
| LiveQa.ResourceIdsIff | tools/production-live-qa.ts:162-173 | resource ids are in order exactly if the first three bear `ins-`, `disk-` and `np-` and the volume is named |
| LiveQa.PassKeepsResources | tools/production-live-qa.ts:472-476 | a pass means a reusable slot with the same four resource ids and the same receipt as before |
| LiveQa.ChangedHistoryFails | tools/production-live-qa.ts:477 | a run whose two chain reports were made from histories that do not hold the same records does not pass, however they were listed |
| Convergence.AttemptFinds | tools/production-live-qa.ts:450-463 | while the server shows the old log or the request's record with any figures, an attempt never fails and settles exactly when the server has |
| Convergence.BoundedConvergence | tools/production-live-qa.ts:450-470 | if the server has settled by an attempt within the limit, the run passes at the first attempt at which it had |
| Convergence.PassesIffServerSettles | tools/production-live-qa.ts:450-470 | on such a server the run passes exactly when the server settles within the limit |
| HonestServer.RunAgainstHonestServer | tools/production-live-qa.ts:423-477 | for any account and any request it can be billed for, a server that bills it correctly and shows it from attempt k on serves a log that only grows, and the run passes, at attempt k and with that bill as evidence, exactly when k is within the limit, else the request is reported not found |
| StableSort.SortPermutes | tools/production-verifier.ts:374 | sorting loses and invents nothing |
| StableSort.SortSorts | tools/production-verifier.ts:374 | the result is in order |
| StableSort.SortIsStable | tools/production-verifier.ts:374 | elements the comparison does not tell apart keep their order |
| StableSort.SortIgnoresOrder | tools/production-verifier.ts:374 | the input order is forgotten where the comparison separates the elements |
| JsonValue.EscapeUnique | tools/production-verifier.ts:370 | an escaped character can be read off the front of any text in one way only |
| JsonValue.PrintUnique | tools/production-verifier.ts:370 | a printed value without infinities can be read off the front of a longer text in one way only |
| JsonValue.PrintInjective | tools/production-verifier.ts:370 | values print alike exactly when they are identical, member order included, but for numbers beyond the range of Number taken as `null` |
| JsonValue.PrintIs | tools/production-verifier.ts:370 | the printed text: `null` for an infinity too, texts between quotes with each character quoted as ECMA-262 says, items and members in order between brackets with commas between them |
| JsonValue.MemberIs | tools/production-verifier.ts:358-371 | a member is the value under that key, and `null` where there is none |
| CanonicalHistory.CanonicalIffSame | tools/production-verifier.ts:377-381 | canonical forms are identical, member order included, exactly when the values are equal up to reordering members at every depth |
| CanonicalHistory.CanonicalIsSame | tools/production-verifier.ts:377-381 | a canonical form is well formed and equals the value up to that reordering |
| CanonicalHistory.CanonicalIdempotent | tools/production-verifier.ts:377-381 | canonicalising twice is canonicalising once |
| CanonicalHistory.CanonicalInOrder | tools/production-verifier.ts:380 | in every object of a canonical form, at every depth, array indices come first and rise by value, and the other keys rise strictly by their UTF-16 code units |
| CanonicalHistory.CanonicalIsTheOne | tools/production-verifier.ts:377-381 | the canonical form is the one well-formed value that is equal up to reordering members and has all its members in that order |
| CanonicalHistory.TextOrderIsUnits | tools/production-verifier.ts:380 | keys are sorted by the first code unit in which they differ, a proper prefix first |
| CanonicalHistory.CanonicalEntryOf | tools/production-verifier.ts:380 | the members of a canonical object are the object's keys, each with the canonical form of its value, index keys in front or not |
| CanonicalHistory.CanonicalAsPrinted | tools/production-verifier.ts:370-381 | canonicalising and dropping what printing drops can be done in either order |
| CanonicalHistory.PrintedCanonicalIffSame | tools/production-verifier.ts:370 | printed canonical forms are equal exactly when the values, infinities taken as `null`, are equal up to reordering members |
| CanonicalHistory.PlainCanonicalIffSame | tools/production-verifier.ts:370 | for values without infinities the printed canonical form determines the value up to that reordering |
| OperationHistory.OperationRows | tools/production-verifier.ts:359-373 | the walk over the operations succeeds exactly for a non-empty history of objects with id, action and status and distinct ids, and yields one row each, in order |
| OperationHistory.RuntimeOperationSnapshot | tools/production-verifier.ts:358-375 | the snapshot exists exactly for such a history and is its rows stably sorted by id |
| OperationHistory.SnapshotIs | tools/production-verifier.ts:374 | the snapshot holds the rows of the history, no more and no fewer, ids rising, ties in the order listed |
| OperationHistory.HistoryIff | tools/production-verifier.ts:362-373 | a history is a listing, not empty, of objects with an id, an action and a status, with no id twice |
| OperationHistory.OperationsAre | tools/production-verifier.ts:359 | the operations are those listed under `runtimeOperations`; a state without such a list has no history |
| OperationHistory.OperationReads | tools/production-verifier.ts:362-371 | an operation whose fields are texts makes the row of these texts, trimmed, with the digest of its own canonical form |
| OperationHistory.OperationIdIs | tools/production-verifier.ts:362 | the id is read from `id`, and from `operationId` only where `id` holds nothing |
| OperationHistory.FieldTextIs | tools/production-verifier.ts:362-365 | a field reads as nothing if missing, `null`, `false`, 0 or empty, else as its text, trimmed: arrays joined with commas, objects as `[object Object]` |
| OperationHistory.RowMembers | tools/production-verifier.ts:371 | a row prints its five facts, each under its own name |
| OperationHistory.RowIffSame | tools/production-verifier.ts:362-371 | with an injective digest, two operations have the same row exactly when they leave the same record: equal up to member order with infinities taken as `null`, and with id, action, status and request id reading the same |
| OperationHistory.PlainRecords | tools/production-verifier.ts:362-371 | without infinities, leaving the same record is being equal up to member order |
| OperationHistory.PrintRowsInjective | tools/production-live-qa.ts:477 | two snapshots print alike exactly when they are the same |
| OperationHistory.UnchangedHistoryTest | tools/production-live-qa.ts:477 | where the comparison separates the first history's ids, the printed snapshots are equal exactly when both histories leave the same records, however they were listed; without infinities exactly when they hold the same operations up to member order |
| OperationHistory.InfinityIsHidden | tools/production-verifier.ts:370 | the test does not see `1e400` become `null`: two operations that differ by that have one row, and each makes a history |
| OperationHistory.OrderIrrelevantIffSeparated | tools/production-verifier.ts:374 | the server's listing order has no influence on the snapshot exactly when the comparison separates the ids |
| OperationHistory.OrderShows | tools/production-verifier.ts:374 | two ids tied by the comparison make a history and its reverse look different |
| OperationHistory.TiedIdsShowTheOrder | tools/production-verifier.ts:374 | any two ids the comparison ties make a history of two operations whose listing order shows in the printed snapshot |
| Calendar.YearLength | tools/production-verifier.ts:85-87 | the year-start formula of ECMA-262 advances by the year's own length |
| Calendar.FromTime | tools/production-verifier.ts:87 | every time value is that of a date and time that exists |
| Calendar.TimeIsUnique | tools/production-verifier.ts:85-87 | no two existing dates and times share a time value |
| Calendar.FromMadeTime | tools/production-verifier.ts:85-87 | the time value of an existing date and time yields it back |
| Calendar.Anchored | tools/production-verifier.ts:85-87 | the start of 1 January 1970 is time value 0 |
| Calendar.DaysFollow | tools/production-verifier.ts:85-87 | from any existing date on, the next day is the next date of the Gregorian calendar, and it exists; with the anchor this fixes the number of every day |
| Calendar.MonthLengths | tools/production-verifier.ts:85-87 | months have 31, 30, and 28 or in leap years 29 days |
| Expiry.PadValue | tools/production-verifier.ts:86-87 | fixed-width digits read back as the number they show |
| Expiry.ValuePad | tools/production-verifier.ts:86-87 | digits are the fixed-width spelling of the number they show |
| Expiry.StrippedIsSpelling | tools/production-verifier.ts:87 | replacing the first `.000Z` strips an empty fraction of a second and nothing else |
| Expiry.ExpiryIsCanonical | tools/production-verifier.ts:85-87 | accepted are exactly the spellings of existing Gregorian dates and times of years 0 to 9999, whatever `Date.parse` makes of other texts, and each stands for its own moment |
| Expiry.ExpiryByReading | tools/production-verifier.ts:85-87 | read off the text: the pattern, a date and time that exists, and a fraction only if not zero, so no 30 February, no hour 24, no `.000` |
| Approval.ExactKeysAreTheKeys | tools/provider-acceptance.ts:43-46 | as many keys as required, each required key present: exactly then the key sets are equal |
| Approval.ApprovalIsScoped | tools/production-verifier.ts:75-102 | a target is let through exactly by a manifest with the five members, the expected id, the canonical spelling of a moment still to come, and lists naming the account, workspace and every resource |
| Approval.RefusalSaysWhy | tools/production-verifier.ts:88-100 | an invalid manifest is one that would do for no approval at any time; a mismatch, one that would do for another approval; expired, one that would do for this one earlier; forbidden, one that does now but not for all the target touches |
| Approval.UnreadableManifests | tools/production-verifier.ts:76-82 | a missing manifest and one that is no JSON are told apart |
| Redaction.Delete | tools/production-verifier.ts:57 | deleting a name removes every parameter of that name, repeats included, and no other |
| Redaction.DeleteSensitive | tools/production-verifier.ts:56-58 | deleting while walking over the names as they were leaves exactly the non-sensitive parameters, in order, and edits the URL exactly if there was a sensitive one |
| Redaction.SafeIsSafe | tools/production-verifier.ts:56-58 | what is left are the non-sensitive parameters, all of them, and removing again changes nothing |
| Redaction.RedactSensitiveUrl | tools/production-verifier.ts:53-60 | deleting parameter by parameter from a parsed web address comes to printing it with the non-sensitive ones, and with its query as written if there was no sensitive one |
| Redaction.RedactedParams | tools/production-verifier.ts:53-60 | a text that begins, in any case of letters, with neither `http://` nor `https://` stays as it is; any other throws if it cannot be read, and else prints as the same base and exactly the non-sensitive parameters, in order |
| Redaction.RedactUrlTwice | tools/production-verifier.ts:53-60 | redacting a redacted URL changes nothing |
| Redaction.WithoutSecrets | tools/production-verifier.ts:120-127 | the recursion succeeds exactly when every http text outside sensitive members can be read, and yields the redacted value |
| Redaction.RedactionByPlace | tools/production-verifier.ts:120-127 | a place of the value is gone exactly if its path passes a sensitive key; every other place stays and holds the redaction of what was there |
| Redaction.NothingSensitiveLeft | tools/production-verifier.ts:120-127 | what evidence keeps, at any place, lies below no sensitive key, and no text in it can be read as a web address with a sensitive parameter |
| Redaction.RedactionKeepsOrder | tools/production-verifier.ts:124-126 | the members that stay keep their order |
| Redaction.RedactionIdempotent | tools/production-verifier.ts:120-127 | redacting twice is redacting once and never throws the second time |
| ManifestTree.ItemObject.SetNamespace | tools/render-tke-manifest.ts:53-60 | in place, only the metadata changes, creating it if need be; a Namespace gets its name, any other item its namespace |
| ManifestTree.ItemObject.SetConfigMap | tools/render-tke-manifest.ts:62-69 | assigning key by key, one key listed twice, has the effect of setting each listed key the data has, once |
| ManifestTree.ItemObject.SetDeployment | tools/render-tke-manifest.ts:71-82 | one walk over both container lists sets the image of each platform container and leaves the others |
| ManifestTree.ItemObject.SetIngress | tools/render-tke-manifest.ts:84-102 | class, tls and the hosts of the first two rules are set, further rules stay |
| ManifestTree.RenderAll | tools/render-tke-manifest.ts:110-115 | rendering item objects one after the other renders each exactly once |
| ManifestTree.RenderTkeManifest | tools/render-tke-manifest.ts:104-117 | the outcome is the rendering of the manifest's contents or the reported fault; the given manifest and its items stay unchanged and the result shares no object with them |
| ManifestTree.DropSharedIngress | tools/render-tke-manifest.ts:107-109 | the kept objects are, in order, those that are not the shared ingress |
| ManifestRendering.MissingAre | tools/render-tke-manifest.ts:41-43 | reported are exactly the listed keys without a value, as often as listed |
| ManifestRendering.MissingInOrder | tools/render-tke-manifest.ts:41-43 | they are reported in the order in which they are listed |
| ManifestRendering.GoesAheadIff | tools/render-tke-manifest.ts:41-47 | rendering goes ahead exactly when every listed key has a value that is not blank and the zone is the region, a dash and digits; missing keys are reported first |
| ManifestRendering.ZoneHasOneRegion | tools/render-tke-manifest.ts:44-46 | a zone fits one region only |
| ManifestRendering.ItemOverwrites | tools/render-tke-manifest.ts:53-102 | rendering an item twice leaves no trace of the first values |
| ManifestRendering.RenderOverwrites | tools/render-tke-manifest.ts:104-117 | rendering with v1 and then v2 is rendering once with v2, faults included; a skip flag given in either pass counts |
| ManifestRendering.RenderIdempotent | tools/render-tke-manifest.ts:104-117 | rendering is idempotent |
| ManifestRendering.UnchangedIffShows | tools/render-tke-manifest.ts:53-102 | rendering changes nothing exactly when the item already shows every value asked for |
| ManifestRendering.RenderedShows | tools/render-tke-manifest.ts:53-102 | a rendered item shows every value asked for |
| ManifestRendering.RenderedNamespace | tools/render-tke-manifest.ts:53-60 | every item of a rendered manifest is in the namespace of the values, or is it |
| ManifestRendering.RenderedConfig | tools/render-tke-manifest.ts:62-69 | a config map of a rendered manifest holds the values of the listed keys it has |
| ManifestRendering.RenderedDeployment | tools/render-tke-manifest.ts:71-82 | a deployment of a rendered manifest pulls with the secret of the values and runs their image in the four platform containers |
| ManifestRendering.RenderedIngress | tools/render-tke-manifest.ts:84-102 | an ingress of a rendered manifest has exactly two certificates, the console's for the console's domain and the workspaces' for theirs, and these domains are the hosts of its first two rules |
| ManifestRendering.RenderingLeavesTheRest | tools/render-tke-manifest.ts:53-102 | members, containers, data keys and rules that rendering does not name are untouched |
| ManifestRendering.SurvivorsAre | tools/render-tke-manifest.ts:107-109 | exactly the shared ingress is dropped and the other items keep their order |
| ManifestRendering.SurvivorsCount | tools/render-tke-manifest.ts:107-109 | and stay as often as they were there |
| ManifestRendering.SharedIngressIs | tools/render-tke-manifest.ts:108 | the shared ingress is the Ingress named `opl-cloud` |
| ManifestTree.DeployKeysAre | tools/render-tke-manifest.ts:3-40 | the list names 35 keys, the zone twice, among them all those whose values rendering puts anywhere but in a config map |
| MutatorChain.HonestWhenHooksAre | services/control-plane/ent/account_create.go:295-298 | wrapping honest hooks in reverse makes an honest chain |
| MutatorChain.ArrivesIff | services/control-plane/ent/account_create.go:262-287 | whatever hooks edit, the insert is reached exactly when no hook stops and every check passes on the edited input, with the specs of all builders in order |
| MutatorChain.OwnInputs | services/control-plane/ent/account_create.go:266-298 | builders that share no mutation insert what their own hooks make of their own input |
| MutatorChain.ReportedError | services/control-plane/ent/account_create.go:271-290 | through hooks that hand on what they are told, the call reports the first check that fails, else what the database says about the batch, a violated constraint as that |
| MutatorChain.AllOrNothingFrom | services/control-plane/ent/account_create.go:266-294 | with hooks that stop with errors only and keep success and failure apart, a run is all or nothing from any mutator on, and succeeds exactly when the insert is reached and taken |
| MutatorChain.AllOrNothing | services/control-plane/ent/account_create.go:255-307 | for any number of builders and such hooks, edits included: at most one batch insert, only after every check, with all specs in order; success exactly when it succeeds; then all builders mark their mutation done, else none |
| MutatorChain.AllOrNothingIff | services/control-plane/ent/account_create.go:255-307 | for all hooks that call on at most once, whatever they edit and report: a run is all or nothing exactly when every mutator on the way reports success if the insert is reached and taken, and a failure if it is not |
| MutatorChain.Fate | services/control-plane/ent/account_create.go:266-298 | what a run reports and inserts follows from what the mutators on the way report and whether the insert is reached |
| MutatorChain.DoneAre | services/control-plane/ent/account_create.go:288-293 | the builders that mark their mutation done are those told of a success, by the next builder's mutator or by the database |
| MutatorChain.MarksAre | services/control-plane/ent/account_create.go:291-292 | the mutations marked are those of these builders, shared ones included, each with the id of a node made for it; all others keep their mark |
| MutatorChain.TraceIsBracket | services/control-plane/ent/account_create.go:266-305 | for all hooks that call on at most once, the trace is one nested bracket around at most one insert, each hook entered being left in reverse order |
| MutatorChain.SkippingHookLosesTheInsert | services/control-plane/ent/account_create.go:295-306 | a hook that claims success without going on makes the call succeed with nothing inserted, whatever checks and database say |
| MutatorChain.SwallowingHookHidesAFailure | services/control-plane/ent/account_create.go:271-298 | a hook that goes on and reports success whatever it is told makes the call succeed after a failed check, with nothing inserted or marked |
| MutatorChain.LateFailingHookKeepsTheInsert | services/control-plane/ent/account_create.go:288-305 | a hook that fails after going on makes the call fail with everything inserted and marked done |
| MutatorChain.PreparedKeeps | services/control-plane/ent/account_create.go:131-148 | setting missing values changes nothing that was given, nor ids and marks |
| MutatorChain.PreparedSets | services/control-plane/ent/account_create.go:131-148 | afterwards every value with a default is set, shared mutations included |
| MutatorChain.PreparedIs | services/control-plane/ent/account_create.go:131-148 | builders that share no mutation hold just their given values and, where nothing was given, their own defaults |
| BulkCreate.BulkSave.Prepare | services/control-plane/ent/account_create.go:262-300 | the mutations stand as after each builder in turn has set its missing values from its own defaults; every mutator is the builder's hooks around its own closure, first hook outermost |
| BulkCreate.BulkSave.Mutate | services/control-plane/ent/account_create.go:266-298 | calling a mutator through the shared slices, with hooks that edit, stop, or answer as they like, has exactly the effect the specification gives: error, trace, insert, specs, nodes and every mutation as it stands, also when builders share one |
| BulkCreate.BulkSave.Descend | services/control-plane/ent/account_create.go:277-287 | once a builder has passed, the next one's mutator runs on the shared slices, or, after the last, one insert of all specs in order |
| BulkCreate.BulkSave.RunChain | services/control-plane/ent/account_create.go:259-305 | preparing and running the chain has the effect of the first mutator on the prepared mutations; without builders nothing is called |
| BulkCreate.BulkSave.Save | services/control-plane/ent/account_create.go:255-307 | an earlier builder error stops everything untouched; no builders means success without a call; else error, trace, insert, nodes and every mutation are what the specification gives, a builder kept from its spec having no node; with honest hooks success means one insert of all specs, taken, every mutation done and every node handed back, and failure no insert that was taken and no new mark |
| Acceptance.SuccessIffComplete | tools/provider-acceptance.ts:70-87 | a response counts as success exactly when its status is `ready` or `reused`, its key sets are the required ones, `ok` is true, the slot is the requested one and every slot fact after the account is filled in |
| Acceptance.ResponseSays | tools/provider-acceptance.ts:76-85 | an accepted response carries the status of the payload, the texts of its slot in their order, and the reason of a manual review |
| Acceptance.Poll | tools/provider-acceptance.ts:128-144 | between one and `attempts` posts, all alike, under the slot's idempotency key, none after the first reply that settles the matter, which decides; timeout only after all of them |
| Acceptance.RunProviderAcceptance | tools/provider-acceptance.ts:109-145 | nothing is posted exactly when authority, configuration or the origin is not in order; at most 120 identical posts under one key otherwise, the result being that of the last |
| Acceptance.InProgressOnly | tools/provider-acceptance.ts:130-142 | the poll goes on exactly at an `in_progress` response whose key sets are the required ones, with a false `ok` and a slot of texts for the requested slot and account |
| Acceptance.SuccessVerdict | tools/provider-acceptance.ts:130-137 | the poll succeeds exactly at a complete success response |
| Acceptance.ReviewVerdict | tools/provider-acceptance.ts:138-141 | it stops for a manual review exactly at a response with the four required members, a false `ok`, a known reason and a slot of texts, of exactly the required members, for the requested slot and account |
| Acceptance.ErrorVerdicts | tools/provider-acceptance.ts:59-67 | every other reply ends the poll with the error that fits: a failed request, no JSON, a status that is none of the four, or a response that does not fit its status |
| Acceptance.AuthorisedIff | tools/provider-acceptance.ts:109-127 | a post takes the confirmation, both write flags, a token, a fixed slot with its own account, both approvals, a budget of one, an approved cost, 1 to 120 attempts, valid timing and the console's origin |
| Acceptance.KeysOfSlots | tools/provider-acceptance.ts:10-19 | different slots post under different idempotency keys |
| CliArgs.LoopArgs | tools/production-live-qa.ts:500-508 | the loop that skips the values it takes computes what the other form computes, except for the key `__proto__` |
| CliArgs.LastFlagWins | tools/provider-acceptance.ts:155-157 | a key is set exactly when its flag occurs, and the last occurrence gives the value: the next element, or `true` if there is none, it is empty or is a flag itself |
| CliArgs.ParsersAgree | tools/provider-acceptance.ts:155-157 | both forms agree on an argument list exactly when it does not contain `--__proto__` |
| EnvFile.ParseEnvText | tools/staging-env.ts:47-58 | the loop reads the file's lines in order, a later line overriding an earlier one |
| EnvFile.WrittenReadsBack | tools/staging-env.ts:36-58 | bindings with good keys and single-line values, printed one `KEY="VALUE"` line each, read back as what they mean, last one winning, whatever quotes, `=`, `#` or edge spaces the values hold |
| EnvFile.RoundTripIff | tools/staging-env.ts:36-58 | for distinct keys the round trip works exactly for good keys and single-line values; a key `__proto__` is lost |
| EnvFile.ReadLinesAreGood | tools/staging-env.ts:47-58 | nothing but good keys with single-line values can be read from any text |
| EnvFile.OtherSpellings | tools/staging-env.ts:36-45 | single quotes work like double ones; a bare value without trailing space is read as it stands exactly when it has no edge space and is not wrapped in quotes |
| EnvFile.PaddedLine | tools/staging-env.ts:36-58 | white space around the line, the key and the quoted value is no part of them |
| EnvFile.OtherLines | tools/staging-env.ts:49-55 | a line without `=` sets its key to nothing; blank lines, comments and lines without a key set nothing |
| EnvFile.SplitAtLineFeeds | tools/staging-env.ts:49 | a text is split at its line feeds, a carriage return before one included |

## Left out

- HTTP, timeouts, abort signals, sleeping, file writes and the browser steps: replaced by functions from requests to replies; the model check in the browser is one flag of the server.
- The header and field contract of a source envelope: collapsed into one refused reply.
- LiveQa.VerifyProductionLiveQa: login, runtime status and credential checks (lines 397 to 421) are one reply, the error they end in if any; the steps of a chain check are not modelled, only what its report is compared by.
- Convergence.BoundedConvergence: the log stands still within each attempt; growth during a paged read makes that read fail, as `GrowingLog.AtomicRead` states.
- Acceptance.RunProviderAcceptance: the errors of the guards before the first post are one error, without their order; slot ids that name members of the built-in object prototype are treated as unknown.
- OperationHistory.RowIffSame: SHA-256 is any injective function; `localeCompare` is any consistent comparison of ids.
- OperationHistory.OperationRows: an operation field that is an object with its own `toString` or `valueOf` member, on which `String` throws, is read as `[object Object]`.
- JsonValue.PrintInjective: finite numbers are known by their printed text, so 0 and -0 are one number; texts are sequences of Unicode characters, without lone surrogates.
- Redaction.WithoutSecrets: the URL library and the two patterns on names are parameters.
- Redaction.RedactedParams: assumes that what the URL library prints parses to what was printed, and that a written parameter list reads back.
- Redaction.RedactUrlTwice: assumes the same of the URL library.
- Redaction.RedactionIdempotent: assumes the same of the URL library.
- ManifestTree.RenderTkeManifest: an item's metadata, data and spec are values inside the item object, which a JSON clone cannot share; shapes on which the script throws a TypeError are not modelled.
- MutatorChain.AllOrNothingIff: hooks that call on more than once, or hand on another mutation than the one they were given, are not modelled; check, defaults and specs are abstract.
- MutatorChain.TraceIsBracket: the same restriction on hooks.
- BulkCreate.BulkSave.Save: the driver's errors are reduced to constraint violations and others; hooks edit a mutation before they call on, not after.
- `createSpec` field copying, the other generated `*_create.go` files and the query, update and delete builders: each branch is settled by reading it.
- `verifyCatalog`, `fixedSlotFromState`, `assertPublicHttpsUrl`, `loadEnvFile`, `validateStagingLocalEnv`: conjunctions of field tests, or input and output.
- The server-side debit, refund and launch flow: not part of this model.
