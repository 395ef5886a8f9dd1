# Student e-clearance: a Dafny model

This project models the student side of the e-clearance web app. Students see the
open clearances addressed to their department, course and year level. They submit a
clearance with requirement files and get a `Pending` submission. They follow their
submissions in three lists (pending, approved, disapproved), and they resubmit a
disapproved one. Resubmitting sends a receipt when the approver is a payment role
(SSG adviser, PTCA treasurer, dean) and requirement files otherwise.

The model also covers the keystroke sanitisers of the forms, the data-access helpers
for disapproved clearances, the self-contained clearance demo view, the registration
form's option lists and the login handler.

Each React view is modelled as immutable state plus pure transition functions. The
document database, file storage and authentication are parameters:
- a storage call is a function from a file name to `Option<url>` (`None` = rejected);
- a collection read is a sequence of documents, or a failure value;
- a write is a boolean saying whether it was accepted;
- server time is an integer `now`.

Modules:

| module | file | models |
|---|---|---|
| `Common` | common.dfy | `Option`, `Min`, an order-preserving `Filter` with its membership and concatenation laws |
| `ClearanceTypes` | clearance_types.dfy | statuses and their colours, the on-time/overdue rule, the submission record, the `uploadedFiles` object as ascending slots, sequential uploads |
| `InputFilters` | input_filters.dfy | student-ID formatter, GCash sanitiser, name filter and capitaliser |
| `ClearanceCatalog` | clearance_catalog.dfy | the clearance status view: catalog filter, fetch attempts, requirement display, submit form |
| `Resubmission` | resubmission.dfy | the disapproved view's resubmit handler, its role-dependent write, and its modal state |
| `SubmissionViews` | submission_views.dfy | the pending/approved/disapproved lists: fetch guard, owner and status filter, empty messages, badge |
| `StudentClearance` | student_clearance.dfy | the self-contained clearance demo view |
| `DisapprovedApi` | disapproved_api.dfy | `fetchDisapprovedClearances`, `fetchDisapprovedClearancesData`, `updateClearance` |
| `StudentAccount` | student_account.dfy | registration form option lists and the department-to-course dependency |
| `Login` | login.dfy | login submit handler and the account-type lookup |

Where the code does something easy to misread, the model follows the code:
- The approved list's on-time/overdue badge compares the submission time with the schedule date, not the approval time (`SubmissionViews.BadgeIgnoresApprovalTime`).
- A resubmission always writes `Pending`. No view writes the `Re-submit` marker.
- Submitting from the clearance status view makes two writes: it creates the submission document, then stores its id in it. It makes no write that marks the clearance as closed.
- The "at most three fetch attempts" budget holds for the three status lists when each fetch completes before the next render (`SubmissionViews.SessionReadsAtMostThree`). A render that starts a second fetch while the first is still awaited is not covered (see Left out). The budget does not hold at all for the catalog fetch of the clearance status view (see Findings).

## Model

| member | source | states |
|---|---|---|
| Common.Filter | src/components/student_clearance/pending_status/pending_status.tsx:154 | keeps only elements satisfying the predicate, never more than the input |
| Common.FilterMembership | src/components/student_clearance/pending_status/pending_status.tsx:95-98 | an element is kept exactly when it is in the input and satisfies the predicate |
| Common.FilterConcat | src/components/student_clearance/clearance_status/clearance_status.tsx:117-121 | filtering a concatenation is concatenating the filtered parts, so the input order is kept |
| Common.FilterKeepsAll | src/components/student_clearance/clearance_status/clearance_status.tsx:60 | a filter whose predicate holds everywhere returns its input |
| ClearanceTypes.ParseStatus | src/api/student_disapproved_clearance/api.tsx:5-10 | a parsed status string names the status it was parsed to |
| ClearanceTypes.ParseStatusName | src/components/student_clearance/disapproved_status/disapproved_status.tsx:7 | parsing inverts naming, so no two statuses share a stored string |
| ClearanceTypes.StatusColor | src/components/student_clearance/disapproved_status/disapproved_status.tsx:117-128 | green exactly for Approved, red exactly for Disapproved, yellow exactly for Pending, grey for the rest |
| ClearanceTypes.Classify | src/components/student_clearance/disapproved_status/disapproved_status.tsx:135-144 | overdue exactly when the schedule date parses and the submission is strictly later; an unparsable date is on time |
| ClearanceTypes.ClassifyBoundary | src/components/student_clearance/pending_status/pending_status.tsx:131-140 | submitting at the schedule instant is on time, one unit later is overdue |
| ClearanceTypes.ClassifyMonotonic | src/components/student_clearance/approved_status/approved_status.tsx:122-131 | a later submission is never less overdue |
| ClearanceTypes.UploadAll | src/components/student_clearance/disapproved_status/disapproved_status.tsx:193-200 | succeeds exactly when every file uploads, with one URL per file in file order |
| ClearanceTypes.SlotMapKeys | src/components/student_clearance/disapproved_status/disapproved_status.tsx:189 | the object's keys are exactly the slot indices |
| ClearanceTypes.SetSlot | src/components/student_clearance/disapproved_status/disapproved_status.tsx:173 | the new slot is present, every other slot came from the input, and ascending order is kept |
| ClearanceTypes.SetSlotUpdates | src/components/student_clearance/clearance_status/clearance_status.tsx:263 | setting a slot is a map update of the object the slots stand for |
| InputFilters.DigitsOnly | src/components/student_clearance/disapproved_status/disapproved_status.tsx:284-296 | the result is all digits, and an all-digit input is returned unchanged |
| InputFilters.DigitsOnlyConcat | src/components/student_clearance/clearance_status/clearance_status.tsx:60 | removing non-digits distributes over concatenation |
| InputFilters.FormatStudentId | src/components/student_clearance/clearance_status/clearance_status.tsx:59-67 | up to six digits pass as they are; beyond six a hyphen sits at position 6, all else are digits, and removing the hyphen gives back the digits up to the slice end |
| InputFilters.HyphenatedDigits | src/components/student_clearance/clearance_status/clearance_status.tsx:63 | removing the inserted hyphen (or all non-digits) from the formatted ID gives back the digit prefix |
| InputFilters.FormatStudentIdIdempotent | src/components/student_clearance/clearance_status/clearance_status.tsx:59-67 | reformatting the displayed ID leaves it unchanged |
| InputFilters.FormatStudentIdSevenDigits | src/components/student_clearance/clearance_status/clearance_status.tsx:62-63 | "1234567" is shown as "123456-7" |
| InputFilters.SanitizeGcash | src/components/student_clearance/disapproved_status/disapproved_status.tsx:275-282 | the result is the first min(n, 11) digits of the input's n digits |
| InputFilters.SanitizeGcashFixesValid | src/components/student_clearance/disapproved_status/disapproved_status.tsx:275-282 | a valid number passes unchanged, and sanitising is idempotent |
| InputFilters.UpperAscii | src/components/student_clearance/clearance_status/clearance_status.tsx:52 | lower-case ASCII letters map to their capitals, everything else is unchanged |
| InputFilters.CapitalizeFromSpec | src/components/student_clearance/clearance_status/clearance_status.tsx:50-53 | the character-level reading keeps the length and upper-cases exactly the word starts |
| InputFilters.SplitMapJoin | src/components/student_clearance/clearance_status/clearance_status.tsx:50-53 | split on spaces, capitalise each word and join is the character-level capitaliser |
| InputFilters.Capitalize | src/components/student_clearance/clearance_status/clearance_status.tsx:50-53 | same length; a character is upper-cased exactly when it starts a word |
| InputFilters.CapitalizeIdempotent | src/components/student_clearance/clearance_status/clearance_status.tsx:50-55 | capitalising twice is capitalising once |
| InputFilters.CapitalizeKeepsAccepted | src/components/student_clearance/clearance_status/clearance_status.tsx:48-55 | capitalising an accepted name keeps it accepted |
| InputFilters.HandleNameChange | src/components/student_clearance/clearance_status/clearance_status.tsx:46-57 | a rejected input keeps the stored value; an accepted one is stored capitalised |
| InputFilters.NameChangeKeepsStoredOk | src/components/student_clearance/clearance_status/clearance_status.tsx:46-57 | every keystroke keeps the stored name accepted and capitalised, and re-entering it changes nothing |
| InputFilters.CapitalizeExample | src/components/student_clearance/clearance_status/clearance_status.tsx:50-55 | "juan dela cruz" is stored as "Juan Dela Cruz" |
| ClearanceCatalog.FilterCatalog | src/components/student_clearance/clearance_status/clearance_status.tsx:117-121 | every kept clearance targets the student's department, course and level |
| ClearanceCatalog.CatalogKeepsExactly | src/components/student_clearance/clearance_status/clearance_status.tsx:115-125 | a clearance is kept exactly when it was read and addressed to the student, in read order |
| ClearanceCatalog.FetchClearancesAsWritten | src/components/student_clearance/clearance_status/clearance_status.tsx:105-143 | the code as written: a closure whose captured counter is at the budget issues no read; a first read with documents stores the filtered catalog, clears the error and ends fetching; whenever fetching ends, the catalog is the filtered last read and all earlier reads were empty or failed |
| ClearanceCatalog.AsWrittenRetriesWithoutBound | src/components/student_clearance/clearance_status/clearance_status.tsx:126-133 | as written, an empty catalog is read again on every result supplied, and the "no clearance" message is never set |
| ClearanceCatalog.AsWrittenExceedsBudget | src/components/student_clearance/clearance_status/clearance_status.tsx:70 | four empty reads are issued, more than the budget of three |
| ClearanceCatalog.FetchClearances | src/components/student_clearance/clearance_status/clearance_status.tsx:105-143 | corrected: reads plus earlier attempts never exceed three and a guarded call issues nothing; fetching ends exactly at the first read with documents, storing that read filtered with the error cleared; otherwise the catalog is unchanged |
| ClearanceCatalog.LoadedCatalogIsAddressed | src/components/student_clearance/clearance_status/clearance_status.tsx:115-125 | once loaded, the catalog holds exactly the loading read's clearances that are addressed to the student |
| ClearanceCatalog.EmptyCatalogGivesUp | src/components/student_clearance/clearance_status/clearance_status.tsx:126-132 | corrected: an empty catalog is read exactly up to the budget, then the "no clearance" message shows |
| ClearanceCatalog.FileInputs | src/components/student_clearance/clearance_status/clearance_status.tsx:371-381 | no file input exactly when requirements are absent, empty or contain "No"; otherwise one per requirement |
| ClearanceCatalog.RequirementLabel | src/components/student_clearance/clearance_status/clearance_status.tsx:216 | the label is "No" exactly when the index is past the end or the requirement is empty or "No" |
| ClearanceCatalog.BuildEntries | src/components/student_clearance/clearance_status/clearance_status.tsx:215-227 | one entry per uploaded slot, labelled and holding the slot's URLs; fails exactly when an upload fails |
| ClearanceCatalog.BuildRequirementFiles | src/components/student_clearance/clearance_status/clearance_status.tsx:205-228 | the sentinel entry when nothing was uploaded; otherwise the per-slot entries, failing when an upload fails or no requirements exist |
| ClearanceCatalog.NoRequirementsGivesSentinel | src/components/student_clearance/clearance_status/clearance_status.tsx:208-212 | a clearance showing no requirements offers no file input, so once name and ID are typed its freshly opened form can be submitted, and it submits the sentinel entry even without a requirements field |
| ClearanceCatalog.OpenForm | src/components/student_clearance/clearance_status/clearance_status.tsx:170-173 | the modal flag is set with the chosen clearance and nothing else changes; the form is on screen exactly when the clearance's teacher department is "INSTRUCTOR" (line 323) |
| ClearanceCatalog.CloseForm | src/components/student_clearance/clearance_status/clearance_status.tsx:175-182 | closing clears selection, files, previews and both error lines |
| ClearanceCatalog.ChooseFormFiles | src/components/student_clearance/clearance_status/clearance_status.tsx:261-268 | the input's slot is replaced by the chosen files, or by an empty list |
| ClearanceCatalog.ClearedInputBlocksSubmit | src/components/student_clearance/clearance_status/clearance_status.tsx:378-386 | a file input whose selection was cleared fails its `required` check, so the form cannot be submitted |
| ClearanceCatalog.HandlerKeepsClearedInput | src/components/student_clearance/clearance_status/clearance_status.tsx:208-226 | the handler itself does not reject a cleared input: run on one it would submit an entry with no URLs instead of the sentinel |
| ClearanceCatalog.Submit | src/components/student_clearance/clearance_status/clearance_status.tsx:184-259 | each outcome exactly under its condition (no selection, name/ID mismatch, failed upload or create, rejected id write); a created document is a Pending record with the profile, the clearance's teacher and the built files, carrying its id only when the second write is accepted |
| ClearanceCatalog.Feedback | src/components/student_clearance/clearance_status/clearance_status.tsx:191-255 | the modal closes exactly on full success; the error line shows on a missing selection or any failed write, even when the document was created; the field error appears exactly on a mismatch |
| Resubmission.UploadedUrls | src/components/student_clearance/disapproved_status/disapproved_status.tsx:186-202 | succeeds exactly when every slot uploads; same indices as the object, each with its files' URLs |
| Resubmission.ReceiptFile | src/components/student_clearance/disapproved_status/disapproved_status.tsx:205-207 | the receipt is the first file of slot 0, when there is one |
| Resubmission.UploadReceipts | src/components/student_clearance/disapproved_status/disapproved_status.tsx:209-235 | with no receipt all three URLs are empty; with one it is uploaded to all three folders, failing if any upload fails |
| Resubmission.Rebuild | src/components/student_clearance/disapproved_status/disapproved_status.tsx:247-250 | same length and labels; an entry's URLs are replaced exactly when its index was uploaded |
| Resubmission.RebuildLaws | src/components/student_clearance/disapproved_status/disapproved_status.tsx:247-250 | no uploads rebuild to the same list; two rebuilds are one rebuild with the later uploads winning |
| Resubmission.ChooseRoleField | src/components/student_clearance/disapproved_status/disapproved_status.tsx:240-251 | the role's receipt field exactly when the role matches and its URL is non-empty; otherwise the rebuilt requirement list |
| Resubmission.Resubmit | src/components/student_clearance/disapproved_status/disapproved_status.tsx:181-272 | ignored exactly without selection or user; fails exactly when an upload or the write fails or the document has no usable id (missing or empty); otherwise writes Pending, `now`, the payment inputs and the role field |
| Resubmission.NoIdNeverResubmitted | src/components/student_clearance/disapproved_status/disapproved_status.tsx:254 | a submission document created without its id can never be resubmitted |
| Resubmission.ApplyUpdate | src/components/student_clearance/disapproved_status/disapproved_status.tsx:254-261 | the written fields take the update's values, the disapproval reason and every other field keep theirs |
| Resubmission.ResubmitWritesOneField | src/components/student_clearance/disapproved_status/disapproved_status.tsx:238-261 | a resubmission makes the status Pending, keeps the reason, and changes at most one of the four role fields |
| Resubmission.AdviserResubmitKeepsOtherFields | src/components/student_clearance/disapproved_status/disapproved_status.tsx:244-245 | an adviser resubmission with a receipt writes only the adviser receipt |
| Resubmission.PaymentRoleWithoutReceiptWritesRequirements | src/components/student_clearance/disapproved_status/disapproved_status.tsx:240-251 | a payment role with no receipt chosen writes the requirement list |
| Resubmission.ModalInputsReplaceOnlyFirst | src/components/student_clearance/disapproved_status/disapproved_status.tsx:384 | with every input on slot 0, only the first requirement's URLs can change |
| Resubmission.OpenModal | src/components/student_clearance/disapproved_status/disapproved_status.tsx:146-149 | the modal shows the chosen submission and nothing else changes |
| Resubmission.CloseModal | src/components/student_clearance/disapproved_status/disapproved_status.tsx:151-162 | closing clears selection, files, receipts and payment inputs, sets receipt views to "", and keeps previews and the raw amount |
| Resubmission.CloseModalLaws | src/components/student_clearance/disapproved_status/disapproved_status.tsx:146-162 | closing is idempotent, and opening then closing equals closing |
| Resubmission.ChooseFiles | src/components/student_clearance/disapproved_status/disapproved_status.tsx:169-179 | an event with files replaces that slot; an event without files changes nothing |
| Resubmission.ChooseReceiptFile | src/components/student_clearance/disapproved_status/disapproved_status.tsx:205 | after choosing files for input 0 the receipt is the first of them |
| Resubmission.AfterResubmit | src/components/student_clearance/disapproved_status/disapproved_status.tsx:264-266 | after a successful resubmission the modal is closed and files and previews are cleared |
| SubmissionViews.TargetStatusInjective | src/components/student_clearance/approved_status/approved_status.tsx:145 | each view lists a different status |
| SubmissionViews.EmptyMessage | src/components/student_clearance/disapproved_status/disapproved_status.tsx:164-167 | pending shows "No Pending Clearance yet."; approved and disapproved show "No Approved Clearance yet." |
| SubmissionViews.Fetch | src/components/student_clearance/pending_status/pending_status.tsx:50-107 | a guarded call changes nothing; otherwise attempts rise by one, and each outcome sets its message, data and end-of-data flag |
| SubmissionViews.FetchKeepsOwnSubmissions | src/components/student_clearance/pending_status/pending_status.tsx:94-99 | after a signed-in fetch the data holds exactly that student's submissions |
| SubmissionViews.Listed | src/components/student_clearance/pending_status/pending_status.tsx:154 | every listed submission has the view's status |
| SubmissionViews.ListedAfterFetch | src/components/student_clearance/approved_status/approved_status.tsx:85-90 | a fetched submission is listed exactly when it is the student's and has the view's status |
| SubmissionViews.ViewsDisjoint | src/components/student_clearance/disapproved_status/disapproved_status.tsx:164 | no submission is listed by two views |
| SubmissionViews.EmptyListRule | src/components/student_clearance/approved_status/approved_status.tsx:145-148 | with nothing listed and no message, the view's empty message is set; nothing else changes |
| SubmissionViews.Render | src/components/student_clearance/approved_status/approved_status.tsx:100-102 | a render fetches exactly when a user is signed in, attempts are below three and the data is empty |
| SubmissionViews.SessionReadsAtMostThree | src/components/student_clearance/disapproved_status/disapproved_status.tsx:57-115 | over any number of renders, reads equal the attempt increase and attempts never pass three |
| SubmissionViews.EmptyCollectionReadOnce | src/components/student_clearance/pending_status/pending_status.tsx:86-88 | an empty collection is read once; afterwards no render reads and the message stays |
| SubmissionViews.Badge | src/components/student_clearance/disapproved_status/disapproved_status.tsx:305-328 | no badge in the disapproved view; elsewhere overdue exactly when submitted after a parsable schedule date |
| SubmissionViews.BadgeIgnoresApprovalTime | src/components/student_clearance/approved_status/approved_status.tsx:170 | the approved badge does not depend on the approval time |
| StudentClearance.ClickModal | src/components/student_clearance/student_clearance/student_clearance.tsx:115-120 | selects and opens with both messages cleared, the list unchanged |
| StudentClearance.HandleFileChange | src/components/student_clearance/student_clearance/student_clearance.tsx:105-113 | appends the file to the chosen requirement only; no file, no selection or a bad index change nothing |
| StudentClearance.AttachKeepsProvided | src/components/student_clearance/student_clearance/student_clearance.tsx:122-125 | attaching never withdraws permission to submit |
| StudentClearance.AttachEachProvides | src/components/student_clearance/student_clearance/student_clearance.tsx:105-125 | attaching one file per requirement permits submission |
| StudentClearance.AttachEachFrom | src/components/student_clearance/student_clearance/student_clearance.tsx:105-125 | the induction step: attaching from an index on completes the attachments |
| StudentClearance.MarkPending | src/components/student_clearance/student_clearance/student_clearance.tsx:139-145 | only clearances of the instructor change: to Pending, with the given requirements if any |
| StudentClearance.HandleSubmit | src/components/student_clearance/student_clearance/student_clearance.tsx:127-157 | missing attachments only set the error; otherwise the instructor's clearances become Pending with the submitted requirements and the modal closes |
| StudentClearance.HandleReSubmit | src/components/student_clearance/student_clearance/student_clearance.tsx:159-174 | with a selection the instructor's clearances become Pending, requirements kept; without one nothing changes |
| StudentClearance.ModalButtons | src/components/student_clearance/student_clearance/student_clearance.tsx:189-231 | Submit exactly for None, Re-submit exactly for Disapproved, disabled exactly when attachments are missing or loading |
| StudentClearance.SubmitRemovesActions | src/components/student_clearance/student_clearance/student_clearance.tsx:138-157 | after a submit no action button remains, and the instructor's clearances are Pending with the submitted files |
| StudentClearance.Sections | src/components/student_clearance/student_clearance/student_clearance.tsx:267-286 | signature only when Approved; requirements unless Approved; reason only when Disapproved; file inputs unless Approved or Pending |
| StudentClearance.InitialActions | src/components/student_clearance/student_clearance/student_clearance.tsx:30-83 | of the four demo clearances the first offers Re-submit, the second Submit, both disabled; the others offer nothing |
| DisapprovedApi.PendingNotInEnum | src/api/student_disapproved_clearance/api.tsx:5-10 | the API enum lacks "Pending" but has "None" |
| DisapprovedApi.StatusMap | src/api/student_disapproved_clearance/api.tsx:59-64 | every read clearance id has an entry |
| DisapprovedApi.StatusMapIsLastStatus | src/api/student_disapproved_clearance/api.tsx:61-64 | the status object agrees with the last submission read for each id |
| DisapprovedApi.EffectiveStatus | src/api/student_disapproved_clearance/api.tsx:71 | for any id the store issues: a status other than "None" is the stored one; a missing entry, a missing field or "" reads as "None" |
| DisapprovedApi.FetchDisapprovedClearances | src/api/student_disapproved_clearance/api.tsx:43-89 | empty without a user or after a failed read; otherwise one entry per clearance carrying the status of the student's last submission for it, "None" when there is none or it is missing or empty |
| DisapprovedApi.ListedStatusMeansSubmitted | src/api/student_disapproved_clearance/api.tsx:53-81 | a listed status other than "None" comes from that student's own submission |
| DisapprovedApi.LastStatusMember | src/api/student_disapproved_clearance/api.tsx:61-64 | a found last status belongs to a submission that was read |
| DisapprovedApi.FirstMatch | src/api/student_disapproved_clearance/api.tsx:100-101 | none exactly when no document matches; otherwise the first matching one |
| DisapprovedApi.FetchDisapprovedClearancesData | src/api/student_disapproved_clearance/api.tsx:91-112 | none on failure or no match; otherwise the data of the first matching submission |
| DisapprovedApi.LookupIgnoresStudent | src/api/student_disapproved_clearance/api.tsx:93-96 | another student's earlier submission for the clearance is returned |
| DisapprovedApi.UpdateClearance | src/api/student_disapproved_clearance/api.tsx:113-151 | rejects exactly when the query read rejects; throws not-found exactly when no document matches; rejects when a given receipt fails to upload; otherwise writes the first match with status Pending and the receipt URL when a receipt is given, other fields as passed |
| DisapprovedApi.NoDataToUpdateUnreachable | src/api/student_disapproved_clearance/api.tsx:137-141 | the empty-payload error can never be raised, for any input |
| StudentAccount.CoursesFor | src/components/create_student_account/create_student_form/create_student_account.tsx:15-20 | the four departments have courses; the select's empty choice and any other department name have none |
| StudentAccount.CoursesMatchDepartments | src/components/create_student_account/create_student_form/create_student_account.tsx:15-20 | a course is listed under a department exactly when the reverse table assigns it there |
| StudentAccount.CoursesMatchEveryCourse | src/components/create_student_account/create_student_form/create_student_account.tsx:15-20 | the same for every course at once |
| StudentAccount.DepartmentChange | src/components/create_student_account/create_student_form/create_student_account.tsx:31-35 | the course options are exactly the chosen department's courses |
| StudentAccount.LastDepartmentWins | src/components/create_student_account/create_student_form/create_student_account.tsx:31-35 | the options depend only on the last department chosen |
| Login.AuthErrorMessage | src/components/form/login.tsx:40-48 | each message exactly for its error code, the fallback for all others |
| Login.LoginTypeOf | src/api/login/login.tsx:4-13 | null exactly without a users document, undefined exactly without a department, the department otherwise, none when the read throws |
| Login.HandleLogin | src/components/form/login.tsx:20-52 | navigates home exactly after a sign-in with an id whose type is null or undefined; errors exactly on rejection or failed lookup; never loading afterwards |
| Login.DepartmentAccountsStayOut | src/components/form/login.tsx:29-38 | an account with a department never reaches the home page |

## Left out

- Storage paths, file contents, preview object URLs and download URLs: uploads are a function from file name to optional URL, so the per-user and per-teacher path strings are not modelled.
- `fetchUserData` (clearance_status.tsx:76-103): the lookup of the student's profile. The model takes the profile as an input.
- `Date` parsing and `toLocaleString` formatting: timestamps are integers, and a schedule date is an optional integer (absent means an invalid date).
- The amount field's thousands-separator formatting (disapproved_status.tsx:291-297). Only its digit filter is modelled, as `InputFilters.DigitsOnly`.
- SubmissionViews.SessionReadsAtMostThree: assumes each fetch completes before the next render. In the views, the render that sets the empty-list message can start a second read while the first is still awaited, because the attempt counter only moves once the read finishes. When the collection holds none of the student's documents, each finished read clears the message and the pattern repeats, so more than three reads can be issued. Concurrent renders are not modelled.
- Toasts, routing, the `setTimeout` delay of the demo submit, `html2canvas` download, console logging and all markup outside the conditions listed in the table.
- The teacher-side state the pending and approved views keep but never use (`loadingDisapprove`, `showDisapproveField`, `disapproveReason`).
- StudentClearance.HandleFileChange: the source pushes into an attachments array it shares with the clearance list, so the list entry also gains the file before any submit. The model has value semantics and does not reproduce this aliasing.
- DisapprovedApi.UpdateClearance: the source also writes the receipt URL into the caller's own object. That side effect is not modelled.
- StudentAccount.CoursesFor: `courses[department] || []` looks the key up in a plain object, where an inherited name such as `"constructor"` yields a truthy value. The model treats such names as unknown departments, and the department select never offers one.
- DisapprovedApi.EffectiveStatus: `statuses[id] || 'None'` has the same lookup, and the model likewise treats inherited names as absent keys. The store's document ids are never such names.
- ClearanceCatalog.Submit: takes the typed inputs as given, without the browser's validation in front of it. That a form exists only for an instructor's clearance is stated by `FormShown` in `OpenForm`. That the `required` name, ID and file inputs must hold something is stated by `FormReady`. Neither is a precondition, since the handler itself checks neither.
- ClearanceCatalog.CatalogState and ClearanceCatalog.FormModal: the view keeps one `error` line, written by both the catalog fetch and the submit form. A submit error also hides the clearance list, and closing the form clears a fetch message too. The model keeps the fetch's value and the form's value in separate fields, so this interaction is not modelled.
- `getLoginType` returns `'student'` when an existing document has no data. The store never does this, so that branch is not modelled.
- Resubmission.Resubmit: the loading flag is not part of the outcome. When the handler returns early (`Ignored`) it leaves the flag on, and it switches the flag off on every other path.
- The `features/` presentation wrappers, page components, sidebar and buttons hold no logic of their own and are not part of this model.

## Findings

| source | as written | input that shows it | evidently intended | confidence | as-written member | corrected member |
|---|---|---|---|---|---|---|
| src/components/student_clearance/clearance_status/clearance_status.tsx:105-143 | On an empty or failed read, `fetchClearances` retries by calling itself. The call goes through the same closure, so its guard and its `fetchAttempts < MAX_ATTEMPTS` test keep reading the count captured at the first call. That count never reaches 3. | A `clearances` collection that stays empty: four (or any number of) reads are issued, and "No available clearance yet." is never shown | at most three reads, then the message | not executed | ClearanceCatalog.FetchClearancesAsWritten, ClearanceCatalog.AsWrittenRetriesWithoutBound, ClearanceCatalog.AsWrittenExceedsBudget | ClearanceCatalog.FetchClearances, ClearanceCatalog.EmptyCatalogGivesUp |
