/** The resubmit flow of the disapproved-clearance view: the update written
    back to a disapproved submission, and the modal state around it. */
module Resubmission {
  import opened Common
  import opened ClearanceTypes

  /** The storage folders a resubmission uploads into. */
  datatype Folder = RequirementsFolder | SsgAdviserFolder | PtcaTreasurerFolder | DeanFolder

  /** Storage, as seen from the handler: the download URL of a file stored
      in a folder, or `None` when the upload or the URL lookup is rejected. */
  type Storage = (Folder, string) -> Option<string>

  function InFolder(upload: Storage, folder: Folder): string -> Option<string>
  {
    f => upload(folder, f)
  }

  /** Every chosen file of every index uploads to the requirements folder. */
  predicate AllUploaded(uploads: seq<UploadSlot>, upload: Storage)
  {
    var m := SlotMap(uploads);
    forall i :: i in m ==> UploadAll(InFolder(upload, RequirementsFolder), m[i]).Some?
  }

  /** `updatedUrls`: for every uploaded index, the URLs of its files in the
      requirements folder; `None` when an upload is rejected. */
  function UploadedUrls(uploads: seq<UploadSlot>, upload: Storage): (r: Option<map<nat, seq<string>>>)
    ensures r.Some? <==> AllUploaded(uploads, upload)
    ensures r.Some? ==> r.value.Keys == SlotMap(uploads).Keys
    ensures r.Some? ==> forall i :: i in r.value ==>
              UploadAll(InFolder(upload, RequirementsFolder), SlotMap(uploads)[i]) == Some(r.value[i])
  {
    var m := SlotMap(uploads);
    if AllUploaded(uploads, upload) then
      Some(map i | i in m :: UploadAll(InFolder(upload, RequirementsFolder), m[i]).value)
    else
      None
  }

  /** `uploadedFiles[0]?.[0]`: the first file chosen for index 0, the only
      file the payment-role receipts are taken from. */
  function ReceiptFile(uploads: seq<UploadSlot>): (r: Option<string>)
    ensures r.Some? <==> 0 in SlotMap(uploads) && |SlotMap(uploads)[0]| > 0
    ensures r.Some? ==> r.value == SlotMap(uploads)[0][0]
  {
    var m := SlotMap(uploads);
    if 0 in m && |m[0]| > 0 then Some(m[0][0]) else None
  }

  /** The three receipt URLs (adviser, treasurer, dean). With a receipt file
      it is uploaded to all three folders in that order; without one all
      three stay empty. `None` when an upload is rejected. */
  datatype ReceiptUrls = ReceiptUrls(ssg: string, ptca: string, dean: string)

  function UploadReceipts(receipt: Option<string>, upload: Storage): (r: Option<ReceiptUrls>)
    ensures receipt.None? ==> r == Some(ReceiptUrls("", "", ""))
    ensures receipt.Some? ==>
              (r.Some? <==> upload(SsgAdviserFolder, receipt.value).Some?
                            && upload(PtcaTreasurerFolder, receipt.value).Some?
                            && upload(DeanFolder, receipt.value).Some?)
    ensures receipt.Some? && r.Some? ==>
              && Some(r.value.ssg) == upload(SsgAdviserFolder, receipt.value)
              && Some(r.value.ptca) == upload(PtcaTreasurerFolder, receipt.value)
              && Some(r.value.dean) == upload(DeanFolder, receipt.value)
  {
    match receipt
    case None => Some(ReceiptUrls("", "", ""))
    case Some(f) =>
      match (upload(SsgAdviserFolder, f), upload(PtcaTreasurerFolder, f), upload(DeanFolder, f))
      case (Some(s), Some(p), Some(d)) => Some(ReceiptUrls(s, p, d))
      case _ => None
  }

  /** `requirementFiles.map((file, i) => ({...file, urls: updatedUrls[i] || file.urls}))`.
      An uploaded list replaces the entry's URLs even when empty: an array is
      never falsy, only a missing index falls back. */
  function Rebuild(files: seq<RequirementFile>, updated: map<nat, seq<string>>): (r: seq<RequirementFile>)
    ensures |r| == |files|
    ensures forall i :: 0 <= i < |r| ==> r[i].requirement == files[i].requirement
    ensures forall i :: 0 <= i < |r| ==> r[i].urls == if i in updated then updated[i] else files[i].urls
  {
    seq(|files|, i requires 0 <= i < |files| =>
      RequirementFile(files[i].requirement, if i in updated then updated[i] else files[i].urls))
  }

  /** With nothing uploaded the list is written back unchanged, and two
      rebuilds are one rebuild with the later uploads winning. */
  lemma RebuildLaws(files: seq<RequirementFile>, u1: map<nat, seq<string>>, u2: map<nat, seq<string>>)
    ensures Rebuild(files, map[]) == files
    ensures Rebuild(Rebuild(files, u1), u2) == Rebuild(files, u1 + u2)
  {
    var r := Rebuild(files, map[]);
    assert forall i :: 0 <= i < |r| ==> r[i] == files[i];
  }

  /** The one role-dependent field of the update. */
  datatype RoleField =
    | DeanReceipt(url: string)
    | PtcaTreasurerReceipt(url: string)
    | SsgAdviserReceipt(url: string)
    | RequirementFilesField(files: seq<RequirementFile>)

  /** The object `handleResubmit` passes to `updateDoc`. It has no field for
      the disapproval reason, which therefore stays as it was. */
  datatype SubmissionUpdate = SubmissionUpdate(
    field: RoleField,
    status: Status,
    submittedAt: int,
    studentGcashNumber: string,
    studentAmountInput: string)

  /** The `additionalFields` chain: the role's receipt field when the role
      matches and its URL is non-empty, otherwise the rebuilt requirement list. */
  function ChooseRoleField(role: string, urls: ReceiptUrls, current: seq<RequirementFile>,
                           updated: map<nat, seq<string>>): (f: RoleField)
    ensures f.DeanReceipt? <==> role == "DEAN" && urls.dean != ""
    ensures f.PtcaTreasurerReceipt? <==> role == "PTCA TREASURER" && urls.ptca != ""
    ensures f.SsgAdviserReceipt? <==> role == "SSG ADVISER" && urls.ssg != ""
    ensures f.DeanReceipt? ==> f.url == urls.dean
    ensures f.PtcaTreasurerReceipt? ==> f.url == urls.ptca
    ensures f.SsgAdviserReceipt? ==> f.url == urls.ssg
    ensures f.RequirementFilesField? ==> f.files == Rebuild(current, updated)
  {
    if role == "DEAN" && urls.dean != "" then DeanReceipt(urls.dean)
    else if role == "PTCA TREASURER" && urls.ptca != "" then PtcaTreasurerReceipt(urls.ptca)
    else if role == "SSG ADVISER" && urls.ssg != "" then SsgAdviserReceipt(urls.ssg)
    else RequirementFilesField(Rebuild(current, updated))
  }

  /** What the resubmit modal holds when the button is pressed. */
  datatype ResubmitForm = ResubmitForm(
    selected: Option<Submission>,
    uploads: seq<UploadSlot>,
    gcashNumber: string,
    amountInput: string)

  /** `Ignored`: nothing selected or nobody signed in; the handler returns
      after switching the loading flag on and never switches it off.
      `ResubmitFailed`: an upload or the write was rejected, or the document
      has no usable id to address the write to; nothing is written and the
      submission stays disapproved. */
  datatype ResubmitOutcome = Ignored | ResubmitFailed | Updated(update: SubmissionUpdate)

  /** The document id a write can be addressed to: a missing or empty
      `submissionsUID` makes building the document reference throw. */
  predicate HasDocId(s: Submission)
  {
    s.submissionsUID.Some? && s.submissionsUID.value != ""
  }

  /** `handleResubmit`: uploads the requirement files, then the receipt to
      the three payment folders, then writes one update stamped `now` to the
      document named by the selected submission's id. `writeOk` is whether
      `updateDoc` accepts it. */
  function Resubmit(form: ResubmitForm, user: Option<string>, now: int, upload: Storage, writeOk: bool): (r: ResubmitOutcome)
    ensures r == Ignored <==> form.selected.None? || user.None?
    ensures r.Updated? ==> writeOk && HasDocId(form.selected.value) && UploadedUrls(form.uploads, upload).Some?
                           && UploadReceipts(ReceiptFile(form.uploads), upload).Some?
    ensures r.Updated? ==>
              && r.update.status == Pending
              && r.update.submittedAt == now
              && r.update.studentGcashNumber == form.gcashNumber
              && r.update.studentAmountInput == form.amountInput
    ensures r.Updated? ==>
              r.update.field == ChooseRoleField(form.selected.value.teacherDepartment,
                                                UploadReceipts(ReceiptFile(form.uploads), upload).value,
                                                form.selected.value.requirementFiles,
                                                UploadedUrls(form.uploads, upload).value)
    ensures r == ResubmitFailed <==>
              form.selected.Some? && user.Some?
              && (UploadedUrls(form.uploads, upload).None?
                  || UploadReceipts(ReceiptFile(form.uploads), upload).None?
                  || !HasDocId(form.selected.value)
                  || !writeOk)
  {
    if form.selected.None? || user.None? then Ignored
    else
      var s := form.selected.value;
      match UploadedUrls(form.uploads, upload)
      case None => ResubmitFailed
      case Some(updated) =>
        match UploadReceipts(ReceiptFile(form.uploads), upload)
        case None => ResubmitFailed
        case Some(urls) =>
          if !HasDocId(s) || !writeOk then ResubmitFailed
          else
            Updated(SubmissionUpdate(ChooseRoleField(s.teacherDepartment, urls, s.requirementFiles, updated),
                                     Pending, now, form.gcashNumber, form.amountInput))
  }

  /** The submission document after `updateDoc` merges the update in. */
  function ApplyUpdate(s: Submission, u: SubmissionUpdate): (r: Submission)
    ensures r.status == u.status && r.submittedAt == u.submittedAt
    ensures r.studentGcashNumber == Some(u.studentGcashNumber)
    ensures r.studentAmountInput == Some(u.studentAmountInput)
    ensures r.disapproveReason == s.disapproveReason
    ensures r.deanReceiptURL == (if u.field.DeanReceipt? then Some(u.field.url) else s.deanReceiptURL)
    ensures r.ptcaTreasurerReceiptURL == (if u.field.PtcaTreasurerReceipt? then Some(u.field.url) else s.ptcaTreasurerReceiptURL)
    ensures r.ssgAdviserReceiptURL == (if u.field.SsgAdviserReceipt? then Some(u.field.url) else s.ssgAdviserReceiptURL)
    ensures r.requirementFiles == (if u.field.RequirementFilesField? then u.field.files else s.requirementFiles)
    ensures r.(status := s.status, submittedAt := s.submittedAt,
               studentGcashNumber := s.studentGcashNumber, studentAmountInput := s.studentAmountInput,
               deanReceiptURL := s.deanReceiptURL, ptcaTreasurerReceiptURL := s.ptcaTreasurerReceiptURL,
               ssgAdviserReceiptURL := s.ssgAdviserReceiptURL, requirementFiles := s.requirementFiles) == s
  {
    var base := s.(status := u.status, submittedAt := u.submittedAt,
                   studentGcashNumber := Some(u.studentGcashNumber),
                   studentAmountInput := Some(u.studentAmountInput));
    match u.field
    case DeanReceipt(url) => base.(deanReceiptURL := Some(url))
    case PtcaTreasurerReceipt(url) => base.(ptcaTreasurerReceiptURL := Some(url))
    case SsgAdviserReceipt(url) => base.(ssgAdviserReceiptURL := Some(url))
    case RequirementFilesField(files) => base.(requirementFiles := files)
  }

  /** A resubmission writes exactly one of the four role fields: of the
      receipt fields and the requirement list, at most one differs after the
      write, and the status is `Pending` again. */
  lemma ResubmitWritesOneField(form: ResubmitForm, user: Option<string>, now: int, upload: Storage, writeOk: bool)
    requires Resubmit(form, user, now, upload, writeOk).Updated?
    ensures var s := form.selected.value;
            var t := ApplyUpdate(s, Resubmit(form, user, now, upload, writeOk).update);
            && t.status == Pending
            && t.disapproveReason == s.disapproveReason
            && (if t.deanReceiptURL != s.deanReceiptURL then 1 else 0)
               + (if t.ptcaTreasurerReceiptURL != s.ptcaTreasurerReceiptURL then 1 else 0)
               + (if t.ssgAdviserReceiptURL != s.ssgAdviserReceiptURL then 1 else 0)
               + (if t.requirementFiles != s.requirementFiles then 1 else 0) <= 1
  {
  }

  /** A submission document created without its id, as happens when the
      second write of a new submission is rejected, can never be
      resubmitted. */
  lemma NoIdNeverResubmitted(form: ResubmitForm, user: Option<string>, now: int, upload: Storage, writeOk: bool)
    requires form.selected.Some? && form.selected.value.submissionsUID.None?
    ensures !Resubmit(form, user, now, upload, writeOk).Updated?
  {
  }

  /** An adviser's resubmission with a receipt writes only the adviser receipt
      field; the requirement list and the other receipt fields stay. */
  lemma AdviserResubmitKeepsOtherFields(form: ResubmitForm, user: Option<string>, now: int, upload: Storage)
    requires form.selected.Some? && form.selected.value.teacherDepartment == "SSG ADVISER"
    requires Resubmit(form, user, now, upload, true).Updated?
    requires ReceiptFile(form.uploads).Some? && upload(SsgAdviserFolder, ReceiptFile(form.uploads).value) != Some("")
    ensures var s := form.selected.value;
            var t := ApplyUpdate(s, Resubmit(form, user, now, upload, true).update);
            && Some(t.ssgAdviserReceiptURL.value) == upload(SsgAdviserFolder, ReceiptFile(form.uploads).value)
            && t.ssgAdviserReceiptURL.Some?
            && t.requirementFiles == s.requirementFiles
            && t.ptcaTreasurerReceiptURL == s.ptcaTreasurerReceiptURL
            && t.deanReceiptURL == s.deanReceiptURL
  {
  }

  /** A payment role with no receipt chosen falls through to the last branch
      and writes the requirement list instead of a receipt field. */
  lemma PaymentRoleWithoutReceiptWritesRequirements(form: ResubmitForm, user: Option<string>, now: int, upload: Storage, writeOk: bool)
    requires form.selected.Some?
    requires form.selected.value.teacherDepartment in {"DEAN", "PTCA TREASURER", "SSG ADVISER"}
    requires ReceiptFile(form.uploads).None?
    requires Resubmit(form, user, now, upload, writeOk).Updated?
    ensures Resubmit(form, user, now, upload, writeOk).update.field.RequirementFilesField?
  {
  }

  /** Every file input of the four modals writes slot 0, so a resubmission
      that writes the requirement list replaces at most the first entry's
      URLs and keeps every later entry as it was. */
  lemma ModalInputsReplaceOnlyFirst(form: ResubmitForm, user: Option<string>, now: int, upload: Storage, writeOk: bool)
    requires forall k :: 0 <= k < |form.uploads| ==> form.uploads[k].index == 0
    requires Resubmit(form, user, now, upload, writeOk).Updated?
    requires Resubmit(form, user, now, upload, writeOk).update.field.RequirementFilesField?
    ensures var before := form.selected.value.requirementFiles;
            var files := Resubmit(form, user, now, upload, writeOk).update.field.files;
            |files| == |before| && forall i :: 1 <= i < |before| ==> files[i] == before[i]
  {
    SlotMapKeys(form.uploads);
  }

  // ---------------------------------------------------------------------
  // Modal state

  /** The resubmit modal's part of the view state. The receipt previews are
      `None` for `null` and `Some("")` after a reset to the empty string. */
  datatype ModalState = ModalState(
    isOpen: bool,
    selected: Option<Submission>,
    uploads: seq<UploadSlot>,
    previews: seq<UploadSlot>,
    ssgReceipt: Option<string>,
    ssgReceiptView: Option<string>,
    deanReceipt: Option<string>,
    deanReceiptView: Option<string>,
    gcashNumber: string,
    amountInput: string,
    rawAmount: string)

  function OpenModal(m: ModalState, s: Submission): (r: ModalState)
    ensures r.isOpen && r.selected == Some(s)
    ensures r.(isOpen := m.isOpen, selected := m.selected) == m
  {
    m.(isOpen := true, selected := Some(s))
  }

  /** `closeModal`: hides the modal and clears the selection, the chosen
      files, both receipts, the GCash number and the amount input. The file
      previews and the raw amount are not cleared. */
  function CloseModal(m: ModalState): (r: ModalState)
    ensures !r.isOpen && r.selected.None? && r.uploads == []
    ensures r.ssgReceipt.None? && r.deanReceipt.None?
    ensures r.ssgReceiptView == Some("") && r.deanReceiptView == Some("")
    ensures r.gcashNumber == "" && r.amountInput == ""
    ensures r.previews == m.previews && r.rawAmount == m.rawAmount
  {
    m.(isOpen := false, selected := None, uploads := [], ssgReceipt := None, ssgReceiptView := Some(""),
       deanReceipt := None, deanReceiptView := Some(""), gcashNumber := "", amountInput := "")
  }

  /** Closing twice is closing once, and opening a submission and closing it
      again without resubmitting leaves the same state as closing directly. */
  lemma CloseModalLaws(m: ModalState, s: Submission)
    ensures CloseModal(CloseModal(m)) == CloseModal(m)
    ensures CloseModal(OpenModal(m, s)) == CloseModal(m)
  {
  }

  /** `handleFileChange` of the resubmit modal: the files chosen for an
      input replace whatever that input held before; `None` stands for an
      input event without a file list, which changes nothing. */
  function ChooseFiles(m: ModalState, index: nat, files: Option<seq<string>>): (r: ModalState)
    requires SlotsAscending(m.uploads) && SlotsAscending(m.previews)
    ensures SlotsAscending(r.uploads) && SlotsAscending(r.previews)
    ensures files.None? ==> r == m
    ensures files.Some? ==> SlotMap(r.uploads) == SlotMap(m.uploads)[index := files.value]
    ensures files.Some? ==> SlotMap(r.previews) == SlotMap(m.previews)[index := files.value]
    ensures r.(uploads := m.uploads, previews := m.previews) == m
  {
    match files
    case None => m
    case Some(fs) =>
      SetSlotUpdates(m.uploads, index, fs);
      SetSlotUpdates(m.previews, index, fs);
      m.(uploads := SetSlot(m.uploads, index, fs), previews := SetSlot(m.previews, index, fs))
  }

  /** The receipt every payment role reads is the first file chosen for
      input 0, whatever was chosen there before. */
  lemma ChooseReceiptFile(m: ModalState, fs: seq<string>)
    requires SlotsAscending(m.uploads) && SlotsAscending(m.previews)
    requires |fs| > 0
    ensures ReceiptFile(ChooseFiles(m, 0, Some(fs)).uploads) == Some(fs[0])
  {
  }

  /** The modal state after a successful resubmission: closed, and the
      previews cleared as well. */
  function AfterResubmit(m: ModalState): (r: ModalState)
    ensures r.previews == [] && r.uploads == [] && !r.isOpen && r.selected.None?
    ensures r.rawAmount == m.rawAmount
  {
    CloseModal(m).(uploads := [], previews := [])
  }
}
