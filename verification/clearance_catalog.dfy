/** The open-clearance catalog and the submit form of the clearance status
    view: which clearances a student sees, how often the catalog is read,
    and what a new submission holds. */
module ClearanceCatalog {
  import opened Common
  import opened ClearanceTypes

  /** A `clearances` document as the view reads it. `requirements` is `None`
      when the document has no requirements field. */
  datatype Clearance = Clearance(
    id: string,
    teacherName: string,
    teacherDepartment: string,
    selectedDepartment: string,
    selectedCourse: string,
    selectedLevel: string,
    scheduleDate: string,
    requirements: Option<seq<string>>,
    teacherUID: string,
    clearanceUID: string)

  /** The stored profile of the signed-in student (`users` document). */
  datatype Profile = Profile(
    studentName: string,
    studentID: string,
    department: string,
    course: string,
    level: string)

  // ---------------------------------------------------------------------
  // Catalog filter

  /** The clearance targets the student's department, course and level. */
  predicate AddressedTo(c: Clearance, p: Profile)
  {
    c.selectedDepartment == p.department && c.selectedCourse == p.course && c.selectedLevel == p.level
  }

  /** The clearances of `docs` addressed to the student, in document order. */
  function FilterCatalog(docs: seq<Clearance>, p: Profile): (r: seq<Clearance>)
    ensures |r| <= |docs|
    ensures forall i :: 0 <= i < |r| ==> AddressedTo(r[i], p)
  {
    Filter((c: Clearance) => AddressedTo(c, p), docs)
  }

  /** The catalog keeps exactly the clearances addressed to the student, and
      keeps them in the order they were read. */
  lemma CatalogKeepsExactly(docs: seq<Clearance>, more: seq<Clearance>, p: Profile)
    ensures forall c :: c in FilterCatalog(docs, p) <==> c in docs && AddressedTo(c, p)
    ensures FilterCatalog(docs + more, p) == FilterCatalog(docs, p) + FilterCatalog(more, p)
  {
    FilterMembership((c: Clearance) => AddressedTo(c, p), docs);
    FilterConcat((c: Clearance) => AddressedTo(c, p), docs, more);
  }

  // ---------------------------------------------------------------------
  // Fetch attempts

  /** The fetch-attempt budget of the view. */
  const MaxAttempts := 3

  const NoClearanceYet := "No available clearance yet."
  const CatalogReadError := "Error fetching data. Please try again later."

  /** The result of one read of the `clearances` collection. */
  datatype CatalogRead = Snapshot(docs: seq<Clearance>) | ReadFailed

  /** The fetch's part of the view state. The view keeps a single `error`
      line, which the submit form writes too (`FormModal.error`); the model
      keeps the two writers' values apart. */
  datatype CatalogState = CatalogState(
    clearances: seq<Clearance>,
    error: Option<string>,
    attempts: nat,
    noMoreData: bool)

  /** A read that returned at least one clearance document. */
  predicate NonEmpty(read: CatalogRead)
  {
    read.Snapshot? && |read.docs| > 0
  }

  /** The state a successful, non-empty read leaves behind. */
  function Loaded(st: CatalogState, docs: seq<Clearance>, p: Profile): CatalogState
  {
    st.(clearances := FilterCatalog(docs, p), error := None, noMoreData := true)
  }

  /** `fetchClearances` as written. The retry is a call of the same closure,
      so its guard and its bound test keep reading `seenAttempts` and
      `seenNoMoreData`, the values captured when the closure was made, while
      the live counter `st.attempts` grows. `results` are the successive
      results of the collection read; the run stops when they run out.
      Returns the final state and the number of reads issued. */
  function FetchClearancesAsWritten(seenAttempts: nat, seenNoMoreData: bool, st: CatalogState,
                                    p: Profile, results: seq<CatalogRead>): (r: (CatalogState, nat))
    ensures r.1 <= |results|
    ensures seenAttempts >= MaxAttempts || seenNoMoreData ==> r == (st, 0)
    ensures seenAttempts < MaxAttempts && !seenNoMoreData && |results| > 0 && NonEmpty(results[0]) ==>
              && r.1 == 1
              && r.0.clearances == FilterCatalog(results[0].docs, p)
              && r.0.error.None? && r.0.noMoreData && r.0.attempts == st.attempts
    ensures !st.noMoreData && r.0.noMoreData ==>
              && 0 < r.1
              && NonEmpty(results[r.1 - 1])
              && r.0.clearances == FilterCatalog(results[r.1 - 1].docs, p)
              && r.0.error.None?
              && forall k :: 0 <= k < r.1 - 1 ==> !NonEmpty(results[k])
    ensures !st.noMoreData && !r.0.noMoreData ==>
              r.0.clearances == st.clearances && forall k :: 0 <= k < r.1 ==> !NonEmpty(results[k])
    decreases |results|
  {
    if seenAttempts >= MaxAttempts || seenNoMoreData || |results| == 0 then (st, 0)
    else if NonEmpty(results[0]) then (Loaded(st, results[0].docs, p), 1)
    else
      var st1 := st.(attempts := st.attempts + 1);
      var gaveUp: (CatalogState, nat) := (st1.(error := Some(if results[0].Snapshot? then NoClearanceYet else CatalogReadError)), 1);
      if seenAttempts < MaxAttempts then
        var next := FetchClearancesAsWritten(seenAttempts, seenNoMoreData, st1, p, results[1..]);
        (next.0, next.1 + 1)
      else
        gaveUp
  }

  /** As written, an empty catalog is read again and again: every scripted
      read is issued, and the "no clearance" message is never set. */
  lemma {:induction false} AsWrittenRetriesWithoutBound(seenAttempts: nat, st: CatalogState, p: Profile, results: seq<CatalogRead>)
    requires seenAttempts < MaxAttempts
    requires forall k :: 0 <= k < |results| ==> results[k] == Snapshot([])
    ensures FetchClearancesAsWritten(seenAttempts, false, st, p, results).1 == |results|
    ensures FetchClearancesAsWritten(seenAttempts, false, st, p, results).0.error == st.error
    ensures FetchClearancesAsWritten(seenAttempts, false, st, p, results).0.attempts == st.attempts + |results|
    decreases |results|
  {
    if |results| > 0 {
      AsWrittenRetriesWithoutBound(seenAttempts, st.(attempts := st.attempts + 1), p, results[1..]);
    }
  }

  /** Four empty reads: four fetches, beyond the budget of three. */
  lemma AsWrittenExceedsBudget(st: CatalogState, p: Profile)
    ensures FetchClearancesAsWritten(0, false, st, p, [Snapshot([]), Snapshot([]), Snapshot([]), Snapshot([])]).1 == 4 > MaxAttempts
  {
    AsWrittenRetriesWithoutBound(0, st, p, [Snapshot([]), Snapshot([]), Snapshot([]), Snapshot([])]);
  }

  /** `fetchClearances` with its guard and its bound test reading the live
      counter, as the budget of three attempts intends. */
  function FetchClearances(st: CatalogState, p: Profile, results: seq<CatalogRead>): (r: (CatalogState, nat))
    ensures r.1 <= |results|
    ensures st.attempts <= MaxAttempts ==> r.1 + st.attempts <= MaxAttempts
    ensures st.attempts >= MaxAttempts || st.noMoreData ==> r == (st, 0)
    ensures r.0.noMoreData ==> st.noMoreData || r.0.error.None?
    ensures st.attempts < MaxAttempts && !st.noMoreData && |results| > 0 && NonEmpty(results[0]) ==>
              && r.1 == 1
              && r.0.clearances == FilterCatalog(results[0].docs, p)
              && r.0.error.None? && r.0.noMoreData && r.0.attempts == st.attempts
    ensures !st.noMoreData && r.0.noMoreData ==>
              && 0 < r.1
              && NonEmpty(results[r.1 - 1])
              && r.0.clearances == FilterCatalog(results[r.1 - 1].docs, p)
              && forall k :: 0 <= k < r.1 - 1 ==> !NonEmpty(results[k])
    ensures r.0.noMoreData == st.noMoreData ==>
              r.0.clearances == st.clearances && forall k :: 0 <= k < r.1 ==> !NonEmpty(results[k])
    decreases |results|
  {
    if st.attempts >= MaxAttempts || st.noMoreData || |results| == 0 then (st, 0)
    else if NonEmpty(results[0]) then (Loaded(st, results[0].docs, p), 1)
    else
      var st1 := st.(attempts := st.attempts + 1);
      if st1.attempts < MaxAttempts then
        var next := FetchClearances(st1, p, results[1..]);
        (next.0, next.1 + 1)
      else
        (st1.(error := Some(if results[0].Snapshot? then NoClearanceYet else CatalogReadError)), 1)
  }

  /** A fetch that loads the catalog shows exactly the clearances of the
      read that loaded it that are addressed to the student. */
  lemma LoadedCatalogIsAddressed(st: CatalogState, p: Profile, results: seq<CatalogRead>)
    requires !st.noMoreData
    ensures var r := FetchClearances(st, p, results);
            r.0.noMoreData ==>
              forall c :: c in r.0.clearances <==> c in results[r.1 - 1].docs && AddressedTo(c, p)
  {
    var r := FetchClearances(st, p, results);
    if r.0.noMoreData {
      CatalogKeepsExactly(results[r.1 - 1].docs, [], p);
    }
  }

  /** With the live counter, a catalog that stays empty is read exactly three
      times from a fresh view, and then the "no clearance" message shows. */
  lemma {:induction false} EmptyCatalogGivesUp(st: CatalogState, p: Profile, results: seq<CatalogRead>)
    requires st.attempts < MaxAttempts && !st.noMoreData
    requires |results| >= MaxAttempts - st.attempts
    requires forall k :: 0 <= k < |results| ==> results[k] == Snapshot([])
    ensures FetchClearances(st, p, results).1 == MaxAttempts - st.attempts
    ensures FetchClearances(st, p, results).0.error == Some(NoClearanceYet)
    ensures FetchClearances(st, p, results).0.attempts == MaxAttempts
    decreases MaxAttempts - st.attempts
  {
    if st.attempts + 1 < MaxAttempts {
      EmptyCatalogGivesUp(st.(attempts := st.attempts + 1), p, results[1..]);
    }
  }

  // ---------------------------------------------------------------------
  // Requirements display

  /** The form shows "No requirements are required." instead of file inputs:
      requirements absent, empty, or containing the sentinel `"No"`. */
  predicate NoRequirementsShown(reqs: Option<seq<string>>)
  {
    reqs.None? || |reqs.value| == 0 || "No" in reqs.value
  }

  /** The requirement indices that get a file input in the form. */
  function FileInputs(reqs: Option<seq<string>>): (r: seq<nat>)
    ensures |r| == 0 <==> NoRequirementsShown(reqs)
    ensures !NoRequirementsShown(reqs) ==> |r| == |reqs.value| && forall i :: 0 <= i < |r| ==> r[i] == i
  {
    if NoRequirementsShown(reqs) then [] else seq(|reqs.value|, i requires 0 <= i => i as nat)
  }

  // ---------------------------------------------------------------------
  // Submission

  /** `requirements[index] || "No"`: the label of an uploaded slot; an index
      past the end or an empty label results as `"No"`. */
  function RequirementLabel(reqs: seq<string>, index: nat): (name: string)
    ensures name == "No" <==> index >= |reqs| || reqs[index] == "" || reqs[index] == "No"
    ensures name != "No" ==> index < |reqs| && name == reqs[index]
  {
    if index < |reqs| && reqs[index] != "" then reqs[index] else "No"
  }

  function BuildEntries(reqs: seq<string>, uploads: seq<UploadSlot>, upload: string -> Option<string>): (r: Option<seq<RequirementFile>>)
    ensures r.Some? <==> forall k :: 0 <= k < |uploads| ==> UploadAll(upload, uploads[k].files).Some?
    ensures r.Some? ==> |r.value| == |uploads|
    ensures r.Some? ==> forall k :: 0 <= k < |uploads| ==>
              r.value[k].requirement == RequirementLabel(reqs, uploads[k].index)
              && UploadAll(upload, uploads[k].files) == Some(r.value[k].urls)
  {
    if |uploads| == 0 then Some([])
    else
      match UploadAll(upload, uploads[0].files)
      case None => None
      case Some(urls) =>
        match BuildEntries(reqs, uploads[1..], upload)
        case None => None
        case Some(rest) => Some([RequirementFile(RequirementLabel(reqs, uploads[0].index), urls)] + rest)
  }

  /** The `requirementFiles` list of a new submission. With nothing uploaded it
      is the single sentinel entry; otherwise one entry per uploaded slot, in
      slot order. `None` is a thrown error: an upload was rejected, or the
      clearance has no requirements field to index. */
  function BuildRequirementFiles(reqs: Option<seq<string>>, uploads: seq<UploadSlot>,
                                 upload: string -> Option<string>): (r: Option<seq<RequirementFile>>)
    ensures |uploads| == 0 ==> r == Some([RequirementFile("No", [])])
    ensures |uploads| > 0 ==>
              (r.Some? <==> reqs.Some? && forall k :: 0 <= k < |uploads| ==> UploadAll(upload, uploads[k].files).Some?)
    ensures |uploads| > 0 && r.Some? ==> |r.value| == |uploads|
    ensures |uploads| > 0 && r.Some? ==> forall k :: 0 <= k < |uploads| ==>
              r.value[k].requirement == RequirementLabel(reqs.value, uploads[k].index)
              && UploadAll(upload, uploads[k].files) == Some(r.value[k].urls)
  {
    if |uploads| == 0 then Some([RequirementFile("No", [])])
    else
      match reqs
      case None => None
      case Some(rs) => BuildEntries(rs, uploads, upload)
  }

  /** The submit modal's part of the view state. Its `error` is the same
      view-wide line the catalog fetch writes (`CatalogState.error`). */
  datatype FormModal = FormModal(
    visible: bool,
    selected: Option<Clearance>,
    uploads: seq<UploadSlot>,
    previews: seq<UploadSlot>,
    error: Option<string>,
    errorCondition: Option<string>)

  /** Clearances of this teacher department get the submit form. */
  const InstructorDepartment := "INSTRUCTOR"

  /** The form is on screen: the modal flag is set and the selected
      clearance comes from an instructor. For any other clearance the flag is
      set but nothing renders, so its form cannot be filled in or submitted. */
  predicate FormShown(m: FormModal)
  {
    m.visible && m.selected.Some? && m.selected.value.teacherDepartment == InstructorDepartment
  }

  function OpenForm(m: FormModal, c: Clearance): (r: FormModal)
    ensures r.visible && r.selected == Some(c)
    ensures FormShown(r) <==> c.teacherDepartment == InstructorDepartment
    ensures r.(visible := m.visible, selected := m.selected) == m
  {
    m.(visible := true, selected := Some(c))
  }

  /** `closeModal`: hides the modal and clears the selection, the chosen
      files, their previews and both error lines. */
  function CloseForm(m: FormModal): (r: FormModal)
    ensures !r.visible && !FormShown(r) && r.selected.None? && r.uploads == [] && r.previews == []
    ensures r.error.None? && r.errorCondition.None?
  {
    FormModal(false, None, [], [], None, None)
  }

  /** The browser lets the form be submitted: the name and ID fields and
      every shown file input are `required`, so each must hold something. A
      file input holds the files last chosen for it. */
  predicate FormReady(c: Clearance, nameInput: string, idInput: string, uploads: seq<UploadSlot>)
  {
    && nameInput != "" && idInput != ""
    && forall i :: i in FileInputs(c.requirements) ==> i in SlotMap(uploads) && |SlotMap(uploads)[i]| > 0
  }

  /** A form that shows the "no requirements" message has no file input, so
      once name and ID are typed nothing blocks a freshly opened form, and it
      submits the sentinel entry, even for a clearance without a requirements
      field. */
  lemma NoRequirementsGivesSentinel(m: FormModal, c: Clearance, name: string, id: string,
                                    upload: string -> Option<string>)
    requires NoRequirementsShown(c.requirements)
    requires name != "" && id != ""
    ensures FileInputs(c.requirements) == []
    ensures FormReady(c, name, id, OpenForm(CloseForm(m), c).uploads)
    ensures BuildRequirementFiles(c.requirements, OpenForm(CloseForm(m), c).uploads, upload)
              == Some([RequirementFile("No", [])])
  {
  }

  /** `handleFilesChange`: the files chosen for an input replace that
      input's slot; an event without a file list stores an empty list. */
  function ChooseFormFiles(m: FormModal, index: nat, files: Option<seq<string>>): (r: FormModal)
    requires SlotsAscending(m.uploads) && SlotsAscending(m.previews)
    ensures SlotsAscending(r.uploads) && SlotsAscending(r.previews)
    ensures SlotMap(r.uploads) == SlotMap(m.uploads)[index := files.GetOr([])]
    ensures SlotMap(r.previews) == SlotMap(m.previews)[index := files.GetOr([])]
    ensures r.(uploads := m.uploads, previews := m.previews) == m
  {
    var fs := files.GetOr([]);
    SetSlotUpdates(m.uploads, index, fs);
    SetSlotUpdates(m.previews, index, fs);
    m.(uploads := SetSlot(m.uploads, index, fs), previews := SetSlot(m.previews, index, fs))
  }

  /** An input whose selection was cleared blocks the submit: its `required`
      check fails, so the handler does not run. */
  lemma ClearedInputBlocksSubmit(m: FormModal, c: Clearance, name: string, id: string)
    requires !NoRequirementsShown(c.requirements)
    ensures !FormReady(c, name, id, ChooseFormFiles(OpenForm(CloseForm(m), c), 0, Some([])).uploads)
  {
    var f := ChooseFormFiles(OpenForm(CloseForm(m), c), 0, Some([]));
    assert FileInputs(c.requirements)[0] == 0;
    assert SlotMap(f.uploads)[0] == [];
  }

  /** The handler itself does not check for empty inputs: run on a cleared
      input it would still count the input as uploaded, with an entry that has
      no URLs instead of the sentinel entry. Only the browser's validation
      keeps this from happening (`ClearedInputBlocksSubmit`). */
  lemma HandlerKeepsClearedInput(m: FormModal, c: Clearance, reqs: seq<string>, upload: string -> Option<string>)
    requires c.requirements == Some(reqs)
    ensures var f := ChooseFormFiles(OpenForm(CloseForm(m), c), 0, Some([]));
            BuildRequirementFiles(c.requirements, f.uploads, upload) == Some([RequirementFile(RequirementLabel(reqs, 0), [])])
  {
    var f := ChooseFormFiles(OpenForm(CloseForm(m), c), 0, Some([]));
    assert f.uploads == [UploadSlot(0, [])];
    assert UploadAll(upload, []) == Some([]);
    var b := BuildRequirementFiles(c.requirements, f.uploads, upload);
    assert b.value == [RequirementFile(RequirementLabel(reqs, 0), [])];
  }

  /** The inputs of the submit form. */
  datatype SubmitForm = SubmitForm(
    selected: Option<Clearance>,
    nameInput: string,
    idInput: string,
    uploads: seq<UploadSlot>)

  /** The `studentSubmissions` document `handleSubmit` creates. */
  datatype NewSubmission = NewSubmission(
    studentName: string,
    studentID: string,
    userDepartment: string,
    userCourse: string,
    userLevel: string,
    status: Status,
    studentUID: string,
    teacherUID: string,
    clearanceUID: string,
    submittedAt: int,
    requirementFiles: seq<RequirementFile>,
    submissionsUID: Option<string>)

  datatype SubmitOutcome =
    | NoClearanceSelected
    | IdentityMismatch
    | SubmissionFailed
    | CreatedWithoutId(record: NewSubmission)
    | Submitted(record: NewSubmission)

  /** `handleSubmit`: checks the selection, then the typed name and ID against
      the stored profile (exact, case-sensitive), before any upload; then
      uploads, builds the requirement list and creates a `Pending` document
      stamped with the server time `now`, and finally writes the new
      document's id `newId` into it. `createOk` and `idWriteOk` say whether
      those two writes are accepted. When only the second is rejected the
      document stays, without its id, and the error is shown all the same. */
  function Submit(form: SubmitForm, p: Profile, uid: string, now: int, upload: string -> Option<string>,
                  createOk: bool, idWriteOk: bool, newId: string): (r: SubmitOutcome)
    ensures r == NoClearanceSelected <==> form.selected.None?
    ensures r == IdentityMismatch <==>
              form.selected.Some? && (form.nameInput != p.studentName || form.idInput != p.studentID)
    ensures r.Submitted? ==> form.nameInput == p.studentName && form.idInput == p.studentID
    ensures r == SubmissionFailed <==>
              form.selected.Some? && form.nameInput == p.studentName && form.idInput == p.studentID
              && (BuildRequirementFiles(form.selected.value.requirements, form.uploads, upload).None? || !createOk)
    ensures r.CreatedWithoutId? <==>
              form.selected.Some? && form.nameInput == p.studentName && form.idInput == p.studentID
              && BuildRequirementFiles(form.selected.value.requirements, form.uploads, upload).Some?
              && createOk && !idWriteOk
    ensures r.Submitted? ==> createOk && idWriteOk && r.record.submissionsUID == Some(newId)
    ensures r.CreatedWithoutId? ==> r.record.submissionsUID.None?
    ensures r.Submitted? || r.CreatedWithoutId? ==>
              var c := form.selected.value;
              && r.record.status == Pending
              && r.record.submittedAt == now
              && r.record.studentUID == uid
              && r.record.teacherUID == c.teacherUID
              && r.record.clearanceUID == c.clearanceUID
              && r.record.studentName == p.studentName && r.record.studentID == p.studentID
              && r.record.userDepartment == p.department && r.record.userCourse == p.course
              && r.record.userLevel == p.level
              && Some(r.record.requirementFiles) == BuildRequirementFiles(c.requirements, form.uploads, upload)
  {
    match form.selected
    case None => NoClearanceSelected
    case Some(c) =>
      if form.nameInput != p.studentName || form.idInput != p.studentID then IdentityMismatch
      else
        match BuildRequirementFiles(c.requirements, form.uploads, upload)
        case None => SubmissionFailed
        case Some(files) =>
          if !createOk then SubmissionFailed
          else
            var record := NewSubmission(p.studentName, p.studentID, p.department, p.course, p.level,
                                        Pending, uid, c.teacherUID, c.clearanceUID, now, files, None);
            if !idWriteOk then CreatedWithoutId(record)
            else Submitted(record.(submissionsUID := Some(newId)))
  }

  /** What the form shows after a submit attempt: the general error line, the
      field-level error under name and ID, and whether the modal closed. */
  datatype SubmitFeedback = SubmitFeedback(error: Option<string>, errorCondition: Option<string>, modalClosed: bool)

  function Feedback(o: SubmitOutcome): (f: SubmitFeedback)
    ensures f.modalClosed <==> o.Submitted?
    ensures f.errorCondition.Some? <==> o == IdentityMismatch
    ensures f.error.Some? <==> o == NoClearanceSelected || o == SubmissionFailed || o.CreatedWithoutId?
  {
    match o
    case NoClearanceSelected => SubmitFeedback(Some("No clearance selected."), None, false)
    case IdentityMismatch => SubmitFeedback(None, Some("Student Name or Student ID doesn't exist."), false)
    case SubmissionFailed => SubmitFeedback(Some("Error during submission. Please try again."), None, false)
    case CreatedWithoutId(_) => SubmitFeedback(Some("Error during submission. Please try again."), None, false)
    case Submitted(_) => SubmitFeedback(None, None, true)
  }
}
