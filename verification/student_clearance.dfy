/** The self-contained clearance demo view: four hard-coded clearances, a
    modal to attach one file per requirement, and submit / re-submit
    handlers that only change local state. */
module StudentClearance {
  import opened Common
  import opened ClearanceTypes

  /** A requirement and the names of the files attached to it. */
  datatype Requirement = Requirement(text: string, attachments: seq<string>)

  datatype Clearance = Clearance(
    instructorID: string,
    fullName: string,
    department: string,
    course: string,
    requirements: seq<Requirement>,
    signature: string,
    disapprovalReason: string,
    status: Status)

  /** The four clearances the view starts with. */
  const InitialClearances: seq<Clearance> := [
    Clearance("87654321", "Angelica Duhaybansa", "COE", "BSCE",
              [Requirement("Submit your notes in math", []), Requirement("Submit your notes", [])],
              "poncesj", "Wrong Attachment", Disapproved),
    Clearance("87654322", "James C. Rapooo", "COTE", "BSCE",
              [Requirement("Submit your notes in Algorithm", []), Requirement("Submit your code in fetching name", [])],
              "rapoooo", "Wrong Attachment", NoneStatus),
    Clearance("87654322123", "Bryan C. Libante", "COTE", "BSIT",
              [Requirement("Submit your notes in TVL notebook", []), Requirement("Submit your notes in Software Eng.", [])],
              "libante", "Wrong Attachment", Approved),
    Clearance("87654322133", "Marvie B. Ijurpe", "COTE", "BSCE",
              [Requirement("Submit your notes in PPE", []), Requirement("Submit your notebook", [])],
              "Ijurpe", "Wrong Attachment", Pending)
  ]

  datatype ViewState = ViewState(
    clearances: seq<Clearance>,
    selected: Option<Clearance>,
    isOpen: bool,
    error: Option<string>,
    message: Option<string>,
    loading: bool)

  const Initial := ViewState(InitialClearances, None, false, None, None, false)

  const MissingAttachments := "All attachments are required before submitting."
  const SubmittedMessage := "Submitted successfully."
  const ResubmittedMessage := "Re-submitted successfully."

  /** `allAttachmentsProvided`: false with nothing selected, otherwise
      whether every requirement has at least one attachment. */
  predicate AllAttachmentsProvided(selected: Option<Clearance>)
  {
    selected.Some? && forall i :: 0 <= i < |selected.value.requirements| ==> |selected.value.requirements[i].attachments| > 0
  }

  /** `clickModal`: select a clearance, open the modal, clear both messages. */
  function ClickModal(st: ViewState, c: Clearance): (r: ViewState)
    ensures r.selected == Some(c) && r.isOpen && r.error.None? && r.message.None?
    ensures r.clearances == st.clearances && r.loading == st.loading
  {
    st.(selected := Some(c), isOpen := true, error := None, message := None)
  }

  /** `handleFileChange`: the first chosen file is appended to the chosen
      requirement's attachments. No file, no selection, or an index with no
      requirement (where the source throws before changing anything) leave
      the state as it is. */
  function HandleFileChange(st: ViewState, index: int, file: Option<string>): (r: ViewState)
    ensures file.None? || st.selected.None? || !(0 <= index < |st.selected.value.requirements|) ==> r == st
    ensures file.Some? && st.selected.Some? && 0 <= index < |st.selected.value.requirements| ==>
              var before := st.selected.value.requirements;
              && r.selected.Some?
              && r.selected.value.(requirements := before) == st.selected.value
              && |r.selected.value.requirements| == |before|
              && r.selected.value.requirements[index].text == before[index].text
              && r.selected.value.requirements[index].attachments == before[index].attachments + [file.value]
              && (forall j :: 0 <= j < |before| && j != index ==> r.selected.value.requirements[j] == before[j])
    ensures r.(selected := st.selected) == st
  {
    if file.None? || st.selected.None? || !(0 <= index < |st.selected.value.requirements|) then st
    else
      var c := st.selected.value;
      var req := c.requirements[index];
      st.(selected := Some(c.(requirements := c.requirements[index := req.(attachments := req.attachments + [file.value])])))
  }

  /** Attaching a file never withdraws permission to submit, and attaching
      one to each requirement grants it. */
  lemma AttachKeepsProvided(st: ViewState, index: int, file: Option<string>)
    requires AllAttachmentsProvided(st.selected)
    ensures AllAttachmentsProvided(HandleFileChange(st, index, file).selected)
  {
  }

  lemma AttachEachProvides(st: ViewState, files: seq<string>)
    requires st.selected.Some? && |files| == |st.selected.value.requirements|
    ensures AllAttachmentsProvided(AttachEach(st, files, 0).selected)
  {
    AttachEachFrom(st, files, 0);
  }

  /** Attaches `files[k]` to requirement `k`, for every `k` from `from` on. */
  function AttachEach(st: ViewState, files: seq<string>, from: nat): (r: ViewState)
    requires st.selected.Some? && |files| == |st.selected.value.requirements|
    ensures r.selected.Some? && |r.selected.value.requirements| == |st.selected.value.requirements|
    decreases |files| - from
  {
    if from >= |files| then st
    else AttachEach(HandleFileChange(st, from, Some(files[from])), files, from + 1)
  }

  lemma {:induction false} AttachEachFrom(st: ViewState, files: seq<string>, from: nat)
    requires st.selected.Some? && |files| == |st.selected.value.requirements|
    requires forall j :: 0 <= j < from && j < |files| ==> |st.selected.value.requirements[j].attachments| > 0
    ensures AllAttachmentsProvided(AttachEach(st, files, from).selected)
    decreases |files| - from
  {
    if from < |files| {
      var next := HandleFileChange(st, from, Some(files[from]));
      AttachEachFrom(next, files, from + 1);
    }
  }

  /** Replaces the status (and, when given, the requirements) of every
      clearance with the selected one's instructor ID. */
  function MarkPending(cs: seq<Clearance>, instructorID: string, requirements: Option<seq<Requirement>>): (r: seq<Clearance>)
    ensures |r| == |cs|
    ensures forall i :: 0 <= i < |cs| && cs[i].instructorID != instructorID ==> r[i] == cs[i]
    ensures forall i :: 0 <= i < |cs| && cs[i].instructorID == instructorID ==>
              r[i] == cs[i].(status := Pending, requirements := requirements.GetOr(cs[i].requirements))
  {
    seq(|cs|, i requires 0 <= i < |cs| =>
      if cs[i].instructorID == instructorID
      then cs[i].(status := Pending, requirements := requirements.GetOr(cs[i].requirements))
      else cs[i])
  }

  /** `handleSubmit`, with the three-second timer taken to have fired. */
  function HandleSubmit(st: ViewState): (r: ViewState)
    ensures !AllAttachmentsProvided(st.selected) ==> r == st.(error := Some(MissingAttachments))
    ensures AllAttachmentsProvided(st.selected) ==>
              && r.clearances == MarkPending(st.clearances, st.selected.value.instructorID,
                                             Some(st.selected.value.requirements))
              && r.selected == Some(st.selected.value.(status := Pending))
              && r.message == Some(SubmittedMessage) && r.error.None?
              && !r.loading && !r.isOpen
  {
    if !AllAttachmentsProvided(st.selected) then st.(error := Some(MissingAttachments))
    else
      var c := st.selected.value;
      st.(clearances := MarkPending(st.clearances, c.instructorID, Some(c.requirements)),
          selected := Some(c.(status := Pending)),
          message := Some(SubmittedMessage), error := None, loading := false, isOpen := false)
  }

  /** `handleReSubmit`: marks the selected clearance pending without copying
      its requirements; nothing happens with no selection. No button calls it. */
  function HandleReSubmit(st: ViewState): (r: ViewState)
    ensures st.selected.None? ==> r == st
    ensures st.selected.Some? ==>
              && r.clearances == MarkPending(st.clearances, st.selected.value.instructorID, None)
              && r.selected == Some(st.selected.value.(status := Pending))
              && r.message == Some(ResubmittedMessage) && r.error.None?
              && !r.isOpen && r.loading == st.loading
  {
    match st.selected
    case None => st
    case Some(c) =>
      st.(clearances := MarkPending(st.clearances, c.instructorID, None),
          selected := Some(c.(status := Pending)),
          message := Some(ResubmittedMessage), error := None, isOpen := false)
  }

  /** The action button `renderModalButtons` shows besides Close. Both
      labels invoke the submit handler. */
  datatype ActionButton = SubmitButton(disabled: bool) | ResubmitButton(disabled: bool)

  function ModalButtons(st: ViewState): (r: Option<ActionButton>)
    ensures r.Some? ==> st.selected.Some?
    ensures r.Some? && r.value.SubmitButton? <==> st.selected.Some? && st.selected.value.status == NoneStatus
    ensures r.Some? && r.value.ResubmitButton? <==> st.selected.Some? && st.selected.value.status == Disapproved
    ensures r.Some? ==> (r.value.disabled <==> !AllAttachmentsProvided(st.selected) || st.loading)
  {
    if st.selected.None? then None
    else
      var disabled := !AllAttachmentsProvided(st.selected) || st.loading;
      match st.selected.value.status
      case NoneStatus => Some(SubmitButton(disabled))
      case Disapproved => Some(ResubmitButton(disabled))
      case _ => None
  }

  /** After a successful submit the selected clearance is pending, so the
      modal offers neither button, and every clearance of that instructor is
      pending with the submitted requirements. */
  lemma SubmitRemovesActions(st: ViewState)
    requires AllAttachmentsProvided(st.selected)
    ensures var r := HandleSubmit(st);
            && ModalButtons(r).None?
            && forall i :: 0 <= i < |r.clearances| && st.clearances[i].instructorID == st.selected.value.instructorID ==>
                 r.clearances[i].status == Pending && r.clearances[i].requirements == st.selected.value.requirements
  {
  }

  /** Which parts of the modal are shown for a clearance's status. */
  datatype ModalSections = ModalSections(signature: bool, requirements: bool, disapprovalReason: bool, fileInputs: bool)

  function Sections(c: Clearance): (r: ModalSections)
    ensures r.signature <==> c.status == Approved
    ensures r.requirements <==> c.status != Approved
    ensures r.disapprovalReason ==> r.requirements
    ensures r.disapprovalReason <==> c.status == Disapproved
    ensures r.fileInputs <==> c.status != Approved && c.status != Pending
  {
    ModalSections(c.status == Approved, c.status != Approved, c.status == Disapproved,
                  c.status != Approved && c.status != Pending)
  }

  /** In the initial list, the first clearance offers Re-submit, the second
      Submit, and the approved and pending ones no action; no button is
      enabled before a file is attached to each requirement. */
  lemma InitialActions()
    ensures ModalButtons(ClickModal(Initial, InitialClearances[0])) == Some(ResubmitButton(true))
    ensures ModalButtons(ClickModal(Initial, InitialClearances[1])) == Some(SubmitButton(true))
    ensures ModalButtons(ClickModal(Initial, InitialClearances[2])).None?
    ensures ModalButtons(ClickModal(Initial, InitialClearances[3])).None?
  {
    assert |InitialClearances[0].requirements[0].attachments| == 0;
    assert |InitialClearances[1].requirements[0].attachments| == 0;
  }
}
