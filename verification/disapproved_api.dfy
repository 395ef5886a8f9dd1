/** The data-access functions for disapproved clearances: the clearance
    list merged with the signed-in student's submission statuses, the
    lookup of one submission by clearance id, and the resubmission update. */
module DisapprovedApi {
  import opened Common

  /** The members of the API module's `ClearanceStatus` enum, by stored
      string. The update below writes `"Pending"`, which is not one of them. */
  const EnumMembers: seq<string> := ["Disapproved", "Approved", "None", "Re-submit"]
  const NoneName := "None"
  const PendingName := "Pending"

  lemma PendingNotInEnum()
    ensures PendingName !in EnumMembers
    ensures NoneName in EnumMembers
  {
  }

  /** A `studentSubmissions` document as this module reads it (`ClearanceData`).
      `status` is `None` when the field is missing. */
  datatype SubmissionData = SubmissionData(
    clearanceId: string,
    creatorId: string,
    disapproveReason: string,
    gcashNumber: string,
    receiptURL: Option<string>,
    status: Option<string>,
    studentID: string,
    studentName: string,
    userId: string)

  datatype SubmissionDoc = SubmissionDoc(docId: string, data: SubmissionData)

  /** A `clearances` document. */
  datatype ClearanceDoc = ClearanceDoc(docId: string, role: string, roleName: string, amount: string, purpose: string)

  /** One entry of the merged list. */
  datatype CreatedClearance = CreatedClearance(
    docId: string, role: string, fullName: string, amount: string, purpose: string, status: string)

  /** The `statuses` object: clearance id to the status of the last
      submission read for it. */
  function StatusMap(subs: seq<SubmissionDoc>): (m: map<string, Option<string>>)
    ensures forall k :: 0 <= k < |subs| ==> subs[k].data.clearanceId in m
    decreases |subs|
  {
    if |subs| == 0 then map[]
    else
      var last := subs[|subs| - 1];
      StatusMap(subs[..|subs| - 1])[last.data.clearanceId := last.data.status]
  }

  /** Independent reading of the same object: the status of the last
      submission with the given clearance id, if there is one. */
  function LastStatusOf(subs: seq<SubmissionDoc>, id: string): Option<Option<string>>
    decreases |subs|
  {
    if |subs| == 0 then None
    else if subs[|subs| - 1].data.clearanceId == id then Some(subs[|subs| - 1].data.status)
    else LastStatusOf(subs[..|subs| - 1], id)
  }

  lemma {:induction false} StatusMapIsLastStatus(subs: seq<SubmissionDoc>)
    ensures forall id :: id in StatusMap(subs) <==> LastStatusOf(subs, id).Some?
    ensures forall id :: id in StatusMap(subs) ==> StatusMap(subs)[id] == LastStatusOf(subs, id).value
    decreases |subs|
  {
    if |subs| > 0 {
      StatusMapIsLastStatus(subs[..|subs| - 1]);
    }
  }

  /** `statuses[id] || ClearanceStatus.noneStatus`: a missing entry, a
      missing status field and the empty string all read as `"None"`. */
  function EffectiveStatus(m: map<string, Option<string>>, id: string): (s: string)
    ensures s != NoneName ==> id in m && m[id] == Some(s)
    ensures id !in m || m[id].None? || m[id] == Some("") ==> s == NoneName
  {
    if id in m && m[id].Some? && m[id].value != "" then m[id].value else NoneName
  }

  function IsOwnedBy(uid: string): SubmissionDoc -> bool
  {
    (d: SubmissionDoc) => d.data.userId == uid
  }

  /** `fetchDisapprovedClearances`. The two reads are parameters (`None`
      when a read fails). Without a signed-in user or after a failed read
      the result is empty. */
  function FetchDisapprovedClearances(user: Option<string>, submissions: Option<seq<SubmissionDoc>>,
                                      clearances: Option<seq<ClearanceDoc>>): (r: seq<CreatedClearance>)
    ensures user.None? || submissions.None? || clearances.None? ==> r == []
    ensures user.Some? && submissions.Some? && clearances.Some? ==>
              var cs := clearances.value;
              var mine := Filter(IsOwnedBy(user.value), submissions.value);
              && |r| == |cs|
              && forall i :: 0 <= i < |cs| ==>
                   && r[i] == CreatedClearance(cs[i].docId, cs[i].role, cs[i].roleName, cs[i].amount, cs[i].purpose, r[i].status)
                   && (r[i].status != NoneName ==> LastStatusOf(mine, cs[i].docId) == Some(Some(r[i].status)))
                   && (LastStatusOf(mine, cs[i].docId).None? ==> r[i].status == NoneName)
                   && (LastStatusOf(mine, cs[i].docId) == Some(None) ==> r[i].status == NoneName)
                   && (LastStatusOf(mine, cs[i].docId) == Some(Some("")) ==> r[i].status == NoneName)
                   && (LastStatusOf(mine, cs[i].docId).Some? && LastStatusOf(mine, cs[i].docId).value.Some?
                       && LastStatusOf(mine, cs[i].docId).value.value != "" ==>
                         r[i].status == LastStatusOf(mine, cs[i].docId).value.value)
  {
    if user.None? || submissions.None? || clearances.None? then []
    else
      var cs := clearances.value;
      var mine := Filter(IsOwnedBy(user.value), submissions.value);
      var statuses := StatusMap(mine);
      var r := seq(|cs|, i requires 0 <= i < |cs| =>
        CreatedClearance(cs[i].docId, cs[i].role, cs[i].roleName, cs[i].amount, cs[i].purpose,
                         EffectiveStatus(statuses, cs[i].docId)));
      StatusMapIsLastStatus(mine);
      r
  }

  /** A clearance the student never submitted for is listed as `"None"`,
      and a clearance listed with another status was submitted by that
      student. */
  lemma ListedStatusMeansSubmitted(uid: string, subs: seq<SubmissionDoc>, cs: seq<ClearanceDoc>, i: int)
    requires 0 <= i < |cs|
    ensures var r := FetchDisapprovedClearances(Some(uid), Some(subs), Some(cs));
            r[i].status != NoneName ==>
              exists d :: d in subs && d.data.userId == uid && d.data.clearanceId == cs[i].docId
                          && d.data.status == Some(r[i].status)
  {
    var mine := Filter(IsOwnedBy(uid), subs);
    var r := FetchDisapprovedClearances(Some(uid), Some(subs), Some(cs));
    if r[i].status != NoneName {
      LastStatusMember(mine, cs[i].docId);
      FilterMembership(IsOwnedBy(uid), subs);
    }
  }

  lemma {:induction false} LastStatusMember(subs: seq<SubmissionDoc>, id: string)
    ensures LastStatusOf(subs, id).Some? ==>
              exists d :: d in subs && d.data.clearanceId == id && d.data.status == LastStatusOf(subs, id).value
    decreases |subs|
  {
    if |subs| > 0 && subs[|subs| - 1].data.clearanceId != id {
      LastStatusMember(subs[..|subs| - 1], id);
      if LastStatusOf(subs, id).Some? {
        var d :| d in subs[..|subs| - 1] && d.data.clearanceId == id && d.data.status == LastStatusOf(subs, id).value;
        assert d in subs;
      }
    } else if |subs| > 0 {
      assert subs[|subs| - 1] in subs;
    }
  }

  /** The first document whose clearance id matches, if any. */
  function FirstMatch(subs: seq<SubmissionDoc>, clearanceId: string): (r: Option<SubmissionDoc>)
    ensures r.None? <==> forall k :: 0 <= k < |subs| ==> subs[k].data.clearanceId != clearanceId
    ensures r.Some? ==> exists k :: 0 <= k < |subs| && subs[k] == r.value
                          && subs[k].data.clearanceId == clearanceId
                          && forall j :: 0 <= j < k ==> subs[j].data.clearanceId != clearanceId
  {
    if |subs| == 0 then None
    else if subs[0].data.clearanceId == clearanceId then Some(subs[0])
    else
      var rest := FirstMatch(subs[1..], clearanceId);
      assert forall k :: 1 <= k < |subs| ==> subs[k] == subs[1..][k - 1];
      rest
  }

  /** `fetchDisapprovedClearancesData`: the data of the first submission with
      the clearance id, from any student; `None` when there is none or the
      read fails. */
  function FetchDisapprovedClearancesData(clearanceId: string, submissions: Option<seq<SubmissionDoc>>): (r: Option<SubmissionData>)
    ensures submissions.None? ==> r.None?
    ensures submissions.Some? ==>
              (r.None? <==> forall k :: 0 <= k < |submissions.value| ==> submissions.value[k].data.clearanceId != clearanceId)
    ensures r.Some? ==> r.value.clearanceId == clearanceId
    ensures submissions.Some? && r.Some? ==>
              FirstMatch(submissions.value, clearanceId).Some? && r.value == FirstMatch(submissions.value, clearanceId).value.data
  {
    match submissions
    case None => None
    case Some(subs) =>
      match FirstMatch(subs, clearanceId)
      case None => None
      case Some(d) => Some(d.data)
  }

  /** The lookup does not filter by student: another student's submission
      for the same clearance is returned when it comes first. */
  lemma LookupIgnoresStudent(clearanceId: string, other: SubmissionDoc, mine: SubmissionDoc)
    requires other.data.clearanceId == clearanceId && other.data.userId != mine.data.userId
    ensures FetchDisapprovedClearancesData(clearanceId, Some([other, mine])) == Some(other.data)
  {
  }

  /** A `Partial<ClearanceData>`: the fields a caller sets. */
  datatype PartialData = PartialData(
    clearanceId: Option<string>,
    creatorId: Option<string>,
    disapproveReason: Option<string>,
    gcashNumber: Option<string>,
    receiptURL: Option<string>,
    status: Option<string>,
    studentID: Option<string>,
    studentName: Option<string>,
    userId: Option<string>)

  function CountIf(b: bool): nat { if b then 1 else 0 }

  /** `Object.keys(updatedData).length`. */
  function KeyCount(p: PartialData): nat
  {
    CountIf(p.clearanceId.Some?) + CountIf(p.creatorId.Some?) + CountIf(p.disapproveReason.Some?)
    + CountIf(p.gcashNumber.Some?) + CountIf(p.receiptURL.Some?) + CountIf(p.status.Some?)
    + CountIf(p.studentID.Some?) + CountIf(p.studentName.Some?) + CountIf(p.userId.Some?)
  }

  const NoDataToUpdate := "No data to update"

  function NotFoundMessage(clearanceId: string): string
  {
    "No document found with clearanceId " + clearanceId
  }

  /** The outcome of `updateClearance`: the query read rejects, a receipt
      upload rejects, the call throws with a message, or it returns whether
      the write succeeded together with the write it attempted (document id
      and payload). The read and the upload are awaited outside any `try`,
      so their rejections reject the whole call. */
  datatype UpdateOutcome =
    | ReadRejected
    | Threw(message: string)
    | UploadRejected
    | Returned(ok: bool, docId: string, payload: PartialData)

  /** `updateClearance`. `submissions` is the result of the query read
      (`None` when it rejects); `uploadReceipt` and `writeOk` stand for
      storage and for `updateDoc`; a receipt is stored under its name. */
  function UpdateClearance(clearanceId: string, updatedData: PartialData, receipt: Option<string>,
                           submissions: Option<seq<SubmissionDoc>>, uploadReceipt: string -> Option<string>,
                           writeOk: bool): (r: UpdateOutcome)
    ensures r == ReadRejected <==> submissions.None?
    ensures r.Threw? <==>
              submissions.Some? && forall k :: 0 <= k < |submissions.value| ==> submissions.value[k].data.clearanceId != clearanceId
    ensures r.Threw? ==> r.message == NotFoundMessage(clearanceId)
    ensures r == UploadRejected <==>
              submissions.Some? && FirstMatch(submissions.value, clearanceId).Some? && receipt.Some? && uploadReceipt(receipt.value).None?
    ensures r.Returned? ==>
              && submissions.Some?
              && FirstMatch(submissions.value, clearanceId).Some?
              && r.ok == writeOk
              && r.docId == FirstMatch(submissions.value, clearanceId).value.docId
              && r.payload.status == Some(PendingName)
              && KeyCount(r.payload) > 0
              && (receipt.Some? ==> r.payload.receiptURL == uploadReceipt(receipt.value))
              && (receipt.None? ==> r.payload.receiptURL == updatedData.receiptURL)
              && r.payload.(status := updatedData.status, receiptURL := updatedData.receiptURL) == updatedData
  {
    match submissions
    case None => ReadRejected
    case Some(subs) =>
      match FirstMatch(subs, clearanceId)
      case None => Threw(NotFoundMessage(clearanceId))
      case Some(d) =>
        var withReceipt :=
          if receipt.None? then Some(updatedData)
          else match uploadReceipt(receipt.value)
               case None => None
               case Some(url) => Some(updatedData.(receiptURL := Some(url)));
        match withReceipt
        case None => UploadRejected
        case Some(data) =>
          var payload := data.(status := Some(PendingName));
          if KeyCount(payload) == 0 then Threw(NoDataToUpdate)
          else Returned(writeOk, d.docId, payload)
  }

  /** The empty-payload error is unreachable: the status is always set
      before the keys are counted. */
  lemma NoDataToUpdateUnreachable(clearanceId: string, updatedData: PartialData, receipt: Option<string>,
                                  submissions: Option<seq<SubmissionDoc>>, uploadReceipt: string -> Option<string>, writeOk: bool)
    ensures UpdateClearance(clearanceId, updatedData, receipt, submissions, uploadReceipt, writeOk) != Threw(NoDataToUpdate)
  {
    assert NotFoundMessage(clearanceId)[4] != NoDataToUpdate[4];
  }
}
