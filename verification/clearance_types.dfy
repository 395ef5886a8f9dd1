/** The status values, records and display rules that the clearance views share. */
module ClearanceTypes {
  import opened Common

  /** Every status a clearance or a submission carries in some view: the
      views' `'Approved' | 'Disapproved' | 'None' | 'Pending'` union, plus the
      `Re-submit` member of the API module's enum. */
  datatype Status = NoneStatus | Pending | Approved | Disapproved | ReSubmit

  /** The string stored in the document database for each status. */
  function StatusName(s: Status): string
  {
    match s
    case NoneStatus => "None"
    case Pending => "Pending"
    case Approved => "Approved"
    case Disapproved => "Disapproved"
    case ReSubmit => "Re-submit"
  }

  /** Reads a stored status string back; `None` for a string no view knows. */
  function ParseStatus(name: string): (r: Option<Status>)
    ensures r.Some? ==> StatusName(r.value) == name
  {
    if name == "None" then Some(NoneStatus)
    else if name == "Pending" then Some(Pending)
    else if name == "Approved" then Some(Approved)
    else if name == "Disapproved" then Some(Disapproved)
    else if name == "Re-submit" then Some(ReSubmit)
    else None
  }

  /** Parsing inverts naming, so no two statuses share a stored string. */
  lemma ParseStatusName(s: Status)
    ensures ParseStatus(StatusName(s)) == Some(s)
  {
  }

  /** The text colour class `getStatusColor` picks. */
  datatype Color = Green | Red | Yellow | Gray

  function StatusColor(s: Status): (c: Color)
    ensures c == Green <==> s == Approved
    ensures c == Red <==> s == Disapproved
    ensures c == Yellow <==> s == Pending
    ensures c == Gray <==> s == NoneStatus || s == ReSubmit
  {
    match s
    case Approved => Green
    case Disapproved => Red
    case Pending => Yellow
    case _ => Gray
  }

  /** The badge `getSubmissionStatusMessage` shows next to a list item. */
  datatype Timeliness = OnTime | Overdue

  /** Compares a submission instant with a schedule date, both as integer
      timestamps. `None` stands for a schedule string that `new Date` cannot
      parse: comparing with an invalid date is false, so the item is on time. */
  function Classify(submittedAt: int, scheduleDate: Option<int>): (t: Timeliness)
    ensures t == Overdue <==> scheduleDate.Some? && submittedAt > scheduleDate.value
  {
    match scheduleDate
    case Some(d) => if submittedAt > d then Overdue else OnTime
    case None => OnTime
  }

  /** Submitting exactly at the schedule instant is still on time. */
  lemma ClassifyBoundary(d: int)
    ensures Classify(d, Some(d)) == OnTime
    ensures Classify(d + 1, Some(d)) == Overdue
  {
  }

  /** Submitting later never turns an overdue item back to on time. */
  lemma ClassifyMonotonic(a: int, b: int, d: Option<int>)
    requires a <= b
    ensures Classify(a, d) == Overdue ==> Classify(b, d) == Overdue
  {
  }

  /** One `{requirement, urls}` entry of a submission's `requirementFiles`. */
  datatype RequirementFile = RequirementFile(requirement: string, urls: seq<string>)

  /** One entry of an `uploadedFiles` object: the requirement index and the
      names of the files chosen for it. */
  datatype UploadSlot = UploadSlot(index: nat, files: seq<string>)

  /** A sequence of slots stands for the whole object when its indices
      ascend strictly: that is the order `Object.entries` yields integer
      keys in. */
  predicate SlotsAscending(s: seq<UploadSlot>)
  {
    forall i, j :: 0 <= i < j < |s| ==> s[i].index < s[j].index
  }

  /** The object itself: index to chosen files, a later slot overriding an
      earlier one with the same index. */
  function SlotMap(s: seq<UploadSlot>): map<nat, seq<string>>
  {
    if |s| == 0 then map[] else map[s[0].index := s[0].files] + SlotMap(s[1..])
  }

  lemma {:induction false} SlotMapKeys(s: seq<UploadSlot>)
    ensures forall k :: k in SlotMap(s) <==> exists j :: 0 <= j < |s| && s[j].index == k
  {
    if |s| > 0 {
      SlotMapKeys(s[1..]);
      forall k | k in SlotMap(s[1..]) ensures exists j :: 0 <= j < |s| && s[j].index == k {
        var j :| 0 <= j < |s[1..]| && s[1..][j].index == k;
        assert s[j + 1].index == k;
      }
      forall k | exists j :: 0 <= j < |s| && s[j].index == k ensures k in SlotMap(s) {
        var j :| 0 <= j < |s| && s[j].index == k;
        if j > 0 {
          assert s[1..][j - 1].index == k;
        }
      }
    }
  }

  /** `{...prev, [index]: files}`: the files chosen for an input replace
      whatever that input held, keeping the slots ascending. */
  function SetSlot(s: seq<UploadSlot>, index: nat, files: seq<string>): (r: seq<UploadSlot>)
    ensures forall k :: 0 <= k < |r| ==> r[k] == UploadSlot(index, files) || r[k] in s
    ensures SlotsAscending(s) ==> SlotsAscending(r)
  {
    if |s| == 0 then [UploadSlot(index, files)]
    else if s[0].index == index then [UploadSlot(index, files)] + s[1..]
    else if s[0].index > index then [UploadSlot(index, files)] + s
    else
      var rest := SetSlot(s[1..], index, files);
      assert forall k :: 0 <= k < |rest| && rest[k] != UploadSlot(index, files) ==> rest[k] in s;
      [s[0]] + rest
  }

  /** In ascending slots, every index after the first is above it. */
  lemma TailAbove(s: seq<UploadSlot>)
    requires SlotsAscending(s) && |s| > 0
    ensures forall k :: k in SlotMap(s[1..]) ==> s[0].index < k
  {
    SlotMapKeys(s[1..]);
    forall k | k in SlotMap(s[1..]) ensures s[0].index < k {
      var j :| 0 <= j < |s[1..]| && s[1..][j].index == k;
      assert s[j + 1] == s[1..][j];
    }
  }

  /** Setting a slot is a map update of the object it stands for. */
  lemma {:induction false} SetSlotUpdates(s: seq<UploadSlot>, index: nat, files: seq<string>)
    requires SlotsAscending(s)
    ensures SlotMap(SetSlot(s, index, files)) == SlotMap(s)[index := files]
  {
    if |s| > 0 {
      TailAbove(s);
      var r := SetSlot(s, index, files);
      var tail := SlotMap(s[1..]);
      if s[0].index == index {
        assert r[1..] == s[1..];
        HeadUpdate(s[0], files, tail);
      } else if s[0].index > index {
        assert r[1..] == s;
        HeadInsert(UploadSlot(index, files), SlotMap(s));
      } else {
        SetSlotUpdates(s[1..], index, files);
        assert r[1..] == SetSlot(s[1..], index, files);
        HeadCommutes(s[0], index, files, tail);
      }
    }
  }

  lemma HeadUpdate(head: UploadSlot, files: seq<string>, tail: map<nat, seq<string>>)
    requires forall k :: k in tail ==> head.index < k
    ensures map[head.index := files] + tail == (map[head.index := head.files] + tail)[head.index := files]
  {
  }

  lemma HeadInsert(slot: UploadSlot, rest: map<nat, seq<string>>)
    requires slot.index !in rest
    ensures map[slot.index := slot.files] + rest == rest[slot.index := slot.files]
  {
  }

  lemma HeadCommutes(head: UploadSlot, index: nat, files: seq<string>, tail: map<nat, seq<string>>)
    requires head.index < index
    ensures map[head.index := head.files] + tail[index := files] == (map[head.index := head.files] + tail)[index := files]
  {
  }

  /** The `studentSubmissions` document as the status views read it. Receipt
      and payment fields are `None` when the document lacks them; the
      schedule date is `None` when it does not parse as a date. */
  datatype Submission = Submission(
    submissionsUID: Option<string>,
    studentUID: string,
    studentName: string,
    teacherUID: string,
    teacherDepartment: string,
    status: Status,
    submittedAt: int,
    approvedAt: int,
    disapprovedAt: int,
    scheduleDate: Option<int>,
    disapproveReason: string,
    requirementFiles: seq<RequirementFile>,
    ssgAdviserReceiptURL: Option<string>,
    ptcaTreasurerReceiptURL: Option<string>,
    deanReceiptURL: Option<string>,
    studentGcashNumber: Option<string>,
    studentAmountInput: Option<string>)

  /** Uploads every file of `files` in order; fails as soon as one upload
      is rejected, as the awaited loop in each submit handler does. */
  function UploadAll(upload: string -> Option<string>, files: seq<string>): (r: Option<seq<string>>)
    ensures r.Some? <==> forall j :: 0 <= j < |files| ==> upload(files[j]).Some?
    ensures r.Some? ==> |r.value| == |files|
    ensures r.Some? ==> forall j :: 0 <= j < |files| ==> upload(files[j]) == Some(r.value[j])
  {
    if |files| == 0 then Some([])
    else
      match upload(files[0])
      case None => None
      case Some(url) =>
        match UploadAll(upload, files[1..])
        case None => None
        case Some(rest) => Some([url] + rest)
  }
}
