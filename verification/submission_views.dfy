/** The three status views (pending, approved, disapproved): how each loads
    the signed-in student's submissions, which of them it lists, the message
    it shows when the list is empty, and the timeliness badge. */
module SubmissionViews {
  import opened Common
  import opened ClearanceTypes

  datatype View = PendingView | ApprovedView | DisapprovedView

  /** The status a view lists. */
  function TargetStatus(v: View): Status
  {
    match v
    case PendingView => Pending
    case ApprovedView => Approved
    case DisapprovedView => Disapproved
  }

  /** Each view lists a different status. */
  lemma TargetStatusInjective(v: View, w: View)
    ensures TargetStatus(v) == TargetStatus(w) <==> v == w
  {
  }

  const MaxAttempts: nat := 3
  const NothingSubmitted := "No clearance has been submitted yet."
  const FetchFailedMessage := "Failed to fetch student submissions."

  /** The message set when the view has nothing to list. The disapproved
      view reuses the approved view's text. */
  function EmptyMessage(v: View): (m: string)
    ensures v == PendingView ==> m == "No Pending Clearance yet."
    ensures v != PendingView ==> m == "No Approved Clearance yet."
  {
    match v
    case PendingView => "No Pending Clearance yet."
    case _ => "No Approved Clearance yet."
  }

  /** The result of one read of the `studentSubmissions` collection. */
  datatype FetchOutcome = Fetched(docs: seq<Submission>) | FetchFailed

  /** The state every view keeps about its list. */
  datatype ViewState = ViewState(
    data: seq<Submission>,
    error: Option<string>,
    attempts: nat,
    noMoreData: bool)

  const Initial := ViewState([], None, 0, false)

  function Owns(uid: string): Submission -> bool
  {
    (s: Submission) => s.studentUID == uid
  }

  /** `fetchStudentSubmissionsData` run to completion. A call is refused
      outright once three attempts were made or an empty collection was
      seen; otherwise the attempt counter goes up whatever happens. With a
      signed-in user only that user's submissions are kept. */
  function Fetch(st: ViewState, user: Option<string>, outcome: FetchOutcome): (r: ViewState)
    ensures st.attempts >= MaxAttempts || st.noMoreData ==> r == st
    ensures st.attempts < MaxAttempts && !st.noMoreData ==> r.attempts == st.attempts + 1
    ensures st.attempts < MaxAttempts && !st.noMoreData && outcome.FetchFailed? ==>
              r == st.(error := Some(FetchFailedMessage), attempts := st.attempts + 1)
    ensures st.attempts < MaxAttempts && !st.noMoreData && outcome.Fetched? && |outcome.docs| == 0 ==>
              r.error == Some(NothingSubmitted) && r.noMoreData
              && r.data == (if user.Some? then [] else st.data)
    ensures st.attempts < MaxAttempts && !st.noMoreData && outcome.Fetched? && |outcome.docs| > 0 ==>
              r.error.None? && !r.noMoreData
              && r.data == (if user.Some? then Filter(Owns(user.value), outcome.docs) else outcome.docs)
  {
    if st.attempts >= MaxAttempts || st.noMoreData then st
    else
      var next := st.(attempts := st.attempts + 1);
      match outcome
      case FetchFailed => next.(error := Some(FetchFailedMessage))
      case Fetched(docs) =>
        var afterRead :=
          if |docs| == 0 then next.(error := Some(NothingSubmitted), noMoreData := true)
          else next.(data := docs, error := None);
        match user
        case Some(uid) => afterRead.(data := Filter(Owns(uid), docs))
        case None => afterRead
  }

  /** After a fetch by a signed-in student the list holds exactly that
      student's submissions, in the collection's order. */
  lemma FetchKeepsOwnSubmissions(st: ViewState, uid: string, docs: seq<Submission>)
    requires st.attempts < MaxAttempts && !st.noMoreData
    ensures var r := Fetch(st, Some(uid), Fetched(docs));
            forall s :: s in r.data <==> s in docs && s.studentUID == uid
  {
    FilterMembership(Owns(uid), docs);
  }

  /** Whether a render starts a fetch. */
  predicate RenderTriggersFetch(st: ViewState, user: Option<string>)
  {
    user.Some? && st.attempts < MaxAttempts && |st.data| == 0
  }

  /** The submissions a view lists: those with the view's status. */
  function Listed(v: View, data: seq<Submission>): (r: seq<Submission>)
    ensures forall i :: 0 <= i < |r| ==> r[i].status == TargetStatus(v)
    ensures |r| <= |data|
  {
    Filter((s: Submission) => s.status == TargetStatus(v), data)
  }

  /** A fetched submission is listed exactly when it belongs to the student
      and has the view's status; the three views list disjoint sets. */
  lemma ListedAfterFetch(v: View, st: ViewState, uid: string, docs: seq<Submission>)
    requires st.attempts < MaxAttempts && !st.noMoreData
    ensures var r := Fetch(st, Some(uid), Fetched(docs));
            forall s :: s in Listed(v, r.data) <==>
                          s in docs && s.studentUID == uid && s.status == TargetStatus(v)
  {
    var r := Fetch(st, Some(uid), Fetched(docs));
    FilterMembership(Owns(uid), docs);
    FilterMembership((s: Submission) => s.status == TargetStatus(v), r.data);
  }

  lemma ViewsDisjoint(v: View, w: View, data: seq<Submission>, s: Submission)
    requires v != w
    ensures !(s in Listed(v, data) && s in Listed(w, data))
  {
    FilterMembership((x: Submission) => x.status == TargetStatus(v), data);
    FilterMembership((x: Submission) => x.status == TargetStatus(w), data);
  }

  /** The render-time rule: with nothing to list and no message yet, the
      view's empty message is set. */
  function EmptyListRule(v: View, st: ViewState): (r: ViewState)
    ensures |Listed(v, st.data)| == 0 && st.error.None? ==> r.error == Some(EmptyMessage(v))
    ensures |Listed(v, st.data)| > 0 || st.error.Some? ==> r.error == st.error
    ensures r.(error := st.error) == st
  {
    if |Listed(v, st.data)| == 0 && st.error.None? then st.(error := Some(EmptyMessage(v))) else st
  }

  /** One render: the empty-list rule, then the fetch the render starts,
      taken to complete before the next render. */
  function Render(v: View, st: ViewState, user: Option<string>, outcome: FetchOutcome): (r: ViewState)
    ensures RenderTriggersFetch(st, user) ==> r == Fetch(EmptyListRule(v, st), user, outcome)
    ensures !RenderTriggersFetch(st, user) ==> r == EmptyListRule(v, st)
  {
    var shown := EmptyListRule(v, st);
    if RenderTriggersFetch(st, user) then Fetch(shown, user, outcome) else shown
  }

  /** Whether a render actually reads the collection. */
  predicate ReadsCollection(st: ViewState, user: Option<string>)
  {
    RenderTriggersFetch(st, user) && !st.noMoreData
  }

  /** A sequence of renders, one outcome per render, and the number of
      collection reads they make. */
  function Session(v: View, st: ViewState, user: Option<string>, outcomes: seq<FetchOutcome>): (r: (ViewState, nat))
    decreases |outcomes|
  {
    if |outcomes| == 0 then (st, 0)
    else
      var next := Render(v, st, user, outcomes[0]);
      var rest := Session(v, next, user, outcomes[1..]);
      (rest.0, rest.1 + if ReadsCollection(st, user) then 1 else 0)
  }

  /** However often the view renders, every read raises the attempt counter
      by one and the counter stops at three, so a view makes at most three
      reads in its lifetime. */
  lemma {:induction false} SessionReadsAtMostThree(v: View, st: ViewState, user: Option<string>, outcomes: seq<FetchOutcome>)
    requires st.attempts <= MaxAttempts
    ensures var r := Session(v, st, user, outcomes);
            && r.0.attempts == st.attempts + r.1
            && r.0.attempts <= MaxAttempts
    decreases |outcomes|
  {
    if |outcomes| > 0 {
      var next := Render(v, st, user, outcomes[0]);
      assert next.attempts == st.attempts + (if ReadsCollection(st, user) then 1 else 0);
      SessionReadsAtMostThree(v, next, user, outcomes[1..]);
    }
  }

  /** An empty collection is read once: the next renders read nothing and
      keep its message. */
  lemma EmptyCollectionReadOnce(v: View, uid: string)
    ensures var r := Render(v, Initial, Some(uid), Fetched([]));
            r.noMoreData && r.attempts == 1 && r.error == Some(NothingSubmitted)
            && !ReadsCollection(r, Some(uid))
  {
  }

  /** The badge next to a list item. The disapproved view computes it but
      does not display it. All three views pass the submission instant, so
      an approved item's badge does not depend on when it was approved. */
  function Badge(v: View, s: Submission): (b: Option<Timeliness>)
    ensures b.None? <==> v == DisapprovedView
    ensures b.Some? ==> (b.value == Overdue <==> s.scheduleDate.Some? && s.submittedAt > s.scheduleDate.value)
  {
    if v == DisapprovedView then None else Some(Classify(s.submittedAt, s.scheduleDate))
  }

  lemma BadgeIgnoresApprovalTime(v: View, s: Submission, approvedAt: int)
    ensures Badge(v, s.(approvedAt := approvedAt)) == Badge(v, s)
  {
  }
}
