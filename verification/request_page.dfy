/**
 * The submitter's claim page (`RequestPage`): which buttons a row offers,
 * the two confirm dialogs that change a claim's status (request approval and
 * cancel), creating and editing a claim, the claim form's validators, and the
 * search request the table issues.
 */
module RequestPage {
  import opened Common
  import opened Claims
  import opened Paging

  // ---------------------------------------------------------------- row gate

  datatype Button = Edit | CancelClaim | RequestApproval | ViewLogs | Download

  /** The buttons of one table row. Editing, cancelling and requesting approval
      are offered for "Draft" and for "Returned" claims only; every row can show
      its logs and be downloaded. */
  function RowButtons(status: ClaimStatus): (r: set<Button>)
    ensures ViewLogs in r && Download in r
    ensures Edit in r <==> status == Draft || status == Returned
    ensures CancelClaim in r <==> Edit in r
    ensures RequestApproval in r <==> Edit in r
  {
    if status == Draft || status == Returned then {Edit, CancelClaim, RequestApproval, ViewLogs, Download}
    else {ViewLogs, Download}
  }

  // --------------------------------------------------------- confirm dialogs

  /** The claims on screen, the id a confirm dialog was opened for (`null`
      when none), and whether that dialog is open. */
  datatype ConfirmState = ConfirmState(claims: seq<Claim>, selected: Option<string>, dialogOpen: bool)

  /** What a handler did: the state afterwards and the request it sent, if any. */
  datatype ConfirmStep = ConfirmStep(state: ConfirmState, sent: Option<StatusChange>)

  const SubmitComment: string := "Submitted for approval by user"
  const CancelComment: string := "Canceled by user"

  /** The shape `handleConfirmApproval` and `handleConfirmCancel` share: nothing
      happens without a selected id or a token; otherwise the change is sent,
      and only a `success: true` answer updates the list in place, closes the
      dialog and clears the selection. A refusal or an exception leaves the
      state exactly as it was (the dialog stays open). */
  function Confirm(st: ConfirmState, hasToken: bool, target: ClaimStatus, comment: string, outcome: Outcome): (r: ConfirmStep)
    ensures r.sent.None? <==> st.selected.None? || !hasToken
    ensures r.sent.Some? ==> r.sent.value == StatusChange(st.selected.value, target, comment)
    ensures r.sent.None? || outcome != Succeeded ==> r.state == st
    ensures r.sent.Some? && outcome == Succeeded ==>
      r.state == ConfirmState(SetStatus(st.claims, st.selected.value, target), None, false)
  {
    if st.selected.None? || !hasToken then ConfirmStep(st, None)
    else
      var id := st.selected.value;
      var sent := Some(StatusChange(id, target, comment));
      if outcome == Succeeded then ConfirmStep(ConfirmState(SetStatus(st.claims, id, target), None, false), sent)
      else ConfirmStep(st, sent)
  }

  /** `handleConfirmApproval`: sends "Pending Approval". */
  function ConfirmApproval(st: ConfirmState, hasToken: bool, outcome: Outcome): (r: ConfirmStep)
    ensures r.sent.Some? ==> r.sent.value.status == PendingApproval && r.sent.value.comment == SubmitComment
    ensures r.sent.Some? && outcome == Succeeded ==>
      st.selected.Some? && |r.state.claims| == |st.claims| &&
      forall k :: 0 <= k < |st.claims| ==>
        r.state.claims[k] == (if st.claims[k].id == st.selected.value then st.claims[k].(status := PendingApproval) else st.claims[k])
    ensures outcome != Succeeded ==> r.state.claims == st.claims
  {
    Confirm(st, hasToken, PendingApproval, SubmitComment, outcome)
  }

  /** `handleConfirmCancel`: sends "Canceled" with the fixed comment. */
  function ConfirmCancel(st: ConfirmState, hasToken: bool, outcome: Outcome): (r: ConfirmStep)
    ensures r.sent.Some? ==> r.sent.value.status == Canceled && r.sent.value.comment == CancelComment
    ensures r.sent.Some? && outcome == Succeeded ==>
      st.selected.Some? && |r.state.claims| == |st.claims| &&
      forall k :: 0 <= k < |st.claims| ==>
        r.state.claims[k] == (if st.claims[k].id == st.selected.value then st.claims[k].(status := Canceled) else st.claims[k])
    ensures outcome != Succeeded ==> r.state.claims == st.claims
  {
    Confirm(st, hasToken, Canceled, CancelComment, outcome)
  }

  /** A confirmed change clears the selection, so confirming again sends nothing. */
  lemma ConfirmedThenNothingToConfirm(st: ConfirmState, hasToken: bool, target: ClaimStatus, comment: string, o1: Outcome, o2: Outcome)
    requires Confirm(st, hasToken, target, comment, o1).sent.Some? && o1 == Succeeded
    ensures var st' := Confirm(st, hasToken, target, comment, o1).state;
            Confirm(st', hasToken, target, comment, o2) == ConfirmStep(st', None)
  {
  }

  /** A failed attempt can be retried: the retry sends the very same request. */
  lemma FailedConfirmRetriesSameRequest(st: ConfirmState, hasToken: bool, target: ClaimStatus, comment: string, o1: Outcome, o2: Outcome)
    requires o1 != Succeeded
    ensures var r1 := Confirm(st, hasToken, target, comment, o1);
            Confirm(r1.state, hasToken, target, comment, o2).sent == r1.sent
  {
  }

  // ------------------------------------------------------- create and edit

  /** Values of the claim form after its validators passed (dates as day numbers). */
  datatype ClaimForm = ClaimForm(name: string, projectId: string, approverId: string, startDay: int, endDay: int, workTime: int)

  /** The body of `POST /claims`. */
  datatype NewClaim = NewClaim(userId: string, projectId: string, approverId: string, name: string,
                               startDay: int, endDay: int, workTime: int, status: ClaimStatus, remark: string)

  /** The server's answer to a create: the stored claim, a refusal, or an exception. */
  datatype Created = Created(claim: Claim) | CreateRefused | CreateThrew

  datatype AddStep = AddStep(claims: seq<Claim>, sent: Option<NewClaim>, dialogOpen: bool)

  /** The body a create sends for the form. */
  function NewClaimBody(userId: string, form: ClaimForm): NewClaim {
    NewClaim(userId, form.projectId, form.approverId, form.name,
             form.startDay, form.endDay, form.workTime, Draft, "")
  }

  /** The row a server makes of a create's body when it stores it as sent,
      under the id it assigns. */
  function StoredAs(n: NewClaim, id: string): Claim {
    Claim(id, n.userId, n.name, n.projectId, n.approverId, n.startDay, n.endDay, n.workTime, n.status)
  }

  /** `handleEditClick`: the edit form is filled from the row. */
  function PrefilledForm(c: Claim): ClaimForm {
    ClaimForm(c.name, c.projectId, c.approverId, c.startDay, c.endDay, c.workTime)
  }

  /** `handleAddModalOk`: without a user id or a token nothing is sent. A new
      claim is always sent as a "Draft" with an empty remark; the claim the
      server stores is appended at the end of the list and the dialog closes.
      A refusal or an exception keeps the list and the open dialog. */
  function AddClaim(claims: seq<Claim>, userId: string, hasToken: bool, form: ClaimForm, answer: Created): (r: AddStep)
    ensures r.sent.None? <==> userId == "" || !hasToken
    ensures r.sent.Some? ==> r.sent.value.status == Draft && r.sent.value.remark == ""
    ensures r.sent.Some? ==> r.sent.value.userId == userId && r.sent.value.name == form.name
                             && r.sent.value.projectId == form.projectId && r.sent.value.approverId == form.approverId
    ensures r.sent.Some? ==> r.sent.value.startDay == form.startDay && r.sent.value.endDay == form.endDay
                             && r.sent.value.workTime == form.workTime
    ensures r.sent.Some? && answer.Created? ==> r.claims == claims + [answer.claim] && !r.dialogOpen
    ensures r.sent.None? || !answer.Created? ==> r.claims == claims && r.dialogOpen
  {
    if userId == "" || !hasToken then AddStep(claims, None, true)
    else
      var sent := NewClaimBody(userId, form);
      match answer
      case Created(c) => AddStep(claims + [c], Some(sent), false)
      case _ => AddStep(claims, Some(sent), true)
  }

  /** The body of `PUT /claims/{id}`. */
  datatype EditedClaim = EditedClaim(id: string, userId: string, projectId: string, approverId: string, name: string,
                                     startDay: int, endDay: int, workTime: int, status: ClaimStatus)

  datatype EditStep = EditStep(claims: seq<Claim>, sent: Option<EditedClaim>)

  /** The row after `{ ...req, ...updatedRequest }`. */
  function ApplyEdit(c: Claim, e: EditedClaim): Claim {
    Claim(c.id, e.userId, e.name, e.projectId, e.approverId, e.startDay, e.endDay, e.workTime, e.status)
  }

  /** `handleEditModalOk`: without the claim being edited or a token nothing is
      sent. The request re-sends the edited claim's own status; on success every
      row with that id takes the form's values, all other rows stay as they were. */
  function EditClaim(claims: seq<Claim>, current: Option<Claim>, userId: string, hasToken: bool, form: ClaimForm, outcome: Outcome): (r: EditStep)
    ensures r.sent.None? <==> current.None? || !hasToken
    ensures r.sent.Some? ==> r.sent.value.status == current.value.status && r.sent.value.id == current.value.id
    ensures |r.claims| == |claims|
    ensures r.sent.None? || outcome != Succeeded ==> r.claims == claims
    ensures forall k :: 0 <= k < |claims| && (current.None? || claims[k].id != current.value.id) ==> r.claims[k] == claims[k]
    ensures forall k :: 0 <= k < |claims| && current.Some? && claims[k].id == current.value.id && hasToken && outcome == Succeeded ==>
              r.claims[k].id == claims[k].id && r.claims[k].status == current.value.status
              && r.claims[k].name == form.name && r.claims[k].startDay == form.startDay && r.claims[k].endDay == form.endDay
    ensures r.sent.Some? ==> r.sent.value.userId == userId && r.sent.value.name == form.name
                             && r.sent.value.projectId == form.projectId && r.sent.value.approverId == form.approverId
                             && r.sent.value.startDay == form.startDay && r.sent.value.endDay == form.endDay
                             && r.sent.value.workTime == form.workTime
    ensures forall k :: 0 <= k < |claims| && r.sent.Some? && outcome == Succeeded && claims[k].id == r.sent.value.id ==>
              r.claims[k] == ApplyEdit(claims[k], r.sent.value)
  {
    if current.None? || !hasToken then EditStep(claims, None)
    else
      var cur := current.value;
      var e := EditedClaim(cur.id, userId, form.projectId, form.approverId, form.name,
                           form.startDay, form.endDay, form.workTime, cur.status);
      if outcome == Succeeded then
        EditStep(seq(|claims|, k requires 0 <= k < |claims| => if claims[k].id == cur.id then ApplyEdit(claims[k], e) else claims[k]), Some(e))
      else EditStep(claims, Some(e))
  }

  /** A claim created from a form, and stored by the server as it was sent,
      is appended as a "Draft" whose edit form is that same form again. */
  lemma AddedClaimPrefillsForm(claims: seq<Claim>, userId: string, form: ClaimForm, id: string)
    requires userId != ""
    ensures var c := StoredAs(NewClaimBody(userId, form), id);
            var r := AddClaim(claims, userId, true, form, Created(c));
            r.sent == Some(NewClaimBody(userId, form)) && |r.claims| == |claims| + 1
            && r.claims[|claims|] == c && c.status == Draft && c.ownerId == userId
            && PrefilledForm(r.claims[|claims|]) == form
  {
  }

  /** Opening a row for editing and saving the form untouched leaves the
      list as it was, whatever the server answers, provided the row's id is
      not shared with a different row and the signed-in user owns it (the
      body carries the signed-in user's id, not the row's). */
  lemma EditWithPrefilledFormKeepsRows(claims: seq<Claim>, j: nat, hasToken: bool, outcome: Outcome)
    requires j < |claims|
    requires forall k :: 0 <= k < |claims| && claims[k].id == claims[j].id ==> claims[k] == claims[j]
    ensures EditClaim(claims, Some(claims[j]), claims[j].ownerId, hasToken, PrefilledForm(claims[j]), outcome).claims == claims
  {
  }

  /** Editing never changes a status: when the claim being edited was taken
      from the list, every row keeps its status whatever the server answers. */
  lemma EditKeepsStatuses(claims: seq<Claim>, j: nat, userId: string, hasToken: bool, form: ClaimForm, outcome: Outcome)
    requires j < |claims|
    requires forall k :: 0 <= k < |claims| && claims[k].id == claims[j].id ==> claims[k].status == claims[j].status
    ensures var r := EditClaim(claims, Some(claims[j]), userId, hasToken, form, outcome);
            forall k :: 0 <= k < |claims| ==> r.claims[k].status == claims[k].status
  {
  }

  // ------------------------------------------------------------ validators

  /** A project the user belongs to, with its first and last day. */
  datatype ProjectWindow = ProjectWindow(id: string, startDay: int, endDay: int)

  /** `projects.find(p => p._id === id)`. */
  function FindProject(projects: seq<ProjectWindow>, id: string): (r: Option<ProjectWindow>)
    ensures r.Some? ==> r.value in projects && r.value.id == id
    ensures r.None? ==> forall k :: 0 <= k < |projects| ==> projects[k].id != id
  {
    if projects == [] then None
    else if projects[0].id == id then Some(projects[0])
    else FindProject(projects[1..], id)
  }

  datatype DateError = Required | NoProject | BeforeProjectStart | AfterProjectEnd | BeforeClaimStart

  /** The start-date rule: required, a project must be chosen, and the day must
      lie within the project's days. */
  function StartDateError(value: Option<int>, project: Option<ProjectWindow>): (r: Option<DateError>)
    ensures r == None <==> value.Some? && project.Some? && project.value.startDay <= value.value <= project.value.endDay
    ensures value.None? ==> r == Some(Required)
  {
    if value.None? then Some(Required)
    else if project.None? then Some(NoProject)
    else if value.value < project.value.startDay then Some(BeforeProjectStart)
    else if value.value > project.value.endDay then Some(AfterProjectEnd)
    else None
  }

  /** The end-date rule: required, a project must be chosen, not before the
      chosen start day (skipped while no start day is chosen), not after the
      project's end and not before the project's start, checked in that order. */
  function EndDateError(value: Option<int>, start: Option<int>, project: Option<ProjectWindow>): (r: Option<DateError>)
    ensures r == None <==> value.Some? && project.Some?
                           && (start.Some? ==> start.value <= value.value)
                           && project.value.startDay <= value.value <= project.value.endDay
    ensures value.None? ==> r == Some(Required)
  {
    if value.None? then Some(Required)
    else if project.None? then Some(NoProject)
    else if start.Some? && value.value < start.value then Some(BeforeClaimStart)
    else if value.value > project.value.endDay then Some(AfterProjectEnd)
    else if value.value < project.value.startDay then Some(BeforeProjectStart)
    else None
  }

  /** Both date fields pass exactly when the claim's days nest inside the project's. */
  lemma DatesAcceptedIffWithinProject(s: int, e: int, p: ProjectWindow)
    ensures StartDateError(Some(s), Some(p)) == None && EndDateError(Some(e), Some(s), Some(p)) == None
            <==> p.startDay <= s <= e <= p.endDay
  {
  }

  datatype HoursError = HoursRequired | NotPositive

  /** `total_work_time`: required and at least 1. */
  function WorkTimeError(value: Option<int>): (r: Option<HoursError>)
    ensures r == None <==> value.Some? && value.value >= 1
  {
    if value.None? then Some(HoursRequired)
    else if value.value < 1 then Some(NotPositive)
    else None
  }

  // ---------------------------------------------------------------- search

  const AllStatuses: string := "All"

  function ClaimerQuery(keyword: string, filter: string, t: TablePage): (q: Query)
    ensures q.status == "" <==> filter == AllStatuses || filter == ""
    ensures q.status != "" ==> q.status == filter
    ensures q.pageNum == RequestPageNum(t) && q.pageSize == t.rowsPerPage && q.keyword == keyword
  {
    Query(keyword, if filter == AllStatuses then "" else filter, RequestPageNum(t), t.rowsPerPage)
  }

  /** The status box's `onChange`: a cleared box means "All", and the table
      goes back to its first page. */
  function SelectStatus(t: TablePage, chosen: Option<string>): (r: (string, TablePage))
    ensures r.1 == t.(page := 0)
    ensures r.0 == (if chosen.None? || chosen.value == "" then AllStatuses else chosen.value)
  {
    (if Truthy(chosen) then chosen.value else AllStatuses, t.(page := 0))
  }

  /** After choosing a status filter the next search asks for page 1 and sends
      an empty status exactly when the box was cleared or set to "All". */
  lemma StatusFilterQuery(t: TablePage, chosen: Option<string>, keyword: string)
    ensures var (filter, t') := SelectStatus(t, chosen);
            var q := ClaimerQuery(keyword, filter, t');
            q.pageNum == 1 && (q.status == "" <==> !Truthy(chosen) || chosen.value == AllStatuses)
  {
  }
}
