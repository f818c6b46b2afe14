/**
 * The approver's page (`ApprovalPage`): which actions a pending claim offers,
 * the reason dialog that sends the decision, the rows a fetched page keeps,
 * the search request and the "from-to of count" label of the table.
 */
module ApprovalPage {
  import opened Common
  import opened Claims
  import opened Paging
  import Seqs

  // ---------------------------------------------------------------- row gate

  datatype Button = Approve | Reject | Return | Download

  /** The buttons of one row: all four for a "Pending Approval" claim, none
      for any other status. */
  function RowButtons(status: ClaimStatus): (r: set<Button>)
    ensures r == {} || r == {Approve, Reject, Return, Download}
    ensures Approve in r <==> status == PendingApproval
  {
    if status == PendingApproval then {Approve, Reject, Return, Download} else {}
  }

  /** The three decision buttons are disabled while a request is loading; the
      download button never is. */
  function Enabled(b: Button, loading: bool): (r: bool)
    ensures b == Download ==> r
    ensures b != Download ==> (r <==> !loading)
  {
    b == Download || !loading
  }

  // --------------------------------------------------------- reason dialog

  /** The decision a button stands for. */
  datatype Action = ApproveAction | RejectAction | ReturnAction

  /** The status `handleApprove`, `handleReject` and `handleReturn` put in
      `currentAction`: returning a claim sends it back to "Draft", there is no
      separate returned status. */
  function Target(a: Action): (s: ClaimStatus)
    ensures s == Approved <==> a == ApproveAction
    ensures s == Rejected <==> a == RejectAction
    ensures s == Draft <==> a == ReturnAction
  {
    match a
    case ApproveAction => Approved
    case RejectAction => Rejected
    case ReturnAction => Draft
  }

  /** The claims on screen, `currentClaimId`, `currentAction`, the typed reason
      and whether the dialog is open. */
  datatype Modal = Modal(claims: seq<Claim>, claimId: Option<string>, action: Option<ClaimStatus>, reason: string, open: bool)

  /** The dialog after a submit, the request it sent, and whether it then
      calls `fetchClaims` to reload the page. */
  datatype SubmitStep = SubmitStep(state: Modal, sent: Option<StatusChange>, refetch: bool)

  /** A row button: remember the claim and the action, and open the dialog. */
  function Open(m: Modal, id: string, a: Action): (r: Modal)
    ensures r.claims == m.claims && r.reason == m.reason && r.open
    ensures r.claimId == Some(id) && r.action == Some(Target(a))
  {
    m.(claimId := Some(id), action := Some(Target(a)), open := true)
  }

  /** `handleCloseModal`: close the dialog and forget claim, action and reason. */
  function Close(m: Modal): (r: Modal)
    ensures r.claims == m.claims && !r.open && r.claimId.None? && r.action.None? && r.reason == ""
  {
    Modal(m.claims, None, None, "", false)
  }

  /** `handleModalSubmit`: nothing happens unless a claim id and an action are
      set. Otherwise the dialog is reset before the request goes out, the
      comment is the typed reason for every action except approval (the reason
      is not checked for emptiness), and only a `success: true` answer changes
      the list, setting the status of the claims with that id, and then
      reloads the page with `fetchClaims`. */
  function Submit(m: Modal, outcome: Outcome): (r: SubmitStep)
    ensures r.sent.None? <==> !Truthy(m.claimId) || m.action.None?
    ensures r.sent.None? ==> r.state == m
    ensures r.sent.Some? ==> r.state.claimId.None? && r.state.action.None? && r.state.reason == "" && !r.state.open
    ensures r.sent.Some? ==> r.sent.value.id == m.claimId.value && r.sent.value.status == m.action.value
    ensures r.sent.Some? ==> r.sent.value.comment == (if m.action.value == Approved then "" else m.reason)
    ensures r.sent.Some? && outcome == Succeeded ==> r.state.claims == SetStatus(m.claims, m.claimId.value, m.action.value)
    ensures outcome != Succeeded ==> r.state.claims == m.claims
    ensures r.refetch <==> r.sent.Some? && outcome == Succeeded
  {
    if !Truthy(m.claimId) || m.action.None? then SubmitStep(m, None, false)
    else
      var id := m.claimId.value;
      var status := m.action.value;
      var sent := StatusChange(id, status, if status != Approved then m.reason else "");
      var claims := if outcome == Succeeded then SetStatus(m.claims, id, status) else m.claims;
      SubmitStep(Modal(claims, None, None, "", false), Some(sent), outcome == Succeeded)
  }

  /** Opening a row's dialog and submitting sends exactly the button's target
      for that row, with an empty comment for an approval whatever was typed. */
  lemma OpenThenSubmit(m: Modal, id: string, a: Action, outcome: Outcome)
    requires id != ""
    ensures var r := Submit(Open(m, id, a), outcome);
            r.sent == Some(StatusChange(id, Target(a), if a == ApproveAction then "" else m.reason))
  {
  }

  /** A rejection or return with an empty reason still goes out. */
  lemma EmptyReasonIsSent(m: Modal, id: string, a: Action, outcome: Outcome)
    requires id != "" && a != ApproveAction && m.reason == ""
    ensures Submit(Open(m, id, a), outcome).sent == Some(StatusChange(id, Target(a), ""))
  {
  }

  /** After a submit the dialog is reset, so a second submit sends nothing. */
  lemma SubmitOnce(m: Modal, o1: Outcome, o2: Outcome)
    ensures var r := Submit(m, o1);
            Submit(r.state, o2).sent.None?
  {
  }

  /** A successful approval leaves every claim with another id untouched and
      makes the chosen one "Approved". */
  lemma ApprovedClaimOnly(m: Modal, id: string, k: nat)
    requires id != "" && k < |m.claims|
    ensures var r := Submit(Open(m, id, ApproveAction), Succeeded);
            |r.state.claims| == |m.claims| &&
            r.state.claims[k] == (if m.claims[k].id == id then m.claims[k].(status := Approved) else m.claims[k])
  {
  }

  // ------------------------------------------------------------ fetching

  /** Neither a draft nor a cancelled claim: what the approver's table shows. */
  predicate Reviewable(c: Claim) {
    c.status != Draft && c.status != Canceled
  }

  /** The rows kept from a fetched page: the reviewable claims, in page order. */
  function KeptRows(page: seq<Claim>): (r: seq<Claim>)
    ensures |r| <= |page|
    ensures forall k :: 0 <= k < |r| ==> r[k] in page && r[k].status != Draft && r[k].status != Canceled
    ensures forall k :: 0 <= k < |page| && page[k].status != Draft && page[k].status != Canceled ==> page[k] in r
  {
    Seqs.Filter(page, Reviewable)
  }

  /** Keeping rows respects the order of the page: the kept rows of a page
      split in two are the kept rows of each half, one after the other. */
  lemma KeptRowsInOrder(a: seq<Claim>, b: seq<Claim>)
    ensures KeptRows(a + b) == KeptRows(a) + KeptRows(b)
  {
    Seqs.FilterAppend(a, b, Reviewable);
  }

  /** A page of pending claims (what the request asks for) is shown in full. */
  lemma PendingPageShownInFull(page: seq<Claim>)
    requires forall k :: 0 <= k < |page| ==> page[k].status == PendingApproval
    ensures KeptRows(page) == page
  {
    Seqs.FilterKeepsAll(page, Reviewable);
  }

  /** The table's rows and `totalItems`. */
  datatype Table = Table(rows: seq<Claim>, totalItems: nat)

  /** `fetchClaims`: a `success: true` answer (a page and its `totalItems`)
      replaces the rows with the kept rows; a refusal or an exception keeps the
      table as it was. */
  function Fetch(t: Table, answer: Option<(seq<Claim>, nat)>): (r: Table)
    ensures answer.None? ==> r == t
    ensures answer.Some? ==> r.totalItems == answer.value.1
    ensures answer.Some? ==> forall k :: 0 <= k < |r.rows| ==> Reviewable(r.rows[k]) && r.rows[k] in answer.value.0
    ensures answer.Some? ==> r.rows == KeptRows(answer.value.0)
  {
    if answer.None? then t else Table(KeptRows(answer.value.0), answer.value.1)
  }

  /** An answer holding only pending claims, as the request asks for, is
      shown row for row; the answer that follows a failed one replaces the
      table just as if the failure had not happened. */
  lemma {:induction false} FetchPendingShowsAnswer(t: Table, page: seq<Claim>, total: nat)
    requires forall k :: 0 <= k < |page| ==> page[k].status == PendingApproval
    ensures Fetch(t, Some((page, total))) == Table(page, total)
    ensures Fetch(Fetch(t, None), Some((page, total))) == Fetch(t, Some((page, total)))
  {
    PendingPageShownInFull(page);
  }

  /** A decision that succeeds reloads the page, and the reload removes the
      decided row: an answer to the pending-only request shows no claim with
      the status just set. */
  lemma {:induction false} DecisionLeavesAfterRefetch(m: Modal, id: string, a: Action, t: Table, page: seq<Claim>, total: nat)
    requires id != ""
    requires forall k :: 0 <= k < |page| ==> page[k].status == PendingApproval
    ensures Submit(Open(m, id, a), Succeeded).refetch
    ensures var rows := Fetch(t, Some((page, total))).rows;
            forall k :: 0 <= k < |rows| ==> rows[k].status != Target(a)
  {
    FetchPendingShowsAnswer(t, page, total);
  }

  /** The search request: always status "Pending Approval", page `page + 1`. */
  function PendingQuery(keyword: string, t: TablePage): (q: Query)
    ensures ParseStatus(q.status) == PendingApproval
    ensures q.pageNum == RequestPageNum(t) && q.pageSize == t.rowsPerPage && q.keyword == keyword
  {
    Query(keyword, StatusText(PendingApproval), RequestPageNum(t), t.rowsPerPage)
  }

  /** After a page-size change the next request asks for the first page. */
  lemma RowsChangeQueriesFirstPage(keyword: string, t: TablePage, rows: nat)
    ensures PendingQuery(keyword, ChangeRowsPerPage(t, rows)).pageNum == 1
  {
  }

  // ----------------------------------------------------------------- label

  /** The "from-to" of `labelDisplayedRows`: "from" is 0 for an empty result
      and `page * rows + 1` otherwise; "to" is `(page + 1) * rows` capped at
      `count`. */
  function Label(page: nat, rows: nat, count: nat): (r: (int, int))
    ensures count == 0 ==> r == (0, 0)
    ensures count > 0 ==> r.0 == page * rows + 1
    ensures r.1 <= count
  {
    (if count == 0 then 0 else page * rows + 1, Min((page + 1) * rows, count))
  }

  /** On a page that holds rows the label spans exactly the rows on it. */
  lemma LabelSpansPage(page: nat, rows: nat, count: nat)
    requires rows > 0 && page * rows < count
    ensures var (from, to) := Label(page, rows, count);
            1 <= from <= to && to - from + 1 == RowsOnPage(page, rows, count)
  {
    assert (page + 1) * rows == page * rows + rows;
  }
}
