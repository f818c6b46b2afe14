/**
 * The claim lifecycle as a whole: the transition table the three claim pages
 * share between them, checked against what each page's row gate offers and
 * what each page's handler writes into its list.
 */
module Workflow {
  import opened Common
  import opened Claims
  import RequestPage
  import ApprovalPage
  import PaidPage

  /** The lifecycle: a draft is submitted or cancelled by its owner; a pending
      claim is approved, rejected or returned to draft by the approver; an
      approved claim is paid by finance. Nothing else moves a claim. */
  predicate Allowed(from: ClaimStatus, to: ClaimStatus) {
    || (from == Draft && (to == PendingApproval || to == Canceled))
    || (from == PendingApproval && (to == Approved || to == Rejected || to == Draft))
    || (from == Approved && to == Paid)
  }

  /** A status no transition leaves. */
  predicate Terminal(s: ClaimStatus) {
    s == Paid || s == Canceled || s == Rejected
  }

  /** A transition some page offers a button for: the submitter's request
      approval and cancel, the approver's three decisions, finance's paid. */
  predicate Offered(from: ClaimStatus, to: ClaimStatus) {
    || (RequestPage.RequestApproval in RequestPage.RowButtons(from) && to == PendingApproval)
    || (RequestPage.CancelClaim in RequestPage.RowButtons(from) && to == Canceled)
    || (ApprovalPage.Approve in ApprovalPage.RowButtons(from)
        && to in {ApprovalPage.Target(ApprovalPage.ApproveAction), ApprovalPage.Target(ApprovalPage.RejectAction),
                  ApprovalPage.Target(ApprovalPage.ReturnAction)})
    || (PaidPage.MarkPaid in PaidPage.RowButtons(from) && to == Paid)
  }

  /** Away from the "Returned" status the pages offer exactly the lifecycle's
      transitions: nothing more and nothing missing. */
  lemma OfferedIffAllowed(from: ClaimStatus, to: ClaimStatus)
    requires from != Returned
    ensures Offered(from, to) <==> Allowed(from, to)
  {
  }

  /** The submitter's gate also accepts "Returned", a status no transition of
      the lifecycle produces, and offers to submit or cancel it from there. */
  lemma ReturnedOfferedOutsideLifecycle()
    ensures Offered(Returned, PendingApproval) && !Allowed(Returned, PendingApproval)
    ensures Offered(Returned, Canceled) && !Allowed(Returned, Canceled)
    ensures forall s: ClaimStatus :: !Allowed(s, Returned)
  {
  }

  /** A terminal claim has no transition and no page offers it an action. */
  lemma TerminalOffersNothing(s: ClaimStatus, to: ClaimStatus)
    requires Terminal(s)
    ensures !Allowed(s, to) && !Offered(s, to)
    ensures RequestPage.RowButtons(s) == {RequestPage.ViewLogs, RequestPage.Download}
    ensures ApprovalPage.RowButtons(s) == {} && PaidPage.RowButtons(s) == {}
  {
  }

  /** The submitter confirming a request for approval on an offered row moves
      that row along an allowed transition. */
  lemma SubmitFollowsLifecycle(st: RequestPage.ConfirmState, k: nat)
    requires k < |st.claims| && st.selected == Some(st.claims[k].id)
    requires RequestPage.RequestApproval in RequestPage.RowButtons(st.claims[k].status) && st.claims[k].status != Returned
    ensures var r := RequestPage.ConfirmApproval(st, true, Succeeded);
            Allowed(st.claims[k].status, r.state.claims[k].status)
  {
  }

  /** The same for the submitter's cancel. */
  lemma CancelFollowsLifecycle(st: RequestPage.ConfirmState, k: nat)
    requires k < |st.claims| && st.selected == Some(st.claims[k].id)
    requires RequestPage.CancelClaim in RequestPage.RowButtons(st.claims[k].status) && st.claims[k].status != Returned
    ensures var r := RequestPage.ConfirmCancel(st, true, Succeeded);
            Allowed(st.claims[k].status, r.state.claims[k].status)
  {
  }

  /** Any of the approver's decisions on an offered row follows the lifecycle. */
  lemma DecisionFollowsLifecycle(m: ApprovalPage.Modal, k: nat, a: ApprovalPage.Action)
    requires k < |m.claims| && m.claims[k].id != ""
    requires ApprovalPage.Approve in ApprovalPage.RowButtons(m.claims[k].status)
    ensures var r := ApprovalPage.Submit(ApprovalPage.Open(m, m.claims[k].id, a), Succeeded);
            Allowed(m.claims[k].status, r.state.claims[k].status)
  {
  }

  /** Paying an offered row follows the lifecycle. */
  lemma PaymentFollowsLifecycle(d: PaidPage.Dialog, k: nat)
    requires k < |d.claims|
    requires PaidPage.MarkPaid in PaidPage.RowButtons(d.claims[k].status)
    ensures var r := PaidPage.ConfirmPaid(PaidPage.OpenDialog(d, d.claims[k]), Succeeded);
            Allowed(d.claims[k].status, r.state.claims[k].status)
  {
  }
}
