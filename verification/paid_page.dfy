/**
 * The finance page (`PaidPage`): the Paid action offered for approved claims,
 * its confirm dialog, the search request and the table label.
 */
module PaidPage {
  import opened Common
  import opened Claims
  import opened Paging
  import ApprovalPage

  // ---------------------------------------------------------------- row gate

  datatype Button = MarkPaid | Download

  /** Both buttons show for an "Approved" claim and neither for any other. */
  function RowButtons(status: ClaimStatus): (r: set<Button>)
    ensures r == {} || r == {MarkPaid, Download}
    ensures MarkPaid in r <==> status == Approved
  {
    if status == Approved then {MarkPaid, Download} else {}
  }

  // -------------------------------------------------------- confirm dialog

  /** The claims on screen, `selectedClaim` and whether the dialog is open. */
  datatype Dialog = Dialog(claims: seq<Claim>, selected: Option<Claim>, open: bool)

  /** The dialog after a confirm, the request it sent, and whether it then
      calls `fetchClaims` to reload the page. */
  datatype PaidStep = PaidStep(state: Dialog, sent: Option<StatusChange>, refetch: bool)

  /** `handleOpenConfirmDialog`. */
  function OpenDialog(d: Dialog, c: Claim): (r: Dialog)
    ensures r == Dialog(d.claims, Some(c), true)
  {
    d.(selected := Some(c), open := true)
  }

  /** The dialog's confirm button, `selectedClaim && handlePaid(selectedClaim)`:
      without a selected claim nothing happens. Otherwise "Paid" is sent with
      an empty comment; a `success: true` answer marks the claims with that id
      paid and reloads the page with `fetchClaims`; and whatever the answer, the dialog closes and the selection is
      cleared. */
  function ConfirmPaid(d: Dialog, outcome: Outcome): (r: PaidStep)
    ensures r.sent.None? <==> d.selected.None?
    ensures r.sent.None? ==> r.state == d
    ensures r.sent.Some? ==> r.sent.value == StatusChange(d.selected.value.id, Paid, "")
    ensures r.sent.Some? ==> !r.state.open && r.state.selected.None?
    ensures r.sent.Some? && outcome == Succeeded ==> r.state.claims == SetStatus(d.claims, d.selected.value.id, Paid)
    ensures outcome != Succeeded ==> r.state.claims == d.claims
    ensures r.refetch <==> r.sent.Some? && outcome == Succeeded
  {
    if d.selected.None? then PaidStep(d, None, false)
    else
      var id := d.selected.value.id;
      var claims := if outcome == Succeeded then SetStatus(d.claims, id, Paid) else d.claims;
      PaidStep(Dialog(claims, None, false), Some(StatusChange(id, Paid, "")), outcome == Succeeded)
  }

  /** The table's claims and `totalCount`. */
  datatype PaidTable = PaidTable(claims: seq<Claim>, totalCount: int)

  /** `fetchClaims`: a `success: true` answer (its page and `totalItems`)
      replaces the claims and the count as they are; a refusal or an exception
      keeps the table. Unlike the approver's page, no client-side filter is
      applied. */
  function Fetch(t: PaidTable, answer: Option<(seq<Claim>, int)>): (r: PaidTable)
    ensures answer.None? ==> r == t
    ensures answer.Some? ==> r.claims == answer.value.0 && r.totalCount == answer.value.1
  {
    if answer.None? then t else PaidTable(answer.value.0, answer.value.1)
  }

  /** A payment that succeeds reloads the page, and a reload answered with
      approved claims, which is what the request asks for, lists no paid
      claim: the paid row leaves the table. */
  lemma PaidLeavesAfterRefetch(d: Dialog, c: Claim, t: PaidTable, page: seq<Claim>, total: int)
    requires forall k :: 0 <= k < |page| ==> page[k].status == Approved
    ensures ConfirmPaid(OpenDialog(d, c), Succeeded).refetch
    ensures var rows := Fetch(t, Some((page, total))).claims;
            forall k :: 0 <= k < |rows| ==> rows[k].status != Paid
  {
  }

  /** Paying a row: only that claim becomes "Paid" and it keeps every other field. */
  lemma PayOnlySelected(d: Dialog, c: Claim, k: nat)
    requires k < |d.claims|
    ensures var r := ConfirmPaid(OpenDialog(d, c), Succeeded).state.claims;
            |r| == |d.claims| &&
            r[k] == (if d.claims[k].id == c.id then d.claims[k].(status := Paid) else d.claims[k])
  {
  }

  /** A failed payment closes the dialog too, so nothing is re-sent until the
      user picks the claim again. */
  lemma FailedPaymentNotRepeated(d: Dialog, c: Claim, o1: Outcome, o2: Outcome)
    requires o1 != Succeeded
    ensures var r := ConfirmPaid(OpenDialog(d, c), o1);
            r.state.claims == d.claims && ConfirmPaid(r.state, o2).sent.None?
  {
  }

  // ------------------------------------------------------- query and label

  /** The finance search: always status "Approved", page `page + 1`. */
  function ApprovedQuery(keyword: string, t: TablePage): (q: Query)
    ensures ParseStatus(q.status) == Approved
    ensures q.pageNum == RequestPageNum(t) && q.pageSize == t.rowsPerPage && q.keyword == keyword
  {
    Query(keyword, StatusText(Approved), RequestPageNum(t), t.rowsPerPage)
  }

  /** This page's "from-to": "from" is `page * rows + 1` even for an empty
      result; "to" is `(page + 1) * rows` capped at `count`. */
  function Label(page: nat, rows: nat, count: nat): (r: (int, int))
    ensures r.0 >= 1 && r.1 <= count
    ensures r.0 == page * rows + 1
  {
    (page * rows + 1, Min((page + 1) * rows, count))
  }

  /** The two pages' label formulas agree on every non-empty result and
      differ on an empty one, where this page's gives "1-0" and the
      approver's "0-0". Neither label is drawn then, since both pages render
      the pagination only while rows are listed; the difference would show
      only if the server reported a total of 0 together with rows. */
  lemma LabelAgainstApprovalLabel(page: nat, rows: nat, count: nat)
    ensures count > 0 ==> Label(page, rows, count) == ApprovalPage.Label(page, rows, count)
    ensures count == 0 ==> Label(page, rows, count).0 > Label(page, rows, count).1
                           && Label(page, rows, count) != ApprovalPage.Label(page, rows, count)
  {
  }
}
