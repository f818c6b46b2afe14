/**
 * Claim records as the three claim pages hold them, the `claim_status`
 * strings the server uses, and the in-place update by id every page applies
 * after a successful status change.
 */
module Claims {

  /** The statuses the client names. `Returned` is only ever tested for by the
      submitter's action gate; every other string is kept verbatim in `Other`. */
  datatype ClaimStatus =
    | Draft | PendingApproval | Approved | Rejected | Paid | Canceled | Returned
    | Other(text: string)

  /** The `claim_status` string sent to and received from the server. */
  function StatusText(s: ClaimStatus): string {
    match s
    case Draft => "Draft"
    case PendingApproval => "Pending Approval"
    case Approved => "Approved"
    case Rejected => "Rejected"
    case Paid => "Paid"
    case Canceled => "Canceled"
    case Returned => "Returned"
    case Other(t) => t
  }

  function ParseStatus(t: string): ClaimStatus {
    if t == "Draft" then Draft
    else if t == "Pending Approval" then PendingApproval
    else if t == "Approved" then Approved
    else if t == "Rejected" then Rejected
    else if t == "Paid" then Paid
    else if t == "Canceled" then Canceled
    else if t == "Returned" then Returned
    else Other(t)
  }

  /** A status as parsing produces it: `Other` never carries a named status. */
  predicate Canonical(s: ClaimStatus) {
    s.Other? ==> ParseStatus(s.text) == s
  }

  /** Every server string survives parsing and printing unchanged. */
  lemma ParsePrint(t: string)
    ensures StatusText(ParseStatus(t)) == t
    ensures Canonical(ParseStatus(t))
  {
  }

  /** Every canonical status survives printing and parsing unchanged. */
  lemma PrintParse(s: ClaimStatus)
    requires Canonical(s)
    ensures ParseStatus(StatusText(s)) == s
  {
  }

  /** Comparing parsed statuses is comparing the server's strings. */
  lemma ParseInjective(t: string, u: string)
    ensures ParseStatus(t) == ParseStatus(u) <==> t == u
  {
    ParsePrint(t);
    ParsePrint(u);
  }

  /** One row of a claim table (`claim_name`, `project_id`, `approval_id`,
      dates as day numbers, `total_work_time`, `claim_status`). */
  datatype Claim = Claim(
    id: string,
    ownerId: string,
    name: string,
    projectId: string,
    approverId: string,
    startDay: int,
    endDay: int,
    workTime: int,
    status: ClaimStatus)

  /** The body of `PUT /claims/change-status`: claim id, target status, comment. */
  datatype StatusChange = StatusChange(id: string, status: ClaimStatus, comment: string)

  /** `claims.map(c => c._id === id ? { ...c, claim_status: status } : c)`. */
  function SetStatus(claims: seq<Claim>, id: string, status: ClaimStatus): (r: seq<Claim>)
    ensures |r| == |claims|
    ensures forall k :: 0 <= k < |r| ==> r[k].id == claims[k].id
    ensures forall k :: 0 <= k < |r| && claims[k].id != id ==> r[k] == claims[k]
    ensures forall k :: 0 <= k < |r| && claims[k].id == id ==> r[k].status == status
    ensures forall k :: 0 <= k < |r| ==> r[k].(status := claims[k].status) == claims[k]
  {
    seq(|claims|, k requires 0 <= k < |claims| =>
      if claims[k].id == id then claims[k].(status := status) else claims[k])
  }

  /** Applying the same status twice is applying it once. */
  lemma SetStatusIdempotent(claims: seq<Claim>, id: string, status: ClaimStatus)
    ensures SetStatus(SetStatus(claims, id, status), id, status) == SetStatus(claims, id, status)
  {
  }

  /** Updates of two different claims do not interfere. */
  lemma SetStatusCommutes(claims: seq<Claim>, id1: string, s1: ClaimStatus, id2: string, s2: ClaimStatus)
    requires id1 != id2
    ensures SetStatus(SetStatus(claims, id1, s1), id2, s2) == SetStatus(SetStatus(claims, id2, s2), id1, s1)
  {
  }

  /** An id that is not in the list leaves the list as it is. */
  lemma SetStatusAbsent(claims: seq<Claim>, id: string, status: ClaimStatus)
    requires forall k :: 0 <= k < |claims| ==> claims[k].id != id
    ensures SetStatus(claims, id, status) == claims
  {
  }
}
