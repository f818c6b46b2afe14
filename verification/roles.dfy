/**
 * Role codes as the server stores them in `role_code`, and the `Role` enum the
 * route guards and the side bar compare against.
 */
module Roles {
  import opened Common

  const AdminCode: string := "A001"
  const FinanceCode: string := "A002"
  const ApproverCode: string := "A003"
  const MemberCode: string := "A004"

  /** The `Role` enum: ADMIN, FINANCE, APPROVER and USER, each standing for
      the role code it is compared with. */
  datatype Role = Admin | Finance | Approver | User {
    function Code(): string {
      match this
      case Admin => AdminCode
      case Finance => FinanceCode
      case Approver => ApproverCode
      case User => MemberCode
    }
  }

  /** Reading a role code back as an enum member. */
  function FromCode(code: string): (r: Option<Role>)
    ensures r.Some? ==> r.value.Code() == code
    ensures r.None? ==> forall role: Role :: role.Code() != code
  {
    if code == AdminCode then Some(Admin)
    else if code == FinanceCode then Some(Finance)
    else if code == ApproverCode then Some(Approver)
    else if code == MemberCode then Some(User)
    else None
  }

  lemma CodeRoundTrip(role: Role)
    ensures FromCode(role.Code()) == Some(role)
  {
  }
}
