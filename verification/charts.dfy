/**
 * The dashboard charts: the member's claim pie (`PieChartComponent`), the
 * admin's claim bar chart (`ClaimRequestBarChart`) and the admin's role
 * chart with the user and project totals (`AdminDashboard`).
 */
module Charts {
  import opened Common
  import opened Text
  import opened Roles
  import opened Users
  import opened Claims
  import Seqs

  /** The six slices and bars, in the order both claim charts draw them. */
  const ChartLabels: seq<string> := ["Pending", "Approved", "Rejected", "Paid", "Cancelled", "Draft"]

  // -------------------------------------------------------------- pie chart

  /** The normalised status texts the pie recognises, slice by slice. */
  const PieKeys: seq<string> := ["pending approval", "approved", "rejected", "paid", "canceled", "draft"]

  /** The slice a `claim_status` goes to: trimmed, lower-cased and matched
      against the six keys; a missing or unknown status goes nowhere (-1). */
  function PieBucket(status: Option<string>): (b: int)
    ensures -1 <= b < 6
  {
    if status.None? then -1 else Seqs.IndexOf(PieKeys, Lower(Trim(status.value)))
  }

  lemma PieKeysDistinct()
    ensures forall i, j :: 0 <= i < j < |PieKeys| ==> PieKeys[i] != PieKeys[j]
  {
  }

  lemma PieBucketOfNormal(status: Option<string>, t: string)
    requires status.Some? && Lower(Trim(status.value)) == t
    ensures PieBucket(status) == Seqs.IndexOf(PieKeys, t)
  {
  }

  /** `processClaimsData`: six counters fed claim by claim, one slice per
      recognised status. */
  method ProcessClaimsData(statuses: seq<Option<string>>) returns (counts: seq<nat>)
    ensures |counts| == 6
    ensures forall k :: 0 <= k < 6 ==> counts[k] == Seqs.Occurrences(statuses, PieBucket, k)
    ensures Seqs.Sum(counts) <= |statuses|
  {
    counts := Seqs.CountInto(statuses, PieBucket, 6);
  }

  // -------------------------------------------------------------- bar chart

  /** The exact `claim_status` strings the bars count, bar by bar. */
  const BarKeys: seq<string> := ["Pending Approval", "Approved", "Rejected", "Paid", "Canceled", "Draft"]

  /** The bar a status is counted in: exact, case-sensitive equality. */
  function BarBucket(status: Option<string>): (b: int)
    ensures -1 <= b < 6
    ensures 0 <= b <==> status.Some? && status.value in BarKeys
    ensures 0 <= b ==> BarKeys[b] == status.value
  {
    if status.None? then -1 else Seqs.IndexOf(BarKeys, status.value)
  }

  /** The bar keys are distinct, so a status is in bar `k` exactly when it
      is the `k`-th key. */
  lemma BarBucketIs(x: Option<string>, k: int)
    requires 0 <= k < 6
    ensures BarBucket(x) == k <==> x == Some(BarKeys[k])
  {
    BarKeysDistinct();
    Seqs.IndexOfDistinct(BarKeys, k);
  }

  lemma BarKeysDistinct()
    ensures forall i, j :: 0 <= i < j < |BarKeys| ==> BarKeys[i] != BarKeys[j]
  {
  }

  function StatusIs(key: string): Option<string> -> bool {
    (s: Option<string>) => s == Some(key)
  }

  /** `claimRequestData.datasets[0].data`: one `filter(...).length` per bar.
      The bars count disjoint sets of claims, so together they never count
      more claims than there are. */
  function ClaimRequestData(statuses: seq<Option<string>>): (r: seq<nat>)
    ensures |r| == 6
    ensures forall k :: 0 <= k < 6 ==> r[k] == Seqs.Occurrences(statuses, BarBucket, k)
    ensures Seqs.Sum(r) <= |statuses|
  {
    var r := seq(6, k requires 0 <= k < 6 => |Seqs.Filter(statuses, StatusIs(BarKeys[k]))|);
    forall k | 0 <= k < 6
      ensures r[k] == Seqs.Occurrences(statuses, BarBucket, k)
    {
      forall x ensures StatusIs(BarKeys[k])(x) == (BarBucket(x) == k) {
        BarBucketIs(x, k);
      }
      Seqs.OccurrencesIsFilterLength(statuses, BarBucket, k, StatusIs(BarKeys[k]));
    }
    assert r == Seqs.Tallies(statuses, BarBucket, 6);
    r
  }

  /** No bar key has white space at either end, so trimming keeps it. */
  lemma BarKeysTrimmed(t: string, k: int)
    requires 0 <= k < 6 && t == BarKeys[k]
    ensures Trim(t) == t
  {
    TrimKeepsUnpadded(t);
  }

  /** Lower-casing a bar key gives the pie's key for the same slice. */
  lemma BarKeysLowered(t: string, k: int)
    requires 0 <= k < 6 && t == BarKeys[k]
    ensures Lower(t) == PieKeys[k]
  {
    assert Lower(t) == PieKeys[k];
  }

  /** Each exact bar key, trimmed and lower-cased, is the pie's key for the
      same slice. */
  lemma BarKeysNormalise(t: string, k: int)
    requires 0 <= k < 6 && t == BarKeys[k]
    ensures Lower(Trim(t)) == PieKeys[k]
  {
    BarKeysTrimmed(t, k);
    BarKeysLowered(t, k);
  }

  /** A status the bar chart counts in bar `k` lands in slice `k` of the pie. */
  lemma BarImpliesPie(status: Option<string>, k: int)
    requires 0 <= k < 6 && status == Some(BarKeys[k])
    ensures PieBucket(status) == k
  {
    BarKeysNormalise(status.value, k);
    PieKeysDistinct();
    Seqs.IndexOfDistinct(PieKeys, k);
    PieBucketOfNormal(status, PieKeys[k]);
  }

  /** Over the same claims, no bar is taller than its slice: the pie counts
      everything the bar counts, and also statuses that differ in case or
      surrounding white space. */
  lemma BarNeverExceedsPie(statuses: seq<Option<string>>, k: int)
    requires 0 <= k < 6
    ensures Seqs.Occurrences(statuses, BarBucket, k) <= Seqs.Occurrences(statuses, PieBucket, k)
  {
    forall x | BarBucket(x) == k
      ensures PieBucket(x) == k
    {
      BarBucketIs(x, k);
      BarImpliesPie(x, k);
    }
    Seqs.OccurrencesMonotone(statuses, BarBucket, PieBucket, k);
  }

  /** The named statuses land in the same place in both charts; "Returned"
      is counted in neither. */
  lemma NamedStatusesAgree(s: ClaimStatus)
    requires !s.Other?
    ensures PieBucket(Some(StatusText(s))) == BarBucket(Some(StatusText(s)))
    ensures s == Returned <==> BarBucket(Some(StatusText(s))) == -1
  {
    if s != Returned {
      var k := BarBucket(Some(StatusText(s)));
      BarBucketIs(Some(StatusText(s)), k);
      BarImpliesPie(Some(StatusText(s)), k);
    } else {
      ReturnedNotCharted(StatusText(s));
    }
  }

  lemma ReturnedNotCharted(t: string)
    requires t == "Returned"
    ensures PieBucket(Some(t)) == -1 && BarBucket(Some(t)) == -1
  {
    ReturnedNormalises(t);
    ReturnedIsNoKey();
    PieBucketOfNormal(Some(t), "returned");
  }

  lemma ReturnedNormalises(t: string)
    requires t == "Returned"
    ensures Lower(Trim(t)) == "returned"
  {
    ReturnedTrimmed(t);
    ReturnedLowered(t);
  }

  lemma ReturnedTrimmed(t: string)
    requires t == "Returned"
    ensures Trim(t) == t
  {
    TrimKeepsUnpadded(t);
  }

  lemma ReturnedLowered(t: string)
    requires t == "Returned"
    ensures Lower(t) == "returned"
  {
    assert Lower(t) == "returned";
  }

  lemma ReturnedIsNoKey()
    ensures "Returned" !in BarKeys && "returned" !in PieKeys
  {
  }

  // -------------------------------------------------------- admin dashboard

  /** The role chart's bars, labelled Admin, Approval, Finance and User, and
      the codes they count: label order, not code order. */
  const RoleChartLabels: seq<string> := ["Admin", "Approval", "Finance", "User"]
  const RoleChartCodes: seq<string> := [AdminCode, ApproverCode, FinanceCode, MemberCode]

  function RoleBucket(u: User): (b: int)
    ensures -1 <= b < 4
    ensures 0 <= b ==> RoleChartCodes[b] == u.roleCode
    ensures b == -1 ==> u.roleCode !in RoleChartCodes
  {
    if u.roleCode == AdminCode then 0
    else if u.roleCode == ApproverCode then 1
    else if u.roleCode == FinanceCode then 2
    else if u.roleCode == MemberCode then 3
    else -1
  }

  function HasCode(code: string): User -> bool {
    (u: User) => u.roleCode == code
  }

  /** The role chart: per bar, how many loaded users hold exactly that code.
      Users with any other code are in no bar. */
  function RoleCounts(users: seq<User>): (r: seq<nat>)
    ensures |r| == 4
    ensures forall k :: 0 <= k < 4 ==> r[k] == Seqs.Occurrences(users, RoleBucket, k)
    ensures Seqs.Sum(r) <= |users|
  {
    var r := seq(4, k requires 0 <= k < 4 => |Seqs.Filter(users, HasCode(RoleChartCodes[k]))|);
    forall k | 0 <= k < 4
      ensures r[k] == Seqs.Occurrences(users, RoleBucket, k)
    {
      Seqs.OccurrencesIsFilterLength(users, RoleBucket, k, HasCode(RoleChartCodes[k]));
    }
    assert r == Seqs.Tallies(users, RoleBucket, 4);
    r
  }

  /** The name a role goes by on the chart. */
  function ChartName(role: Role): string {
    match role
    case Admin => "Admin"
    case Approver => "Approval"
    case Finance => "Finance"
    case User => "User"
  }

  /** Every bar counts the role its label names. */
  lemma RoleBarsMatchLabels()
    ensures forall k :: 0 <= k < 4 ==>
              FromCode(RoleChartCodes[k]).Some? && ChartName(FromCode(RoleChartCodes[k]).value) == RoleChartLabels[k]
  {
  }

  /** What the dashboard shows: the loaded users and the two totals. */
  datatype Dashboard = Dashboard(users: seq<User>, userCount: int, projectCount: int)

  /** `fetchUsers`: `searchUsers` never throws, so a failed request arrives
      as its fallback page. An answer without page info changes nothing
      (reading its total throws). Otherwise the user total is the answer's
      `totalItems`, and the users are its rows, or none when the rows are
      missing. */
  function FetchUsers(d: Dashboard, server: Option<UsersReply>): (r: Dashboard)
    ensures var reply := SearchUsersResult(server);
            reply.pageInfo.None? ==> r == d
    ensures var reply := SearchUsersResult(server);
            reply.pageInfo.Some? ==>
              r.userCount == reply.pageInfo.value.totalItems
              && r.users == (if reply.pageData.Some? then reply.pageData.value else [])
    ensures r.projectCount == d.projectCount
  {
    var reply := SearchUsersResult(server);
    if reply.pageInfo.None? then d
    else Dashboard(if reply.pageData.Some? then reply.pageData.value else [], reply.pageInfo.value.totalItems, d.projectCount)
  }

  /** A failed user request empties the dashboard's users and shows a total
      of 0, whatever was shown before. */
  lemma FailedUserFetchShowsNone(d: Dashboard)
    ensures FetchUsers(d, None) == Dashboard([], 0, d.projectCount)
  {
  }

  /** `fetchProjects`: `searchProject` rethrows, so a failed request, like an
      answer without page info, leaves the dashboard as it was. Only the
      project total can change. */
  function FetchProjects(d: Dashboard, info: Option<PageInfo>): (r: Dashboard)
    ensures r.users == d.users && r.userCount == d.userCount
    ensures info.Some? ==> r.projectCount == info.value.totalItems
  {
    if info.None? then d else d.(projectCount := info.value.totalItems)
  }

  /** The two fetches started together on mount touch different parts of
      the dashboard, so the order in which they settle does not matter. */
  lemma FetchesCommute(d: Dashboard, server: Option<UsersReply>, info: Option<PageInfo>)
    ensures FetchUsers(FetchProjects(d, info), server) == FetchProjects(FetchUsers(d, server), info)
  {
  }

  /** The user total on the card is the server's count of all users, while
      the chart counts the loaded page only: the two agree only when the
      page holds every user with a charted role. */
  lemma TotalIsServersChartIsPages(d: Dashboard, rows: seq<User>, info: PageInfo)
    ensures var r := FetchUsers(d, Some(UsersReply(Some(rows), Some(info))));
            r.userCount == info.totalItems && Seqs.Sum(RoleCounts(r.users)) <= |rows|
  {
  }
}
