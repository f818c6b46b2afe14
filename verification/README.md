# Claim approval client — a verified model of its page logic

This project models the sequential logic inside the React client of a
claim-approval system. People submit work-time claims against projects. An
approver approves, rejects or returns them, and finance marks approved claims
as paid. Admins manage users and projects. The model covers:

- **The claim lifecycle as the three claim pages drive it.** Each page has a
  row gate (which buttons a status offers), a handler (the request it sends)
  and an in-place list update. Module `Workflow` checks these against one
  lifecycle table.
- **Paging.** 0-based table pages become 1-based request pages. Page resets,
  the "from-to of N" labels, the profile page's infinite scroll and the
  project page's paged user search are all modelled.
- **The multi-column sort** of the project search page: the rule-list toggle,
  and a comparator that puts missing values last.
- **The form validators.** These are the claim dates, the project schemas,
  the user form, phone and e-mail checks, and the login, forgotten-password
  and verify forms.
- **Editing a project's member list**, and the case-insensitive user filters.
- **The counts behind the dashboard charts.**
- **Session and access.** The landing page per role, the side bar, the route
  guard, the session store and the HTTP client's two interceptors.

Every handler is a pure function from the page state, plus the server's answer
given as an input, to the new state and the request it sent. Dates are
integer day numbers.

Role codes are taken as A001 admin, A002 finance, A003 approver and A004
member. The `Role` enum file, src/shared/constants/roles.ts, is not part of
this model. These values agree with the login switch
(src/modules/auth/pages/Login.tsx:76-90) and with the role map of the user
table (src/modules/admin/pages/UserManagement.tsx:79-84).

## Model

| member | source | states |
|---|---|---|
| Claims.SetStatus | src/modules/users/pages/request/RequestPage.tsx:581-589 | The list keeps its length and ids. Rows with the id get the status and keep every other field. All other rows are unchanged. |
| Claims.SetStatusIdempotent | src/modules/approval/pages/ApprovalPage.tsx:214-222 | Applying a status update twice is the same as applying it once. |
| Claims.SetStatusCommutes | src/modules/finance/pages/PaidPage.tsx:185-190 | Updates for two different claim ids do not interfere, in either order. |
| Claims.SetStatusAbsent | src/modules/users/pages/request/RequestPage.tsx:663-671 | An id that is not in the list leaves the list unchanged. |
| Claims.ParsePrint | src/modules/users/pages/request/RequestPage.tsx:218-227 | Every `claim_status` string survives parsing and printing unchanged. |
| Claims.PrintParse | src/modules/approval/pages/ApprovalPage.tsx:124-132 | Every canonical status survives printing and parsing unchanged. |
| Claims.ParseInjective | src/modules/finance/pages/PaidPage.tsx:110-122 | Two parsed statuses are equal exactly when their strings are. |
| RequestPage.RowButtons | src/modules/users/pages/request/RequestPage.tsx:933-1012 | Edit, Cancel and Request Approval appear exactly for "Draft" and "Returned". View Logs and Download always appear. |
| RequestPage.Confirm | src/modules/users/pages/request/RequestPage.tsx:562-617 | A request is sent exactly when an id is selected and a token exists. Only a success updates the list by id, closes the dialog and clears the selection. A refusal or an exception leaves the state as it was. |
| RequestPage.ConfirmApproval | src/modules/users/pages/request/RequestPage.tsx:562-617 | Sends "Pending Approval" with the submit comment. On success exactly the selected claim changes. Otherwise the list is unchanged. |
| RequestPage.ConfirmCancel | src/modules/users/pages/request/RequestPage.tsx:644-699 | Sends "Canceled" with "Canceled by user". On success exactly the selected claim changes. Otherwise the list is unchanged. |
| RequestPage.ConfirmedThenNothingToConfirm | src/modules/users/pages/request/RequestPage.tsx:589-590 | After a successful confirmation the selection is cleared, so a second confirm sends nothing. |
| RequestPage.FailedConfirmRetriesSameRequest | src/modules/users/pages/request/RequestPage.tsx:599-616 | After a failed confirmation, a retry sends the very same request. |
| RequestPage.AddClaim | src/modules/users/pages/request/RequestPage.tsx:407-458 | Sends nothing without a user id or token. A new claim goes out as "Draft" with an empty remark, and every other field of the body comes from the user id and the form. The stored claim is appended at the end of the list and the dialog closes. A failure keeps the list and the dialog. |
| RequestPage.EditClaim | src/modules/users/pages/request/RequestPage.tsx:460-531 | Re-sends the edited claim's own id and status, with the signed-in user and every other field from the form. Only on success does each row with that id become the row spread with the body. Every other row is unchanged. |
| RequestPage.EditKeepsStatuses | src/modules/users/pages/request/RequestPage.tsx:467-477 | Editing a claim taken from the list never changes any row's status, whatever the server answers. |
| RequestPage.AddedClaimPrefillsForm | src/modules/users/pages/request/RequestPage.tsx:407-458 | When the server stores a create as it was sent, the list grows by that "Draft" row, and opening it for editing fills the form it was made from. |
| RequestPage.EditWithPrefilledFormKeepsRows | src/modules/users/pages/request/RequestPage.tsx:460-546 | Saving an edit with the form filled from the row, by the row's owner and with the id not shared by another row, leaves the list as it was, whatever the server answers. |
| RequestPage.FindProject | src/modules/users/pages/request/RequestPage.tsx:1207-1210 | Returns a listed project with the id, or None only when no project has it. |
| RequestPage.StartDateError | src/modules/users/pages/request/RequestPage.tsx:1207-1219 | The start date passes exactly when it is given, a project is chosen and the date lies within the project's days. |
| RequestPage.EndDateError | src/modules/users/pages/request/RequestPage.tsx:1242-1258 | The end date passes exactly when it is given, a project is chosen, it is not before a chosen start, and it lies within the project's days. |
| RequestPage.DatesAcceptedIffWithinProject | src/modules/users/pages/request/RequestPage.tsx:1207-1258 | Both date fields pass exactly when project start <= start <= end <= project end. |
| RequestPage.WorkTimeError | src/modules/users/pages/request/RequestPage.tsx:1281-1284 | The work time passes exactly when it is given and is at least 1. |
| RequestPage.ClaimerQuery | src/modules/users/pages/request/RequestPage.tsx:218-227 | "All" and "" are sent as an empty status; any other filter is sent as it is. `pageNum` is the table page + 1. |
| RequestPage.SelectStatus | src/modules/users/pages/request/RequestPage.tsx:826-832 | A cleared box becomes "All", and the table returns to page 0. |
| RequestPage.StatusFilterQuery | src/modules/users/pages/request/RequestPage.tsx:826-832 | After choosing a filter, the next request asks for page 1. Its status is empty exactly when the box was cleared or set to "All". |
| ApprovalPage.RowButtons | src/modules/approval/pages/ApprovalPage.tsx:730-802 | All four actions appear for "Pending Approval" and none appear for any other status. |
| ApprovalPage.Enabled | src/modules/approval/pages/ApprovalPage.tsx:745-780 | The three decision buttons are enabled exactly while nothing is loading. Download is always enabled. |
| ApprovalPage.Target | src/modules/approval/pages/ApprovalPage.tsx:168-184 | Approve targets "Approved", Reject targets "Rejected" and Return targets "Draft", each exactly. |
| ApprovalPage.Open | src/modules/approval/pages/ApprovalPage.tsx:168-184 | Remembers the claim and the target, and opens the dialog. The list and the typed reason are kept. |
| ApprovalPage.Close | src/modules/approval/pages/ApprovalPage.tsx:255-261 | Closes the dialog and forgets the claim, the action and the reason. The list is kept. |
| ApprovalPage.Submit | src/modules/approval/pages/ApprovalPage.tsx:186-249 | Sends only with a claim id and an action. The dialog is reset. The comment is "" for an approval and the unchecked reason otherwise. Only a success applies the status by id, and exactly a success that was sent reloads the page. |
| ApprovalPage.DecisionLeavesAfterRefetch | src/modules/approval/pages/ApprovalPage.tsx:214-239 | A successful decision reloads the page, and a reload answered with pending claims, as requested, shows no claim with the status just set. |
| ApprovalPage.OpenThenSubmit | src/modules/approval/pages/ApprovalPage.tsx:186-202 | Opening a row and submitting sends exactly that row's id and the button's target. An approval carries an empty comment whatever was typed. |
| ApprovalPage.EmptyReasonIsSent | src/modules/approval/pages/ApprovalPage.tsx:198-202 | A rejection or return with an empty reason still goes out. |
| ApprovalPage.SubmitOnce | src/modules/approval/pages/ApprovalPage.tsx:187-194 | The dialog is reset before the request, so a second submit sends nothing. |
| ApprovalPage.ApprovedClaimOnly | src/modules/approval/pages/ApprovalPage.tsx:214-222 | A successful approval makes exactly the chosen claim "Approved" and leaves every other claim untouched. |
| ApprovalPage.KeptRows | src/modules/approval/pages/ApprovalPage.tsx:141-148 | Keeps exactly the fetched claims that are neither "Draft" nor "Canceled". |
| ApprovalPage.KeptRowsInOrder | src/modules/approval/pages/ApprovalPage.tsx:141-148 | Filtering a page split in two gives the kept rows of each half, one after the other, so page order is kept. |
| ApprovalPage.PendingPageShownInFull | src/modules/approval/pages/ApprovalPage.tsx:141-148 | A page of pending claims, which is what the query asks for, is shown in full. |
| ApprovalPage.Fetch | src/modules/approval/pages/ApprovalPage.tsx:118-155 | A success shows exactly the kept rows of the page, in page order, and takes the server's total. A failure keeps the table. |
| ApprovalPage.FetchPendingShowsAnswer | src/modules/approval/pages/ApprovalPage.tsx:118-155 | A page of pending claims, which is what the request asks for, is shown row for row. An answer after a failed fetch gives the table it would have given without the failure. |
| ApprovalPage.PendingQuery | src/modules/approval/pages/ApprovalPage.tsx:124-132 | The query always asks for "Pending Approval", and for page + 1. |
| ApprovalPage.RowsChangeQueriesFirstPage | src/modules/approval/pages/ApprovalPage.tsx:161-166 | After a page-size change the next query asks for page 1. |
| ApprovalPage.Label | src/modules/approval/pages/ApprovalPage.tsx:820-825 | "from" is 0 for an empty result and page*rows+1 otherwise. "to" never exceeds the count. |
| ApprovalPage.LabelSpansPage | src/modules/approval/pages/ApprovalPage.tsx:820-825 | On a page that holds rows, the label spans exactly the number of rows on that page. |
| PaidPage.RowButtons | src/modules/finance/pages/PaidPage.tsx:656-707 | Paid and Download appear exactly for "Approved". |
| PaidPage.OpenDialog | src/modules/finance/pages/PaidPage.tsx:158-162 | Selects the claim and opens the dialog. The list is kept. |
| PaidPage.ConfirmPaid | src/modules/finance/pages/PaidPage.tsx:168-205 | Sends "Paid" with an empty comment, and only for a selected claim. Only a success marks the claims with that id, and exactly a success that was sent reloads the page. The dialog closes and the selection clears either way. |
| PaidPage.Fetch | src/modules/finance/pages/PaidPage.tsx:106-140 | A success replaces the claims and the count with the server's page and total, unfiltered. A refusal or an exception keeps the table. |
| PaidPage.PaidLeavesAfterRefetch | src/modules/finance/pages/PaidPage.tsx:184-194 | A successful payment reloads the page, and a reload answered with approved claims, as requested, lists no paid claim. |
| PaidPage.PayOnlySelected | src/modules/finance/pages/PaidPage.tsx:185-190 | Paying a row changes only that claim's status. |
| PaidPage.FailedPaymentNotRepeated | src/modules/finance/pages/PaidPage.tsx:196-204 | A failed payment keeps the list and clears the selection, so confirming again sends nothing. |
| PaidPage.ApprovedQuery | src/modules/finance/pages/PaidPage.tsx:110-122 | The query always asks for "Approved", and for page + 1. |
| PaidPage.Label | src/modules/finance/pages/PaidPage.tsx:725-732 | "from" is page*rows+1 even for an empty result. "to" never exceeds the count. |
| PaidPage.LabelAgainstApprovalLabel | src/modules/finance/pages/PaidPage.tsx:725-732 | The label formula agrees with the approver's on every non-empty result. On an empty one it gives "1-0" where the approver's gives "0-0". Neither is drawn then, because both pages render the pagination only while rows are listed (PaidPage.tsx:716, ApprovalPage.tsx:811). |
| Workflow.OfferedIffAllowed | src/modules/users/pages/request/RequestPage.tsx:933-1012 | Away from "Returned", the row gates of the three pages offer exactly the lifecycle's transitions. |
| Workflow.ReturnedOfferedOutsideLifecycle | src/modules/users/pages/request/RequestPage.tsx:933-1012 | The submitter's gate offers submit and cancel for "Returned", a status no transition produces. |
| Workflow.TerminalOffersNothing | src/modules/approval/pages/ApprovalPage.tsx:730-802 | Paid, canceled and rejected claims have no transition. No page offers them an action beyond logs and download. |
| Workflow.SubmitFollowsLifecycle | src/modules/users/pages/request/RequestPage.tsx:562-589 | A successful request for approval on an offered row is an allowed transition. |
| Workflow.CancelFollowsLifecycle | src/modules/users/pages/request/RequestPage.tsx:644-671 | A successful cancel on an offered row is an allowed transition. |
| Workflow.DecisionFollowsLifecycle | src/modules/approval/pages/ApprovalPage.tsx:186-222 | Every successful approver decision on an offered row is an allowed transition. |
| Workflow.PaymentFollowsLifecycle | src/modules/finance/pages/PaidPage.tsx:168-190 | A successful payment on an offered row is an allowed transition. |
| Paging.ChangePage | src/modules/approval/pages/ApprovalPage.tsx:157-159 | Moves to the chosen page and keeps the page size. |
| Paging.ChangeRowsPerPage | src/modules/approval/pages/ApprovalPage.tsx:161-166 | A new page size always starts again at page 0. |
| Paging.RequestPageNum | src/modules/finance/pages/PaidPage.tsx:120 | The request page is 1-based. |
| Paging.RequestPageNumInjective | src/modules/users/pages/request/RequestPage.tsx:218-227 | Two table pages with the same size request the same `pageNum` exactly when they are the same page. |
| ViewProject.Flip | src/modules/common/pages/ViewProject.tsx:101-110 | A flipped direction always differs from the original. |
| ViewProject.FindRule | src/modules/common/pages/ViewProject.tsx:101-103 | Returns the first rule with the key, or -1 when no rule has it. |
| ViewProject.HandleSort | src/modules/common/pages/ViewProject.tsx:101-116 | A listed column flips its direction in place and every other rule is unchanged. A new column is appended as ascending. |
| ViewProject.HandleSortKeepsKeysDistinct | src/modules/common/pages/ViewProject.tsx:101-116 | Every column stays at most once in the rule list, and the clicked column is in the list afterwards. |
| ViewProject.HandleSortTwice | src/modules/common/pages/ViewProject.tsx:104-110 | Clicking a listed column twice restores the rule list. |
| ViewProject.HandleSortNewKeyTwice | src/modules/common/pages/ViewProject.tsx:111-115 | Clicking a new column twice leaves it last, in descending order. |
| ViewProject.StrLessIsUnitOrder | src/modules/common/pages/ViewProject.tsx:133-134 | The comparator's string order is exactly the lexicographic order of the strings' UTF-16 code units, a proper prefix first, as JavaScript's `<` and `>` compare. |
| ViewProject.AstralBeforeHighPlane | src/modules/common/pages/ViewProject.tsx:133-134 | An emoji (U+1F600) sorts before a full-width "A" (U+FF21), although its code point is larger, because its high surrogate is the smaller unit. |
| ViewProject.Compare | src/modules/common/pages/ViewProject.tsx:122-137 | The comparator's result is -1, 0 or 1. Two present values are compared by JavaScript's `<`, which orders them by UTF-16 code unit. |
| ViewProject.NullsLast | src/modules/common/pages/ViewProject.tsx:129-130 | A row with a value goes before a row without one, in either direction. |
| ViewProject.BothNullEndsComparison | src/modules/common/pages/ViewProject.tsx:128 | Two missing values end the comparison as equal, whatever the later rules say. |
| ViewProject.CompareReflexive | src/modules/common/pages/ViewProject.tsx:122-137 | Every row compares equal to itself. |
| ViewProject.CompareAntisymmetric | src/modules/common/pages/ViewProject.tsx:122-137 | Swapping the rows negates the comparison. |
| ViewProject.CompareTransitive | src/modules/common/pages/ViewProject.tsx:122-137 | The comparator's "not after" relation is transitive, so it is a valid sort order. |
| ViewProject.FlipAllMirrors | src/modules/common/pages/ViewProject.tsx:133-134 | With no value missing, descending order is the exact mirror of ascending. |
| ViewProject.SortRows | src/modules/common/pages/ViewProject.tsx:122-137 | The sorted rows are in comparator order and are a permutation of the results. |
| ViewProject.SortedAllPairs | src/modules/common/pages/ViewProject.tsx:122-137 | In the sorted rows every earlier row is not after any later row. |
| ViewProject.Matching | src/modules/common/pages/ViewProject.tsx:178-182 | Keeps exactly the users of the page whose name contains the text, case-sensitively. |
| ViewProject.SearchUsers | src/modules/common/pages/ViewProject.tsx:159-193 | Empty text leaves the list as it is. Otherwise the result is what the page loop gathers, and every user found has a name containing the text. |
| ViewProject.FailedRequestEndsSearch | src/modules/common/pages/ViewProject.tsx:164-187 | A failed request ends the page loop with nothing more added, because `searchUsers` answers it with an empty page and a total of 0. |
| ViewProject.Served | src/modules/common/pages/ViewProject.tsx:172-175 | A served page holds at most 10 users. |
| ViewProject.SearchFromConsistent | src/modules/common/pages/ViewProject.tsx:164-187 | From any page the loop reaches, the loop completes the matches of the whole list. |
| ViewProject.SearchFindsEveryMatch | src/modules/common/pages/ViewProject.tsx:159-193 | Against a server that pages one fixed list, the search finds every matching user once, in list order. The steps of 8 on pages of 10 never stop it early. |
| ViewProject.StartDateOk | src/modules/common/pages/ViewProject.tsx:295-301 | The start date passes whenever either date is empty. |
| ViewProject.EndDateOk | src/modules/common/pages/ViewProject.tsx:322-328 | The end date passes whenever either date is empty. |
| ViewProject.DateFieldsAgree | src/modules/common/pages/ViewProject.tsx:295-328 | Both fields reject exactly the reversed date ranges. |
| ViewProject.RangeLabel | src/modules/common/pages/ViewProject.tsx:350 | Neither end of the range label exceeds the total. |
| ViewProject.RowNumber | src/modules/common/pages/ViewProject.tsx:439 | Row numbers on a real page start at 1. |
| ViewProject.RangeLabelSpansRows | src/modules/common/pages/ViewProject.tsx:350-439 | On a page with results, the heading agrees with the approver table's label. Every row number lies between its two ends, and the last row carries the "to" number. |
| UserManagement.ValidateForm | src/modules/admin/pages/UserManagement.tsx:125-140 | Email and user name must not be blank after trimming. A new user also needs a non-blank password of at least 6 characters that matches its confirmation. An edit checks no password. The error map records exactly these. |
| UserManagement.FormValid | src/modules/admin/pages/UserManagement.tsx:138-139 | Returns true exactly when the error map is empty. |
| UserManagement.FormValidIff | src/modules/admin/pages/UserManagement.tsx:125-140 | The form is accepted exactly when the fields hold the characters the rules demand, for a new user and for an edit. |
| UserManagement.PaddedShortPasswordAccepted | src/modules/admin/pages/UserManagement.tsx:130-134 | The length rule counts the untrimmed password, so "  abc  " passes it. |
| UserManagement.FilteredUsers | src/modules/admin/pages/UserManagement.tsx:186-191 | Keeps exactly the users whose lowered email, user name or role code contains the lowered term. |
| UserManagement.EmptyTermKeepsAll | src/modules/admin/pages/UserManagement.tsx:186-191 | An empty search term shows every loaded user. |
| UserManagement.FilterIgnoresTermCase | src/modules/admin/pages/UserManagement.tsx:186-191 | Lowering the term first filters the same users. |
| UserManagement.RoleLabel | src/modules/admin/pages/UserManagement.tsx:79-84 | A label exists exactly for the four role codes. |
| UserManagement.RoleLabelsDistinct | src/modules/admin/pages/UserManagement.tsx:79-84 | Different roles get different labels. |
| UserManagement.SetRole | src/modules/admin/pages/UserManagement.tsx:336-340 | Exactly the users with the id get the new role code. |
| UserManagement.RoleChangeAsWritten | src/modules/admin/pages/UserManagement.tsx:326-348 | As written: a request is sent exactly for a loaded user whose role differs. The list then changes whatever the server answered. |
| UserManagement.RefusedRoleChangeShownAsMade | src/modules/admin/services/userService.ts:77-89 | A concrete failed call after which the list shows the new role. |
| UserManagement.RoleChange | src/modules/admin/pages/UserManagement.tsx:326-348 | Sends the same request. Only a success changes exactly that user's role. A failure changes nothing. |
| UserManagement.RoleChangeSettles | src/modules/admin/pages/UserManagement.tsx:329-330 | After a successful change, choosing the same role again sends nothing. |
| UserManagement.SetBlocked | src/modules/admin/pages/UserManagement.tsx:238-244 | Exactly the users with the id take the new blocked flag. |
| UserManagement.ConfirmAction | src/modules/admin/pages/UserManagement.tsx:229-255 | Without a user or an action, loading stays on. A block sends the negated snapshot; unless it throws, exactly the rows with that id change. A delete changes no row itself; it asks for a reload through `FetchUsers` exactly when the delete completes. The dialog resets and loading ends. |
| UserManagement.DeletedUserLeavesAfterRefetch | src/modules/admin/pages/UserManagement.tsx:244-245 | A completed delete reloads the table, and a reload answered by a server that has dropped the user lists no row with that id. |
| UserManagement.OpenBlock | src/modules/admin/pages/UserManagement.tsx:833-841 | Opens the block dialog on a snapshot of the row. |
| UserManagement.BlockTwiceRestores | src/modules/admin/pages/UserManagement.tsx:229-255 | With unique ids, blocking a user and then unblocking the updated row restores the list. |
| UserManagement.TotalPagesOr1 | src/modules/admin/pages/UserManagement.tsx:164 | A missing or zero page count becomes 1. Any other count is kept. |
| UserManagement.OnPageChange | src/modules/admin/pages/UserManagement.tsx:920 | The component's 0-based page becomes the chosen page. |
| UserManagement.OnRowsPerPageChange | src/modules/admin/pages/UserManagement.tsx:922-925 | A page-size change returns to the first page. |
| UserManagement.PageRoundTrip | src/modules/admin/pages/UserManagement.tsx:916-925 | `pageNum - 1` and `newPage + 1` are inverse, so moving to the shown page changes nothing. |
| UserManagement.FetchUsers | src/modules/admin/pages/UserManagement.tsx:153-178 | Reads the answer through `searchUsers`. An answer with rows and page info replaces the users and the page count, reading a missing or zero count as 1. Otherwise the list empties and the pager is kept. The page number and size are always kept. |
| UserManagement.FailedFetchShowsOnePage | src/modules/admin/pages/UserManagement.tsx:153-178 | A failed request shows an empty list on one page, because `searchUsers` answers it with its fallback page. |
| UserManagement.SearchKeyword | src/modules/admin/pages/UserManagement.tsx:156 | The keyword sent is empty exactly when the box holds only white space. |
| ProjectMembers.PrependBlank | src/modules/admin/pages/ProjectManagementPage.tsx:214-222 | A blank member goes first and the old members follow in order. |
| ProjectMembers.RemoveAt | src/modules/admin/pages/ProjectManagementPage.tsx:224-228 | Exactly the member at the index goes and the rest keep their order. An index past the end removes nothing. |
| ProjectMembers.With | src/modules/admin/pages/ProjectManagementPage.tsx:230-237 | The named field takes the value and every other field is kept. |
| ProjectMembers.WithOwnValue | src/modules/admin/pages/ProjectManagementPage.tsx:230-237 | Setting a field to its own value changes nothing. |
| ProjectMembers.SetField | src/modules/admin/pages/ProjectManagementPage.tsx:230-237 | Only the one field of the one member changes. |
| ProjectMembers.AddThenRemoveFirst | src/modules/admin/pages/ProjectDetail.tsx:199-216 | Removing the first member after an add restores the list. |
| ProjectMembers.RemoveKeepsOneMember | src/modules/admin/pages/ProjectManagementPage.tsx:777 | Removal is enabled only when it leaves at least one member, and an add never disables it. |
| ProjectMembers.SetFieldCommutes | src/modules/admin/pages/ProjectManagementPage.tsx:230-237 | Changes to two different members do not interfere. |
| ProjectMembers.UserSearch | src/modules/admin/pages/ProjectManagementPage.tsx:296-310 | A blank term lists every user. Otherwise it lists exactly the users whose email or name contains the term, ignoring case. |
| ProjectMembers.UserSearchIgnoresCase | src/modules/admin/pages/ProjectDetail.tsx:239-253 | The results do not depend on the case of the term. |
| ProjectManagement.FieldErrors | src/modules/admin/pages/ProjectManagementPage.tsx:141-149 | The four text fields are required and both dates must be given. A given end date may not precede the start date, and is also reported when the start date is missing, because its minimum refers to that field. Each error appears exactly when its rule fails. |
| ProjectManagement.MissingStartFlagsEnd | src/modules/admin/pages/ProjectManagementPage.tsx:141-149 | With the start date missing and an end date given, both the missing start and an end-before-start error are reported, but no missing end. |
| ProjectManagement.MemberErrors | src/modules/admin/pages/ProjectManagementPage.tsx:150-160 | There must be at least one member. Each member needs a user and a role. Each error appears exactly when its rule fails. |
| ProjectManagement.CreateErrors | src/modules/admin/pages/ProjectManagementPage.tsx:141-161 | The create schema's errors are the field errors together with the member errors. |
| ProjectManagement.CreateAcceptedIff | src/modules/admin/pages/ProjectManagementPage.tsx:141-161 | The create form is accepted exactly when the fields are filled, the dates are in order and there is at least one member, each complete. |
| ProjectManagement.BlankMemberRejected | src/modules/admin/pages/ProjectManagementPage.tsx:150-160 | A freshly added blank member is always rejected. |
| ProjectManagement.LookupName | src/modules/admin/pages/ProjectManagementPage.tsx:186-188 | Gives the name and e-mail of the first loaded user with the id, or empty strings when there is none. |
| ProjectManagement.Submitted | src/modules/admin/pages/ProjectManagementPage.tsx:185-194 | `_id` and `user_id` are the chosen user id. The role is the form's. Name and e-mail are looked up. |
| ProjectManagement.SubmittedMembers | src/modules/admin/pages/ProjectManagementPage.tsx:185-194 | One submitted record per member, in order. |
| ProjectManagement.SubmittedMembersFaithful | src/modules/admin/pages/ProjectManagementPage.tsx:185-194 | A member naming a loaded user carries the name and e-mail of the first user with that id. |
| ProjectManagement.ConfirmDelete | src/modules/admin/pages/ProjectManagementPage.tsx:271-284 | Does nothing without a selection. Unless the call throws, exactly the rows with that id go and the rest keep their order. The dialog closes and the selection clears either way. |
| ProjectManagement.DeleteKeepsOrder | src/modules/admin/pages/ProjectManagementPage.tsx:271-284 | Deleting from a table split in two leaves the survivors of the first half followed by those of the second. |
| ProjectManagement.DeleteTwiceIsDeleteOnce | src/modules/admin/pages/ProjectManagementPage.tsx:271-284 | Deleting the same project again changes nothing more. |
| ProjectManagement.SearchTermChange | src/modules/admin/pages/ProjectManagementPage.tsx:286-289 | A new term returns the table to page 0. |
| ProjectManagement.ResetsRequestFirstPage | src/modules/admin/pages/ProjectManagementPage.tsx:318-322 | After either reset, the next request asks for page 1. |
| ProjectDetail.EditErrors | src/modules/admin/pages/ProjectDetail.tsx:88-97 | The edit schema applies the shared field rules and no member rule, so its errors are a subset of the create form's. |
| ProjectDetail.EditLaxerThanCreate | src/modules/admin/pages/ProjectDetail.tsx:88-97 | What the create form accepts, the edit form accepts too. A project without members fails only the create form's member rule. |
| ProjectDetail.BeforeT | src/modules/admin/pages/ProjectDetail.tsx:105-110 | The result is the prefix of the text before its first "T". |
| ProjectDetail.PrefillInitial | src/modules/admin/pages/ProjectDetail.tsx:105-110 | A missing or empty date gives "". Otherwise the result is the part before "T". |
| ProjectDetail.PrefillOnOpen | src/modules/admin/pages/ProjectDetail.tsx:151-152 | The prefilled text never holds a "T". |
| ProjectDetail.PrefillsAgree | src/modules/admin/pages/ProjectDetail.tsx:105-152 | Both ways of prefilling give the same text. |
| ProjectDetail.PrefillRoundTrip | src/modules/admin/pages/ProjectDetail.tsx:151-152 | The day part of a stored date-time comes back unchanged. |
| ProjectDetail.ChooseUser | src/modules/admin/pages/ProjectDetail.tsx:218-229 | `_id` and `user_id` become the chosen id, and name and e-mail are looked up. The role is kept and other rows are unchanged. |
| ProjectDetail.MemberChange | src/modules/admin/pages/ProjectDetail.tsx:218-236 | A user change chooses that user. Any other field changes alone. |
| ProjectDetail.ChooseUserIdempotent | src/modules/admin/pages/ProjectDetail.tsx:218-229 | Choosing the same user again changes nothing. |
| ProjectDetail.ChosenRowMatchesSubmission | src/modules/admin/pages/ProjectDetail.tsx:218-229 | A row chosen here already holds what the create page would submit for it. |
| ProfilePage.FetchProject | src/modules/common/pages/ProfilePage.tsx:277-299 | Does nothing at the end or on a failure. Otherwise the page is appended after the loaded projects, and more follow exactly when the server reports more pages than the current one. |
| ProfilePage.ScrollStopped | src/modules/common/pages/ProfilePage.tsx:277-278 | Once the end is reached, scrolling changes nothing. |
| ProfilePage.ScrollFrom | src/modules/common/pages/ProfilePage.tsx:277-299 | With any projects loaded and page k + 1 asked for next, enough scrolls append every remaining page after them, in order, and end the list. |
| ProfilePage.ScrollListsEveryProject | src/modules/common/pages/ProfilePage.tsx:277-299 | Scrolling to the bottom lists every project of every page once, in order, and then reports that nothing more follows. |
| ProfilePage.PhoneError | src/modules/common/pages/ProfilePage.tsx:549-563 | Each message appears exactly on its failing rule, in the form library's rule order. |
| ProfilePage.PhoneAcceptedIff | src/modules/common/pages/ProfilePage.tsx:549-563 | A phone number passes exactly when it has 10 or 11 characters, all digits. |
| ProfilePage.EmailError | src/modules/common/pages/ProfilePage.tsx:428-435 | The address passes exactly when it is of the strict form. |
| ProfilePage.ProfileEmailIsLoginEmail | src/modules/common/pages/ProfilePage.tsx:428-435 | Every address the profile accepts is accepted by the login page too. |
| ProfilePage.FormatDate | src/modules/common/pages/ProfilePage.tsx:106-112 | A missing or empty date reads "N/A". |
| ProfilePage.SaveAvatarAsWritten | src/modules/common/pages/ProfilePage.tsx:181-214 | As written: sends exactly when not busy and there is an image, a crop and an upload. Any path that sends nothing leaves the busy flag set. |
| ProfilePage.FailedUploadBlocksLaterSaves | src/modules/common/pages/ProfilePage.tsx:181-214 | As written, after a failed upload a later save with a good upload is ignored. |
| ProfilePage.SaveAvatar | src/modules/common/pages/ProfilePage.tsx:181-214 | Corrected: the same request, and the busy flag is always clear afterwards. The avatar is kept only on success. |
| ProfilePage.RetryAfterFailedUpload | src/modules/common/pages/ProfilePage.tsx:181-214 | Corrected: a retry after a failed upload goes through. |
| ProfilePage.SubmitEmployee | src/modules/common/pages/ProfilePage.tsx:216-240 | Ignored while busy. Otherwise it sends the form's phone, address and account with the current avatar, and keeps them only on success. |
| ProfilePage.EmployeeErrors | src/modules/common/pages/ProfilePage.tsx:549-601 | The phone rules, plus a required account and a required address. Each error appears exactly when its rule fails. |
| ProfilePage.AcceptedEmployeeFormIsWellFormed | src/modules/common/pages/ProfilePage.tsx:549-601 | A record sent from a valid form has a 10-11 digit phone and a non-empty account and address. |
| ProfilePage.AvatarThenDetailsKeepsBoth | src/modules/common/pages/ProfilePage.tsx:181-240 | A new avatar followed by new details keeps both. |
| ProfilePage.OrEmpty | src/modules/common/pages/ProfilePage.tsx:248-254 | A missing value becomes "". |
| ProfilePage.SubmitAccount | src/modules/common/pages/ProfilePage.tsx:242-268 | Ignored while busy. Otherwise it sends the current mode's request, with missing fields as "". The form is cleared only on success. |
| ProfilePage.SwitchMode | src/modules/common/pages/ProfilePage.tsx:100-103 | Switches to the other mode with the form cleared. |
| ProfilePage.SwitchTwice | src/modules/common/pages/ProfilePage.tsx:100-103 | Switching twice returns to the original mode with an empty form. |
| ProfilePage.AccountErrors | src/modules/common/pages/ProfilePage.tsx:421-471 | Only the current mode's fields are checked. Each is required, and the e-mail must also be of the strict form. |
| ProfilePage.AcceptedDetailsAreWellFormed | src/modules/common/pages/ProfilePage.tsx:421-435 | Details sent from a valid form have a non-empty user name and a strict-form address. |
| EmailFormat.CheckLooseEmail | src/modules/auth/pages/Verify.tsx:52-55 | The one-pass check answers exactly the loose pattern `[^\s@]+@[^\s@]+\.[^\s@]+`. |
| EmailFormat.CheckStrictEmail | src/modules/common/pages/ProfilePage.tsx:428-435 | The check answers exactly the strict pattern, with a top-level domain of 2 to 4 letters. |
| EmailFormat.StrictEmailIff | src/modules/common/pages/ProfilePage.tsx:428-435 | The pattern as it reads agrees with checking the three possible top-level domain lengths. |
| EmailFormat.StrictImpliesLoose | src/modules/auth/pages/Login.tsx:154 | Every address of the strict form is of the loose form. |
| EmailFormat.LooseNotStrict | src/modules/auth/pages/Login.tsx:254-260 | "a@b.c" is loose but not strict. |
| Charts.ProcessClaimsData | src/modules/users/pages/user-dashboard/PieChartComponent.tsx:59-95 | Six counters. Each counts the claims whose trimmed, lowered status is its key. Together they never exceed the number of claims. |
| Charts.PieKeysDistinct | src/modules/users/pages/user-dashboard/PieChartComponent.tsx:71-89 | The six pie keys are distinct. |
| Charts.BarBucket | src/modules/admin/components/ClaimRequestBarChart.tsx:84-89 | A status is in a bar exactly when it equals that bar's key, case-sensitively and untrimmed. |
| Charts.BarBucketIs | src/modules/admin/components/ClaimRequestBarChart.tsx:84-89 | A status lands in bar k exactly when it is the k-th key. |
| Charts.ClaimRequestData | src/modules/admin/components/ClaimRequestBarChart.tsx:78-89 | Each bar equals the number of claims with exactly its status. The bars never exceed the claim count. |
| Charts.BarImpliesPie | src/modules/users/pages/user-dashboard/PieChartComponent.tsx:70-89 | A status in bar k lands in pie slice k. |
| Charts.BarNeverExceedsPie | src/modules/admin/components/ClaimRequestBarChart.tsx:84-89 | Over the same claims, no bar is taller than the corresponding slice. |
| Charts.NamedStatusesAgree | src/modules/users/pages/user-dashboard/PieChartComponent.tsx:70-92 | The named statuses land in the same place in both charts. "Returned" is counted in neither. |
| Charts.RoleBucket | src/modules/admin/pages/AdminDashboard.tsx:79-82 | A user is in a bar exactly when their code is that bar's code. |
| Charts.RoleCounts | src/modules/admin/pages/AdminDashboard.tsx:73-83 | Each bar counts the users with exactly its code. Other codes are in no bar, so the sum is at most the number of users. |
| Charts.RoleBarsMatchLabels | src/modules/admin/pages/AdminDashboard.tsx:74-82 | Each bar counts the role its label names (A001, A003, A002, A004 in label order). |
| Charts.FetchUsers | src/modules/admin/pages/AdminDashboard.tsx:28-47 | Reads the answer through `searchUsers`, which replaces a failed request by an empty page with a total of 0. With page info the count is the total and the users are the page's rows, or none without rows. Without page info nothing changes. The project count is kept. |
| Charts.FailedUserFetchShowsNone | src/modules/admin/pages/AdminDashboard.tsx:28-47 | A failed user request leaves the dashboard with no users and a user count of 0. |
| Charts.FetchProjects | src/modules/admin/pages/AdminDashboard.tsx:48-66 | The users and their count are untouched. An answer with page info sets the project count to its total. |
| Charts.FetchesCommute | src/modules/admin/pages/AdminDashboard.tsx:68-71 | The two fetches the dashboard starts on mount touch separate parts of it, so either order of completion gives the same dashboard. |
| Charts.TotalIsServersChartIsPages | src/modules/admin/pages/AdminDashboard.tsx:28-83 | The user total is the server's count, while the chart counts only the loaded page. |
| Login.LandingRoute | src/modules/auth/pages/Login.tsx:76-90 | Each role's code leads to that role's home page. A missing or unknown code leads to "/". |
| Login.RoleHomesDistinct | src/modules/auth/pages/Login.tsx:76-87 | Different roles land on different pages, none of them "/". |
| Login.LandingRouteIff | src/modules/auth/pages/Login.tsx:76-90 | A user leaves "/" exactly when the code names a role. |
| Login.ValidateLogin | src/modules/auth/pages/Login.tsx:154-169 | The e-mail passes exactly when it is of the loose form. The password passes exactly when it has at least 6 characters. The required message comes first, and each message appears exactly on its rule. |
| Login.ForgotEmailError | src/modules/auth/pages/Login.tsx:254-260 | The address passes exactly when it is of the strict form. The required message appears exactly for an empty address. |
| Login.ForgotStricterThanLogin | src/modules/auth/pages/Login.tsx:154-260 | Every address the forgotten-password form accepts passes the login page's pattern rule, but not the other way round. |
| Login.Submit | src/modules/auth/pages/Login.tsx:70-120 | A submission while one is in flight is ignored. Otherwise the server is asked, a sign-in with an answer navigates to the landing page, and the flag clears. |
| Login.SignInLandsOnRoleHome | src/modules/auth/pages/Login.tsx:70-102 | A user of any role who signs in lands on that role's home page. |
| Login.SubmitNeverStaysBusy | src/modules/auth/pages/Login.tsx:99-101 | Whatever happened to one submission, the next one is taken. |
| Verify.OnMount | src/modules/auth/pages/Verify.tsx:20-50 | Without a token: resend dialog, no verification. With one: verification happens, and only acceptance goes back to login. |
| Verify.ModalOrRedirect | src/modules/auth/pages/Verify.tsx:20-50 | Afterwards the page either returns to login or offers a new token, never both. |
| Verify.ValidateEmail | src/modules/auth/pages/Verify.tsx:52-55 | Accepts exactly the loose form. |
| Verify.RequestNewToken | src/modules/auth/pages/Verify.tsx:57-83 | Ignored in flight. Empty is reported before malformed, and neither is sent. A well-formed address clears the message and is sent. |
| SideBar.DashboardOf | src/shared/components/layoutComponent/SideBar.tsx:84-88 | A real dashboard exists exactly for A004, A001 and A003. Anything else, finance included, gets "/#". |
| SideBar.DashboardUnderHome | src/shared/components/layoutComponent/SideBar.tsx:84-88 | Each dashboard lies under the role's login home page. Finance has none. |
| SideBar.Navigate | src/shared/components/layoutComponent/SideBar.tsx:81-93 | "/my-requests" maps to the member's page and "/dashboard" to the role's dashboard. Any other path is itself. The side bar toggles. |
| SideBar.DashboardLinkLeadsHome | src/shared/components/layoutComponent/SideBar.tsx:81-93 | Clicking "Dashboard" leads under the home page the role lands on at login, and finance gets the dead link. "My Claims" leads under the member's home. |
| SideBar.Menu | src/shared/components/layoutComponent/SideBar.tsx:99-157 | The base menu comes first. Management appears exactly for admins, and each of its links exactly for an admin while the group is expanded. Approve Claims appears exactly for approvers and Paid Claims exactly for finance. |
| SideBar.OneSectionPerRole | src/shared/components/layoutComponent/SideBar.tsx:99-157 | Each role sees one section beyond the base menu, a member none. Without a code only the base menu shows. |
| PrivateRoute.Guard | src/shared/routes/PrivateRoute.tsx:9-28 | Loading exactly without a token. Granted exactly when the stored code names an allowed role. Otherwise the user is sent to "/unauthorized". |
| PrivateRoute.MissingUserDenied | src/shared/routes/PrivateRoute.tsx:10-27 | Stored data without a role code is always denied. |
| PrivateRoute.MoreRolesGrantMore | src/shared/routes/PrivateRoute.tsx:24-26 | Allowing more roles never turns a granted visitor away. |
| Roles.FromCode | src/modules/admin/pages/UserManagement.tsx:79-84 | Reads back exactly the role that has the code, or None when no role has it. |
| Roles.CodeRoundTrip | src/modules/auth/pages/Login.tsx:76-87 | Each role's code reads back as that role. |
| UserStore.LogIn | src/shared/stores/userStore.ts:23-27 | Holds the user and is authenticated. |
| UserStore.LogOut | src/shared/stores/userStore.ts:29-33 | Holds no user and is not authenticated. |
| UserStore.Overlay | src/shared/stores/userStore.ts:37-38 | The result, read as a JavaScript object, is the user's object with the keys the patch carries written over it. |
| UserStore.ObjectDeterminesUser | src/shared/stores/userStore.ts:37-38 | A user is fully given by its object, so the spread fixes every field of the result. |
| UserStore.UpdateUser | src/shared/stores/userStore.ts:35-39 | Overlays the patch on a signed-in user. An empty store stays empty. The flag is untouched. |
| UserStore.OverlayIdempotent | src/shared/stores/userStore.ts:35-39 | The same patch twice equals once. An empty patch changes nothing. |
| UserStore.RunKeepsConsistent | src/shared/stores/userStore.ts:19-39 | Every run of actions keeps "authenticated exactly when a user is held". |
| UserStore.SignOutEndsSession | src/shared/stores/userStore.ts:29-33 | Whatever came before, a sign-out returns the store to its initial state. |
| Api.Authorize | src/core/api/api.ts:16-22 | The Bearer header is set exactly when a token is stored and headers exist. No other header is touched. |
| Api.AuthorizeIdempotent | src/core/api/api.ts:16-22 | Passing a request through the interceptor twice equals once. |
| Api.ErrorMessage | src/core/api/api.ts:33-46 | The body's truthy message comes first, then the first error's message, then "Unknown error!". With no response or no body the result is "Unknown error!". |
| Api.ServerMessageWins | src/core/api/api.ts:35-39 | A non-empty server message is what the user reads. |
| Api.FirstErrorSpeaks | src/core/api/api.ts:40-41 | Without a message, the first listed error speaks for all. |

## Left out

- HTTP is not modelled. Every server call is an input: `Outcome` (success, refusal, exception), an optional answer, or a `threw` flag. The endpoints, tokens in bodies, `localStorage`, and the `get`/`post`/`put`/`delete` wrappers of api.ts are left out; those wrappers only return `response.data`.
- Timing is not modelled: debouncing, timers, the random preloader and verify delays, and races between overlapping fetches.
- Excel/PDF export, chart rendering, image cropping and the Cloudinary upload are left out. Whether a crop area exists and the uploaded URL are inputs.
- moment/locale date formatting is not modelled: `FormatDate` takes the formatter as a parameter, and dates are day numbers.
- The regular expressions are written as predicates (module `EmailFormat`, `ProfilePage.AllDigits`). No regex engine is modelled.
- `toLowerCase` is modelled for ASCII letters only.
- Role codes come from src/shared/constants/roles.ts, which is not part of this model. The values are assumed as stated above.
- Yup's type coercion of the project form is not modelled: a date that is empty or does not parse is a missing value.
- ViewProject.SearchUsers: the server is a finite sequence of answers. The loop stops at a page past the end, where no answer is given.
- Login.ValidateLogin: the password length is counted in characters, while JavaScript's `.length` (src/modules/auth/pages/Login.tsx:169) counts UTF-16 code units, so the two differ for characters outside the Basic Multilingual Plane. The browser's own check of the `type="email"` field is not modelled either.
- ProfilePage.PhoneError: the minimum and maximum lengths (src/modules/common/pages/ProfilePage.tsx:549-563) are counted in characters, not UTF-16 code units. The counts differ only on strings with characters outside the Basic Multilingual Plane. Such strings are never all digits, so the same numbers are accepted, but such a string may get a different length message.
- UserManagement.ValidateForm: the password length (src/modules/admin/pages/UserManagement.tsx:132) is counted in characters, not UTF-16 code units.
- RequestPage.WorkTimeError: work time is an integer. The number field and `Number(...)` (src/modules/users/pages/request/RequestPage.tsx:421, 475 and 1281-1284) also let fractional hours through, so 1.5 passes and 0.5 fails `min: 1`. Such values are not modelled.
- The browser's constraint validation of `type="email"` inputs (src/modules/auth/pages/Login.tsx:145, src/modules/common/pages/ProfilePage.tsx:427) is not modelled. The browser may refuse to submit an address that the modelled rules accept.
- UserStore.Overlay: a key that is present but `undefined` in the partial user is read as absent. JavaScript's spread would copy the `undefined`.
- UserManagement.ConfirmAction: the early return leaves `loading` on. This is modelled as written; the handler is only reachable with both a user and an action set.
- Sort stability of `Array.prototype.sort` is not stated. `ViewProject.SortRows` states order and permutation only.
- The row gates' download menus, the logs dialog and the detail dialogs are presentational and are left out.
- RequestPage.Confirm: the reload of the claim's logs after a successful confirm (src/modules/users/pages/request/RequestPage.tsx:597 and 679) is not modelled, because the logs dialog is left out.
- ApprovalPage.Submit and PaidPage.ConfirmPaid model the reload after a success as a flag. What the reload shows is the page's `Fetch` applied to the server's next answer.

## Findings

| source | as written | input that shows it | evidently intended | confidence | as-written member | corrected member |
|---|---|---|---|---|---|---|
| src/modules/common/pages/ProfilePage.tsx:181-214 | `handleSaveAvatar` sets `updateAvatarLoading` and then returns early when there is no image or crop, or when the upload gives no URL. Those paths never clear the flag. | The first save's upload fails. The second save, with an upload that would succeed, is ignored because the flag is still set. | Every path that sets the flag clears it again, so a failed upload can be retried. | not executed | ProfilePage.SaveAvatarAsWritten (FailedUploadBlocksLaterSaves) | ProfilePage.SaveAvatar (RetryAfterFailedUpload) |
| src/modules/admin/pages/UserManagement.tsx:326-348 | `changeUserRole` in src/modules/admin/services/userService.ts:77-89 catches every error and returns `false`. `handleRoleChange` never checks the return value, so its `catch` is unreachable. | User "u1" with role A004 is changed to A001 and the call fails. The table shows A001. | Only a successful call changes the shown role, as the `catch` branch's error message implies. | not executed | UserManagement.RoleChangeAsWritten (RefusedRoleChangeShownAsMade) | UserManagement.RoleChange (RoleChangeSettles) |
