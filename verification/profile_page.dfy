/**
 * The profile page (`ProfilePage`): the infinite-scroll list of the user's
 * projects, the two forms and their validators, and the three submit
 * handlers with their own busy flags.
 */
module ProfilePage {
  import opened Common
  import opened EmailFormat

  // ------------------------------------------------------------ project feed

  /** The accumulated projects, the page to ask for next and whether there
      may be more. */
  datatype Feed<P> = Feed(projects: seq<P>, pageNum: nat, hasMore: bool)

  function InitialFeed<P>(): Feed<P> {
    Feed([], 1, true)
  }

  /** A page of `searchProjectWithData`: its rows and `pageInfo?.totalPages`
      (missing when the answer has no page info). */
  datatype FeedAnswer<P> = FeedAnswer(pageData: seq<P>, totalPages: Option<int>)

  /** `fetchProject`: nothing once the end was reached; a request that throws
      leaves the feed as it is; otherwise the page's rows go after those
      already loaded, and the next page is asked for only while the server
      reports more pages than the one just loaded. */
  function FetchProject<P>(f: Feed<P>, answer: Option<FeedAnswer<P>>): (r: Feed<P>)
    ensures !f.hasMore || answer.None? ==> r == f
    ensures |f.projects| <= |r.projects| && r.projects[..|f.projects|] == f.projects
    ensures f.hasMore && answer.Some? ==> r.projects[|f.projects|..] == answer.value.pageData
    ensures r.hasMore ==> f.hasMore
    ensures r.pageNum == f.pageNum || (r.pageNum == f.pageNum + 1 && r.hasMore)
    ensures f.hasMore && answer.Some? ==>
              (r.hasMore <==> answer.value.totalPages.Some? && answer.value.totalPages.value > f.pageNum)
  {
    if !f.hasMore || answer.None? then f
    else
      var a := answer.value;
      var projects := f.projects + a.pageData;
      if a.totalPages.Some? && a.totalPages.value > f.pageNum then Feed(projects, f.pageNum + 1, true)
      else Feed(projects, f.pageNum, false)
  }

  /** All the pages, in order, one after another. */
  function Concat<P>(pages: seq<seq<P>>): seq<P> {
    if pages == [] then [] else pages[0] + Concat(pages[1..])
  }

  /** A server that holds `pages` and answers every request for page `n`
      (counting from 1) with page `n` and the true page count. */
  function Serve<P>(pages: seq<seq<P>>, n: nat): FeedAnswer<P> {
    FeedAnswer(if 1 <= n <= |pages| then pages[n - 1] else [], Some(|pages|))
  }

  /** `n` scrolls to the bottom of the list against that server. */
  function Scroll<P>(f: Feed<P>, pages: seq<seq<P>>, n: nat): Feed<P>
    decreases n
  {
    if n == 0 then f else Scroll(FetchProject(f, Some(Serve(pages, f.pageNum))), pages, n - 1)
  }

  /** Once the end is reached, scrolling changes nothing. */
  lemma {:induction false} ScrollStopped<P>(f: Feed<P>, pages: seq<seq<P>>, n: nat)
    requires !f.hasMore
    ensures Scroll(f, pages, n) == f
  {
    if n > 0 {
      ScrollStopped(FetchProject(f, Some(Serve(pages, f.pageNum))), pages, n - 1);
    }
  }

  /** With `acc` loaded and page `k + 1` asked for next, enough scrolls load
      the remaining pages after `acc` and stop. */
  lemma {:induction false} ScrollFrom<P>(pages: seq<seq<P>>, acc: seq<P>, k: nat, n: nat)
    requires k < |pages| && n >= |pages| - k
    ensures Scroll(Feed(acc, k + 1, true), pages, n) == Feed(acc + Concat(pages[k..]), |pages|, false)
    decreases |pages| - k
  {
    var g := Feed(acc + pages[k], if k + 1 < |pages| then k + 2 else k + 1, k + 1 < |pages|);
    assert Scroll(Feed(acc, k + 1, true), pages, n) == Scroll(g, pages, n - 1);
    ConcatFrom(pages, k);
    if k + 1 < |pages| {
      ScrollFrom(pages, acc + pages[k], k + 1, n - 1);
    } else {
      assert pages[k + 1..] == [];
      ScrollStopped(g, pages, n - 1);
    }
  }

  /** The pages from `k` on are page `k` followed by those after it. */
  lemma ConcatFrom<P>(pages: seq<seq<P>>, k: nat)
    requires k < |pages|
    ensures Concat(pages[k..]) == pages[k] + Concat(pages[k + 1..])
  {
    assert pages[k..][1..] == pages[k + 1..];
  }

  /** Scrolling to the bottom lists every project of every page exactly once
      and in order, and then the list reports that nothing more follows. */
  lemma ScrollListsEveryProject<P>(pages: seq<seq<P>>, n: nat)
    requires n >= |pages| && n >= 1
    ensures Scroll(InitialFeed(), pages, n).projects == Concat(pages)
    ensures !Scroll(InitialFeed(), pages, n).hasMore
  {
    if pages == [] {
      ScrollStopped(FetchProject(InitialFeed(), Some(Serve(pages, 1))), pages, n - 1);
    } else {
      assert pages[0..] == pages;
      ScrollFrom(pages, [], 0, n);
    }
  }

  // ------------------------------------------------------------ validators

  const PhoneRequired := "Phone number is required"
  const PhoneDigitsOnly := "Phone number must contain only digits"
  const PhoneTooShort := "Phone number must be at least 10 digits"
  const PhoneTooLong := "Phone number must be at most 11 digits"

  predicate AllDigits(s: string) {
    forall k :: 0 <= k < |s| ==> Digit(s[k])
  }

  /** The phone rules in the order the form library tries them: required,
      then the length bounds, then the digits-only pattern; the first
      failing rule gives the message. */
  function PhoneError(p: string): (r: Option<string>)
    ensures r == Some(PhoneRequired) <==> p == ""
    ensures r == Some(PhoneTooShort) <==> 0 < |p| < 10
    ensures r == Some(PhoneTooLong) <==> |p| > 11
    ensures r == Some(PhoneDigitsOnly) <==> 10 <= |p| <= 11 && !AllDigits(p)
  {
    if p == "" then Some(PhoneRequired)
    else if |p| > 11 then Some(PhoneTooLong)
    else if |p| < 10 then Some(PhoneTooShort)
    else if !AllDigits(p) then Some(PhoneDigitsOnly)
    else None
  }

  /** A phone number is accepted exactly when it has ten or eleven
      characters, all digits. */
  lemma PhoneAcceptedIff(p: string)
    ensures PhoneError(p).None? <==> 10 <= |p| <= 11 && AllDigits(p)
  {
  }

  const EmailRequired := "Email is required"
  const EmailInvalid := "Invalid email format"

  /** The e-mail field of the account form: required, then the strict pattern. */
  function EmailError(e: string): (r: Option<string>)
    ensures r.None? <==> StrictEmail(e)
    ensures r == Some(EmailRequired) <==> e == ""
  {
    if e == "" then Some(EmailRequired)
    else if !CheckStrictEmail(e) then Some(EmailInvalid)
    else None
  }

  /** An address the profile accepts is accepted by the login and verify
      pages too. */
  lemma ProfileEmailIsLoginEmail(e: string)
    requires EmailError(e).None?
    ensures LooseEmail(e)
  {
    StrictImpliesLoose(e);
  }

  /** `formatDateToUTC7`: a missing or empty date reads "N/A"; any other goes
      through the locale formatter, which is a parameter here. */
  function FormatDate(d: Option<string>, localeFormat: string -> string): (r: string)
    ensures !Truthy(d) ==> r == "N/A"
    ensures Truthy(d) ==> r == localeFormat(d.value)
  {
    if !Truthy(d) then "N/A" else localeFormat(d.value)
  }

  // --------------------------------------------------------- employee data

  /** The employee record the page edits; fields it never changes are left out. */
  datatype EmployeeData = EmployeeData(phone: string, address: string, account: string, avatarUrl: string)

  /** The page state the three handlers share: the record, the avatar
      dialog and the busy flags of the two handlers that send it. */
  datatype Profile = Profile(data: EmployeeData, dialogOpen: bool, imageSrc: string,
                             avatarBusy: bool, employeeBusy: bool)

  /** A handler's effect: the new state and the record it sent, if any. */
  datatype Sent = Sent(state: Profile, update: Option<EmployeeData>)

  /** `handleSaveAvatar` as written: ignored while busy. Otherwise it marks
      itself busy; without an image and crop area, or when the upload gives
      no address, it stops there and the flag stays set. After an upload it
      sends the record with the new avatar, keeps it on success, and in every
      case closes the dialog, clears the image and clears the flag. */
  function SaveAvatarAsWritten(st: Profile, hasCrop: bool, uploaded: Option<string>, threw: bool): (r: Sent)
    ensures st.avatarBusy ==> r == Sent(st, None)
    ensures r.update.Some? <==> !st.avatarBusy && st.imageSrc != "" && hasCrop && Truthy(uploaded)
    ensures r.update.Some? ==> r.update.value == st.data.(avatarUrl := uploaded.value) && !r.state.avatarBusy
    ensures r.update.None? ==> r.state.avatarBusy
  {
    if st.avatarBusy then Sent(st, None)
    else if !(st.imageSrc != "" && hasCrop) || !Truthy(uploaded) then Sent(st.(avatarBusy := true), None)
    else
      var updated := st.data.(avatarUrl := uploaded.value);
      Sent(st.(data := if threw then st.data else updated, dialogOpen := false, imageSrc := "", avatarBusy := false),
           Some(updated))
  }

  /** After one failed upload the save button is dead: a second attempt, with
      an upload that succeeds, is ignored and sends nothing. */
  lemma FailedUploadBlocksLaterSaves(st: Profile, url: string)
    requires !st.avatarBusy && st.imageSrc != "" && url != ""
    ensures var after := SaveAvatarAsWritten(st, true, None, false).state;
            SaveAvatarAsWritten(after, true, Some(url), false) == Sent(after, None)
  {
  }

  /** `handleSaveAvatar` as the `finally` block evidently intends: every path
      that set the flag clears it again. A failed upload or a missing crop
      leaves the dialog and the image in place for another attempt. */
  function SaveAvatar(st: Profile, hasCrop: bool, uploaded: Option<string>, threw: bool): (r: Sent)
    ensures st.avatarBusy ==> r == Sent(st, None)
    ensures !st.avatarBusy ==> !r.state.avatarBusy
    ensures r.update.Some? <==> !st.avatarBusy && st.imageSrc != "" && hasCrop && Truthy(uploaded)
    ensures r.update.Some? ==> r.update.value == st.data.(avatarUrl := uploaded.value)
    ensures r.update.Some? && !threw ==> r.state.data == r.update.value
    ensures r.update.None? || threw ==> r.state.data == st.data
  {
    if st.avatarBusy then Sent(st, None)
    else if !(st.imageSrc != "" && hasCrop) || !Truthy(uploaded) then Sent(st, None)
    else
      var updated := st.data.(avatarUrl := uploaded.value);
      Sent(st.(data := if threw then st.data else updated, dialogOpen := false, imageSrc := ""), Some(updated))
  }

  /** With the flag cleared, a retry after a failed upload goes through. */
  lemma RetryAfterFailedUpload(st: Profile, url: string)
    requires !st.avatarBusy && st.imageSrc != "" && url != ""
    ensures var after := SaveAvatar(st, true, None, false).state;
            SaveAvatar(after, true, Some(url), false).update == Some(st.data.(avatarUrl := url))
  {
  }

  /** The fields of the employee form. */
  datatype EmployeeForm = EmployeeForm(phone: string, address: string, account: string)

  /** `onSubmitEmployeeData`: ignored while busy; otherwise the record with
      the form's phone, address and account is sent, kept on success, and
      the flag is clear at the end. */
  function SubmitEmployee(st: Profile, form: EmployeeForm, threw: bool): (r: Sent)
    ensures st.employeeBusy ==> r == Sent(st, None)
    ensures !st.employeeBusy ==> !r.state.employeeBusy && r.update.Some?
    ensures r.update.Some? ==> r.update.value.phone == form.phone && r.update.value.address == form.address
                               && r.update.value.account == form.account
                               && r.update.value.avatarUrl == st.data.avatarUrl
    ensures r.state.data == (if r.update.Some? && !threw then r.update.value else st.data)
  {
    if st.employeeBusy then Sent(st, None)
    else
      var updated := st.data.(phone := form.phone, address := form.address, account := form.account);
      Sent(st.(data := if threw then st.data else updated), Some(updated))
  }

  /** The inputs of the employee form that carry rules. */
  datatype EmployeeInput = PhoneInput | AccountInput | AddressInput

  /** The employee form's rules: the phone rules above, and a required
      account and address. */
  function EmployeeErrors(form: EmployeeForm): (r: map<EmployeeInput, string>)
    ensures PhoneInput in r <==> PhoneError(form.phone).Some?
    ensures PhoneInput in r ==> r[PhoneInput] == PhoneError(form.phone).value
    ensures AccountInput in r <==> form.account == ""
    ensures AddressInput in r <==> form.address == ""
  {
    (var e := PhoneError(form.phone); if e.Some? then map[PhoneInput := e.value] else map[])
    + (if form.account == "" then map[AccountInput := "Account is required"] else map[])
    + (if form.address == "" then map[AddressInput := "Address is required"] else map[])
  }

  /** A record sent from a form that passed its rules holds a phone number of
      ten or eleven digits and a non-empty account and address. */
  lemma AcceptedEmployeeFormIsWellFormed(st: Profile, form: EmployeeForm, threw: bool)
    requires !st.employeeBusy && EmployeeErrors(form) == map[]
    ensures var sent := SubmitEmployee(st, form, threw).update.value;
            10 <= |sent.phone| <= 11 && AllDigits(sent.phone) && sent.account != "" && sent.address != ""
  {
    assert PhoneInput !in EmployeeErrors(form);
    assert AccountInput !in EmployeeErrors(form) && AddressInput !in EmployeeErrors(form);
    PhoneAcceptedIff(form.phone);
  }

  /** The two handlers that send the employee record do not undo each other:
      after a new avatar and then new contact details, both are kept. */
  lemma AvatarThenDetailsKeepsBoth(st: Profile, url: string, form: EmployeeForm)
    requires !st.avatarBusy && !st.employeeBusy && st.imageSrc != "" && url != ""
    ensures var afterAvatar := SaveAvatar(st, true, Some(url), false).state;
            var afterDetails := SubmitEmployee(afterAvatar, form, false).state;
            afterDetails.data == EmployeeData(form.phone, form.address, form.account, url)
  {
  }

  // ------------------------------------------------------------ account form

  /** The account form's fields; an input that was never registered is missing. */
  datatype AccountForm = AccountForm(userName: Option<string>, email: Option<string>,
                                     oldPassword: Option<string>, newPassword: Option<string>)

  /** What `onSubmit` sends: a password change or new account details. */
  datatype AccountRequest =
    | PasswordChange(oldPassword: string, newPassword: string)
    | InfoChange(email: string, userName: string)

  /** `value || ''`. */
  function OrEmpty(v: Option<string>): (r: string)
    ensures Truthy(v) ==> r == v.value
    ensures !Truthy(v) ==> r == ""
  {
    if v.None? then "" else v.value
  }

  const EmptyAccountForm := AccountForm(None, None, None, None)

  datatype AccountStep = AccountStep(busy: bool, form: AccountForm, sent: Option<AccountRequest>)

  /** `onSubmit`: ignored while busy. Otherwise the request of the current
      mode is sent, with a missing field sent as ""; on success the form is
      cleared; the flag is clear at the end. */
  function SubmitAccount(busy: bool, passwordMode: bool, form: AccountForm, threw: bool): (r: AccountStep)
    ensures busy ==> r == AccountStep(busy, form, None)
    ensures !busy ==> !r.busy && r.sent.Some?
    ensures r.sent.Some? ==> (r.sent.value.PasswordChange? <==> passwordMode)
    ensures r.sent.Some? && passwordMode ==>
              r.sent.value == PasswordChange(OrEmpty(form.oldPassword), OrEmpty(form.newPassword))
    ensures r.sent.Some? && !passwordMode ==>
              r.sent.value == InfoChange(OrEmpty(form.email), OrEmpty(form.userName))
    ensures r.form == (if !busy && !threw then EmptyAccountForm else form)
  {
    if busy then AccountStep(busy, form, None)
    else
      var request := if passwordMode then PasswordChange(OrEmpty(form.oldPassword), OrEmpty(form.newPassword))
                     else InfoChange(OrEmpty(form.email), OrEmpty(form.userName));
      AccountStep(false, if threw then form else EmptyAccountForm, Some(request))
  }

  /** `handleSwitchChange`: the other mode, with the form cleared. */
  function SwitchMode(passwordMode: bool, form: AccountForm): (r: (bool, AccountForm))
    ensures r.0 != passwordMode && r.1 == EmptyAccountForm
  {
    (!passwordMode, EmptyAccountForm)
  }

  /** Switching twice returns to the mode one started in, with nothing typed. */
  lemma SwitchTwice(passwordMode: bool, form: AccountForm)
    ensures var once := SwitchMode(passwordMode, form);
            SwitchMode(once.0, once.1) == (passwordMode, EmptyAccountForm)
  {
  }

  /** The account form's rules: user name and e-mail in the details mode,
      old and new password in the password mode, each required. */
  datatype AccountField = UserNameField | EmailField | OldPasswordField | NewPasswordField

  function AccountErrors(passwordMode: bool, form: AccountForm): (r: map<AccountField, string>)
    ensures passwordMode ==> UserNameField !in r && EmailField !in r
    ensures !passwordMode ==> OldPasswordField !in r && NewPasswordField !in r
    ensures !passwordMode ==> (UserNameField in r <==> OrEmpty(form.userName) == "")
    ensures !passwordMode ==> (EmailField in r <==> EmailError(OrEmpty(form.email)).Some?)
    ensures passwordMode ==> (OldPasswordField in r <==> OrEmpty(form.oldPassword) == "")
    ensures passwordMode ==> (NewPasswordField in r <==> OrEmpty(form.newPassword) == "")
  {
    if passwordMode then
      (if OrEmpty(form.oldPassword) == "" then map[OldPasswordField := "Old password is required"] else map[])
      + (if OrEmpty(form.newPassword) == "" then map[NewPasswordField := "New password is required"] else map[])
    else
      (if OrEmpty(form.userName) == "" then map[UserNameField := "Username is required"] else map[])
      + (var e := EmailError(OrEmpty(form.email)); if e.Some? then map[EmailField := e.value] else map[])
  }

  /** A details request that passed the form's rules carries a non-empty
      user name and an address in the strict format. */
  lemma AcceptedDetailsAreWellFormed(form: AccountForm)
    requires AccountErrors(false, form) == map[]
    ensures var r := SubmitAccount(false, false, form, false).sent.value;
            r.userName != "" && StrictEmail(r.email)
  {
    assert UserNameField !in AccountErrors(false, form);
    assert EmailField !in AccountErrors(false, form);
  }
}
