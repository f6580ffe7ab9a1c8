/** The login flag kept in browser storage: the login page writes it, the
    admin page and the footer read it, and two different logouts remove
    it. Storage is a map from keys to string values. */
module Auth {

  type Storage = map<string, string>

  const IsLoggedInKey := "isLoggedIn"
  const LoginTimeKey := "loginTime"
  const TrueFlag := "true"

  /** `localStorage.getItem("isLoggedIn") === "true"`: a missing key reads
      as `null`, which is not equal to "true". */
  predicate FlagSet(storage: Storage)
  {
    IsLoggedInKey in storage && storage[IsLoggedInKey] == TrueFlag
  }

  // ---------------------------------------------------------------------
  // Login page

  /** The one administrator account, compared exactly and case-sensitively. */
  datatype Credentials = Credentials(username: string, password: string)

  datatype LoginForm = LoginForm(username: string, password: string, isLoading: bool)

  const InitialLoginForm := LoginForm("", "", false)

  /** What the page does besides changing state. */
  datatype LoginEffect = NoEffect | RedirectToAdmin | InvalidCredentialsAlert

  datatype LoginStep = LoginStep(form: LoginForm, storage: Storage, effect: LoginEffect)

  /** While a submit is in progress the inputs and the button are
      disabled. */
  predicate ControlsEnabled(form: LoginForm)
  {
    !form.isLoading
  }

  /** Typing in an input; a disabled input ignores it. */
  function EditUsername(form: LoginForm, value: string): (r: LoginForm)
    ensures ControlsEnabled(form) ==> r == form.(username := value)
    ensures !ControlsEnabled(form) ==> r == form
  {
    if form.isLoading then form else form.(username := value)
  }

  function EditPassword(form: LoginForm, value: string): (r: LoginForm)
    ensures ControlsEnabled(form) ==> r == form.(password := value)
    ensures !ControlsEnabled(form) ==> r == form
  {
    if form.isLoading then form else form.(password := value)
  }

  /** `handleSubmit`: raise the loading flag, then either record the login
      (flag and time) and schedule the redirect, leaving the flag raised,
      or alert and lower it again without touching storage. `nowIso` is
      the timestamp string written as the login time. */
  function HandleSubmit(admin: Credentials, form: LoginForm, storage: Storage, nowIso: string): (r: LoginStep)
    ensures r.form.username == form.username && r.form.password == form.password
    ensures r.effect == RedirectToAdmin <==> form.username == admin.username && form.password == admin.password
    ensures r.effect == RedirectToAdmin ==>
      && r.form.isLoading
      && r.storage == storage[IsLoggedInKey := TrueFlag][LoginTimeKey := nowIso]
    ensures r.effect != RedirectToAdmin ==>
      r.effect == InvalidCredentialsAlert && !r.form.isLoading && r.storage == storage
  {
    var loading := form.(isLoading := true);
    if form.username == admin.username && form.password == admin.password then
      LoginStep(loading, storage[IsLoggedInKey := TrueFlag][LoginTimeKey := nowIso], RedirectToAdmin)
    else
      LoginStep(loading.(isLoading := false), storage, InvalidCredentialsAlert)
  }

  /** Submitting the form: a disabled button cannot submit, and the
      browser refuses to submit while a `required` input is empty. */
  function Submit(admin: Credentials, form: LoginForm, storage: Storage, nowIso: string): (r: LoginStep)
    ensures !form.isLoading && form.username != "" && form.password != "" ==>
      r == HandleSubmit(admin, form, storage, nowIso)
    ensures form.isLoading || form.username == "" || form.password == "" ==>
      r == LoginStep(form, storage, NoEffect)
  {
    if form.isLoading || form.username == "" || form.password == "" then LoginStep(form, storage, NoEffect)
    else HandleSubmit(admin, form, storage, nowIso)
  }

  // ---------------------------------------------------------------------
  // Admin page

  datatype AdminAuth = AdminAuth(isAuthenticated: bool, authChecked: bool)

  const InitialAdminAuth := AdminAuth(false, false)

  datatype AuthEffect = FetchData | RedirectToLogin

  /** The mount-time check: authenticated and fetching exactly when the
      flag reads "true", otherwise sent to the login page; checked either
      way. */
  function CheckAuth(storage: Storage): (r: (AdminAuth, AuthEffect))
    ensures r.0.authChecked
    ensures r.0.isAuthenticated <==> FlagSet(storage)
    ensures r.1 == FetchData <==> FlagSet(storage)
    ensures r.1 == RedirectToLogin <==> !FlagSet(storage)
  {
    if IsLoggedInKey in storage && storage[IsLoggedInKey] == TrueFlag then (AdminAuth(true, true), FetchData)
    else (AdminAuth(false, true), RedirectToLogin)
  }

  /** The admin page's logout removes both keys and nothing else. */
  function AdminLogout(storage: Storage): (r: Storage)
    ensures IsLoggedInKey !in r && LoginTimeKey !in r
    ensures forall k :: k in storage && k != IsLoggedInKey && k != LoginTimeKey ==> k in r && r[k] == storage[k]
    ensures r.Keys <= storage.Keys
  {
    storage - {IsLoggedInKey, LoginTimeKey}
  }

  // ---------------------------------------------------------------------
  // Footer

  /** The footer's logged-in state. */
  function FooterLoggedIn(storage: Storage): (r: bool)
    ensures r <==> CheckAuth(storage).0.isAuthenticated
  {
    IsLoggedInKey in storage && storage[IsLoggedInKey] == TrueFlag
  }

  datatype FooterLink = LogoutButton | LoginLink

  /** A logout button when logged in, a link to the login page otherwise. */
  function FooterAuthLink(isLoggedIn: bool): (r: FooterLink)
    ensures r == LogoutButton <==> isLoggedIn
  {
    if isLoggedIn then LogoutButton else LoginLink
  }

  /** The footer's logout removes only the flag; the login time stays. */
  function FooterLogout(storage: Storage): (r: (Storage, bool))
    ensures IsLoggedInKey !in r.0 && !r.1
    ensures forall k :: k in storage && k != IsLoggedInKey ==> k in r.0 && r.0[k] == storage[k]
    ensures r.0.Keys == storage.Keys - {IsLoggedInKey}
  {
    (storage - {IsLoggedInKey}, false)
  }

  // ---------------------------------------------------------------------
  // The protocol across pages

  /** A login with the right credentials lets the admin page in and shows
      the footer's logout button; a rejected one changes nothing the
      admin check reads. */
  lemma LoginThenAdmin(admin: Credentials, form: LoginForm, storage: Storage, nowIso: string)
    ensures var step := HandleSubmit(admin, form, storage, nowIso);
            && (step.effect == RedirectToAdmin ==>
                  CheckAuth(step.storage).1 == FetchData && FooterAuthLink(FooterLoggedIn(step.storage)) == LogoutButton)
            && (step.effect != RedirectToAdmin ==> CheckAuth(step.storage) == CheckAuth(storage))
  {
    var step := HandleSubmit(admin, form, storage, nowIso);
    if step.effect == RedirectToAdmin {
      assert step.storage[IsLoggedInKey] == TrueFlag;
    }
  }

  /** After either logout the admin check fails; only the admin logout
      also clears the login time. */
  lemma LogoutsDiffer(storage: Storage)
    requires LoginTimeKey in storage
    ensures CheckAuth(AdminLogout(storage)).1 == RedirectToLogin
    ensures CheckAuth(FooterLogout(storage).0).1 == RedirectToLogin
    ensures LoginTimeKey !in AdminLogout(storage)
    ensures LoginTimeKey in FooterLogout(storage).0
  {
  }

  /** Submitting twice with the right credentials: the second submit is
      refused by the disabled button, since the loading flag stays up. */
  lemma NoSecondSubmitAfterSuccess(admin: Credentials, form: LoginForm, storage: Storage, t1: string, t2: string)
    requires Submit(admin, form, storage, t1).effect == RedirectToAdmin
    ensures var s1 := Submit(admin, form, storage, t1);
            Submit(admin, s1.form, s1.storage, t2) == LoginStep(s1.form, s1.storage, NoEffect)
  {
  }

  /** After a successful submit the inputs stay disabled, so the checked
      credentials cannot be edited before the redirect; after a rejected
      one the typed values are kept and the inputs take edits again. */
  lemma EditsAfterSubmit(admin: Credentials, form: LoginForm, storage: Storage, nowIso: string, u: string, p: string)
    requires !form.isLoading && form.username != "" && form.password != ""
    ensures var f := Submit(admin, form, storage, nowIso).form;
            Submit(admin, form, storage, nowIso).effect == RedirectToAdmin ==>
              EditUsername(f, u) == f && EditPassword(f, p) == f
    ensures var f := Submit(admin, form, storage, nowIso).form;
            Submit(admin, form, storage, nowIso).effect == InvalidCredentialsAlert ==>
              && f == form
              && EditUsername(f, u) == LoginForm(u, form.password, false)
              && EditPassword(f, p) == LoginForm(form.username, p, false)
  {
  }
}
