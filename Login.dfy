/** The login decision flow of the scraper: reuse a stored session when the target page
    opens without a redirect to the login page, otherwise fill the member form, submit it
    once and work out from the resulting page whether the login succeeded. The browser is
    replaced by what it would show at each step. */
module Login {
  import opened Common
  import opened Text

  const LoginUrl: string := "https://www.snow-forecast.com/login"
  const EmailField: string := "input[name=\"member[user_name]\"]"
  const PasswordField: string := "input[name=\"member[user_password]\"]"

  /** The submit selectors, most specific first. */
  const SubmitCandidates: seq<string> := [
    "#login-continue",
    "button.sign-in_large--red",
    "button.js-login-submit",
    "button[type=\"submit\"]:has-text(\"Sign in\")",
    "form[action=\"/login\"] button[type=\"submit\"]",
    "button[type=\"submit\"]",
    "input[type=\"submit\"]",
    "button:has-text(\"Sign in\")",
    "button:has-text(\"Log in\")",
    "button:has-text(\"Sign In\")",
    "text=\"Sign in\"",
    "text=\"Log in\""]

  const ErrorSelectors: seq<string> := [".js-login-error", ".login__error", ".error", ".alert", ".message"]

  const ErrorPhrases: seq<string> := [
    "invalid email", "invalid username", "incorrect password", "login failed",
    "authentication failed", "wrong password", "user not found"]

  /** What the browser shows at each step of the flow. */
  datatype LoginSite = LoginSite(
    probeUrl: string,                         // page.url after opening the target with the stored session
    acceptButton: bool,                       // a consent button named "accept" appears within 3 s
    emailField: bool,                         // the login page has the user-name input
    passwordField: bool,                      // the login page has the password input
    submitPresent: string -> bool,            // query_selector(sel) finds an element
    afterUrl: string,                         // page.url three seconds after submitting
    visibleError: string -> Option<string>,   // the text of a visible element matching sel, after submitting
    formStillShown: bool,                     // the user-name input is still on the page after submitting
    content: string,                          // page.content() after submitting
    redirects: bool)                          // the URL reaches "/my" or leaves "/login" within 15 s

  /** The browser actions the flow performs, in order. */
  datatype Action =
    | Goto(url: string)
    | ClickAccept
    | Fill(selector: string, text: string)
    | Click(selector: string)
    | PressEnter(selector: string)
    | SaveSession

  /** Why the flow raised RuntimeError. */
  datatype LoginError =
    | UiChanged                 // the form fields are missing
    | MissingCredentials        // SNOW_USER or SNOW_PASS unset or empty
    | Rejected(detail: string)  // "Login failed: <detail>"
    | IncorrectCredentials      // the page reports logged_in false
    | FormStillVisible          // the form is still there and no reason was found
    | NoRedirect                // no redirect within the wait

  datatype LoginOutcome = LoggedIn | LoginFailed(error: LoginError)

  // ---------------------------------------------------------------------------
  // Ordered first-match search
  // ---------------------------------------------------------------------------

  /** The first index at or after `from` whose element satisfies `p`. */
  function FirstIndex(xs: seq<string>, p: string -> bool, from: nat): (r: Option<nat>)
    ensures r.Some? ==> from <= r.value < |xs| && p(xs[r.value]) &&
                        forall j :: from <= j < r.value ==> !p(xs[j])
    ensures r.None? ==> forall j :: from <= j < |xs| ==> !p(xs[j])
    decreases |xs| - from
  {
    if from >= |xs| then None
    else if p(xs[from]) then Some(from)
    else FirstIndex(xs, p, from + 1)
  }

  /** The element of the error selector shows a non-empty (stripped) message. */
  function ShowsError(site: LoginSite): string -> bool {
    (sel: string) => site.visibleError(sel).Some? && Strip(site.visibleError(sel).value) != ""
  }

  function OccursIn(text: string): string -> bool {
    (phrase: string) => Contains(text, phrase)
  }

  // ---------------------------------------------------------------------------
  // The flow
  // ---------------------------------------------------------------------------

  /** The single submit action: a click on the first candidate present, else Enter in the
      password field. */
  function SubmitAction(site: LoginSite): Action {
    match FirstIndex(SubmitCandidates, site.submitPresent, 0)
    case Some(i) => Click(SubmitCandidates[i])
    case None => PressEnter(PasswordField)
  }

  /** The reason given when the form is still shown after submitting: the logged_in flag
      of the page, then the first visible non-empty error element, then the first error
      phrase in the lower-cased page text. */
  function FormFailure(site: LoginSite): LoginError {
    if Contains(site.content, "\"logged_in\":false") || Contains(site.content, "\"loggedIn\":false") then
      IncorrectCredentials
    else
      match FirstIndex(ErrorSelectors, ShowsError(site), 0)
      case Some(i) => Rejected(Strip(site.visibleError(ErrorSelectors[i]).value))
      case None =>
        match FirstIndex(ErrorPhrases, OccursIn(Lower(site.content)), 0)
        case Some(i) => Rejected(ErrorPhrases[i])
        case None => FormStillVisible
  }

  /** What happens after the form was submitted. */
  function AfterSubmit(site: LoginSite, target: string, acts: seq<Action>): (LoginOutcome, seq<Action>) {
    if !Contains(Lower(site.afterUrl), "/login") then (LoggedIn, acts + [SaveSession, Goto(target)])
    else if site.visibleError(".js-login-error").Some? then
      (LoginFailed(Rejected(site.visibleError(".js-login-error").value)), acts)
    else if site.formStillShown then (LoginFailed(FormFailure(site)), acts)
    else if !site.redirects then (LoginFailed(NoRedirect), acts)
    else (LoggedIn, acts + [SaveSession, Goto(target)])
  }

  /** The actions up to the form check: the probe, the login page and the consent click. */
  function Opening(site: LoginSite, target: string): seq<Action> {
    [Goto(target), Goto(LoginUrl)] + (if site.acceptButton then [ClickAccept] else [])
  }

  /** The whole flow without its loops: the reference the method is proved against. */
  function Flow(site: LoginSite, target: string, user: string, password: string): (LoginOutcome, seq<Action>) {
    if !Contains(Lower(site.probeUrl), "login") then (LoggedIn, [Goto(target)])
    else
      var start := Opening(site, target);
      if !site.emailField || !site.passwordField then (LoginFailed(UiChanged), start)
      else if user == "" || password == "" then (LoginFailed(MissingCredentials), start)
      else
        AfterSubmit(site, target, start + [Fill(EmailField, user), Fill(PasswordField, password), SubmitAction(site)])
  }

  /** The loop over an ordered list that stops at the first element satisfying `p`. */
  method FirstMatch(xs: seq<string>, p: string -> bool) returns (r: Option<nat>)
    ensures r == FirstIndex(xs, p, 0)
  {
    var k := 0;
    while k < |xs|
      invariant 0 <= k <= |xs|
      invariant FirstIndex(xs, p, 0) == FirstIndex(xs, p, k)
    {
      if p(xs[k]) {
        return Some(k);
      }
      k := k + 1;
    }
    return None;
  }

  method FindSubmit(site: LoginSite) returns (act: Action)
    ensures act == SubmitAction(site)
  {
    var found := FirstMatch(SubmitCandidates, site.submitPresent);
    if found.Some? {
      return Click(SubmitCandidates[found.value]);
    }
    return PressEnter(PasswordField);
  }

  method FindFormFailure(site: LoginSite) returns (e: LoginError)
    ensures e == FormFailure(site)
  {
    if Contains(site.content, "\"logged_in\":false") || Contains(site.content, "\"loggedIn\":false") {
      return IncorrectCredentials;
    }
    var shown := FirstMatch(ErrorSelectors, ShowsError(site));
    if shown.Some? {
      return Rejected(Strip(site.visibleError(ErrorSelectors[shown.value]).value));
    }
    var phrase := FirstMatch(ErrorPhrases, OccursIn(Lower(site.content)));
    if phrase.Some? {
      return Rejected(ErrorPhrases[phrase.value]);
    }
    return FormStillVisible;
  }

  method EnsureLogin(site: LoginSite, target: string, user: string, password: string)
    returns (outcome: LoginOutcome, actions: seq<Action>)
    ensures (outcome, actions) == Flow(site, target, user, password)
  {
    actions := [Goto(target)];
    if !Contains(Lower(site.probeUrl), "login") {
      return LoggedIn, actions;
    }
    actions := actions + [Goto(LoginUrl)];
    if site.acceptButton {
      actions := actions + [ClickAccept];
    }
    assert actions == Opening(site, target);
    if !site.emailField || !site.passwordField {
      return LoginFailed(UiChanged), actions;
    }
    if user == "" || password == "" {
      return LoginFailed(MissingCredentials), actions;
    }
    actions := actions + [Fill(EmailField, user), Fill(PasswordField, password)];
    var submit := FindSubmit(site);
    actions := actions + [submit];
    assert actions == Opening(site, target) + [Fill(EmailField, user), Fill(PasswordField, password), submit];
    if !Contains(Lower(site.afterUrl), "/login") {
      return LoggedIn, actions + [SaveSession, Goto(target)];
    }
    var loginError := site.visibleError(".js-login-error");
    if loginError.Some? {
      return LoginFailed(Rejected(loginError.value)), actions;
    }
    if site.formStillShown {
      var e := FindFormFailure(site);
      return LoginFailed(e), actions;
    }
    if !site.redirects {
      return LoginFailed(NoRedirect), actions;
    }
    return LoggedIn, actions + [SaveSession, Goto(target)];
  }

  // ---------------------------------------------------------------------------
  // Properties of the flow
  // ---------------------------------------------------------------------------

  predicate IsSubmit(a: Action) { a.Click? || a.PressEnter? }

  /** The submit actions among `acts`, in order. */
  function Submits(acts: seq<Action>): seq<Action> {
    if acts == [] then []
    else Submits(acts[..|acts| - 1]) + (if IsSubmit(acts[|acts| - 1]) then [acts[|acts| - 1]] else [])
  }

  lemma {:induction false} SubmitsAppend(a: seq<Action>, b: seq<Action>)
    ensures Submits(a + b) == Submits(a) + Submits(b)
    decreases |b|
  {
    if b == [] {
      assert a + b == a;
    } else {
      var init := b[..|b| - 1];
      SubmitsAppend(a, init);
      assert (a + b)[..|a + b| - 1] == a + init;
    }
  }

  /** With a valid stored session the target page is simply start: nothing is filled in
      and nothing is submitted. */
  lemma SessionReused(site: LoginSite, target: string, user: string, password: string)
    requires !Contains(Lower(site.probeUrl), "login")
    ensures Flow(site, target, user, password) == (LoggedIn, [Goto(target)])
  {
  }

  lemma {:induction false} SubmitsNone(acts: seq<Action>)
    requires forall k :: 0 <= k < |acts| ==> !IsSubmit(acts[k])
    ensures Submits(acts) == []
  {
    if acts != [] {
      SubmitsNone(acts[..|acts| - 1]);
    }
  }

  /** Past the form, the actions are the filled and submitted form, followed by saving the
      session and opening the target when the login succeeds. */
  lemma FlowActions(site: LoginSite, target: string, user: string, password: string)
    requires Contains(Lower(site.probeUrl), "login")
    requires site.emailField && site.passwordField && user != "" && password != ""
    ensures var submitted := Opening(site, target) + [Fill(EmailField, user), Fill(PasswordField, password)] + [SubmitAction(site)];
            var acts := Flow(site, target, user, password).1;
            acts == submitted || acts == submitted + [SaveSession, Goto(target)]
  {
    var filled := Opening(site, target) + [Fill(EmailField, user), Fill(PasswordField, password)];
    assert filled + [SubmitAction(site)] == Opening(site, target) + [Fill(EmailField, user), Fill(PasswordField, password), SubmitAction(site)];
  }

  /** A single submit between actions that submit nothing is the only one. */
  lemma OneSubmit(before: seq<Action>, s: Action, after: seq<Action>)
    requires forall k :: 0 <= k < |before| ==> !IsSubmit(before[k])
    requires forall k :: 0 <= k < |after| ==> !IsSubmit(after[k])
    requires IsSubmit(s)
    ensures Submits(before + [s]) == [s]
    ensures Submits(before + [s] + after) == [s]
  {
    SubmitsNone(before);
    var submitted := before + [s];
    assert submitted[..|submitted| - 1] == before;
    SubmitsAppend(submitted, after);
    SubmitsNone(after);
  }

  /** The opening actions submit nothing. */
  lemma OpeningSubmitsNothing(site: LoginSite, target: string, user: string, password: string)
    ensures var filled := Opening(site, target) + [Fill(EmailField, user), Fill(PasswordField, password)];
            (forall k :: 0 <= k < |filled| ==> !IsSubmit(filled[k])) &&
            Fill(EmailField, user) in filled && Fill(PasswordField, password) in filled
  {
    var filled := Opening(site, target) + [Fill(EmailField, user), Fill(PasswordField, password)];
    assert filled[|filled| - 2] == Fill(EmailField, user);
    assert filled[|filled| - 1] == Fill(PasswordField, password);
  }

  /** Once the form is filled in, exactly one submit happens, after the credentials were
      typed into the two fields. */
  lemma SubmitExactlyOnce(site: LoginSite, target: string, user: string, password: string)
    requires Contains(Lower(site.probeUrl), "login")
    requires site.emailField && site.passwordField && user != "" && password != ""
    ensures var acts := Flow(site, target, user, password).1;
            Submits(acts) == [SubmitAction(site)] &&
            Fill(EmailField, user) in acts && Fill(PasswordField, password) in acts
  {
    var filled := Opening(site, target) + [Fill(EmailField, user), Fill(PasswordField, password)];
    var tail := [SaveSession, Goto(target)];
    FlowActions(site, target, user, password);
    OpeningSubmitsNothing(site, target, user, password);
    assert forall k :: 0 <= k < |tail| ==> !IsSubmit(tail[k]);
    OneSubmit(filled, SubmitAction(site), tail);
  }

  /** The submit action is a click exactly when some candidate selector is present, and
      then it clicks the first one present in the fixed order. */
  lemma SubmitIsFirstMatch(site: LoginSite)
    ensures SubmitAction(site).Click? <==> exists i :: 0 <= i < |SubmitCandidates| && site.submitPresent(SubmitCandidates[i])
    ensures forall i :: 0 <= i < |SubmitCandidates| && SubmitAction(site) == Click(SubmitCandidates[i]) ==>
              site.submitPresent(SubmitCandidates[i]) &&
              forall j :: 0 <= j < i ==> !site.submitPresent(SubmitCandidates[j])
  {
    var first := FirstIndex(SubmitCandidates, site.submitPresent, 0);
    forall i | 0 <= i < |SubmitCandidates| && SubmitAction(site) == Click(SubmitCandidates[i])
      ensures site.submitPresent(SubmitCandidates[i]) && forall j :: 0 <= j < i ==> !site.submitPresent(SubmitCandidates[j])
    {
      SubmitCandidatesDistinct(first.value, i);
    }
  }

  /** The submit selectors are pairwise different, so a click names its position. */
  lemma SubmitCandidatesDistinct(i: nat, j: nat)
    requires i < |SubmitCandidates| && j < |SubmitCandidates|
    requires SubmitCandidates[i] == SubmitCandidates[j]
    ensures i == j
  {
  }

  /** A successful flow always ends on the target page; once the form was submitted that
      happens after the session was saved. */
  lemma LoggedInEndsOnTarget(site: LoginSite, target: string, user: string, password: string)
    requires Flow(site, target, user, password).0 == LoggedIn
    ensures var acts := Flow(site, target, user, password).1;
            acts != [] && acts[|acts| - 1] == Goto(target) &&
            (Contains(Lower(site.probeUrl), "login") ==> |acts| >= 2 && acts[|acts| - 2] == SaveSession)
  {
  }

  /** The flow fails after submitting only when the browser is still on a login URL. */
  lemma FailureStaysOnLogin(site: LoginSite, target: string, user: string, password: string)
    requires Flow(site, target, user, password).0.LoginFailed?
    requires Flow(site, target, user, password).0.error !in {UiChanged, MissingCredentials}
    ensures Contains(Lower(site.probeUrl), "login") && Contains(Lower(site.afterUrl), "/login")
  {
  }
}
