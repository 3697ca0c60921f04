/**
 * The per-session state and what each route of the web application reads
 * and writes in it, as a function from a session and a request to the
 * response and the next session.
 *
 * The session dictionary holds at most four keys: `user` (the single
 * registered username and password), `logged_in`, `access_token` and
 * `sweep_rule`. A missing key is `None` (for `logged_in`, `false`).
 */
module Routes {
  import opened Wrappers
  import opened Sweep

  datatype Credentials = Credentials(username: string, password: string)

  datatype State = State(
    user: Option<Credentials>,
    loggedIn: bool,
    accessToken: Option<string>,
    sweepRule: Option<SweepRule>)

  /** A new session, and the session after logging out. */
  const EmptySession: State := State(None, false, None, None)

  /** The pages the application renders or redirects to. */
  datatype Page = IndexPage | DashboardPage | SweepRulesPage | RegisterPage | LoginPage

  /**
   * The requests that touch the session. `SimulateSweep` carries the
   * accounts the balance provider answered with; `StoreAccessToken` is the
   * session write done after a successful public-token exchange.
   */
  datatype Request =
    | GetDashboard
    | GetSweepRules
    | PostSweepRules(threshold: int, frequency: string)
    | SimulateSweep(accounts: seq<Account>)
    | StoreAccessToken(token: string)
    | GetRegister
    | PostRegister(username: string, password: string)
    | GetLogin
    | PostLogin(username: string, password: string)
    | Logout

  datatype Response =
    | Render(page: Page)
    | Redirect(target: Page)
    | SweepSummary(entries: seq<SweepEntry>)
    | Error(message: string)
    | Message(text: string)
    | Unauthorized(body: string)

  datatype Outcome = Outcome(response: Response, next: State)

  const NoAccessTokenMessage: string := "No access token found."
  const TokenExchangedMessage: string := "Token exchange successful!"
  const InvalidCredentialsBody: string := "Invalid credentials"

  /** `if not access_token`: a missing token and an empty one both refuse. */
  predicate HasAccessToken(s: State): (b: bool)
    ensures s.accessToken.None? ==> !b
    ensures s.accessToken == Some("") ==> !b
    ensures s.accessToken.Some? && s.accessToken.value != "" ==> b
  {
    s.accessToken.Some? && s.accessToken.value != ""
  }

  /** The stored user exists and both fields match exactly. */
  predicate CredentialsMatch(s: State, username: string, password: string): (b: bool)
    ensures b <==> s.user == Some(Credentials(username, password))
  {
    s.user.Some? && s.user.value.username == username && s.user.value.password == password
  }

  /** The routes that send a visitor who is not logged in to the login page. */
  predicate IsProtected(req: Request)
  {
    req.GetDashboard? || req.GetSweepRules? || req.PostSweepRules? || req.SimulateSweep?
  }

  /**
   * One request served against the session. A logout empties it; every
   * other route writes at most its own key: only a registration writes
   * `user`, only a login `logged_in`, only a token exchange `access_token`
   * and only a rule submission `sweep_rule`.
   */
  function Step(s: State, req: Request): (o: Outcome)
    ensures req.Logout? ==> o.next == EmptySession
    ensures !req.Logout? ==>
      && (o.next.user == s.user || req.PostRegister?)
      && (o.next.loggedIn == s.loggedIn || req.PostLogin?)
      && (o.next.accessToken == s.accessToken || req.StoreAccessToken?)
      && (o.next.sweepRule == s.sweepRule || req.PostSweepRules?)
  {
    match req
    case GetDashboard =>
      if !s.loggedIn then Outcome(Redirect(LoginPage), s) else Outcome(Render(DashboardPage), s)
    case GetSweepRules =>
      if !s.loggedIn then Outcome(Redirect(LoginPage), s) else Outcome(Render(SweepRulesPage), s)
    case PostSweepRules(threshold, frequency) =>
      if !s.loggedIn then Outcome(Redirect(LoginPage), s)
      else Outcome(Redirect(DashboardPage), s.(sweepRule := Some(SweepRule(threshold, frequency))))
    case SimulateSweep(accounts) =>
      if !s.loggedIn then Outcome(Redirect(LoginPage), s)
      else if !HasAccessToken(s) then Outcome(Error(NoAccessTokenMessage), s)
      else Outcome(SweepSummary(Summary(accounts, ActiveThreshold(s.sweepRule))), s)
    case StoreAccessToken(token) =>
      Outcome(Message(TokenExchangedMessage), s.(accessToken := Some(token)))
    case GetRegister =>
      Outcome(Render(RegisterPage), s)
    case PostRegister(username, password) =>
      Outcome(Redirect(DashboardPage), s.(user := Some(Credentials(username, password))))
    case GetLogin =>
      Outcome(Render(LoginPage), s)
    case PostLogin(username, password) =>
      if CredentialsMatch(s, username, password) then Outcome(Redirect(DashboardPage), s.(loggedIn := true))
      else Outcome(Unauthorized(InvalidCredentialsBody), s)
    case Logout =>
      Outcome(Redirect(IndexPage), EmptySession)
  }

  /** The session after serving the requests one after another. */
  function Run(s: State, reqs: seq<Request>): (last: State)
    decreases reqs
  {
    if |reqs| == 0 then s else Run(Step(s, reqs[0]).next, reqs[1..])
  }

  /** Nobody is logged in without a registered user. */
  predicate Valid(s: State)
  {
    s.loggedIn ==> s.user.Some?
  }

  lemma StepKeepsValid(s: State, req: Request)
    requires Valid(s)
    ensures Valid(Step(s, req).next)
  {
  }

  lemma {:induction false} RunKeepsValid(s: State, reqs: seq<Request>)
    requires Valid(s)
    ensures Valid(Run(s, reqs))
    decreases reqs
  {
    if |reqs| > 0 {
      StepKeepsValid(s, reqs[0]);
      RunKeepsValid(Step(s, reqs[0]).next, reqs[1..]);
    }
  }

  lemma {:induction false} RunAppend(s: State, first: seq<Request>, second: seq<Request>)
    ensures Run(s, first + second) == Run(Run(s, first), second)
    decreases first
  {
    if |first| == 0 {
      assert first + second == second;
    } else {
      assert (first + second)[0] == first[0];
      assert (first + second)[1..] == first[1..] + second;
      RunAppend(Step(s, first[0]).next, first[1..], second);
    }
  }

  /**
   * A login sets `logged_in` exactly when a user is stored and both
   * username and password match; otherwise it answers 401 and leaves the
   * session as it was (a session already logged in stays so).
   */
  lemma LoginOnlyOnMatch(s: State, username: string, password: string)
    ensures CredentialsMatch(s, username, password) ==>
      Step(s, PostLogin(username, password)) == Outcome(Redirect(DashboardPage), s.(loggedIn := true))
    ensures !CredentialsMatch(s, username, password) ==>
      Step(s, PostLogin(username, password)) == Outcome(Unauthorized(InvalidCredentialsBody), s)
  {
  }

  /** Only a matching login turns a logged-out session into a logged-in one. */
  lemma LoginIsTheOnlyWayIn(s: State, req: Request)
    requires !s.loggedIn && Step(s, req).next.loggedIn
    ensures req.PostLogin? && s.user == Some(Credentials(req.username, req.password))
  {
  }

  /** Without a registration, a session that holds no user never becomes logged in. */
  lemma {:induction false} NoRegistrationNoLogin(s: State, reqs: seq<Request>)
    requires !s.loggedIn && s.user.None?
    requires forall k :: 0 <= k < |reqs| ==> !reqs[k].PostRegister?
    ensures !Run(s, reqs).loggedIn && Run(s, reqs).user.None?
    decreases reqs
  {
    if |reqs| > 0 {
      NoRegistrationNoLogin(Step(s, reqs[0]).next, reqs[1..]);
    }
  }

  /** Registering overwrites the single stored user and touches nothing else. */
  lemma RegisterOverwritesUser(s: State, username: string, password: string)
    ensures Step(s, PostRegister(username, password))
         == Outcome(Redirect(DashboardPage), s.(user := Some(Credentials(username, password))))
  {
  }

  /** Logging out empties the session, from any session. */
  lemma LogoutClears(s: State)
    ensures Step(s, Logout) == Outcome(Redirect(IndexPage), EmptySession)
  {
  }

  /** A protected route refuses a session that is not logged in, and changes nothing. */
  lemma ProtectedNeedsLogin(s: State, req: Request)
    requires !s.loggedIn && IsProtected(req)
    ensures Step(s, req) == Outcome(Redirect(LoginPage), s)
  {
  }

  /** After a logout every protected route redirects to the login page. */
  lemma ProtectedAfterLogout(s: State, req: Request)
    requires IsProtected(req)
    ensures Step(Step(s, Logout).next, req) == Outcome(Redirect(LoginPage), EmptySession)
  {
    ProtectedNeedsLogin(EmptySession, req);
  }

  /** A logged-in session without an access token gets the error and no summary. */
  lemma SimulateNeedsToken(s: State, accounts: seq<Account>)
    requires s.loggedIn && !HasAccessToken(s)
    ensures Step(s, SimulateSweep(accounts)) == Outcome(Error(NoAccessTokenMessage), s)
  {
  }

  /**
   * Storing a non-empty token lets a logged-in session simulate: the next
   * simulation answers the summary for the active threshold instead of the
   * missing-token error. The token write leaves login and rule as they were.
   */
  lemma TokenEnablesSimulation(s: State, token: string, accounts: seq<Account>)
    requires s.loggedIn && token != ""
    ensures Step(Step(s, StoreAccessToken(token)).next, SimulateSweep(accounts)).response
         == SweepSummary(Summary(accounts, ActiveThreshold(s.sweepRule)))
  {
  }

  /** With login and token, simulating reads the session and answers the summary for the active threshold. */
  lemma SimulateUsesActiveRule(s: State, accounts: seq<Account>)
    requires s.loggedIn && HasAccessToken(s)
    ensures Step(s, SimulateSweep(accounts))
         == Outcome(SweepSummary(Summary(accounts, ActiveThreshold(s.sweepRule))), s)
    ensures s.sweepRule.None? ==>
      Step(s, SimulateSweep(accounts)).response == SweepSummary(Summary(accounts, DefaultThreshold))
  {
  }

  /**
   * A logged-in rule submission replaces the whole rule, threshold and
   * frequency together, with the values as given (no validation).
   */
  lemma SubmitReplacesRule(s: State, threshold: int, frequency: string)
    requires s.loggedIn
    ensures Step(s, PostSweepRules(threshold, frequency))
         == Outcome(Redirect(DashboardPage), s.(sweepRule := Some(SweepRule(threshold, frequency))))
    ensures ActiveThreshold(Step(s, PostSweepRules(threshold, frequency)).next.sweepRule) == threshold
  {
  }

  /** The rule is written only by a rule submission and cleared only by a logout. */
  lemma {:induction false} RuleUntouched(s: State, reqs: seq<Request>)
    requires forall k :: 0 <= k < |reqs| ==> !reqs[k].PostSweepRules? && !reqs[k].Logout?
    ensures Run(s, reqs).sweepRule == s.sweepRule
    decreases reqs
  {
    if |reqs| > 0 {
      RuleUntouched(Step(s, reqs[0]).next, reqs[1..]);
    }
  }

  /** Until a rule is submitted, a session that holds none simulates with the default threshold. */
  lemma {:induction false} DefaultUntilSubmitted(s: State, reqs: seq<Request>)
    requires s.sweepRule.None?
    requires forall k :: 0 <= k < |reqs| ==> !reqs[k].PostSweepRules?
    ensures ActiveThreshold(Run(s, reqs).sweepRule) == DefaultThreshold
    decreases reqs
  {
    if |reqs| > 0 {
      DefaultUntilSubmitted(Step(s, reqs[0]).next, reqs[1..]);
    }
  }

  /**
   * The active threshold is the one last stored: after a logged-in
   * submission, any further requests that neither submit a rule nor log out
   * keep that rule, threshold and frequency.
   */
  lemma LastSubmittedRuleWins(s: State, before: seq<Request>, threshold: int, frequency: string, after: seq<Request>)
    requires Run(s, before).loggedIn
    requires forall k :: 0 <= k < |after| ==> !after[k].PostSweepRules? && !after[k].Logout?
    ensures Run(s, before + [PostSweepRules(threshold, frequency)] + after).sweepRule
         == Some(SweepRule(threshold, frequency))
    ensures ActiveThreshold(Run(s, before + [PostSweepRules(threshold, frequency)] + after).sweepRule) == threshold
  {
    var submit := [PostSweepRules(threshold, frequency)];
    RunAppend(s, before + submit, after);
    RunAppend(s, before, submit);
    RuleUntouched(Run(s, before + submit), after);
  }
}
