/**
 * The route handlers of the web application that read or write the
 * session, as methods of a class whose fields are the session's keys.
 * Each handler does what `Routes.Step` says for its request: the response
 * it returns and the session it leaves.
 */
module App {
  import opened Wrappers
  import opened Sweep
  import opened Routes

  class Session {
    var user: Option<Credentials>
    var loggedIn: bool
    var accessToken: Option<string>
    var sweepRule: Option<SweepRule>

    /** The session's contents as a value. */
    function Contents(): (st: State)
      reads this
    {
      State(user, loggedIn, accessToken, sweepRule)
    }

    constructor ()
      ensures Contents() == EmptySession
    {
      user, loggedIn, accessToken, sweepRule := None, false, None, None;
    }

    method Dashboard() returns (r: Response)
      ensures Outcome(r, Contents()) == Step(Contents(), GetDashboard)
    {
      if !loggedIn {
        return Redirect(LoginPage);
      }
      r := Render(DashboardPage);
    }

    method SweepRulesForm() returns (r: Response)
      ensures Outcome(r, Contents()) == Step(Contents(), GetSweepRules)
    {
      if !loggedIn {
        return Redirect(LoginPage);
      }
      r := Render(SweepRulesPage);
    }

    /** Stores the submitted rule wholesale, as given. */
    method SubmitSweepRule(threshold: int, frequency: string) returns (r: Response)
      modifies this
      ensures Outcome(r, Contents()) == Step(old(Contents()), PostSweepRules(threshold, frequency))
      ensures old(loggedIn) ==> sweepRule == Some(SweepRule(threshold, frequency))
      ensures !old(loggedIn) ==> r == Redirect(LoginPage) && Contents() == old(Contents())
    {
      if !loggedIn {
        return Redirect(LoginPage);
      }
      sweepRule := Some(SweepRule(threshold, frequency));
      r := Redirect(DashboardPage);
    }

    /** `accounts` is the balance provider's answer for the stored access token. */
    method SimulateSweep(accounts: seq<Account>) returns (r: Response)
      ensures Outcome(r, Contents()) == Step(Contents(), Routes.SimulateSweep(accounts))
    {
      if !loggedIn {
        return Redirect(LoginPage);
      }
      if accessToken.None? || accessToken.value == "" {
        return Error(NoAccessTokenMessage);
      }
      var threshold := ActiveThreshold(sweepRule);
      var sweepable := SelectSweepable(accounts, threshold);
      r := SweepSummary(sweepable);
    }

    /** The session write that follows a successful public-token exchange. */
    method StoreToken(token: string) returns (r: Response)
      modifies this
      ensures Outcome(r, Contents()) == Step(old(Contents()), StoreAccessToken(token))
    {
      accessToken := Some(token);
      r := Message(TokenExchangedMessage);
    }

    method RegisterForm() returns (r: Response)
      ensures Outcome(r, Contents()) == Step(Contents(), GetRegister)
    {
      r := Render(RegisterPage);
    }

    /** Overwrites the single stored user. */
    method Register(username: string, password: string) returns (r: Response)
      modifies this
      ensures Outcome(r, Contents()) == Step(old(Contents()), PostRegister(username, password))
      ensures user == Some(Credentials(username, password)) && loggedIn == old(loggedIn)
    {
      user := Some(Credentials(username, password));
      r := Redirect(DashboardPage);
    }

    method LoginForm() returns (r: Response)
      ensures Outcome(r, Contents()) == Step(Contents(), GetLogin)
    {
      r := Render(LoginPage);
    }

    method Login(username: string, password: string) returns (r: Response)
      modifies this
      ensures Outcome(r, Contents()) == Step(old(Contents()), PostLogin(username, password))
      ensures loggedIn == (old(loggedIn) || old(CredentialsMatch(Contents(), username, password)))
    {
      if user.Some? && user.value.username == username && user.value.password == password {
        loggedIn := true;
        return Redirect(DashboardPage);
      }
      r := Unauthorized(InvalidCredentialsBody);
    }

    method Logout() returns (r: Response)
      modifies this
      ensures Outcome(r, Contents()) == Step(old(Contents()), Routes.Logout)
      ensures Contents() == EmptySession
    {
      user, loggedIn, accessToken, sweepRule := None, false, None, None;
      r := Redirect(IndexPage);
    }
  }

  /**
   * A visit that registers, logs in, stores a rule with a negative
   * threshold, logs out and comes back: the rule is stored as given, and
   * after the logout every protected route sends the visitor to log in.
   */
  method Visit(accounts: seq<Account>)
  {
    var session := new Session();
    var r := session.Login("ann", "pw");
    assert r == Unauthorized(InvalidCredentialsBody);
    r := session.Register("ann", "pw");
    r := session.Login("ann", "wrong");
    assert r == Unauthorized(InvalidCredentialsBody) && !session.loggedIn;
    r := session.Login("ann", "pw");
    assert session.loggedIn;
    r := session.SimulateSweep(accounts);
    assert r == Error(NoAccessTokenMessage);
    r := session.StoreToken("access-sandbox");
    r := session.SimulateSweep(accounts);
    assert r == SweepSummary(Summary(accounts, DefaultThreshold));
    r := session.SubmitSweepRule(-500, "weekly");
    r := session.SimulateSweep(accounts);
    assert r == SweepSummary(Summary(accounts, -500));
    r := session.Logout();
    r := session.Dashboard();
    assert r == Redirect(LoginPage);
    r := session.SweepRulesForm();
    assert r == Redirect(LoginPage);
    r := session.SubmitSweepRule(100, "daily");
    assert r == Redirect(LoginPage) && session.sweepRule.None?;
    r := session.SimulateSweep(accounts);
    assert r == Redirect(LoginPage);
  }
}
