# banksweep: sweep selection and session state, in Dafny

banksweep is a small web application. A user links a bank account through
a financial-data aggregator. The application then simulates a "sweep": it
lists the linked accounts whose available balance is above a threshold,
and it proposes a fixed transfer of 5.00 from each. The only decision
logic is in `app.py`. This project models two parts of it:

- **Sweep selection** (`sweep.dfy`, module `Sweep`). This is the loop of
  `simulate_sweep`. It keeps the accounts whose balance passes the test
  `available and available > threshold`, in input order. Each kept account
  becomes the entry `{name, available_balance, sweep_amount: 5.00}`. The
  threshold is the stored rule's, or 20 when no rule is stored. Money is
  integer cents, so 20 is `2000` and 5.00 is `500`. `Summary` is the
  specification function. `SelectSweepable` is the loop, proved equal to it.
  The lemmas then show that the summary holds exactly the eligible accounts,
  in order, each with its entry.
- **The session** (`routes.dfy`, module `Routes`, and `app.dfy`, module
  `App`). The Flask session is a dictionary with the keys `user`,
  `logged_in`, `access_token` and `sweep_rule`. `Routes.Step` says what each
  route does to it: the response, and the next session. `App.Session` is a
  class whose fields are those keys. Its handler methods write the fields
  step by step, as the route functions do. Each method is proved to match
  `Routes.Step`. The lemmas in `Routes` cover single steps and whole runs
  of requests (`Routes.Run`). They say who can log in, what a logout clears,
  and which threshold a simulation uses.
- `wrappers.dfy` holds `Option`. It stands for a missing dictionary key or
  a `null` balance.

Python truthiness is written out. A balance of `0` is falsy, so it is never
swept, even when the threshold is negative. An empty access token is falsy
like a missing one. A stored rule is a non-empty dictionary, so it always
counts as present. The code does not validate the threshold or the
frequency, and neither does the model: a negative threshold is stored and
used as given.

The code does less checking than a reader might expect, and the model
keeps it that way:

- A rule submission accepts any threshold `float()` can parse, negative
  ones included, and any frequency string.
- An account record is never validated. A missing field would raise a
  `KeyError`, which the route's catch-all handler turns into an error
  answer (left out below).
- Only `name` and `balances.available` of an account are read; no account
  identifier is used.
- A balance of exactly 0 is never swept. This differs from a plain
  "balance above threshold" test only when the threshold is negative.

`App.Visit` is a client of the class. It walks through a registration, a
failed login and a good one, a simulation without a token and one with a
token, a rule with a negative threshold, and a logout. Its assertions
check what each handler answers along the way.

## Model

| member | source | states |
|---|---|---|
| `Sweep.ActiveThreshold` | app.py:79-80 | The definition of the threshold choice: the stored rule's threshold when a rule is stored, 20.00 otherwise. |
| `Sweep.Eligible` | app.py:84-85 | The definition of the test `available and available > threshold`: a missing balance and a balance of 0 fail whatever the threshold; any other balance passes exactly when it is strictly above the threshold. |
| `Sweep.EntryFor` | app.py:86-90 | The definition of one summary entry: name and available balance copied from the account, sweep amount 5.00. |
| `Sweep.Summary` | app.py:82-90 | The summary has at most one entry per account. Every entry's balance is non-zero and strictly above the threshold, and its sweep amount is the fixed 5.00. |
| `Sweep.SelectSweepable` | app.py:82-90 | The append loop over the accounts returns exactly `Summary(accounts, threshold)`. |
| `Sweep.SummaryAppend` | app.py:82-90 | Selection works account by account, in order: the summary of `front + back` is the summary of `front` followed by the summary of `back`. |
| `Sweep.SummaryIsOrderedSelection` | app.py:83-90 | There is a strictly increasing list of input positions such that entry `k` is built from the account at position `k` of that list, that account is eligible, its name and balance are copied, and the sweep amount is 5.00. Every eligible position is on that list. So the result is the eligible accounts, as a subsequence of the input. |
| `Sweep.SummaryMembership` | app.py:83-90 | An entry is in the summary if and only if some eligible account in the input gives that entry. |
| `Sweep.SummaryAround` | app.py:82-90 | One account in the middle of the list adds its own entry, if it is eligible, between the summaries of the accounts before it and after it. |
| `Sweep.UnknownOrZeroBalanceIgnored` | app.py:84-85 | An account with no available balance, or with a balance of exactly 0, leaves the summary unchanged wherever it sits, whatever the threshold (a negative one included). |
| `Sweep.ThresholdBoundary` | app.py:85-90 | An account whose balance equals the threshold contributes nothing. An account one cent above it contributes the entry (name, balance, 5.00) at its place, except when that balance is 0. |
| `Sweep.ExampleScenario` | app.py:79-90 | Checking 25.00, Savings 10.00 and Credit with no balance, against 20.00: the summary is only Checking with 25.00 and 5.00. |
| `Routes.HasAccessToken` | app.py:70-71 | The definition of the token guard: a missing token and an empty one both fail, any other token passes. |
| `Routes.CredentialsMatch` | app.py:152-153 | The definition of the login test: it holds exactly when the stored user is the submitted username and password. |
| `Routes.Step` | app.py:40-164 | The definition of every session route: its response and the next session. A logout empties the session; any other route writes at most its own key (`user` only by a registration, `logged_in` only by a login, `access_token` only by a token exchange, `sweep_rule` only by a rule submission). |
| `Routes.StepKeepsValid` | app.py:138-163 | No route logs in a session that has no stored user: `logged_in` implies a stored user, and every route preserves this. |
| `Routes.RunKeepsValid` | app.py:138-163 | The same invariant holds after any run of requests. |
| `Routes.LoginOnlyOnMatch` | app.py:152-157 | A login whose stored user matches both username and password sets `logged_in` and redirects to the dashboard. Any other login answers 401 "Invalid credentials" and leaves the session unchanged. |
| `Routes.LoginIsTheOnlyWayIn` | app.py:152-154 | A session becomes logged in only through a login whose credentials are exactly the stored user's. |
| `Routes.NoRegistrationNoLogin` | app.py:138-157 | A session with no user and not logged in stays so through any run of requests without a registration. |
| `Routes.RegisterOverwritesUser` | app.py:133-142 | Registration replaces the stored user with the submitted credentials, changes nothing else (not even `logged_in`) and redirects to the dashboard. |
| `Routes.LogoutClears` | app.py:161-164 | A logout, from any session, leaves the empty session and redirects to the index. |
| `Routes.ProtectedNeedsLogin` | app.py:42-68 | The dashboard, both sweep-rules requests and the simulation redirect a session that is not logged in to the login page, and change nothing. |
| `Routes.ProtectedAfterLogout` | app.py:163 | After a logout, every protected route redirects to the login page, and the session stays empty. |
| `Routes.SimulateNeedsToken` | app.py:70-72 | A logged-in session without an access token (missing or empty) gets the "No access token found." error and no summary, and its session is unchanged. |
| `Routes.TokenEnablesSimulation` | app.py:70-76 | After a non-empty token is stored, a logged-in simulation answers the summary for the active threshold instead of the missing-token error. |
| `Routes.SimulateUsesActiveRule` | app.py:79-94 | With login and token, the simulation answers the summary for the stored rule's threshold, or for 20.00 when no rule is stored. The session is unchanged. |
| `Routes.SubmitReplacesRule` | app.py:52-59 | A logged-in rule submission replaces the whole rule, threshold and frequency together, with the values as given. It then redirects to the dashboard, and the active threshold is the submitted one. |
| `Routes.RuleUntouched` | app.py:55-58 | Only a rule submission or a logout changes the stored rule. Any run without them keeps it. |
| `Routes.DefaultUntilSubmitted` | app.py:79-80 | A session with no rule keeps simulating with the default threshold 20.00 until a rule is submitted, logouts included. |
| `Routes.LastSubmittedRuleWins` | app.py:53-58 | After a logged-in submission, the stored rule and the active threshold are the submitted ones through any later requests that neither submit nor log out. |
| `App.Session.constructor` | app.py:21-22 | A new session holds no key: no user, not logged in, no token, no rule. |
| `App.Session.Dashboard` | app.py:40-44 | It redirects to the login page when not logged in and renders the dashboard otherwise, as `Routes.Step` does, without changing the session. |
| `App.Session.SweepRulesForm` | app.py:47-61 | The GET branch: it redirects to login when not logged in and renders the rule form otherwise. |
| `App.Session.SubmitSweepRule` | app.py:47-59 | The POST branch: when logged in, it writes the rule `{threshold, frequency}` into the session and redirects to the dashboard. Otherwise it redirects to login and writes nothing. |
| `App.Session.SimulateSweep` | app.py:65-94 | It refuses without a login, then without an access token. Otherwise it runs the selection loop with the active threshold and answers the summary. |
| `App.Session.StoreToken` | app.py:122-127 | It stores the exchanged access token and answers the success message. |
| `App.Session.RegisterForm` | app.py:131-144 | The GET branch: it renders the registration form. |
| `App.Session.Register` | app.py:131-142 | It overwrites the single stored user and leaves `logged_in` as it was. |
| `App.Session.LoginForm` | app.py:146-159 | The GET branch: it renders the login form. |
| `App.Session.Login` | app.py:146-157 | `logged_in` becomes true exactly when it was already true or the stored user matches. A mismatch answers 401. |
| `App.Session.Logout` | app.py:161-164 | It clears every key of the session and redirects to the index. |

## Left out

- The aggregator client, link-token creation, the public-token exchange call and the balance fetch (app.py:9-34, 75-76, 104-121) are network calls. The fetched account list is a parameter of the simulation, and only the session write after a successful exchange is modelled (`StoreToken`).
- Template rendering, the HTTP mechanics of redirects, `jsonify`, `app.run` and dotenv loading are web glue. Responses are plain values (`Routes.Response`), and the GET/POST split of a route is two requests.
- The `index` and `link` routes only render a template and do not touch the session.
- The catch-all `except Exception` answers (app.py:96-97, 128-129) are not modelled, nor is a `float()` failure on the threshold field (app.py:53). These are library exceptions such as a failed fetch or a missing account field. In the model the fetch always succeeds and every account has its `name` and `balances` fields.
- Binary floating point is not modelled. Balances and thresholds are integer cents, so the strict boundary is exact. Integer cents also cannot hold the non-finite values `float()` accepts for the threshold (app.py:53): with `"nan"` every comparison at app.py:85 is false, so nothing is swept; with `"inf"` nothing is swept; with `"-inf"` every truthy balance is swept.
- The session cookie, its signing and the secret key (app.py:22) are not modelled. The session is an in-memory record, and requests from different sessions cannot interfere by construction.
- A POST with a missing form field is not modelled: `request.form[...]` then makes Flask answer 400 and nothing is written to the session (app.py:53-54, 134-135, 149-150). In the model every request carries all its fields.
- Concurrent requests of one session are not modelled. With a cookie-backed session, two requests served at the same time can each write back their own copy of the session, so one write can be lost (for example the token write at app.py:125 and the rule write at app.py:55). `Routes.Run` serves requests strictly one after another.
- The order of the balance fetch and the rule read inside `simulate_sweep` does not show in the model, because the fetch is a parameter.
