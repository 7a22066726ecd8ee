# Survey app core in Dafny

A model of the bookkeeping of a small Flask survey application. Users
register and log in. A signed-in user creates surveys of two to five options
and switches them on and off. Anyone may answer an active survey. The owner
reads per-option vote counts and a total.

The model is a pure state machine over an abstract store:

- users, surveys and options are maps from integer ids to records;
- responses are a sequence in insertion order;
- each table hands out ids from its own counter, starting at 1.

Every writing route (register, login, create, toggle, respond) is one atomic
transition returning `Step(result, store')`; a refused request returns the
store unchanged. The read-only routes (dashboard, public page, results)
return a `Result` and no store, and logout returns the new session. The signed-in user is an explicit
`Option<UserId>`. A session whose user id is not in the store counts as
anonymous, as `flask_login`'s user loader makes it.

Modules, in dependency order:

- `Outcomes`: `Option`, `Result` and one `Error` per flash message or 404.
- `Text`: form fields read with an empty default, and Python's `str.strip()`
  over the whitespace set of `str.isspace()`.
- `Models`: the four entities, the store and its invariant `Valid`. The
  invariant covers ids below the counters, unique emails, the owner and
  parent references, and response ids that increase along the sequence.
- `Queries`:
  - lookup by email;
  - a survey's options in display order (`option_order`, ties broken by id);
  - a user's surveys, newest first (highest id first).
- `Tally`: per-option vote counts and the total of the results page.
- `Cascade`: the delete cascades the schema declares. No route deletes; these
  are what deleting a row does.
- `Auth`: register, login, logout.
- `Surveys`: dashboard, create, toggle, the public page, responding, results.
- `Lifecycle`: properties that span several routes.

## Model

| member | source | states |
|---|---|---|
| `Text.Trim` | src/routes/surveys.py:30-31 | The stripped value is empty exactly when the input is all whitespace. Otherwise it starts and ends with a non-whitespace character. |
| `Text.TrimSlice` | src/routes/auth.py:22 | The input is whitespace, then the stripped value, then whitespace. |
| `Models.AddUserValid` | src/models/user.py:17 | Adding a user under the next id, with an email no user has, keeps the store valid, so emails stay unique. |
| `Models.UpdateUserValid` | src/routes/auth.py:56 | Replacing an existing user's record by one with the same email keeps the store valid. |
| `Models.AddResponseValid` | src/routes/surveys.py:99-105 | Appending a response under the next response id, for an existing survey, keeps the store valid, whatever option id it carries. |
| `Queries.UserByEmail` | src/routes/auth.py:53 | The lookup finds a user exactly when some user has the email. That user has it, and no other user does. |
| `Queries.Sort` | src/routes/surveys.py:89 | The result is a permutation of the input ids, strictly ordered by (option order, id). |
| `Queries.OptionsOf` | src/routes/surveys.py:89 | The listing holds exactly the options of the survey, each once, in display order. |
| `Queries.OwnedSurveys` | src/routes/surveys.py:21 | The list holds exactly the owner's surveys, highest (newest) id first. |
| `Tally.VotesAppend` | src/routes/surveys.py:125-127 | One more response adds one vote to the option id it carries, and none to any other id. |
| `Tally.TotalIsVotesIn` | src/routes/surveys.py:136 | The sum of the rows is the number of responses that carry one of the listed option ids. |
| `Cascade.DeleteSurveys` | src/models/survey.py:24-25 | Deleting surveys keeps the store valid. It removes the surveys, their options, their responses and every response that carries one of the removed option ids. Nothing else goes. |
| `Cascade.DeleteSurvey` | src/models/survey.py:24-25 | Deleting one survey removes exactly it, its options, its responses and every response carrying one of its option ids. Every other survey and option keeps its record, no row appears, and users and id counters stay. |
| `Cascade.DeleteOption` | src/models/survey.py:37 | Deleting an existing option removes exactly that option and the responses that carry its id. The other options keep their records, and surveys, users and id counters stay. |
| `Cascade.DeleteUser` | src/models/user.py:22 | Deleting a user removes exactly that user, the user's surveys, the options of those surveys and their responses, including responses elsewhere carrying a removed option id. Every surviving survey and option keeps its record, and the store stays valid. |
| `Auth.Register` | src/routes/auth.py:18-43 | A blank stripped email or an empty password is refused first, then a registered email. Success holds exactly when both are present and the email is unused. It then adds one user with the hashed password and no last login, and nothing else changes. |
| `Auth.Login` | src/routes/auth.py:46-63 | Success holds exactly when a user has the stripped email and the password verifies. Every failure is the same error with the store unchanged. On success only that user's last login changes. |
| `Auth.Logout` | src/routes/auth.py:66-70 | The new session is anonymous. |
| `Auth.RegisterThenLogin` | src/routes/auth.py:33-56 | A user just registered can log in with the same form. |
| `Auth.RegisterTwiceRefused` | src/routes/auth.py:29-31 | Registering the same email again is refused and changes nothing. |
| `Surveys.Dashboard` | src/routes/surveys.py:17-22 | Anonymous callers are sent to log in. Otherwise the list is exactly the caller's surveys, newest first. |
| `Surveys.NonBlank` | src/routes/surveys.py:36 | Every kept entry is non-empty, and there are no more of them than slots. |
| `Surveys.NonBlankSelects` | src/routes/surveys.py:36 | The kept entries are exactly the entries at the non-empty positions, in position order. |
| `Surveys.OptionTextsFromSlots` | src/routes/surveys.py:32-36 | The option texts are the stripped values of exactly the non-blank slots `option_1`..`option_5`, in slot order. |
| `Surveys.OptionTexts` | src/routes/surveys.py:32-36 | A form yields at most five option texts. |
| `Surveys.Create` | src/routes/surveys.py:25-62 | The checks run in order: anonymous caller, then blank title, then fewer than two texts; each refusal leaves the store unchanged. Otherwise one active survey is added for the caller under the next id. The k-th text becomes option k of it. Nothing else changes and the store stays valid. |
| `Surveys.AddSurvey` | src/routes/surveys.py:46-58 | The insertion adds exactly the survey and its numbered options and keeps the store valid. |
| `Surveys.AddOptions` | src/routes/surveys.py:50-56 | The option map gains exactly the ids `base ..`, holding `texts[k]` at position `k + 1`. Existing options keep their records. |
| `Surveys.Toggle` | src/routes/surveys.py:65-78 | Anonymous callers are sent to log in. For a non-owner or a missing survey the answer is "not found" with nothing changed. The owner's request flips only the active flag. |
| `Surveys.PublicSurvey` | src/routes/surveys.py:84-89 | The page is shown exactly when the survey exists and is active, with its options in display order. Missing and inactive give the same 404. |
| `Surveys.StoredEmail` | src/routes/surveys.py:93-102 | The respondent email is absent exactly when it is blank; otherwise it is the stripped value. |
| `Surveys.Respond` | src/routes/surveys.py:84-107 | A closed or missing survey answers the 404 first, then a missing choice is refused; either way nothing changes. Otherwise exactly one response is appended with a fresh, larger id, the URL's survey and the submitted option id. |
| `Surveys.Results` | src/routes/surveys.py:112-143 | Only the owner sees the page. There is one row per option of the survey, in display order, with that option's text, order and vote count. The total is the sum of the rows and the number of votes for the listed options. |
| `Lifecycle.CreateOk` | src/routes/surveys.py:38-58 | A successful creation means the caller was signed in, the title was non-blank and there were two to five texts. |
| `Lifecycle.CreateThenBallot` | src/routes/surveys.py:46-89 | A created survey is open. Its public page lists exactly the new option ids, ascending, and option `k` carries the k-th text at position `k + 1`. |
| `Lifecycle.CreateThenDashboard` | src/routes/surveys.py:21-47 | After a creation the owner's dashboard is the new survey followed by the previous dashboard. |
| `Lifecycle.ToggleTwice` | src/routes/surveys.py:69-76 | Toggling twice restores the store, whoever asks. For the owner, the second toggle reports the original flag. |
| `Lifecycle.ToggleOffHides` | src/routes/surveys.py:75-87 | Once the owner closes an active survey, its public page and its response form answer exactly as for a missing survey. |
| `Lifecycle.StrangerSeesNothing` | src/routes/surveys.py:69-73 | A signed-in non-owner gets from toggle and from results exactly what a missing id gives, and nothing changes. |
| `Lifecycle.LogoutLocksOut` | src/routes/auth.py:66-70 | After logout, dashboard, create, toggle and results all send the session to log in and change nothing. |
| `Lifecycle.DeleteSurveyHides` | src/models/survey.py:24-25 | After a survey is deleted, toggle and results say "not found" to a signed-in caller, and its public page answers the 404. |
| `Lifecycle.DeleteUserLogsOut` | src/models/user.py:22 | After a user is deleted, a session naming that user is anonymous and the dashboard sends it to log in. |
| `Lifecycle.RespondThenResults` | src/routes/surveys.py:99-129 | A recorded vote adds one to the row of whichever results page lists its option id, and one to that page's total. Every other row is unchanged. |
| `Lifecycle.StrayVoteCountsElsewhere` | src/routes/surveys.py:99-129 | A vote posted to survey `s` with an option id of survey `t` is stored under `s` but counted on `t`'s results, not on `s`'s, whoever owns the two surveys. |
| `Lifecycle.EarlyVoteCounted` | src/routes/surveys.py:99-129 | A stored response whose option id no option had yet is counted once a new survey's first option receives that id. |
| `Lifecycle.FirstVoteTally` | src/routes/surveys.py:99-136 | A new survey whose first option receives the first vote shows 1 on row 1, 0 on the other rows and a total of 1. This needs no earlier stray vote. |

## Left out

- HTTP, routing, redirects, templates, flash rendering, CSRF and session cookies. Outcomes are the `Error` constructors, and the caller is a parameter.
- SQLAlchemy sessions, flush, commit and SQLite. Each route is one atomic transition.
- Ids come from per-table counters that start at 1 and are never reused. SQLite may reuse the highest id after a delete; no route deletes, so route behaviour is unaffected.
- Werkzeug password hashing. `hash` and `verify` are function parameters; random salts are not modelled.
- `int(option_id)` on non-numeric input raises inside the route. `Respond` takes the already-parsed number, or `None` when the field is missing or empty.
- The `String(255)` column lengths, which SQLite does not enforce.
- The 64-bit width of SQLite `INTEGER`. Ids are unbounded naturals. An `option_id` of 2^63 or more passes `int()` but fails when the commit binds it, so the request ends in a server error with nothing stored, while `Respond` appends the response. A URL survey id of 2^63 or more likewise crashes the `filter_by` lookups, while the model answers "not found". Ids the counters hand out never come near that bound.
- Timestamps (`created_at`, `updated_at`, `response_date`). `last_login` takes the time as a parameter `now`. The dashboard's newest-first order is modelled as highest id first, which matches creation order.
- Survey listings order by `option_order`; ties are broken by option id. The route creates distinct orders, so the tie-break only matters for stores no route builds.
- `src/__init__.py`, `src/routes/pages.py`, `gunicorn.conf.py` and `run.py` are configuration and entry points and are not part of this model. Concurrency between workers is not modelled.
- Responses are not checked against the option table. The code stores any submitted option id, so `Valid` does not require a response's option to exist or to belong to its survey. The code does not make that check, and the model follows the code. `StrayVoteCountsElsewhere` and `EarlyVoteCounted` show the consequences.
- Deleting a survey also removes responses of other surveys that carry one of its option ids. This is the option-to-responses cascade, and `Cascade.DeleteSurveys` states it.
- The description is stored stripped, as `Some("")` when blank, because the route passes the empty string on.
- `Surveys.OptionTexts` states only the bound of five. The full slot-order statement is `Surveys.OptionTextsFromSlots`.

