# D2R farm tracker — a Dafny model of its run scoring and reports

The tracker is a small web application in which players of Diablo II
Resurrected log farming runs: the area, the difficulty, how many unique and
set items dropped, and which runes dropped in what quantity. Each run is scored
by its *high-rune count*, the total quantity of the twelve valuable runes
(Um to Zod). The dashboard queries compute a player's run count and high-rune
total, and a leaderboard ranks the ten players with the most high runes.

This project models that core in Dafny 4.11:

- `runes.dfy` (`Runes`): the rune order and the high-rune table, and how they fit together.
- `scoring.dfy` (`Scoring`): the high-rune count of a submission, the scoring loop that computes it, and its algebra (additivity, order independence, bounds, what is ignored).
- `tables.dfy` (`Tables`): the three tables (users, runs, rune drops) as sequences in insertion order, the identifiers the database assigns, and the invariant every reachable state keeps.
- `auth.dfy` (`Auth`): registration, login, logout and the session gate in front of every protected page.
- `logging.dfy` (`Logging`): logging a run, which scores it and appends one run row and one rune-drop row per submitted drop.
- `reports.dfy` (`Reports`): the dashboard figures (run count, and summed high-rune count defaulting to 0).
- `page.dfy` (`Page`): how the dashboard page's format string is filled, which shows that the page as written never displays the two figures (see "## Findings").
- `leaderboard.dfy` (`Leaderboard`): the join of runs and users, grouped per user, sorted by total from highest to lowest and cut at ten rows.
- `scenarios.dfy` (`Scenarios`): worked examples: one player registering, logging in and logging two runs, and a two-player leaderboard.

The database is a value `Store(users, runs, drops)`. A new row's identifier is
one more than the largest identifier in its table, or 1 in an empty table.
The session is `Option<nat>`, the id of the logged-in user. Password hashing is
a foreign library. Registration receives the hash the library produced, and
login receives the library's comparison as a function `matches(hash, password)`.
The clock reading stored with a run is a parameter `now`.

### Where the code's behaviour is easy to misread

The model follows `main.go` in each of these cases:

- The JSON reply to a logged run is `{"status": "saved", "hr": …}`.
- Registering a username that is already taken is not reported to the user. The insert fails on the unique index, the error is ignored, and the reply is the same redirect to the login page. `Auth.Register` keeps the store unchanged in that case.
- Login tells the two failures apart: "wrong data" for an unknown username and "wrong password" for a failed password check (`Auth.LoginReply`).
- The dashboard queries compute only the run count and the summed high-rune count. There are no averages and no unique or set totals. The page does not display even these two figures (see "## Findings").
- Quantities are not checked on the server. A negative quantity of a high rune lowers the count (`Scoring.NegativeHighDropLowersScore`). Only the browser form filters quantities to positive numbers.
- Rune names are not checked. An unknown name never counts, but its drop row is still stored.
- The run row and its drop rows are written one after another, with no transaction.

## Model

| member | source | states |
|---|---|---|
| Runes.RuneOrderDistinct | main.go:69-74 | the rune order lists 33 runes, no two equal |
| Runes.HighRunesAreRunes | main.go:64-74 | the high-rune table has 12 keys and each of them is a rune of the rune order |
| Runes.HighRunesAllTrue | main.go:64-67 | every entry of the table is true, so a lookup is true exactly for a key, and a missing name reads as false |
| Runes.HighRunesAreTopOfOrder | main.go:64-74 | a name is high exactly when it is among the last twelve runes of the order, which run from Um (position 21) to Zod |
| Runes.HighRuneIndex | main.go:64-74 | a rune of the order is high exactly when its position is 21 or later |
| Scoring.CountHighRunes | main.go:361-366 | the scoring loop returns the total quantity of exactly those drops whose rune is a high rune |
| Scoring.ScoreSnoc | main.go:362-365 | each loop step adds the drop's quantity when its rune is high and adds nothing otherwise |
| Scoring.ScoreAppend | main.go:361-366 | the count of two drop lists submitted together is the sum of their counts |
| Scoring.NoHighRunesScoreZero | main.go:356-366 | an empty or missing drop list, or one with no high rune in it, scores 0 |
| Scoring.LowDropIgnored | main.go:363-365 | a drop of a low rune or of an unknown name, inserted anywhere, leaves the count unchanged |
| Scoring.HighDropsOnly | main.go:361-366 | the selected drops are all high runes, and scoring only them gives the same count as scoring the whole list |
| Scoring.ScoreBounds | main.go:361-366 | with non-negative quantities the count is at least 0 and at most the total quantity of all drops |
| Scoring.NegativeHighDropLowersScore | main.go:361-366 | the server accepts negative quantities, and a negative high-rune drop strictly lowers the count |
| Scoring.ScorePermutation | main.go:362-366 | the count does not depend on the order in which drops are submitted |
| Tables.NextId | main.go:26-49 | the next identifier is larger than every identifier in use, is one more than the largest of them, and is 1 for an empty table |
| Tables.AppendNextId | main.go:26-49 | appending a row with the next identifier keeps a table's identifiers ascending, so they stay unique and follow insertion order |
| Tables.EmptyStoreWellFormed | main.go:113-120 | the freshly migrated empty database satisfies the invariant |
| Auth.Register | main.go:201-213 | an empty username or password re-renders the form and changes nothing. Otherwise the reply is a redirect to login. A taken username changes nothing. A free one appends exactly one user with the next id and the given hash. Runs and drops never change. Unique usernames are preserved, and the username exists afterwards |
| Auth.AddUserKeepsWellFormed | main.go:28-28 | inserting a user whose name is not taken keeps usernames unique and ids ascending |
| Auth.RegisterAddsAtMostOne | main.go:204-210 | registration leaves the user table unchanged or extends it by exactly one row |
| Auth.FindUser | main.go:185-185 | the lookup finds a user exactly when the name is taken, and returns the first (lowest id) row with that name |
| Auth.Login | main.go:180-199 | "unknown user" is returned exactly when no user has the name. Success puts into the session the id of a user with that name whose hash matches the password. Failures leave the session as it was. With unique usernames, a failure means the user's hash did not match |
| Auth.WrongPasswordNeverLogsIn | main.go:184-192 | for an existing user, a password the check rejects yields "wrong password" and leaves the session unchanged |
| Auth.LoginThenGate | main.go:194-196 | after a successful login the gate admits exactly the user who logged in |
| Auth.Logout | main.go:215-220 | after logout the session is empty and the gate refuses every protected page |
| Auth.Gate | main.go:159-169 | a request passes exactly when a user id is in the session, and the handler then acts as that user |
| Logging.AppendDrops | main.go:380-382 | the old rows stay as they were, followed by one row per submitted drop, in order, each carrying the run's id and the drop's rune and quantity. Drop ids stay ascending |
| Logging.DropsOfRows | main.go:380-382 | reading the new rows back under the run's id gives exactly the submitted drops, and reading them under any other id gives none |
| Logging.LogRun | main.go:343-385 | returns the high-rune count. Appends exactly one run, with the session user, the submitted fields, that count, session length 0 and the clock reading. Appends exactly one drop row per submitted drop, in order, under the new run's id. The user table and the old rows are unchanged. The invariant is preserved |
| Logging.LogRunKeepsWellFormed | main.go:368-382 | logging a run keeps ids ascending, usernames unique, and every drop attached to an existing run |
| Logging.LogRunKeepsScoresMatching | main.go:361-382 | if every stored run's count equals the score of its stored drops, this still holds after logging a run, the new run included |
| Logging.HandleLogRun | main.go:144-149 | without a user in session the request is redirected and nothing is stored. With one, the run is logged for that user and the reply is "saved" with the count |
| Reports.RunCount | main.go:226-226 | a user's run count never exceeds the number of stored runs |
| Reports.RunCountCountsIndices | main.go:226-226 | the run count equals the number of positions in the run table that hold a run of that user |
| Reports.NoRunsNoHr | main.go:227-227 | a user with no runs has a high-rune total of 0, the COALESCE default |
| Reports.HrTotalNonNegative | main.go:227-227 | if no stored count is negative, no user's total is negative |
| Reports.Dashboard | main.go:222-227 | the dashboard's run count is the number of the user's runs, at most the table size. Its total is 0 when that count is 0, and it is non-negative when no stored count is negative |
| Reports.DashboardAfterLogRun | main.go:225-227 | logging a run for a user raises that user's figures by one run and by the run's count, and leaves every other user's figures unchanged |
| Leaderboard.Groups | main.go:396-398 | the grouped join has a row for a user exactly when that user has at least one run, and the row carries the user's name, summed count and run count |
| Leaderboard.GroupsDistinct | main.go:398-398 | with unique usernames, grouping by user gives each name at most one row |
| Leaderboard.InsertDesc | main.go:398-398 | inserting into a list ordered from highest to lowest total keeps it ordered and adds exactly that row |
| Leaderboard.SortDesc | main.go:398-398 | the sorted rows are a permutation of the input, ordered from highest to lowest total |
| Leaderboard.Limit | main.go:398-398 | the cut keeps a prefix of at most n rows, and all rows when there are fewer than n |
| Leaderboard.Leaderboard | main.go:387-399 | at most 10 rows, totals never increase down the list, and each row is the grouped row of a user with at least one run. A user with runs who is missing means the board is full and every listed total is at least theirs. With unique usernames no user is listed twice |
| Page.Render | main.go:229-296 | the i-th verb of the format string shows the i-th argument when its type fits, an error marker when it does not, a "missing" marker when the arguments have run out, and arguments beyond the verbs are appended as "extra" markers |
| Page.RenderClean | main.go:229-296 | every slot shows its own argument exactly when there is one argument per verb and each argument has the type its verb expects |
| Page.DashboardHidesFigures | main.go:229-296 | as main.go formats the dashboard, whatever the run count and total are, neither appears: both `%d` slots show a string argument's error marker and the last two `%s` slots show "missing" |
| Page.DashboardPage | main.go:225-238 | with the figures passed first, the run count and the total fill the two `%d` slots and each `%s` slot shows its own string |
| Page.DashboardPageClean | main.go:229-296 | the corrected dashboard page has no error, missing or extra marker |
| Scenarios.BaalSlayerRegistersAndLogsIn | main.go:180-213 | registering "Baal_Slayer" in an empty database creates user 1, and logging in with the right password puts user 1 in the session |
| Scenarios.ScenarioScores | main.go:361-366 | Jah×1 with El×5 scores 1, since only the Jah counts, and Ber×2 with Zod×1 scores 3 |
| Scenarios.BaalSlayerSession | main.go:222-385 | logged in as that user, runs with Jah×1, El×5 and then Ber×2, Zod×1 get replies of 1 and 3 high runes, and the dashboard queries compute (1 run, 1) and then (2 runs, 4) |
| Scenarios.HigherTotalFirst | main.go:395-399 | of two players with totals 10 and 25, the one with 25 heads the leaderboard |

## Left out

- HTTP routing, redirects as responses, cookie storage and signing of the session (main.go:122-169) are not modelled. The session is `Option<nat>`, and the middleware is `Auth.Gate`, which is applied to the run logging handler. The dashboard and leaderboard reports take the user id or the store directly.
- bcrypt hashing and comparison is a foreign crypto library. Registration takes its output `hashed` as a parameter, and login takes its comparison `matches` as a parameter. An error from hashing (ignored by the handler) shows up only as whatever hash is passed in.
- Form and JSON decoding (`strconv.Atoi` at main.go:348-349 and `json.Unmarshal` at main.go:358, both with errors ignored) is not modelled. A `Logging.Submission` holds the already decoded fields, as any integers and any drop list. What decoding makes of bad input is not modelled either: a non-numeral count becomes 0, an out-of-range numeral becomes 9223372036854775807 or -9223372036854775808, a drop whose field has the wrong JSON type keeps that field's zero value while the rest of the list still decodes, and a syntax error, or a top-level value that is not an array (including `null`), leaves the drop list empty.
- GORM, SQLite, schema migration and database failures are not modelled. The tables are sequences. Every write is assumed to succeed, except the user insert that the unique index rejects.
- The missing transaction around the run row and its drop rows is not modelled. `Logging.LogRun` is one step, so a crash between the writes cannot be expressed.
- `time.Now()` is the parameter `now`, not a clock.
- All HTML, CSS and JavaScript generation is left out, except the argument slots of the dashboard's format string in `Page`. This covers the page layout, the rune grid, the area and difficulty option lists (`areas` and `difficulties` are used only there), rune icon URLs, and the leaderboard table markup. It is presentation only.
- `myStatsHandler` (hard-coded chart data) and `startSessionHandler` (a constant reply) compute nothing from the data.
- Concurrency between requests is left to the server and the database.
- Scoring.CountHighRunes: does not model wrap-around of Go's 64-bit `int` when the summed quantities exceed its range, because integers here are unbounded.
- Reports.Dashboard: does not model SQLite's overflow check on `SUM(hr_count)`. When the sum leaves the 64-bit range SQLite reports an "integer overflow" error instead of wrapping, and the error is ignored at main.go:227, leaving the computed total at 0. The model's unbounded sum gives the exact total instead.
- Leaderboard.Leaderboard: does not model the same `SUM(r.hr_count)` overflow error at main.go:395-399. When any user's sum leaves the 64-bit range the query fails, the error is ignored, and the page shows no rows. The model lists the exact totals instead.
- Leaderboard.Leaderboard: rows with equal totals come out in user-table order, but the contract promises no tie order, because the SQL query leaves it unspecified.

## Findings

| source | as written | input that shows it | evidently intended | confidence | as-written member | corrected member |
|---|---|---|---|---|---|---|
| main.go:229-296 | `dashboardHandler` computes `totalRuns` and `totalHR` (main.go:225-227) but passes `fmt.Sprintf` only four arguments (rune grid, `"HELL"`, area options, difficulty options) for six verbs (`%d` at 234 and 238, `%s` at 259, 268, 273 and 274). The figures are never shown: the run-count slot prints `%!d(string=<rune grid>)`, the total slot `%!d(string=HELL)`, and the two option lists print `%!s(MISSING)` | any logged-in request to GET /dashboard, e.g. after the runs of `Scenarios.BaalSlayerSession`, where the queries compute (2, 4) | `totalRuns` and `totalHR` passed first, so each verb gets its own argument | high; not executed | Page.DashboardHidesFigures | Page.DashboardPage |
