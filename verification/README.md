# Workout Buddy — a Dafny model of the client session and the server's rules

Workout Buddy is a small workout tracker: a single-page browser client (`app.js`) talks
to a Flask server (`app.py`). This project models and proves the parts of both that carry
logic:

- **Dashboard numbers** (`dashboard.dfy`): `updateDashboardStats` counts all workouts,
  those in the trailing week, and the streak of consecutive calendar days with a workout
  within a 30-day window. The streak loop is a method checked against a specification
  function.
- **Workout timer and duration** (`clock.dfy`): the `MM:SS` text the timer shows, with
  JavaScript's truncating `%` and `padStart(2, '0')`. Also the whole-minute duration that `finishWorkout` sends.
- **Client session** (`session.dfy`): a `Client` class over the page globals
  (`currentUser`, `authToken`, `currentWorkout`, `workoutTimer`, `workoutStartTime`), the
  two `localStorage` keys and the set of live intervals. Its methods are:
  - the load handler;
  - `handleLogin`, `handleRegister`, `handleOnboarding`, `logout`;
  - `startWorkout`, `logSet`, `cancelWorkout`, `finishWorkout`.
- **Local tips** (`tips.dfy`): `_local_tips`, the seven-rule table. It is a method that
  appends tip by tip, checked against a rule-by-rule function and a second characterisation
  by the list of rules that fire.
- **Prompt** (`prompt.dfy`): `_profile_to_prompt` and its placeholders.
- **Reply parsing and fallback** (`reply.dfy`): the reply-line comprehension of
  `profile_tips` and the fall-back to the local tips.
- **Accounts** (`accounts.dfy`): `register`, `login` and `complete_onboarding`.
  - The user table is a map from e-mail address to account, held in a `UserStore` class.
  - The password hash is an input, because bcrypt salts at random.
  - The password check is a function parameter.
- **Shared helpers** (`text.dfy`, `common.dfy`): `parseInt`, number-to-text,
  Python's `strip`/`split`/`join`/`lower`/`in`, and `Option`.

Inputs the program gets from its environment are parameters:
- the current time (`now`, `today`);
- server replies to `fetch`, and the language model's reply text;
- the handle `setInterval` returns;
- the user's answer to `confirm()`;
- the contents of `localStorage` at page load.

The streak scan has one asymmetry, kept as written: a day without a workout ends the
scan, except today (app.js:273-277). A missed today therefore does not zero the streak.

## Model

| member | source | states |
|---|---|---|
| Dashboard.WeekWorkouts | app.js:258-261 | the week filter keeps exactly the workouts whose date parses and is not before the window start, and never more than there are |
| Dashboard.WeekKeepsMultiplicity | app.js:258-261 | the week filter keeps each workout in the window exactly as often as it occurs, so two workouts at the same instant both count, and adds nothing |
| Dashboard.WeekCountIsTotal | app.js:261 | the week count equals the total exactly when every workout lies in the window |
| Dashboard.WeekCountMonotone | app.js:258-261 | an earlier window start never counts fewer workouts |
| Dashboard.Run | app.js:264-279 | a run of consecutive days with a workout never exceeds the number of days looked at |
| Dashboard.Streak | app.js:264-279 | the streak never exceeds the 30-day window |
| Dashboard.RunIsMaximal | app.js:266-278 | every day a run counts has a workout, and the day just before the run has none unless the window ran out |
| Dashboard.StreakRule | app.js:264-279 | the streak is one for today (if today has a workout) plus the unbroken run from yesterday back; it is 0 with no workout today or yesterday, and at least 1 with a workout today |
| Dashboard.DaysOf | app.js:270-273 | the set of calendar days with a workout has no more elements than there are workouts, and holds exactly the days with a workout |
| Dashboard.StreakAtMostDistinctDays | app.js:264-279 | the streak is at most the number of distinct days with a workout in the window, which is at most the number of workouts |
| Dashboard.UpdateDashboardStats | app.js:255-284 | the loop computes the total, the week count (at most the total) and the streak function's value, bounded by the window, the distinct days and the total |
| Clock.JsRemDivision | app.js:356 | JavaScript's remainder is the dividend minus the divisor times the quotient rounded toward zero; it has the sign of the dividend and is smaller than the divisor in size |
| Clock.ClockMinutes | app.js:355 | for a non-negative elapsed time the minutes field is the floor of the elapsed seconds over 60 |
| Clock.ClockSeconds | app.js:356 | for a non-negative elapsed time the seconds field is below 60 and completes minutes × 60 to the elapsed seconds |
| Clock.PadTwo | app.js:358 | `padStart(2, '0')` gives length max(2, length) and only prefixes zeros |
| Clock.DurationMinutes | app.js:437 | for a non-negative elapsed time the duration is the whole number of minutes elapsed |
| Clock.FormatClock | app.js:354-358 | the timer text: the minutes and seconds fields, each as decimal text padded to two characters, joined by a colon (read back by Clock.ClockReadsBack) |
| Clock.ClockReadsBack | app.js:353-358 | the timer text is a digit string for the minutes, a colon and two digits for the seconds, and the digits read back as the two fields |
| Clock.DurationMatchesClock | app.js:354-355 | the logged duration always equals the minutes field the timer shows at the same instant |
| Clock.NegativeElapsedDisplay | app.js:354-358 | one second before the start the timer shows "-1:-1", whose fields no longer add up to the elapsed seconds |
| Session.LandingPage | app.js:12-28 | the load handler shows the auth page exactly when the token or the user is missing (or the token is empty), and the app exactly when a stored user has completed onboarding |
| Session.RouteFor | app.js:21-25 | an authenticated user goes to onboarding until it is completed, then to the app |
| Session.SetEntry | app.js:389-404 | the logged set has the exercise id, set number index + 1, the weight or 0, and the parsed reps; it is refused exactly when reps parse to nothing or 0; an RPE that parses to nothing or 0 becomes null |
| Session.RepsAcceptance | app.js:391-397 | any non-zero integer typed as reps is accepted with that value, negative ones included; "0" and a blank field are refused |
| Session.Client.Load | app.js:12-28 | a fresh page adopts the stored token and user only when both are there, routes to the landing page, and has no workout, timer or interval |
| Session.Client.HandleLogin | app.js:56-96 | a successful login stores the token and user, in memory and in storage, and routes by the onboarding flag; reloading the page would route the same way; a failure changes nothing; a workout in progress is untouched |
| Session.Client.HandleRegister | app.js:98-134 | a successful registration stores the session and always goes to onboarding; a failure changes nothing |
| Session.Client.HandleOnboarding | app.js:136-179 | the server's updated user replaces the current and stored user and the app's dashboard is shown; the token is kept; a failure changes nothing |
| Session.Client.Logout | app.js:181-188 | both storage keys and both globals are cleared and the auth page shown, so a reload lands on the auth page; a workout in progress and its timer stay |
| Session.Client.StartWorkout | app.js:337-359 | a new workout on the template with no sets, started now, with a new live interval; a previous timer's interval is not cleared and stays live |
| Session.Client.LogSet | app.js:389-416 | exactly one set is appended when reps are accepted and a workout is in progress; otherwise the sets are unchanged |
| Session.Client.CancelWorkout | app.js:418-427 | without confirmation nothing changes; with it the workout is dropped, its interval cleared and the dashboard shown |
| Session.Client.FinishWorkout | app.js:429-472 | a request is sent exactly when a workout with at least one set is in progress; it carries the template id, the whole minutes since the start, all sets and empty notes; only a successful reply ends the workout and clears its interval |
| Session.DuplicateSetScenario | app.js:389-410 | logging the same set twice leaves two equal entries |
| Text.IntToString | app.js:358 | `toString()` of an integer is at least one character: the digits of a non-negative number, or a minus sign and the digits of its magnitude |
| Text.NatDigits | app.js:358 | the decimal text of a number is all digits, at least one, with no leading zero; one digit exactly below 10 |
| Text.DigitsRoundTrip | app.js:358 | the decimal text of a number reads back as that number |
| Text.ParseInt | app.js:391-392 | `parseInt` gives `NaN` exactly when, after leading white space and an optional sign, no digit follows |
| Text.MagnitudeOfDigits | app.js:391 | a text made only of digits is read whole, to its decimal value |
| Text.ParseIntToString | app.js:391 | `parseInt` of an integer's decimal text gives that integer back |
| Text.LStripChars | app.py:414 | `lstrip(chars)` never lengthens the text and leaves it starting with a character outside `chars` |
| Text.LStripCharsDrops | app.py:414 | `lstrip(chars)` removes a prefix made only of `chars` and keeps the rest of the text unchanged |
| Text.Strip | app.py:412-414 | `strip()` leaves no white space at either end, and leaves nothing exactly when the text is blank |
| Text.StripKeepsMiddle | app.py:412-414 | `strip()` gives a middle part of the text, with only white space removed before and after it |
| Text.StripStripped | app.py:412-414 | a text with no white space at its ends is left as it is by `strip()` |
| Text.Split | app.py:414 | `split('\n')` gives at least one piece, none containing the separator |
| Text.Join | app.py:337-338 | `sep.join(xs)`: the pieces in order with the separator between neighbours (partnered by Text.JoinSplit and Text.SplitJoin) |
| Text.SplitJoin | app.py:414 | splitting a join gives back the pieces, when none of them holds the separator |
| Text.JoinSplit | app.py:414 | joining the pieces of a split with the separator gives the text back |
| Text.JoinEmpty | app.py:337-338 | a join is empty exactly when the list is empty or holds one empty string |
| Text.LowerMatches | app.py:356-357 | lower-casing a text gives a text without capitals exactly when the two are equal up to the case of ASCII letters, compared character by character |
| Text.LowerContains | app.py:356 | lower-casing does not change whether a text free of letters occurs |
| Tips.Fires | app.py:359-372 | the seven rule conditions: compound-lift goals, weight loss, endurance, a cable machine, bodyweight only, a "3-4" schedule, a beginner level (characterised by the rule lemmas) |
| Tips.Fired | app.py:359-372 | the rules that fire are listed in strictly increasing order, each firing and in range |
| Tips.FiredComplete | app.py:359-372 | every rule that fires is listed |
| Tips.LocalTips | app.py:352-381 | the local tips are between one and five |
| Tips.ComputeLocalTips | app.py:352-381 | appending tip by tip, the default fallback and the cut to five give the rule-by-rule function's value |
| Tips.AppliedIsFired | app.py:359-372 | collecting tips rule by rule gives the tips of the rules that fire, in rule order |
| Tips.AppliedEmpty | app.py:359-373 | the collected list is empty exactly when no rule fires |
| Tips.RuleTipsDistinct | app.py:359-380 | the seven rule tips are pairwise different and differ from every default tip |
| Tips.FiredPrefix | app.py:359-372 | the rules that fire below m are the first rules that fire below any larger n, and the rest are at least m |
| Tips.RuleTipKept | app.py:359-381 | a rule's tip is returned exactly when the rule fires and fewer than five earlier rules fire |
| Tips.EarlyRulesKept | app.py:359-381 | each of the first five rules has its tip returned exactly when it fires |
| Tips.CompoundTipFirst | app.py:359-381 | when the compound-lift rule fires its tip comes first |
| Tips.DefaultsWhenNoRuleFires | app.py:373-381 | the five defaults, in order, are returned exactly when no rule fires |
| Tips.RuleOrder | app.py:359-381 | returned rule tips appear in rule order, each at most once |
| Tips.BodyweightRule | app.py:355-368 | the bodyweight rule fires exactly when the equipment set is {'bodyweight_only'} |
| Tips.ScheduleRule | app.py:356-370 | the schedule rule fires exactly when the schedule contains "3-4"; the "3-4 days" test adds nothing |
| Tips.ExperienceRule | app.py:357-372 | the experience rule fires exactly when a level is given and it equals "beginner" or "0-1 years" up to the case of ASCII letters |
| Prompt.GoalsText | app.py:337 | the goals joined with ", ", or "unspecified goals" when that is empty (characterised by Prompt.PromptPlaceholders) |
| Prompt.ScheduleText | app.py:339 | the schedule, or "unspecified schedule" when it is missing or empty (characterised by Prompt.PromptPlaceholders) |
| Prompt.EquipmentText | app.py:338 | the equipment joined with ", ", or "no equipment" when that is empty (characterised by Prompt.PromptPlaceholders) |
| Prompt.ExperienceText | app.py:340 | the experience level, or "unspecified experience" when it is missing or empty (characterised by Prompt.PromptPlaceholders) |
| Prompt.ProfileToPrompt | app.py:336-350 | the prompt ends with a blank line and the fixed instructions |
| Prompt.PromptFields | app.py:341-346 | each of goals, schedule, equipment and experience appears on its own labelled line |
| Prompt.PromptPlaceholders | app.py:337-340 | an empty or missing goal or equipment list becomes its placeholder and any other list is joined with ", "; a missing or empty schedule or experience level becomes its placeholder and any other is kept |
| Reply.CleanLine | app.py:414 | a cleaned line has no white space at either end |
| Reply.CleanLineKeepsMiddle | app.py:414 | a cleaned line is a middle part of the line: only bullets and white space are removed before it, only white space after it |
| Reply.TipLines | app.py:414 | at most one tip per line, each stripped |
| Reply.ParseTips | app.py:412-414 | at most five tips, each stripped |
| Reply.ParseTipsRoundTrip | app.py:412-414 | clean single-line tips written one per line are read back in order, the first five of them |
| Reply.BulletedLine | app.py:414 | a clean tip with a bullet such as "- " or "• " in front is cleaned back to the tip |
| Reply.TipLinesOfBulletedTips | app.py:414 | lines that are clean tips, each with or without a bullet in front, become exactly those tips, in order |
| Reply.BulletedRoundTrip | app.py:412-414 | a reply of bulleted single-line tips, one per line as the prompt asks, is read back as the tips without their bullets, in order, the first five of them |
| Reply.ParseTipsEmpty | app.py:412-415 | the reply yields no tip exactly when it is blank |
| Reply.BareBulletIsEmptyTip | app.py:414 | a line holding only a bullet becomes an empty tip rather than no tip |
| Reply.ProfileTips | app.py:403-421 | between one and five tips: the reply's tips when the reply is not blank, the local tips when there is no reply or it is blank |
| Accounts.RegisterRejection | app.py:27-36 | registration is refused when the body is missing (500) or a field is missing or empty (400), or the address is taken (400, "Email already registered"); otherwise a user is created |
| Accounts.NewAccount | app.py:39-43 | the row `register` inserts: the given address and name, the password hash, not onboarded, no profile fields |
| Accounts.RegisterAddsOne | app.py:38-46 | a created user keeps the table valid, adds exactly one account and leaves every other account unchanged |
| Accounts.RegisterTwiceRefused | app.py:35-36 | registering the same address again is refused with "Email already registered" |
| Accounts.UserStore.constructor | app.py:26-58 | the table starts empty and valid |
| Accounts.UserStore.Register | app.py:26-58 | a refused request changes nothing; otherwise the new account, not onboarded and with the next id, is added under its address |
| Accounts.Login | app.py:60-81 | login succeeds exactly when both fields are present, the address is registered and the password check accepts, and then returns that account; a missing field gives 400; a wrong address or password gives 401 "Invalid credentials"; no body gives 500; each exactly when its condition holds |
| Accounts.LoginHidesUnknownAddress | app.py:68-78 | an unknown address and a wrong password get the same 401 answer |
| Accounts.LoginAfterRegister | app.py:26-78 | after a registration, logging in with the same address and password succeeds when the hash checks against the password |
| Accounts.Onboarded | app.py:110-114 | the account after onboarding: the two lists (empty when missing), the schedule and level as given, and the flag set (stated by Accounts.OnboardingStoresFields) |
| Accounts.OnboardingKeepsValid | app.py:110-116 | onboarding keeps the table valid |
| Accounts.OnboardingKeepsLogin | app.py:110-114 | onboarding does not change who can log in |
| Accounts.OnboardingStoresFields | app.py:110-114 | onboarding stores the two lists (empty when missing), the schedule and experience as given, sets the flag, and keeps id, address, name and hash |
| Accounts.UserStore.CompleteOnboarding | app.py:98-124 | with no account for the token's id it answers 404 and changes nothing; a missing body changes nothing and, when the account exists, answers 500; otherwise only that account is updated |

## Left out

- DOM rendering: toasts, loading overlays, element text, `setupWorkoutExercises`, the template and history lists, `showSection`, and visual marking of logged sets. These have no logic beyond display.
- `fetch`, JSON parsing of replies and `localStorage` are not modelled. Replies and stored keys are inputs. The user stored under `user` is taken as a parsed user (`JSON.parse` is not modelled).
- `setInterval` timing is not modelled: the callback is the pure `FormatClock`. The interval handle is an input, and the model tracks which handles are live.
- JavaScript `Date` parsing, time zones and daylight saving are not modelled. A workout date is its instant and its local day number, or `Invalid`. The week window starts exactly seven days of milliseconds before now; across a daylight-saving change `setDate(-7)` is an hour off that.
- Dashboard.UpdateDashboardStats: the streak loop's `new Date(today)`/`setDate` is modelled as subtracting whole days from a day number.
- Session.SetEntry: `parseFloat` for the weight is an input value (`None` for `NaN`). `parseInt` is modelled for decimal digits only: the `0x` prefix, the radix guess and float rounding of huge numbers are left out.
- Session.Client.LogSet: the visual "logged" state of a set is left out, so logging a set twice is allowed. In the page itself a set's button is disabled once logged and only `startWorkout` re-renders the exercises, after emptying the sets; duplicates arise from a direct `logSet` call or a template that lists the same exercise twice.
- Session.Client: every handler is modelled as one atomic step once its server reply is in. Overlapping handlers are not: for example, a `finishWorkout` reply that arrives after a new workout was started clears whichever workout is current then (app.js:454-461).
- Text.Lower: only ASCII letters are lower-cased. Python's full Unicode lower-casing is left out.
- Text.Strip: white space is Python's `isspace` set, listed by code point. Its contract gives only the shape of the result; what it keeps is stated by Text.StripKeepsMiddle.
- Accounts: bcrypt hashing, JWT creation and checking, and SQLAlchemy sessions are inputs or left out. The id comes from a counter, standing in for SQLite's row id.
- Accounts.OnboardingStoresFields: the lists are stored as lists, not as `json.dumps` text. A goals or equipment key sent as JSON `null` (stored as the text "null") is not distinguished from a missing key.
- Accounts.RegisterRejection: a body that is present but not a JSON object, and field values that are not text, are left out. In the code a password that is not text raises in `password.encode` (models.py:25) and the request answers 500, as does a list or object value once it is bound into the query. A number or boolean address or name raises nothing: it is stored and the request answers 201.
- Tips.ComputeLocalTips: a `Profile` cannot hold a goals or equipment key sent as JSON `null`. In the code `set(None)` in `_local_tips` (app.py:354-355) raises, and the endpoint answers 500 (app.py:421-423). The `join` in `_profile_to_prompt` raises for such a key too, but inside a `try` whose error is swallowed (app.py:407-418), so the request still reaches `_local_tips`.
- Reply.ProfileTips: the profile lookup from the login token when the body has no profile (app.py:386-401) is left out, since it needs the JWT layer. Whether the language model is configured, and whether its call fails, is folded into the reply being `None`.
- Reply.CleanLine: its contract gives only that the result is stripped; what it keeps is stated by Reply.CleanLineKeepsMiddle.
- Reply.TipLines: its contract gives only the count bound and the shape of each tip; which lines become which tips is stated by Reply.TipLinesOfBulletedTips for clean tips with or without bullet characters in front; other lines, such as one opening with a space or a tab, are covered only by Reply.CleanLineKeepsMiddle.
- Reply.ParseTips: its contract gives only the cap of five and the shape of each tip; what the tips are is stated by Reply.BulletedRoundTrip and Reply.ParseTipsRoundTrip for replies of clean single-line tips, bulleted or not, and by Reply.ParseTipsEmpty for blank replies. Replies with blank lines between tips, or with lines that open with a space or end in white space, have only the shape stated.
- Tips.ComputeLocalTips: `set(goals)` membership is modelled as list membership, which gives the same answer.
- `seed_data`, the template, exercise, history and workout-log endpoints, `models.py` beyond the user row, and `start_app.py` are not part of this model.
