# GymBuddy core, modelled in Dafny

GymBuddy is a single-page fitness tracker. A user registers, signs in, logs
activities (type, name, duration, calories, intensity, notes) and sets goals
with a numeric target and a progress count. Everything is kept in the
browser's key/value store: all users' activities in one list under
`gymbuddy_activities`, all goals under `gymbuddy_goals`, the accounts under
`gymbuddy_users` and the signed-in user under `gymbuddy_user`. The dashboard
filters those shared lists down to the signed-in user and derives summary
cards, a seven-day chart, an activity-type breakdown, a day streak and goal
progress displays from them.

This project models that core and proves properties of the model:

- `js.dfy` (module `Js`): the JavaScript built-ins the code relies on, over
  mathematical integers: `trim` and the `\s` white-space set, `parseInt`,
  integer `toString`, `ToInt32` (section 7.1.6 of the ECMAScript Language
  Specification), `Math.round` of a quotient and `Math.min` with NaN.
- `entities.dfy`, `storage.dfy`, `lists.dfy`: the records, the key/value
  store as a class over a `map`, and the list rewrites (`filter` by key,
  `map` that merges a patch, `slice(0, n)`).
- `dashboard.dfy`: the dashboard as a class holding both shared lists and
  the store; every mutation rewrites the whole key.
- `stats_cards.dfy`, `progress_chart.dfy`, and the display arithmetic in
  `goals_section.dfy`: totals, the active/completed split, the week filter,
  the rounded average, the streak, the seven daily buckets, the type counts
  and colours, the goal percentage, bar width and border band.
- `activity_form.dfy`, `goals_section.dfy`, `helpers.dfy`, `register.dfy`,
  `login.dfy`: form state, ordered validation, coercion with `parseInt`,
  sanitising, the e-mail shape, the password length rule.
- `password_hash.dfy`: `simpleHash`, proved equal to the polynomial hash
  with multiplier 31 reduced by `ToInt32`.
- `app.dfy`: session restore, login, logout and the route guard.

Instants are integers (milliseconds since the epoch) and a calendar day is
the day number `t / 86400000`, the UTC day that `toISOString().split('T')[0]`
names; "now" is always a parameter. A Dafny `char` stands for one UTF-16
code unit. `parseInt` results are `Num = NaN | Int(v)`, so NaN comparisons
are modelled as false. The progress tab's summary figures
(`src/components/ProgressChart.jsx:180-183`) are the same expressions as the
cards' and use `StatsCards.Summarize`.

Notes on the code's behaviour:

- the accounts and session keys are `gymbuddy_users` and `gymbuddy_user`;
- adding an activity checks only that name and duration are non-empty, so a
  zero or negative duration is accepted;
- a calendar day is the UTC day of the ISO timestamp, not the local date;
- the streak walks the distinct days newest first and stops at the first
  mismatch, so an activity dated after today makes the streak 0;
- the progress cap is `Math.min(entered, target)`, with no lower clamp at 0.

## Model

| member | source | states |
|---|---|---|
| Js.Min | src/components/GoalsSection.jsx:272 | `Math.min` is NaN when either argument is; otherwise the smaller argument |
| Js.Trim | src/components/Register.jsx:154 | the result has no white space at either edge, and a string without edge white space is its own trim |
| Js.TrimIsBothTrims | src/components/Register.jsx:154 | `trim` equals `trimStart` followed by `trimEnd` |
| Js.TrimIsSlice | src/components/Register.jsx:154 | the trimmed string is the slice of the input that starts right after its leading white space |
| Js.TrimDropsOnlySpace | src/components/Register.jsx:154 | every code unit `trim` removes, before or after the kept slice, is white space |
| Js.ParseIntOfDecimalString | src/components/ActivityForm.jsx:138 | `parseInt` (`ParseInt`: skip leading white space, optional sign, then digits) reads back every integer that `toString` (`DecimalString`, as in `Date.now().toString()`) writes |
| Js.ParseMagnitudeOfDigits | src/components/ActivityForm.jsx:138 | a non-empty run of decimal digits reads as its decimal value |
| Js.ParseIntOfSigned | src/components/ActivityForm.jsx:138 | an optional minus sign before digits negates the value the digits read as |
| Js.ToInt32 | src/components/Register.jsx:146 | the result lies in [-2^31, 2^31) and is congruent to the input modulo 2^32 |
| Js.ToInt32Congruent | src/components/Register.jsx:145-146 | `ToInt32` depends only on the residue modulo 2^32 |
| Js.RoundQuotient | src/components/StatsCards.jsx:86 | `Math.round(n / d)` is the integer r with 2dr <= 2n + d < 2dr + 2d (nearest, halves up) |
| Js.RoundQuotientBetween | src/components/StatsCards.jsx:86 | a rounded quotient stays within any integer bounds on the exact quotient |
| Entities.DayShift | src/components/ProgressChart.jsx:88-90 | for the day number `Day` of an instant (what `toISOString().split('T')[0]` names), stepping an instant back k whole days steps its day number back by k |
| Storage.LocalStorage.GetItem | src/components/Dashboard.jsx:124 | a key reads as present exactly when it is in the store, with the stored value |
| Storage.LocalStorage.SetItem | src/components/Dashboard.jsx:145 | a write replaces the whole value of its key and nothing else |
| Storage.LocalStorage.RemoveItem | src/App.jsx:42 | a removal deletes exactly that key |
| Storage.StoredActivities | src/components/Dashboard.jsx:123-127 | an absent activities key loads as the empty list; a stored list loads as itself |
| Storage.StoredGoals | src/components/Dashboard.jsx:129-133 | an absent goals key loads as the empty list; a stored list loads as itself |
| Storage.StoredUsers | src/components/Register.jsx:210 | an absent accounts key reads as the empty list (`|| '[]'`) |
| Lists.WithKey | src/components/Dashboard.jsx:190-193 | `filter` by key never yields more elements than it was given |
| Lists.WithoutKey | src/components/Dashboard.jsx:157 | `filter` against a key never yields more elements than it was given |
| Lists.WithKeyMembers | src/components/Dashboard.jsx:190-193 | the filtered list holds exactly the elements with that key |
| Lists.WithoutKeyMembers | src/components/Dashboard.jsx:157 | the filtered list holds exactly the elements without that key |
| Lists.UpdateWhere | src/components/Dashboard.jsx:149-151 | same length; elements with another key unchanged; elements with the key merged with the patch |
| Lists.Take | src/components/Dashboard.jsx:257 | `slice(0, n)` is a prefix of length min(n, length) |
| Lists.WithKeyAppend | src/components/Dashboard.jsx:142 | filtering distributes over concatenation, so order is kept |
| Lists.WithoutKeyAppend | src/components/Dashboard.jsx:157 | removal by key distributes over concatenation |
| Lists.WithoutKeyIdempotent | src/components/Dashboard.jsx:157 | removing a key twice gives the list of removing it once |
| Lists.WithoutAbsentKey | src/components/Dashboard.jsx:157 | removing a key nobody carries leaves the list equal |
| Lists.KeySplit | src/components/Dashboard.jsx:190-193 | the elements with and without a key together account for the whole list |
| Lists.UpdateAbsentKey | src/components/Dashboard.jsx:149-151 | updating a key nobody carries leaves the list equal |
| ActivityForm.ActivityForm.constructor | src/components/ActivityForm.jsx:111-118 | the form starts as type cardio, intensity medium, other fields empty, no date |
| ActivityForm.ActivityForm.HandleChange | src/components/ActivityForm.jsx:120-125 | an edit sets exactly the named field; every other field keeps its value |
| ActivityForm.CaloriesOrZero | src/components/ActivityForm.jsx:139 | NaN calories become 0; a number stays itself |
| ActivityForm.Submit | src/components/ActivityForm.jsx:127-141 | no draft exactly when name or duration is empty; otherwise duration is `parseInt(duration)`, calories `parseInt(calories) \|\| 0`, and type, intensity, name and notes pass through |
| ActivityForm.SubmitAcceptsAnyDuration | src/components/ActivityForm.jsx:131-138 | any integer typed as the duration, zero and negatives included, is submitted as that integer |
| ActivityForm.SubmitEmptyCaloriesIsZero | src/components/ActivityForm.jsx:139 | an empty calories field is submitted as 0 |
| GoalsSection.WithFieldChangesOnlyThatField | src/components/GoalsSection.jsx:236-241 | an edit sets the named field and no other |
| GoalsSection.Draft | src/components/GoalsSection.jsx:243-254 | no draft exactly when title or target is empty; otherwise target is `parseInt(target)` and every other field passes through |
| GoalsSection.ZeroTargetAccepted | src/components/GoalsSection.jsx:246-253 | a target of "0" is accepted as the target 0 |
| GoalsSection.GoalsSection.constructor | src/components/GoalsSection.jsx:226-234 | the form starts closed with type workout, unit times, other fields empty |
| GoalsSection.GoalsSection.OpenForm | src/components/GoalsSection.jsx:286 | the add button opens the form and keeps its contents |
| GoalsSection.GoalsSection.CancelForm | src/components/GoalsSection.jsx:376 | cancel closes the form and keeps its contents |
| GoalsSection.GoalsSection.HandleChange | src/components/GoalsSection.jsx:236-241 | an edit sets exactly the named field; the form stays open or closed |
| GoalsSection.GoalsSection.HandleSubmit | src/components/GoalsSection.jsx:243-265 | a rejected submit adds nothing and changes nothing; an accepted one passes the draft, resets the form to its defaults and closes it |
| GoalsSection.UpdateProgressAsWritten | src/components/GoalsSection.jsx:267-275 | Cancel or a non-numeric answer makes no call; a numeric answer throws, since `goal` is not in scope |
| GoalsSection.AsWrittenNeverRecordsProgress | src/components/GoalsSection.jsx:272 | as written, no answer ever reaches the update call; entering 7 throws |
| GoalsSection.FindGoal | src/components/GoalsSection.jsx:272 | the goal found carries the id; none is found only when no goal carries it |
| GoalsSection.UpdateProgress | src/components/GoalsSection.jsx:267-275 | no call exactly when the prompt is cancelled, the answer is not a number or the goal is unknown; otherwise the progress sent is the minimum of the answer and that goal's target |
| GoalsSection.UpdateProgressCapped | src/components/GoalsSection.jsx:272 | the progress sent never exceeds a numeric target and equals the answer when the answer is within it |
| GoalsSection.UpdateProgressKeepsNegatives | src/components/GoalsSection.jsx:272 | a negative answer is sent unchanged: there is no lower clamp |
| GoalsSection.Percent | src/components/GoalsSection.jsx:418 | NaN in gives NaN out; numeric progress over a non-zero target gives a finite percentage |
| GoalsSection.PercentOfPositiveTarget | src/components/GoalsSection.jsx:418 | the percentage is the nearest integer to 100 * progress / target, lies in [0, 100] while progress does, is at least 100 from the target on and exactly 100 at it |
| GoalsSection.BandOf | src/components/GoalsSection.jsx:110-114 | exactly one of four bands: at least 100, [75, 100), [50, 75), or below 50 (NaN included) |
| GoalsSection.BandMonotone | src/components/GoalsSection.jsx:110-114 | a larger value never shows a lower band |
| GoalsSection.BarWidthOf | src/components/GoalsSection.jsx:164 | the width is at most 100 and equals the value up to 100 |
| GoalsSection.CardAsWrittenMisreadsCompletion | src/components/GoalsSection.jsx:402-418 | as written (`CardAsWritten`: bar and band from raw progress), a goal of 10 with 10 done reads 100% yet shows a bar at 10 and the lowest band |
| GoalsSection.PercentNum | src/components/GoalsSection.jsx:418 | the percentage as a number, NaN when it is not finite |
| GoalsSection.CardShowsCompletion | src/components/GoalsSection.jsx:402-418 | with bar and band taken from the percentage (`Card`), a reached positive target shows a full bar and the top band, and no progress an empty bar and the lowest band |
| StatsCards.GoalCountsPartition | src/components/StatsCards.jsx:71-72 | with numeric progress and targets, the active goals (`ActiveGoals`, `progress < target`) plus the completed ones (`CompletedGoals`, `progress >= target`) are the number of goals |
| StatsCards.NaNTargetCountedNowhere | src/components/StatsCards.jsx:71-72 | a goal with a NaN target is counted on neither card |
| StatsCards.ThisWeek | src/components/StatsCards.jsx:75-80 | this week's activities are exactly those dated at or after now minus seven days |
| StatsCards.ThisWeekMinutesBounded | src/components/StatsCards.jsx:78-82 | with no negative durations, this week's minutes are between 0 and the total |
| StatsCards.Summarize | src/components/StatsCards.jsx:68-86 | the count is the number of activities, total minutes the sum of their durations (`TotalMinutes`), total calories the sum with missing calories as 0 (`TotalCalories`); the average is 0 for none and otherwise the nearest integer to that sum of durations / count |
| StatsCards.TotalMinutesAppend | src/components/StatsCards.jsx:69 | the sum of durations splits over any cut of the list, so the left fold of `reduce` gives the same total |
| StatsCards.TotalCaloriesAppend | src/components/StatsCards.jsx:70 | the calorie sum splits over any cut of the list |
| StatsCards.FoldStep | src/components/StatsCards.jsx:69-70 | one more activity at the end adds its duration to the minutes and its calories, or 0, to the calories |
| StatsCards.TotalMinutesBounds | src/components/StatsCards.jsx:69 | the total lies between count times the smallest and count times the largest duration |
| StatsCards.AverageWithinDurations | src/components/StatsCards.jsx:86 | the average lies between the shortest and the longest duration |
| StatsCards.SummaryOfNothing | src/components/StatsCards.jsx:86 | no activities give count, totals and average 0 |
| StatsCards.DaysOf | src/components/StatsCards.jsx:92-93 | one day number per activity, in list order |
| StatsCards.InsertDescending | src/components/StatsCards.jsx:92-94 | inserting a day keeps the list strictly decreasing and adds exactly that day |
| StatsCards.DistinctDescending | src/components/StatsCards.jsx:92-94 | the distinct days, strictly decreasing, holding exactly the days given |
| StatsCards.Run | src/components/StatsCards.jsx:100-109 | the loop's count never exceeds the number of distinct days |
| StatsCards.CalculateStreak | src/components/StatsCards.jsx:89-112 | the loop returns `Streak`: 0 for no activities, otherwise the run of the distinct days read newest first from today |
| StatsCards.HeadIsLargest | src/components/StatsCards.jsx:94 | the newest day comes first |
| StatsCards.RunCharacterized | src/components/StatsCards.jsx:100-109 | on newest-first days none after the start, a run of k covers the start and the k - 1 days before it and stops at a missing day |
| StatsCards.ActiveOnDates | src/components/StatsCards.jsx:92-94 | a day has an activity exactly when it is among the distinct days |
| StatsCards.StreakCharacterized | src/components/StatsCards.jsx:89-112 | without future-dated activities, the streak is k exactly when today and the k - 1 days before it all have activities and the day before those has none |
| StatsCards.FutureActivityForcesZero | src/components/StatsCards.jsx:92-108 | any activity dated after today makes the streak 0 |
| StatsCards.NoActivityTodayIsZero | src/components/StatsCards.jsx:97-108 | no activity today gives streak 0 whatever the days before hold |
| StatsCards.StreakAtMostActiveDays | src/components/StatsCards.jsx:92-110 | the streak is at most the number of distinct activity days, itself at most the number of activities |
| ProgressChart.Consecutive | src/components/ProgressChart.jsx:85-93 | n consecutive day numbers from the first |
| ProgressChart.Last7Days | src/components/ProgressChart.jsx:85-93 | seven consecutive days, oldest first, the last being today |
| ProgressChart.DailyTotals | src/components/ProgressChart.jsx:95-102 | one bucket per day, each the total of the metric over the activities of that day (`DayTotal`) |
| ProgressChart.WindowSplit | src/components/ProgressChart.jsx:97-101 | a window's total is its first day's total plus the rest |
| ProgressChart.EmptyWindow | src/components/ProgressChart.jsx:97-101 | an empty window totals 0 |
| ProgressChart.BucketsCoverWindow | src/components/ProgressChart.jsx:96-102 | the buckets of consecutive days add up to the total over exactly those days |
| ProgressChart.WeekBucketsSum | src/components/ProgressChart.jsx:138-145 | the seven minute or calorie buckets add up to the total over the last seven days (`WindowTotal`, the metric summed over activities whose day lies in the window) |
| ProgressChart.OutsideDaysChangeNothing | src/components/ProgressChart.jsx:97-101 | an activity dated outside the chart's days changes no bucket |
| ProgressChart.DistinctKinds | src/components/ProgressChart.jsx:118-121 | the types in first-seen order are never more than the activities |
| ProgressChart.DistinctKindsListsEachOnce | src/components/ProgressChart.jsx:118-121 | a type is listed exactly when some activity has it, and no type is listed twice |
| ProgressChart.ActivityTypeData | src/components/ProgressChart.jsx:117-136 | labels are the distinct types in first-seen order, each count is the number of activities of that type (`KindCount`), and the colours are the first min(types, 9) of the palette |
| ProgressChart.ListedKindsOccur | src/components/ProgressChart.jsx:118-121 | every listed type has a count of at least 1 |
| ProgressChart.KindCountPositive | src/components/ProgressChart.jsx:120 | the type of any activity is counted at least once |
| ProgressChart.CountsOverStep | src/components/ProgressChart.jsx:119-121 | one more activity adds one to the counts of the listed types when its type is listed |
| ProgressChart.CountsOverAppend | src/components/ProgressChart.jsx:129-131 | counts over joined type lists add |
| ProgressChart.KindCountAbsent | src/components/ProgressChart.jsx:120 | a type no activity has counts 0 |
| ProgressChart.CountsSumToTotal | src/components/ProgressChart.jsx:118-131 | the doughnut's counts add up to the number of activities |
| Dashboard.NewActivity | src/components/Dashboard.jsx:136-141 | the new activity takes the draft's fields, then id from the clock, date = now and the session user as owner, so a date picked in the form is discarded |
| Dashboard.NewGoal | src/components/Dashboard.jsx:163-169 | the new goal has progress 0, the session user as owner and the creation time, whatever the draft holds |
| Dashboard.Dashboard.constructor | src/components/Dashboard.jsx:121-133 | both lists load from the store, empty when their key is absent |
| Dashboard.Dashboard.UserActivities | src/components/Dashboard.jsx:190-193 | exactly the activities owned by the session user |
| Dashboard.Dashboard.UserGoals | src/components/Dashboard.jsx:195-198 | exactly the goals owned by the session user |
| Dashboard.Dashboard.Recent | src/components/Dashboard.jsx:257 | the first min(5, n) of the user's activities, i.e. the earliest logged |
| Dashboard.Dashboard.AddActivity | src/components/Dashboard.jsx:135-146 | one activity appended at the end, the user's view grows by exactly it, the list saved under its key, the form closed, goals untouched |
| Dashboard.Dashboard.UpdateActivity | src/components/Dashboard.jsx:148-154 | the list is the id-matched merge and is saved even for an unknown id |
| Dashboard.Dashboard.DeleteActivity | src/components/Dashboard.jsx:156-160 | every activity with the id is removed, the rest keep order, the list is saved |
| Dashboard.Dashboard.AddGoal | src/components/Dashboard.jsx:162-173 | one goal appended at the end, the user's goals grow by exactly it, the list saved |
| Dashboard.Dashboard.UpdateGoal | src/components/Dashboard.jsx:175-181 | the goals are the id-matched merge, saved |
| Dashboard.Dashboard.DeleteGoal | src/components/Dashboard.jsx:183-187 | every goal with the id is removed, the rest keep order, saved |
| Dashboard.Dashboard.ToggleForm | src/components/Dashboard.jsx:240 | the add button flips the form's visibility |
| Dashboard.Dashboard.CloseForm | src/components/Dashboard.jsx:249 | the form's cancel closes it |
| Dashboard.Dashboard.SelectTab | src/components/Dashboard.jsx:214-230 | a tab click selects that tab and changes nothing else |
| Dashboard.AddLeavesOtherUsersAlone | src/components/Dashboard.jsx:142 | adding an activity for one user leaves every other user's view unchanged |
| Dashboard.DeleteThenView | src/components/Dashboard.jsx:157 | the user's view after a delete is the old view without that id |
| Dashboard.DeleteIdempotent | src/components/Dashboard.jsx:157 | deleting the same id twice gives the list of one delete |
| Dashboard.UpdateUnknownIdIsNoop | src/components/Dashboard.jsx:149-153 | updating an id nobody carries leaves the list equal |
| Dashboard.MergeTakesPatchFields | src/components/Dashboard.jsx:150 | a merged activity (`MergeActivity`, the spread `{...a, ...p}`; `MergeGoal` is the same for goals) takes every field the patch has and keeps those it omits |
| PasswordHash.ShiftLeft5 | src/components/Register.jsx:145 | `hash << 5` is a signed 32-bit value congruent to 32 * hash modulo 2^32 |
| PasswordHash.Step | src/components/Register.jsx:145-146 | each turn leaves the hash a signed 32-bit value |
| PasswordHash.StepIsPolynomial | src/components/Register.jsx:145-146 | a turn of the loop equals `ToInt32(31 * h + c)` on the unwrapped hash |
| PasswordHash.SimpleHash | src/components/Register.jsx:141-149 | the digest is `Hash`: the decimal string of `ToInt32` of `PolyHash`, the unwrapped polynomial hash with multiplier 31 over the code units |
| PasswordHash.HashOfEmpty | src/components/Register.jsx:142-148 | the empty string hashes to "0" |
| PasswordHash.HashInRange | src/components/Register.jsx:146-148 | every digest reads back as an integer in [-2^31, 2^31) |
| PasswordHash.HashExtends | src/components/Register.jsx:143-147 | the hash of a longer string follows from the 32-bit hash of its prefix |
| PasswordHash.DistinctPasswordsCollide | src/components/Register.jsx:141-149 | "Aa" and "BB" share a digest |
| Helpers.RemoveBrackets | src/utils/helpers.js:34 | no angle bracket remains and a bracket-free string is unchanged |
| Helpers.RemoveBracketsKeepsOthers | src/utils/helpers.js:34 | every code unit other than `<` and `>` is kept, as many times as the input holds it |
| Helpers.RemoveBracketsAppend | src/utils/helpers.js:34 | removal works left to right: the bracket-free form of joined texts is the join of their bracket-free forms, so kept code units stay in order |
| Helpers.SanitizeInput | src/utils/helpers.js:29-36 | non-strings come back unchanged; a string comes back as the first min(1000, n) code units of its trimmed, bracket-free form of length n, so without angle brackets and at most 1000 long |
| Helpers.SanitizeKeepsCleanText | src/utils/helpers.js:32-35 | text without edge white space or brackets and at most 1000 long is unchanged |
| Helpers.SanitizeCanLeaveEdgeSpace | src/utils/helpers.js:32-34 | brackets go after trimming, so "a <" becomes "a " |
| Helpers.AtIndex | src/utils/helpers.js:40 | the position of the first `@` |
| Helpers.AtCountOne | src/utils/helpers.js:40 | there is one `@` exactly when none follows the first |
| Helpers.AtCountZero | src/utils/helpers.js:40 | there is no `@` exactly when no position holds one |
| Helpers.EmailCheckIsPattern | src/utils/helpers.js:39-42 | the check `IsValidEmail` holds exactly when the regular expression matches: no white space, one `@` with text before it, and a `.` inside the domain with text on both sides |
| Helpers.ValidatePassword | src/utils/helpers.js:45-60 | valid exactly when 6 <= length <= 100, valid exactly when there are no errors, at most one error, and which one |
| Register.WithField | src/components/Register.jsx:155-158 | an edit sets the named field and no other |
| Register.TrimIdempotent | src/components/Register.jsx:154 | trimming twice is trimming once |
| Register.TrimmedEdit | src/components/Register.jsx:151-159 | a trimmed edit keeps every field trimmed |
| Register.ValidateForm | src/components/Register.jsx:161-193 | valid exactly when every check passes; otherwise the message of the first failing check in order: required, name, e-mail, password length, confirmation, weight (flagged only for a non-empty weight) |
| Register.NewUser | src/components/Register.jsx:220-227 | the stored account carries the form's name and e-mail, the clock's id and time, and `simpleHash(password)` |
| Register.SessionOf | src/components/Register.jsx:236-241 | the session payload carries id, name, e-mail and weight, and no password hash |
| Register.AppendKeepsEmailsUnique | src/components/Register.jsx:211-230 | appending an account whose e-mail is not taken keeps e-mails unique |
| Register.Register.constructor | src/components/Register.jsx:128-136 | the form starts empty with no messages |
| Register.Register.HandleChange | src/components/Register.jsx:151-159 | the named field takes the trimmed value and all fields stay trimmed |
| Register.Register.HandleSubmit | src/components/Register.jsx:195-252 | a failed check or a taken e-mail writes nothing and reports the message; otherwise exactly one account is appended to the stored ones, its payload is returned, and unique e-mails stay unique |
| Login.WithField | src/components/Login.jsx:142-145 | an edit sets the named field and no other |
| Login.TrimmedEdit | src/components/Login.jsx:138-146 | a trimmed edit keeps both fields trimmed |
| Login.FindUser | src/components/Login.jsx:179-182 | a user is found exactly when some account has that e-mail and hash, and it is the first such account |
| Login.Decide | src/components/Login.jsx:148-203 | the lock comes first, then empty fields, then password length, then the lookup, whose hit gives the account's payload |
| Login.AttemptsStayBounded | src/components/Login.jsx:154-195 | one submission never takes the counter past five |
| Login.AttemptsNeverExceedFive | src/components/Login.jsx:154-195 | any run of submissions, one after another, keeps the counter at most five |
| Login.FiveFailuresLock | src/components/Login.jsx:154-195 | five failed lookups in a row lock the form |
| Login.RegisteredUserCanLogIn | src/components/Login.jsx:177-182 | an account just registered with an untaken e-mail signs in with its password |
| Login.Login.constructor | src/components/Login.jsx:118-124 | the form starts empty with no failed attempts |
| Login.Login.HandleChange | src/components/Login.jsx:138-146 | the named field takes the trimmed value |
| Login.Login.HandleSubmit | src/components/Login.jsx:148-203 | the outcome, the message, the counter (`AttemptsAfter`: +1 on a failed lookup, 0 on success, otherwise unchanged) and the payload follow `Decide`; the counter stays at most five |
| App.Route | src/App.jsx:55-72 | the screen `App.CurrentScreen` shows for the current user; signed in, `/`, `/login` and `/register` redirect to `/dashboard`; signed out, `/dashboard` redirects to `/login`; the dashboard renders only for a signed-in user |
| App.RedirectLandsOnPage | src/App.jsx:56-71 | a redirect always lands on a rendered page |
| App.GuardsSeparate | src/App.jsx:56-71 | the dashboard shows only when signed in, the sign-in and registration pages only when signed out |
| App.SavedUser | src/App.jsx:27-33 | the stored session is restored when its key is present, nobody otherwise |
| App.App.constructor | src/App.jsx:27-33 | start-up restores the stored session or nobody |
| App.App.HandleLogin | src/App.jsx:35-38 | the user is set and exactly that payload is stored under the session key |
| App.App.HandleLogout | src/App.jsx:40-45 | the user is cleared and the session, activities and goals keys are removed, nothing else |
| App.LogoutErasesEveryonesData | src/App.jsx:40-45 | logout empties every user's activities and goals while the accounts and the theme survive |
| App.NoSessionAfterLogout | src/App.jsx:35-45 | after login then logout there is no session to restore |

## Left out

- Dashboard.Dashboard.AddActivity: requires an integer duration; a duration that `parseInt` turns into NaN is not modelled.
- GoalsSection.Percent: computes `Math.round` exactly on the rational 100 * progress / target; floating-point rounding of the division is not modelled.
- StatsCards.Summarize: the average is taken on exact integers; floating-point rounding of the division is not modelled.
- Js.ParseInt: digits are read into an unbounded integer; loss of precision above 2^53 is not modelled.
- Js.DecimalString: integers are written in plain decimal; the exponent notation `toString` uses from 10^21 on is not modelled.
- Js.Trim: a `char` is one UTF-16 code unit; characters outside the Basic Multilingual Plane (surrogate pairs) are not modelled.
- Time: instants are integers and days are UTC day numbers; `Date`, `setDate`, time zones and daylight-saving shifts are not modelled, and "now" is a parameter.
- Storage: values are kept as structured data; JSON text, `JSON.parse` failures and the `useLocalStorage` hook are not modelled.
- Register weight: `parseFloat` and the `isNaN` test are floating point; the weight check's outcome and the weight value are parameters.
- Timers: the `setTimeout` delays in sign-in and registration are not modelled; each submission runs to completion before the next.
- Loading flags and the `loading` state that disables buttons are not modelled.
- ProgressChart.ActivityTypeData: labels follow first appearance; JavaScript's ordering of integer-like object keys ahead of other keys is not modelled.
- The chart.js registration, chart options and the locale-formatted weekday labels are presentation.
- The `prompt`, `confirm` and `alert` dialogs are inputs or outputs: the prompt's answer is a parameter of `UpdateProgress`, and the activity list's edit and delete dialogs are not modelled.
- HTML constraint validation (`required`, `min`, `minLength`) runs in the browser before the handlers and is not modelled.
- Navigation (`useNavigate`, `Link`) is reduced to the route table; React rendering and memoisation are not modelled.
- Theme, error boundary, navigation bar, footer, landing page and motivational quote are presentation or randomness and are not modelled.
- `debounce` and `safeJsonParse` in `src/utils/helpers.js` are timer and parser wrappers and are not modelled.

## Findings

| source | as written | input that shows it | evidently intended | confidence | as-written member | corrected member |
|---|---|---|---|---|---|---|
| src/components/GoalsSection.jsx:272 | `Math.min(progress, goal.target)` names `goal`, which is not in scope in `handleUpdateProgress`, so every numeric answer throws a ReferenceError and no progress is ever recorded | answer "7" to the progress prompt for any goal | cap the entered progress at the target of the goal whose button was pressed | high, not executed | GoalsSection.AsWrittenNeverRecordsProgress | GoalsSection.UpdateProgressCapped |
| src/components/GoalsSection.jsx:164 | the bar width is `Math.min(progress, 100)` and the border band compares raw progress with 100, 75 and 50 (lines 110-114, fed at 402 and 414), although the text beside the bar shows progress as a percentage of the target | a goal with target 10 and progress 10: the text reads 100% while the bar is 10% wide and the border is the lowest band | width and band taken from the percentage of the target | medium, not executed | GoalsSection.CardAsWrittenMisreadsCompletion | GoalsSection.CardShowsCompletion |
