# HR attendance agent — a verified model

`main.js` is a small Node.js agent that clocks an employee in and out of an HR portal. A
heartbeat runs about once a minute. On each tick it:

- reloads `config.ini`, a file of `key=value` lines;
- checks whether today is listed in `workday_week`;
- draws the day's check-in and check-out target times once per calendar day: a configured clock
  time plus a random offset of up to the configured range;
- once the current time passes a target whose task is not yet flagged as done, runs that task.

Running a task means two things:

1. Query the attendance record. If the query failed, log in, and query again only if the login worked.
2. If the record already shows the `starttime` or `endtime`, set the local flag. Otherwise, ask the
   portal to perform the check-in or check-out.

Every portal request goes through `generalRequest`, which retries with a growing pause.

The project models that core in Dafny:

| file | what it holds |
|---|---|
| `values.dfy` | JSON values and JavaScript truthiness |
| `text.dfy` | `trim` and `split` on one character, and the line split `/\r?\n/` |
| `numbers.dfy` | `Number()` of a string, exact, with no floating-point rounding; SameValueZero; truncation; `parseInt` |
| `config.dfy` | the `loadConfig` parser: a loop over the lines that fills a dictionary |
| `http.dfy` | the `generalRequest` retry loop, over a supplied sequence of attempt outcomes |
| `session.dfy` | `getAttendance`, `login` and `hasActionRecord`, reduced to their results |
| `schedule.dfy` | `isWorkDay`, `parseTime`, `getRandomDelay` and `dailyTargets` |
| `agent.dfy` | the agent's state as a class: settings, session and targets, with `executeTask` and one heartbeat tick as methods proved against specification functions |

Things the real program gets from outside are parameters of the model:

- the file text;
- the weekday, a key naming the calendar day, the instant the day began, and the current instant, in milliseconds;
- each `Math.random()` draw, a real number in [0, 1);
- the outcome of each portal request.

The model follows what the code does where its own comments suggest otherwise (main.js:238, "Try to login, catch error if fails", and main.js:248-249, which stop the cycle when the login fails):

- `login` and `getAttendance` catch their own errors. So a failed first query followed by a failed
  login leaves the attendance `null`, and the task's action is still requested.
- The early `return` in `executeTask` (main.js:249) can never run.
- Performing an action does not set the done flag. Only a later tick that sees the record sets it.

A missing `workday_week` setting is read as `''`. `Number('')` is 0, so on that path Sunday is the
only workday. The model keeps this behaviour and proves it.

## Model

| member | source | states |
|---|---|---|
| Values.Truthy | main.js:112 | objects and arrays are always truthy, `null` never, and a string exactly when it is non-empty |
| Text.Trim | main.js:32 | the result has no white space at either end and is no longer than the input |
| Text.TrimPadded | main.js:36-37 | trimming white space around an already trimmed text gives that text back |
| Text.Split | main.js:209 | at least one part, no part holds the separator, and joining the parts with the separator gives back the input |
| Text.SplitJoin | main.js:209 | splitting a joined list of separator-free parts recovers the list |
| Text.SplitLines | main.js:31 | one line per `\n`-separated piece |
| Text.SplitLinesOfLf | main.js:31 | lines joined with `\n` split back into the same lines, when no line but the last ends in `\r` |
| Text.SplitLinesOfCrlf | main.js:31 | lines joined with `\r\n` split back into the same lines: exactly one `\r` before each `\n` is dropped |
| Numbers.StringToNumber | main.js:209 | `Number` of blank text is 0 |
| Numbers.NotNumeric | main.js:209 | text that, once trimmed, starts with anything but a digit, a sign, a `.` or the `I` of `Infinity` reads as NaN |
| Numbers.Equals | main.js:210 | NaN and the infinities equal no weekday; a whole number equals itself; `-0` equals only 0 |
| Numbers.ParseInt | main.js:222-223 | `parseInt` of blank text is NaN |
| Numbers.DecimalNumber | main.js:209 | `Number` of decimal digits with white space around them is their value |
| Numbers.ParseIntLeadingDigits | main.js:222-223 | `parseInt` skips leading white space, reads the leading decimal digits, and ignores what follows |
| Numbers.Truncate | main.js:199 | a result exactly when the number is finite |
| Config.MatchKeyValue | main.js:34 | a match has a non-empty key part that starts where the line starts |
| Config.Unquote | main.js:38-40 | a quoted value loses exactly its two quote characters; any other value is unchanged |
| Config.ParseLine | main.js:32-40 | blank and comment lines give nothing; a kept key is non-empty and trimmed |
| Config.MatchShape | main.js:34 | a match cuts the line at its first `=`: a non-empty key part without `=`, and a value part without line breaks |
| Config.NoKeyIgnored | main.js:34-35 | a line without `=`, or whose trimmed text starts with `=`, adds nothing |
| Config.PaddedKeyValue | main.js:32-41 | ` key = value ` with white space around the line and around `=` yields the trimmed key and the trimmed, unquoted value |
| Config.AssignEffect | main.js:41 | storing a pair sets that key to that value and leaves every other key as it was; `__proto__` changes nothing |
| Config.Parse | main.js:30-43 | the loop over the lines gives the dictionary the lines define in order |
| Config.KeyOrigin | main.js:34-41 | every key in the result comes from a line that defines it, and `__proto__` never appears |
| Config.LastDefinitionWins | main.js:41 | the last line that defines a key decides its value |
| Config.IgnoredLine | main.js:33-35 | dropping a line that yields nothing leaves the dictionary unchanged |
| Config.KeyValueRoundTrip | main.js:34-41 | writing `key=value` with an unquoted value and parsing it gives the same pair back |
| Config.QuotedValueRoundTrip | main.js:38-40 | a value written between double quotes comes back without them |
| Http.GeneralRequest | main.js:53-97 | stops at the first success or after `retryCount` attempts, returning the first body or rethrowing the last error; makes no attempt when `retryCount <= 0`; pauses `2000·k` ms after failed attempt k |
| Session.AttendanceOf | main.js:126-136 | `null` exactly when the request failed; otherwise a truthy record, which is `sendpacket` when that member is truthy |
| Session.LoginInfo | main.js:110-123 | success exactly when the response is an object carrying a truthy `myinfo` |
| Session.HasActionRecord | main.js:180-184 | false for a falsy record or a missing field; for a string field, true exactly when the string is non-empty |
| Session.Observed | main.js:239-246 | the first query's record; `null` when the query and the login both failed; a truthy record after a successful login |
| Session.Lookups | main.js:239-246 | a query; then a login only after a failed query; then a second query only after a successful login; never an action |
| Session.NothingOnRecord | main.js:239-246 | after a failed query and a failed login, the record is `null` and shows no task as done |
| Schedule.IsWorkDay | main.js:207-211 | with the setting missing or empty, only Sunday (0) is a workday |
| Schedule.WorkdayListed | main.js:207-211 | for a setting written as a list of weekday digits, today is a workday exactly when it is listed |
| Schedule.WordsAreNoWorkdays | main.js:207-211 | a setting whose items are words, such as `mon,tue`, makes no day a workday |
| Schedule.TimeOfDayHoursMinutes | main.js:197-199 | `HH:MM` is that many hours and minutes after midnight, with the seconds defaulting to 0 |
| Schedule.TimeOfDayWithSeconds | main.js:197-199 | `HH:MM:SS` is that many hours, minutes and seconds after midnight |
| Schedule.ParseTime | main.js:196-201 | an invalid Date, or an instant within the Date range from a readable time of day |
| Schedule.ParseTimeHoursMinutes | main.js:196-201 | `parseTime("HH:MM")` is the day's start plus that many hours and minutes, the seconds defaulting to 0 |
| Schedule.ParseTimeWithSeconds | main.js:196-201 | `parseTime("HH:MM:SS")` is the day's start plus that many hours, minutes and seconds |
| Schedule.ParseTimeWithoutColon | main.js:197-199 | a time with no `:` has no minutes and gives an invalid Date |
| Schedule.MissingRangeIsZero | main.js:222-223 | a missing or empty range setting reads as 0 minutes |
| Schedule.RandomDelay | main.js:203-205 | NaN minutes give NaN; 0 minutes give 0; otherwise the delay lies in `[0, minutes·60000)` (mirrored for a negative range) |
| Schedule.Scaled | main.js:204 | rounding down `draw·span` gives a whole number between 0 and the span, never the span itself |
| Schedule.DelayReachable | main.js:203-205 | every offset in `[0, minutes·60000)` is the delay of some draw |
| Schedule.TargetWithinRange | main.js:222-223 | a target drawn with a range of `n` minutes lies in `[base, base + n·60000)`, and is the base itself when `n` is 0 |
| Schedule.Today | main.js:213-235 | on the same day, the targets are unchanged, flags included; on a new day, fresh targets for the new key with both flags cleared, or a failure when a time setting is missing |
| Schedule.TodayIdempotent | main.js:217 | asking again on the same day returns the same targets, whatever the new draws |
| Schedule.Jitter | main.js:305 | the jitter is a whole number of seconds from 0 to 3 |
| Schedule.JitterReachable | main.js:305 | every jitter from 0 to 3 can occur |
| Agent.TaskCalls | main.js:237-268 | the requests start with a query; the task's action is requested exactly when the record does not show the task, and only as the last request; the other task's action never is |
| Agent.AfterTask | main.js:254-268 | only the task's own flag can change, and it is set exactly when the record shows the task; the day key and target times stay |
| Agent.SessionAfter | main.js:241-245 | the session changes only after a failed query and a successful login, and then becomes `myinfo` |
| Agent.FailedLoginStillActs | main.js:239-260 | after a failed query and a failed login, the requests are the query, the login and the action, and no flag changes |
| Agent.PerformedTaskStaysOpen | main.js:258-260 | requesting the action does not set the flag |
| Schedule.Reached | main.js:291-293 | an invalid Date is never reached; a valid one is reached once the clock is at or past it |
| Schedule.ReachedLater | main.js:291-293 | a reached target stays reached as the clock moves on |
| Agent.Decide | main.js:291-300 | a due task is run only when it is not flagged and its target is reached; a finished day only when check-out is flagged |
| Agent.GapAfter | main.js:272-296 | `nextGap` is 60 exactly after a non-workday or a finished day, and 1 otherwise |
| Agent.RescheduleMs | main.js:305-306 | the next tick comes `nextGap` minutes plus 0 to 3 whole seconds later |
| Agent.DecidePriority | main.js:291-300 | check-in runs exactly when it is due and not flagged; check-out only when check-in does not run; a finished day only when neither runs |
| Agent.InvalidTargetNeverRuns | main.js:291-293 | an invalid target time is never reached, so its task never runs |
| Agent.CheckInSettles | main.js:255-257 | once the check-in is on record, later ticks of the same day never run it again |
| Agent.CheckInRetried | main.js:291-292 | a requested check-in that is not yet on record runs again on every later tick of the same day |
| Agent.FinishedDayRests | main.js:295-296 | a day with both flags set runs nothing and waits an hour |
| Agent.Agent.constructor | main.js:7-16 | no settings, the default `global_info` and empty targets |
| Agent.Agent.LoadConfig | main.js:27-51 | a readable file replaces the settings with its parse; an unreadable one keeps them and reports failure |
| Agent.Agent.Login | main.js:101-124 | success exactly when the response carries `myinfo`, which then replaces the session |
| Agent.Agent.GetTodayTargets | main.js:213-235 | the new targets are `Today` of the old ones; on failure they are left as they were |
| Agent.Agent.FetchAttendance | main.js:239-246 | returns the observed record and the lookups made, and updates the session as a login does |
| Agent.Agent.ExecuteTask | main.js:237-268 | the requests, targets and session after the task are `TaskCalls`, `AfterTask` and `SessionAfter` of the outcomes |
| Agent.Agent.Heartbeat | main.js:271-308 | a failed load changes nothing else; otherwise the tick follows the workday, targets and priority rules; the gap and the delay follow from the branch taken |
| Agent.Agent.WorkdayTick | main.js:280-300 | a non-workday does nothing; otherwise today's targets and then the due task |
| Agent.Agent.TodayTick | main.js:286-300 | a failed target draw does nothing; otherwise the first due task runs on today's targets |
| Agent.Agent.RunDueTask | main.js:289-300 | runs the first due task in priority order, or only reports a finished day or waiting |

## Left out

- Reading `config.ini`, the HTTP transport, headers, query strings and JSON encoding are not modelled. The file text and each request's outcome are inputs.
- The bodies of `performCheckIn` and `performCheckOut` are not modelled. They catch their own errors and their results are not used, so a tick only records that the action was requested.
- `Logger` output and the `SIGINT` handler are not modelled.
- The `setTimeout` self-rescheduling and `async` interleaving are not modelled. One tick is one method call, and the delay before the next tick is returned.
- `ecosystem.config.js` is not part of this model. It is a static process-manager configuration.
- `Date` and `Math.random` are not modelled. The weekday, the day key, the day's start, the current instant and each draw are parameters.
- Time zones and daylight-saving changes are not modelled. Nor is the moment a tick straddles midnight between two `new Date()` calls.
- IEEE-754 rounding is not modelled. Numbers are exact, and `draw·minutes·60·1000` is one exact product.
- Schedule.RandomDelay: models the offset as `floor(draw·span)` with no floating-point rounding.
- Numbers.StringToNumber: a literal's value is kept exact rather than rounded to a double.
- Session.HasActionRecord: the field's `length` counts only for strings and arrays. A record field holding an object with its own `length` member is treated as having no length.
- Schedule.Today: the ensures clauses state the cache behaviour and the flags, not the target formula. The formula is `DrawTarget`, and its bounds are stated separately by `Schedule.TargetWithinRange`.
- Agent.Agent.Heartbeat: requires a non-empty day key. The real key is `toDateString()` of a valid date, never `''`, so a tick never mistakes the initial empty state for today.
