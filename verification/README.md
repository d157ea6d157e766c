# Leishen-pause core in Dafny

A functional model of the decision logic of the Leishen-pause keepalive bot.
The bot calls a web API to pause an account on a schedule, accepts a new
account token through a Telegram bot, and reports the outcome to Telegram.
The model keeps the logic and leaves the I/O out:

- **EnvFile** (`env_file.dfy`) models `update_env_vars`. It is a pure
  rewrite from the lines of the `.env` file and the dict of new values to the
  lines written back.
  - `Rewrite` is the reference definition.
  - `UpdateEnvVars` is the loop as written. It is proved equal to `Rewrite`.
- **Settings** (`settings.dfy`) models the typed environment readers
  `_get_int_env`, `_get_bool_env` and `_get_str_env`, and `load_config`
  with its required-token check. The environment is a map.
- **Text** (`text.dfy`) holds the Python string operations these rely on:
  - `str.strip()` over the `str.isspace()` characters;
  - `str.startswith()`;
  - the ASCII part of `str.lower()`;
  - `str(int)`, and `int(str)` with its sign, the surrounding whitespace
    `int()` skips and `_` digit separators. `int()` skips less than
    `strip()`: not the ASCII separators U+001C to U+001F.
- **Clock** (`clock.dfy`) models:
  - `_parse_time_value`, i.e. `strptime(value, "%H:%M")`;
  - `_seconds_until`, on a clock of integer seconds since some local
    midnight;
  - the interval guard of `run_interval_loop`.
- **Json** and **Notifier** (`json.dfy`, `notifier.dfy`) model two things:
  - the JSON scalars of API responses, with Python's `==` against an int
    and `str()`;
  - the gate of `_notify`.
- **PauseCycle** (`pause_cycle.dfy`) models `_run_once`. The pause call is an
  input: it either raised, or it answered with a code and a message. The
  result is the exit status and the notification.
- **TelegramPoll** (`telegram_poll.dfy`) models one call of
  `_poll_telegram_for_token`.
  - The `getUpdates` reply is an input.
  - The state is the cursor (the `offset`), the configuration and the
    `.env` lines.
  - Each `/token` command rewrites the file through `EnvFile.Rewrite`.
- **SleepPoll** (`sleep_poll.dfy`) models `_sleep_with_poll`.
  - `PlanOf` decides on entry how the wait polls: not at all, every N
    seconds, or daily at a time of day.
  - `Rest` and `Schedule` are the reference definitions of the sleeps and
    polls, in order.
  - `SleepWithPoll` is the loop as written. It is proved to produce exactly
    that schedule, and to leave the poll state that running the polls in
    order leaves.

Three places where the model follows the code rather than its documented
intent:
- `strptime`'s `%H` and `%M` also accept a single digit, so `"4:5"` is a
  valid `RUN_TIME`, although the error message says "HH:MM".
- Any stripped text that starts with `/token` is a command. So
  `"/tokens abc"` sets the token `abc`.
- Python compares `False == 0` as true, so a JSON `false` code counts as a
  successful pause.

With Telegram enabled and no poll interval, `TELEGRAM_POLL_TIME` defaults to
`"00:00"`. A `datetime.time` is always truthy, so such a wait polls daily at
midnight.

## Model

| member | source | states |
|---|---|---|
| `EnvFile.UpdateEnvVars` | config/config.py:70-89 | The loop over the lines, the missing-key list and the appended lines together produce exactly `Rewrite(lines, values)` |
| `EnvFile.RewriteEach` | config/config.py:70-82 | The line loop rewrites each line in place. `updated_keys` holds exactly the dict keys that some line assigns |
| `EnvFile.MissingList` | config/config.py:84 | `missing` is exactly the dict keys, in dict order, that no line assigns |
| `EnvFile.AppendAssignments` | config/config.py:88-89 | One `key=value` line per missing key, in order, carrying the dict's value |
| `EnvFile.RewriteOriginalLine` | config/config.py:72-82 | Each original line stays at its index. A comment or a line without `=` is unchanged. A line for a dict key becomes exactly `key=value`. Any other line is unchanged |
| `EnvFile.RewriteAppendsMissing` | config/config.py:84-89 | The output is the rewritten original lines, then, only if some key is missing, an optional separator and the missing entries. Nothing is appended exactly when every key was assigned |
| `EnvFile.RewriteSize` | config/config.py:84-89 | At most one separator line is added. Nothing is added when no key is missing |
| `EnvFile.RewriteMiddleAt` | config/config.py:86-87 | The line between the original and the appended lines is the blank separator |
| `EnvFile.RewriteTailAt` | config/config.py:88-89 | The j-th appended line is `key=value` for the j-th dict entry whose key no original line assigns |
| `EnvFile.MissingMembers` | config/config.py:84 | An entry is appended if and only if it belongs to the dict and no line assigns its key |
| `EnvFile.MissingDistinct` | config/config.py:84 | Appended keys are distinct, so each missing key is appended once |
| `EnvFile.AssignmentReadsBack` | config/config.py:73-79 | A written `key=value` line for a plain key is read back by the same loop as assigning that key |
| `EnvFile.RewriteAssignsEveryKey` | config/config.py:72-89 | After the rewrite, every dict key is assigned by some line, and every line that assigns a dict key carries the dict's value |
| `EnvFile.RewriteComposes` | config/config.py:72-89 | Updating with v1 and then with v2 (same keys) gives the same lines as updating with v2 alone |
| `EnvFile.RewriteIdempotent` | config/config.py:72-89 | Applying the same update twice changes nothing the second time |
| `Text.StripFacts` | config/config.py:28 | `strip()` leaves no whitespace at either end. It is empty exactly for all-whitespace text, and it leaves stripped text unchanged |
| `Text.ParseIntRoundTrip` | config/config.py:18 | `int(str(n)) == n` for every integer n of at most 4300 digits, the default digit limit of `int()` and `str()` |
| `Text.ParseIntTooLong` | config/config.py:17-20 | Past 4300 digits `int()` rejects even a plain decimal numeral |
| `Text.ParseIntPadded` | config/config.py:18 | `int()` reads `str(n)` back as n through any whitespace it skips on either side |
| `Text.ParseIntRejectsSeparator` | config/config.py:17-20 | A numeral behind one of U+001C to U+001F is rejected by `int()`, although `strip()` would remove that character |
| `Settings.GetIntEnv` | config/config.py:13-21 | The result is the parsed integer when the variable is set and parses. Otherwise it is the default, and it is always the default for an unset or blank variable. A numeral longer than 4300 digits does not parse |
| `Settings.GetIntEnvReadsBack` | config/config.py:13-21 | A variable holding `str(n)` reads back as n, for n of at most 4300 digits |
| `Settings.GetIntEnvRejectsSeparator` | config/config.py:13-21 | A numeral behind one of U+001C to U+001F gives the default |
| `Settings.GetBoolEnv` | config/config.py:24-28 | The default when unset. Otherwise true if and only if the stripped, lower-cased value is one of 1, true, yes, y, on |
| `Settings.BoolDefaultOnlyWhenUnset` | config/config.py:24-28 | The default changes the result if and only if the variable is unset |
| `Settings.BoolEnvAcceptsPadded` | config/config.py:28 | A true word in any ASCII case, with any surrounding whitespace, reads as true |
| `Settings.BoolEnvRejectsOthers` | config/config.py:28 | Every other set value, including an empty one, reads as false |
| `Settings.GetStrEnv` | config/config.py:31-33 | A non-empty value is returned as is. Otherwise the default is returned |
| `Settings.LoadConfig` | config/config.py:40-57 | Loading fails, with the TOKEN message, exactly when a token is required and TOKEN is unset or empty. On success the config carries TOKEN |
| `Settings.LoadConfigDefaults` | config/config.py:44-57 | With an empty environment, every setting takes its documented default |
| `Settings.LoadConfigTokenFlag` | config/config.py:40-42 | When a token is present, requiring it changes nothing |
| `Clock.ParseTimeValue` | main.py:23-27 | Success exactly when `strptime` accepts the text. Otherwise the error names the setting and the expected format |
| `Clock.ParseClockSpellings` | main.py:25 | A text parses to time t if and only if t is a valid time and the text is one of its spellings `H:M`, `HH:M`, `H:MM` or `HH:MM` |
| `Clock.ParseFormat` | main.py:25 | The zero-padded `HH:MM` of every valid time parses back to that time |
| `Clock.SecondsUntil` | main.py:34-39 | The wait is more than 0 and at most one day. It ends on the target time of day. It stays within today exactly when the target is strictly later than now |
| `Clock.SecondsUntilIsNext` | main.py:34-39 | No shorter positive wait ends on the target time of day |
| `Clock.IntervalSeconds` | main.py:279-282 | An interval of 0 minutes or less is an error. Otherwise the sleep is the interval times 60 seconds |
| `Json.StringNeverEqualsInt` | main.py:247-258 | A code sent as a JSON string never matches an int code, even when it spells that code |
| `Notifier.Notify` | main.py:52-66 | A message is sent, to the configured bot and chat, exactly when Telegram is enabled and both the bot token and the chat id are non-empty |
| `Notifier.NotifyGateIgnoresMessage` | main.py:52-59 | The gate depends on neither the message nor the account token |
| `PauseCycle.RunOnce` | main.py:231-265 | Status is 0 or 1. The API is called exactly when the token is non-empty. Status is 0 exactly for code 0 or 400803. There is no notice exactly without a call or for 400803. A notice is sent exactly when the channel is open |
| `PauseCycle.OutcomeTable` | main.py:237-265 | The notice and status for a raised call, 400006, 0, 400803 and any other code |
| `PauseCycle.EmptyTokenIgnoresOutcome` | main.py:232-235 | With no token, what the API would have answered makes no difference |
| `PauseCycle.CodeDecidesStatus` | main.py:244-265 | The code alone decides the status and whether there is a notice |
| `PauseCycle.FailuresAreReported` | main.py:237-265 | Every failure after the call is reported, never as "Pause successful." |
| `PauseCycle.FailureNoticeNamesCode` | main.py:263-265 | An unrecognised code is written in decimal in the failure notice, followed by the message |
| `TelegramPoll.ParseCommand` | main.py:108-118 | A command sets a non-empty, stripped token, and only for a text that starts with `/token`. Any other text is ignored |
| `TelegramPoll.ParseCommandUsage` | main.py:112-116 | The usage reply goes out exactly for a text that starts with `/token` and holds no whitespace |
| `TelegramPoll.ParseTokenCommand` | main.py:112-118 | `/token`, whitespace and a stripped token set exactly that token |
| `TelegramPoll.CommandRoundTrip` | main.py:108-118 | The same holds with any whitespace around the whole message |
| `TelegramPoll.CommandOfChat` | main.py:100-112 | Only a message or edited message from the configured chat, whose stripped text starts with `/token`, carries a command |
| `TelegramPoll.Poll` | main.py:71-126 | `getUpdates` is requested exactly when the channel is open. A poll changes at most the account token of the configuration |
| `TelegramPoll.BatchMaxId` | main.py:94-98 | The running maximum is known exactly when some update has an id. It is the largest such id and one of them |
| `TelegramPoll.PollCursor` | main.py:79-126 | The cursor is one past the largest update id of an accepted batch that has ids. It is unchanged after a raised call, `ok=false`, an empty batch or a closed channel |
| `TelegramPoll.PollCursorAdvances` | main.py:125-126 | The cursor moves forward whenever the batch holds an id at or past the request offset |
| `TelegramPoll.AbsorbToken` | main.py:112-120 | An update changes and writes the token exactly when it is a `/token` command with an argument |
| `TelegramPoll.BatchToken` | main.py:95-120 | The last `/token` command wins. Without one, the token and the file are untouched. Otherwise the last token written is the token kept |
| `TelegramPoll.BatchIgnoresOthers` | main.py:100-110 | Updates without a command change only the cursor |
| `TelegramPoll.BatchNoticesExact` | main.py:112-123 | The notices of a batch are, in order, the usage line for each bare `/token`, a "TOKEN updated" line with its own time stamp for each `/token` with an argument, and nothing for any other update |
| `TelegramPoll.BatchNotices` | main.py:112-123 | Each update adds at most one notice: the usage line or a "TOKEN updated" line |
| `TelegramPoll.PollNotices` | main.py:71-123 | An accepted batch sends exactly the notices its commands call for. A raised call, `ok=false` or a closed channel sends none |
| `TelegramPoll.WriteTokensLast` | main.py:119 | Writing TOKEN once per command leaves the lines that writing the last token alone leaves, when each write acts on the lines the previous one produced |
| `TelegramPoll.PollToken` | main.py:71-123 | After an accepted batch with a command, the token is that of the last command and the file is the one TOKEN update. In every other case both are untouched |
| `SleepPoll.PlanOf` | main.py:129-147 | Telegram disabled means one sleep. A positive poll interval takes precedence. Otherwise a parsable poll time means daily polls. Otherwise there are no polls |
| `SleepPoll.SleepWithPoll` | main.py:129-175 | The sleeps and polls are those of `Schedule` and sum to the whole wait. The poll state and notices are those of running that many polls in order |
| `SleepPoll.Wait` | main.py:150-175 | The loop performs exactly the schedule `Rest` from its start |
| `SleepPoll.NextStep` | main.py:151-175 | The step is the remaining time, cut at the poll interval or at the next daily poll. A poll follows each interval step, and a daily step that reaches the due time |
| `SleepPoll.RestUnfold` | main.py:150-175 | Each step lasts at least 1 second and at most the remaining time. A daily poll stays strictly ahead of the clock |
| `SleepPoll.RestSlept` | main.py:150-167 | The steps sum to the whole wait |
| `SleepPoll.RestStepBounds` | main.py:151-167 | Every step lasts at least 1 second, and at most the poll interval when polling every N seconds |
| `SleepPoll.ScheduleSlept` | main.py:129-167 | Whatever the plan, the wait sleeps exactly its length |
| `SleepPoll.ScheduleWithoutPolls` | main.py:129-175 | Disabled, or enabled without a plan: one sleep of the whole wait and no poll |
| `SleepPoll.IntervalPollCount` | main.py:164-175 | Polling every N seconds polls ceil(total / N) times |
| `SleepPoll.IntervalPolls` | main.py:164-175 | Polls come at N, 2N, 3N, … seconds and once more at the end of the wait |
| `SleepPoll.DailyPolls` | main.py:150-173 | Polling daily polls exactly at the clock times in the wait that fall on the poll time |
| `SleepPoll.ScheduleDaily` | main.py:143-173 | From the start of a wait, the daily polls are exactly the poll-time clock times within it |
| `SleepPoll.RunPollsKeepSettings` | main.py:71-126 | Polls change only the account token, so the next wait has the same plan |
| `SleepPoll.RunPollsClosed` | main.py:71-77 | With the channel closed, polls change nothing and send nothing |

## Left out

- Reading and writing the `.env` file is left out: the encoding, `splitlines()`, the `"\n".join` and the final newline. The model is the lines→lines rewrite.
- `load_dotenv` is left out. The environment is given as a map.
- HTTP is left out: `api/client.py` and `telegram_notify.py`. Their results are inputs, a `PauseOutcome` or a Telegram `Reply`, and `Notify` returns the message it would send.
- Browser token fetching is left out (`token_fetcher.py`, `_fetch_token_interactive`). It depends on Playwright, `json.loads`, `parse_qs` and `re`.
- These parts of main.py are left out, as OS or interactive I/O:
  - the process lock and PID file (main.py:300-374);
  - signal handlers and argparse;
  - `_ensure_telegram_config`;
  - `main`.
- `run_loop` and `run_interval_loop` are not modelled beyond one iteration: `_run_once` and `_sleep_with_poll` are modelled, and so is the interval guard.
- Logging is left out (`app_logging.py` and every logger call). It has no effect the model can observe.
- Clock readings and float seconds are left out.
  - The clock is an integer number of seconds.
  - Sleeps last exactly their length.
  - Polls take no time: the clock moves only when the loop sleeps. In the program each poll spends wall time on `getUpdates`, on `sendMessage` and on the `.env` write, and `remaining` drops only by the sleeps. So the program's wait outlasts its length by the time its polls take.
  - So the "poll overdue" branch at main.py:158-161 can never fire in the model, and the model omits it.
  - The time stamps in "TOKEN updated at …" are inputs.
- `SleepPoll.SleepWithPoll`: polls take no time in the model, so a clock time in its schedule means the start of the wait plus the seconds slept so far. In daily mode the program's step after a poll is shorter than a day by the time the poll took.
- `SleepPoll.IntervalPolls`: polls take no time in the model. The times N, 2N, … count seconds slept; on the wall clock each poll comes later by the time the earlier polls took.
- `SleepPoll.DailyPolls`: polls take no time in the model. "Within the wait" means between the start and the start plus the seconds slept, and a poll time is the clock time after those seconds.
- `SleepPoll.ScheduleDaily`: polls take no time in the model, as for `SleepPoll.DailyPolls`.
- `TelegramPoll.WriteTokens`: each write is the lines→lines rewrite applied to the lines the previous write produced. The program instead joins the lines with "\n", writes the file and reads it back with `splitlines()` before the next write. A token that holds a line break, such as `/token abc\ndef`, is one line in the model but becomes two lines in the file, and the second line survives the next rewrite.
- `TelegramPoll.WriteTokensLast`: holds for the lines as modelled. For a token with a line break, the file the program leaves can keep a stray line that writing the last token alone would not leave.
- `TelegramPoll.PollToken`: the file it states is the model's lines. With a line break in a token, the program's file differs as described above.
- Exceptions raised inside a poll after `getUpdates` has answered are left out, for example by a failing file write. The model treats the rewrite as total.
- `Text.ParseInt`: covers ASCII digits only. Python's `int()` also accepts other Unicode decimal digits. The 4300-digit limit is modelled.
- `Text.LowerAscii`: lower-cases ASCII letters only. That is enough for the true words of `_get_bool_env`, but not for all of Python's `str.lower()`.
- `Clock.ParseTimeValue`: strptime's `\d` also matches non-ASCII digits, which is not modelled; such times are rejected.
- `Clock.ParseClockSpellings`: states the accepted spellings with ASCII digits only, for the same reason.
- Json: array and object values keep only the text `str()` gives them. A JSON number with an integral value is an `Int`, since Python's `1.0 == 1`; so `str()` of a float code such as `200.0` gives "200" in the model where Python gives "200.0". Any other float is kept as its `str()` text, which never equals an int.
- Non-dict replies are left out.
- A `.env` key that is not plain has leading or trailing whitespace, an `=` or a leading `#`. `RewriteComposes`, `RewriteIdempotent` and `RewriteAssignsEveryKey` are stated only for plain keys, which are the only keys the program writes. Such a key cannot read back as itself.
