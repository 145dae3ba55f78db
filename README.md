# NPEPE Sidekick bot: scheduler, content regeneration and chat triggers

This project models the decision logic of the Sidekick Telegram bot
(`sidekick_logic.py`) in Dafny and proves properties of it. There are three parts.

- **The period-deduplicating scheduler** (`check_and_run_schedules`).
  - An external tick formats two period markers from the UTC time: `%Y-%m-%d-%H` for the calendar hour and `%Y-W%U` for the Sunday-started week.
  - The tick walks a fixed table of seventeen named tasks.
  - Each task is due when its time condition holds and the ledger's stored marker differs from the current marker.
  - A due task is launched, and its ledger row is upserted to the current marker.
  - The ledger is the `sidekick_schedule_log` table. It reads `None` for a missing row, and it reads and records nothing when there is no database connection.
- **The weekly content regeneration** (`renew_responses_with_ai`).
  - Each of five categories asks a text generator for new lines.
  - The text is split on `\n` or `\d+\.`, pieces that are blank or five characters or shorter are dropped, and the rest are cleaned of whitespace and leading `*`/`-` bullets.
  - Greeting lines must also hold the `{name}` placeholder.
  - A category's pool is replaced only when at least its threshold of lines survives. Each category's outcome is recorded.
- **The chat triggers** (`handle_all_messages`, `greet_new_members_sidekick`).
  - Banter with the main bot: the first trigger of the banter table found in its message, unless the message contains one of the phrases `Welcome to the NPEPEVERSE`, `A wild` or `new fren has appeared`.
  - Answers to identity questions: the lower-cased, trimmed text contains one of four keywords. This is checked only for messages not from the main bot.
  - The welcome for new members: the first name defaults to `fren`, is Markdown-escaped, and is formatted into a greeting template as a mention link.

Outside effects become parameters of the model:
- the current time is a decomposed time record;
- whether the database is reachable is a flag on the ledger store;
- whether a generator is configured, and what it returned per category, are inputs;
- each `random.choice` is an arbitrary `pick` (index `pick % |pool|`);
- configuration values are strings, with `""` for unset.

Launching a task appends its name to the tick's result. Sending a message is the returned reply.

Modules:
- `Wrappers`: `Option`, and dictionary lookup.
- `Text`: Python's `isspace`, `strip`, `lstrip(chars)`, ASCII `lower`, substring `in`, and zero-padded decimals.
- `Markers`: the time record, and the two markers with their parsers.
- `Scheduler`: the schedule table, the due rule, the tick, the ledger store and the at-most-once lemmas.
- `Extraction`: `re.split`, the line filter and the list comprehension.
- `Responses`: the categories, the threshold gating, the response store and the scheduled post.
- `Triggers`: banter, identity, escaping, `str.format` and greetings.

The length test is on the raw piece, before cleaning (`sidekick_logic.py:465`), so a kept piece can clean down to fewer than six characters, even to the empty line (`Extraction.ShortCleanedLineIsKept`).

## Model

| member | source | states |
|---|---|---|
| Markers.HourlyMarker | sidekick_logic.py:381 | the hourly marker of an instant decodes to the calendar hour of that instant |
| Markers.WeeklyMarker | sidekick_logic.py:382 | the weekly marker of an instant decodes to the `%U` week of that instant |
| Markers.ParseFormatHour | sidekick_logic.py:381 | decoding the `%Y-%m-%d-%H` marker of an hour gives back that hour |
| Markers.FormatParseHour | sidekick_logic.py:381 | every string that decodes as an hourly marker is the marker of the hour it decodes to |
| Markers.ParseFormatWeek | sidekick_logic.py:382 | decoding the `%Y-W%U` marker of a week gives back that week |
| Markers.FormatParseWeek | sidekick_logic.py:382 | every string that decodes as a weekly marker is the marker of the week it decodes to |
| Markers.HourlyMarkerIdentifiesHour | sidekick_logic.py:381 | two instants have equal hourly markers exactly when they are in the same calendar hour |
| Markers.WeeklyMarkerIdentifiesWeek | sidekick_logic.py:382 | two instants have equal weekly markers exactly when they are in the same `%U` week of the same year |
| Text.ContainsStripped | sidekick_logic.py:522 | stripping whitespace neither hides nor creates an occurrence of a pattern with non-space ends |
| Text.LowerIdempotent | sidekick_logic.py:522 | lower-casing twice is lower-casing once |
| Text.DigitsRoundTrip | sidekick_logic.py:381 | every digit string is the zero-padded form of the number it denotes |
| Text.PadRoundTrip | sidekick_logic.py:381 | reading back a zero-padded number below the width's power of ten gives the number |
| Scheduler.SchedulesHaveUniqueNames | sidekick_logic.py:384-402 | the seventeen task names are pairwise distinct, so the ledger keys them apart |
| Scheduler.PostingCategories | sidekick_logic.py:384-400 | every posting task of the table draws from the quotes, buy or pump pool |
| Scheduler.Marker | sidekick_logic.py:406 | the marker a task is deduplicated on, weekly for the weekly task and hourly otherwise; characterised by `MarkerIdentifiesPeriod` |
| Scheduler.Visible | sidekick_logic.py:90-92 | the ledger as a tick reads it, empty when the store is unreachable; its effect is stated by `TickLaunchesDue` and `UnreachableStoreRecordsNothing` |
| Scheduler.IsDue | sidekick_logic.py:405-417 | the due test of one task; its meaning is stated by `DailyDueRule` and `WeeklyDueRule` |
| Scheduler.DailyDueRule | sidekick_logic.py:413-417 | a daily task is due exactly when the hour equals its hour, the minute is at least its minute (0 by default), and the ledger does not already record the current hour (a missing entry records nothing) |
| Scheduler.WeeklyDueRule | sidekick_logic.py:405-412 | the weekly task is due exactly on its weekday, from its hour on, unless the ledger already records the current `%U` week |
| Scheduler.WeeklyExamples | sidekick_logic.py:409-412 | the Sunday 08:00 regeneration is due at 08:30 on Sunday 5 May 2024 with nothing recorded, not on the Saturday before, and not at 20:00 that Sunday once its week is recorded |
| Scheduler.DailyExamples | sidekick_logic.py:414-417 | a 10:00 task is due at 10:00 against a ledger holding the 09 hour, not at 09:59, and not at 10:05 once 10 is recorded |
| Scheduler.ExampleHourMarker | sidekick_logic.py:381 | 10 o'clock on 1 May 2024 has the hourly marker `2024-05-01-10` |
| Scheduler.MarkerIdentifiesPeriod | sidekick_logic.py:406 | a task's marker is equal at two instants exactly when they are in the same period of that task |
| Scheduler.RunEntries | sidekick_logic.py:404-424 | the walk over a task table, judging each task against the ledger as read before its turn; its meaning is stated by the `Tick…` lemmas below |
| Scheduler.Tick | sidekick_logic.py:404-424 | one tick over the seventeen tasks; characterised by `TickLaunchesDue`, `TickLaunchesTask` and `TickRecordsLaunched` |
| Scheduler.TickLaunchesDue | sidekick_logic.py:404-424 | a tick launches exactly the due tasks, in table order, judged against the ledger it started from (read as empty when the store is unreachable) |
| Scheduler.TickLaunchesTask | sidekick_logic.py:404-424 | a task is launched by a tick exactly when it is due, and then exactly once |
| Scheduler.TickRecordsLaunched | sidekick_logic.py:419-424 | after a tick, a launched task's entry holds the current marker when the store is reachable; every other entry is as before |
| Scheduler.OnlyLaunchedKeysChange | sidekick_logic.py:101-111 | a ledger entry changed by a tick belongs to a task that the tick launched, with the store reachable |
| Scheduler.UnreachableStoreRecordsNothing | sidekick_logic.py:90-106 | without a connection, the ledger is unchanged and every task whose time condition holds is launched |
| Scheduler.NotDueAgainInPeriod | sidekick_logic.py:404-424 | with the store reachable, a task launched at one tick is not launched by a later tick in the same period |
| Scheduler.RecordedTaskStaysQuiet | sidekick_logic.py:404-424 | with the store reachable, once the ledger holds a task's marker, no run of ticks with that marker launches it |
| Scheduler.AtMostOncePerPeriod | sidekick_logic.py:404-424 | across any run of ticks with the store reachable within one period of a task, that task is launched at most once |
| Scheduler.LedgerStore.GetLastRun | sidekick_logic.py:90-99 | returns the stored marker exactly when connected and a row exists, otherwise `None` |
| Scheduler.LedgerStore.UpdateLastRun | sidekick_logic.py:101-111 | upserts the row for the name when connected, and changes nothing otherwise |
| Scheduler.RunTable | sidekick_logic.py:404-424 | one walk over a task table yields the launches and the ledger of the function `RunEntries` on the old ledger, and leaves reachability alone |
| Scheduler.CheckAndRunSchedules | sidekick_logic.py:379-426 | the names launched and the new ledger are those of the function `Tick` on the old ledger |
| Extraction.DigitRunEnd | sidekick_logic.py:465 | returns the end of the maximal run of ASCII digits starting at the index |
| Extraction.SeparatorAt | sidekick_logic.py:465 | a separator matches at an index exactly at a newline (length 1) or at a non-empty digit run followed by a dot (the whole run and the dot) |
| Extraction.Split | sidekick_logic.py:465 | `re.split(r'\n\|\d+\.', text)`; characterised by `SplitMeaning` |
| Extraction.SplitMeaning | sidekick_logic.py:465 | the pieces are the slices between consecutive separator matches, in order: no match starts inside a piece, a match starts where each piece but the last ends and the next piece begins right after it, and the first piece starts the text and the last ends it |
| Extraction.SplitPieces | sidekick_logic.py:465 | a split has at least one piece and no piece contains a newline |
| Extraction.SplitExample | sidekick_logic.py:465 | `re.split(r'\n\|\d+\.', "a\n12.b")` is `['a', '', 'b']` |
| Extraction.ComprehensionSource | sidekick_logic.py:465 | each element of a filtering list comprehension is the image of a kept element, at a returned position |
| Extraction.ComprehensionComplete | sidekick_logic.py:465 | every kept element contributes its image to the comprehension |
| Extraction.ComprehensionIndices | sidekick_logic.py:465 | a filtering list comprehension is the images of the kept elements in their order with their repetitions: the positions behind its elements are strictly increasing and are every kept position |
| Extraction.Kept | sidekick_logic.py:465 | the filter `line.strip() and len(line) > 5`; its effect is stated by `ExtractedLineShape` and `ExtractedLinesComplete` |
| Extraction.ExtractLines | sidekick_logic.py:465 | the candidate lines of a generated text; characterised by `ExtractLinesInOrder` |
| Extraction.Clean | sidekick_logic.py:465 | a cleaned line neither starts nor ends with whitespace |
| Extraction.CleanAddsNoNewline | sidekick_logic.py:465 | cleaning a piece without newlines yields a line without newlines |
| Extraction.ExtractedLineShape | sidekick_logic.py:465 | every extracted line is the cleaned form of a non-blank split piece longer than five characters, with no surrounding whitespace and no newline |
| Extraction.ExtractedLinesComplete | sidekick_logic.py:465 | every split piece passing the filter yields an extracted line |
| Extraction.ExtractLinesInOrder | sidekick_logic.py:465 | the extracted lines are the cleaned kept pieces of the split, in split order, one per kept piece |
| Extraction.StripExample | sidekick_logic.py:465 | `"  ***  ".strip()` is `"***"` |
| Extraction.ShortCleanedLineIsKept | sidekick_logic.py:465 | the piece `"  ***  "` passes the raw-length filter and cleans to the empty line |
| Responses.Candidates | sidekick_logic.py:465-468 | the surviving lines of a category; characterised by `CandidateShape` and `GreetingCandidatesComplete` |
| Responses.Judge | sidekick_logic.py:470-476 | the recorded status of a category; its effect is stated by `RenewAllCategory` and `QuotesThresholdExamples` |
| Responses.Apply | sidekick_logic.py:470-474 | one category's step; characterised by `ApplyLookup` |
| Responses.RenewAll | sidekick_logic.py:457-477 | the categories processed in order; characterised by `RenewAllCategory` and `RenewAllOtherKeys` |
| Responses.CategoriesFacts | sidekick_logic.py:447-453 | the five categories have distinct keys and positive thresholds, and the fourth is the greeting category |
| Responses.ApplyLookup | sidekick_logic.py:470-474 | one category's step changes only its own pool, to its surviving lines, and only on success |
| Responses.RenewAllOtherKeys | sidekick_logic.py:457-477 | regeneration leaves every key that is not a category untouched |
| Responses.RenewAllCategory | sidekick_logic.py:470-474 | after regeneration a category's pool is its surviving lines when its text was generated and at least its threshold of lines survived, and otherwise what it held before |
| Responses.QuotesThresholdExamples | sidekick_logic.py:470-474 | with its threshold of 20, the quotes category fails recording 18 of 20 and keeps its pool when 18 lines survive, and succeeds recording 22 and installs them when 22 survive |
| Responses.CandidateShape | sidekick_logic.py:465-468 | each installed line is a cleaned, kept split piece, and each greeting line holds `{name}` |
| Responses.GreetingCandidatesComplete | sidekick_logic.py:467-468 | every extracted greeting line with the placeholder is a candidate |
| Responses.RenewPreservesValid | sidekick_logic.py:457-477 | regeneration keeps every category pool non-empty and every greeting template holding `{name}` |
| Responses.InitialPoolsValid | sidekick_logic.py:116-376 | the initial pools satisfy that invariant |
| Responses.ScheduledCategoriesAreRegenerated | sidekick_logic.py:384-400 | every pool a scheduled task posts from is a regenerated category |
| Responses.ScheduledMessage | sidekick_logic.py:428-438 | a post is chosen exactly when the group is configured and the pool exists and is non-empty, and it is a line of that pool |
| Responses.ScheduledTasksPost | sidekick_logic.py:428-438 | with valid pools and a configured group, every scheduled posting task posts |
| Responses.ResponseStore.constructor | sidekick_logic.py:116-376 | a new store holds the initial pools, which satisfy the pool invariant |
| Responses.ResponseStore.RenewCategory | sidekick_logic.py:459-477 | one category's step replaces the pool only on success and returns its status |
| Responses.ResponseStore.RenewEach | sidekick_logic.py:457-477 | walking the categories in order leaves the pools of `RenewAll` and one report per category, holding its key and its status |
| Responses.ResponseStore.Renew | sidekick_logic.py:441-477 | without a generator, nothing changes and nothing is reported; otherwise the pools become `RenewAll` of the old pools and one report per category is returned, in order; the pool invariant holds before and after |
| Triggers.IdentityPool | sidekick_logic.py:549 | the identity answers, with a one-line default when the category is absent; characterised by `IdentityPoolOfValid` |
| Triggers.IdentityPoolOfValid | sidekick_logic.py:549 | with pools that satisfy the pool invariant, the identity answers come from the stored identity category, which is non-empty, so the default is never used |
| Triggers.ScanBanter | sidekick_logic.py:535-539 | no reply exactly when no trigger occurs in the text; otherwise the reply of the first trigger, in table order, that occurs |
| Triggers.FirstMatchUnique | sidekick_logic.py:535-539 | the first matching trigger is unique, so at most one reply is chosen |
| Triggers.FromMainBot | sidekick_logic.py:526 | the sender test `main_bot_id and str(sender_id) == main_bot_id`; its effect is stated by `HandleMessage` |
| Triggers.HandleMessage | sidekick_logic.py:516-555 | textless messages, and main-bot messages containing `Welcome to the NPEPEVERSE`, `A wild` or `new fren has appeared`, get nothing; the main bot gets exactly the first-match banter reply after 30 s and never an identity answer; other senders get an answer from the identity pool after 5 s exactly when the text asks who the bot is and the pool is non-empty; with valid pools every such question is answered from the stored identity category |
| Triggers.IdentityAsked | sidekick_logic.py:522-545 | the identity-question test; characterised by `IdentityIgnoresSurroundingSpace` and `IdentityIgnoresCase` |
| Triggers.IdentityIgnoresSurroundingSpace | sidekick_logic.py:544-545 | trimming is irrelevant: identity questions are exactly the texts whose lower-cased form contains a keyword |
| Triggers.IdentityIgnoresCase | sidekick_logic.py:522 | lower-casing the text first does not change whether it is an identity question |
| Triggers.KeywordEnds | sidekick_logic.py:545 | every identity keyword is non-empty and starts and ends with a non-space character |
| Triggers.EscapeMarkdown | sidekick_logic.py:505 | the four chained `replace` calls; characterised by `EscapeIsCharwise` and `EscapeRoundTrip` |
| Triggers.EscapeEach | sidekick_logic.py:505 | in an escaped name every special character is preceded by a backslash |
| Triggers.EscapeIsCharwise | sidekick_logic.py:505 | the four chained `replace` calls escape character by character |
| Triggers.EscapeRoundTrip | sidekick_logic.py:505 | the name can be read back from its escaped form, so escaping is injective |
| Triggers.EscapedSpecialsArePreceded | sidekick_logic.py:505 | the escaped name has no special character without a backslash before it |
| Triggers.FormatName | sidekick_logic.py:506 | `template.format(name=…)`; characterised by `FormatPlaceholder` and `FormatRejectsOtherFields` |
| Triggers.FormatPlaceholder | sidekick_logic.py:506 | a template with `{name}` between brace-free text formats to that text around the value |
| Triggers.FormatRejectsOtherFields | sidekick_logic.py:506 | `{}`, `{0}` and a lone `}` make `format` fail |
| Triggers.TemplateFormats | sidekick_logic.py:506 | a template of the form text, `{name}`, text, with brace-free text, formats, and the result contains the value |
| Triggers.Welcome | sidekick_logic.py:499-506 | no welcome from an empty pool; from a non-empty pool of single-placeholder templates, whichever is picked, the welcome is built and contains the member's mention link; its exact text is stated by `WelcomePicked` |
| Triggers.MentionLink | sidekick_logic.py:505-506 | the Markdown mention link `[name](tg://user?id=…)`; its use is stated by `WelcomePicked` |
| Triggers.GreetingPool | sidekick_logic.py:506 | the greeting templates, empty when the category is absent; its effect is stated by `Welcome` and `GreetNewMembers` |
| Triggers.WelcomePicked | sidekick_logic.py:506 | when the picked template of the pool is `a{name}b` with brace-free `a` and `b`, the welcome is exactly `a`, the member's mention link, `b` |
| Triggers.FlawedGreetingFails | sidekick_logic.py:467-468 | the greeting filter accepts `{name}{x}`, which holds the placeholder, but it does not format, so no welcome is built from it |
| Triggers.GreetNewMembers | sidekick_logic.py:499-514 | the welcomes are built in member order, and the first member whose welcome cannot be built ends the loop; with a non-empty pool of single-placeholder templates every member is welcomed and each welcome contains that member's mention link |

## Left out

- Threads and sleeps: a launch is an appended name, and a delayed reply is a reply carrying its delay. Concurrency, the delays themselves and the double launch that can occur when two ticks overlap are not modelled.
- Database plumbing: the connection, the table creation and query exceptions are not modelled. A failed SELECT in `_get_last_run_date` (`sidekick_logic.py:93-99` has no `except`) ends the whole tick, so the tasks after it are never evaluated; the model always evaluates every task. A failed upsert is caught (`sidekick_logic.py:108-109`) and only loses that write, which the model does not capture either. Reachability is fixed for a whole tick, so a connection failing between the read and the write of one task is not modelled.
- The text generator client and the completion call: their result is an input per category, either a text or a failure.
- The Telegram client: sends are outputs. A failed send is caught (`sidekick_logic.py:434-438`, `:507-511`, `:550-553`), or for banter (`sidekick_logic.py:537`) it ends the reply thread; either way nothing else changes, so send failures are not modelled.
- Randomness: every `random.choice` is an arbitrary `pick`.
- The clock: the time is handed in already decomposed, and calendar arithmetic (weekday, `%U` week) is not modelled.
- The owner report after regeneration (`sidekick_logic.py:480-492`): the model returns the per-category statuses, but not the Markdown text, nor whether the owner id is configured.
- The canned response tables: the initial pools hold two lines per category. The banter table is a constant, since it is never regenerated.
- `sidekick_main.py` (webhook, health route, server) and `config_sidekick.py` (environment lookups) hold no decision logic.
- Logging.
- Thread-start failures inside `check_and_run_schedules`: in the source they would skip the ledger write. The model treats every launch as successful.
- Markers.FormatHour: years are always zero-padded to four digits, but C `strftime` does not pad years below 1000.
- Text.Lower: lower-cases ASCII letters only, unlike Python's full Unicode `str.lower`.
- Extraction.DigitRunEnd: `\d` is taken as the ASCII digits only, whereas Python's `re` matches every Unicode decimal digit; `Extraction.SeparatorAt` inherits this.
- Triggers.FormatName: handles `{{`, `}}` and `{name}`. Every other field raises in the model, but Python also accepts `{name!r}`, `{name:…}`, `{name[0]}` and `{name.attr}`.
- A message without text and one with empty text are both `""` in the model. The source returns early on both.
- Responses.ValidPools: it keeps `{name}` in every greeting, as the filter at `sidekick_logic.py:467-468` does, but not that the greeting formats; a regenerated greeting such as `{name}{x}` raises in `format` (`Triggers.FlawedGreetingFails`), so `GreetNewMembers` only promises a welcome for brace-free text around a single `{name}`.
