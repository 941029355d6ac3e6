# United SMS OTP forwarder — a Dafny model

The forwarder logs in to an SMS panel and reads the panel's SMS statistics
table. From that table it picks out the messages that look like one-time
passwords. Each poll cycle forwards every such message it did not see in the
previous cycle to a Telegram chat, with the code pulled out of the text.
This project models that logic in `main.py` and proves properties of it.

The model has seven modules, one per concern of the program:

- `Wrappers` (`wrappers.dfy`): `Option`, which stands for Python's `None` results.
- `Text` (`text.dfy`): the string operations the program relies on. These are
  `str.strip()` (whitespace as `str.isspace` defines it), case folding,
  substring search (`p in s`) and `str.replace`.
- `Login` (`login.dfy`): `login_to_panel`. It covers the login URL, the posted
  form, and the marker test that decides whether the login worked. The HTTP
  reply is an input.
- `Scrape` (`scrape.dfy`): `scrape_sms_stats`. The parsed table, given as rows
  of cell texts, becomes four-field records, which are then filtered by the
  OTP pattern. `ScrapeSmsStats` keeps the source's `for` loop and is proved
  against the function `ScrapeResult`.
- `Dedup` (`dedup.dfy`): the comprehension that keeps the records of this
  cycle that are not in `last_messages`.
- `Notify` (`notify.dfy`): the part of `send_to_telegram` that builds the
  text. It finds the code, the leftmost match of `\b\d{4,6}\b` or
  "Not found", and fills in the Markdown template.
- `Monitor` (`monitor.dfy`): `monitor_otp_messages`. It has two parts.
  - A pure transition system: `Next` and `Notified` over `PollState`, with
    lemmas about sequences of cycles.
  - The class `OtpMonitor`. It is built from a `Config`, which it keeps as
    `config`. Its fields are `running` (whether the loop was entered), the
    loop's variables `session` and `lastMessages`, and three logs: an `outbox`
    of the texts passed to the bot, the login requests posted, and the sleeps.
    Its `PollOnce` method runs one pass of the `while True` loop and is proved
    to follow `Next` and `Notified` exactly.

The network, the HTML parser and the Telegram bot are inputs or outputs of the
model:

- a login attempt is a `PostReply`;
- a page fetch is a `Fetch`, which holds the table rows or records that the
  fetch failed;
- a notification is a string appended to `outbox`.

An exception that escapes the body of the loop is a `Fault` input of the
cycle. It records where the exception struck: after some of the sends and
before `last_messages = current_messages`, or after that assignment, during
the sleep.

Where the behaviour of the code is worth stating plainly:

- `current_messages` is the list after the OTP filter, so each cycle compares
  against the previous cycle's filtered list rather than against all records
  of the previous page. `Monitor.FilteredMemorySuffices` proves that the two
  give the same new messages, because the filter looks only at the record.
- `last_messages` is the previous scrape itself and not the set of records
  ever seen. A record that drops off the page for one cycle and comes back is
  sent again (`Monitor.RenotifiedAfterAbsence`). A completed cycle whose scrape comes
  back empty, for example after a network error, therefore causes every
  visible OTP to be sent again on the next cycle
  (`Monitor.EmptyScrapeResetsMemory`).
- After an exception the loop logs in again and keeps the result even when it
  is `None`. From then on `scrape_sms_stats(None)` raises inside its own
  `try` and returns `[]`, and `send_to_telegram` catches its own errors. The
  only exception left to the loop is one raised by
  `time.sleep(CHECK_INTERVAL)`, which happens on every cycle when
  `CHECK_INTERVAL` is negative (`ValueError`) or 9223372037 or more, too large
  for the interpreter's 64-bit nanosecond clock (`OverflowError`). With a
  `CHECK_INTERVAL` from 0 up to 9223372036, a failed re-login is therefore
  never retried: the loop keeps polling with no session, never logs in again
  and never forwards anything (`Monitor.StuckWithoutSession`, which assumes
  no exception in any cycle). With any other value, every cycle takes the
  `except` branch and logs in again.
- The `"N/A"` fallback for a missing time cell cannot be taken, because the
  row must have at least four cells to get there. Every record's time is the
  stripped fourth cell (`Scrape.RecordOf`).

## Model

| member | source | states |
|---|---|---|
| Text.Strip | main.py:66-69 | the result has no surrounding whitespace and is the input with only whitespace removed from both ends |
| Text.StripUnique | main.py:66-69 | any such trimming of the input is the one `Strip` returns |
| Text.StripIdempotent | main.py:66-69 | stripping a stripped cell changes nothing |
| Text.ContainsIff | main.py:41 | `Text.Contains`, the substring test `p in s`, holds exactly when `p` occurs at some index of `s` |
| Text.Lower | main.py:71 | case folding keeps the length and folds each character on its own |
| Text.LowerIdempotent | main.py:71 | folding a folded text changes nothing |
| Text.ReplaceAllAbsent | main.py:33 | `str.replace` leaves a text without the pattern unchanged |
| Text.ReplaceAllFirst | main.py:33 | `Text.ReplaceAll`, the model of `str.replace`, copies the text before the first occurrence, puts the replacement in its place and carries on after it |
| Text.ReplaceAllRemovesPattern | main.py:33 | when a non-empty replacement shares no character with the pattern, no occurrence of the pattern survives the replacement |
| Login.LoginUrl | main.py:33 | the login URL contains no "SMSCDRStats", and a panel URL without it is used as it is |
| Login.LoginUrlFirstOccurrence | main.py:33 | the first "SMSCDRStats" of the panel URL becomes "login", the text before it is kept, and the rest of the URL is treated the same way |
| Login.LoginUrlOfStatsPage | main.py:33 | a stats-page URL whose directory part has no 'S' logs in at the same directory's `login` |
| Login.DefaultLoginUrl | main.py:33 | the default panel URL is the stats page of `http://54.37.83.141/ints/agent/` and logs in at `.../ints/agent/login` |
| Login.DefaultConfigLogin | main.py:11-33 | with the defaults, the loop sleeps 30 seconds and the login is posted to `http://54.37.83.141/ints/agent/login` |
| Login.LoginRequestFor | main.py:33-38 | the POST goes to the login URL of the configured panel URL, which has no "SMSCDRStats", with exactly the fields `username` and `password` from the configuration and `login=Login`, in that order |
| Login.LoginToPanel | main.py:39-49 | through `Login.LoginSucceeded`, a session exactly when a reply came back with "SMSCDRStats" or "Dashboard" at some position, and `None` for a reply without either or for an exception |
| Login.LoginMarkerAnywhere | main.py:41 | a marker anywhere in the reply is enough, whatever surrounds it |
| Login.MarkerlessReplyFails | main.py:41-46 | a reply without the letters 'S' and 'D' is a failed login |
| Login.RejectionPageFails | main.py:44-46 | a typical "Invalid username or password" page is a failed login |
| Login.DashboardPageSucceeds | main.py:41-43 | a page titled "Dashboard" counts as logged in |
| Scrape.OtpPatternsFolded | main.py:71 | the folded alternatives the model compares against are the keywords `OTP`, `verification`, `কোড`, `code` folded |
| Scrape.OtpTextHasKeyword | main.py:71 | the OTP test `Scrape.IsOtpText` holds exactly when one of the four keywords occurs in the text, ignoring case |
| Scrape.OtpTestIgnoresCase | main.py:71 | the test gives the same answer for a text and its folded form |
| Scrape.OtpKeywordAnywhere | main.py:71 | a keyword anywhere in the text is enough, whatever surrounds it |
| Scrape.NoKeywordNoOtp | main.py:71-72 | a text without any keyword is dropped |
| Scrape.RecordOf | main.py:64-70 | a record's number, client, text and time are the first four cells stripped, in that order, so the time is never the "N/A" fallback |
| Scrape.OtpRecordsFilterAllRecords | main.py:64-72 | a record is kept exactly when a row of four or more cells produces it and its text passes the OTP test |
| Scrape.OtpRecordsConcat | main.py:62-72 | the kept records of two runs of rows, one after the other, are the two results one after the other, so row order is kept |
| Scrape.OtpRecordsMembers | main.py:62-72 | a record is in `Scrape.OtpRecords` exactly when some row has four or more cells, produces that record, and passes the test |
| Scrape.TableRecordsMembers | main.py:62-72 | the records of a table come from rows 1 onwards only, never the header row |
| Scrape.ShortRowYieldsNothing | main.py:64 | a row with fewer than four cells yields no record |
| Scrape.ShortRowDropped | main.py:64 | deleting a row with fewer than four cells does not change the result |
| Scrape.HeaderIgnored | main.py:62 | whatever the header row holds, the result is the same |
| Scrape.OtpRecordsWellFormed | main.py:65-72 | every kept record has stripped fields and an OTP-looking text |
| Scrape.ScrapeResultWellFormed | main.py:51-76 | whatever the fetch, the result holds only well-formed records |
| Scrape.ScrapeSmsStats | main.py:51-76 | the loop returns the function `Scrape.ScrapeResult`: [] without a session, after an exception or with no table; otherwise exactly the kept records of rows 1 onwards; only well-formed records |
| Dedup.NewMessages | main.py:111 | a record is new exactly when it is in the current list and not in `last`; each new record appears as often as in the current list |
| Dedup.NewMessagesInOrder | main.py:111 | the new messages are a subsequence of the current list, in its order |
| Dedup.NewMessagesDependOnMembersOnly | main.py:111 | only which records `last` holds matters, not their order or count |
| Dedup.NothingNewTwice | main.py:111 | a list compared with itself yields nothing new |
| Dedup.EverythingNewAfterReset | main.py:106-111 | against an empty `last` the whole current list is new, in the same order |
| Notify.MatchIsWholeRun | main.py:80 | a match of `\b\d{4,6}\b` covers a whole run of digits that starts after a non-digit |
| Notify.LongRunHasNoMatch | main.py:80 | no match starts inside a run of seven or more digits |
| Notify.MatchLengthAt | main.py:80 | at a position, the result is the length of the match there, or `None` when nothing matches there |
| Notify.SearchFrom | main.py:80 | the scan returns the first position from which a match starts, or `None` when none does |
| Notify.FindCode | main.py:80 | the search returns the leftmost match, or `None` exactly when there is none |
| Notify.LeftmostMatchUnique | main.py:80 | a text has at most one leftmost match |
| Notify.CodeText | main.py:80-86 | the shown code is "Not found" exactly when nothing matches; otherwise it is the text of the leftmost match |
| Notify.CodeAfterDigitFreePrefix | main.py:80 | after text without digits that is empty or ends in a non-word character, a run of 4 to 6 digits followed by a non-word character, or by nothing, is the code |
| Notify.GluedRunHasNoMatch | main.py:80 | no match starts inside a run of digits glued to a word character on either side, whatever the run's length and the surrounding text |
| Notify.GluedDigitsNoCode | main.py:80 | 4 to 6 digits with a letter or `_` directly before or after them, and nothing else, give "Not found" |
| Notify.MessageBody | main.py:88 | the body is `min(len(text), 150) + 3` characters: the start of the text followed by "..." |
| Notify.MessageBodyCases | main.py:88 | a text of 150 characters or fewer is kept whole and still gets "..."; a longer one is cut at 150 |
| Notify.FormatMessageShape | main.py:81-89 | the notification `Notify.FormatMessage` builds starts with the banner, contains the code line of the record's code, and ends with the message body and a newline |
| Monitor.Notifications | main.py:113-114 | one notification text per new record |
| Monitor.NotificationsInOrder | main.py:113-114 | text `k` is the formatted record `k`, so the texts follow the records one for one and in order |
| Monitor.NotifiedAreNew | main.py:110-114 | `Monitor.Notified`, what a cycle sends, is a prefix of the new messages among `Monitor.Scraped`, the cycle's scrape, all of them unless an exception interrupts the sends; every sent record was scraped, was not in `last_messages`, and is well-formed |
| Monitor.NextWellFormed | main.py:110-122 | every cycle step `Monitor.Next` keeps `last_messages` a list of well-formed records |
| Monitor.CompletedCycleRemembersScrape | main.py:110-116 | after a cycle without an exception, `last_messages` is that cycle's scrape and the session is unchanged |
| Monitor.FaultKeepsMemory | main.py:119-122 | an exception before the update keeps `last_messages`, and the new session is present exactly when the re-login reply carries a marker |
| Monitor.EmptyScrapeResetsMemory | main.py:110-116 | an empty scrape in a completed cycle sends nothing and empties `last_messages`, so the next cycle sends its whole page unless an exception interrupts its sends |
| Monitor.UnchangedPageNotifiedOnce | main.py:110-116 | the same page fetched again after a completed cycle sends nothing |
| Monitor.NoRenotifyInARow | main.py:110-116 | a record sent right after a completed cycle was not on that cycle's page |
| Monitor.RenotifiedAfterAbsence | main.py:110-116 | a record missing from one completed cycle's page is sent again when it returns, unless an exception interrupts the sends of the cycle it returns in |
| Monitor.FilteredMemorySuffices | main.py:110-116 | comparing against the previous filtered list gives the same new messages as comparing against every record of the previous page |
| Monitor.OneNewRecordOneNotification | main.py:110-114 | with two known records and one new one on the page, only the new one is sent |
| Monitor.VerificationCodeShown | main.py:80-86 | a "verification" text ending in six digits is sent with those digits as its code |
| Monitor.StuckWithoutSession | main.py:108-122 | for a run of cycles (`Monitor.Run`) without a session, and with no exception in the loop, no later cycle logs in again or sends anything |
| Monitor.OtpMonitor.constructor | main.py:102-106 | the monitor keeps its configuration, has posted that configuration's login request, starts with the login result and an empty `last_messages`, and runs the loop exactly when the login gave a session |
| Monitor.OtpMonitor.SendAll | main.py:113-114 | one notification per record, in order, appended to the outbox |
| Monitor.OtpMonitor.PollOnce | main.py:108-122 | one pass of the loop moves the state to `Next`, appends the notifications of `Notified`, sleeps `CHECK_INTERVAL` seconds or 60 after an exception, and posts the configured login again after an exception only; `last_messages` stays well-formed |
| Monitor.OtpMonitor.LogCycle | main.py:117-122 | the cycle's sleep and re-login are appended to the logs, and every posted request is still the configured login |
| Monitor.Settle | main.py:110-122 | what a scraped cycle sends, and the session and `last_messages` it leaves, agree with `Notified` and `Next` |
| Monitor.FailedLoginNeverPolls | main.py:102-104 | after a login whose POST raised or whose reply has neither marker, the monitor has no session, never enters the loop, sends nothing and has posted only the one login |

## Left out

- HTTP through `requests` (main.py:32, 40, 54) is not modelled. The login reply (`PostReply`) and the page fetch (`Fetch`) are inputs, and the session is an opaque handle.
- The BeautifulSoup parse and the `table.table` lookup (main.py:55-63) are not modelled. Their output is the input `Page`: no table, or the rows as lists of cell texts.
- `bot.send_message` and Markdown rendering (main.py:19, 90-98) are not modelled. `outbox` holds the texts handed to the bot. Whether the library delivers them is outside the model, including whether an asynchronous version of the library needs the call awaited. A send error is caught and printed, so it changes nothing the model tracks.
- The `keep_alive` thread (main.py:21-28, 128) is not modelled: it is concurrency with no shared state.
- `print`, reading the environment and the waiting itself (main.py:11-16, 117, 121) are not modelled; each sleep is recorded as its length in seconds. The configuration is the datatype `Config`. An unparsable `CHECK_INTERVAL` stops the program before any of the modelled code runs.
- Which exception strikes where is not derived from the code: it is the `Fault` input of each cycle.
- `Login.LoginRequestFor`: an unset user name or password (`None`, which `requests` leaves out of the form) is not modelled; the fields are strings.
- `Scrape.IsOtpText`: `re.IGNORECASE` is modelled with ASCII case folding only. Folding of other cased letters is not modelled, and the Bengali keyword is compared literally.
- `Notify.CodeText`: `\d` and `\b` are modelled as ASCII digits and ASCII word characters (letters, digits, `_`). Python's Unicode classes are wider. Its `\d` also matches Bengali digits. Its `\w` also takes Bengali letters, so for the text "কোড123456" Python finds no word boundary before the digits and shows "Not found", while the model shows "123456".
- `Monitor.OtpMonitor.PollOnce`: an exception raised by `time.sleep(CHECK_INTERVAL)` itself, for example for a negative or an overlarge interval, is recorded as the 60-second sleep only.
- `Monitor.OtpMonitor.PollOnce`: the model sends first and then updates the fields. When an exception interrupts the sends, the source stops part-way, and the model keeps the sends made up to that point.
