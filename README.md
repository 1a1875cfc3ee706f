# 2dfan check-in: a Dafny model of the check-in flow

The model covers the decision logic of `api.py`, the module that checks a
2dfan.com account in for the day by driving a browser. Each piece the browser
would supply is turned into an input value. This includes:

- the page title;
- the `#do_checkin` button and the `#checkin` form text;
- the CAPTCHA token polls;
- the responses the page receives;
- the reply to the direct POST.

The model is split into five modules:

- `Text` (`text.dfy`): character classes as Python's `re` defines them (`\d`
  restricted to ASCII digits, `\s` the `str.isspace` set), and `FirstMatch`,
  the scan behind `re.search` (leftmost start) and a lazy `.*?` (which cannot
  cross a newline without DOTALL).
- `Parser` (`parser.dfy`): `CheckinResult`, `_parse_text` with its three
  ordered rules, and `_extract_serial_days`. Each regular expression appears
  twice: as a scanner, and as a ghost predicate saying what a match is. The
  lemmas prove the scanner returns exactly the match Python reports. That
  means the leftmost start, greedy `\s*`/`\d+`, and the shortest `.*?`.
- `Page` (`page.dfy`): the interstitial title test and the button and form
  tests. It also holds the interceptor's capture slot, the two page globals
  `__checkinRaw` and `__checkinJSON`. This is a class that the script resets
  and the page's `/checkins` responses overwrite, plus the pure
  `Record`/`Replay` functions that specify it and `_read_intercepted`.
- `Pollers` (`pollers.dfy`): `_pass_cf_challenge` and `_wait_turnstile` as
  loops over one observation per second.
- `Checkin` (`checkin.dfy`): the three submission tiers and `checkin`. The
  orchestrator reads an abstract `Tab` that answers each query the code makes.
  It reports the tiers that ran along with the result or the exception
  (`ValueError` as `ControlNotFound`, `RuntimeError` as `ChallengeTimedOut`).

Every function is deterministic, so repeated calls on the same text agree.

Where the code and its descriptions differ, the model follows the code:

- The keyword rule's pattern is `连[续續]`. It accepts 连续 and 连續 but not the
  all-traditional 連續.
- The JSON rule's `.*?` does not cross a newline. The stretch from the end of
  N to the `"serial_checkins"` key must lie on one line. The `\s*` around the
  colons may span lines, so the count key itself may sit on an earlier line.
- A fragment `"checkins_count": N … "serial_checkins": M` inside other text is
  read as (N, M) whenever it is the leftmost, shortest match of the pattern
  (`Parser.ParseTextJsonRule`). Earlier keys with no digits after them are
  skipped. `Parser.ParseTextFragment` gives one simple sufficient condition:
  no count key starts earlier, and no serial key starts between N and the
  chosen one.
- The second assist call in `_wait_turnstile` happens after an unsuccessful
  poll at the literal second 10.

## Model

| member | source | states |
|---|---|---|
| Text.IsSpace | api.py:134 | `\s` accepts the ASCII blanks and line breaks and never a digit, a colon or a quote |
| Text.DecimalValue | api.py:137 | `int()` of a digit string: a single digit is its own value |
| Text.DecimalValueLeadingZero | api.py:137 | `int()` ignores a leading zero |
| Text.FirstMatch | api.py:133-135 | the first position at or after `from` where the pattern matches, none earlier, and none at all when it returns nothing; with the one-line flag, positions past a newline are never tried |
| Parser.KeyNumber | api.py:133-135 | a group returned at i is a `key\s*:\s*(\d+)` match there, with a maximal digit run |
| Parser.KeyNumberComplete | api.py:133-135 | every `key\s*:\s*(\d+)` match at i is the one the scanner returns, so its digit group is unique |
| Parser.SerialAfter | api.py:133-135 | the lazy `.*?"serial_checkins"\s*:\s*(\d+)`: the nearest serial key on the same line, none nearer, none at all when nothing is returned |
| Parser.JsonAt | api.py:133-135 | a result at i is a rule-1 match starting at i |
| Parser.JsonSearch | api.py:133-135 | `re.search` with the rule-1 pattern: a match at the returned start and none at any earlier start |
| Parser.JsonAtComplete | api.py:133-135 | whenever the rule-1 pattern matches at a start, the scanner succeeds there with the same count and a `.*?` no longer |
| Parser.JsonSearchFirst | api.py:133-137 | the scanner's result is the leftmost, shortest rule-1 match; it returns nothing exactly when the pattern matches nowhere |
| Parser.JsonFirstIsFound | api.py:133-137 | the match Python reports is the one the scanner returns |
| Parser.FirstDigitRun | api.py:139-140 | the first digit run on the same line after a keyword, maximal, with no digit before it |
| Parser.KeywordNumberAt | api.py:139-140 | a result at i is a `累[计積].*?(\d+)` or `连[续續].*?(\d+)` match starting at i |
| Parser.KeywordSearch | api.py:139-140 | `re.search` with a keyword pattern: a match at the returned start and none earlier |
| Parser.KeywordNumberComplete | api.py:139-140 | every keyword match at a start is the one the scanner returns |
| Parser.KeywordSearchFirst | api.py:139-140 | the scanner's result is the leftmost keyword match, carrying the first digit run after the keyword; it returns nothing exactly when the keyword is never followed by digits on its line |
| Parser.KeywordFirstIsFound | api.py:139-140 | the keyword match Python reports is the one the scanner returns |
| Parser.ParseText | api.py:128-145 | empty text gives nothing; any result is the sentinel (-1, -1) or has both counts non-negative |
| Parser.ParseTextJsonRule | api.py:133-137 | when the rule-1 pattern matches, the result is exactly its two numbers, whatever else the text holds |
| Parser.ParseTextFragment | api.py:133-137 | a sufficient condition: a `"checkins_count": N … "serial_checkins": M` fragment, with no newline between N and the serial key, no earlier count key and no nearer serial key, is read as (N, M) |
| Parser.SampleBodyMatches | api.py:133-135 | the body `{"checkins_count": 5, "serial_checkins": 3}` holds a rule-1 match whose groups read 5 and 3 |
| Parser.SampleBodyHasNoEarlierKeys | api.py:133-135 | in that body no count key starts before the match and no serial key lies between the count and the match's serial key |
| Parser.SampleBodyParses | api.py:128-137 | that body parses to (5, 3) |
| Parser.ParseTextKeywordRule | api.py:139-142 | when rule 1 does not match and both keywords are followed by digits, the result is the first digit run after each, the cumulative count first |
| Parser.ParseTextUnreported | api.py:143-144 | the sentinel (-1, -1) is returned exactly when rule 1 fails, the keyword rule lacks one of its keywords, and `签到成功` occurs |
| Parser.ParseTextNone | api.py:128-145 | nothing is returned exactly when no rule applies; empty text included |
| Parser.StreakDaysAt | api.py:120-122 | a result at i is a `连续签到\s*(\d+)` match starting at i |
| Parser.StreakDaysSearch | api.py:120-122 | `re.search` with that pattern: the match at the returned start, none earlier, none anywhere when nothing is returned |
| Parser.StreakDaysComplete | api.py:120-122 | every match of that pattern is the one the scanner returns at its start |
| Parser.ExtractSerialDays | api.py:120-122 | the result is -1 or non-negative |
| Parser.ExtractSerialDaysSpec | api.py:120-122 | -1 exactly when the pattern matches nowhere; otherwise the number of the leftmost match, skipping any `连续签到` not followed by digits |
| Page.AnyMarker | api.py:88 | true exactly when some keyword occurs in the text |
| Page.OnCfChallenge | api.py:84-89 | challenged exactly when the evaluation failed or the title (empty when missing) contains `Just a moment` or `请稍候` |
| Page.TitleText | api.py:88 | `title or ""`: a present title is used as is, and the text is empty exactly when the title is missing or empty |
| Page.ButtonDone | api.py:183 | the already-done button test, also at api.py:341: a disabled button or a class containing `btn-success` is done; an enabled button whose class is too short to contain it is not |
| Page.AlreadyDone | api.py:114-117 | `_check_already_done`: an empty form text is never done; one containing `已签到` always is |
| Page.MissingTitleIsClear | api.py:88 | a missing title is read as the empty one and is never the interstitial |
| Page.Record | api.py:28-47 | a response whose URL lacks `/checkins` changes nothing; one that has it sets the raw global to its body and the JSON global to its parse, or leaves the JSON global as it was when the body is not JSON |
| Page.Replay | api.py:28-47 | after a sequence of responses the raw global is set exactly when it was set before or some response went to a `/checkins` URL |
| Page.ReplayLastWins | api.py:28-47 | after a sequence of responses, the raw global holds the last `/checkins` body and the JSON global the parse of the last `/checkins` body that was JSON |
| Page.ReplayIgnoresOtherUrls | api.py:32 | traffic to other URLs never touches the slot |
| Page.ReplayAppend | api.py:28-47 | responses seen in two batches leave the slot as if seen in one |
| Page.CheckinJsonsWithin | api.py:32-34 | there are never more JSON captures than raw captures |
| Page.CountsOf | api.py:151-152 | the count from `checkins_count`, and the streak from `serial_checkins` or -1 when absent |
| Page.ReadIntercepted | api.py:148-157 | a JSON object with `checkins_count` wins; otherwise the raw text goes through the parser; nothing when both globals are null |
| Page.ClearedReadsNothing | api.py:21-22 | right after installation, reading gives nothing |
| Page.ReadAfterInstall | api.py:20-52 | after installation, no `/checkins` traffic means nothing is read, and counts from the last JSON body are read even if later bodies were not JSON |
| Page.CaptureSlot.constructor | api.py:313 | a freshly opened page has both globals unset |
| Page.CaptureSlot.Install | api.py:21-22 | evaluating the script resets both globals to null |
| Page.CaptureSlot.OnResponse | api.py:28-47 | the hook changes the slot exactly as `Record` says |
| Page.CaptureSlot.Deliver | api.py:28-47 | responses arriving in order leave the slot at the `Replay` of the old slot |
| Page.CaptureSlot.Read | api.py:148-157 | reading the globals gives `ReadIntercepted` of the slot |
| Pollers.PassCfChallenge | api.py:92-101 | success exactly when one of the first `timeout` titles is clear; it stops at the first clear one, having seen only challenged titles before, and makes at most `timeout` polls, all of them on failure |
| Pollers.WaitTurnstile | api.py:259-281 | solved exactly when the token appears within `timeout` polls, at the first such poll; the assist runs at second 0 and again only after an unsuccessful poll at second 10 |
| Checkin.ConfirmNormal | api.py:175-190 | an intercepted result wins; otherwise a done button gives (-1, -1), a vanished button with the already-done form gives (-1, streak days of the form), and anything else gives the parse of the whole page; nothing is returned exactly when all four fail |
| Checkin.NormalAlreadyDone | api.py:185-187 | a vanished button with the already-done form, and nothing intercepted, gives (-1, `_extract_serial_days` of the form), the streak being -1 exactly when the form has no `连续签到` followed by digits |
| Checkin.NormalOutcome | api.py:163-190 | raises `ControlNotFound` exactly when the button is missing; otherwise returns the confirmation of what the responses after the click left in the reset slot |
| Checkin.SubmitNormal | api.py:163-190 | raises when the button is missing, otherwise gives `ConfirmNormal` of what the responses after the click left in the freshly reset slot; anything captured before the call has no influence |
| Checkin.SubmitFetch | api.py:193-232 | a result only from a reply with status 200 |
| Checkin.FetchReadsLikeInterceptor | api.py:225-232 | a status-200 body is read exactly as the interceptor reads the same body captured from `/checkins` |
| Checkin.CaptureAtRead | api.py:248-252 | the slot at read k holds the replay, from the reset slot, of every response that arrived up to read k |
| Checkin.ReadAt | api.py:248-251 | read k reads what all responses up to it left in the reset slot, and nothing when none went to `/checkins` |
| Checkin.NoCaptchaResult | api.py:235-253 | nothing exactly when the button is missing or none of the 15 reads yields a result |
| Checkin.FirstRead | api.py:248-253 | nothing exactly when none of the 15 reads yields a result |
| Checkin.FirstReadAt | api.py:248-253 | a read that yields a result, after reads that yield none, is the one returned |
| Checkin.SubmitNoCaptcha | api.py:235-253 | nothing and no read when the button is missing; otherwise between 1 and 15 reads, stopping at the first that yields a result, all 15 when none does |
| Checkin.Checkin | api.py:317-364 | challenge timeout raises before any tier; a missing button returns nothing when the form says done and raises otherwise; a done button returns nothing; a solved CAPTCHA runs tier 1 alone and returns its outcome; otherwise tier 2 runs, and tier 3 runs after it only when tier 2 gives nothing, the first result winning; of the two documented errors, `RuntimeError` comes only before the tiers and `ValueError` only from the missing-button checks before the tiers or in tier 1 |

## Left out

- Checkin.Checkin: exceptions raised by browser calls other than the title read (api.py:89-90) are not modelled. Examples are the evaluations in the CAPTCHA poll and in `_read_intercepted`, the clicks, `get_content` and `_get_btn_state`. In the source they propagate out of `checkin`; the model's outcomes cover only `RuntimeError` and `ValueError`.
- Browser lifecycle, cookie setup, navigation and `browser.stop` (api.py:298-313, 366-367) are not modelled. They are calls into the browser-automation library.
- The `finally` clause's cleanup is not modelled.
- Sleeps and log messages are left out. Each poll is one observation, and the time between them is not modelled.
- The challenge solver `verify_cf` is a foreign call whose failures are swallowed. It appears only as the assist seconds recorded by `WaitTurnstile`, and not at all in `checkin`.
- XHR and fetch patching, the CSRF lookup and the POST request are not modelled. The model takes the responses the hooks see and the reply of the in-page script as inputs.
- JSON is modelled only as objects with integer fields, or any other value. Non-integer `checkins_count` or `serial_checkins` values are not represented.
- Tab evaluations that return something other than a string or dictionary are not modelled.
- `\d` is restricted to ASCII digits. Python also accepts other Unicode decimal digits.
- `Checkin.NormalView`: tier 1 reads the form text twice (the already-done test and the streak extraction). The model uses one value for both.
- The diagnostic page dump written when every tier fails (api.py:361-363) is file output.
- `main.py` (environment loading, the per-account loop and exit codes) is not part of this model.
