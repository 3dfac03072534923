# slt-monitor: a verified model of the usage worker's core

slt-monitor is a Cloudflare worker. It polls the SLT broadband API for a subscriber's data
usage and stores each reading in a `usage_log` table. From that log it serves an intraday
series and a monthly series, both bucketed in Asia/Colombo time (UTC+05:30). The worker
exists in two revisions, `src/index.ts` and `src/index.js`. They differ only in
`getMonthlyUsage`: the TypeScript revision shows a trailing window of nine days, and the
JavaScript revision shows the whole calendar month.

This project models the worker's core in Dafny and proves properties of the model:

- `calendar.dfy`, `js_date.dfy`: the proleptic Gregorian calendar as day numbers (day 0 is
  1970-01-01), and the ECMAScript date operations the worker calls: `getUTCFullYear`,
  `getUTCMonth`, `getUTCDate`, and `Date.UTC` with ECMAScript's MakeDay carry rules.
- `text.dfy`: decimal formatting, `padStart(2, "0")`, and `String.prototype.trim`.
- `colombo_time.dfy`: fixed-offset time bucketing. It covers `getColomboDayBounds`,
  `getColomboMonthBounds`, `formatColomboDayKey`, `parseColomboDayParam`,
  `buildIntradaySlots`, the `HH:MM` slot labels and `formatDayLabel`.
- `usage_series.dfy`: `getDailyUsageSeries`, the forward sweep that carries the last sample
  to each slot, and both variants of `getMonthlyUsage`, which keep the last sample of each
  day.
- `payload.dfy`: `parseNullableNumber`, `transformPayload`, and the error message that
  `recordUsage` raises.
- `session.dfy`: the token protocol of `fetchUsagePayload`, `performSltLogin` and
  `loginNow`.
  - The module-level `cachedAccessToken` is a field of class `SltClient`.
  - The two SLT endpoints form class `Upstream`. Each endpoint is an oracle: its answer
    depends on the request and on how many requests of its kind came before. The class
    logs every request made.
  - Each method is proved against a specification function: `LoginSpec` for the login, and
    `FetchSpec` with `Fallback` and `AfterLogin` for the fetch.
- `poller.dfy`: `recordUsage`, with the log table as an append-only list in class `UsageLog`.

Instants are ECMAScript time values, in integer milliseconds. A JavaScript exception is a
`Failure` carrying the error's message. JavaScript `Number(string)` is a parameter,
`toNumber`, that returns a `JsNumber`: a finite real, NaN or an infinity. The current
instant (`new Date()`) and its ISO string are parameters too: `reference`, `today` and
`now`.

Where the two revisions agree, the table cites `src/index.ts`, which also has
`getColomboMonthBounds`. Only the calendar-month variant of `getMonthlyUsage` cites
`src/index.js`.

## Model

| member | source | states |
|---|---|---|
| Calendar.CivilFromDays | src/index.ts:509-512 | the date that `getUTCFullYear`, `getUTCMonth` and `getUTCDate` read off a day number is a valid date whose day number is that number |
| Calendar.CivilFromDayNumber | src/index.ts:509-512 | reading a valid date's day number back gives that date, so date and day number are in one-to-one correspondence |
| Calendar.DayNumberInjective | src/index.ts:509-512 | two valid dates with the same day number are the same date |
| Calendar.DayNumberOrder | src/index.ts:509-512 | the day number increases with the date in year, month, day order |
| Calendar.EpochIsJanuaryFirst1970 | src/index.ts:509-512 | day number 0 is 1970-01-01, the ECMAScript epoch |
| JsDate.MakeDayOfDate | src/index.ts:514-515 | `Date.UTC(y, m - 1, d)` of a valid date lands on that date's day, and `Date.UTC(y, m - 1, d + 1)` on the next day, even across a month end |
| JsDate.MakeDayRollsOverDecember | src/index.ts:493 | month index 12 carries into January of the following year |
| JsDate.DateUtcAsWritten | src/index.ts:514-515 | no contract of its own: `Date.UTC` as ECMAScript defines it, reading a year from 0 to 99 as 1900 + year; `ColomboTime.DateUtcAsWrittenOfTwoDigitYear` and `ColomboTime.DayBoundsAsWrittenAgreeOutsideTwoDigitYears` state where it departs from `DateUtc` and where it agrees |
| JsDate.MakeDayZeroOfNextMonth | src/index.ts:498 | day 0 of the following month is the last day of month `m` |
| Text.DigitsValueOfNatToString | src/index.ts:501 | `String(n)` is all digits and reads back as `n` |
| Text.TwoDigitsRoundTrip | src/index.ts:501 | `padStart(2, "0")` of a number below 100 gives two digits that read back as that number |
| Text.FourDigitNumber | src/index.ts:501 | a year from 1000 to 9999 is written with four digits |
| Text.TrimSpec | src/index.ts:232 | `trim()` gives the empty string exactly for an all-whitespace string; otherwise the result neither starts nor ends with whitespace |
| Text.TrimStartSpec | src/index.ts:232 | trimming the start removes a whitespace prefix and keeps the rest, which starts with a non-whitespace character |
| Text.TrimEndSpec | src/index.ts:232 | trimming the end removes a whitespace suffix and keeps the rest, which ends with a non-whitespace character |
| Text.Trim | src/index.ts:232 | no contract of its own: `String.prototype.trim`; `Text.TrimSpec`, `Text.TrimStartSpec` and `Text.TrimEndSpec` state what it removes and keeps, and `Text.TrimIdempotent` that it is idempotent |
| Text.TrimIdempotent | src/index.ts:339 | trimming twice is trimming once, so the token that `performSltLogin` trims passes the trim of the candidate filter (line 232) unchanged, as `Session.LoginTokenIsFirstCandidate` uses |
| ColomboTime.LocalDayRange | src/index.ts:508-512 | an instant is on Colombo day `n` exactly when it lies between that day's local midnight and the next |
| ColomboTime.LocalDayShift | src/index.ts:389 | going back `k` whole days from an instant goes back `k` Colombo days |
| ColomboTime.LocalMidnightDate | src/index.ts:517-518 | a local midnight plus 330 minutes is a UTC midnight whose UTC date is the Colombo date |
| ColomboTime.FormatColomboDayKey | src/index.ts:528-530 | no contract of its own: the `YYYY-MM-DD` key of the instant's Colombo date; `ColomboTime.DayKeyFields`, `ColomboTime.DayKeyConstantOnDay` and `ColomboTime.ParseFormatRoundTrip` state its shape, that it is constant on a Colombo day, and that parsing it gives the day's start |
| ColomboTime.ColomboDayBounds | src/index.ts:507-521 | the bounds are local midnight of the reference's Colombo day and local midnight of the next day |
| ColomboTime.DayBoundsCalls | src/index.ts:509-518 | each `Date.UTC` call, shifted back by the offset, gives one of those two local midnights |
| ColomboTime.ColomboDayBoundsShape | src/index.ts:507-521 | for every reference instant `startUtc <= reference < endUtc`, `endUtc - startUtc` is 86 400 000 ms, and `startUtc` plus 330 minutes is a whole number of days |
| ColomboTime.InColomboDayBounds | src/index.ts:507-521 | an instant lies in the bounds exactly when it is on the same Colombo day as the reference |
| ColomboTime.DayKeyConstantOnDay | src/index.ts:528-530 | every instant within the bounds has the reference's day key |
| ColomboTime.ColomboDayBoundsAsWritten | src/index.ts:507-521 | no contract of its own: `getColomboDayBounds` with `Date.UTC` as ECMAScript defines it; `ColomboTime.DayBoundsAsWrittenMissTwoDigitYears` and `ColomboTime.DayBoundsAsWrittenAgreeOutsideTwoDigitYears` state where it fails and where it equals `ColomboDayBounds` |
| ColomboTime.DayBoundsAsWrittenMissTwoDigitYears | src/index.ts:514-518 | as written, an instant on a date in the years 0 to 99 gets bounds 1900 years later, so the bounds start after the instant |
| ColomboTime.DayBoundsAsWrittenMissYear50 | src/index.ts:514-518 | as written, the bounds of local midnight of 0050-06-15 do not contain it |
| ColomboTime.DayBoundsAsWrittenAgreeOutsideTwoDigitYears | src/index.ts:507-521 | outside the years 0 to 99 the as-written bounds equal the corrected ones |
| ColomboTime.ParseColomboDayParam | src/index.ts:532-538 | a result exists only for `^\d{4}-\d{2}-\d{2}$`; a matching string gives a result exactly when its month is 01 to 12 and its day 01 to 31; every result is a local midnight |
| ColomboTime.ParseValidDate | src/index.ts:532-538 | a matching string whose fields form a valid date, of any year from 0 to 9999, gives local midnight of that date |
| ColomboTime.ParseDayPastMonthEnd | src/index.ts:532-538 | a matching string whose day lies past the end of its month, up to 31, gives local midnight of a day of the following month: the excess over the month's length, December carrying into January of the next year |
| ColomboTime.MakeDayPastMonthEnd | src/index.ts:536 | the day that date arithmetic gives for a day past the end of month `m`, up to 31, is the day of the following month that exceeds the month's length by that much |
| ColomboTime.ParseYearFifty | src/index.ts:532-538 | "0050-06-15" gives local midnight of June 15 of the year 50 |
| ColomboTime.ParseFebruaryThirtieth | src/index.ts:532-538 | "2024-02-30" gives local midnight of 2024-03-01 |
| ColomboTime.DayKeyFields | src/index.ts:528-530 | a day key with a four-digit year matches the day pattern, and its three fields read back as the year, month and day |
| ColomboTime.ParseDayKeyRoundTrip | src/index.ts:532-538 | for a date in the years 1000 to 9999, parsing its day key gives its local midnight, and formatting that instant gives the key again |
| ColomboTime.ParseFormatRoundTrip | src/index.ts:528-538 | for an instant whose Colombo year is 1000 to 9999, parsing its day key gives the start of its Colombo day |
| ColomboTime.MonthKeysAt | src/index.ts:499-502 | the month's keys number exactly the days asked for, and key `j` is `YYYY-MM-DD` of day `j + 1` |
| ColomboTime.MonthDayKeys | src/index.ts:499-502 | the `dayKeys` loop builds exactly the keys of days 1 to `daysInMonth`, in ascending order |
| ColomboTime.ColomboMonthBounds | src/index.ts:486-505 | `getColomboMonthBounds` equals the month of the reference's Colombo date: from local midnight of its first day to local midnight of the first day of the next month, with one key per day |
| ColomboTime.ColomboMonthOfShifted | src/index.ts:487-490 | the year and month read off the shifted reference are those of its Colombo date |
| ColomboTime.MonthCalls | src/index.ts:492-496 | each `Date.UTC` call of the month bounds, shifted back, is the corresponding local midnight |
| ColomboTime.DaysInMonthCall | src/index.ts:498 | `getUTCDate` of `Date.UTC(year, month + 1, 0)` is the number of days in the month |
| ColomboTime.ColomboMonthContainsReference | src/index.ts:486-505 | `startUtc <= reference < endUtc` |
| ColomboTime.InColomboMonth | src/index.ts:486-505 | an instant lies in the month's bounds exactly when its Colombo year and month are the reference's |
| ColomboTime.InMonthOf | src/index.ts:492-496 | the instants of month `m` of year `y` are exactly those whose Colombo date is in that month |
| ColomboTime.MonthLength | src/index.ts:498-502 | `dayKeys` has exactly one entry per day of the month, and `endUtc` lies that many days after `startUtc` |
| ColomboTime.MonthEnd | src/index.ts:493 | the month ends at local midnight of the first of the following month; December rolls over into January of the next year |
| ColomboTime.MonthKeyOfDay | src/index.ts:499-502 | key `j` is the day key of the instant `j` whole days after the month's start |
| ColomboTime.BuildIntradaySlots | src/index.ts:540-551 | at most 48 slots; slot `i` lies `29 + 30 i` minutes after `startUtc` and carries its label; no slot is after `endUtc`; slots strictly increase; the grid stops only at 48 slots or at the first slot after `endUtc`; a 24-hour day has exactly 48 slots, the last one minute before its end |
| ColomboTime.SlotTimesIncrease | src/index.ts:546 | slot instants strictly increase with the index |
| ColomboTime.FullDayHasAllSlots | src/index.ts:545-549 | on a 24-hour day the loop runs all 48 times, and the last slot is one minute before the day's end |
| ColomboTime.TimeLabel | src/index.ts:553-555 | no contract of its own: the Colombo wall-clock time as `HH:MM`; `ColomboTime.TimeLabelFormat` and `ColomboTime.TimeLabelAfterMidnight` state its format and its value |
| ColomboTime.TimeLabelFormat | src/index.ts:553-555 | every label is five characters `HH:MM` with hours below 24 and minutes below 60, and reads back as the minute of the instant's Colombo day |
| ColomboTime.TimeLabelAfterMidnight | src/index.ts:553-555 | `k` minutes after local midnight the label reads `k / 60` hours and `k % 60` minutes, zero-padded |
| ColomboTime.FirstSlotLabel | src/index.ts:542-548 | the first slot of a day is labelled 00:29 |
| ColomboTime.LastSlotLabel | src/index.ts:542-548 | the 48th slot of a day is labelled 23:59 |
| ColomboTime.DayLabelOnHost | src/index.ts:523-526 | no contract of its own: `formatDayLabel` on a host at a given UTC offset; `ColomboTime.DayLabelOfParsed` and `ColomboTime.DayLabelOnUtcHostIsPreviousDay` state its value |
| ColomboTime.DayLabel | src/index.ts:523-526 | no contract of its own: `formatDayLabel` read in Colombo, the corrected label; `ColomboTime.DayLabelOfDayKey` states that it is the key's day of the month |
| ColomboTime.DayLabelOnUtcHostIsPreviousDay | src/index.ts:523-526 | as written, on a host in UTC the label of a key for day `d > 1` is `d - 1` |
| ColomboTime.DayLabelOfDayKey | src/index.ts:523-526 | corrected, the label of a day key is its day of the month, unpadded |
| ColomboTime.DayLabelOfParsed | src/index.ts:523-526 | a key that parses to instant `t` is labelled with the day of the month of `t` in the host's zone |
| Payload.ParseNullableNumber | src/index.ts:368-374 | null or undefined gives null; otherwise the result is the number (a string converted with `Number`) exactly when it is finite, and null when it is not |
| Payload.ParseFiniteNumber | src/index.ts:368-374 | a finite number is returned unchanged |
| Payload.ParseNullableNumberIdempotent | src/index.ts:368-374 | parsing a parsed number gives it back |
| Payload.TransformPayload | src/index.ts:352-366 | the record is stamped `now` and keeps the raw payload; `packageName` is the package's name or null; `usedGb` is the parsed package summary, or else the parsed first usage detail; `vasUsedGb` is the parsed service summary |
| Payload.UsedGbMissing | src/index.ts:360 | `usedGb` is null exactly when neither the summary nor the first usage detail gives a finite number |
| Payload.TransformPayloadWithoutBundle | src/index.ts:352-366 | a payload without a data bundle gives no package name and no volumes |
| Payload.VasUsedHasNoFallback | src/index.ts:361 | `vasUsedGb` depends on the service summary alone |
| Payload.ErrorMessage | src/index.ts:208 | `errorMessage` when set, else `errorMessege` when set, else "Unknown SLT API error" |
| Payload.EmptyErrorMessageWins | src/index.ts:208 | an empty `errorMessage` beats a non-empty `errorMessege`, because `??` passes over null and undefined only |
| UsageSeries.RowValueOfMissingVolume | src/index.ts:441 | a row whose volume is null or not finite counts as 0 |
| UsageSeries.Entries | src/index.ts:435-444 | no contract of its own: the timed rows as entries; `UsageSeries.EntriesOfRows` and `UsageSeries.EntriesSortedOfRows` state which rows it keeps, in what order, with which values |
| UsageSeries.EntriesOfRows | src/index.ts:435-444 | the entries are the rows with a timestamp, in order, each with its volume or 0 |
| UsageSeries.EntriesSortedOfRows | src/index.ts:435-444 | rows in timestamp order give entries in time order |
| UsageSeries.LastValueWithoutEarlierEntry | src/index.ts:447 | the reference step function is 0 at `t` when no entry is at or before `t` |
| UsageSeries.LastValueOfLastEarlierEntry | src/index.ts:450-453 | the reference step function at `t` is the value of the last entry at or before `t` |
| UsageSeries.LastValueSplit | src/index.ts:450-453 | once the cursor has consumed exactly the entries at or before `t`, the carried value is the step function at `t` |
| UsageSeries.CountOfSplit | src/index.ts:450-453 | on time-ordered entries, a cursor position with every entry before it at or before `t` and the next one after `t` is the number of entries at or before `t` |
| UsageSeries.CarryForward | src/index.ts:446-455 | one point per slot, with the slot's label; the cursor after each slot, recorded in `consumed`, never moves back; it splits the entries at the slot, and the point carries the value of the last entry it consumed, or 0; on time-ordered entries the cursor at a slot is the number of entries at or before the slot, and every point is the step function at its slot |
| UsageSeries.GetDailyUsageSeries | src/index.ts:423-456 | 48 points labelled with the day's slots; on rows in timestamp order each point is the value of the last timed row at or before its slot, or 0 |
| UsageSeries.NoRowNoValue | src/index.ts:407-414 | a day with no row has no value: nothing carries over from an earlier day |
| UsageSeries.LatestOnDayAt | src/index.ts:407-414 | a day's value is that of its last row |
| UsageSeries.LatestValuePerDay | src/index.ts:407-414 | after the `Map.set` loop, every key maps to the value of the last row on that day, and a day without rows has no entry |
| UsageSeries.TrailingDayKeys | src/index.ts:387-391 | nine keys, key `k` that of the instant `8 - k` days before today |
| UsageSeries.TrailingDaysConsecutive | src/index.ts:388-390 | the nine keys are those of consecutive Colombo days, from eight days ago through today |
| UsageSeries.TrailingQueryWindowDays | src/index.ts:394-396 | the query selects exactly the instants on one of those nine Colombo days |
| UsageSeries.TrailingWindowEnds | src/index.ts:394-397 | the query window runs from local midnight eight days ago to local midnight after today |
| UsageSeries.GetMonthlyUsageTrailing | src/index.ts:383-421 | nine points keyed by the trailing days, each the value of the last row of that day, or 0 |
| UsageSeries.GetMonthlyUsageCalendar | src/index.js:263-286 | one point per day of the reference's Colombo month, keyed by the month's day keys, each the value of the last row of that day, or 0 |
| Session.IsUnauthorized | src/index.ts:348-350 | no contract of its own: status 401 or 403; `Session.FetchOtherStatusFailsAtOnce` and `Session.FetchFallsBack` state that exactly these statuses lead to the re-login |
| Session.CanAutoLogin | src/index.ts:298-300 | no contract of its own: a non-empty user name and a non-empty password; `Session.LoginNeedsCredentials`, `Session.LoginSendsOneForm` and `Session.FetchWithoutAutoLogin` state what depends on it |
| Session.CandidateTokens | src/index.ts:229-235 | no contract of its own: the filtered, deduplicated pair of the cached and the configured token; `Session.CandidateTokensCases`, `Session.CandidateTokensMembers` and `Session.CandidateTokensFirst` state its value |
| Session.UsableIsTrimmedNonEmpty | src/index.ts:229-235 | a candidate is kept exactly when it is a string with a non-empty `trim()` |
| Session.DistinctSpec | src/index.ts:229-235 | `Array.from(new Set(s))` keeps every string of `s` and no other, each once, and never lengthens `s` |
| Session.DistinctFirst | src/index.ts:229-235 | deduplication keeps the first string in front |
| Session.CandidateTokensOfPair | src/index.ts:229-235 | the candidate list written out for the pair of the cached and the configured token |
| Session.CandidateTokensCases | src/index.ts:229-235 | the candidate list is the cached and the configured token when both are usable and differ, else whichever one is usable, else empty |
| Session.CandidateTokensMembers | src/index.ts:229-235 | the candidates are exactly the usable ones of the cached and the configured token, without repeats |
| Session.CandidateTokensFirst | src/index.ts:229-235 | the cached token comes first when usable; otherwise the list is the configured token when usable, or empty |
| Session.LoginNeedsCredentials | src/index.ts:303-305 | without both a user name and a password, the login fails with "Missing SLT_USERNAME or SLT_PASSWORD secret" and sends nothing |
| Session.LoginSendsOneForm | src/index.ts:307-311 | with credentials, exactly one form is sent, with `channelID` defaulting to "WEB" |
| Session.LoginRequestCount | src/index.ts:302-346 | a login sends at most one request |
| Session.LoginRejected | src/index.ts:333-336 | a non-2xx login answer fails with its status and body |
| Session.LoginTokenTrimmed | src/index.ts:338-345 | a successful login is a 2xx answer with an access token; the result is that token trimmed, which is non-empty and neither starts nor ends with whitespace |
| Session.LoginAcceptsToken | src/index.ts:338-345 | with credentials, a 2xx answer whose token is not blank succeeds with that token trimmed |
| Session.LoginNoAccessToken | src/index.ts:339-343 | with credentials, a 2xx answer without a token or with a blank one fails with "SLT login response did not include an accessToken" |
| Session.LoginTokenIsFirstCandidate | src/index.ts:229-235 | a token returned by a login is its own trim and usable, so once cached (lines 132 and 265) it is the first candidate of the next fetch, unchanged |
| Session.PerformSltLogin | src/index.ts:302-346 | the result and the login requests are those of `LoginSpec`, and no usage request is made |
| Session.Upstream.RequestUsageSummary | src/index.ts:276-296 | the answer is the endpoint's answer to this request at its position in the log; the request is appended to the usage log |
| Session.Upstream.RequestLogin | src/index.ts:313-331 | the answer is the endpoint's answer to this form at its position in the log; the form is appended to the login log |
| Session.FetchNeedsSubscriber | src/index.ts:224-227 | without a subscriber id the call fails with "Missing SLT_SUBSCRIBER_ID" before any request, and the cache is unchanged |
| Session.FetchFirstAccepted | src/index.ts:239-244 | a 2xx answer to the first candidate returns its payload, caches that candidate, and makes no other request |
| Session.FetchOtherStatusFailsAtOnce | src/index.ts:246-250 | a first answer that is neither 2xx nor 401/403 fails at once with its status and body, with no login |
| Session.FetchWithoutAutoLogin | src/index.ts:254-262 | without credentials, a rejected candidate fails with its status and body, and no candidate at all fails with "No SLT auth token available" after zero requests |
| Session.FetchLoginFails | src/index.ts:264 | a failed re-login fails the call with the login's error and leaves the cache unchanged |
| Session.FetchRetry | src/index.ts:264-273 | after a successful re-login the fresh token is cached whatever the retry answers, exactly one retry is made, and a non-2xx retry fails "after re-login" with the retry's status |
| Session.FetchFallsBack | src/index.ts:251-254 | after a 401/403, or with no candidate, the call is decided by the re-login tail |
| Session.FetchReloginLogsInOnce | src/index.ts:264 | with credentials, a rejected or missing first candidate leads to exactly one login request |
| Session.FetchRequestBounds | src/index.ts:223-274 | one call makes at most one login request and at most two usage requests |
| Session.FetchTriesFirstCandidateOnly | src/index.ts:239-252 | only the first candidate is requested; a second usage request carries the token from the login, which ends up cached |
| Session.FetchCachesWorkingToken | src/index.ts:242 | a fetched payload comes with the last token sent cached |
| Session.FetchCacheChanges | src/index.ts:242 | the cache is either unchanged or set to the last token sent |
| Session.SltClient.FetchUsagePayload | src/index.ts:223-274 | the result, the new `cachedAccessToken` and both request logs are exactly those `FetchSpec` gives for the old cache, the candidate list and the endpoints' answers |
| Session.SltClient.Reauthenticate | src/index.ts:254-273 | the re-login tail: its result, cache and requests are those of `Fallback` |
| Session.SltClient.LoginNow | src/index.ts:129-140 | a successful login caches its token and answers `loggedIn: true`; a failed one leaves the cache unchanged and answers `loggedIn: false` with the error |
| Poller.UsageLog.Insert | src/index.ts:212-218 | the insert appends exactly one record to the log |
| Poller.RecordOutcome | src/index.ts:206-210 | no contract of its own: what `recordUsage` does with the fetched payload before the insert; the three lemmas below state its value |
| Poller.RecordOnlySuccessfulPayloads | src/index.ts:205-210 | a record is produced exactly when the fetch succeeds and the payload's `isSuccess` is true |
| Poller.RecordIsTransformed | src/index.ts:210 | the record is the payload's transformation, stamped `now` and keeping the payload |
| Poller.RecordFailureMessage | src/index.ts:206-209 | a failed fetch keeps its message, and an unsuccessful payload fails with `ErrorMessage` |
| Poller.RecordUsage | src/index.ts:205-221 | one fetch as `FetchSpec` gives it, then exactly one insert of the returned record when the payload is successful, and none otherwise |

## Left out

- The HTTP routing and response building are not modelled, because they are request plumbing
  around the core. These are `fetch`, `scheduled`, `triggerNow`, `getUsage`,
  `getTodaysUsageRow`, `renderHome` and the 400 answer of `getIntraday`.
  `src/dashboard.ts` and `src/dashboard.js` are not part of this model.
- The real `fetch` calls, URLs and request headers are left out. Each endpoint is an oracle
  from the request number and the request to a response.
- A `fetch` that rejects, such as a network error in `requestUsageSummary` or the login
  request, is not modelled: the oracles always answer. In the source such a rejection in
  the retry leaves `cachedAccessToken` already set to the fresh token (src/index.ts:265).
  The model does not capture that state.
- A body that is not valid JSON is left out: `response.json()` is assumed to parse. An
  access token that is not a string, whose `trim()` would throw, is left out too.
- `getErrorMessage` is left out. A failure carries the `Error` message directly.
- The D1 SQL is left out: the queries, the ISO-string range filters and `ORDER BY`. The
  series take the rows the query returns, with each timestamp already converted to an
  instant. The results about values assume the rows are in timestamp order, as `ORDER BY`
  promises.
- Parsing ISO timestamps is left out. A missing or empty timestamp is `None`. An
  unparseable one, which would give an Invalid Date, is not modelled.
- `new Date()`, `Date.now()` and `toISOString()` are parameters.
- JavaScript `Number(string)` is the parameter `toNumber`, because it is floating-point
  parsing. `Number("")` is 0, so an empty string counts as a finite volume whenever
  `toNumber` says so.
- `Intl.DateTimeFormat` is modelled only as the fixed UTC+05:30 offset, so the historical
  offsets of the Asia/Colombo zone are not modelled. The day key writes the year as
  `String(year)`.
- ColomboTime.ParseDayKeyRoundTrip and ColomboTime.ParseFormatRoundTrip are proved for the
  years 1000 to 9999 only. The limit comes from formatting, not parsing: `String(year)`
  writes other years with fewer or more than the four digits that the
  `parseColomboDayParam` pattern accepts. Parsing itself is covered for every year from 0
  to 9999 by `ColomboTime.ParseValidDate`.
- Dates beyond ECMAScript's ±8.64e15 ms range are left out: the model's calendar is
  unbounded.
- The unlocked race on `cachedAccessToken` between the cron and on-demand triggers is not
  modelled, because it is concurrency.
- Session.SltClient.FetchUsagePayload: the `break` after a 401 or 403 is written as the loop
  guard `lastFailure.None?`, which has the same effect. The re-login tail is the separate
  method `Session.SltClient.Reauthenticate`.
- Session.LoginSpec tests the token with `IsBlank` rather than the emptiness of the trimmed
  token. `Session.UsableIsTrimmedNonEmpty` and `Text.TrimSpec` show the two tests agree.
- ColomboTime.ColomboDayBounds and ColomboTime.ColomboMonthBounds use the corrected
  `Date.UTC`, which keeps years 0 to 99 as written (first finding below). The monthly
  series label days with the corrected `formatDayLabel` (second finding below).
- On the ordering of error messages, the code is followed: `??` keeps an empty
  `errorMessage`, where a first non-empty message might have been expected.

## Findings

| source | as written | input that shows it | evidently intended | confidence | as-written member | corrected member |
|---|---|---|---|---|---|---|
| src/index.ts:514-515 | `Date.UTC(year, month, day)` reads a year from 0 to 99 as 1900 + year, so `getColomboDayBounds` gives bounds 1900 years later; `getColomboMonthBounds` (src/index.ts:492-498) calls `Date.UTC` the same way | a reference at local midnight of 0050-06-15 gets bounds on 1950-06-15, which do not contain it | bounds of the reference's own Colombo day for every year | not executed | ColomboTime.DayBoundsAsWrittenMissTwoDigitYears | ColomboTime.ColomboDayBoundsShape |
| src/index.ts:523-526 | `formatDayLabel` reads the key's Colombo midnight with `toLocaleDateString` in the host's time zone; in UTC that instant is 18:30 of the previous day | on a UTC host the key 2024-03-15 is labelled "14" | the key's own day of the month, "15" | not executed | ColomboTime.DayLabelOnUtcHostIsPreviousDay | ColomboTime.DayLabelOfDayKey |
