# Power outage detector — a verified model

The power outage detector polls the PGE distribution company's outage service once per configured hour of the day. For each poll it:

- logs the HTTP request to a daily log file;
- validates the JSON answer into typed outage records, falling back to the text body when the JSON body fails;
- looks for the configured street in each record's description and addresses;
- sends one notification e-mail, about the first record that mentions the street.

This project models the core of that pipeline in Dafny and proves what it promises.

| file | module | what it holds |
|---|---|---|
| `wrappers.dfy` | `Wrappers` | `Option` and `Result`. A `Failure` is the `ValueError` the Python code raises, carrying its message. |
| `text.dfy` | `Text` | The string built-ins the code relies on: `str(n)`, `int(s)` on digit strings, `str.isdigit`, zero-padded `strftime` fields, `split`, `join`, `strip`, `lower` and `in`. |
| `clock.dfy` | `Clock` | `datetime.date` and `datetime.datetime` as records of fields. |
| `http_client.dfy` | `HttpClient` | The `RequestResult` record. |
| `response_models.dfy` | `ResponseModels` | The response validator, from a decoded JSON value to `OutageRecord`s. |
| `config.dfy` | `Config` | `parse_hours` and `_read_int`. |
| `log_writer.dfy` | `LogWriter` | Log file names, levels, entry layout, and the append-only log directory (class `LogStore`). |
| `emailer.dfy` | `Emailer` | The remaining-time text, the address listing and the e-mail body. |
| `app.dfy` | `App` | One check (`_send_req_and_email`) as a trace of events. The hourly schedule with its `last_sent` deduplication (class `Scheduler`). |

How effects are modelled:

- **Fetching, logging and e-mailing** are `App.Event` values, appended to a trace in the order the service performs them. This lets counts and order be stated: one fetch per due hour, at most one e-mail, and the parse-error entry exactly when parsing gave nothing.
- **The log directory** is a map from path to file contents, and `_append_entry` only ever extends a file.
- **Library calls become parameters of the operations that use them:**
  - `json.loads` is `decode`;
  - `json.dumps` is `dumps`;
  - `strptime` is `parseTime`;
  - `send_request` is `fetch`.
- **Times** inside the e-mailer are integers counting microseconds.

## Model

| member | source | states |
|---|---|---|
| `ResponseModels.RequireDict` | src/response_models.py:29-32 | Succeeds exactly on a JSON object, returning its fields. Otherwise it fails with "<label> must be an object". |
| `ResponseModels.RequireList` | src/response_models.py:35-38 | Succeeds exactly on a JSON list, returning its items. Otherwise it fails with "<label> must be a list". |
| `ResponseModels.GetStr` | src/response_models.py:41-48 | A string is kept. `None` gives `None` when optional and "<label> is required" when required. Any other value fails with "<label> must be a string". |
| `ResponseModels.GetRequiredStr` | src/response_models.py:41-48 | The required form: succeeds exactly on a string, with the same two error messages. |
| `ResponseModels.GetBool` | src/response_models.py:51-54 | Succeeds exactly on a JSON boolean, `None` included among the refusals. The error is "<label> must be a boolean". |
| `ResponseModels.ParseAddress` | src/response_models.py:57-72 | `_parse_address`, reading the fields in the source's order. What it accepts is stated by `ParseAddressAcceptsSchema`; it inverts the JSON rendering by `ParseAddressRoundTrip`. |
| `ResponseModels.ParseEach` | src/response_models.py:89-110 | The list comprehensions over a parser. It is all or nothing, as `ParseEachAllOrNothing` states. |
| `ResponseModels.ParseRecord` | src/response_models.py:75-98 | `_parse_record`, with its checks in the source's order. What it accepts is stated by `ParseRecordAcceptsSchema`, and what it keeps by `ParseRecordCopiesFields`. |
| `ResponseModels.ParseOutageResponse` | src/response_models.py:101-110 | `parse_outage_response`, stated by `NoneIsNoRecords`, `NonListIsRefused`, `StringDecodingToNullIsRefused`, `ResponseAllOrNothing` and `ParseResponseRoundTrip`. |
| `ResponseModels.ParseEachAllOrNothing` | src/response_models.py:89 | A list comprehension over a parser succeeds iff every element parses. It then yields one value per element, in order. Otherwise its error is that of the first failing element. |
| `ResponseModels.ParseAddressAcceptsSchema` | src/response_models.py:57-72 | An address parses iff it is an object whose `numbers` is absent, null or a string, and whose `teryt` is absent, null, or an object with an absent, null or string `streetName`. |
| `ResponseModels.ParseRecordAcceptsSchema` | src/response_models.py:75-98 | A record parses iff it is an object and all of these hold: `description`, `startAt` and `stopAt` are strings; `revoked` is a boolean; `revokedDescription` is absent, null or a string; `addresses` is a list of well-formed addresses. |
| `ResponseModels.ParseRecordCopiesFields` | src/response_models.py:91-98 | A parsed record carries the input's field values unchanged. It has one address per element of `addresses`, and the i-th address is the parse of the i-th element. |
| `ResponseModels.ParseAddressCopiesFields` | src/response_models.py:57-72 | A parsed address keeps `numbers` as given. It has no teryt exactly when `teryt` is absent or null; otherwise it keeps the teryt object's `streetName` as given. |
| `ResponseModels.NoneIsNoRecords` | src/response_models.py:101-103 | A `None` payload yields an empty record list, not an error. |
| `ResponseModels.NonListIsRefused` | src/response_models.py:105-109 | A decoded payload that is not a list fails with "response must be a list". |
| `ResponseModels.StringDecodingToNullIsRefused` | src/response_models.py:102-109 | The `None` test precedes decoding, so a string that decodes to `null` is refused rather than read as no records. |
| `ResponseModels.ResponseAllOrNothing` | src/response_models.py:109-110 | A list payload succeeds iff every element is a well-formed record. It then yields one record per element, in order; otherwise no partial list is returned. |
| `ResponseModels.RecordAbsentKeyIsNull` | src/response_models.py:76-88 | Removing any key from a record object and setting it to `null` give the same parse result, because every lookup is `dict.get`. |
| `ResponseModels.AddressAbsentKeyIsNull` | src/response_models.py:58-66 | The same for an address object. |
| `ResponseModels.DescriptionErrors` | src/response_models.py:75-79 | A non-string `description` fails the record: absent or null gives "record.description is required", any other value gives "record.description must be a string". |
| `ResponseModels.StartAtErrors` | src/response_models.py:75-78 | With `description` good, a non-string `startAt` fails the record: absent or null gives "record.startAt is required", any other value gives "record.startAt must be a string". |
| `ResponseModels.StopAtErrors` | src/response_models.py:75-79 | With `description` and `startAt` good, a non-string `stopAt` fails the record with "record.stopAt is required" or "record.stopAt must be a string" in the same way. |
| `ResponseModels.RevokedMustBeBool` | src/response_models.py:75-80 | With the three strings good, an absent, null or non-boolean `revoked` fails with "record.revoked must be a boolean". |
| `ResponseModels.AddressesMustBeList` | src/response_models.py:87-89 | An absent or null `addresses` fails with "record.addresses must be a list". An empty list is accepted and gives no addresses. |
| `ResponseModels.TerytRules` | src/response_models.py:61-70 | `teryt` absent or null gives an address without teryt. A present non-object `teryt` fails with "address.teryt must be an object". |
| `ResponseModels.ParseAddressRoundTrip` | src/response_models.py:57-72 | Rendering an address as JSON and validating it gives the address back. |
| `ResponseModels.ParseRecordRoundTrip` | src/response_models.py:75-98 | Rendering a record as JSON and validating it gives the record back. |
| `ResponseModels.ParseResponseRoundTrip` | src/response_models.py:101-110 | Rendering a record list as a JSON list and validating it gives the list back. |
| `Config.Parts` | src/config.py:20 | One part per comma-separated piece of the input, each being that piece stripped. |
| `Config.PartError` | src/config.py:25-29 | A part that is not all digits raises "Invalid hour value: <part>". An all-digit part beyond 23 raises "Hour out of range: <value>". |
| `Config.ScanHours` | src/config.py:21-31 | What the loop has collected after a prefix of the parts, or the error it raised. Stated by `ScanSucceeds`, `ScanFirstError`, `ScanMembers` and `ScanOrder`. |
| `Config.ParsedHours` | src/config.py:19-34 | `parse_hours` as a function of its input. Stated by `ParseHoursSucceeds`, `ParseHoursResult`, `ParseHoursFirstError` and `ParseHoursNoHours`. |
| `Config.ScanParts` | src/config.py:21-31 | The loop over the parts computes the scan specification `ScanHours`. Its invariant is that the hours so far are the scan of the parts seen so far; a raise returns the scan's final error. |
| `Config.ParseHours` | src/config.py:19-34 | `parse_hours` computes `ParsedHours`, whose properties are the lemmas below. |
| `Config.ScanFailureSticks` | src/config.py:25-29 | Once a part has raised, later parts do not change the outcome. |
| `Config.ScanSucceeds` | src/config.py:22-31 | The loop finishes iff every part is empty, or all digits with a value of at most 23. |
| `Config.ScanFirstError` | src/config.py:22-29 | When the loop raises, the error is that of the first part that is not good. |
| `Config.ScanMembers` | src/config.py:27-31 | The collected hours are exactly the values of the non-empty parts, with no repeats. |
| `Config.OrderExtends` | src/config.py:30-31 | Appending an hour only when it is new keeps the hours in order of first occurrence. |
| `Config.ScanOrder` | src/config.py:30-31 | The collected hours keep the order in which their values first appear among the parts. |
| `Config.ScanOfEmptyParts` | src/config.py:22-24 | Empty parts are skipped and collect nothing. |
| `Config.ParseHoursSucceeds` | src/config.py:19-34 | `parse_hours` succeeds iff every stripped part is empty or an hour 0..23 in digits, and at least one part is non-empty. |
| `Config.ParseHoursResult` | src/config.py:19-34 | A result is non-empty, lies in 0..23 and has no repeats. It holds exactly the values of the parts, in order of first occurrence. |
| `Config.ParseHoursFirstError` | src/config.py:22-29 | The error raised is that of the first bad part. |
| `Config.ParseHoursNoHours` | src/config.py:32-33 | When all parts are empty, the error is "No valid HOURS provided". |
| `Config.NegativeHourIsInvalid` | src/config.py:25-29 | A part starting with "-" is not a digit string, so it is an invalid value, never an out-of-range hour. The `hour < 0` test cannot fire. |
| `Config.ParseHoursMinusSign` | src/config.py:20-26 | A single signed part such as "-3" raises "Invalid hour value: -3". |
| `Config.ParseHoursBlank` | src/config.py:20-33 | A value of only commas and white space, such as "" or ",,", raises "No valid HOURS provided". |
| `Config.RepeatParts` | src/config.py:20 | "x, y,x" splits and strips to the parts x, y, x. |
| `Config.ScanRepeat` | src/config.py:30-31 | Scanning the parts x, y, x for two distinct hours collects x once, before y. |
| `Config.ParseHoursRepeat` | src/config.py:19-34 | `parse_hours("x, y,x")` with distinct hours x and y returns [x, y]; for example "8, 6,8" gives [8, 6]. |
| `Config.ReadInt` | src/config.py:37-46 | Absent or "" gives the default. A non-digit value fails with "<name> must be an integer". A digit value outside the bounds fails with "<name> out of range". Otherwise the result is `int(value)`, which lies within the bounds; leading zeros are allowed. |
| `Config.ReadIntRoundTrip` | src/config.py:41-46 | A number within the bounds, written in decimal, reads back as itself. |
| `Config.ReadIntDefaults` | src/config.py:63-65 | The settings default to 30, 10 and 7 when unset or empty. `INTERVAL_DAYS=0` is out of range. |
| `LogWriter.Timestamp` | src/log_writer.py:53 | For a valid date-time, the `%Y-%m-%d %H:%M:%S` stamp has 19 characters with its separators in place. Each of its six digit fields reads back as the date-time's year, month, day, hour, minute and second. |
| `LogWriter.LogFileName` | src/log_writer.py:11-12 | The name starts with a digit. For a valid date it is 16 characters: three digit fields that read back as the year, month and day, then "-log.txt". |
| `LogWriter.LogFileNameSameDay` | src/log_writer.py:11-12 | Two valid date-times get the same file name iff they fall on the same calendar day. |
| `LogWriter.JoinPath` | src/log_writer.py:49 | `os.path.join` of a relative name: the directory, then the name. Exactly one '/' goes between them, and only when the directory is non-empty and does not already end in '/'. |
| `LogWriter.LogPathSameDay` | src/log_writer.py:48-49 | In one directory, two valid date-times log to the same file iff they fall on the same day. |
| `LogWriter.FormatStatus` | src/log_writer.py:15-18 | "ERROR" exactly for a missing status code, otherwise the code in decimal. |
| `LogWriter.FormatStatusInjective` | src/log_writer.py:15-18 | Different status values are rendered differently. |
| `LogWriter.LogLevel` | src/log_writer.py:21-28 | Always "ERROR" or "INFO". It is "ERROR" iff the error is non-empty, the status is missing, or the status is at least 400. |
| `LogWriter.Separator` | src/log_writer.py:32-34 | A leading newline is written exactly when the file already has contents. |
| `LogWriter.EntryText` | src/log_writer.py:38-42 | The entry `_append_entry` writes after the separator. Its layout is stated by `EntryTextIsLines` and `EntryReadsBack`. |
| `LogWriter.Appended` | src/log_writer.py:36-42 | The old contents are a prefix of the new ones. What follows them is the separator, then the entry. |
| `LogWriter.AppendedEndsWithNewline` | src/log_writer.py:36-42 | After an append the file ends with a newline. |
| `LogWriter.EntryTextIsLines` | src/log_writer.py:38-42 | The entry is the lines joined by "\n", then "\n\n", then the body and "\n" only when the body is non-empty. |
| `LogWriter.EntryReadsBack` | src/log_writer.py:38-42 | With single-line lines and body, splitting an entry at newlines gives back the lines, a blank line and the body. |
| `LogWriter.LogLines` | src/log_writer.py:51-59 | Four lines: header with level, `requested_at=`, `url=`, `status_code=`. A fifth `error=` line appears iff the error is non-empty. |
| `LogWriter.LogBody` | src/log_writer.py:61-65 | The JSON rendering when there is a JSON body, else the text body, else "". |
| `LogWriter.HeaderLine` | src/log_writer.py:53 | The header line starts with the timestamp, followed by " [", the level and "] ", trailing space included. |
| `LogWriter.MessageLines` | src/log_writer.py:83-86 | Two lines: the timestamp-and-level header of `HeaderLine`, then the message. |
| `LogWriter.LogStore.constructor` | src/log_writer.py:46 | An empty log directory. |
| `LogWriter.LogStore.AppendEntry` | src/log_writer.py:31-42 | Only the named file changes, becoming `Appended` of its old contents, which therefore remain a prefix. |
| `LogWriter.LogStore.WriteLog` | src/log_writer.py:45-68 | Appends `LogLines` and `LogBody` to the file of the request's day and returns that path. |
| `LogWriter.LogStore.WriteMessage` | src/log_writer.py:71-89 | Appends the header and message, with no body, to the file of the day and returns that path. |
| `Emailer.RemainingMicros` | src/emailer.py:19-24 | The time up to the start while the outage is ahead, up to the stop while it is under way, and zero after. Never negative. |
| `Emailer.Decompose` | src/emailer.py:26-29 | days·1440 + hours·60 + minutes equals the total number of minutes, with hours < 24 and minutes < 60. |
| `Emailer.SpanText` | src/emailer.py:31-33 | The rendered days, hours and minutes. `DaysShownOnlyFromOneDay` and `SpanTextInjective` state it. |
| `Emailer.FormatRemaining` | src/emailer.py:15-33 | `_format_remaining` once the times are read. Stated by `RemainingMicros`, `Decompose`, the injectivity lemmas and the two worked lemmas below. |
| `Emailer.DaysShownOnlyFromOneDay` | src/emailer.py:31-33 | The text starts with "dni: " iff at least one whole day remains. |
| `Emailer.HoursMinutesTextInjective` | src/emailer.py:32-33 | "godzin: H, minut: M" determines H and M. |
| `Emailer.DaysTextInjective` | src/emailer.py:32 | "dni: D, ..." determines D and the rest. |
| `Emailer.SpanTextInjective` | src/emailer.py:26-33 | Different numbers of whole minutes never render the same text. |
| `Emailer.RemainingBeforeStart` | src/emailer.py:19-32 | 25 h 5 min before the start, the text is "dni: 1, godzin: 1, minut: 5". |
| `Emailer.RemainingUnderWay` | src/emailer.py:21-33 | During the outage, 90 min before its end, the text is "godzin: 1, minut: 30". |
| `Emailer.OrBrak` | src/emailer.py:45-46 | A missing or empty value renders as "(brak)", anything else as itself. |
| `Emailer.AddressLine` | src/emailer.py:42-47 | The line for one address. `AddressLineIsSingleLine` and `AddressListingLines` state it. |
| `Emailer.AddressLines` | src/emailer.py:40-47 | One line per address, in input order. Line k reads "k. Ulica: <street>, numery: <numbers>" for the k-th address, counting from 1. |
| `Emailer.AddressesText` | src/emailer.py:36-49 | What `_format_addresses` returns. It is computed by `FormatAddresses` and split back into its lines by `AddressListingLines`. |
| `Emailer.FormatAddresses` | src/emailer.py:36-49 | The loop computes `AddressesText`: "Brak adresow" for no addresses, otherwise the numbered lines joined by "\n". |
| `Emailer.AddressLineIsSingleLine` | src/emailer.py:47 | An address line whose labels have no line break has none itself. |
| `Emailer.AddressListingLines` | src/emailer.py:40-49 | With single-line labels, the listing splits at newlines into exactly the lines "k. Ulica: ..., numery: ...", numbered 1..n in input order, with no trailing empty line. |
| `Emailer.RevokedLabel` | src/emailer.py:55 | "Tak" iff revoked, "Nie" iff not. |
| `Emailer.EmailText` | src/emailer.py:57-70 | The body text once the remaining time is known. Its layout is not proved (see Left out). |
| `Emailer.BuildEmailBody` | src/emailer.py:52-70 | `build_email_body`, failing as `strptime` fails. `EmailBodyFailsOnlyOnTimes` states when. |
| `Emailer.EmailBodyFailsOnlyOnTimes` | src/emailer.py:52-70 | Building the body fails iff one of the two times fails to parse. |
| `App.ParseWithFallback` | src/app.py:33-41 | When the JSON body parses, its records are the result. |
| `App.FallbackFailsIff` | src/app.py:33-41 | The parse gives nothing iff the JSON body fails and the text body is empty, missing or fails too. |
| `App.FallbackAfterJsonFails` | src/app.py:36-41 | After a JSON failure, an empty or missing text body gives nothing. Otherwise the text body alone decides the outcome. |
| `App.NullBodyMeansNoRecords` | src/app.py:33-35 | A `None` JSON body yields no records: no fallback and no error. |
| `App.ConsistentBodyFallbackNeverRescues` | src/app.py:33-41 | When the text body decodes to the JSON body itself, the fallback cannot turn a failure into a success. |
| `App.SearchTerm` | src/app.py:52 | `street_name.strip().lower()`. |
| `App.InDescription` | src/app.py:55 | The term occurs in the lower-cased description. |
| `App.InStreet` | src/app.py:56-61 | Some address has a present, non-empty TERYT street name containing the term. |
| `App.Hit` | src/app.py:77 | The description or a street name contains the term. |
| `App.HitMessagesDiffer` | src/app.py:62-75 | The description-hit and street-hit INFO messages differ for every street name. |
| `App.RecordEvents` | src/app.py:55-96 | No events without a hit. The description INFO appears iff the description contains the term; the street INFO appears iff some address's non-empty teryt street name contains it. Each appears once, nothing else is logged, and the description entry comes before the street entry. Any hit ends with the single e-mail. |
| `App.FirstHit` | src/app.py:54-96 | The first record with a hit: no earlier record has one. |
| `App.Dispatch` | src/app.py:54-96 | The records loop as a function. `DispatchSkipsMisses`, `DispatchNoHit`, `DispatchFirstHit`, `DispatchIgnoresLaterRecords` and `DispatchEmails` state it. |
| `App.DispatchSkipsMisses` | src/app.py:54-96 | Records without a hit contribute nothing, and the loop goes on past them. |
| `App.DispatchNoHit` | src/app.py:54-96 | Without a hit, the loop logs and sends nothing. |
| `App.DispatchFirstHit` | src/app.py:54-96 | With a hit, the loop's events are those of the first record with one. |
| `App.DispatchIgnoresLaterRecords` | src/app.py:96 | Records after the first hit are never examined. |
| `App.DispatchEmails` | src/app.py:77-96 | The loop sends at most one e-mail, about the first record with a hit, and none without a hit. |
| `App.RecordEmails` | src/app.py:77-96 | A record with a hit yields exactly one e-mail, about itself. |
| `App.RecordEventsAreInfoOrEmail` | src/app.py:62-95 | An examined record yields only INFO entries and e-mails. |
| `App.DispatchOnlyInfoAndEmail` | src/app.py:54-96 | The loop neither fetches nor logs a parse error. |
| `App.ExamineRecord` | src/app.py:55-83 | One pass of the loop body: its events are `RecordEvents`, and it reports whether there was a hit. |
| `App.DispatchRecords` | src/app.py:54-96 | The loop with `break` computes `Dispatch`. Its invariant is that no record before the current one has a hit. |
| `App.ParseResponse` | src/app.py:33-41 | The try/except computes `ParseWithFallback`. |
| `App.SendReqAndEmail` | src/app.py:18-96 | One check's events are `Process`: fetch, request log, parse-error entry, matching. |
| `App.CheckEvents` | src/app.py:25-96 | The events of one check, given the fetch's result and the parse outcome. Stated by `CheckFetchesOnce`, `ParseErrorLoggedIff` and `CheckEmails`. |
| `App.Process` | src/app.py:18-96 | One check as a function of the fetch's result, parsing with the fallback. It is computed by `SendReqAndEmail`. |
| `App.CheckEventsFilter` | src/app.py:25-96 | Selecting from a check's events selects from its three stages in order. |
| `App.MatchEventsFilter` | src/app.py:51-96 | The matching stage neither fetches nor logs a parse error. It e-mails exactly about the first hit, given parsed records and a non-empty search term. |
| `App.RequestStageFilter` | src/app.py:25-32 | The fetch stage is one fetch and its log entry. |
| `App.ParseErrorStageFilter` | src/app.py:43-49 | The parse-error stage holds only the ERROR entry. |
| `App.CheckOpens` | src/app.py:25-32 | A check starts with the fetch, then its log entry. |
| `App.CheckFetchesOnce` | src/app.py:25-32 | A check fetches exactly once, first, and logs the request next. |
| `App.ParseErrorLoggedIff` | src/app.py:43-49 | "Failed to parse response." is logged exactly once when the parse gave nothing, and never otherwise. |
| `App.CheckEmails` | src/app.py:51-96 | At most one e-mail per check. One is sent iff the parse gave records, the search term is non-empty and some record has a hit; it is about the first such record. |
| `App.Due` | src/app.py:107 | The hour is the current hour and `last_sent` does not hold today for it. |
| `App.AfterTick` | src/app.py:106-114 | `last_sent` after a pass. `TickClosedForm` and `TickStampsOnlyCurrentHour` state it. |
| `App.TickEvents` | src/app.py:106-114 | The events of a pass. `TickClosedForm`, `TickFetchesAtMostOnce` and `SecondTickIsIdle` state them. |
| `App.TickClosedForm` | src/app.py:106-114 | A pass over the hours runs a check only for the current hour, when it is configured and not yet stamped with today. When the check returns, that hour is stamped with today's date, whatever the check found. |
| `App.TickStampsOnlyCurrentHour` | src/app.py:106-114 | Entries of other hours are unchanged. The current hour, when configured, holds today's date after the pass. |
| `App.TickFetchesAtMostOnce` | src/app.py:106-114 | A pass fetches at most once. It fetches exactly once iff the current hour is configured and has not run today. |
| `App.SecondTickIsIdle` | src/app.py:107-114 | After a pass, any later pass in the same hour of the same day changes nothing and fetches nothing. |
| `App.Scheduler.constructor` | src/app.py:100-102 | Nothing sent yet: `last_sent` is empty and the trace is empty. |
| `App.Scheduler.Tick` | src/app.py:104-114 | One pass of the `run_loop` body. `last_sent` becomes `AfterTick` of its old value, and the trace gains exactly `TickEvents`; what those hold is stated by the lemmas above. |
| `Text.NatToStringRoundTrip` | src/config.py:27 | `int(str(n)) == n`. |
| `Text.NatToStringInjective` | src/log_writer.py:18 | Different numbers are written differently. |
| `Text.IntToStringRoundTrip` | src/log_writer.py:18 | A status code written in decimal, sign included, reads back as itself. |
| `Text.PadFits` | src/log_writer.py:12 | A zero-padded field of a number that fits has exactly the field's width and reads back as the number. |
| `Text.JoinSplit` | src/emailer.py:49 | Joining the parts of a split at a character rebuilds the string. |
| `Text.SplitJoin` | src/emailer.py:49 | Splitting a join of separator-free strings gives the strings back. |
| `Text.StripPlain` | src/config.py:20 | A string that neither starts nor ends with white space is unchanged by stripping. |
| `Text.StripLeadingSpace` | src/config.py:20 | Stripping drops leading white space. |

## Left out

- **Transport** (`src/http_client.py`): `send_request`, `build_params`, `build_request_url` and the HTTP session are not modelled. A check receives the fetch as a function from the current time to a `RequestResult`.
- **`send_email`**: the SMTP exchange, including its logging on the TLS path, is I/O. Sending is the `EmailSent(record)` event.
- **Library parsing and formatting**: `json.loads`, `json.dumps` and `strptime` are parameters (`decode`, `dumps`, `parseTime`), so their own behaviour is not modelled.
- **`App.ParseWithFallback` and non-JSON bodies**: `RequestResult.json_body` is `None` both when the body is not JSON and when it is JSON `null`. The code then returns `[]` with no fallback and no error entry, rather than parsing the text body. The model follows the code (`App.NullBodyMeansNoRecords`).
- **`Emailer.RemainingMicros`**: works on integer microseconds, not on the float `timedelta.total_seconds()`. The delta is never negative, so flooring to whole minutes agrees with the source.
- **`Emailer.EmailText`**: the body's line-by-line layout is defined but not proved. Only its labels (`RevokedLabel`, `OrBrak`), the remaining-time text and the address listing are.
- **The outer loop**: the `while True` loop of `run_loop`, `time.sleep`, `datetime.now()`, `main` and `KeyboardInterrupt` are not modelled. A pass takes `now` as an input.
- **`load_config`**: the `AppConfig` record, `load_dotenv`, the `os.getenv` reads, the `HOURS`/`CITY_SYM` presence checks and the `CITY_SYM` digit check are not modelled. `Config.ReadInt` takes the variable's value as an `Option<string>`.
- **File system**: `os.makedirs`, `os.path.exists` and `getsize`, and `open` are not modelled. The directory is a map, and a missing file reads as empty.
- **`Text.IsDigit`**: accepts ASCII digits only. Python's `isdigit` and `int` also accept other Unicode digits.
- **`Text.LowerChar`**: lower-cases ASCII letters and the Polish capitals only. Other characters are unchanged.
- **`Text.Pad`**: `LogWriter.Timestamp` and `LogWriter.LogFileName` zero-pad the year to four digits. Years below 1000, which the platform's `%Y` may print unpadded, are not distinguished.
- `App.SendReqAndEmail` and `App.Scheduler.Tick` assume the notify step returns. In the source, `build_email_body` raises `ValueError` when `startAt` or `stopAt` is not in `%Y-%m-%d %H:%M:%S`, and `send_email` can raise from `smtplib.SMTP` or `starttls`. Neither is caught by `_send_req_and_email` or `run_loop`. The hour then goes unstamped and the loop ends. The model always records `EmailSent` and stamps the hour. `Emailer.BuildEmailBody` models the first failure on its own.
- **Configuration fields**: `_send_req_and_email` reads `street_name`, `city_name` and `smtp_*` from a configuration record that does not define them, and calls `build_email_body` with four arguments where three are accepted. The model takes the street name as an input and does not model the call's arity.
- **`Clock.DateTime.Valid`**: month lengths and leap years are not checked. Only the field ranges are.
