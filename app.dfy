/** The polling service: one check of the outage service (fetch, log,
    parse with a text fallback, match the configured street, notify about
    the first matching outage) and the hourly schedule that runs a check
    at most once per configured hour and calendar day.

    Fetching, logging and e-mailing are recorded as events in a trace,
    in the order the service performs them. The street name is an input:
    the configuration record does not carry it, and the notification step
    is the `EmailSent` event rather than a call with the body. */
module App {
  import opened Wrappers
  import opened Text
  import opened Clock
  import opened ResponseModels
  import opened HttpClient

  /** What the service does, in order. */
  datatype Event =
    | Fetched(at: DateTime)                                  // send_request
    | RequestLogged(result: RequestResult)                   // write_log
    | MessageLogged(at: DateTime, level: string, message: string) // write_message
    | EmailSent(record: OutageRecord)                        // build_email_body + send_email

  const ParseFailedMessage: string := "Failed to parse response."

  function DescriptionHitMessage(streetName: string): string {
    "Outage in " + streetName + "! Found in description!"
  }

  function StreetHitMessage(streetName: string): string {
    "Outage in " + streetName + "! Found in street name!"
  }

  // ---------------------------------------------------------------------
  // Counting events
  // ---------------------------------------------------------------------

  /** The events `keep` selects, in trace order. */
  function Filter(events: seq<Event>, keep: Event -> bool): (r: seq<Event>)
    ensures |r| <= |events|
    ensures forall e :: e in r ==> e in events && keep(e)
  {
    if events == [] then []
    else (if keep(events[0]) then [events[0]] else []) + Filter(events[1..], keep)
  }

  lemma {:induction false} FilterAppend(a: seq<Event>, b: seq<Event>, keep: Event -> bool)
    ensures Filter(a + b, keep) == Filter(a, keep) + Filter(b, keep)
  {
    if a != [] {
      assert (a + b)[1..] == a[1..] + b;
      FilterAppend(a[1..], b, keep);
    } else {
      assert a + b == b;
    }
  }

  lemma FilterNone(events: seq<Event>, keep: Event -> bool)
    requires forall i :: 0 <= i < |events| ==> !keep(events[i])
    ensures Filter(events, keep) == []
  {
    if events != [] {
      FilterNone(events[1..], keep);
    }
  }

  predicate IsFetch(e: Event) {
    e.Fetched?
  }

  predicate IsEmail(e: Event) {
    e.EmailSent?
  }

  predicate IsParseError(e: Event) {
    e.MessageLogged? && e.level == "ERROR" && e.message == ParseFailedMessage
  }

  // ---------------------------------------------------------------------
  // Parsing with the text fallback
  // ---------------------------------------------------------------------

  /** The records `_send_req_and_email` settles on: the JSON body parsed,
      or, when that raises and there is a text body, the text parsed;
      `None` when the path taken fails. */
  function ParseWithFallback(result: RequestResult, decode: string -> Result<Json, string>)
    : (parsed: Option<seq<OutageRecord>>)
    ensures (ParseOutageResponse(result.jsonBody, decode).Success?
             ==> parsed == Some(ParseOutageResponse(result.jsonBody, decode).value))
  {
    match ParseOutageResponse(result.jsonBody, decode)
    case Success(records) => Some(records)
    case Failure(_) =>
      if Truthy(result.textBody) then
        match ParseOutageResponse(Str(result.textBody.value), decode)
        case Success(records) => Some(records)
        case Failure(_) => None
      else None
  }

  /** The parse fails only when the JSON body fails and the text body is
      empty, missing, or fails as well. */
  lemma FallbackFailsIff(result: RequestResult, decode: string -> Result<Json, string>)
    ensures ParseWithFallback(result, decode).None?
        <==> ParseOutageResponse(result.jsonBody, decode).Failure?
             && (!Truthy(result.textBody) || ParseOutageResponse(Str(result.textBody.value), decode).Failure?)
  {
  }

  /** The text body is consulted only after the JSON body has failed, and
      then it decides the outcome alone. */
  lemma FallbackAfterJsonFails(result: RequestResult, decode: string -> Result<Json, string>)
    requires ParseOutageResponse(result.jsonBody, decode).Failure?
    ensures !Truthy(result.textBody) ==> ParseWithFallback(result, decode).None?
    ensures Truthy(result.textBody) ==>
              (ParseWithFallback(result, decode).Some?
               <==> ParseOutageResponse(Str(result.textBody.value), decode).Success?)
    ensures (Truthy(result.textBody) && ParseWithFallback(result, decode).Some? ==>
              ParseWithFallback(result, decode).value == ParseOutageResponse(Str(result.textBody.value), decode).value)
  {
  }

  /** No JSON body (or a body of `null`) means no records: the fallback is
      never tried and nothing is an error. */
  lemma NullBodyMeansNoRecords(result: RequestResult, decode: string -> Result<Json, string>)
    requires result.jsonBody == Null
    ensures ParseWithFallback(result, decode) == Some([])
  {
    NoneIsNoRecords(decode);
  }

  /** When the text body decodes to the very value held as the JSON body,
      the fallback cannot rescue a failed parse: it sees the same value. */
  lemma ConsistentBodyFallbackNeverRescues(result: RequestResult, decode: string -> Result<Json, string>)
    requires result.textBody.Some? && decode(result.textBody.value) == Success(result.jsonBody)
    requires !result.jsonBody.Null? && !result.jsonBody.Str?
    ensures ParseWithFallback(result, decode).None? <==> ParseOutageResponse(result.jsonBody, decode).Failure?
  {
    assert ParseOutageResponse(Str(result.textBody.value), decode) == ParseOutageResponse(result.jsonBody, decode);
  }

  // ---------------------------------------------------------------------
  // Matching
  // ---------------------------------------------------------------------

  /** `street_name.strip().lower()`. */
  function SearchTerm(streetName: string): string {
    Lower(Strip(streetName))
  }

  predicate InDescription(term: string, record: OutageRecord) {
    Contains(Lower(record.description), term)
  }

  /** An address whose TERYT street name is present, non-empty and
      contains the term once lower-cased. */
  predicate StreetMatches(term: string, a: Address) {
    && a.teryt.Some?
    && a.teryt.value.streetName.Some?
    && a.teryt.value.streetName.value != ""
    && Contains(Lower(a.teryt.value.streetName.value), term)
  }

  predicate InStreet(term: string, record: OutageRecord) {
    exists i :: 0 <= i < |record.addresses| && StreetMatches(term, record.addresses[i])
  }

  predicate Hit(term: string, record: OutageRecord) {
    InDescription(term, record) || InStreet(term, record)
  }

  /** The two INFO messages differ whatever the street name. */
  lemma HitMessagesDiffer(streetName: string)
    ensures DescriptionHitMessage(streetName) != StreetHitMessage(streetName)
  {
    var p := "Outage in " + streetName;
    var a, b := "! Found in description!", "! Found in street name!";
    assert DescriptionHitMessage(streetName) == p + a;
    assert StreetHitMessage(streetName) == p + b;
    assert a[11] == 'd' && b[11] == 's';
    assert (p + a)[|p| + 11] == a[11];
    assert (p + b)[|p| + 11] == b[11];
  }

  /** The events one examined record produces: an INFO entry per kind of
      hit, then the e-mail when there is any hit. */
  function RecordEvents(now: DateTime, streetName: string, term: string, record: OutageRecord): (events: seq<Event>)
    ensures !Hit(term, record) ==> events == []
    ensures Hit(term, record) ==> |events| >= 1 && events[|events| - 1] == EmailSent(record)
    ensures forall j :: 0 <= j < |events| - 1 ==> events[j].MessageLogged? && events[j].level == "INFO"
    ensures MessageLogged(now, "INFO", DescriptionHitMessage(streetName)) in events <==> InDescription(term, record)
    ensures MessageLogged(now, "INFO", StreetHitMessage(streetName)) in events <==> InStreet(term, record)
    ensures |events| == (if InDescription(term, record) then 1 else 0) + (if InStreet(term, record) then 1 else 0)
                        + (if Hit(term, record) then 1 else 0)
    ensures (InDescription(term, record) && InStreet(term, record)
             ==> events[0] == MessageLogged(now, "INFO", DescriptionHitMessage(streetName)))
  {
    var d := MessageLogged(now, "INFO", DescriptionHitMessage(streetName));
    var s := MessageLogged(now, "INFO", StreetHitMessage(streetName));
    HitMessagesDiffer(streetName);
    (if InDescription(term, record) then [d] else [])
    + (if InStreet(term, record) then [s] else [])
    + (if Hit(term, record) then [EmailSent(record)] else [])
  }

  predicate NoHit(term: string, records: seq<OutageRecord>) {
    forall j :: 0 <= j < |records| ==> !Hit(term, records[j])
  }

  /** The position of the first record with a hit. */
  function FirstHit(term: string, records: seq<OutageRecord>): (k: nat)
    requires !NoHit(term, records)
    ensures k < |records| && Hit(term, records[k])
    ensures NoHit(term, records[..k])
  {
    if Hit(term, records[0]) then 0
    else
      assert !NoHit(term, records[1..]) by {
        var k :| 0 <= k < |records| && Hit(term, records[k]);
        assert records[1..][k - 1] == records[k];
      }
      var k := FirstHit(term, records[1..]);
      assert records[..k + 1] == [records[0]] + records[1..][..k];
      k + 1
  }

  /** The records loop: every examined record's events, stopping after
      the first record with a hit. */
  function Dispatch(now: DateTime, streetName: string, term: string, records: seq<OutageRecord>): seq<Event>
  {
    if records == [] then []
    else
      RecordEvents(now, streetName, term, records[0])
      + (if Hit(term, records[0]) then [] else Dispatch(now, streetName, term, records[1..]))
  }

  /** With no hit before position `i`, the loop's events are those of the
      records from `i` on. */
  lemma {:induction false} DispatchSkipsMisses(now: DateTime, streetName: string, term: string,
                                               records: seq<OutageRecord>, i: nat)
    requires i <= |records|
    requires NoHit(term, records[..i])
    ensures Dispatch(now, streetName, term, records) == Dispatch(now, streetName, term, records[i..])
  {
    if i > 0 {
      assert records[1..][i - 1..] == records[i..];
      assert records[1..][..i - 1] == records[..i][1..];
      assert !Hit(term, records[..i][0]);
      DispatchSkipsMisses(now, streetName, term, records[1..], i - 1);
    }
  }

  /** Without a hit the loop produces nothing. */
  lemma DispatchNoHit(now: DateTime, streetName: string, term: string, records: seq<OutageRecord>)
    requires NoHit(term, records)
    ensures Dispatch(now, streetName, term, records) == []
  {
    assert records[..|records|] == records;
    DispatchSkipsMisses(now, streetName, term, records, |records|);
  }

  /** With a hit the loop's events are those of the first record with one. */
  lemma DispatchFirstHit(now: DateTime, streetName: string, term: string, records: seq<OutageRecord>)
    requires !NoHit(term, records)
    ensures Dispatch(now, streetName, term, records)
         == RecordEvents(now, streetName, term, records[FirstHit(term, records)])
  {
    var k := FirstHit(term, records);
    DispatchSkipsMisses(now, streetName, term, records, k);
    assert records[k..][0] == records[k];
  }

  /** Records after the first hit are never examined. */
  lemma DispatchIgnoresLaterRecords(now: DateTime, streetName: string, term: string,
                                    records: seq<OutageRecord>, more: seq<OutageRecord>)
    requires !NoHit(term, records)
    ensures Dispatch(now, streetName, term, records + more) == Dispatch(now, streetName, term, records)
  {
    var k := FirstHit(term, records);
    var all := records + more;
    assert all[k] == records[k];
    assert all[..k] == records[..k];
    DispatchSkipsMisses(now, streetName, term, records, k);
    DispatchSkipsMisses(now, streetName, term, all, k);
    assert all[k..][0] == records[k..][0];
  }

  /** The loop sends at most one e-mail, about the first record with a
      hit, and none when no record has one. */
  lemma DispatchEmails(now: DateTime, streetName: string, term: string, records: seq<OutageRecord>)
    ensures NoHit(term, records) ==> Filter(Dispatch(now, streetName, term, records), IsEmail) == []
    ensures (!NoHit(term, records) ==>
              Filter(Dispatch(now, streetName, term, records), IsEmail) == [EmailSent(records[FirstHit(term, records)])])
  {
    if NoHit(term, records) {
      DispatchNoHit(now, streetName, term, records);
    } else {
      DispatchFirstHit(now, streetName, term, records);
      RecordEmails(now, streetName, term, records[FirstHit(term, records)]);
    }
  }

  /** An examined record with a hit yields exactly one e-mail, about it. */
  lemma RecordEmails(now: DateTime, streetName: string, term: string, record: OutageRecord)
    requires Hit(term, record)
    ensures Filter(RecordEvents(now, streetName, term, record), IsEmail) == [EmailSent(record)]
  {
    var events := RecordEvents(now, streetName, term, record);
    var n := |events|;
    var init := events[..n - 1];
    assert events == init + [events[n - 1]];
    assert forall i :: 0 <= i < |init| ==> init[i] == events[i] && events[i].MessageLogged?;
    FilterAppend(init, [events[n - 1]], IsEmail);
    FilterNone(init, IsEmail);
  }

  /** An examined record yields INFO entries and e-mails only. */
  lemma RecordEventsAreInfoOrEmail(now: DateTime, streetName: string, term: string, record: OutageRecord)
    ensures var events := RecordEvents(now, streetName, term, record);
            forall i :: 0 <= i < |events| ==> !IsParseError(events[i]) && !IsFetch(events[i])
  {
    var events := RecordEvents(now, streetName, term, record);
    forall i | 0 <= i < |events|
      ensures !IsParseError(events[i]) && !IsFetch(events[i])
    {
      if i < |events| - 1 {
        assert events[i].MessageLogged? && events[i].level == "INFO";
        assert events[i].level != "ERROR";
      } else {
        assert events[i] == EmailSent(record);
      }
    }
  }

  /** The loop logs no parse error and performs no fetch. */
  lemma DispatchOnlyInfoAndEmail(now: DateTime, streetName: string, term: string, records: seq<OutageRecord>)
    ensures Filter(Dispatch(now, streetName, term, records), IsParseError) == []
    ensures Filter(Dispatch(now, streetName, term, records), IsFetch) == []
  {
    if NoHit(term, records) {
      DispatchNoHit(now, streetName, term, records);
    } else {
      DispatchFirstHit(now, streetName, term, records);
      var record := records[FirstHit(term, records)];
      var events := RecordEvents(now, streetName, term, record);
      RecordEventsAreInfoOrEmail(now, streetName, term, record);
      FilterNone(events, IsParseError);
      FilterNone(events, IsFetch);
    }
  }

  /** One pass of the records loop's body: the two tests, their INFO
      entries and, on any hit, the e-mail. */
  method ExamineRecord(now: DateTime, streetName: string, term: string, record: OutageRecord)
    returns (events: seq<Event>, hit: bool)
    ensures hit == Hit(term, record)
    ensures events == RecordEvents(now, streetName, term, record)
  {
    events := [];
    var inDescription := Contains(Lower(record.description), term);
    var inStreet := exists a :: 0 <= a < |record.addresses| && StreetMatches(term, record.addresses[a]);
    if inDescription {
      events := events + [MessageLogged(now, "INFO", DescriptionHitMessage(streetName))];
    }
    if inStreet {
      events := events + [MessageLogged(now, "INFO", StreetHitMessage(streetName))];
    }
    hit := inDescription || inStreet;
    if hit {
      events := events + [EmailSent(record)];
    }
  }

  /** The records loop of `_send_req_and_email`: examine each record in
      order and stop after the first hit. */
  method DispatchRecords(now: DateTime, streetName: string, term: string, records: seq<OutageRecord>)
    returns (events: seq<Event>)
    ensures events == Dispatch(now, streetName, term, records)
  {
    events := [];
    var i := 0;
    while i < |records|
      invariant 0 <= i <= |records|
      invariant NoHit(term, records[..i])
      invariant events == []
    {
      var found, hit := ExamineRecord(now, streetName, term, records[i]);
      if hit {
        events := found;
        DispatchSkipsMisses(now, streetName, term, records, i);
        assert records[i..][0] == records[i];
        return;
      }
      assert records[..i + 1] == records[..i] + [records[i]];
      i := i + 1;
    }
    DispatchNoHit(now, streetName, term, records);
  }

  // ---------------------------------------------------------------------
  // _send_req_and_email
  // ---------------------------------------------------------------------

  /** The parse-failure entry, present exactly when the parse gave nothing. */
  function ParseErrorEvents(now: DateTime, parsed: Option<seq<OutageRecord>>): seq<Event> {
    if parsed.None? then [MessageLogged(now, "ERROR", ParseFailedMessage)] else []
  }

  /** The matching stage: it runs only on a non-empty record list and a
      non-empty search term. */
  function MatchEvents(now: DateTime, streetName: string, parsed: Option<seq<OutageRecord>>): seq<Event> {
    var term := SearchTerm(streetName);
    if parsed.Some? && parsed.value != [] && term != "" then Dispatch(now, streetName, term, parsed.value) else []
  }

  /** The events of one check, given the fetch's result and what the
      parse settled on. */
  function CheckEvents(now: DateTime, streetName: string, result: RequestResult,
                       parsed: Option<seq<OutageRecord>>): seq<Event>
  {
    [Fetched(now), RequestLogged(result)] + ParseErrorEvents(now, parsed) + MatchEvents(now, streetName, parsed)
  }

  /** The events of one check, given the fetch's result. */
  function Process(now: DateTime, streetName: string, result: RequestResult,
                   decode: string -> Result<Json, string>): seq<Event>
  {
    CheckEvents(now, streetName, result, ParseWithFallback(result, decode))
  }

  /** The try/except around `parse_outage_response`. */
  method ParseResponse(result: RequestResult, decode: string -> Result<Json, string>)
    returns (formatted: Option<seq<OutageRecord>>)
    ensures formatted == ParseWithFallback(result, decode)
  {
    formatted := None;
    var fromJson := ParseOutageResponse(result.jsonBody, decode);
    if fromJson.Success? {
      formatted := Some(fromJson.value);
    } else if Truthy(result.textBody) {
      var fromText := ParseOutageResponse(Str(result.textBody.value), decode);
      if fromText.Success? {
        formatted := Some(fromText.value);
      } else {
        formatted := None;
      }
    }
  }

  /** `_send_req_and_email`: fetch, log the request, parse with the text
      fallback, log a parse failure, then match the records. `fetch`
      stands for `send_request` with the configured parameters. */
  method SendReqAndEmail(now: DateTime, streetName: string, fetch: DateTime -> RequestResult,
                         decode: string -> Result<Json, string>) returns (events: seq<Event>)
    ensures events == Process(now, streetName, fetch(now), decode)
  {
    events := [Fetched(now)];
    var result := fetch(now);
    events := events + [RequestLogged(result)];
    var formatted := ParseResponse(result, decode);
    if formatted.None? {
      events := events + [MessageLogged(now, "ERROR", ParseFailedMessage)];
    }
    assert events == [Fetched(now), RequestLogged(result)] + ParseErrorEvents(now, formatted);
    if formatted.Some? && formatted.value != [] {
      var term := Lower(Strip(streetName));
      if term != "" {
        var matched := DispatchRecords(now, streetName, term, formatted.value);
        events := events + matched;
      }
    }
  }

  // ---------------------------------------------------------------------
  // What one check promises (for whatever the parse settled on)
  // ---------------------------------------------------------------------

  /** Selecting from a check's events selects from each stage in turn. */
  lemma CheckEventsFilter(now: DateTime, streetName: string, result: RequestResult,
                          parsed: Option<seq<OutageRecord>>, keep: Event -> bool)
    ensures Filter(CheckEvents(now, streetName, result, parsed), keep)
         == Filter([Fetched(now), RequestLogged(result)], keep)
            + Filter(ParseErrorEvents(now, parsed), keep)
            + Filter(MatchEvents(now, streetName, parsed), keep)
  {
    var head: seq<Event> := [Fetched(now), RequestLogged(result)];
    var err, rest := ParseErrorEvents(now, parsed), MatchEvents(now, streetName, parsed);
    FilterAppend(head + err, rest, keep);
    FilterAppend(head, err, keep);
  }

  /** The matching stage fetches nothing, logs no parse error and sends
      the e-mail about the first record with a hit, if any. */
  lemma MatchEventsFilter(now: DateTime, streetName: string, parsed: Option<seq<OutageRecord>>)
    ensures Filter(MatchEvents(now, streetName, parsed), IsFetch) == []
    ensures Filter(MatchEvents(now, streetName, parsed), IsParseError) == []
    ensures var term := SearchTerm(streetName);
            (Filter(MatchEvents(now, streetName, parsed), IsEmail)
             == if parsed.Some? && term != "" && !NoHit(term, parsed.value)
                then [EmailSent(parsed.value[FirstHit(term, parsed.value)])]
                else [])
  {
    var term := SearchTerm(streetName);
    if parsed.Some? && parsed.value != [] && term != "" {
      DispatchOnlyInfoAndEmail(now, streetName, term, parsed.value);
      DispatchEmails(now, streetName, term, parsed.value);
    }
  }

  /** The fetch and its log entry: one fetch, no parse error, no e-mail. */
  lemma RequestStageFilter(now: DateTime, result: RequestResult)
    ensures Filter([Fetched(now), RequestLogged(result)], IsFetch) == [Fetched(now)]
    ensures Filter([Fetched(now), RequestLogged(result)], IsParseError) == []
    ensures Filter([Fetched(now), RequestLogged(result)], IsEmail) == []
  {
    var head: seq<Event> := [Fetched(now), RequestLogged(result)];
    assert head[1..] == [RequestLogged(result)] && head[1..][1..] == [];
  }

  /** The parse-error stage: the ERROR entry exactly when the parse gave
      nothing, and neither a fetch nor an e-mail. */
  lemma ParseErrorStageFilter(now: DateTime, parsed: Option<seq<OutageRecord>>)
    ensures Filter(ParseErrorEvents(now, parsed), IsFetch) == []
    ensures Filter(ParseErrorEvents(now, parsed), IsEmail) == []
    ensures Filter(ParseErrorEvents(now, parsed), IsParseError) == ParseErrorEvents(now, parsed)
  {
    if parsed.None? {
      var err := ParseErrorEvents(now, parsed);
      assert err[1..] == [];
    }
  }

  lemma CheckOpens(now: DateTime, streetName: string, result: RequestResult,
                   parsed: Option<seq<OutageRecord>>)
    ensures var events := CheckEvents(now, streetName, result, parsed);
            |events| >= 2 && events[0] == Fetched(now) && events[1] == RequestLogged(result)
  {
    OpensWith([Fetched(now), RequestLogged(result)], ParseErrorEvents(now, parsed),
              MatchEvents(now, streetName, parsed));
  }

  lemma OpensWith(head: seq<Event>, err: seq<Event>, rest: seq<Event>)
    requires |head| >= 2
    ensures |head + err + rest| >= 2
    ensures (head + err + rest)[0] == head[0] && (head + err + rest)[1] == head[1]
  {
  }

  /** Every check fetches exactly once, first, and logs the request next. */
  lemma CheckFetchesOnce(now: DateTime, streetName: string, result: RequestResult,
                         parsed: Option<seq<OutageRecord>>)
    ensures var events := CheckEvents(now, streetName, result, parsed);
            |events| >= 2 && events[0] == Fetched(now) && events[1] == RequestLogged(result)
            && Filter(events, IsFetch) == [Fetched(now)]
  {
    CheckOpens(now, streetName, result, parsed);
    var events := CheckEvents(now, streetName, result, parsed);
    CheckEventsFilter(now, streetName, result, parsed, IsFetch);
    RequestStageFilter(now, result);
    ParseErrorStageFilter(now, parsed);
    MatchEventsFilter(now, streetName, parsed);
    assert Filter(events, IsFetch) == [Fetched(now)] + [] + [];
  }

  /** "Failed to parse response." is logged exactly once when the parse
      gave nothing, and never otherwise. */
  lemma ParseErrorLoggedIff(now: DateTime, streetName: string, result: RequestResult,
                            parsed: Option<seq<OutageRecord>>)
    ensures Filter(CheckEvents(now, streetName, result, parsed), IsParseError)
         == (if parsed.None? then [MessageLogged(now, "ERROR", ParseFailedMessage)] else [])
  {
    CheckEventsFilter(now, streetName, result, parsed, IsParseError);
    RequestStageFilter(now, result);
    ParseErrorStageFilter(now, parsed);
    MatchEventsFilter(now, streetName, parsed);
  }

  /** A check sends at most one e-mail. It sends one exactly when the parse
      gave records, the search term is not empty and some record has a
      hit, and the e-mail is about the first such record. */
  lemma CheckEmails(now: DateTime, streetName: string, result: RequestResult,
                    parsed: Option<seq<OutageRecord>>)
    ensures var emails := Filter(CheckEvents(now, streetName, result, parsed), IsEmail);
            var term := SearchTerm(streetName);
            && |emails| <= 1
            && (emails != [] <==> parsed.Some? && term != "" && !NoHit(term, parsed.value))
            && (emails != [] ==> emails == [EmailSent(parsed.value[FirstHit(term, parsed.value)])])
  {
    CheckEventsFilter(now, streetName, result, parsed, IsEmail);
    RequestStageFilter(now, result);
    ParseErrorStageFilter(now, parsed);
    MatchEventsFilter(now, streetName, parsed);
    assert Filter(CheckEvents(now, streetName, result, parsed), IsEmail)
        == Filter(MatchEvents(now, streetName, parsed), IsEmail);
  }

  // ---------------------------------------------------------------------
  // The schedule: one pass of the run_loop body
  // ---------------------------------------------------------------------

  /** A configured hour is due when it is the current hour and no check
      has run for it today (`last_sent.get(hour) != now.date()`). */
  predicate Due(lastSent: map<nat, Date>, hour: nat, now: DateTime) {
    now.hour == hour && (hour !in lastSent || lastSent[hour] != now.Day())
  }

  /** `last_sent` after going through the given hours. */
  function AfterTick(lastSent: map<nat, Date>, hours: seq<nat>, now: DateTime): map<nat, Date>
    decreases |hours|
  {
    if hours == [] then lastSent
    else
      var m := AfterTick(lastSent, hours[..|hours| - 1], now);
      var hour := hours[|hours| - 1];
      if Due(m, hour, now) then m[hour := now.Day()] else m
  }

  /** The events of going through the given hours, `check` being the
      events of one check at `now`. */
  function TickEvents(lastSent: map<nat, Date>, hours: seq<nat>, now: DateTime, check: seq<Event>): seq<Event>
    decreases |hours|
  {
    if hours == [] then []
    else
      var init := hours[..|hours| - 1];
      TickEvents(lastSent, init, now, check)
      + (if Due(AfterTick(lastSent, init, now), hours[|hours| - 1], now) then check else [])
  }

  /** Going through the hours: only the current hour can be due, and only
      if it is configured and has not run today; running it stamps today's
      date on it, whatever the check found. */
  lemma {:induction false} TickClosedForm(lastSent: map<nat, Date>, hours: seq<nat>, now: DateTime, check: seq<Event>)
    ensures var runs := now.hour in hours && Due(lastSent, now.hour, now);
            && AfterTick(lastSent, hours, now) == (if runs then lastSent[now.hour := now.Day()] else lastSent)
            && TickEvents(lastSent, hours, now, check) == (if runs then check else [])
    decreases |hours|
  {
    if hours != [] {
      var init := hours[..|hours| - 1];
      var hour := hours[|hours| - 1];
      TickClosedForm(lastSent, init, now, check);
      assert hours == init + [hour];
      assert now.hour in hours <==> now.hour in init || now.hour == hour;
    }
  }

  /** Only the current hour's entry can change, and after the pass it
      holds today's date whenever the current hour is configured. */
  lemma TickStampsOnlyCurrentHour(lastSent: map<nat, Date>, hours: seq<nat>, now: DateTime)
    ensures var after := AfterTick(lastSent, hours, now);
            && (forall h :: h != now.hour ==> (h in after <==> h in lastSent))
            && (forall h :: h != now.hour && h in lastSent ==> after[h] == lastSent[h])
            && (now.hour in hours ==> now.hour in after && after[now.hour] == now.Day())
            && (now.hour !in hours ==> after == lastSent)
  {
    TickClosedForm(lastSent, hours, now, []);
  }

  /** A pass performs at most one fetch, and one exactly when the current
      hour is configured and has not run today. */
  lemma TickFetchesAtMostOnce(lastSent: map<nat, Date>, hours: seq<nat>, now: DateTime, streetName: string,
                              result: RequestResult, parsed: Option<seq<OutageRecord>>)
    ensures var events := TickEvents(lastSent, hours, now, CheckEvents(now, streetName, result, parsed));
            && |Filter(events, IsFetch)| <= 1
            && (|Filter(events, IsFetch)| == 1 <==> now.hour in hours && Due(lastSent, now.hour, now))
  {
    TickClosedForm(lastSent, hours, now, CheckEvents(now, streetName, result, parsed));
    CheckFetchesOnce(now, streetName, result, parsed);
  }

  /** A later pass in the same hour of the same day does nothing: it
      neither changes `last_sent` nor runs a check. */
  lemma SecondTickIsIdle(lastSent: map<nat, Date>, hours: seq<nat>, now: DateTime, later: DateTime,
                         check: seq<Event>, laterCheck: seq<Event>)
    requires later.hour == now.hour && later.Day() == now.Day()
    ensures var after := AfterTick(lastSent, hours, now);
            && AfterTick(after, hours, later) == after
            && TickEvents(after, hours, later, laterCheck) == []
  {
    TickClosedForm(lastSent, hours, now, check);
    var after := AfterTick(lastSent, hours, now);
    TickClosedForm(after, hours, later, laterCheck);
  }

  lemma AppendAssociates(a: seq<Event>, b: seq<Event>, c: seq<Event>)
    ensures a + b + c == a + (b + c)
  {
  }

  /** The scheduler's state between passes. */
  class Scheduler {
    const hours: seq<nat>
    const streetName: string
    var lastSent: map<nat, Date>
    var trace: seq<Event>

    /** `run_loop` before its first pass: nothing sent yet. */
    constructor (hours: seq<nat>, streetName: string)
      ensures this.hours == hours && this.streetName == streetName
      ensures lastSent == map[] && trace == []
    {
      this.hours := hours;
      this.streetName := streetName;
      lastSent := map[];
      trace := [];
    }

    /** One pass of the `run_loop` body at the time `now`: each configured
        hour that is due gets a check, and its date is recorded. */
    method Tick(now: DateTime, fetch: DateTime -> RequestResult, decode: string -> Result<Json, string>)
      modifies this
      ensures lastSent == AfterTick(old(lastSent), hours, now)
      ensures trace == old(trace) + TickEvents(old(lastSent), hours, now, Process(now, streetName, fetch(now), decode))
    {
      ghost var last0, trace0 := lastSent, trace;
      ghost var check := Process(now, streetName, fetch(now), decode);
      var i := 0;
      while i < |hours|
        invariant 0 <= i <= |hours|
        invariant lastSent == AfterTick(last0, hours[..i], now)
        invariant trace == trace0 + TickEvents(last0, hours[..i], now, check)
      {
        var hour := hours[i];
        ghost var prefix := hours[..i + 1];
        assert prefix[..i] == hours[..i] && prefix[i] == hour;
        ghost var due := Due(lastSent, hour, now);
        assert TickEvents(last0, prefix, now, check)
            == TickEvents(last0, hours[..i], now, check) + (if due then check else []);
        ghost var before := TickEvents(last0, hours[..i], now, check);
        if now.hour == hour && (hour !in lastSent || lastSent[hour] != now.Day()) {
          var events := SendReqAndEmail(now, streetName, fetch, decode);
          assert events == check;
          trace := trace + events;
          AppendAssociates(trace0, before, check);
          lastSent := lastSent[hour := now.Day()];
        } else {
          assert before + [] == before;
        }
        i := i + 1;
      }
      assert hours[..|hours|] == hours;
    }
  }
}
