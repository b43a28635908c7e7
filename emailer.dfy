/** The notification text: the time left before (or until the end of) an
    outage, the numbered address listing and the e-mail body. Sending the
    e-mail over SMTP is not part of this model. Times are integers counting
    microseconds on the local wall clock, the resolution of `datetime`. */
module Emailer {
  import opened Wrappers
  import opened Text
  import opened ResponseModels

  const MicrosPerMinute: nat := 60000000
  const MinutesPerDay: nat := 1440

  // ---------------------------------------------------------------------
  // _format_remaining
  // ---------------------------------------------------------------------

  /** The delta `_format_remaining` measures: up to the start while the
      outage is ahead, up to the stop while it is under way, zero after. */
  function RemainingMicros(now: int, start: int, stop: int): (d: nat)
    ensures now < start ==> d == start - now
    ensures start <= now < stop ==> d == stop - now
    ensures start <= now && stop <= now ==> d == 0
  {
    if now < start then start - now
    else if now < stop then stop - now
    else 0
  }

  /** Whole days, hours within the day and minutes within the hour. */
  datatype Span = Span(days: nat, hours: nat, minutes: nat)

  /** `days = m // 1440`, `hours = (m % 1440) // 60`, `minutes = m % 60`:
      the unique split of `m` minutes with hours below 24 and minutes
      below 60. */
  function Decompose(totalMinutes: nat): (s: Span)
    ensures s.days * MinutesPerDay + s.hours * 60 + s.minutes == totalMinutes
    ensures s.hours < 24 && s.minutes < 60
  {
    var rest := totalMinutes % MinutesPerDay;
    assert totalMinutes % 60 == rest % 60 by {
      assert totalMinutes == (totalMinutes / MinutesPerDay) * 24 * 60 + rest;
    }
    Span(totalMinutes / MinutesPerDay, rest / 60, totalMinutes % 60)
  }

  function HoursMinutesText(hours: nat, minutes: nat): string {
    "godzin: " + (NatToString(hours) + (", minut: " + NatToString(minutes)))
  }

  /** The rendered span: the days part only when there is at least one. */
  function SpanText(s: Span): string {
    if s.days > 0 then
      "dni: " + (NatToString(s.days) + (", " + HoursMinutesText(s.hours, s.minutes)))
    else
      HoursMinutesText(s.hours, s.minutes)
  }

  /** `_format_remaining` once `start_at` and `stop_at` have been read as
      times: the delta floored to whole minutes, then split and rendered. */
  function FormatRemaining(now: int, start: int, stop: int): string {
    SpanText(Decompose(RemainingMicros(now, start, stop) / MicrosPerMinute))
  }

  /** The days part is shown exactly when at least a full day remains. */
  lemma DaysShownOnlyFromOneDay(totalMinutes: nat)
    ensures var text := SpanText(Decompose(totalMinutes));
            (|text| >= 5 && text[..5] == "dni: ") <==> totalMinutes >= MinutesPerDay
  {
    var s := Decompose(totalMinutes);
    var text := SpanText(s);
    if s.days == 0 {
      assert text[0] == 'g';
    }
  }

  /** Two strings that each start with a separator-free part followed by
      the separator agree on that part and on what follows. */
  lemma CutAtSeparator(p: string, x: string, q: string, y: string, sep: char)
    requires sep !in p && sep !in q
    requires p + [sep] + x == q + [sep] + y
    ensures p == q && x == y
  {
    SplitAfterPrefix(p, x, sep);
    SplitAfterPrefix(q, y, sep);
    assert p == ([p] + Split(x, sep))[0];
    assert q == ([q] + Split(y, sep))[0];
    assert x == (p + [sep] + x)[|p| + 1..];
    assert y == (q + [sep] + y)[|q| + 1..];
  }

  /** A leading text, a number and a comma-led rest: the text determines the
      number and the rest. */
  lemma NumberThenComma(lead: string, n1: nat, rest1: string, n2: nat, rest2: string)
    requires lead + (NatToString(n1) + ([','] + rest1)) == lead + (NatToString(n2) + ([','] + rest2))
    ensures n1 == n2 && rest1 == rest2
  {
    var a1, a2 := NatToString(n1), NatToString(n2);
    var t1, t2 := a1 + ([','] + rest1), a2 + ([','] + rest2);
    assert t1 == (lead + t1)[|lead|..];
    assert t2 == (lead + t2)[|lead|..];
    assert a1 + [','] + rest1 == t1 && a2 + [','] + rest2 == t2;
    DigitsHaveNoComma(n1);
    DigitsHaveNoComma(n2);
    CutAtSeparator(a1, rest1, a2, rest2, ',');
    NatToStringInjective(n1, n2);
  }

  lemma DigitsHaveNoComma(n: nat)
    ensures ',' !in NatToString(n)
  {
    var s := NatToString(n);
    forall k | 0 <= k < |s| ensures s[k] != ',' {
      assert IsDigit(s[k]);
    }
  }

  /** `godzin: H, minut: M` determines H and M. */
  lemma HoursMinutesTextInjective(h1: nat, m1: nat, h2: nat, m2: nat)
    requires HoursMinutesText(h1, m1) == HoursMinutesText(h2, m2)
    ensures h1 == h2 && m1 == m2
  {
    var x1, x2 := " minut: " + NatToString(m1), " minut: " + NatToString(m2);
    assert ", minut: " + NatToString(m1) == [','] + x1;
    assert ", minut: " + NatToString(m2) == [','] + x2;
    NumberThenComma("godzin: ", h1, x1, h2, x2);
    assert NatToString(m1) == x1[8..];
    assert NatToString(m2) == x2[8..];
    NatToStringInjective(m1, m2);
  }

  /** `dni: D, <rest>` determines D and the rest. */
  lemma DaysTextInjective(s1: Span, s2: Span)
    requires s1.days > 0 && s2.days > 0
    requires SpanText(s1) == SpanText(s2)
    ensures s1.days == s2.days
    ensures HoursMinutesText(s1.hours, s1.minutes) == HoursMinutesText(s2.hours, s2.minutes)
  {
    var r1, r2 := HoursMinutesText(s1.hours, s1.minutes), HoursMinutesText(s2.hours, s2.minutes);
    assert ", " + r1 == [','] + (" " + r1);
    assert ", " + r2 == [','] + (" " + r2);
    NumberThenComma("dni: ", s1.days, " " + r1, s2.days, " " + r2);
    assert r1 == (" " + r1)[1..];
    assert r2 == (" " + r2)[1..];
  }

  /** The rendered remaining time is unambiguous: different numbers of
      whole minutes never render the same text. */
  lemma SpanTextInjective(t1: nat, t2: nat)
    requires SpanText(Decompose(t1)) == SpanText(Decompose(t2))
    ensures t1 == t2
  {
    var s1, s2 := Decompose(t1), Decompose(t2);
    DaysShownOnlyFromOneDay(t1);
    DaysShownOnlyFromOneDay(t2);
    if s1.days > 0 {
      DaysTextInjective(s1, s2);
    }
    HoursMinutesTextInjective(s1.hours, s1.minutes, s2.hours, s2.minutes);
  }

  /** 25 hours and 5 minutes before the start the text reads
      "dni: 1, godzin: 1, minut: 5". */
  lemma RemainingBeforeStart(now: int)
    ensures FormatRemaining(now, now + 1505 * MicrosPerMinute, now + 6000 * MicrosPerMinute)
            == "dni: 1, godzin: 1, minut: 5"
  {
    assert RemainingMicros(now, now + 1505 * MicrosPerMinute, now + 6000 * MicrosPerMinute)
           / MicrosPerMinute == 1505;
    assert Decompose(1505) == Span(1, 1, 5);
    assert NatToString(1) == "1";
    assert NatToString(5) == "5";
    assert HoursMinutesText(1, 5) == "godzin: 1, minut: 5";
  }

  /** Once the outage has begun the time left is measured to its end:
      90 minutes before the stop the text reads "godzin: 1, minut: 30". */
  lemma RemainingUnderWay(now: int)
    ensures FormatRemaining(now, now - 1, now + 90 * MicrosPerMinute) == "godzin: 1, minut: 30"
  {
    assert RemainingMicros(now, now - 1, now + 90 * MicrosPerMinute) / MicrosPerMinute == 90;
    assert Decompose(90) == Span(0, 1, 30);
    assert NatToString(1) == "1";
    assert NatToString(30) == "30" by {
      assert NatToString(3) == "3";
    }
    assert HoursMinutesText(1, 30) == "godzin: 1, minut: 30";
  }

  // ---------------------------------------------------------------------
  // _format_addresses
  // ---------------------------------------------------------------------

  /** `value or "(brak)"`: a missing or empty string renders as "(brak)". */
  function OrBrak(o: Option<string>): (r: string)
    ensures o.None? || o.value == "" ==> r == "(brak)"
    ensures o.Some? && o.value != "" ==> r == o.value
  {
    if o.Some? && o.value != "" then o.value else "(brak)"
  }

  /** The street of an address, "(brak)" when there is no teryt or no
      (or an empty) street name. */
  function StreetLabel(a: Address): string {
    OrBrak(if a.teryt.Some? then a.teryt.value.streetName else None)
  }

  /** Line `index` of the listing (numbered from 1). */
  function AddressLine(index: nat, a: Address): string {
    NatToString(index) + ". Ulica: " + StreetLabel(a) + ", numery: " + OrBrak(a.numbers)
  }

  /** One line per address, numbered 1..n in input order. */
  function AddressLines(addresses: seq<Address>): (lines: seq<string>)
    ensures |lines| == |addresses|
    ensures forall k :: 0 <= k < |addresses| ==> lines[k] == AddressLine(k + 1, addresses[k])
  {
    seq(|addresses|, k requires 0 <= k < |addresses| => AddressLine(k + 1, addresses[k]))
  }

  /** What `_format_addresses` returns. */
  function AddressesText(addresses: seq<Address>): string {
    if addresses == [] then "Brak adresow" else Join(AddressLines(addresses), "\n")
  }

  /** `_format_addresses`: an empty list reads "Brak adresow"; otherwise
      the lines are collected one address at a time and joined with
      newlines. */
  method FormatAddresses(addresses: seq<Address>) returns (text: string)
    ensures text == AddressesText(addresses)
  {
    if |addresses| == 0 {
      return "Brak adresow";
    }
    var lines: seq<string> := [];
    var idx := 0;
    while idx < |addresses|
      invariant 0 <= idx <= |addresses|
      invariant |lines| == idx
      invariant forall k :: 0 <= k < idx ==> lines[k] == AddressLine(k + 1, addresses[k])
    {
      lines := lines + [AddressLine(idx + 1, addresses[idx])];
      idx := idx + 1;
    }
    assert lines == AddressLines(addresses);
    text := Join(lines, "\n");
  }

  /** No label of the address listing contains a line break. */
  predicate SingleLineAddress(a: Address) {
    '\n' !in StreetLabel(a) && '\n' !in OrBrak(a.numbers)
  }

  lemma AddressLineIsSingleLine(k: nat, a: Address)
    requires SingleLineAddress(a)
    ensures '\n' !in AddressLine(k, a)
  {
    var n, s, m := NatToString(k), StreetLabel(a), OrBrak(a.numbers);
    var line := AddressLine(k, a);
    assert line == n + ". Ulica: " + s + ", numery: " + m;
    forall i | 0 <= i < |line| ensures line[i] != '\n' {
      if i < |n| {
        assert IsDigit(n[i]);
      } else if i < |n| + 9 {
        assert line[i] == ". Ulica: "[i - |n|];
      } else if i < |n| + 9 + |s| {
        assert line[i] == s[i - |n| - 9];
      } else if i < |n| + 9 + |s| + 10 {
        assert line[i] == ", numery: "[i - |n| - 9 - |s|];
      } else {
        assert line[i] == m[i - |n| - 9 - |s| - 10];
      }
    }
  }

  /** With single-line labels, the listing has exactly one line per
      address, numbered from 1 in input order, and no trailing newline:
      splitting it at the newlines gives the address lines back. */
  lemma AddressListingLines(addresses: seq<Address>)
    requires addresses != []
    requires forall k :: 0 <= k < |addresses| ==> SingleLineAddress(addresses[k])
    ensures Split(AddressesText(addresses), '\n') == AddressLines(addresses)
  {
    var lines := AddressLines(addresses);
    forall k | 0 <= k < |lines| ensures '\n' !in lines[k] {
      AddressLineIsSingleLine(k + 1, addresses[k]);
    }
    SplitJoin(lines, '\n');
  }

  // ---------------------------------------------------------------------
  // build_email_body
  // ---------------------------------------------------------------------

  /** "Tak" exactly for a revoked outage, "Nie" otherwise. */
  function RevokedLabel(revoked: bool): (r: string)
    ensures r == "Tak" <==> revoked
    ensures r == "Nie" <==> !revoked
  {
    if revoked then "Tak" else "Nie"
  }

  /** `build_email_body(now, record, street_name)`. `parseTime` stands for
      `_parse_datetime` (`strptime` with the format "%Y-%m-%d %H:%M:%S");
      its failure is the `ValueError` that the source lets escape. */
  function BuildEmailBody(now: int, record: OutageRecord, streetName: string,
                          parseTime: string -> Result<int, string>): Result<string, string>
  {
    var start :- parseTime(record.startAt);
    var stop :- parseTime(record.stopAt);
    Success(EmailText(FormatRemaining(now, start, stop), record, streetName))
  }

  /** The text `build_email_body` assembles once the remaining time is
      known; each parenthesised group is one line of the source's text. */
  function EmailText(remaining: string, record: OutageRecord, streetName: string): string {
    "Cześć,\n\n"
    + ("Zbliża się wyłączenie planowe prądu dla Twojej ulicy: " + streetName + ".\n")
    + ("Nastąpi ono od " + record.startAt + " do " + record.stopAt + ".\n")
    + ("POZOSTAŁY CZAS: " + remaining + ".\n\n")
    + "Szczegóły przerwy:\n"
    + ("Opis: " + record.description + "\n")
    + ("Odwołane: " + RevokedLabel(record.revoked) + "\n")
    + ("Opis odwołania: " + OrBrak(record.revokedDescription) + "\n")
    + "Adresy:\n"
    + (AddressesText(record.addresses) + "\n\n")
    + "Pozdro,\n"
    + "Admin\n"
  }

  /** The body fails only when a time fails to parse. */
  lemma EmailBodyFailsOnlyOnTimes(now: int, record: OutageRecord, streetName: string,
                                  parseTime: string -> Result<int, string>)
    ensures (BuildEmailBody(now, record, streetName, parseTime).Success?
             <==> parseTime(record.startAt).Success? && parseTime(record.stopAt).Success?)
  {
  }
}
