/** Configuration parsing: the HOURS list and the bounded integer settings
    read from the environment. The environment lookup itself is not part
    of the model; `ReadInt` receives what `os.getenv` returned. */
module Config {
  import opened Wrappers
  import opened Text

  // ---------------------------------------------------------------------
  // parse_hours
  // ---------------------------------------------------------------------

  /** The comma-separated parts of the value, each stripped. */
  function Parts(value: string): (parts: seq<string>)
    ensures |parts| == |Split(value, ',')|
    ensures forall i :: 0 <= i < |parts| ==> parts[i] == Strip(Split(value, ',')[i])
  {
    var raw := Split(value, ',');
    seq(|raw|, i requires 0 <= i < |raw| => Strip(raw[i]))
  }

  /** A part the loop accepts: an empty part (skipped) or a digit string
      naming an hour of the day. */
  predicate GoodPart(part: string) {
    part == "" || (IsDigits(part) && DigitsValue(part) <= 23)
  }

  /** The error a part that is not good raises. */
  function PartError(part: string): (e: string)
    requires !GoodPart(part)
    ensures !IsDigits(part) ==> e == "Invalid hour value: " + part
    ensures IsDigits(part) ==> e == "Hour out of range: " + NatToString(DigitsValue(part))
  {
    if !IsDigits(part) then "Invalid hour value: " + part
    else "Hour out of range: " + NatToString(DigitsValue(part))
  }

  /** The hours the loop has collected after the given parts, or the
      error it raised on the first part that is not good. */
  function ScanHours(parts: seq<string>): Result<seq<nat>, string>
    decreases |parts|
  {
    if parts == [] then Success([])
    else
      var hours :- ScanHours(parts[..|parts| - 1]);
      var part := parts[|parts| - 1];
      if part == "" then Success(hours)
      else if !GoodPart(part) then Failure(PartError(part))
      else
        var hour := DigitsValue(part);
        Success(if hour in hours then hours else hours + [hour])
  }

  /** `parse_hours(value)` as a function of its input. */
  function ParsedHours(value: string): Result<seq<nat>, string> {
    var hours :- ScanHours(Parts(value));
    if hours == [] then Failure("No valid HOURS provided") else Success(hours)
  }

  /** Once the scan has failed, later parts do not change its error. */
  lemma {:induction false} ScanFailureSticks(parts: seq<string>, k: nat)
    requires k <= |parts|
    requires ScanHours(parts[..k]).Failure?
    ensures ScanHours(parts) == ScanHours(parts[..k])
    decreases |parts| - k
  {
    if k < |parts| {
      var longer := parts[..k + 1];
      assert longer[..k] == parts[..k];
      assert ScanHours(longer) == ScanHours(parts[..k]);
      assert parts[..k + 1][..k + 1] == longer;
      ScanFailureSticks(parts, k + 1);
    } else {
      assert parts[..k] == parts;
    }
  }

  /** One more part on top of a scan that has succeeded so far. */
  lemma ScanOneMore(seen: seq<string>, hours: seq<nat>)
    requires seen != [] && ScanHours(seen[..|seen| - 1]) == Success(hours)
    ensures var part := seen[|seen| - 1];
            ScanHours(seen)
            == if part == "" then Success(hours)
               else if !IsDigits(part) then Failure("Invalid hour value: " + part)
               else if DigitsValue(part) > 23 then Failure("Hour out of range: " + NatToString(DigitsValue(part)))
               else Success(if DigitsValue(part) in hours then hours else hours + [DigitsValue(part)])
  {
  }

  /** The loop of `parse_hours` over the stripped parts: skipping empty
      ones, rejecting non-digit parts and hours past 23, appending each
      hour the first time it is seen. `isdigit` excludes a sign, so the
      `hour < 0` test never fires. */
  method ScanParts(parts: seq<string>) returns (r: Result<seq<nat>, string>)
    ensures r == ScanHours(parts)
  {
    var hours: seq<nat> := [];
    var i := 0;
    while i < |parts|
      invariant 0 <= i <= |parts|
      invariant ScanHours(parts[..i]) == Success(hours)
    {
      var part := parts[i];
      ghost var seen := parts[..i + 1];
      assert seen[..i] == parts[..i] && seen[i] == part;
      ScanOneMore(seen, hours);
      if part != "" {
        if !IsDigits(part) {
          r := Failure("Invalid hour value: " + part);
          ScanFailureSticks(parts, i + 1);
          return;
        }
        var hour := DigitsValue(part);
        if hour < 0 || hour > 23 {
          r := Failure("Hour out of range: " + NatToString(hour));
          ScanFailureSticks(parts, i + 1);
          return;
        }
        if hour !in hours {
          hours := hours + [hour];
        }
      }
      i := i + 1;
    }
    assert parts[..|parts|] == parts;
    r := Success(hours);
  }

  /** `parse_hours`: the scan of the stripped comma-separated parts, and
      the error when it collected no hour. */
  method ParseHours(value: string) returns (r: Result<seq<nat>, string>)
    ensures r == ParsedHours(value)
  {
    var parts := Parts(value);
    r := ScanParts(parts);
    if r.Success? && r.value == [] {
      r := Failure("No valid HOURS provided");
    }
  }

  // ---------------------------------------------------------------------
  // What parse_hours promises
  // ---------------------------------------------------------------------

  /** The values of the non-empty parts, in input order, repeats kept. */
  function Values(parts: seq<string>): (v: seq<nat>)
    requires forall i :: 0 <= i < |parts| ==> GoodPart(parts[i])
    ensures forall h :: h in v ==> h <= 23
    decreases |parts|
  {
    if parts == [] then []
    else
      var init, last := parts[..|parts| - 1], parts[|parts| - 1];
      assert forall i :: 0 <= i < |init| ==> init[i] == parts[i];
      assert GoodPart(last);
      Values(init) + (if last == "" then [] else [DigitsValue(last)])
  }

  predicate Distinct(s: seq<nat>) {
    forall i, j :: 0 <= i < j < |s| ==> s[i] != s[j]
  }

  /** Position of the first occurrence of `x` in `s`. */
  function FirstIndex(s: seq<nat>, x: nat): (k: nat)
    requires x in s
    ensures k < |s| && s[k] == x && x !in s[..k]
  {
    if s[0] == x then 0
    else
      var k := FirstIndex(s[1..], x);
      assert s[1..][..k] == s[1..k + 1];
      k + 1
  }

  /** The first occurrence is the only position with `x` and no earlier `x`. */
  lemma {:induction false} FirstIndexUnique(s: seq<nat>, x: nat, k: nat)
    requires k < |s| && s[k] == x && x !in s[..k]
    ensures FirstIndex(s, x) == k
  {
    if k > 0 {
      assert s[..k][0] == s[0];
      assert s[1..][..k - 1] == s[1..k];
      assert forall y :: y in s[1..k] ==> y in s[..k];
      FirstIndexUnique(s[1..], x, k - 1);
    }
  }

  /** Adding an element at the end does not move a first occurrence. */
  lemma FirstIndexExtend(s: seq<nat>, y: nat, x: nat)
    requires x in s
    ensures FirstIndex(s + [y], x) == FirstIndex(s, x)
  {
    var g := FirstIndex(s, x);
    assert (s + [y])[..g] == s[..g];
    FirstIndexUnique(s + [y], x, g);
  }

  /** A value not in `s` first occurs at the end of `s + [y]`. */
  lemma FirstIndexNew(s: seq<nat>, y: nat)
    requires y !in s
    ensures FirstIndex(s + [y], y) == |s|
  {
    assert (s + [y])[..|s|] == s;
    FirstIndexUnique(s + [y], y, |s|);
  }

  /** The scan succeeds exactly when every part is good. */
  lemma {:induction false} ScanSucceeds(parts: seq<string>)
    ensures ScanHours(parts).Success? <==> forall i :: 0 <= i < |parts| ==> GoodPart(parts[i])
    decreases |parts|
  {
    if parts != [] {
      var init := parts[..|parts| - 1];
      ScanSucceeds(init);
      assert forall i :: 0 <= i < |init| ==> init[i] == parts[i];
    }
  }

  /** The scan's error is the one of the first part that is not good. */
  lemma {:induction false} ScanFirstError(parts: seq<string>, k: nat)
    requires k < |parts| && !GoodPart(parts[k])
    requires forall i :: 0 <= i < k ==> GoodPart(parts[i])
    ensures ScanHours(parts) == Failure(PartError(parts[k]))
  {
    var upto := parts[..k + 1];
    assert upto[..k] == parts[..k];
    ScanSucceeds(parts[..k]);
    assert ScanHours(upto) == Failure(PartError(parts[k]));
    ScanFailureSticks(parts, k + 1);
  }

  /** One step of the scan over good parts: the last part's value is
      appended unless it is empty or already collected. */
  lemma ScanStep(parts: seq<string>)
    requires parts != []
    requires forall i :: 0 <= i < |parts| ==> GoodPart(parts[i])
    ensures var init, last := parts[..|parts| - 1], parts[|parts| - 1];
            && (forall i :: 0 <= i < |init| ==> GoodPart(init[i]))
            && ScanHours(init).Success? && ScanHours(parts).Success?
            && Values(parts) == Values(init) + (if last == "" then [] else [DigitsValue(last)])
            && ScanHours(parts).value
               == (if last == "" || DigitsValue(last) in ScanHours(init).value then ScanHours(init).value
                   else ScanHours(init).value + [DigitsValue(last)])
  {
    var init := parts[..|parts| - 1];
    assert forall i :: 0 <= i < |init| ==> init[i] == parts[i];
    ScanSucceeds(init);
    ScanSucceeds(parts);
  }

  /** On success the hours are exactly the values of the parts, each once. */
  lemma {:induction false} ScanMembers(parts: seq<string>)
    requires forall i :: 0 <= i < |parts| ==> GoodPart(parts[i])
    ensures ScanHours(parts).Success?
    ensures forall h :: h in ScanHours(parts).value <==> h in Values(parts)
    ensures Distinct(ScanHours(parts).value)
    decreases |parts|
  {
    ScanSucceeds(parts);
    if parts != [] {
      ScanStep(parts);
      ScanMembers(parts[..|parts| - 1]);
    }
  }

  /** Appending a value moves no first occurrence of the listed values. */
  lemma ExtendAll(prev: seq<nat>, pv: seq<nat>, hour: nat)
    requires forall h :: h in prev ==> h in pv
    ensures forall i :: 0 <= i < |prev| ==> FirstIndex(pv + [hour], prev[i]) == FirstIndex(pv, prev[i])
  {
    forall i | 0 <= i < |prev|
      ensures FirstIndex(pv + [hour], prev[i]) == FirstIndex(pv, prev[i])
    {
      FirstIndexExtend(pv, hour, prev[i]);
    }
  }

  /** Keeping first occurrences in order survives one more value: the
      collected list either stays as it is or gains the new value last. */
  lemma OrderExtends(prev: seq<nat>, pv: seq<nat>, hour: nat)
    requires forall h :: h in prev <==> h in pv
    requires forall i, j :: 0 <= i < j < |prev| ==> FirstIndex(pv, prev[i]) < FirstIndex(pv, prev[j])
    ensures var hours, v := (if hour in prev then prev else prev + [hour]), pv + [hour];
            forall i, j :: 0 <= i < j < |hours| ==> FirstIndex(v, hours[i]) < FirstIndex(v, hours[j])
  {
    ExtendAll(prev, pv, hour);
    if hour !in prev {
      OrderAppendNew(prev, pv, hour);
    }
  }

  lemma OrderAppendNew(prev: seq<nat>, pv: seq<nat>, hour: nat)
    requires hour !in prev && forall h :: h in prev <==> h in pv
    requires forall i, j :: 0 <= i < j < |prev| ==> FirstIndex(pv, prev[i]) < FirstIndex(pv, prev[j])
    requires forall i :: 0 <= i < |prev| ==> FirstIndex(pv + [hour], prev[i]) == FirstIndex(pv, prev[i])
    ensures var hours, v := prev + [hour], pv + [hour];
            forall i, j :: 0 <= i < j < |hours| ==> FirstIndex(v, hours[i]) < FirstIndex(v, hours[j])
  {
    var v, hours := pv + [hour], prev + [hour];
    FirstIndexNew(pv, hour);
    forall i, j | 0 <= i < j < |hours|
      ensures FirstIndex(v, hours[i]) < FirstIndex(v, hours[j])
    {
      assert hours[i] == prev[i];
      if j < |prev| {
        assert hours[j] == prev[j];
      } else {
        assert hours[j] == hour;
      }
    }
  }

  /** On success the hours keep the order in which their values first
      appear among the parts. */
  lemma {:induction false} ScanOrder(parts: seq<string>)
    requires forall i :: 0 <= i < |parts| ==> GoodPart(parts[i])
    ensures ScanHours(parts).Success?
    ensures forall h :: h in ScanHours(parts).value <==> h in Values(parts)
    ensures var hours, v := ScanHours(parts).value, Values(parts);
            forall i, j :: 0 <= i < j < |hours| ==> FirstIndex(v, hours[i]) < FirstIndex(v, hours[j])
    decreases |parts|
  {
    ScanMembers(parts);
    if parts != [] {
      var init, last := parts[..|parts| - 1], parts[|parts| - 1];
      ScanStep(parts);
      ScanOrder(init);
      var prev, pv := ScanHours(init).value, Values(init);
      if last != "" {
        var hour := DigitsValue(last);
        assert ScanHours(parts).value == if hour in prev then prev else prev + [hour];
        assert Values(parts) == pv + [hour];
        OrderExtends(prev, pv, hour);
      } else {
        assert ScanHours(parts).value == prev && Values(parts) == pv;
      }
    }
  }

  /** Parts that are all empty collect no hour. */
  lemma {:induction false} ScanOfEmptyParts(parts: seq<string>)
    requires forall i :: 0 <= i < |parts| ==> parts[i] == ""
    ensures ScanHours(parts) == Success([])
    decreases |parts|
  {
    if parts != [] {
      var init := parts[..|parts| - 1];
      assert forall i :: 0 <= i < |init| ==> init[i] == parts[i];
      ScanOfEmptyParts(init);
    }
  }

  /** `parse_hours` succeeds exactly when every stripped part is empty or
      a digit string up to 23 and at least one part is not empty. */
  lemma ParseHoursSucceeds(value: string)
    ensures ParsedHours(value).Success?
        <==> (forall i :: 0 <= i < |Parts(value)| ==> GoodPart(Parts(value)[i]))
             && (exists i :: 0 <= i < |Parts(value)| && Parts(value)[i] != "")
  {
    var parts := Parts(value);
    ScanSucceeds(parts);
    if forall i :: 0 <= i < |parts| ==> GoodPart(parts[i]) {
      ScanMembers(parts);
      NonEmptyParts(parts);
      var hours := ScanHours(parts).value;
      if hours != [] {
        assert hours[0] in Values(parts);
      }
      if Values(parts) != [] {
        assert Values(parts)[0] in hours;
      }
    }
  }

  /** The values are empty exactly when every part is. */
  lemma {:induction false} NonEmptyParts(parts: seq<string>)
    requires forall i :: 0 <= i < |parts| ==> GoodPart(parts[i])
    ensures Values(parts) != [] <==> exists i :: 0 <= i < |parts| && parts[i] != ""
    decreases |parts|
  {
    if parts != [] {
      var init := parts[..|parts| - 1];
      assert forall i :: 0 <= i < |init| ==> init[i] == parts[i];
      NonEmptyParts(init);
      if Values(init) != [] {
        var i :| 0 <= i < |init| && init[i] != "";
        assert parts[i] != "";
      }
    }
  }

  /** What a successful `parse_hours` returns: a non-empty list of hours
      in 0..23 without repeats, holding exactly the values of the parts in
      the order they first appear. */
  lemma ParseHoursResult(value: string)
    requires ParsedHours(value).Success?
    ensures var hours := ParsedHours(value).value;
            && hours != []
            && (forall h :: h in hours ==> h <= 23)
            && Distinct(hours)
            && (forall i :: 0 <= i < |Parts(value)| ==> GoodPart(Parts(value)[i]))
            && (forall h :: h in hours <==> h in Values(Parts(value)))
            && (forall i, j :: 0 <= i < j < |hours| ==>
                  FirstIndex(Values(Parts(value)), hours[i]) < FirstIndex(Values(Parts(value)), hours[j]))
  {
    ScanSucceeds(Parts(value));
    ScanMembers(Parts(value));
    ScanOrder(Parts(value));
  }

  /** The error `parse_hours` raises is the one of the first part that
      is not good. */
  lemma ParseHoursFirstError(value: string, k: nat)
    requires k < |Parts(value)| && !GoodPart(Parts(value)[k])
    requires forall i :: 0 <= i < k ==> GoodPart(Parts(value)[i])
    ensures ParsedHours(value) == Failure(PartError(Parts(value)[k]))
  {
    ScanFirstError(Parts(value), k);
  }

  /** With only empty parts, no hour is provided. */
  lemma ParseHoursNoHours(value: string)
    requires forall i :: 0 <= i < |Parts(value)| ==> Parts(value)[i] == ""
    ensures ParsedHours(value) == Failure("No valid HOURS provided")
  {
    ScanOfEmptyParts(Parts(value));
  }

  /** A negative hour is not a digit string, so it is reported as an
      invalid value rather than as out of range. */
  lemma NegativeHourIsInvalid(part: string)
    requires |part| > 0 && part[0] == '-'
    ensures !GoodPart(part) && PartError(part) == "Invalid hour value: " + part
  {
    assert !IsDigit(part[0]);
  }

  /** A single part written with a minus sign, such as "-3", is reported
      as an invalid value, never as an hour out of range. */
  lemma ParseHoursMinusSign(value: string)
    requires ',' !in value && |value| > 0 && value[0] == '-' && !IsSpace(value[|value| - 1])
    ensures ParsedHours(value) == Failure("Invalid hour value: " + value)
  {
    SplitNoSeparator(value, ',');
    StripPlain(value);
    assert Parts(value) == [value];
    NegativeHourIsInvalid(value);
    ScanFirstError([value], 0);
  }

  predicate Blank(s: string) {
    forall k :: 0 <= k < |s| ==> IsSpace(s[k])
  }

  /** A value made of commas and white space splits into blank parts. */
  lemma {:induction false} BlankSplit(value: string)
    requires forall k :: 0 <= k < |value| ==> value[k] == ',' || IsSpace(value[k])
    ensures forall i :: 0 <= i < |Split(value, ',')| ==> Blank(Split(value, ',')[i])
    decreases |value|
  {
    if value != [] {
      var tail := value[1..];
      assert forall k :: 0 <= k < |tail| ==> tail[k] == value[k + 1];
      BlankSplit(tail);
      if value[0] != ',' {
        var rest := Split(tail, ',');
        var first := [value[0]] + rest[0];
        assert Blank(rest[0]);
        assert forall k :: 1 <= k < |first| ==> first[k] == rest[0][k - 1];
        assert Blank(first);
        assert Split(value, ',') == [first] + rest[1..];
      }
    }
  }

  /** Stripping a blank part leaves nothing. */
  lemma {:induction false} StripBlank(part: string)
    requires Blank(part)
    ensures Strip(part) == ""
    decreases |part|
  {
    if part != [] {
      var tail := part[1..];
      assert forall k :: 0 <= k < |tail| ==> tail[k] == part[k + 1];
      StripBlank(tail);
      assert TrimStart(part) == TrimStart(tail);
    }
  }

  /** A value of nothing but commas and white space, such as "" or ",,",
      holds no hour. */
  lemma ParseHoursBlank(value: string)
    requires forall k :: 0 <= k < |value| ==> value[k] == ',' || IsSpace(value[k])
    ensures ParsedHours(value) == Failure("No valid HOURS provided")
  {
    BlankSplit(value);
    var parts := Parts(value);
    forall i | 0 <= i < |parts| ensures parts[i] == "" {
      StripBlank(Split(value, ',')[i]);
    }
    ParseHoursNoHours(value);
  }

  lemma PartsOfThree(value: string, a: string, b: string, c: string)
    requires Split(value, ',') == [a, b, c]
    ensures Parts(value) == [Strip(a), Strip(b), Strip(c)]
  {
  }

  /** A digit string holds neither a comma nor white space at its ends. */
  lemma DigitPartPlain(x: string)
    requires IsDigits(x)
    ensures ',' !in x && Strip(x) == x
  {
    forall k | 0 <= k < |x| ensures x[k] != ',' {
      assert IsDigit(x[k]);
    }
    assert IsDigit(x[0]) && IsDigit(x[|x| - 1]);
    StripPlain(x);
  }

  lemma RepeatLayout(x: string, y: string)
    ensures x + ", " + y + "," + x == x + [','] + (([' '] + y) + [','] + x)
  {
    assert ", " + y == [','] + ([' '] + y);
  }

  lemma SplitThree(a: string, b: string, c: string)
    requires ',' !in a && ',' !in b && ',' !in c
    ensures Split(a + [','] + (b + [','] + c), ',') == [a, b, c]
  {
    SplitAfterPrefix(a, b + [','] + c, ',');
    SplitAfterPrefix(b, c, ',');
    SplitNoSeparator(c, ',');
  }

  /** "x, y,x" splits into the stripped parts x, y, x. */
  lemma RepeatParts(x: string, y: string)
    requires IsDigits(x) && IsDigits(y)
    ensures Parts(x + ", " + y + "," + x) == [x, y, x]
  {
    DigitPartPlain(x);
    DigitPartPlain(y);
    SpaceThenPart(y);
    RepeatLayout(x, y);
    SplitThree(x, [' '] + y, x);
    PartsOfThree(x + ", " + y + "," + x, x, [' '] + y, x);
  }

  lemma SpaceThenPart(y: string)
    requires ',' !in y
    ensures ',' !in [' '] + y && Strip([' '] + y) == Strip(y)
  {
    StripLeadingSpace(' ', y);
  }

  /** Scanning x, y, x for two different hours keeps x once, before y. */
  lemma ScanRepeat(x: string, y: string)
    requires GoodPart(x) && GoodPart(y) && x != "" && y != ""
    requires DigitsValue(x) != DigitsValue(y)
    ensures ScanHours([x, y, x]) == Success([DigitsValue(x), DigitsValue(y)])
  {
    var hx, hy := DigitsValue(x), DigitsValue(y);
    var p1, p2, p3: seq<string> := [x], [x, y], [x, y, x];
    assert p1[..0] == [] && p2[..1] == p1 && p3[..2] == p2;
    assert p1[0] == x && p2[1] == y && p3[2] == x;
    ScanOneMore(p1, []);
    assert [] + [hx] == [hx];
    assert ScanHours(p1) == Success([hx]);
    ScanOneMore(p2, [hx]);
    assert hy !in [hx] && [hx] + [hy] == [hx, hy];
    assert ScanHours(p2) == Success([hx, hy]);
    ScanOneMore(p3, [hx, hy]);
    assert hx in [hx, hy];
  }

  /** A repeated hour is kept once, at its first place: "8, 6,8" gives
      [8, 6]. */
  lemma ParseHoursRepeat(x: string, y: string)
    requires GoodPart(x) && GoodPart(y) && x != "" && y != ""
    requires DigitsValue(x) != DigitsValue(y)
    ensures ParsedHours(x + ", " + y + "," + x) == Success([DigitsValue(x), DigitsValue(y)])
  {
    RepeatParts(x, y);
    ScanRepeat(x, y);
  }

  // ---------------------------------------------------------------------
  // _read_int
  // ---------------------------------------------------------------------

  /** `_read_int(name, default, min_value, max_value)` with the value of
      the environment variable passed in as `raw`. The default is returned
      as it is, without a range check. */
  function ReadInt(raw: Option<string>, name: string, default: int, minValue: int, maxValue: int): (r: Result<int, string>)
    ensures (raw == None || raw == Some("")) ==> r == Success(default)
    ensures raw.Some? && raw.value != "" && r.Success? ==> minValue <= r.value <= maxValue
    ensures raw.Some? && raw.value != "" && r.Success? ==> IsDigits(raw.value) && r.value == DigitsValue(raw.value)
    ensures raw.Some? && raw.value != "" ==>
              (r.Success? <==> IsDigits(raw.value) && minValue <= DigitsValue(raw.value) <= maxValue)
    ensures raw.Some? && raw.value != "" && !IsDigits(raw.value) ==> r == Failure(name + " must be an integer")
    ensures (raw.Some? && IsDigits(raw.value) && !(minValue <= DigitsValue(raw.value) <= maxValue)
             ==> r == Failure(name + " out of range"))
  {
    if raw.None? || raw.value == "" then Success(default)
    else if !IsDigits(raw.value) then Failure(name + " must be an integer")
    else
      var value := DigitsValue(raw.value);
      if value < minValue || value > maxValue then Failure(name + " out of range")
      else Success(value)
  }

  /** A value written in decimal and lying in range reads back unchanged. */
  lemma ReadIntRoundTrip(n: nat, name: string, default: int, minValue: int, maxValue: int)
    requires minValue <= n <= maxValue
    ensures ReadInt(Some(NatToString(n)), name, default, minValue, maxValue) == Success(n)
  {
    NatToStringRoundTrip(n);
  }

  /** The settings' own bounds: absent or empty values give 30, 10 and 7,
      and zero days is out of range. */
  lemma ReadIntDefaults()
    ensures ReadInt(None, "POLL_INTERVAL_SECONDS", 30, 1, 3600) == Success(30)
    ensures ReadInt(Some(""), "REQUEST_TIMEOUT_SECONDS", 10, 1, 120) == Success(10)
    ensures ReadInt(None, "INTERVAL_DAYS", 7, 1, 365) == Success(7)
    ensures ReadInt(Some("0"), "INTERVAL_DAYS", 7, 1, 365) == Failure("INTERVAL_DAYS out of range")
  {
    assert IsDigits("0") && DigitsValue("0") == 0;
    assert "INTERVAL_DAYS" + " out of range" == "INTERVAL_DAYS out of range";
  }
}
