/** The response validator: turns an already-decoded JSON value into typed
    outage records, or fails with the message of the `ValueError` the
    source raises. Parsing is all-or-nothing. */
module ResponseModels {
  import opened Wrappers

  /** A decoded JSON value. Python's `None` and JSON `null` are the same
      value, `Null`. Numbers are never inspected by the validator, so
      their integer/float distinction is not kept. */
  datatype Json =
    | Null
    | Bool(b: bool)
    | Num(n: real)
    | Str(s: string)
    | Arr(items: seq<Json>)
    | Obj(fields: map<string, Json>)

  datatype AddressTeryt = AddressTeryt(streetName: Option<string>)

  datatype Address = Address(numbers: Option<string>, teryt: Option<AddressTeryt>)

  datatype OutageRecord = OutageRecord(
    description: string,
    startAt: string,
    stopAt: string,
    revoked: bool,
    revokedDescription: Option<string>,
    addresses: seq<Address>)

  /** `data.get(key)`: an absent key reads as `None`. */
  function Get(fields: map<string, Json>, key: string): Json {
    if key in fields then fields[key] else Null
  }

  /** `_require_dict`. */
  function RequireDict(v: Json, field: string): (r: Result<map<string, Json>, string>)
    ensures r.Success? <==> v.Obj?
    ensures r.Success? ==> r.value == v.fields
    ensures r.Failure? ==> r.error == field + " must be an object"
  {
    if v.Obj? then Success(v.fields) else Failure(field + " must be an object")
  }

  /** `_require_list`. */
  function RequireList(v: Json, field: string): (r: Result<seq<Json>, string>)
    ensures r.Success? <==> v.Arr?
    ensures r.Success? ==> r.value == v.items
    ensures r.Failure? ==> r.error == field + " must be a list"
  {
    if v.Arr? then Success(v.items) else Failure(field + " must be a list")
  }

  /** `_get_str`: a string is kept, `None` is refused when required and
      kept as `None` otherwise, anything else is refused. */
  function GetStr(v: Json, field: string, required: bool): (r: Result<Option<string>, string>)
    ensures r.Success? <==> v.Str? || (v.Null? && !required)
    ensures r.Success? ==> r.value == if v.Str? then Some(v.s) else None
    ensures r.Failure? ==> r.error == field + (if v.Null? then " is required" else " must be a string")
  {
    if v.Null? then
      if required then Failure(field + " is required") else Success(None)
    else if !v.Str? then Failure(field + " must be a string")
    else Success(Some(v.s))
  }

  /** `_get_str` with `required=True`: the value is a plain string. */
  function GetRequiredStr(v: Json, field: string): (r: Result<string, string>)
    ensures r.Success? <==> v.Str?
    ensures r.Success? ==> r.value == v.s
    ensures r.Failure? ==> r.error == field + (if v.Null? then " is required" else " must be a string")
  {
    var s :- GetStr(v, field, true);
    Success(s.value)
  }

  /** `_get_bool`: only a JSON boolean is accepted; `None` is refused too. */
  function GetBool(v: Json, field: string): (r: Result<bool, string>)
    ensures r.Success? <==> v.Bool?
    ensures r.Success? ==> r.value == v.b
    ensures r.Failure? ==> r.error == field + " must be a boolean"
  {
    if v.Bool? then Success(v.b) else Failure(field + " must be a boolean")
  }

  /** `_parse_address`. */
  function ParseAddress(v: Json): Result<Address, string> {
    var data :- RequireDict(v, "address");
    var numbers :- GetStr(Get(data, "numbers"), "address.numbers", false);
    var tv := Get(data, "teryt");
    if tv.Null? then
      Success(Address(numbers, None))
    else
      var tdata :- RequireDict(tv, "address.teryt");
      var street :- GetStr(Get(tdata, "streetName"), "address.teryt.streetName", false);
      Success(Address(numbers, Some(AddressTeryt(street))))
  }

  /** `[parse(item) for item in items]`: the elements in order; the first
      element that fails makes the whole list fail with its error. */
  function ParseEach<T>(items: seq<Json>, parse: Json -> Result<T, string>): Result<seq<T>, string> {
    if items == [] then Success([])
    else
      var first :- parse(items[0]);
      var rest :- ParseEach(items[1..], parse);
      Success([first] + rest)
  }

  /** `_parse_record`: the fields are checked in the order the source
      reads them, and the first failing check gives the error. */
  function ParseRecord(v: Json): Result<OutageRecord, string> {
    var data :- RequireDict(v, "record");
    var description :- GetRequiredStr(Get(data, "description"), "record.description");
    var startAt :- GetRequiredStr(Get(data, "startAt"), "record.startAt");
    var stopAt :- GetRequiredStr(Get(data, "stopAt"), "record.stopAt");
    var revoked :- GetBool(Get(data, "revoked"), "record.revoked");
    var revokedDescription :- GetStr(Get(data, "revokedDescription"), "record.revokedDescription", false);
    var items :- RequireList(Get(data, "addresses"), "record.addresses");
    var addresses :- ParseEach(items, ParseAddress);
    Success(OutageRecord(description, startAt, stopAt, revoked, revokedDescription, addresses))
  }

  /** `parse_outage_response`. A string payload is first decoded with
      `decode` (standing for `json.loads`, whose failure is a `ValueError`
      too); `None` gives no records. */
  function ParseOutageResponse(payload: Json, decode: string -> Result<Json, string>)
    : Result<seq<OutageRecord>, string>
  {
    if payload.Null? then Success([])
    else
      var data :- if payload.Str? then decode(payload.s) else Success(payload);
      var items :- RequireList(data, "response");
      ParseEach(items, ParseRecord)
  }

  // ---------------------------------------------------------------------
  // The schema, stated declaratively
  // ---------------------------------------------------------------------

  /** A JSON value `_get_str(..., required=False)` accepts. */
  predicate OptionalString(v: Json) {
    v.Null? || v.Str?
  }

  /** The shape of one address: an object whose `numbers` is an optional
      string and whose `teryt`, when present and not null, is an object
      whose `streetName` is an optional string. */
  predicate WellFormedAddress(v: Json) {
    && v.Obj?
    && OptionalString(Get(v.fields, "numbers"))
    && var t := Get(v.fields, "teryt");
       t.Null? || (t.Obj? && OptionalString(Get(t.fields, "streetName")))
  }

  /** The shape of one outage record. */
  predicate WellFormedRecord(v: Json) {
    && v.Obj?
    && Get(v.fields, "description").Str?
    && Get(v.fields, "startAt").Str?
    && Get(v.fields, "stopAt").Str?
    && Get(v.fields, "revoked").Bool?
    && OptionalString(Get(v.fields, "revokedDescription"))
    && var a := Get(v.fields, "addresses");
       a.Arr? && forall i :: 0 <= i < |a.items| ==> WellFormedAddress(a.items[i])
  }

  /** Mapping a parser over a list succeeds exactly when it succeeds on
      every element; the result then has one value per element, in order.
      Otherwise the error is that of the first element that fails. */
  lemma {:induction false} ParseEachAllOrNothing<T>(items: seq<Json>, parse: Json -> Result<T, string>)
    ensures ParseEach(items, parse).Success? <==> forall i :: 0 <= i < |items| ==> parse(items[i]).Success?
    ensures ParseEach(items, parse).Success? ==>
              |ParseEach(items, parse).value| == |items|
              && forall i :: 0 <= i < |items| ==> ParseEach(items, parse).value[i] == parse(items[i]).value
    ensures ParseEach(items, parse).Failure? ==>
              exists i :: && 0 <= i < |items|
                          && (forall j :: 0 <= j < i ==> parse(items[j]).Success?)
                          && parse(items[i]).Failure?
                          && ParseEach(items, parse).error == parse(items[i]).error
  {
    if items != [] {
      ParseEachAllOrNothing(items[1..], parse);
      if parse(items[0]).Success? && ParseEach(items[1..], parse).Failure? {
        var i :| && 0 <= i < |items[1..]|
                 && (forall j :: 0 <= j < i ==> parse(items[1..][j]).Success?)
                 && parse(items[1..][i]).Failure?
                 && ParseEach(items[1..], parse).error == parse(items[1..][i]).error;
        assert parse(items[i + 1]).Failure?;
        assert forall j :: 0 <= j < i + 1 ==> parse(items[j]).Success? by {
          forall j | 0 <= j < i + 1 ensures parse(items[j]).Success? {
            if j > 0 { assert items[j] == items[1..][j - 1]; }
          }
        }
      }
    }
  }

  /** An address parses exactly when it has the address shape. */
  lemma ParseAddressAcceptsSchema(v: Json)
    ensures ParseAddress(v).Success? <==> WellFormedAddress(v)
  {
  }

  /** A record parses exactly when it has the record shape, all of its
      addresses included. */
  lemma ParseRecordAcceptsSchema(v: Json)
    ensures ParseRecord(v).Success? <==> WellFormedRecord(v)
  {
    if v.Obj? {
      var a := Get(v.fields, "addresses");
      if a.Arr? {
        ParseEachAllOrNothing(a.items, ParseAddress);
        forall i | 0 <= i < |a.items|
          ensures ParseAddress(a.items[i]).Success? <==> WellFormedAddress(a.items[i])
        {
          ParseAddressAcceptsSchema(a.items[i]);
        }
      }
    }
  }

  /** A successful parse copies the fields unchanged: the three required
      strings, the flag, the optional revocation text, and one address per
      element of `addresses`. */
  lemma ParseRecordCopiesFields(v: Json)
    requires ParseRecord(v).Success?
    ensures v.Obj?
    ensures var r := ParseRecord(v).value;
            && Get(v.fields, "description") == Str(r.description)
            && Get(v.fields, "startAt") == Str(r.startAt)
            && Get(v.fields, "stopAt") == Str(r.stopAt)
            && Get(v.fields, "revoked") == Bool(r.revoked)
            && Get(v.fields, "revokedDescription") == OptionalToJson(r.revokedDescription)
            && Get(v.fields, "addresses").Arr?
            && |Get(v.fields, "addresses").items| == |r.addresses|
            && forall i :: 0 <= i < |r.addresses| ==>
                 ParseAddress(Get(v.fields, "addresses").items[i]) == Success(r.addresses[i])
  {
    ParseEachAllOrNothing(Get(v.fields, "addresses").items, ParseAddress);
  }

  /** A parsed address carries the input's values unchanged: `numbers` as
      given, no teryt exactly when `teryt` is absent or null, and the
      street name of a teryt object as given. */
  lemma ParseAddressCopiesFields(v: Json)
    requires ParseAddress(v).Success?
    ensures v.Obj?
    ensures var a := ParseAddress(v).value;
            var t := Get(v.fields, "teryt");
            && Get(v.fields, "numbers") == OptionalToJson(a.numbers)
            && (t.Null? <==> a.teryt.None?)
            && (a.teryt.Some? ==> t.Obj? && Get(t.fields, "streetName") == OptionalToJson(a.teryt.value.streetName))
  {
  }

  /** `parse_outage_response` on `None` gives no records, not an error. */
  lemma NoneIsNoRecords(decode: string -> Result<Json, string>)
    ensures ParseOutageResponse(Null, decode) == Success([])
  {
  }

  /** A decoded payload that is not a list (and not `None`, and not a
      string still to decode) is refused as a whole. */
  lemma NonListIsRefused(payload: Json, decode: string -> Result<Json, string>)
    requires !payload.Null? && !payload.Str? && !payload.Arr?
    ensures ParseOutageResponse(payload, decode) == Failure("response must be a list")
  {
    assert "response" + " must be a list" == "response must be a list";
  }

  /** A string payload is decoded once; a string that decodes to `null` is
      refused (the `None` check comes before decoding). */
  lemma StringDecodingToNullIsRefused(s: string, decode: string -> Result<Json, string>)
    requires decode(s) == Success(Null)
    ensures ParseOutageResponse(Str(s), decode) == Failure("response must be a list")
  {
    assert "response" + " must be a list" == "response must be a list";
  }

  /** All or nothing: a list payload succeeds exactly when every element
      has the record shape, and then gives one record per element, in
      order; otherwise no partial list is returned. */
  lemma ResponseAllOrNothing(items: seq<Json>, decode: string -> Result<Json, string>)
    ensures (ParseOutageResponse(Arr(items), decode).Success?
             <==> forall i :: 0 <= i < |items| ==> WellFormedRecord(items[i]))
    ensures ParseOutageResponse(Arr(items), decode).Success? ==>
              var rs := ParseOutageResponse(Arr(items), decode).value;
              |rs| == |items| && forall i :: 0 <= i < |items| ==> Success(rs[i]) == ParseRecord(items[i])
  {
    ParseEachAllOrNothing(items, ParseRecord);
    forall i | 0 <= i < |items| ensures ParseRecord(items[i]).Success? <==> WellFormedRecord(items[i]) {
      ParseRecordAcceptsSchema(items[i]);
    }
  }

  /** Because every lookup goes through `dict.get`, an absent key and a key
      holding `null` are read the same way. */
  lemma RecordAbsentKeyIsNull(m: map<string, Json>, k: string)
    ensures ParseRecord(Obj(m - {k})) == ParseRecord(Obj(m[k := Null]))
  {
    forall key ensures Get(m - {k}, key) == Get(m[k := Null], key) {
    }
  }

  lemma AddressAbsentKeyIsNull(m: map<string, Json>, k: string)
    ensures ParseAddress(Obj(m - {k})) == ParseAddress(Obj(m[k := Null]))
  {
    forall key ensures Get(m - {k}, key) == Get(m[k := Null], key) {
    }
  }

  /** A required string field of a record (`description`, `startAt`,
      `stopAt`) that is absent or null is reported as required; any other
      non-string is reported as not a string. Shown for `description`,
      the first field read, so no earlier check can intervene. */
  lemma DescriptionErrors(m: map<string, Json>)
    requires !Get(m, "description").Str?
    ensures ParseRecord(Obj(m)) == Failure(
              if Get(m, "description").Null? then "record.description is required"
              else "record.description must be a string")
  {
    assert "record.description" + " is required" == "record.description is required";
    assert "record.description" + " must be a string" == "record.description must be a string";
  }

  /** `startAt` is read like `description`, once `description` is good. */
  lemma StartAtErrors(m: map<string, Json>)
    requires Get(m, "description").Str?
    requires !Get(m, "startAt").Str?
    ensures ParseRecord(Obj(m)) == Failure(
              if Get(m, "startAt").Null? then "record.startAt is required"
              else "record.startAt must be a string")
  {
    assert "record.startAt" + " is required" == "record.startAt is required";
    assert "record.startAt" + " must be a string" == "record.startAt must be a string";
  }

  /** `stopAt` is read like `description`, once the two before it are good. */
  lemma StopAtErrors(m: map<string, Json>)
    requires Get(m, "description").Str? && Get(m, "startAt").Str?
    requires !Get(m, "stopAt").Str?
    ensures ParseRecord(Obj(m)) == Failure(
              if Get(m, "stopAt").Null? then "record.stopAt is required"
              else "record.stopAt must be a string")
  {
    assert "record.stopAt" + " is required" == "record.stopAt is required";
    assert "record.stopAt" + " must be a string" == "record.stopAt must be a string";
  }

  /** `revoked` must be a JSON boolean: absent, null or any other type is
      an error once the three strings before it are good. */
  lemma RevokedMustBeBool(m: map<string, Json>)
    requires Get(m, "description").Str? && Get(m, "startAt").Str? && Get(m, "stopAt").Str?
    requires !Get(m, "revoked").Bool?
    ensures ParseRecord(Obj(m)) == Failure("record.revoked must be a boolean")
  {
    var e := "record.revoked" + " must be a boolean";
    assert e == "record.revoked must be a boolean";
    assert GetBool(Get(m, "revoked"), "record.revoked") == Failure(e);
  }

  /** `addresses` absent or null is an error; an empty list is accepted. */
  lemma AddressesMustBeList(m: map<string, Json>)
    requires && Get(m, "description").Str? && Get(m, "startAt").Str? && Get(m, "stopAt").Str?
             && Get(m, "revoked").Bool? && OptionalString(Get(m, "revokedDescription"))
    ensures Get(m, "addresses").Null? ==> ParseRecord(Obj(m)) == Failure("record.addresses must be a list")
    ensures Get(m, "addresses") == Arr([]) ==> ParseRecord(Obj(m)).Success? && ParseRecord(Obj(m)).value.addresses == []
  {
    assert "record.addresses" + " must be a list" == "record.addresses must be a list";
  }

  /** `teryt` absent or null gives no teryt; present but not an object is
      an error (once `numbers` is good). */
  lemma TerytRules(m: map<string, Json>)
    requires OptionalString(Get(m, "numbers"))
    ensures Get(m, "teryt").Null? ==>
              ParseAddress(Obj(m)).Success? && ParseAddress(Obj(m)).value.teryt == None
    ensures !Get(m, "teryt").Null? && !Get(m, "teryt").Obj? ==>
              ParseAddress(Obj(m)) == Failure("address.teryt must be an object")
  {
    assert "address.teryt" + " must be an object" == "address.teryt must be an object";
  }

  // ---------------------------------------------------------------------
  // Rendering records back as JSON: the inverse of the validator
  // ---------------------------------------------------------------------

  function OptionalToJson(o: Option<string>): Json {
    if o.Some? then Str(o.value) else Null
  }

  function AddressToJson(a: Address): Json {
    Obj(map["numbers" := OptionalToJson(a.numbers),
            "teryt" := if a.teryt.Some? then Obj(map["streetName" := OptionalToJson(a.teryt.value.streetName)]) else Null])
  }

  function RecordToJson(r: OutageRecord): Json {
    Obj(map["description" := Str(r.description),
            "startAt" := Str(r.startAt),
            "stopAt" := Str(r.stopAt),
            "revoked" := Bool(r.revoked),
            "revokedDescription" := OptionalToJson(r.revokedDescription),
            "addresses" := Arr(seq(|r.addresses|, i requires 0 <= i < |r.addresses| => AddressToJson(r.addresses[i])))])
  }

  function ResponseToJson(rs: seq<OutageRecord>): Json {
    Arr(seq(|rs|, i requires 0 <= i < |rs| => RecordToJson(rs[i])))
  }

  /** Parsing the JSON rendering of a record list gives the list back. */
  lemma ParseResponseRoundTrip(rs: seq<OutageRecord>, decode: string -> Result<Json, string>)
    ensures ParseOutageResponse(ResponseToJson(rs), decode) == Success(rs)
  {
    var items := ResponseToJson(rs).items;
    forall i | 0 <= i < |rs| ensures ParseRecord(items[i]) == Success(rs[i]) {
      ParseRecordRoundTrip(rs[i]);
    }
    ParseEachAllOrNothing(items, ParseRecord);
    assert ParseEach(items, ParseRecord).value == rs;
  }

  lemma ParseRecordRoundTrip(r: OutageRecord)
    ensures ParseRecord(RecordToJson(r)) == Success(r)
  {
    var m := RecordToJson(r).fields;
    assert Get(m, "description") == Str(r.description);
    assert Get(m, "startAt") == Str(r.startAt);
    assert Get(m, "stopAt") == Str(r.stopAt);
    assert Get(m, "revoked") == Bool(r.revoked);
    assert Get(m, "revokedDescription") == OptionalToJson(r.revokedDescription);
    var items := Get(m, "addresses").items;
    forall i | 0 <= i < |items| ensures ParseAddress(items[i]) == Success(r.addresses[i]) {
      ParseAddressRoundTrip(r.addresses[i]);
    }
    ParseEachAllOrNothing(items, ParseAddress);
    assert ParseEach(items, ParseAddress).value == r.addresses;
  }

  lemma ParseAddressRoundTrip(a: Address)
    ensures ParseAddress(AddressToJson(a)) == Success(a)
  {
    var m := AddressToJson(a).fields;
    assert Get(m, "numbers") == OptionalToJson(a.numbers);
  }
}
