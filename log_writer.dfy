/** The request log: one text file per calendar day, to which entries are
    only ever appended. The directory tree is a map from path to file
    contents; a path that is absent is a file that does not exist. */
module LogWriter {
  import opened Wrappers
  import opened Text
  import opened Clock
  import opened ResponseModels
  import opened HttpClient

  // ---------------------------------------------------------------------
  // Names and formats
  // ---------------------------------------------------------------------

  /** A field `strptime` reads back as `n`: digits only, worth `n`. */
  predicate FieldReads(f: string, n: nat) {
    AllDigits(f) && DigitsValue(f) == n
  }

  /** The zero-padded fields of a valid date-time have their widths and
      read back as the fields. */
  lemma PaddedFields(t: DateTime)
    ensures t.Valid() ==>
              && |Pad(t.year, 4)| == 4 && FieldReads(Pad(t.year, 4), t.year)
              && |Pad(t.month, 2)| == 2 && FieldReads(Pad(t.month, 2), t.month)
              && |Pad(t.day, 2)| == 2 && FieldReads(Pad(t.day, 2), t.day)
              && |Pad(t.hour, 2)| == 2 && FieldReads(Pad(t.hour, 2), t.hour)
              && |Pad(t.minute, 2)| == 2 && FieldReads(Pad(t.minute, 2), t.minute)
              && |Pad(t.second, 2)| == 2 && FieldReads(Pad(t.second, 2), t.second)
  {
    if t.Valid() {
      assert Pow10(2) == 100 && Pow10(4) == 10000;
      PadFits(t.year, 4); PadFits(t.month, 2); PadFits(t.day, 2);
      PadFits(t.hour, 2); PadFits(t.minute, 2); PadFits(t.second, 2);
    }
  }

  /** Six fields of four and two characters with their separators: each
      field sits at a fixed place. */
  lemma StampLayout(y: string, mo: string, d: string, h: string, mi: string, s: string)
    ensures |y| == 4 && |mo| == 2 && |d| == 2 && |h| == 2 && |mi| == 2 && |s| == 2 ==>
              var r := y + "-" + mo + "-" + d + " " + h + ":" + mi + ":" + s;
              && |r| == 19 && r[4] == '-' && r[7] == '-' && r[10] == ' ' && r[13] == ':' && r[16] == ':'
              && r[..4] == y && r[5..7] == mo && r[8..10] == d
              && r[11..13] == h && r[14..16] == mi && r[17..] == s
  {
    if |y| == 4 && |mo| == 2 && |d| == 2 && |h| == 2 && |mi| == 2 && |s| == 2 {
      var r := y + "-" + mo + "-" + d + " " + h + ":" + mi + ":" + s;
      assert r[..4] == y && r[5..7] == mo && r[8..10] == d;
      assert r[11..13] == h && r[14..16] == mi && r[17..] == s;
    }
  }

  /** `strftime("%Y-%m-%d %H:%M:%S")`: for a valid date-time, 19
      characters whose fields read back as the date-time's fields. */
  function Timestamp(t: DateTime): (r: string)
    ensures t.Valid() ==> |r| == 19
    ensures t.Valid() ==> r[4] == '-' && r[7] == '-' && r[10] == ' ' && r[13] == ':' && r[16] == ':'
    ensures t.Valid() ==>
              && FieldReads(r[..4], t.year) && FieldReads(r[5..7], t.month) && FieldReads(r[8..10], t.day)
              && FieldReads(r[11..13], t.hour) && FieldReads(r[14..16], t.minute) && FieldReads(r[17..], t.second)
  {
    var y, mo, d := Pad(t.year, 4), Pad(t.month, 2), Pad(t.day, 2);
    var h, mi, s := Pad(t.hour, 2), Pad(t.minute, 2), Pad(t.second, 2);
    PaddedFields(t);
    StampLayout(y, mo, d, h, mi, s);
    y + "-" + mo + "-" + d + " " + h + ":" + mi + ":" + s
  }

  /** Three fields of four, two and two characters and a suffix: each
      sits at a fixed place. */
  lemma NameLayout(y: string, mo: string, d: string, suffix: string)
    ensures |y| == 4 && |mo| == 2 && |d| == 2 ==>
              var name := y + mo + d + suffix;
              name[..4] == y && name[4..6] == mo && name[6..8] == d && name[8..] == suffix
  {
    if |y| == 4 && |mo| == 2 && |d| == 2 {
      var name := y + mo + d + suffix;
      assert name[..4] == y && name[4..6] == mo && name[6..8] == d && name[8..] == suffix;
    }
  }

  /** `_build_log_filename`: the date as YYYYMMDD followed by "-log.txt";
      for a valid date the three fields read back as the date. */
  function LogFileName(t: DateTime): (name: string)
    ensures |name| > 0 && IsDigit(name[0])
    ensures t.Valid() ==> |name| == 16 && name[8..] == "-log.txt"
    ensures t.Valid() ==>
              FieldReads(name[..4], t.year) && FieldReads(name[4..6], t.month) && FieldReads(name[6..8], t.day)
  {
    var y, mo, d := Pad(t.year, 4), Pad(t.month, 2), Pad(t.day, 2);
    PaddedFields(t);
    NameLayout(y, mo, d, "-log.txt");
    y + mo + d + "-log.txt"
  }

  /** The file name reads back as the date: two valid date-times share a
      log file exactly when they fall on the same calendar day. */
  lemma LogFileNameSameDay(t1: DateTime, t2: DateTime)
    requires t1.Valid() && t2.Valid()
    ensures LogFileName(t1) == LogFileName(t2) <==> t1.Day() == t2.Day()
  {
    var n1, n2 := LogFileName(t1), LogFileName(t2);
    if n1 == n2 {
      assert n1[..4] == n2[..4] && n1[4..6] == n2[4..6] && n1[6..8] == n2[6..8];
    }
  }

  /** `os.path.join(directory, name)` for a name that is not absolute. */
  function JoinPath(directory: string, name: string): (path: string)
    requires name != [] && name[0] != '/'
    ensures |directory| + |name| <= |path| <= |directory| + |name| + 1
    ensures path[..|directory|] == directory && path[|path| - |name|..] == name
    ensures |path| > |directory| + |name| <==> directory != [] && directory[|directory| - 1] != '/'
    ensures |path| > |directory| + |name| ==> path[|directory|] == '/'
  {
    if directory == [] || directory[|directory| - 1] == '/' then directory + name
    else directory + "/" + name
  }

  /** The file a date-time's entries go to. */
  function LogPath(directory: string, t: DateTime): string {
    JoinPath(directory, LogFileName(t))
  }

  /** In one directory, two valid date-times log to the same file exactly
      when they fall on the same day. */
  lemma LogPathSameDay(directory: string, t1: DateTime, t2: DateTime)
    requires t1.Valid() && t2.Valid()
    ensures LogPath(directory, t1) == LogPath(directory, t2) <==> t1.Day() == t2.Day()
  {
    LogFileNameSameDay(t1, t2);
    var n1, n2 := LogFileName(t1), LogFileName(t2);
    var lead := if directory == [] || directory[|directory| - 1] == '/' then directory else directory + "/";
    assert LogPath(directory, t1) == lead + n1;
    assert LogPath(directory, t2) == lead + n2;
    assert (lead + n1)[|lead|..] == n1 && (lead + n2)[|lead|..] == n2;
  }

  /** `_format_status`. */
  function FormatStatus(status: Option<int>): (r: string)
    ensures r == "ERROR" <==> status.None?
    ensures status.Some? ==> r == IntToString(status.value)
  {
    if status.None? then "ERROR"
    else
      assert IntToString(status.value)[0] != 'E';
      IntToString(status.value)
  }

  /** Distinct statuses are written differently. */
  lemma FormatStatusInjective(a: Option<int>, b: Option<int>)
    ensures FormatStatus(a) == FormatStatus(b) <==> a == b
  {
    if a.Some? && b.Some? && FormatStatus(a) == FormatStatus(b) {
      IntToStringRoundTrip(a.value);
      IntToStringRoundTrip(b.value);
    }
  }

  /** `_log_level`. */
  function LogLevel(status: Option<int>, error: Option<string>): (r: string)
    ensures r == "ERROR" || r == "INFO"
    ensures r == "ERROR" <==> (error.Some? && error.value != "") || status.None? || status.value >= 400
  {
    if error.Some? && error.value != "" then "ERROR"
    else if status.None? then "ERROR"
    else if status.value >= 400 then "ERROR"
    else "INFO"
  }

  // ---------------------------------------------------------------------
  // Entries
  // ---------------------------------------------------------------------

  /** What `_append_entry` writes in front of the entry: a newline when
      the file already has contents. */
  function Separator(existing: string): (r: string)
    ensures r == "\n" <==> existing != ""
    ensures r == "" <==> existing == ""
  {
    if existing != "" then "\n" else ""
  }

  /** The entry proper: the lines joined by newlines, a blank line, and
      the body with its own newline when there is one. */
  function EntryText(lines: seq<string>, body: Option<string>): string {
    Join(lines, "\n") + "\n\n" + (if Truthy(body) then body.value + "\n" else "")
  }

  /** The file after `_append_entry`. */
  function Appended(existing: string, lines: seq<string>, body: Option<string>): (r: string)
    ensures existing <= r
    ensures r[|existing|..] == Separator(existing) + EntryText(lines, body)
  {
    var r := existing + Separator(existing) + EntryText(lines, body);
    assert r[|existing|..] == Separator(existing) + EntryText(lines, body);
    r
  }

  /** An appended file always ends with a newline, so the next entry's
      separator leaves exactly one blank line between entries. */
  lemma AppendedEndsWithNewline(existing: string, lines: seq<string>, body: Option<string>)
    ensures var r := Appended(existing, lines, body);
            |r| > 0 && r[|r| - 1] == '\n'
  {
    var e := EntryText(lines, body);
    var tail := if Truthy(body) then body.value + "\n" else "";
    assert e == Join(lines, "\n") + "\n\n" + tail;
    assert |e| > 0 && e[|e| - 1] == '\n';
    var r := Appended(existing, lines, body);
    assert r == existing + Separator(existing) + e;
  }

  /** The entry as the sequence of lines it consists of: the given lines,
      a blank line, the body when there is one, and the empty rest after
      the final newline. */
  function EntryLines(lines: seq<string>, body: Option<string>): seq<string> {
    lines + [""] + (if Truthy(body) then [body.value] else []) + [""]
  }

  /** The entry text is its lines joined by newlines. */
  lemma EntryTextIsLines(lines: seq<string>, body: Option<string>)
    requires lines != []
    ensures EntryText(lines, body) == Join(EntryLines(lines, body), "\n")
  {
    var blank: seq<string> := [""];
    if Truthy(body) {
      var rest: seq<string> := ["", body.value, ""];
      assert EntryLines(lines, body) == lines + rest;
      JoinAppend(lines, rest, "\n");
      assert rest[1..] == [body.value, ""] && rest[1..][1..] == [""];
      assert Join(rest, "\n") == "" + "\n" + (body.value + "\n" + "");
    } else {
      var rest: seq<string> := ["", ""];
      assert EntryLines(lines, body) == lines + rest;
      JoinAppend(lines, rest, "\n");
      assert rest[1..] == [""];
      assert Join(rest, "\n") == "" + "\n" + "";
    }
  }

  /** Entries of single-line strings can be read back: splitting an entry
      on newlines gives its lines, the blank line and the body. */
  lemma EntryReadsBack(lines: seq<string>, body: Option<string>)
    requires lines != []
    requires forall i :: 0 <= i < |lines| ==> '\n' !in lines[i]
    requires body.Some? ==> '\n' !in body.value
    ensures Split(EntryText(lines, body), '\n') == EntryLines(lines, body)
  {
    EntryTextIsLines(lines, body);
    var all := EntryLines(lines, body);
    forall i | 0 <= i < |all| ensures '\n' !in all[i] {
      if i < |lines| {
        assert all[i] == lines[i];
      }
    }
    SplitJoin(all, '\n');
  }

  // ---------------------------------------------------------------------
  // write_log and write_message
  // ---------------------------------------------------------------------

  /** A header built on a stamp starts with the stamp, and the rest is the
      bracketed level. */
  lemma HeaderSplit(stamp: string, level: string)
    ensures var header := stamp + " [" + level + "] ";
            stamp <= header && header[|stamp|..] == " [" + level + "] "
  {
    var tail := " [" + level + "] ";
    assert stamp + " [" + level + "] " == stamp + tail;
  }

  /** The header line both writers start an entry with; note the trailing
      space after the level. */
  function HeaderLine(t: DateTime, level: string): (r: string)
    ensures Timestamp(t) <= r
    ensures r[|Timestamp(t)|..] == " [" + level + "] "
  {
    var stamp := Timestamp(t);
    HeaderSplit(stamp, level);
    stamp + " [" + level + "] "
  }

  /** The lines `write_log` builds for a request. */
  function LogLines(result: RequestResult): (lines: seq<string>)
    ensures |lines| == 5 <==> Truthy(result.error)
    ensures |lines| == 4 <==> !Truthy(result.error)
    ensures lines[0] == HeaderLine(result.requestedAt, LogLevel(result.statusCode, result.error))
    ensures lines[1] == "requested_at=" + Timestamp(result.requestedAt)
    ensures lines[2] == "url=" + result.url
    ensures lines[3] == "status_code=" + FormatStatus(result.statusCode)
    ensures |lines| == 5 ==> lines[4] == "error=" + result.error.value
  {
    var t := result.requestedAt;
    [ HeaderLine(t, LogLevel(result.statusCode, result.error)),
      "requested_at=" + Timestamp(t),
      "url=" + result.url,
      "status_code=" + FormatStatus(result.statusCode) ]
    + (if Truthy(result.error) then ["error=" + result.error.value] else [])
  }

  /** The body `write_log` records: the rendered JSON body when there is
      one, else the text body, else nothing. `dumps` stands for
      `json.dumps(..., indent=2, ensure_ascii=False)`. */
  function LogBody(result: RequestResult, dumps: Json -> string): (body: string)
    ensures result.jsonBody != Null ==> body == dumps(result.jsonBody)
    ensures result.jsonBody == Null && result.textBody.Some? ==> body == result.textBody.value
    ensures result.jsonBody == Null && result.textBody.None? ==> body == ""
  {
    if result.jsonBody != Null then dumps(result.jsonBody)
    else if result.textBody.Some? then result.textBody.value
    else ""
  }

  /** The lines `write_message` builds. */
  function MessageLines(t: DateTime, level: string, message: string): (lines: seq<string>)
    ensures |lines| == 2 && lines[0] == HeaderLine(t, level) && lines[1] == message
  {
    [HeaderLine(t, level), message]
  }

  /** The log directory: one text file per path. */
  class LogStore {
    var files: map<string, string>

    /** An empty directory. */
    constructor ()
      ensures files == map[]
    {
      files := map[];
    }

    /** The contents of a file; a missing file reads as empty, which is
        how `os.path.exists` and `getsize` combine in `_append_entry`. */
    function Contents(path: string): string
      reads this
    {
      if path in files then files[path] else ""
    }

    /** `_append_entry`: the separator, the lines, a blank line and the
        body, written one after another at the end of the file. */
    method AppendEntry(path: string, lines: seq<string>, body: Option<string>)
      modifies this
      ensures files == old(files)[path := Appended(old(Contents(path)), lines, body)]
      ensures old(Contents(path)) <= Contents(path)
    {
      var text := Contents(path);
      ghost var existing := text;
      var prefix := "";
      if text != "" {
        prefix := "\n";
      }
      text := text + prefix;
      text := text + Join(lines, "\n");
      text := text + "\n\n";
      assert text == existing + Separator(existing) + (Join(lines, "\n") + "\n\n");
      if Truthy(body) {
        text := text + body.value;
        text := text + "\n";
        assert text == existing + Separator(existing) + (Join(lines, "\n") + "\n\n" + (body.value + "\n"));
      }
      assert text == Appended(existing, lines, body);
      files := files[path := text];
    }

    /** `write_log`: one entry for a request, in the file of its day. */
    method WriteLog(result: RequestResult, logDir: string, dumps: Json -> string) returns (path: string)
      modifies this
      ensures path == LogPath(logDir, result.requestedAt)
      ensures files == old(files)[path := Appended(old(Contents(path)), LogLines(result), Some(LogBody(result, dumps)))]
    {
      path := JoinPath(logDir, LogFileName(result.requestedAt));
      var level := LogLevel(result.statusCode, result.error);
      var stamp := Timestamp(result.requestedAt);
      var lines := [ stamp + " [" + level + "] ",
                     "requested_at=" + stamp,
                     "url=" + result.url,
                     "status_code=" + FormatStatus(result.statusCode) ];
      if Truthy(result.error) {
        lines := lines + ["error=" + result.error.value];
      }
      var body := "";
      if result.jsonBody != Null {
        body := dumps(result.jsonBody);
      } else if result.textBody.Some? {
        body := result.textBody.value;
      }
      assert lines == LogLines(result);
      AppendEntry(path, lines, Some(body));
    }

    /** `write_message`: a header line and the message, with no body. */
    method WriteMessage(logDir: string, timestamp: DateTime, level: string, message: string) returns (path: string)
      modifies this
      ensures path == LogPath(logDir, timestamp)
      ensures files == old(files)[path := Appended(old(Contents(path)), MessageLines(timestamp, level, message), None)]
    {
      path := JoinPath(logDir, LogFileName(timestamp));
      AppendEntry(path, [Timestamp(timestamp) + " [" + level + "] ", message], None);
    }
  }
}
