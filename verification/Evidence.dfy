/**
  The append-only research evidence: the checker that validates every line of every month, with an
  allowlist of lines pinned by hash, and the recorder that appends one line. JSON text, the schema
  and the hash are a `Host`; the allowlist is a JSON value.
*/
module Evidence {
  import opened Wrappers
  import opened EvidenceLines

  datatype Json =
    | JNull
    | JBool(b: bool)
    | JInt(n: int)
    | JNumber(text: string)
    | JString(s: string)
    | JArray(items: seq<Json>)
    | JObject(fields: map<string, Json>)

  // What the two scripts get from Python's libraries and from git, which stand still meanwhile.
  datatype Host<!R> = Host(
    decode: Bytes -> Option<R>,     // json.loads, None when it raises
    encode: R -> Bytes,             // json.dumps without the final line feed
    errors: R -> seq<string>,       // record_errors
    sha256: Bytes -> string,
    isDigit: char -> bool,          // \d of the re module
    isSpace: char -> bool)          // what str.strip removes

  // known-invalid.json: absent, not JSON, or a JSON value.
  datatype Allowlist = Absent | Unreadable(msg: string) | Parsed(value: Json)

  type Key = (string, int)
  type Months = map<string, Bytes>

  // ---------------------------------------------------------------- one entry of the allowlist

  const ENTRY_FIELDS: set<string> := {"file", "line", "sha256", "reason"}

  // \d{4}-\d{2}\.jsonl
  predicate IsMonthFile<R>(host: Host<R>, s: string) {
    && |s| == 13
    && (forall i | 0 <= i < 7 && i != 4 :: host.isDigit(s[i]))
    && s[4] == '-'
    && s[7..] == ".jsonl"
  }

  predicate IsSha(s: string) {
    |s| == 64 && forall c <- s :: '0' <= c <= '9' || 'a' <= c <= 'f'
  }

  predicate WellFormed<R>(host: Host<R>, entry: Json) {
    && entry.JObject?
    && entry.fields.Keys == ENTRY_FIELDS
    && var file, line, sha, reason :=
         entry.fields["file"], entry.fields["line"], entry.fields["sha256"], entry.fields["reason"];
       && file.JString? && IsMonthFile(host, file.s)
       && line.JInt? && line.n >= 1
       && sha.JString? && IsSha(sha.s)
       && reason.JString? && exists c <- reason.s :: !host.isSpace(c)
  }

  function KeyOf<R>(host: Host<R>, entry: Json): Key
    requires WellFormed(host, entry)
  {
    (entry.fields["file"].s, entry.fields["line"].n)
  }

  function ShaOf<R>(host: Host<R>, entry: Json): string
    requires WellFormed(host, entry)
  {
    entry.fields["sha256"].s
  }

  // Four digits, a hyphen, two digits and the extension.
  ghost predicate NamesMonth<R>(host: Host<R>, file: string) {
    exists year, month ::
      && file == year + "-" + month + ".jsonl"
      && |year| == 4 && |month| == 2 && forall c <- year + month :: host.isDigit(c)
  }

  lemma MonthParts(year: string, month: string, file: string)
    requires file == year + "-" + month + ".jsonl" && |year| == 4 && |month| == 2
    ensures |file| == 13 && file[..4] == year && file[4] == '-' && file[5..7] == month && file[7..] == ".jsonl"
  {
  }

  lemma MonthFileIs<R>(host: Host<R>, file: string)
    ensures IsMonthFile(host, file) <==> NamesMonth(host, file)
  {
    if IsMonthFile(host, file) {
      var year, month := file[..4], file[5..7];
      assert file == year + "-" + month + file[7..];
      assert forall c <- year + month :: host.isDigit(c);
    }
    if year, month :|
      && file == year + "-" + month + ".jsonl"
      && |year| == 4 && |month| == 2 && forall c <- year + month :: host.isDigit(c)
    {
      MonthParts(year, month, file);
      forall i | 0 <= i < 7 && i != 4
        ensures file[i] in year + month
      {
        assert file[i] == if i < 4 then file[..4][i] else file[5..7][i - 5];
      }
    }
  }

  function Entry(file: string, line: int, sha: string, reason: string): Json {
    JObject(map["file" := JString(file), "line" := JInt(line), "sha256" := JString(sha), "reason" := JString(reason)])
  }

  /**
    An entry is accepted exactly if it has the four fields and no other, names a month, counts lines
    from one, gives 64 hexadecimal digits and a reason that is not blank.
  */
  lemma EntryIs<R>(host: Host<R>, entry: Json)
    ensures WellFormed(host, entry) <==>
      exists file, line, sha, reason ::
        && entry == Entry(file, line, sha, reason)
        && NamesMonth(host, file)
        && line > 0
        && |sha| == 64 && (forall c <- sha :: c in "0123456789abcdef")
        && !(forall c <- reason :: host.isSpace(c))
  {
    hide IsMonthFile, NamesMonth, IsSha;
    if WellFormed(host, entry) {
      var file, line := entry.fields["file"].s, entry.fields["line"].n;
      var sha, reason := entry.fields["sha256"].s, entry.fields["reason"].s;
      assert entry.fields == Entry(file, line, sha, reason).fields;
      MonthFileIs(host, file);
      ShaIs(sha);
    }
    if file, line, sha, reason :|
      && entry == Entry(file, line, sha, reason)
      && NamesMonth(host, file)
      && line > 0
      && |sha| == 64 && (forall c <- sha :: c in "0123456789abcdef")
      && !(forall c <- reason :: host.isSpace(c))
    {
      MonthFileIs(host, file);
      ShaIs(sha);
      EntryHolds(file, line, sha, reason);
    }
  }

  lemma HexDigit(c: char)
    ensures c in "0123456789abcdef" <==> '0' <= c <= '9' || 'a' <= c <= 'f'
  {
    var hex := "0123456789abcdef";
    if '0' <= c <= '9' {
      assert hex[c as int - '0' as int] == c;
    } else if 'a' <= c <= 'f' {
      assert hex[10 + c as int - 'a' as int] == c;
    }
  }

  lemma ShaIs(sha: string)
    ensures IsSha(sha) <==> |sha| == 64 && forall c <- sha :: c in "0123456789abcdef"
  {
    forall c | c in sha
      ensures c in "0123456789abcdef" <==> '0' <= c <= '9' || 'a' <= c <= 'f'
    {
      HexDigit(c);
    }
  }

  lemma EntryHolds(file: string, line: int, sha: string, reason: string)
    ensures var fields := Entry(file, line, sha, reason).fields;
      && fields.Keys == ENTRY_FIELDS
      && fields["file"] == JString(file) && fields["line"] == JInt(line)
      && fields["sha256"] == JString(sha) && fields["reason"] == JString(reason)
  {
  }

  /** An entry is about its line of its file and pins that line's hash. */
  lemma EntryPins<R>(host: Host<R>, file: string, line: int, sha: string, reason: string)
    requires WellFormed(host, Entry(file, line, sha, reason))
    ensures KeyOf(host, Entry(file, line, sha, reason)) == (file, line)
    ensures ShaOf(host, Entry(file, line, sha, reason)) == sha
  {
    hide WellFormed;
    EntryHolds(file, line, sha, reason);
  }

  // ---------------------------------------------------------------- what a clean directory is

  predicate EntriesOk<R>(host: Host<R>, entries: seq<Json>) {
    && (forall e <- entries :: WellFormed(host, e))
    && (forall i, k | 0 <= i < k < |entries| :: KeyOf(host, entries[i]) != KeyOf(host, entries[k]))
  }

  predicate IsLineOf(months: Months, key: Key) {
    key.0 in months && 1 <= key.1 <= |SplitLines(months[key.0])|
  }

  function LineOf(months: Months, key: Key): Bytes
    requires IsLineOf(months, key)
  {
    SplitLines(months[key.0])[key.1 - 1]
  }

  predicate RecordOk<R>(host: Host<R>, raw: Bytes) {
    var record := host.decode(raw);
    record.Some? && host.errors(record.value) == []
  }

  /** A line is in order exactly if it is JSON and its record has no errors. */
  lemma RecordOkIs<R>(host: Host<R>, raw: Bytes, record: R)
    ensures host.decode(raw) == None ==> !RecordOk(host, raw)
    ensures host.decode(raw) == Some(record) ==> (RecordOk(host, raw) <==> |host.errors(record)| == 0)
  {
  }

  // This entry of the allowlist is about this line.
  predicate Pins<R>(host: Host<R>, entries: seq<Json>, key: Key, entry: Json) {
    entry in entries && WellFormed(host, entry) && KeyOf(host, entry) == key
  }

  predicate Listed<R>(host: Host<R>, entries: seq<Json>, key: Key) {
    exists e <- entries :: WellFormed(host, e) && KeyOf(host, e) == key
  }

  /** The documented meaning of a check that finds nothing. */
  ghost predicate Clean<R>(host: Host<R>, entries: seq<Json>, months: Months) {
    && EntriesOk(host, entries)
    && (forall e <- entries ::
          IsLineOf(months, KeyOf(host, e)) && host.sha256(LineOf(months, KeyOf(host, e))) == ShaOf(host, e))
    && (forall key: Key :: IsLineOf(months, key) && !Listed(host, entries, key) ==>
          RecordOk(host, LineOf(months, key)))
  }

  // ---------------------------------------------------------------- the checker

  method ReadAllowlist<R>(host: Host<R>, entries: seq<Json>)
    returns (allowed: map<Key, Json>, problems: seq<string>)
    ensures problems == [] <==> EntriesOk(host, entries)
    ensures forall key :: key in allowed <==> Listed(host, entries, key)
    ensures forall key <- allowed :: Pins(host, entries, key, allowed[key])
  {
    hide WellFormed;
    allowed, problems := map[], [];
    var i := 0;
    while i < |entries|
      invariant 0 <= i <= |entries|
      invariant problems == [] <==> EntriesOk(host, entries[..i])
      invariant forall key :: key in allowed <==> Listed(host, entries[..i], key)
      invariant forall key <- allowed :: Pins(host, entries[..i], key, allowed[key])
    {
      var entry := entries[i];
      ghost var before := entries[..i];
      assert entries[..i + 1] == before + [entry];
      OneMoreEntry(host, before, entry);
      i := i + 1;
      if !WellFormed(host, entry) {
        problems := problems + ["invalid known-invalid.json entry"];
        continue;
      }
      var key := KeyOf(host, entry);
      if key in allowed {
        problems := problems + ["duplicate allowlist entry"];
      }
      allowed := allowed[key := entry];
    }
    assert entries[..i] == entries;
  }

  lemma OneMoreEntry<R>(host: Host<R>, before: seq<Json>, entry: Json)
    ensures EntriesOk(host, before + [entry]) <==>
      EntriesOk(host, before) && WellFormed(host, entry) && !Listed(host, before, KeyOf(host, entry))
    ensures forall key :: Listed(host, before + [entry], key) <==>
      Listed(host, before, key) || (WellFormed(host, entry) && KeyOf(host, entry) == key)
  {
    hide WellFormed;
    var all := before + [entry];
    assert forall e :: e in all <==> e in before || e == entry;
    if EntriesOk(host, all) {
      assert entry in all;
      assert forall i | 0 <= i < |before| :: all[i] == before[i];
      assert all[|before|] == entry;
    }
  }

  // A line is what the allowlist says it is, or a valid record.
  predicate LineOk<R>(host: Host<R>, allowed: map<Key, Json>, key: Key, raw: Bytes)
    requires key in allowed ==> WellFormed(host, allowed[key])
  {
    if key in allowed then host.sha256(raw) == ShaOf(host, allowed[key]) else RecordOk(host, raw)
  }

  // Every line of a month, its first `n` lines only, is as it should be.
  predicate LinesOk<R>(host: Host<R>, allowed: map<Key, Json>, name: string, lines: seq<Bytes>, n: nat)
    requires n <= |lines|
    requires forall key <- allowed :: WellFormed(host, allowed[key])
  {
    forall k | 0 <= k < n :: LineOk(host, allowed, (name, k + 1), lines[k])
  }

  // What is wrong with one line.
  method CheckLine<R>(host: Host<R>, allowed: map<Key, Json>, key: Key, raw: Bytes) returns (found: seq<string>)
    requires key in allowed ==> WellFormed(host, allowed[key])
    ensures found == [] <==> LineOk(host, allowed, key, raw)
  {
    hide WellFormed, ShaOf;
    if key in allowed {
      return if host.sha256(raw) != ShaOf(host, allowed[key]) then ["allowlisted line hash mismatch"] else [];
    }
    var record := host.decode(raw);
    if record.None? {
      return ["invalid JSON"];
    }
    return host.errors(record.value);
  }

  method CheckMonth<R>(host: Host<R>, allowed: map<Key, Json>, name: string, content: Bytes)
    returns (problems: seq<string>, seen: set<Key>)
    requires forall key <- allowed :: WellFormed(host, allowed[key])
    ensures var lines := SplitLines(content);
      && (problems == [] <==> LinesOk(host, allowed, name, lines, |lines|))
      && (forall key :: key in seen <==> key in allowed && key.0 == name && 1 <= key.1 <= |lines|)
  {
    hide WellFormed, LineOk;
    var lines := SplitLines(content);
    problems, seen := [], {};
    var n := 0;
    while n < |lines|
      invariant 0 <= n <= |lines|
      invariant problems == [] <==> LinesOk(host, allowed, name, lines, n)
      invariant forall key :: key in seen <==> key in allowed && key.0 == name && 1 <= key.1 <= n
    {
      var key := (name, n + 1);
      if key in allowed {
        seen := seen + {key};
      }
      var found := CheckLine(host, allowed, key, lines[n]);
      problems := problems + found;
      n := n + 1;
    }
  }

  // Every line of these months is as it should be.
  ghost predicate MonthsOk<R>(host: Host<R>, allowed: map<Key, Json>, months: Months, names: set<string>)
    requires forall key <- allowed :: WellFormed(host, allowed[key])
  {
    forall key: Key :: key.0 in names && IsLineOf(months, key) ==>
      LineOk(host, allowed, key, LineOf(months, key))
  }

  lemma OneMoreMonth<R>(host: Host<R>, allowed: map<Key, Json>, months: Months, done: set<string>, name: string)
    requires forall key <- allowed :: WellFormed(host, allowed[key])
    requires name in months
    ensures var lines := SplitLines(months[name]);
      MonthsOk(host, allowed, months, done + {name}) <==>
      MonthsOk(host, allowed, months, done) && LinesOk(host, allowed, name, lines, |lines|)
  {
    hide WellFormed, LineOk;
    var lines := SplitLines(months[name]);
    if MonthsOk(host, allowed, months, done + {name}) {
      forall k | 0 <= k < |lines|
        ensures LineOk(host, allowed, (name, k + 1), lines[k])
      {
        var key: Key := (name, k + 1);
        assert IsLineOf(months, key) && LineOf(months, key) == lines[k];
      }
    }
    if MonthsOk(host, allowed, months, done) && LinesOk(host, allowed, name, lines, |lines|) {
      forall key: Key | key.0 in done + {name} && IsLineOf(months, key)
        ensures LineOk(host, allowed, key, LineOf(months, key))
      {
        if key.0 == name {
          var k := key.1 - 1;
          assert LineOk(host, allowed, (name, k + 1), lines[k]) && key == (name, k + 1);
        }
      }
    }
  }

  lemma PinsAreWellFormed<R>(host: Host<R>, entries: seq<Json>, allowed: map<Key, Json>)
    requires forall key <- allowed :: Pins(host, entries, key, allowed[key])
    ensures forall key <- allowed :: WellFormed(host, allowed[key])
  {
    hide WellFormed;
  }

  lemma PinOfEntry<R>(host: Host<R>, entries: seq<Json>, allowed: map<Key, Json>, e: Json)
    requires EntriesOk(host, entries) && e in entries
    requires forall key :: key in allowed <==> Listed(host, entries, key)
    requires forall key <- allowed :: Pins(host, entries, key, allowed[key])
    ensures WellFormed(host, e) && KeyOf(host, e) in allowed && allowed[KeyOf(host, e)] == e
  {
    hide WellFormed;
    var key := KeyOf(host, e);
    assert Listed(host, entries, key);
    var other := allowed[key];
    var i :| 0 <= i < |entries| && entries[i] == e;
    var k :| 0 <= k < |entries| && entries[k] == other;
  }

  lemma CleanIff<R>(host: Host<R>, entries: seq<Json>, allowed: map<Key, Json>, months: Months)
    requires forall key :: key in allowed <==> Listed(host, entries, key)
    requires forall key <- allowed :: Pins(host, entries, key, allowed[key])
    requires forall key <- allowed :: WellFormed(host, allowed[key])
    ensures Clean(host, entries, months) <==>
      && EntriesOk(host, entries)
      && MonthsOk(host, allowed, months, months.Keys)
      && forall key <- allowed :: IsLineOf(months, key)
  {
    hide WellFormed, RecordOk;
    if EntriesOk(host, entries) {
      forall e | e in entries
        ensures WellFormed(host, e) && KeyOf(host, e) in allowed && allowed[KeyOf(host, e)] == e
      {
        PinOfEntry(host, entries, allowed, e);
      }
    }
  }

  // The loop over the month files.
  method CheckMonths<R>(host: Host<R>, allowed: map<Key, Json>, months: Months)
    returns (problems: seq<string>, seen: set<Key>)
    requires forall key <- allowed :: WellFormed(host, allowed[key])
    ensures problems == [] <==> MonthsOk(host, allowed, months, months.Keys)
    ensures forall key :: key in seen <==> key in allowed && IsLineOf(months, key)
  {
    hide WellFormed, LineOk, MonthsOk;
    problems, seen := [], {};
    var names := months.Keys;
    NoMonths(host, allowed, months);
    assert months.Keys - names == {};
    while names != {}
      invariant names <= months.Keys
      invariant problems == [] <==> MonthsOk(host, allowed, months, months.Keys - names)
      invariant forall key :: key in seen <==> key in allowed && key.0 !in names && IsLineOf(months, key)
      decreases |names|
    {
      var name :| name in names;
      var found, pinned := CheckMonth(host, allowed, name, months[name]);
      OneMoreMonth(host, allowed, months, months.Keys - names, name);
      assert months.Keys - (names - {name}) == months.Keys - names + {name};
      names := names - {name};
      problems := problems + found;
      seen := seen + pinned;
    }
    assert months.Keys - names == months.Keys;
  }

  /** The checker reports nothing exactly when the directory is clean. */
  method Check<R>(host: Host<R>, hasDirectory: bool, allowlist: Allowlist, months: Months)
    returns (problems: seq<string>)
    ensures problems == [] <==>
      hasDirectory && EntriesIn(allowlist).Some? && Clean(host, EntriesIn(allowlist).value, months)
  {
    hide WellFormed, Clean, Listed, Pins, EntriesOk, MonthsOk, IsLineOf;
    if !hasDirectory {
      return ["research/evidence directory is missing"];
    }
    if allowlist.Unreadable? {
      return [allowlist.msg];
    }
    if allowlist.Parsed? && !allowlist.value.JArray? {
      return ["known-invalid.json must be an array"];
    }
    var entries := if allowlist.Parsed? then allowlist.value.items else [];
    var allowed, listProblems := ReadAllowlist(host, entries);
    PinsAreWellFormed(host, entries, allowed);
    var lineProblems, seen := CheckMonths(host, allowed, months);
    problems := listProblems + lineProblems;
    CleanIff(host, entries, allowed, months);
    ghost var clean := problems == [];
    var missing := allowed.Keys - seen;
    ghost var unseen := missing;
    assert forall key <- allowed :: key in unseen <==> !IsLineOf(months, key);
    assert unseen == {} <==> forall key <- allowed :: IsLineOf(months, key);
    while missing != {}
      invariant missing <= unseen
      invariant problems == [] <==> clean && missing == unseen
      decreases |missing|
    {
      var key :| key in missing;
      missing := missing - {key};
      problems := problems + ["allowlisted line is missing"];
    }
  }

  lemma NoMonths<R>(host: Host<R>, allowed: map<Key, Json>, months: Months)
    requires forall key <- allowed :: WellFormed(host, allowed[key])
    ensures MonthsOk(host, allowed, months, {})
  {
  }

  function EntriesIn(allowlist: Allowlist): Option<seq<Json>> {
    match allowlist
    case Absent => Some([])
    case Unreadable(_) => None
    case Parsed(value) => if value.JArray? then Some(value.items) else None
  }

  /** No allowlist is an empty one; anything but an array of JSON is refused. */
  lemma EntriesAre(allowlist: Allowlist, items: seq<Json>)
    ensures EntriesIn(allowlist) == Some(items) <==>
      (allowlist == Absent && |items| == 0) || allowlist == Parsed(JArray(items))
  {
    match allowlist {
      case Absent =>
      case Unreadable(_) =>
      case Parsed(value) =>
    }
  }

  // ---------------------------------------------------------------- the recorder

  function ContentOf(months: Months, name: string): Bytes {
    if name in months then months[name] else []
  }

  function Appended(months: Months, name: string, more: Bytes): Months {
    months[name := ContentOf(months, name) + more]
  }

  function LineFor<R>(host: Host<R>, record: R): Bytes {
    host.encode(record) + [LF]
  }

  lemma AppendedTwice(months: Months, name: string, a: Bytes, b: Bytes)
    ensures Appended(Appended(months, name, a), name, b) == Appended(months, name, a + b)
  {
    assert (ContentOf(months, name) + a) + b == ContentOf(months, name) + (a + b);
  }

  class Directory {
    var months: Months

    constructor (initial: Months)
      ensures months == initial
    {
      months := initial;
    }

    /**
      Appends the record's line with as many partial writes as it takes. A record with errors is
      refused before the file is opened; a write that fails leaves a part of the line behind.
    */
    method AppendRecord<R>(host: Host<R>, record: R, name: string) returns (failure: Option<string>)
      modifies this
      ensures host.errors(record) != [] ==> failure.Some? && months == old(months)
      ensures failure.None? ==> months == Appended(old(months), name, LineFor(host, record))
      ensures failure.None? ==> ContentOf(months, name) == ContentOf(old(months), name) + host.encode(record) + [10]
      ensures host.errors(record) == [] ==>
        exists k | 0 <= k <= |LineFor(host, record)| ::
          months == Appended(old(months), name, LineFor(host, record)[..k])
    {
      hide Appended;
      var errors := host.errors(record);
      if errors != [] {
        return Some(errors[0]);
      }
      var line := LineFor(host, record);
      months := Appended(months, name, []);
      var remaining := line;
      assert line[..0] == [];
      while remaining != []
        invariant |remaining| <= |line| && remaining == line[|line| - |remaining|..]
        invariant months == Appended(old(months), name, line[..|line| - |remaining|])
        decreases |remaining|
      {
        var fails: bool := *;
        if fails {
          return Some("write failed");
        }
        var written: nat :| 1 <= written <= |remaining|;
        ghost var done := |line| - |remaining|;
        assert line[..done] + remaining[..written] == line[..done + written];
        AppendedTwice(old(months), name, line[..done], remaining[..written]);
        months := Appended(months, name, remaining[..written]);
        remaining := remaining[written..];
      }
      assert line[..|line|] == line;
      AppendedContent(old(months), name, line);
      assert ContentOf(old(months), name) + line == ContentOf(old(months), name) + host.encode(record) + [10];
      return None;
    }
  }

  // What JSON promises: one line of text without raw line breaks, read back as it was written.
  ghost predicate Faithful<R>(host: Host<R>, record: R) {
    var line := LineFor(host, record);
    IsLine(line) && |line| > 1 && host.decode(line) == Some(record)
  }

  // ---------------------------------------------------------------- verdicts

  predicate KeyOk<R>(host: Host<R>, entries: seq<Json>, key: Key, raw: Bytes)
    requires EntriesOk(host, entries)
  {
    && (forall e <- entries :: KeyOf(host, e) == key ==> host.sha256(raw) == ShaOf(host, e))
    && (!Listed(host, entries, key) ==> RecordOk(host, raw))
  }

  lemma CleanByLines<R>(host: Host<R>, entries: seq<Json>, months: Months)
    requires EntriesOk(host, entries)
    ensures Clean(host, entries, months) <==>
      && (forall e <- entries :: IsLineOf(months, KeyOf(host, e)))
      && forall key: Key :: IsLineOf(months, key) ==> KeyOk(host, entries, key, LineOf(months, key))
  {
    hide WellFormed, RecordOk;
  }

  // `after` is `before` with one line of one month changed, or added at its end.
  ghost predicate LastLineIs(before: Months, after: Months, name: string, m: nat, line: Bytes) {
    var lines := SplitLines(ContentOf(before, name));
    && |lines| - 1 <= m <= |lines|
    && name in after
    && SplitLines(after[name]) == lines[..m] + [line]
    && forall other | other != name :: (other in after <==> other in before)
         && (other in after ==> after[other] == before[other])
  }

  /** Changing the last line, or adding one, keeps a clean directory clean exactly when that line is in order. */
  lemma VerdictOfLastLine<R>(host: Host<R>, entries: seq<Json>, before: Months, after: Months,
                             name: string, m: nat, line: Bytes)
    requires Clean(host, entries, before) && LastLineIs(before, after, name, m, line)
    ensures Clean(host, entries, after) <==> KeyOk(host, entries, (name, m + 1), line)
  {
    hide WellFormed, RecordOk, Clean, KeyOk, EntriesOk, SplitLines;
    CleanHasEntriesOk(host, entries, before);
    CleanByLines(host, entries, before);
    CleanByLines(host, entries, after);
    NoLines();
    var last: Key := (name, m + 1);
    assert IsLineOf(after, last) && LineOf(after, last) == line;
    forall key: Key | key != last && IsLineOf(after, key)
      ensures IsLineOf(before, key) && LineOf(before, key) == LineOf(after, key)
    {
    }
    forall key: Key | IsLineOf(before, key)
      ensures IsLineOf(after, key)
    {
    }
  }

  lemma NoLines()
    ensures SplitLines([]) == []
  {
  }

  lemma CleanHasEntriesOk<R>(host: Host<R>, entries: seq<Json>, months: Months)
    requires Clean(host, entries, months)
    ensures EntriesOk(host, entries)
    ensures forall key: Key :: !IsLineOf(months, key) ==> !Listed(host, entries, key)
  {
    hide WellFormed;
  }

  // ---------------------------------------------------------------- recording keeps the verdict

  lemma AppendAddsLine(before: Months, name: string, line: Bytes)
    requires IsLine(line) && |line| > 1 && Terminated(ContentOf(before, name))
    ensures LastLineIs(before, Appended(before, name, line), name, |SplitLines(ContentOf(before, name))|, line)
  {
    hide SplitLines, Terminated, IsLine;
    var lines := SplitLines(ContentOf(before, name));
    AppendedLines(ContentOf(before, name), line);
    assert lines[..|lines|] == lines;
  }

  /**
    If the month file is empty or ends with a line break, recording a valid record keeps the
    checker's verdict.
  */
  lemma AppendKeepsClean<R>(host: Host<R>, entries: seq<Json>, months: Months, name: string, record: R)
    requires Clean(host, entries, months) && Terminated(ContentOf(months, name))
    requires Faithful(host, record) && host.errors(record) == []
    ensures var after := Appended(months, name, LineFor(host, record));
      Clean(host, entries, after) && Terminated(ContentOf(after, name))
  {
    hide Clean, LastLineIs, Terminated, WellFormed, SplitLines, IsLine, LineFor, Listed;
    var line := LineFor(host, record);
    var m := |SplitLines(ContentOf(months, name))|;
    AppendAddsLine(months, name, line);
    AppendedIsTerminated(ContentOf(months, name), line);
    CleanHasEntriesOk(host, entries, months);
    var key: Key := (name, m + 1);
    NoLines();
    assert !IsLineOf(months, key);
    EntriesAreListed(host, entries);
    VerdictOfLastLine(host, entries, months, Appended(months, name, line), name, m, line);
  }

  lemma EntriesAreListed<R>(host: Host<R>, entries: seq<Json>)
    requires EntriesOk(host, entries)
    ensures forall e <- entries :: Listed(host, entries, KeyOf(host, e))
  {
    hide WellFormed;
  }

  // One recording after another, each successful.
  function AppendAll<R>(host: Host<R>, months: Months, runs: seq<(string, R)>): Months
    decreases |runs|
  {
    if runs == [] then months
    else AppendAll(host, Appended(months, runs[0].0, LineFor(host, runs[0].1)), runs[1..])
  }

  /**
    Over every sequence of successful recordings into months that end with a line break, a clean
    directory stays clean, and the bytes of every month only grow at their end.
  */
  lemma {:induction false} RunsKeepClean<R>(host: Host<R>, entries: seq<Json>, months: Months, runs: seq<(string, R)>)
    requires Clean(host, entries, months)
    requires forall run <- runs :: Faithful(host, run.1) && host.errors(run.1) == []
    requires forall run <- runs :: Terminated(ContentOf(months, run.0))
    ensures Clean(host, entries, AppendAll(host, months, runs))
    ensures forall name :: ContentOf(months, name) <= ContentOf(AppendAll(host, months, runs), name)
    decreases |runs|
  {
    hide Clean, Terminated, Faithful, LineFor, ContentOf;
    if runs == [] {
    } else {
      var name, record := runs[0].0, runs[0].1;
      assert runs[0] in runs;
      AppendKeepsClean(host, entries, months, name, record);
      var after := Appended(months, name, LineFor(host, record));
      AppendedContent(months, name, LineFor(host, record));
      assert forall run <- runs[1..] :: run in runs;
      RunsKeepClean(host, entries, after, runs[1..]);
    }
  }

  // What these recordings wrote to this month, record by record.
  function LinesTo<R>(host: Host<R>, runs: seq<(string, R)>, name: string): Bytes
    decreases |runs|
  {
    if runs == [] then []
    else (if runs[0].0 == name then host.encode(runs[0].1) + [10] else []) + LinesTo(host, runs[1..], name)
  }

  /** Every month holds what it held, followed by the lines of the records made in it, in their order. */
  lemma {:induction false} RunsAreRecorded<R>(host: Host<R>, months: Months, runs: seq<(string, R)>, name: string)
    ensures ContentOf(AppendAll(host, months, runs), name) == ContentOf(months, name) + LinesTo(host, runs, name)
    decreases |runs|
  {
    hide ContentOf;
    if runs == [] {
    } else {
      AppendedContent(months, runs[0].0, LineFor(host, runs[0].1));
      RunsAreRecorded(host, Appended(months, runs[0].0, LineFor(host, runs[0].1)), runs[1..], name);
    }
  }

  lemma AppendedContent(months: Months, name: string, more: Bytes)
    ensures ContentOf(Appended(months, name, more), name) == ContentOf(months, name) + more
    ensures forall other | other != name ::
      ContentOf(Appended(months, name, more), other) == ContentOf(months, other)
  {
  }

  /**
    The condition is needed: in a month whose last line has not ended, the record runs into that
    line instead of being one of its own, and the verdict is kept exactly when the longer line is
    still what the allowlist or the schema wants.
  */
  lemma UnendedMonthSwallowsRecord<R>(host: Host<R>, entries: seq<Json>, months: Months, name: string, record: R)
    requires Clean(host, entries, months)
    requires Faithful(host, record) && !Terminated(ContentOf(months, name))
    ensures var lines := SplitLines(ContentOf(months, name));
      && lines != []
      && var longer := lines[|lines| - 1] + LineFor(host, record);
         (Clean(host, entries, Appended(months, name, LineFor(host, record))) <==>
            EntriesOk(host, entries) && KeyOk(host, entries, (name, |lines|), longer))
  {
    hide Clean, KeyOk, EntriesOk, Terminated, SplitLines, IsLine, LineFor;
    var lines, line := SplitLines(ContentOf(months, name)), LineFor(host, record);
    AppendedLines(ContentOf(months, name), line);
    CleanHasEntriesOk(host, entries, months);
    VerdictOfLastLine(host, entries, months, Appended(months, name, line), name, |lines| - 1,
                      lines[|lines| - 1] + line);
  }
}
