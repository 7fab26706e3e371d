/**
  Log lines as server-sent events: the encoder of the event handler, and an
  event-stream parser written from sections 9.2.5 and 9.2.6 of the WHATWG HTML
  standard for it to be read back with.
*/
module Sse {
  import opened Wrappers
  import opened Text

  // ---------------------------------------------------------------- the encoder

  // strings.ReplaceAll(line, "\r\n", "\n")
  function CrLfToLf(s: string): string {
    if s == "" then ""
    else if |s| >= 2 && s[0] == '\r' && s[1] == '\n' then "\n" + CrLfToLf(s[2..])
    else [s[0]] + CrLfToLf(s[1..])
  }

  // strings.Split(s, "\n")
  function SplitLf(s: string): seq<string>
    decreases |s|
  {
    var i := IndexOf(s, '\n');
    if i == |s| then [s] else [s[..i]] + SplitLf(s[i + 1..])
  }

  function DataFields(sublines: seq<string>): string {
    if sublines == [] then "" else "data: " + sublines[0] + "\n" + DataFields(sublines[1..])
  }

  function Encode(line: string): string {
    DataFields(SplitLf(CrLfToLf(line))) + "\n"
  }

  function EncodeAll(lines: seq<string>): string {
    if lines == [] then "" else Encode(lines[0]) + EncodeAll(lines[1..])
  }

  class Response {
    var body: string

    constructor ()
      ensures body == ""
    {
      body := "";
    }

    method SendLine(line: string)
      modifies this
      ensures body == old(body) + Encode(line)
    {
      var sublines := SplitLf(CrLfToLf(line));
      assert sublines[..0] == [];
      for i := 0 to |sublines|
        invariant body == old(body) + DataFields(sublines[..i])
      {
        DataFieldsSnoc(sublines[..i], sublines[i]);
        assert sublines[..i + 1] == sublines[..i] + [sublines[i]];
        body := body + ("data: " + sublines[i] + "\n");
      }
      assert sublines[..|sublines|] == sublines;
      body := body + "\n";
    }

    method SendLines(lines: seq<string>)
      modifies this
      ensures body == old(body) + EncodeAll(lines)
    {
      ghost var sent := "";
      assert lines[..0] == [] && EncodeAll([]) == sent;
      hide Encode, EncodeAll;
      for i := 0 to |lines|
        invariant sent == EncodeAll(lines[..i]) && body == old(body) + sent
      {
        EncodeAllSnoc(lines[..i], lines[i]);
        assert lines[..i + 1] == lines[..i] + [lines[i]];
        SendLine(lines[i]);
        sent := sent + Encode(lines[i]);
      }
      assert lines[..|lines|] == lines;
    }

    /** The event handler: the whole snapshot first, then the lines that come out of the channel. */
    method HandleEvents(snapshot: seq<string>, received: seq<string>)
      modifies this
      ensures body == old(body) + EncodeAll(snapshot + received)
    {
      hide EncodeAll;
      SendLines(snapshot);
      SendLines(received);
      EncodeAllConcat(snapshot, received);
    }
  }

  lemma {:induction false} DataFieldsSnoc(sublines: seq<string>, last: string)
    ensures DataFields(sublines + [last]) == DataFields(sublines) + ("data: " + last + "\n")
  {
    if sublines == [] {
      assert [last][1..] == [];
      assert DataFields([last]) == "data: " + last + "\n" + "";
    } else {
      assert (sublines + [last])[1..] == sublines[1..] + [last];
      DataFieldsSnoc(sublines[1..], last);
    }
  }

  lemma {:induction false} EncodeAllConcat(first: seq<string>, second: seq<string>)
    ensures EncodeAll(first + second) == EncodeAll(first) + EncodeAll(second)
  {
    hide Encode;
    if first == [] {
      assert first + second == second;
    } else {
      assert (first + second)[1..] == first[1..] + second;
      EncodeAllConcat(first[1..], second);
    }
  }

  lemma EncodeAllSnoc(lines: seq<string>, last: string)
    ensures EncodeAll(lines + [last]) == EncodeAll(lines) + Encode(last)
  {
    hide Encode;
    EncodeAllConcat(lines, [last]);
    assert [last][1..] == [];
    assert EncodeAll([last]) == Encode(last) + "";
  }

  // ---------------------------------------------------------------- the parser

  datatype Event = Event(kind: string, data: string, lastId: string)

  // The data, event type and last event ID buffers of section 9.2.6.
  datatype Buffers = Buffers(data: string, kind: string, lastId: string)

  const EmptyBuffers := Buffers("", "", "")

  function EolIndex(s: string): (i: nat)
    ensures i <= |s| && '\r' !in s[..i] && '\n' !in s[..i]
    ensures i < |s| ==> s[i] == '\r' || s[i] == '\n'
  {
    if s == "" || s[0] == '\r' || s[0] == '\n' then 0 else 1 + EolIndex(s[1..])
  }

  // A line ends with CRLF, LF or CR; what is not ended is never processed to an event.
  function NextLine(s: string): (r: Option<(string, string)>)
    ensures r.Some? ==> |r.value.1| < |s| && '\r' !in r.value.0
  {
    var i := EolIndex(s);
    if i == |s| then None
    else if s[i] == '\r' && i + 1 < |s| && s[i + 1] == '\n' then Some((s[..i], s[i + 2..]))
    else Some((s[..i], s[i + 1..]))
  }

  function ProcessField(b: Buffers, name: string, value: string): Buffers {
    if name == "event" then b.(kind := value)
    else if name == "data" then b.(data := b.data + value + "\n")
    else if name == "id" then (if '\0' in value then b else b.(lastId := value))
    else b // "retry" sets the reconnection time, which no event shows; others are ignored
  }

  function ProcessLine(b: Buffers, line: string): Buffers
    requires line != ""
  {
    var i := IndexOf(line, ':');
    if i == 0 then b
    else if i == |line| then ProcessField(b, line, "")
    else
      var value := line[i + 1..];
      ProcessField(b, line[..i], if value != "" && value[0] == ' ' then value[1..] else value)
  }

  function Dispatch(b: Buffers): seq<Event> {
    if b.data == "" then []
    else
      var data := if b.data[|b.data| - 1] == '\n' then b.data[..|b.data| - 1] else b.data;
      [Event(if b.kind == "" then "message" else b.kind, data, b.lastId)]
  }

  function Interpret(b: Buffers, s: string): seq<Event>
    decreases |s|
  {
    match NextLine(s)
    case None => []
    case Some((line, rest)) =>
      if line == "" then Dispatch(b) + Interpret(b.(data := "", kind := ""), rest)
      else Interpret(ProcessLine(b, line), rest)
  }

  function Decode(s: string): seq<Event> {
    Interpret(EmptyBuffers, if s != "" && s[0] == '\U{FEFF}' then s[1..] else s)
  }

  // ---------------------------------------------------------------- round trip

  function AsEvents(lines: seq<string>): seq<Event> {
    seq(|lines|, i requires 0 <= i < |lines| => Event("message", CrLfToLf(lines[i]), ""))
  }

  function Terminated(sublines: seq<string>): string {
    if sublines == [] then "" else sublines[0] + "\n" + Terminated(sublines[1..])
  }

  lemma {:induction false} SplitJoins(s: string)
    ensures Terminated(SplitLf(s)) == s + "\n"
    ensures forall sub <- SplitLf(s) :: '\n' !in sub && forall c <- sub :: c in s
    decreases |s|
  {
    var i := IndexOf(s, '\n');
    if i < |s| {
      SplitJoins(s[i + 1..]);
      assert s == s[..i] + "\n" + s[i + 1..];
      assert Terminated(SplitLf(s)) == s[..i] + "\n" + (s[i + 1..] + "\n");
    } else {
      assert [s][1..] == [];
      assert Terminated([s]) == s + "\n" + "";
    }
  }

  lemma {:induction false} EolIndexSkips(line: string, rest: string)
    requires '\r' !in line && '\n' !in line
    ensures EolIndex(line + "\n" + rest) == |line|
  {
    if line == "" {
    } else {
      assert (line + "\n" + rest)[1..] == line[1..] + "\n" + rest;
      EolIndexSkips(line[1..], rest);
    }
  }

  lemma PlainLine(line: string, rest: string)
    requires '\r' !in line && '\n' !in line
    ensures NextLine(line + "\n" + rest) == Some((line, rest))
  {
    EolIndexSkips(line, rest);
    var s := line + "\n" + rest;
    assert s[..|line|] == line && s[|line| + 1..] == rest;
  }

  lemma DataLine(b: Buffers, sub: string)
    ensures ProcessLine(b, "data: " + sub) == b.(data := b.data + sub + "\n")
  {
    var line := "data: " + sub;
    IndexOfSkips("data", ':', " " + sub);
    assert line == "data" + [':'] + (" " + sub);
    assert line[..4] == "data" && line[5..] == " " + sub;
    assert (" " + sub)[1..] == sub;
  }

  lemma {:induction false} FieldsFillBuffer(b: Buffers, sublines: seq<string>, rest: string)
    requires forall sub <- sublines :: '\r' !in sub && '\n' !in sub
    ensures Interpret(b, DataFields(sublines) + "\n" + rest)
         == Interpret(b.(data := b.data + Terminated(sublines)), "\n" + rest)
    decreases |sublines|
  {
    hide NextLine, ProcessLine, Dispatch;
    if sublines == [] {
      assert DataFields(sublines) + "\n" + rest == "\n" + rest;
      assert b.data + "" == b.data;
    } else {
      var tail := DataFields(sublines[1..]) + "\n" + rest;
      var line := "data: " + sublines[0];
      assert DataFields(sublines) + "\n" + rest == line + "\n" + tail;
      assert '\r' !in line && '\n' !in line by { NoEolInField(sublines[0]); }
      PlainLine(line, tail);
      DataLine(b, sublines[0]);
      var b' := b.(data := b.data + sublines[0] + "\n");
      FieldsFillBuffer(b', sublines[1..], rest);
      assert b'.data + Terminated(sublines[1..]) == b.data + Terminated(sublines);
    }
  }

  lemma NoEolInField(sub: string)
    requires '\r' !in sub && '\n' !in sub
    ensures '\r' !in "data: " + sub && '\n' !in "data: " + sub
  {
  }

  lemma LineDecodes(line: string, rest: string)
    requires '\r' !in CrLfToLf(line)
    ensures Interpret(EmptyBuffers, Encode(line) + rest)
         == [Event("message", CrLfToLf(line), "")] + Interpret(EmptyBuffers, rest)
  {
    hide NextLine, ProcessLine, DataFields, SplitLf, CrLfToLf, Terminated;
    var text := CrLfToLf(line);
    var sublines := SplitLf(text);
    SplitJoins(text);
    FieldsFillBuffer(EmptyBuffers, sublines, rest);
    assert Encode(line) + rest == DataFields(sublines) + "\n" + rest;
    PlainLine("", rest);
    assert "" + "\n" + rest == "\n" + rest;
    assert "" + (text + "\n") == text + "\n";
    assert (text + "\n")[..|text|] == text;
  }

  lemma {:induction false} LinesDecode(lines: seq<string>)
    requires forall line <- lines :: '\r' !in CrLfToLf(line)
    ensures Interpret(EmptyBuffers, EncodeAll(lines)) == AsEvents(lines)
  {
    hide Encode, CrLfToLf, NextLine;
    if lines == [] {
      assert NextLine("").None? by { EmptyStream(); }
    } else {
      LineDecodes(lines[0], EncodeAll(lines[1..]));
      LinesDecode(lines[1..]);
      assert AsEvents(lines) == [Event("message", CrLfToLf(lines[0]), "")] + AsEvents(lines[1..]);
    }
  }

  lemma EmptyStream()
    ensures NextLine("").None?
  {
  }

  lemma {:induction false} NoCrDecoded(b: Buffers, s: string)
    requires '\r' !in b.data
    ensures forall e <- Interpret(b, s) :: '\r' !in e.data
    decreases |s|
  {
    match NextLine(s)
    case None =>
    case Some((line, rest)) =>
      if line == "" {
        NoCrDecoded(b.(data := "", kind := ""), rest);
      } else {
        assert '\r' !in ProcessLine(b, line).data;
        NoCrDecoded(ProcessLine(b, line), rest);
      }
  }

  lemma NoByteOrderMark(lines: seq<string>)
    ensures Decode(EncodeAll(lines)) == Interpret(EmptyBuffers, EncodeAll(lines))
  {
    if lines != [] {
      var sublines := SplitLf(CrLfToLf(lines[0]));
      assert EncodeAll(lines)[0] == 'd';
    }
  }

  // ---------------------------------------------------------------- carriage returns

  /** What becomes of line ends: each CRLF becomes an LF, and everything else stays. */
  lemma {:induction false} CrLfToLfIs(a: string, b: string)
    ensures '\r' !in a ==> CrLfToLf(a + b) == a + CrLfToLf(b)
    ensures CrLfToLf("\r\n" + b) == "\n" + CrLfToLf(b)
    ensures (b == "" || b[0] != '\n') ==> CrLfToLf("\r" + b) == "\r" + CrLfToLf(b)
    ensures CrLfToLf("") == ""
  {
    assert ("\r\n" + b)[2..] == b && ("\r" + b)[1..] == b;
    if a == "" {
      assert a + b == b;
    } else {
      assert (a + b)[1..] == a[1..] + b;
      CrLfToLfIs(a[1..], b);
    }
  }

  // A carriage return here that no line feed follows.
  predicate BareCrAt(line: string, k: int) {
    0 <= k < |line| && line[k] == '\r' && (k + 1 == |line| || line[k + 1] != '\n')
  }

  lemma {:induction false} BareCrStays(line: string)
    ensures '\r' in CrLfToLf(line) <==> exists k :: BareCrAt(line, k)
    decreases |line|
  {
    if line == "" {
    } else {
      var step := if |line| >= 2 && line[0] == '\r' && line[1] == '\n' then 2 else 1;
      var rest := line[step..];
      BareCrStays(rest);
      forall k ensures BareCrAt(line, k) <==> (k == 0 && BareCrAt(line, 0)) || BareCrAt(rest, k - step) {
      }
      if k :| BareCrAt(rest, k) {
        assert BareCrAt(line, k + step);
      }
      if step == 1 && line[0] == '\r' {
        assert BareCrAt(line, 0);
      }
      if k :| BareCrAt(line, k) {
        assert k == 0 || BareCrAt(rest, k - step);
      }
      var head := if step == 2 then "\n" else [line[0]];
      assert CrLfToLf(line) == head + CrLfToLf(rest);
    }
  }

  // What each line is received as; a line without carriage returns as it is.
  predicate Received(events: seq<Event>, lines: seq<string>) {
    && |events| == |lines|
    && forall i | 0 <= i < |lines| ::
         && events[i] == Event("message", CrLfToLf(lines[i]), "")
         && ('\r' !in lines[i] ==> events[i].data == lines[i])
  }

  lemma AsEventsAre(events: seq<Event>, lines: seq<string>)
    ensures Received(events, lines) <==> events == AsEvents(lines)
  {
    hide CrLfToLf;
    forall i | 0 <= i < |lines| && '\r' !in lines[i] ensures CrLfToLf(lines[i]) == lines[i] {
      CrLfToLfIs(lines[i], "");
      assert lines[i] + "" == lines[i];
    }
  }

  /**
    A browser gets back exactly one event per log line, with CRLF turned into LF, empty lines, lines
    with leading spaces and multi-line entries included, if and only if no log line holds a bare CR.
  */
  lemma SseRoundTrip(lines: seq<string>)
    ensures Received(Decode(EncodeAll(lines)), lines) <==> forall line <- lines, k :: !BareCrAt(line, k)
  {
    hide Encode, Interpret, CrLfToLf, BareCrAt;
    NoByteOrderMark(lines);
    AsEventsAre(Decode(EncodeAll(lines)), lines);
    forall line | line in lines ensures '\r' in CrLfToLf(line) <==> exists k :: BareCrAt(line, k) {
      BareCrStays(line);
    }
    if forall line <- lines :: '\r' !in CrLfToLf(line) {
      LinesDecode(lines);
    } else {
      NoCrDecoded(EmptyBuffers, EncodeAll(lines));
      var i :| 0 <= i < |lines| && '\r' in CrLfToLf(lines[i]);
      assert AsEvents(lines)[i].data == CrLfToLf(lines[i]);
    }
  }
}
