/**
  The browser's log console. Lines are queued as they arrive and flushed in batches; a flush that
  stays within the limit appends one text node, and everything else rebuilds the text. `Console` is
  the state of the page between two events, and the class is that state updated in place.
*/
module LogConsole {
  import opened Wrappers
  import opened Text
  import opened LogBuf

  const MAX_LOG_LINES: nat := 4000

  datatype Console = Console(
    lines: seq<string>,     // logLines
    pending: seq<string>,   // pendingLog
    filter: string,         // logFilter, "" for all services
    services: seq<string>,  // svcSeen, in the order of the options in the dropdown
    nodes: seq<string>)     // the text nodes of the log element

  const EmptyConsole := Console([], [], "", [], [])

  // ---------------------------------------------------------------- rendering

  predicate LineMatches(filter: string, line: string) {
    filter == "" || Contains(line, "[" + filter + "]")
  }

  // lines.filter(lineMatches).map(l => l + "\n").join("")
  function Render(filter: string, lines: seq<string>): string {
    if lines == [] then ""
    else (if LineMatches(filter, lines[0]) then lines[0] + "\n" else "") + Render(filter, lines[1..])
  }

  function Concat(nodes: seq<string>): string {
    if nodes == [] then "" else nodes[0] + Concat(nodes[1..])
  }

  // Assigning textContent leaves one text node, or none for the empty string.
  function SetText(text: string): seq<string> {
    if text == "" then [] else [text]
  }

  // ---------------------------------------------------------------- service names

  predicate IsNameChar(c: char) {
    IsDigit(c) || 'a' <= c <= 'z' || 'A' <= c <= 'Z' || c == '_' || c == '.' || c == '-'
  }

  function NameRun(s: string): (n: nat)
    ensures n <= |s|
  {
    if s == "" || !IsNameChar(s[0]) then 0 else 1 + NameRun(s[1..])
  }

  // The group of a match of /--- \[([\w.-]+)\] \[/ at the start of `s`.
  function ServiceHere(s: string): Option<string> {
    if !StartsWith(s, "--- [") then None
    else
      var n := NameRun(s[5..]);
      if n > 0 && StartsWith(s[5 + n..], "] [") then Some(s[5..5 + n]) else None
  }

  function ServiceOf(line: string): Option<string> {
    if ServiceHere(line).Some? then ServiceHere(line)
    else if line == "" then None
    else ServiceOf(line[1..])
  }

  function NoteService(seen: seq<string>, line: string): seq<string> {
    var m := ServiceOf(line);
    if m.Some? && m.value !in seen then seen + [m.value] else seen
  }

  function NoteServices(seen: seq<string>, lines: seq<string>): seq<string>
    decreases |lines|
  {
    if lines == [] then seen else NoteServices(NoteService(seen, lines[0]), lines[1..])
  }

  // ---------------------------------------------------------------- events

  datatype Event =
    | Receive(line: string)
    | Flush
    | ChooseFilter(option: nat)  // 0 is the entry for all services
    | ClearClicked
    | StreamOpened               // streamLogs resets the console for another target

  function Rebuilt(c: Console): Console {
    c.(nodes := SetText(Render(c.filter, c.lines)))
  }

  function Flushed(c: Console): Console {
    if c.pending == [] then c
    else
      var noted := c.(pending := [], services := NoteServices(c.services, c.pending), lines := c.lines + c.pending);
      if |noted.lines| > MAX_LOG_LINES then
        Rebuilt(noted.(lines := Last(MAX_LOG_LINES, noted.lines)))
      else
        var chunk := Render(c.filter, c.pending);
        if chunk != "" then noted.(nodes := c.nodes + [chunk]) else noted
  }

  function OptionValue(services: seq<string>, option: nat): string {
    if 0 < option <= |services| then services[option - 1] else ""
  }

  function Next(c: Console, e: Event): Console {
    match e
    case Receive(line) => c.(pending := c.pending + [line])
    case Flush => Flushed(c)
    case ChooseFilter(option) => Rebuilt(c.(filter := OptionValue(c.services, option)))
    case ClearClicked => c.(lines := [], nodes := [])
    case StreamOpened => EmptyConsole
  }

  function After(events: seq<Event>): Console {
    if events == [] then EmptyConsole else Next(After(events[..|events| - 1]), events[|events| - 1])
  }

  class Page {
    var logLines: seq<string>
    var pendingLog: seq<string>
    var logFilter: string
    var svcSeen: set<string>
    var options: seq<string>
    var nodes: seq<string>

    ghost predicate Valid()
      reads this
    {
      svcSeen == set o | o in options
    }

    ghost function View(): Console
      reads this
    {
      Console(logLines, pendingLog, logFilter, options, nodes)
    }

    constructor ()
      ensures Valid() && View() == EmptyConsole
    {
      logLines, pendingLog, logFilter, svcSeen, options, nodes := [], [], "", {}, [], [];
    }

    method OnMessage(line: string)
      requires Valid()
      modifies this
      ensures Valid() && View() == Next(old(View()), Receive(line))
    {
      pendingLog := pendingLog + [line];
    }

    method NoteOne(line: string)
      requires Valid()
      modifies this`svcSeen, this`options
      ensures Valid() && options == NoteService(old(options), line)
    {
      var m := ServiceOf(line);
      if m.Some? && m.value !in svcSeen {
        svcSeen := svcSeen + {m.value};
        options := options + [m.value];
      }
    }

    method FlushLog()
      requires Valid()
      modifies this
      ensures Valid() && View() == Next(old(View()), Flush)
    {
      hide Render, NoteService;
      if |pendingLog| == 0 {
        return;
      }
      var incoming := pendingLog;
      pendingLog := [];
      var i := 0;
      while i < |incoming|
        invariant 0 <= i <= |incoming| && Valid()
        invariant NoteServices(options, incoming[i..]) == NoteServices(old(options), incoming)
        invariant View() == old(View()).(pending := [], services := options)
      {
        assert incoming[i..][0] == incoming[i] && incoming[i..][1..] == incoming[i + 1..];
        NoteOne(incoming[i]);
        i := i + 1;
      }
      logLines := logLines + incoming;
      var overflow: int := |logLines| - MAX_LOG_LINES;
      if overflow > 0 {
        logLines := logLines[overflow..];
        RebuildLog();
        return;
      }
      var chunk := Render(logFilter, incoming);
      if chunk != "" {
        nodes := nodes + [chunk];
      }
    }

    method RebuildLog()
      requires Valid()
      modifies this`nodes
      ensures Valid() && View() == Rebuilt(old(View()))
    {
      nodes := SetText(Render(logFilter, logLines));
    }

    method OnFilterChange(option: nat)
      requires Valid()
      modifies this
      ensures Valid() && View() == Next(old(View()), ChooseFilter(option))
    {
      logFilter := OptionValue(options, option);
      RebuildLog();
    }

    method OnClear()
      requires Valid()
      modifies this
      ensures Valid() && View() == Next(old(View()), ClearClicked)
    {
      logLines := [];
      nodes := [];
    }

    method ResetLogConsole()
      requires Valid()
      modifies this
      ensures Valid() && View() == Next(old(View()), StreamOpened)
    {
      logLines := [];
      pendingLog := [];
      logFilter := "";
      svcSeen := {};
      options := [];
      nodes := [];
    }
  }

  // ---------------------------------------------------------------- what the page shows

  // Read off the events alone: what has arrived and was not flushed, what was flushed since the
  // last clear or reset, and what was flushed since the last reset.
  function Waiting(events: seq<Event>): seq<string> {
    if events == [] then []
    else
      var before := Waiting(events[..|events| - 1]);
      match events[|events| - 1]
      case Receive(line) => before + [line]
      case Flush | StreamOpened => []
      case ChooseFilter(_) | ClearClicked => before
  }

  function SinceClear(events: seq<Event>): seq<string> {
    if events == [] then []
    else
      var earlier := events[..|events| - 1];
      match events[|events| - 1]
      case Flush => SinceClear(earlier) + Waiting(earlier)
      case ClearClicked | StreamOpened => []
      case Receive(_) | ChooseFilter(_) => SinceClear(earlier)
  }

  function SinceReset(events: seq<Event>): seq<string> {
    if events == [] then []
    else
      var earlier := events[..|events| - 1];
      match events[|events| - 1]
      case Flush => SinceReset(earlier) + Waiting(earlier)
      case StreamOpened => []
      case Receive(_) | ChooseFilter(_) | ClearClicked => SinceReset(earlier)
  }

  // The option chosen last since the last reset, among those offered then.
  function FilterOf(events: seq<Event>): string {
    if events == [] then ""
    else
      var earlier := events[..|events| - 1];
      match events[|events| - 1]
      case ChooseFilter(option) =>
        var names := NoteServices([], SinceReset(earlier));
        if 1 <= option <= |names| then names[option - 1] else ""
      case StreamOpened => ""
      case Receive(_) | Flush | ClearClicked => FilterOf(earlier)
  }

  lemma {:induction false} RenderConcat(filter: string, a: seq<string>, b: seq<string>)
    ensures Render(filter, a + b) == Render(filter, a) + Render(filter, b)
  {
    hide LineMatches;
    if a == [] {
      assert a + b == b;
    } else {
      assert (a + b)[1..] == a[1..] + b;
      RenderConcat(filter, a[1..], b);
    }
  }

  lemma {:induction false} ConcatAppend(nodes: seq<string>, node: string)
    ensures Concat(nodes + [node]) == Concat(nodes) + node
  {
    if nodes != [] {
      assert (nodes + [node])[1..] == nodes[1..] + [node];
      ConcatAppend(nodes[1..], node);
    } else {
      assert [node][1..] == [];
    }
  }

  lemma TextSet(text: string)
    ensures Concat(SetText(text)) == text
  {
    assert text != "" ==> [text][1..] == [];
  }

  lemma LastOfLast<T>(n: nat, a: seq<T>, b: seq<T>)
    ensures Last(n, Last(n, a) + b) == Last(n, a + b)
  {
    if |a| > n {
      var cut := Last(n, a);
      assert cut + b == (a + b)[|a| - n..];
      if |cut + b| > n {
        assert (cut + b)[|cut + b| - n..] == (a + b)[|a + b| - n..];
      }
    }
  }

  lemma {:induction false} NoteMore(seen: seq<string>, a: seq<string>, b: seq<string>)
    ensures NoteServices(seen, a + b) == NoteServices(NoteServices(seen, a), b)
    decreases |a|
  {
    hide NoteService;
    if a == [] {
      assert a + b == b;
    } else {
      assert (a + b)[1..] == a[1..] + b;
      NoteMore(NoteService(seen, a[0]), a[1..], b);
    }
  }

  predicate Shows(c: Console, events: seq<Event>) {
    && Concat(c.nodes) == Render(c.filter, c.lines)
    && c.lines == Last(4000, SinceClear(events))
    && c.pending == Waiting(events)
    && c.services == NoteServices([], SinceReset(events))
    && c.filter == FilterOf(events) && (c.filter == "" || c.filter in c.services)
  }

  /** One flush, appending or rebuilding, leaves exactly the text that a rebuild would show. */
  lemma FlushIsRebuild(c: Console)
    requires Concat(c.nodes) == Render(c.filter, c.lines) && |c.lines| <= MAX_LOG_LINES
    ensures var f := Flushed(c);
      Concat(f.nodes) == Render(f.filter, f.lines) && f.lines == Last(MAX_LOG_LINES, c.lines + c.pending)
  {
    hide Render, NoteServices, Concat;
    RenderConcat(c.filter, c.lines, c.pending);
    ConcatAppend(c.nodes, Render(c.filter, c.pending));
    TextSet(Render(c.filter, Last(MAX_LOG_LINES, c.lines + c.pending)));
    assert c.pending == [] ==> c.lines + c.pending == c.lines;
  }

  lemma {:induction false} ServicesGrow(seen: seq<string>, lines: seq<string>)
    ensures seen <= NoteServices(seen, lines)
    decreases |lines|
  {
    hide ServiceOf;
    if lines == [] {
    } else {
      ServicesGrow(NoteService(seen, lines[0]), lines[1..]);
    }
  }

  /**
    After every sequence of events the text on the page is the rendering of the buffered lines under
    the current filter, the buffer holds the last 4000 lines flushed since the last clear or reset,
    the dropdown offers the services seen since the last reset, and the current filter is the option
    chosen last among them.
  */
  lemma {:induction false} PageShows(events: seq<Event>)
    ensures Shows(After(events), events)
    decreases |events|
  {
    if events == [] {
    } else {
      var earlier, e := events[..|events| - 1], events[|events| - 1];
      PageShows(earlier);
      EventKeepsShowing(After(earlier), earlier, e);
      assert earlier + [e] == events;
    }
  }

  lemma EventKeepsShowing(c: Console, events: seq<Event>, e: Event)
    requires Shows(c, events)
    ensures Shows(Next(c, e), events + [e])
  {
    hide Render, Concat, NoteServices, Last, Flushed;
    FlushNotes(c);
    var longer := events + [e];
    assert longer[..|longer| - 1] == events;
    match e
    case Receive(_) =>
    case Flush =>
      LastLength(SinceClear(events));
      FlushIsRebuild(c);
      LastOfLast(MAX_LOG_LINES, SinceClear(events), Waiting(events));
      NoteMore([], SinceReset(events), Waiting(events));
      ServicesGrow(c.services, c.pending);
      assert c.pending == [] ==> SinceReset(events) + Waiting(events) == SinceReset(events);
    case ChooseFilter(option) =>
      TextSet(Render(OptionValue(c.services, option), c.lines));
    case ClearClicked => NothingShown(c.filter);
    case StreamOpened => NothingShown("");
  }

  // What a flush leaves alone or does to the rest of the console.
  lemma FlushNotes(c: Console)
    ensures var f := Flushed(c);
      f.pending == [] && f.filter == c.filter && f.services == NoteServices(c.services, c.pending)
  {
    hide Render, Last, Concat;
  }

  lemma LastLength(s: seq<string>)
    ensures |Last(MAX_LOG_LINES, s)| <= MAX_LOG_LINES
  {
  }

  lemma NothingShown(filter: string)
    ensures Render(filter, []) == "" && Concat([]) == "" && Last<string>(MAX_LOG_LINES, []) == []
    ensures NoteServices([], []) == []
  {
  }

  // ---------------------------------------------------------------- the dropdown

  predicate Distinct(names: seq<string>) {
    forall i, k | 0 <= i < k < |names| :: names[i] != names[k]
  }

  predicate Names(lines: seq<string>, name: string) {
    exists line <- lines :: ServiceOf(line) == Some(name)
  }

  /** The dropdown offers every service named by a line, no other one, and none twice. */
  lemma {:induction false} ServicesExact(seen: seq<string>, lines: seq<string>, name: string)
    requires Distinct(seen)
    ensures Distinct(NoteServices(seen, lines))
    ensures name in NoteServices(seen, lines) <==> name in seen || Names(lines, name)
    decreases |lines|
  {
    hide ServiceOf;
    if lines == [] {
    } else {
      assert lines == [lines[0]] + lines[1..];
      ServicesExact(NoteService(seen, lines[0]), lines[1..], name);
    }
  }

  lemma ServiceHereInside(s: string)
    ensures var m := ServiceHere(s); m.Some? ==> StartsWith(s[4..], "[" + m.value + "]")
  {
    hide NameRun;
    if ServiceHere(s).Some? {
      var n := NameRun(s[5..]);
      PrefixChars(s, "--- [");
      PrefixChars(s[5 + n..], "] [");
      assert s[4..][..n + 2] == [s[4]] + s[5..5 + n] + [s[5 + n]];
    }
  }

  /** A line that put a service into the dropdown is shown when that service is chosen. */
  lemma {:induction false} OwnLinesMatch(line: string)
    ensures var m := ServiceOf(line); m.Some? ==> LineMatches(m.value, line)
  {
    hide ServiceHere;
    var m := ServiceOf(line);
    if m.Some? {
      if ServiceHere(line).Some? {
        ServiceHereInside(line);
        ContainsAt(line, "[" + m.value + "]");
        LongEnough(line);
      } else {
        OwnLinesMatch(line[1..]);
      }
    }
  }

  lemma LongEnough(s: string)
    ensures ServiceHere(s).Some? ==> |s| > 5
  {
  }

  // ---------------------------------------------------------------- the text, line by line

  // The lines that are for the chosen service, or all.
  function Visible(filter: string, lines: seq<string>): seq<string> {
    if lines == [] then []
    else
      (if filter == "" || Contains(lines[0], "[" + filter + "]") then [lines[0]] else []) + Visible(filter, lines[1..])
  }

  // A text cut behind every line feed.
  function Cut(text: string): seq<string>
    decreases |text|
  {
    if text == "" then []
    else
      var i := IndexOf(text, '\n');
      if i == |text| then [text] else [text[..i]] + Cut(text[i + 1..])
  }

  lemma CutLine(line: string, rest: string)
    requires '\n' !in line
    ensures Cut(line + "\n" + rest) == [line] + Cut(rest)
  {
    var text := line + "\n" + rest;
    assert text == line + ['\n'] + rest;
    IndexOfSkips(line, '\n', rest);
    assert text[..|line|] == line && text[|line| + 1..] == rest;
  }

  /** The text shown is exactly the visible lines, in order: under a chosen service no other line is shown. */
  lemma {:induction false} TextIsVisibleLines(filter: string, lines: seq<string>)
    requires forall line <- lines :: '\n' !in line
    ensures Cut(Render(filter, lines)) == Visible(filter, lines)
  {
    hide Contains, IndexOf, Cut;
    if lines == [] {
      assert Cut("") == [] by { NothingCut(); }
    } else {
      assert lines[0] in lines;
      var shown := LineMatches(filter, lines[0]);
      var rest, later := Render(filter, lines[1..]), Visible(filter, lines[1..]);
      TextIsVisibleLines(filter, lines[1..]);
      assert Visible(filter, lines) == (if shown then [lines[0]] else []) + later;
      if shown {
        CutLine(lines[0], rest);
      } else {
        assert Render(filter, lines) == "" + rest == rest;
      }
    }
  }

  lemma NothingCut()
    ensures Cut("") == []
  {
  }

  // ---------------------------------------------------------------- the name a line gives

  // The line names this service at this place.
  predicate NamesAt(line: string, i: int, name: string) {
    && name != "" && (forall c <- name :: IsNameChar(c))
    && 0 <= i <= |line| && StartsWith(line[i..], "--- [" + name + "] [")
  }

  lemma {:induction false} NameRunIs(name: string, rest: string)
    requires (forall c <- name :: IsNameChar(c)) && rest != "" && !IsNameChar(rest[0])
    ensures NameRun(name + rest) == |name|
  {
    if name == "" {
      assert name + rest == rest;
    } else {
      assert (name + rest)[1..] == name[1..] + rest;
      NameRunIs(name[1..], rest);
    }
  }

  lemma {:induction false} NameRunChars(s: string)
    ensures forall c <- s[..NameRun(s)] :: IsNameChar(c)
  {
    if s == "" || !IsNameChar(s[0]) {
    } else {
      NameRunChars(s[1..]);
      assert s[..NameRun(s)] == [s[0]] + s[1..][..NameRun(s[1..])];
    }
  }

  lemma NamedHere(s: string, name: string)
    ensures ServiceHere(s) == Some(name) <==> NamesAt(s, 0, name)
  {
    assert s[0..] == s;
    if ServiceHere(s) == Some(name) {
      NameFound(s, name);
    }
    if NamesAt(s, 0, name) {
      NameGiven(s, name);
    }
  }

  lemma NameFound(s: string, name: string)
    requires ServiceHere(s) == Some(name)
    ensures name != "" && (forall c <- name :: IsNameChar(c)) && StartsWith(s, "--- [" + name + "] [")
  {
    hide NameRun;
    var n := NameRun(s[5..]);
    NameRunChars(s[5..]);
    assert s[5..][..n] == name;
    assert s[5 + n..][..3] == "] [";
    assert s[..5 + n + 3] == s[..5] + name + s[5 + n..][..3];
  }

  lemma NameGiven(s: string, name: string)
    requires name != "" && (forall c <- name :: IsNameChar(c)) && StartsWith(s, "--- [" + name + "] [")
    ensures ServiceHere(s) == Some(name)
  {
    hide NameRun;
    var w := "--- [" + name + "] [";
    var rest := s[5 + |name|..];
    assert s[..5] == s[..|w|][..5] == "--- [";
    assert s[5..5 + |name|] == s[..|w|][5..5 + |name|] == name;
    assert rest[..3] == s[..|w|][5 + |name|..] == "] [";
    assert rest[0] == rest[..3][0];
    assert s[5..] == name + rest;
    NameRunIs(name, rest);
  }

  /** A line gives a service its name at the first place where it says `--- [name] [`, and no name without one. */
  lemma {:induction false} ServiceOfIs(line: string)
    ensures var m := ServiceOf(line);
      && (m.Some? ==> exists i :: NamesAt(line, i, m.value) && forall k, name | 0 <= k < i :: !NamesAt(line, k, name))
      && (m.None? ==> forall i, name :: !NamesAt(line, i, name))
  {
    hide ServiceHere, NamesAt;
    forall name ensures ServiceHere(line) == Some(name) <==> NamesAt(line, 0, name) {
      NamedHere(line, name);
    }
    if ServiceHere(line).Some? {
      assert NamesAt(line, 0, ServiceHere(line).value);
    } else if line == "" {
      forall i, name ensures !NamesAt(line, i, name) {
        NamesNothing(i, name);
      }
    } else {
      ServiceOfIs(line[1..]);
      forall i, name ensures NamesAt(line, i, name) <==> i > 0 && NamesAt(line[1..], i - 1, name) {
        if i > 0 {
          NamesLater(line, i, name);
        } else {
          NamesInside(line, i, name);
        }
      }
      var m := ServiceOf(line[1..]);
      if m.Some? {
        var i :| NamesAt(line[1..], i, m.value) && forall k, name | 0 <= k < i :: !NamesAt(line[1..], k, name);
        NamesInside(line[1..], i, m.value);
        NamesLater(line, i + 1, m.value);
        assert NamesAt(line, i + 1, m.value);
      }
    }
  }

  lemma NamesNothing(i: int, name: string)
    ensures !NamesAt("", i, name)
  {
  }

  lemma NamesInside(line: string, i: int, name: string)
    ensures NamesAt(line, i, name) ==> i >= 0
  {
  }

  lemma NamesLater(line: string, i: int, name: string)
    requires line != "" && i > 0
    ensures NamesAt(line, i, name) <==> NamesAt(line[1..], i - 1, name)
  {
    if i <= |line| {
      assert line[1..][i - 1..] == line[i..];
    }
  }
}
