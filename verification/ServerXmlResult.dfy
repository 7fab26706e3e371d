/**
  What patchServerXML leaves behind: which text of the document it replaces, what the two searches
  find in the result, and what a second patch does to it. Nothing is assumed about the document.
*/
module ServerXmlResult {
  import opened Wrappers
  import opened Text
  import opened Rewriting
  import opened XmlScan
  import opened XmlEdits
  import opened ServerXml
  import opened ServerXmlEdits
  import opened ServerXmlPatch

  // ---------------------------------------------------------------- the patched connector, in parts

  lemma EndsInSlash(t: string)
    ensures EndsWith(t, "/>") <==> |t| >= 2 && t[|t| - 2] == '/' && t[|t| - 1] == '>'
  {
  }

  lemma StemOf(u: string, e: string)
    requires u != "" && (e == "/>" || (e == ">" && u[|u| - 1] != '/'))
    ensures Stem(u + e) == u && Ending(u + e) == e
  {
    hide EndsWith;
    EndsInSlash(u + e);
    assert e == ">" ==> (u + e)[|u + e| - 2] == u[|u| - 1];
  }

  lemma EndingOf(open: string, tag: string)
    requires IsTag(open, tag)
    ensures tag == Stem(tag) + Ending(tag) && |Stem(tag)| >= |open| && Stem(tag)[0] == '<'
    ensures Ending(tag) == "/>" || (Ending(tag) == ">" && Stem(tag)[|Stem(tag)| - 1] != '/')
  {
    hide EndsWith, IsTag;
    StemAndEnding(open, tag);
    TagNotEmpty(open, tag);
    EndsInSlash(tag);
    var u := Stem(tag);
    assert u[0] == tag[0] && u[|u| - 1] == tag[|u| - 1];
  }

  // What may be put between the two: nothing, or attributes.
  predicate Addable(w: string) {
    w == "" || Insertable(w)
  }

  lemma AddedOnce(u: string, e: string, name: string, value: string) returns (w: string)
    requires u != "" && (e == "/>" || (e == ">" && u[|u| - 1] != '/'))
    requires Insertable(" " + name + "=\"" + value + "\"")
    ensures Addable(w) && EnsureAttr(u + e, name, value) == u + w + e
  {
    hide Insertable, Contains;
    StemOf(u, e);
    EnsureAttrIs(u + e, name, value);
    w := if EnsureAttr(u + e, name, value) == u + e then "" else " " + name + "=\"" + value + "\"";
    assert w == "" ==> u + w + e == u + e;
  }

  lemma AddableTwice(u: string, w: string, x: string)
    requires u != "" && Addable(w) && Addable(x)
    ensures Addable(w + x) && u + w + x == u + (w + x)
    ensures (u + w)[|u + w| - 1] == (if w == "" then u[|u| - 1] else '"')
  {
    assert w == "" ==> w + x == x && u + w == u;
    assert x == "" ==> w + x == w;
  }

  /** A patched connector is its own text with the ports replaced, and attributes added before its end. */
  lemma PatchedParts(tag: string, port: int) returns (w: string)
    requires IsTag(CONNECTOR, tag) && tag != "" && PatchedConnector(tag, port).Some?
    ensures Addable(w)
    ensures PatchedConnector(tag, port).value == Rewrite(PortAttr(port), Stem(tag)) + w + Ending(tag)
  {
    hide IsTag, Insertable, Contains, Rewrite, Matches, Stem, Ending, EnsureAttr, Addable;
    EndingOf(CONNECTOR, tag);
    KnownAttrs();
    var u, e := Stem(tag), Ending(tag);
    var r := Rewrite(PortAttr(port), u);
    PlainTail(port, u, e);
    LastCharStays(port, u);
    assert ReplacePort(tag, port).value == r + e;
    var x := AddedOnce(r, e, "URIEncoding", "UTF-8");
    AddableTwice(r, x, "") by { AddsNothing(); }
    var y := AddedOnce(r + x, e, "useBodyEncodingForURI", "true");
    AddableTwice(r, x, y);
    w := x + y;
  }

  lemma AddsNothing()
    ensures Addable("")
  {
  }

  // The edits of a tag whose ports are replaced and that attributes are added to.
  function TagChange(tag: string, port: int, w: string): Edits
    requires tag != ""
  {
    PortEdits(port, Stem(tag)) + ((if w == "" then [] else [Insert(w)]) + Keeps(Ending(tag)))
  }

  lemma EndChange(w: string, e: string)
    requires Addable(w) && (e == ">" || e == "/>")
    ensures var d := (if w == "" then [] else [Insert(w)]) + Keeps(e);
      Changes(d, e, w + e) && d != [] && d[|d| - 1] == Keep('>')
  {
    var d := (if w == "" then [] else [Insert(w)]) + Keeps(e);
    KeepsTurn(e);
    if w == "" {
      assert d == Keeps(e) && w + e == e;
    } else {
      assert d[1..] == Keeps(e);
      assert '<' !in w && '>' !in w;
      ReadInsert(d, w);
    }
  }

  lemma ReadInsert(d: Edits, w: string)
    requires d != [] && d[0] == Insert(w)
    ensures Read(d, false) == Read(d[1..], false) && Read(d, true) == w + Read(d[1..], true)
  {
    assert "" + Read(d[1..], false) == Read(d[1..], false);
  }

  lemma TagChanges(open: string, tag: string, port: int, w: string)
    requires IsTag(open, tag) && tag != "" && Addable(w)
    ensures var d := TagChange(tag, port, w);
      && Changes(d, tag, Rewrite(PortAttr(port), Stem(tag)) + w + Ending(tag))
      && d != [] && d[0] == Keep('<') && d[|d| - 1] == Keep('>')
  {
    hide IsTag, Rewrite, Stem, Ending, Addable, Changes, PortsOnly, Keeps, PortEdits;
    TagNotEmpty(open, tag);
    EndingOf(open, tag);
    var u, e := Stem(tag), Ending(tag);
    var r := Rewrite(PortAttr(port), u);
    PortsTurn(port, u);
    EndChange(w, e);
    var tail := (if w == "" then [] else [Insert(w)]) + Keeps(e);
    ChangesConcat(PortEdits(port, u), tail, u, r, e, w + e);
    assert r + (w + e) == r + w + e;
  }

  // ---------------------------------------------------------------- the connector is rewritten

  function EndLayout(l: Layout, port: int): Layout {
    if l.ServerInside? then l.(v := Rewrite(PortAttr(port), l.v)) else l
  }

  // What has become of the <Server> tag when the connector `k` is in place, `w` added to it.
  function EndServer(l: Layout, server: string, k: string, port: int, w: string): string
    requires server != ""
  {
    match l
    case ConnectorInside(_, u, _) => u + k
    case ServerInside(_, _, _) => Rewrite(PortAttr(port), Stem(server)) + w + Ending(server)
    case _ => server
  }

  // The document with `k` in the connector's place.
  function WithConnector(l: Layout, server: string, k: string): string {
    BeforeConnector(l, server) + k + BehindConnector(l, server)
  }

  lemma {:induction false} SelectedIsLive(s: string, i: nat)
    ensures var c := Select(s, i); c.Some? ==>
      !InComment(s, c.value) && Qualifies(s[c.value..c.value + TagLen(CONNECTOR, s[c.value..])])
    decreases |s| - i
  {
    hide TagLen, InComment, Qualifies;
    if i >= |s| {
    } else {
      var n := TagLen(CONNECTOR, s[i..]);
      SelectedIsLive(s, if n == 0 then i + 1 else i + n);
    }
  }

  lemma ConnectorIsLive(l: Layout, xml: string, server: string, connector: string)
    requires Found(l, xml, server, connector)
    ensures Qualifies(connector) && !InComment(xml, |BeforeConnector(l, server)|)
    ensures connector != "" && server != ""
    ensures xml == WithConnector(l, server, connector)
    ensures IsTag(CONNECTOR, connector) && IsTag(SERVER, server)
  {
    hide Select, FindTag, TagLen, InComment, Qualifies, IsTag, BeforeConnector, BehindConnector, ServerTag;
    FoundTags(l, xml, server, connector);
    SelectedIsLive(xml, 0);
    TagNotEmpty(CONNECTOR, connector);
    TagNotEmpty(SERVER, server);
  }

  lemma SelectedAgain(l: Layout, xml: string, server: string, connector: string, k: string)
    requires Found(l, xml, server, connector)
    requires IsTag(CONNECTOR, k) && Qualifies(k) && (Closes(k) ==> Closes(connector))
    ensures Select(WithConnector(l, server, k), 0) == Some(|BeforeConnector(l, server)|)
  {
    hide Select, FindTag, IsTag, Qualifies, Closes, BeforeConnector, BehindConnector, InComment, BeforeServer, BehindServer;
    ConnectorIsLive(l, xml, server, connector);
    SelectHere(BeforeConnector(l, server), connector, k, BehindConnector(l, server), 0);
  }

  // The connector's tag before and after, and the edits between.
  predicate Replaced(connector: string, k: string, port: int, w: string) {
    && IsTag(CONNECTOR, connector) && connector != "" && Addable(w)
    && k == Rewrite(PortAttr(port), Stem(connector)) + w + Ending(connector)
    && IsTag(CONNECTOR, k) && Qualifies(k) && (Closes(k) ==> Closes(connector))
  }

  lemma StepBefore(l: Layout, xml: string, server: string, connector: string, k: string, port: int, w: string)
    requires Found(l, xml, server, connector) && l.ConnectorFirst? && Replaced(connector, k, port, w)
    ensures Found(l, WithConnector(l, server, k), server, k)
  {
    hide Select, FindTag, IsTag, Qualifies, Closes, Rewrite, Stem, Ending, Changes, Keeps, TagChange, PortsOnly;
    var a, x, b := l.a, l.x, l.b;
    SelectedAgain(l, xml, server, connector, k);
    TagNotEmpty(SERVER, server);
    KeepsTurn(a);
    KeepsTurn(x);
    KeepsTurn(b);
    KeepsTurn(server);
    TurnsBegin(Keeps(b), b, b);
    TagChanges(CONNECTOR, connector, port, w);
    var d := TagChange(connector, port, w);
    ChangesConcat(Keeps(a), d, a, a, connector, k);
    ChangesConcat(Keeps(a) + d, Keeps(x), a + connector, a + k, x, x);
    ServerTurns(Keeps(a) + d + Keeps(x), Keeps(server), Keeps(b), a + connector + x, a + k + x, server, server, b, b);
    Reassociate(a, k, x, server, b);
  }

  lemma StepBehind(l: Layout, xml: string, server: string, connector: string, k: string, port: int, w: string)
    requires Found(l, xml, server, connector) && l.ServerFirst? && Replaced(connector, k, port, w)
    ensures Found(l, WithConnector(l, server, k), server, k)
  {
    hide Select, FindTag, IsTag, Qualifies, Closes, Rewrite, Stem, Ending, Changes, Keeps, TagChange, PortsOnly;
    var a, x, b := l.a, l.x, l.b;
    SelectedAgain(l, xml, server, connector, k);
    TagNotEmpty(SERVER, server);
    KeepsTurn(a);
    KeepsTurn(x);
    KeepsTurn(b);
    KeepsTurn(server);
    TagChanges(CONNECTOR, connector, port, w);
    var d := TagChange(connector, port, w);
    ChangesConcat(Keeps(x), d, x, x, connector, k);
    ChangesConcat(Keeps(x) + d, Keeps(b), x + connector, x + k, b, b);
    BeginsWithText(x, d, b);
    ServerTurns(Keeps(a), Keeps(server), Keeps(x) + d + Keeps(b), a, a, server, server, x + connector + b, x + k + b);
    Reassociate(a, server, x, k, b);
  }

  lemma BeginsWithText(x: string, d: Edits, b: string)
    requires d != [] && d[0].Keep?
    ensures Begins(Keeps(x) + d + Keeps(b))
  {
    KeepsTurn(x);
  }

  lemma StepInside(l: Layout, xml: string, server: string, connector: string, k: string, port: int, w: string)
    requires Found(l, xml, server, connector) && l.ConnectorInside? && Replaced(connector, k, port, w)
    ensures Found(l, WithConnector(l, server, k), l.u + k, k)
  {
    hide Select, FindTag, IsTag, Qualifies, Closes, Rewrite, Stem, Ending, Changes, Keeps, TagChange, PortsOnly;
    var a, u, b := l.a, l.u, l.b;
    SelectedAgain(l, xml, server, connector, k);
    TagNotEmpty(SERVER, server);
    TagNotEmpty(CONNECTOR, connector);
    TagNotEmpty(CONNECTOR, k);
    LastOnly(CONNECTOR, k);
    OuterTag(SERVER, u, connector, k);
    assert u[0] == server[0];
    KeepsTurn(a);
    KeepsTurn(u);
    KeepsTurn(b);
    TurnsBegin(Keeps(b), b, b);
    TagChanges(CONNECTOR, connector, port, w);
    var d := TagChange(connector, port, w);
    ChangesConcat(Keeps(u), d, u, u, connector, k);
    ServerTurns(Keeps(a), Keeps(u) + d, Keeps(b), a, a, u + connector, u + k, b, b);
    NestedJoin(a, u, k, b);
  }

  lemma ServerChanges(server: string, port: int, w: string)
    requires IsTag(SERVER, server) && server != "" && Addable(w)
    ensures IsTag(SERVER, Rewrite(PortAttr(port), Stem(server)) + w + Ending(server))
  {
    hide IsTag, Rewrite, Stem, Ending, Insertable;
    EndingOf(SERVER, server);
    TagNotEmpty(SERVER, server);
    var u, e := Stem(server), Ending(server);
    var r := Rewrite(PortAttr(port), u);
    PortsKeepTag(SERVER, server, port);
    PlainTail(port, u, e);
    LastCharStays(port, u);
    StemOf(r, e);
    if w == "" {
      assert r + w + e == r + e;
    } else {
      InsertKeepsTag(SERVER, r + e, w);
    }
  }

  // The end of a nested tag is the end of the tag around it.
  lemma StemOver(v: string, t: string)
    requires IsTag(SERVER, t)
    ensures Stem(v + t) == v + Stem(t) && Ending(v + t) == Ending(t)
  {
    hide IsTag;
    TagNotEmpty(SERVER, t);
    EndingOf(SERVER, t);
    var u, e := Stem(t), Ending(t);
    StemOf(v + u, e);
    assert v + t == v + u + e;
  }

  lemma StepAround(l: Layout, xml: string, server: string, connector: string, k: string, port: int, w: string)
    requires Found(l, xml, server, connector) && l.ServerInside? && Replaced(connector, k, port, w) && server != ""
    ensures Found(EndLayout(l, port), WithConnector(l, server, k), EndServer(l, server, k, port, w), k)
  {
    hide Select, FindTag, IsTag, Qualifies, Closes, Rewrite, Stem, Ending, Changes, Keeps, TagChange, PortsOnly, PortEdits,
         Addable;
    var a, v, b := l.a, l.v, l.b;
    SelectedAgain(l, xml, server, connector, k);
    TagNotEmpty(SERVER, server);
    var v', t := Rewrite(PortAttr(port), v), EndServer(l, server, k, port, w);
    ServerChanges(server, port, w);
    KnownEnd(v, server, k, port, w);
    NotErased(port, v);
    KeepsTurn(a);
    KeepsTurn(b);
    TurnsBegin(Keeps(b), b, b);
    PortsTurn(port, v);
    TagChanges(SERVER, server, port, w);
    var d := TagChange(server, port, w);
    ChangesConcat(Keeps(a), PortEdits(port, v), a, a, v, v');
    ServerTurns(Keeps(a) + PortEdits(port, v), d, Keeps(b), a + v, a + v', server, t, b, b);
    NestedJoin(a, v', t, b);
  }

  lemma KnownEnd(v: string, server: string, k: string, port: int, w: string)
    requires IsTag(SERVER, server)
    requires k == Rewrite(PortAttr(port), Stem(v + server)) + w + Ending(v + server)
    ensures k == Rewrite(PortAttr(port), v) + (Rewrite(PortAttr(port), Stem(server)) + w + Ending(server))
  {
    hide IsTag, Rewrite, Stem, Ending;
    StemOver(v, server);
    EndingOf(SERVER, server);
    RewriteSplit(port, v, Stem(server));
    Regroup(Rewrite(PortAttr(port), v), Rewrite(PortAttr(port), Stem(server)), w, Ending(server));
  }

  lemma Regroup(p: string, q: string, w: string, e: string)
    ensures (p + q) + w + e == p + (q + w + e)
  {
  }

  /** Rewriting the connector leaves both tags where they are found, as this says. */
  lemma ConnectorStep(l: Layout, xml: string, server: string, connector: string, k: string, port: int, w: string)
    requires Found(l, xml, server, connector) && Replaced(connector, k, port, w) && server != ""
    ensures Found(EndLayout(l, port), WithConnector(l, server, k), EndServer(l, server, k, port, w), k)
  {
    hide Found, Replaced, Rewrite, WithConnector;
    match l
    case ConnectorFirst(_, _, _) => StepBefore(l, xml, server, connector, k, port, w);
    case ServerFirst(_, _, _) => StepBehind(l, xml, server, connector, k, port, w);
    case ConnectorInside(_, _, _) => StepInside(l, xml, server, connector, k, port, w);
    case ServerInside(_, _, _) => StepAround(l, xml, server, connector, k, port, w);
  }

  // ---------------------------------------------------------------- the stages of a patch

  lemma PatchedInPlace(l: Layout, xml: string, server: string, connector: string, port: int)
    requires Found(l, xml, server, connector) && PatchConnector(xml, port).Ok?
    ensures connector != "" && PatchedConnector(connector, port).Some?
    ensures PatchConnector(xml, port).value == WithConnector(l, server, PatchedConnector(connector, port).value)
  {
    hide TagLen, Select, FindTag, IsTag, PatchedConnector, ServerTag;
    FoundTags(l, xml, server, connector);
    TagNotEmpty(CONNECTOR, connector);
    AroundPiece(BeforeConnector(l, server), connector, BehindConnector(l, server));
  }

  lemma AroundPiece(a: string, t: string, b: string)
    ensures (a + t + b)[..|a|] == a && (a + t + b)[|a| + |t|..] == b
  {
  }

  lemma ConnectorReplaced(connector: string, port: int) returns (w: string)
    requires IsTag(CONNECTOR, connector) && Qualifies(connector) && connector != ""
    requires PatchedConnector(connector, port).Some?
    ensures Replaced(connector, PatchedConnector(connector, port).value, port, w)
  {
    hide IsTag, Qualifies, Closes, PatchedConnector, Rewrite, Stem, Ending, Addable, CarriesPort, Contains;
    ConnectorPatched(connector, port);
    w := PatchedParts(connector, port);
  }

  // Whether the two tags share text.
  predicate TagsOverlap(xml: string)
    requires Select(xml, 0).Some?
  {
    SpansOverlap(FindTag(SERVER, xml), |ServerTag(xml)|, Select(xml, 0).value, |ConnectorTag(xml)|)
  }

  // The connector when it is its turn.
  function MidTag(xml: string, l: Layout, port: int): string
    requires Select(xml, 0).Some?
  {
    MidConnector(l, ServerTag(xml), ConnectorTag(xml), port)
  }

  /** The document before, between and after the two replacements. */
  lemma Stages(xml: string, httpPort: int, shutdownPort: int) returns (l: Layout, k: string, w: string)
    requires Patch(xml, httpPort, shutdownPort).Ok?
    ensures FindTag(SERVER, xml) < |xml| && Select(xml, 0).Some?
    ensures HasPort(ServerTag(xml)) && HasPort(if shutdownPort >= 0 then ConnectorTag(xml) else Outside(xml))
    ensures Found(l, xml, ServerTag(xml), ConnectorTag(xml)) && (Apart(l) <==> !TagsOverlap(xml))
    ensures Outside(xml) == OutsideOf(l, ConnectorTag(xml))
    ensures var server, mid := Rewrite(PortAttr(shutdownPort), ServerTag(xml)), MidTag(xml, l, shutdownPort);
      var m, y := MidLayout(l, shutdownPort), Patch(xml, httpPort, shutdownPort).value;
      && server != "" && mid != ""
      && Found(m, Midway(xml, shutdownPort), server, mid)
      && PatchedConnector(mid, httpPort) == Some(k) && Replaced(mid, k, httpPort, w)
      && y == WithConnector(m, server, k)
      && Found(EndLayout(m, httpPort), y, EndServer(m, server, k, httpPort, w), k)
  {
    hide FindTag, Select, HasPort, ServerTag, ConnectorTag, PatchConnector, Patch, Found, Midway, Outside, MidConnector,
         OutsideOf, MidLayout, PatchedConnector, Replaced, WithConnector, EndLayout, EndServer, Rewrite, Qualifies, IsTag;
    PatchOutcome(xml, httpPort, shutdownPort);
    PatchSteps(xml, httpPort, shutdownPort);
    l := Layouts(xml);
    OutsideIs(l, xml);
    var server, mid := Rewrite(PortAttr(shutdownPort), ServerTag(xml)), MidTag(xml, l, shutdownPort);
    var m, text := MidLayout(l, shutdownPort), Midway(xml, shutdownPort);
    ServerStep(l, xml, ServerTag(xml), ConnectorTag(xml), shutdownPort);
    ConnectorIsLive(m, text, server, mid);
    PatchedInPlace(m, text, server, mid, httpPort);
    k := PatchedConnector(mid, httpPort).value;
    w := ConnectorReplaced(mid, httpPort);
    ConnectorStep(m, text, server, mid, k, httpPort, w);
  }

  // ---------------------------------------------------------------- ports replaced by ports

  /** Ports that were just replaced are replaced again as the ports they replaced would have been. */
  lemma {:induction false} RewriteOver(port: int, last: int, s: string)
    requires port >= 0
    ensures Rewrite(PortAttr(last), Rewrite(PortAttr(port), s)) == Rewrite(PortAttr(last), s)
    decreases |s|
  {
    hide Replacement, MatchLen, Rewrite;
    var rule, rule' := PortAttr(port), PortAttr(last);
    if s == "" {
      EmptyText(rule);
    } else {
      var n := MatchLen(rule, s);
      var r := Rewrite(rule, s);
      FirstCharStays(rule, s);
      OneScanStep(rule, s);
      OneScanStep(rule', s);
      OneScanStep(rule', r);
      SameMatch(port, last, s);
      SameMatch(port, last, r);
      if n > 0 {
        var rest := Rewrite(rule, s[n..]);
        PortReplacement(port, s[..n]);
        PortReplacement(last, s[..n]);
        PortReplacement(last, PortText(port));
        PortTextMatches(rule, rest);
        assert r[..|PortText(port)|] == PortText(port) && r[|PortText(port)|..] == rest;
        RewriteOver(port, last, s[n..]);
      } else {
        CopyStays(rule, s);
        assert r[1..] == Rewrite(rule, s[1..]);
        RewriteOver(port, last, s[1..]);
      }
    }
  }

  lemma SameMatch(port: int, last: int, s: string)
    ensures MatchLen(PortAttr(port), s) == MatchLen(PortAttr(last), s)
  {
    hide StartsWith, DigitRun;
  }

  lemma SamePatch(tag: string, tag': string, port: int)
    requires tag != "" && tag' != "" && (HasPort(tag) <==> HasPort(tag'))
    requires Rewrite(PortAttr(port), tag) == Rewrite(PortAttr(port), tag')
    ensures PatchedConnector(tag, port) == PatchedConnector(tag', port)
  {
    hide HasPort, Rewrite, EnsureAttr;
    ReplacePortNeeds(tag, port);
    ReplacePortNeeds(tag', port);
  }

  // What rewriting the <Server> tag does to the connector is undone by rewriting the connector.
  lemma MidPatched(l: Layout, xml: string, server: string, connector: string, port: int, last: int)
    requires Found(l, xml, server, connector) && (port >= 0 || Apart(l))
    ensures var mid := MidConnector(l, server, connector, port);
      && (HasPort(mid) <==> HasPort(connector))
      && Rewrite(PortAttr(last), mid) == Rewrite(PortAttr(last), connector)
  {
    hide HasPort, Rewrite, IsTag, FindTag, Select;
    TagNotEmpty(SERVER, server);
    if l.ConnectorInside? {
      RewrittenHasPort(connector, port);
      RewriteOver(port, last, connector);
    } else if l.ServerInside? {
      FirstCharStays(PortAttr(port), server);
      PortsSplit(l.v, Rewrite(PortAttr(port), server));
      PortsSplit(l.v, server);
      RewrittenHasPort(server, port);
      RewriteOver(port, last, server);
    }
  }

  // ---------------------------------------------------------------- which text is replaced

  // `y` is `xml` with its tag `s` at `p` become `s'` and its tag `k` at `c` become `k'`.
  predicate TwoSpans(xml: string, y: string, p: nat, s: string, s': string, c: nat, k: string, k': string) {
    && p + |s| <= |xml| && xml[p..p + |s|] == s
    && c + |k| <= |xml| && xml[c..c + |k|] == k
    && if p + |s| <= c then
         y == xml[..p] + s' + xml[p + |s|..c] + k' + xml[c + |k|..]
       else
         c + |k| <= p && y == xml[..c] + k' + xml[c + |k|..p] + s' + xml[p + |s|..]
  }

  lemma SpansInOrder(a: string, s: string, s': string, m: string, k: string, k': string, b: string)
    ensures TwoSpans(a + s + m + k + b, a + s' + m + k' + b, |a|, s, s', |a| + |s| + |m|, k, k')
  {
    var xml := a + s + m + k + b;
    var p, c := |a|, |a| + |s| + |m|;
    assert xml[..p] == a && xml[p..p + |s|] == s && xml[p + |s|..c] == m;
    assert xml[c..c + |k|] == k && xml[c + |k|..] == b;
  }

  lemma SpansInReverse(a: string, k: string, k': string, m: string, s: string, s': string, b: string)
    requires s != ""
    ensures TwoSpans(a + k + m + s + b, a + k' + m + s' + b, |a| + |k| + |m|, s, s', |a|, k, k')
  {
    var xml := a + k + m + s + b;
    var c, p := |a|, |a| + |k| + |m|;
    assert xml[..c] == a && xml[c..c + |k|] == k && xml[c + |k|..p] == m;
    assert xml[p..p + |s|] == s && xml[p + |s|..] == b;
  }

  lemma FirstSpans(a: string, x: string, b: string, server: string, connector: string, server': string, k: string)
    requires server != ""
    ensures TwoSpans(a + connector + (x + server + b), a + k + (x + server' + b), |a + connector + x|, server, server',
                     |a|, connector, k)
  {
    hide TwoSpans;
    FlatLeft(a, connector, x, server, b);
    FlatLeft(a, k, x, server', b);
    SpansInReverse(a, connector, k, x, server, server', b);
  }

  lemma LastSpans(a: string, x: string, b: string, server: string, connector: string, server': string, k: string)
    ensures TwoSpans(a + server + (x + connector + b), a + server' + x + k + b, |a|, server, server',
                     |a + server + x|, connector, k)
  {
    hide TwoSpans;
    FlatLeft(a, server, x, connector, b);
    SpansInOrder(a, server, server', x, connector, k, b);
  }

  lemma ApartSpans(l: Layout, xml: string, server: string, connector: string, server': string, k: string)
    requires LaidOut(l, xml, server, connector) && Apart(l) && server != ""
    ensures TwoSpans(xml, WithConnector(l, server', k), |BeforeServer(l, connector)|, server, server',
                     |BeforeConnector(l, server)|, connector, k)
  {
    hide TwoSpans, LaidOut;
    ApartIs(l, xml, server, connector, server', k);
    if l.ConnectorFirst? {
      FirstSpans(l.a, l.x, l.b, server, connector, server', k);
    } else {
      LastSpans(l.a, l.x, l.b, server, connector, server', k);
    }
  }

  lemma ApartIs(l: Layout, xml: string, server: string, connector: string, server': string, k: string)
    requires LaidOut(l, xml, server, connector) && Apart(l)
    ensures l.ConnectorFirst? ==>
      && xml == l.a + connector + (l.x + server + l.b)
      && WithConnector(l, server', k) == l.a + k + (l.x + server' + l.b)
    ensures l.ServerFirst? ==>
      && xml == l.a + server + (l.x + connector + l.b)
      && WithConnector(l, server', k) == l.a + server' + l.x + k + l.b
  {
  }

  lemma FlatLeft(a: string, k: string, x: string, s: string, b: string)
    ensures a + k + (x + s + b) == a + k + x + s + b
  {
  }

  lemma InnerPart(a: string, u: string, t: string, b: string)
    ensures var xml := (a + u) + t + b;
      && xml[..|a|] == a && xml[|a|..|a| + |u|] == u && xml[|a| + |u| + |t|..] == b
  {
  }

  lemma FoundIs(l: Layout, xml: string, server: string, connector: string)
    requires Found(l, xml, server, connector)
    ensures LaidOut(l, xml, server, connector)
    ensures FindTag(SERVER, xml) == |BeforeServer(l, connector)|
    ensures Select(xml, 0) == Some(|BeforeConnector(l, server)|)
  {
  }

  // The text around and inside the outer one of two nested tags.
  lemma NestedSpans(l: Layout, xml: string, server: string, connector: string)
    requires LaidOut(l, xml, server, connector) && !Apart(l)
    ensures var p, c := |BeforeServer(l, connector)|, |BeforeConnector(l, server)|;
      && p + |server| == c + |connector| <= |xml|
      && (l.ConnectorInside? ==> p < c && xml[..p] == l.a && xml[p..c] == l.u && xml[p + |server|..] == l.b)
      && (l.ServerInside? ==> c < p && xml[..c] == l.a && xml[c..p] == l.v && xml[c + |connector|..] == l.b)
  {
    if l.ConnectorInside? {
      InnerPart(l.a, l.u, connector, l.b);
    } else {
      InnerPart(l.a, l.v, server, l.b);
    }
  }

  lemma OverlappingSpans(xml: string, y: string, p: nat, s: string, s': string, c: nat, k: string, k': string)
    requires SpansOverlap(p, |s|, c, |k|)
    ensures !TwoSpans(xml, y, p, s, s', c, k, k')
  {
  }

  lemma ConnectorHasPort(l: Layout, xml: string, server: string, connector: string, port: int)
    requires Found(l, xml, server, connector) && connector != ""
    requires HasPort(connector) || HasPort(OutsideOf(l, connector))
    ensures HasPort(connector) && PatchedConnector(connector, port).Some?
    ensures l.ConnectorInside? ==> !HasPort(OutsideOf(l, connector))
  {
    hide HasPort, Rewrite, IsTag, FindTag, Select, EnsureAttr;
    NoPortInNothing();
    ReplacePortNeeds(connector, port);
    TagNotEmpty(SERVER, server);
    if l.ServerInside? {
      PortsSplit(l.v, server);
      ReplacePortNeeds(connector, port);
    }
  }

  /**
    A successful patch replaces the first <Server> tag, with its ports rewritten, and the tag of the
    connector that the search selects in the document itself, patched, and nothing else: if and only
    if these two tags share no text. If they do, one contains the other; then only the outer one is
    replaced, and a port inside both becomes the connector's, unless the shutdown port is negative.
  */
  lemma PatchIsLocal(xml: string, httpPort: int, shutdownPort: int)
    requires Patch(xml, httpPort, shutdownPort).Ok?
    ensures Select(xml, 0).Some? && ConnectorTag(xml) != "" && PatchedConnector(ConnectorTag(xml), httpPort).Some?
    ensures var y, p, c := Patch(xml, httpPort, shutdownPort).value, FindTag(SERVER, xml), Select(xml, 0).value;
      var server, connector := ServerTag(xml), ConnectorTag(xml);
      var server' := Rewrite(PortAttr(shutdownPort), server);
      var k := PatchedConnector(connector, httpPort).value;
      && (TwoSpans(xml, y, p, server, server', c, connector, k) <==> !TagsOverlap(xml))
      && (TagsOverlap(xml) && p < c ==>
            shutdownPort >= 0 &&
            y == xml[..p] + Rewrite(PortAttr(shutdownPort), xml[p..c]) + k + xml[p + |server|..])
      && (TagsOverlap(xml) && c < p && shutdownPort >= 0 ==>
            y == xml[..c] + k + xml[c + |connector|..])
      && (TagsOverlap(xml) && c < p ==>
            xml[c..p] + server' != "" && PatchedConnector(xml[c..p] + server', httpPort).Some? &&
            y == xml[..c] + PatchedConnector(xml[c..p] + server', httpPort).value + xml[c + |connector|..])
  {
    hide FindTag, Select, HasPort, ServerTag, ConnectorTag, Patch, Found, Outside, Midway,
         PatchedConnector, Replaced, EndLayout, EndServer, Rewrite, TwoSpans, LaidOut;
    var l, k, w := Stages(xml, httpPort, shutdownPort);
    var server, connector := ServerTag(xml), ConnectorTag(xml);
    var server' := Rewrite(PortAttr(shutdownPort), server);
    ConnectorIsLive(l, xml, server, connector);
    ConnectorHasPort(l, xml, server, connector, httpPort);
    FoundIs(l, xml, server, connector);
    if shutdownPort >= 0 || Apart(l) {
      MidPatched(l, xml, server, connector, shutdownPort, httpPort);
      SamePatch(MidTag(xml, l, shutdownPort), connector, httpPort);
    }
    if Apart(l) {
      ApartSpans(l, xml, server, connector, server', k);
    } else {
      NestedSpans(l, xml, server, connector);
      OverlappingSpans(xml, Patch(xml, httpPort, shutdownPort).value, FindTag(SERVER, xml), server, server',
                       Select(xml, 0).value, connector, PatchedConnector(connector, httpPort).value);
    }
  }

  // ---------------------------------------------------------------- which ports the tags carry

  lemma PortTextDiffers(port: int, other: int)
    requires port >= 0 && other >= 0 && port != other
    ensures PortText(port) != PortText(other)
  {
    ItoaValue(port);
    ItoaValue(other);
    assert forall p: nat :: PortText(p)[6..|PortText(p)| - 1] == Itoa(p) by {
      forall p: nat ensures PortText(p)[6..|PortText(p)| - 1] == Itoa(p) {
        assert PortText(p) == "port=\"" + Itoa(p) + "\"";
      }
    }
  }

  lemma CarriesOnePort(tag: string, port: int, other: int)
    requires CarriesPort(tag, port) && port >= 0 && other >= 0 && port != other
    ensures !CarriesPort(tag, other)
  {
    hide Matches, Rewrite, PortText;
    PortsAreThere(tag, port);
    PortsAreThere(tag, other);
    PortTextDiffers(port, other);
    assert Matches(PortAttr(port), tag)[0] in Matches(PortAttr(other), tag);
  }

  // A rewritten text in front of a tag that carries a port, or none.
  lemma CarriedInside(u: string, k: string, port: int, last: int)
    requires k != "" && k[0] == '<' && port >= 0
    requires if last >= 0 then CarriesPort(k, last) else !HasPort(k)
    ensures CarriesPort(Rewrite(PortAttr(port), u) + k, port) <==> last == port || (last < 0 && HasPort(u))
  {
    hide Matches, Rewrite, PortText;
    var u' := Rewrite(PortAttr(port), u);
    SecondPass(PortAttr(port), u);
    RewriteSplit(port, u', k);
    RewrittenHasPort(u, port);
    PortsAreThere(u', port);
    PortsAreThere(k, port);
    PortsAreThere(k, last);
    forall m | m in Matches(PortAttr(port), u') ensures m == PortText(port) {
      PortReplacement(port, m);
    }
    if last < 0 {
      NoMatchesNoChange(PortAttr(port), k);
    } else if last != port {
      PortTextDiffers(port, last);
      assert Matches(PortAttr(last), k)[0] in Matches(PortAttr(port), u' + k);
    } else if CarriesPort(k, port) {
      assert Rewrite(PortAttr(port), u' + k) == u' + k;
    }
  }

  lemma CarriedAround(server: string, last: int, w: string)
    requires IsTag(SERVER, server) && server != "" && Addable(w)
    ensures var t := Rewrite(PortAttr(last), Stem(server)) + w + Ending(server);
      if last >= 0 && HasPort(server) then CarriesPort(t, last) else !HasPort(t)
  {
    hide Matches, Rewrite, PortText, IsTag, Stem, Ending;
    EndingOf(SERVER, server);
    var u, e := Stem(server), Ending(server);
    var r := Rewrite(PortAttr(last), u);
    PlainTail(last, u, e);
    NoPortsInTail(w, e);
    PlainTail(last, r, w + e);
    assert r + (w + e) == r + w + e;
    SecondPass(PortAttr(last), u);
    PortsAreThere(server, last);
    PortsAreThere(r + w + e, last);
    forall m | m in Matches(PortAttr(last), r) ensures m == PortText(last) {
      PortReplacement(last, m);
    }
  }

  lemma NoPortsInTail(w: string, e: string)
    requires Addable(w) && (e == ">" || e == "/>")
    ensures 'p' !in w + e && Breaks((w + e)[0])
  {
    assert w == "" ==> w + e == e;
  }

  // ---------------------------------------------------------------- what a patch achieves

  // Whether the shutdown port is still in the first <Server> tag after the connector is patched.
  predicate ShutdownPortStays(xml: string, httpPort: int, shutdownPort: int)
    requires Select(xml, 0).Some?
  {
    var p, c := FindTag(SERVER, xml), Select(xml, 0).value;
    || !TagsOverlap(xml)
    || httpPort == shutdownPort
    || (httpPort < 0 && p < c && HasPort(xml[p..c]))
  }

  lemma ConnectorCarries(tag: string, k: string, port: int)
    requires IsTag(CONNECTOR, tag) && Qualifies(tag) && tag != "" && PatchedConnector(tag, port) == Some(k)
    ensures k != "" && (if port >= 0 then CarriesPort(k, port) else !HasPort(k))
    ensures PatchedConnector(k, port) == if port >= 0 then Some(k) else None
  {
    hide IsTag, Qualifies, Closes, CarriesPort, Contains, HasPort, EnsureAttr, ReplacePort;
    ConnectorPatched(tag, port);
    ReplacePortNeeds(k, port);
  }

  lemma ServerCarries(l: Layout, xml: string, httpPort: int, shutdownPort: int, k: string, w: string)
    requires Select(xml, 0).Some? && Found(l, xml, ServerTag(xml), ConnectorTag(xml)) && (Apart(l) <==> !TagsOverlap(xml))
    requires HasPort(ServerTag(xml)) && (shutdownPort < 0 ==> !l.ConnectorInside?)
    requires IsTag(CONNECTOR, k) && Addable(w)
    requires if httpPort >= 0 then CarriesPort(k, httpPort) else !HasPort(k)
    ensures var server' := Rewrite(PortAttr(shutdownPort), ServerTag(xml));
      server' != "" &&
      var t := EndServer(MidLayout(l, shutdownPort), server', k, httpPort, w);
      && (Apart(l) ==> t == server')
      && (if shutdownPort < 0 then !HasPort(t)
          else CarriesPort(t, shutdownPort) <==> ShutdownPortStays(xml, httpPort, shutdownPort))
  {
    hide FindTag, Select, HasPort, ServerTag, ConnectorTag, Rewrite, IsTag, CarriesPort, Stem, Ending, LaidOut, TagsOverlap,
         Addable, BeforeConnector, BeforeServer;
    var server, connector := ServerTag(xml), ConnectorTag(xml);
    var server' := Rewrite(PortAttr(shutdownPort), server);
    TagNotEmpty(SERVER, server);
    TagNotEmpty(CONNECTOR, k);
    FirstCharStays(PortAttr(shutdownPort), server);
    FoundIs(l, xml, server, connector);
    RewrittenHasPort(server, shutdownPort);
    if Apart(l) {
      if shutdownPort >= 0 {
        RewrittenCarries(server, shutdownPort);
      }
    } else {
      NestedSpans(l, xml, server, connector);
      if l.ConnectorInside? {
        CarriedInside(l.u, k, shutdownPort, httpPort);
      } else {
        PortsKeepTag(SERVER, server, shutdownPort);
        CarriedAround(server', httpPort, w);
        if shutdownPort >= 0 {
          CarriesOther(EndServer(l, server', k, httpPort, w), httpPort, shutdownPort);
        }
      }
    }
  }

  lemma RewrittenCarries(tag: string, port: int)
    requires HasPort(tag) && port >= 0
    ensures CarriesPort(Rewrite(PortAttr(port), tag), port)
  {
    hide HasPort, Rewrite, Matches;
    ReplacePortNeeds(tag, port);
    ReplacedPort(tag, port);
  }

  // A tag that carries this port, or none.
  lemma CarriesOther(tag: string, port: int, other: int)
    requires other >= 0
    ensures port >= 0 && CarriesPort(tag, port) ==> (CarriesPort(tag, other) <==> port == other)
    ensures !HasPort(tag) ==> !CarriesPort(tag, other)
  {
    hide Matches, Rewrite;
    PortsAreThere(tag, other);
    if port >= 0 && CarriesPort(tag, port) && port != other {
      CarriesOnePort(tag, port, other);
    }
  }

  lemma ReplacedHolds(connector: string, k: string, port: int, w: string)
    requires Replaced(connector, k, port, w)
    ensures IsTag(CONNECTOR, k) && Addable(w)
  {
  }

  lemma NothingOutside(l: Layout, connector: string)
    ensures l.ConnectorInside? ==> !HasPort(OutsideOf(l, connector))
  {
    NoPortInNothing();
  }

  lemma OverlapIs(l: Layout, xml: string)
    requires Select(xml, 0).Some? && Found(l, xml, ServerTag(xml), ConnectorTag(xml))
    ensures Apart(l) <==> !TagsOverlap(xml)
  {
    hide FindTag, Select, ServerTag, ConnectorTag, IsTag, LaidOut;
    var server, connector := ServerTag(xml), ConnectorTag(xml);
    FoundIs(l, xml, server, connector);
    TagNotEmpty(SERVER, server);
    TagNotEmpty(CONNECTOR, connector);
    if !Apart(l) {
      NestedSpans(l, xml, server, connector);
    }
  }

  lemma SameKind(l: Layout, httpPort: int, shutdownPort: int)
    ensures Apart(EndLayout(MidLayout(l, shutdownPort), httpPort)) <==> Apart(l)
    ensures EndLayout(MidLayout(l, shutdownPort), httpPort).ConnectorInside? <==> l.ConnectorInside?
  {
  }

  /**
    After a successful patch the same search finds the two tags again where they are. The selected
    connector is the patched one, live, and carries the requested port. The first <Server> tag
    carries the requested port as well, exactly unless the connector's has overwritten it.
  */
  lemma PatchIsEffective(xml: string, httpPort: int, shutdownPort: int)
    requires Patch(xml, httpPort, shutdownPort).Ok?
    ensures Select(xml, 0).Some? && ConnectorTag(xml) != ""
    ensures var y := Patch(xml, httpPort, shutdownPort).value;
      && FindTag(SERVER, y) < |y| && Select(y, 0).Some? && ConnectorTag(y) != ""
      && Qualifies(ConnectorTag(y)) && !InComment(y, Select(y, 0).value)
      && (shutdownPort >= 0 || !TagsOverlap(xml) ==>
            PatchedConnector(ConnectorTag(xml), httpPort) == Some(ConnectorTag(y)))
      && (if httpPort >= 0 then CarriesPort(ConnectorTag(y), httpPort) else !HasPort(ConnectorTag(y)))
      && (!TagsOverlap(xml) ==> ServerTag(y) == Rewrite(PortAttr(shutdownPort), ServerTag(xml)))
      && (if shutdownPort < 0 then !HasPort(ServerTag(y))
          else CarriesPort(ServerTag(y), shutdownPort) <==> ShutdownPortStays(xml, httpPort, shutdownPort))
      && (TagsOverlap(y) <==> TagsOverlap(xml))
      && PatchedConnector(ConnectorTag(y), httpPort) == if httpPort >= 0 then Some(ConnectorTag(y)) else None
  {
    hide FindTag, Select, HasPort, ServerTag, ConnectorTag, Patch, Found, Outside, Midway, MidLayout, MidConnector,
         PatchedConnector, EndLayout, EndServer, Rewrite, LaidOut, IsTag, CarriesPort, Qualifies, InComment, Apart,
         Replaced, OutsideOf, WithConnector, SpansOverlap;
    var l, k, w := Stages(xml, httpPort, shutdownPort);
    var server, connector := ServerTag(xml), ConnectorTag(xml);
    var y := Patch(xml, httpPort, shutdownPort).value;
    var m := MidLayout(l, shutdownPort);
    var server' := Rewrite(PortAttr(shutdownPort), server);
    var t := EndServer(m, server', k, httpPort, w);
    ConnectorIsLive(l, xml, server, connector);
    FoundTags(EndLayout(m, httpPort), y, t, k);
    ConnectorIsLive(EndLayout(m, httpPort), y, t, k);
    FoundIs(EndLayout(m, httpPort), y, t, k);
    if shutdownPort >= 0 || Apart(l) {
      MidPatched(l, xml, server, connector, shutdownPort, httpPort);
      SamePatch(MidTag(xml, l, shutdownPort), connector, httpPort);
    }
    ConnectorIsLive(m, Midway(xml, shutdownPort), server', MidTag(xml, l, shutdownPort));
    ConnectorCarries(MidTag(xml, l, shutdownPort), k, httpPort);
    ReplacedHolds(MidTag(xml, l, shutdownPort), k, httpPort, w);
    NothingOutside(l, connector);
    ServerCarries(l, xml, httpPort, shutdownPort, k, w);
    OverlapIs(EndLayout(m, httpPort), y);
    SameKind(l, httpPort, shutdownPort);
  }

  // ---------------------------------------------------------------- patching again

  lemma SpansAsTheyWere(xml: string, y: string, p: nat, s: string, c: nat, k: string)
    requires TwoSpans(xml, y, p, s, s, c, k, k)
    ensures y == xml
  {
    if p + |s| <= c {
      assert xml == xml[..p] + xml[p..p + |s|] + xml[p + |s|..c] + xml[c..c + |k|] + xml[c + |k|..];
    } else {
      assert xml == xml[..c] + xml[c..c + |k|] + xml[c + |k|..p] + xml[p..p + |s|] + xml[p + |s|..];
    }
  }

  lemma OuterAsItWas(xml: string, p: nat, c: nat, n: nat)
    requires p <= c <= c + n <= |xml|
    ensures xml[..p] + xml[p..c] + xml[c..c + n] + xml[c + n..] == xml
    ensures xml[..c] + xml[c..c + n] + xml[c + n..] == xml
  {
  }

  // Where the <Server> tag goes around the connector, its own part has been rewritten.
  lemma OwnPartRewritten(xml: string, httpPort: int, shutdownPort: int)
    requires Patch(xml, httpPort, shutdownPort).Ok? && shutdownPort >= 0
    ensures var y := Patch(xml, httpPort, shutdownPort).value;
      && Select(y, 0).Some?
      && (TagsOverlap(y) ==>
            var p, c := FindTag(SERVER, y), Select(y, 0).value;
            && p + |ServerTag(y)| == c + |ConnectorTag(y)| <= |y| && y[c..c + |ConnectorTag(y)|] == ConnectorTag(y)
            && (p <= c ==> Rewrite(PortAttr(shutdownPort), y[p..c]) == y[p..c]))
  {
    hide FindTag, Select, HasPort, ServerTag, ConnectorTag, Patch, Found, Outside, Midway, MidConnector,
         PatchedConnector, EndServer, Rewrite, LaidOut, IsTag, Replaced, OutsideOf, WithConnector, BeforeConnector,
         BeforeServer, Apart;
    var l, k, w := Stages(xml, httpPort, shutdownPort);
    var y := Patch(xml, httpPort, shutdownPort).value;
    var server' := Rewrite(PortAttr(shutdownPort), ServerTag(xml));
    var m := MidLayout(l, shutdownPort);
    var e, t := EndLayout(m, httpPort), EndServer(m, server', k, httpPort, w);
    FoundTags(e, y, t, k);
    FoundIs(e, y, t, k);
    OverlapIs(e, y);
    if TagsOverlap(y) {
      NestedSpans(e, y, t, k);
      ApartOr(e);
      if e.ConnectorInside? {
        SecondPass(PortAttr(shutdownPort), l.u);
      }
      ConnectorIs(y);
    }
  }

  lemma ApartOr(l: Layout)
    ensures Apart(l) || l.ConnectorInside? || l.ServerInside?
  {
  }

  lemma ConnectorIs(xml: string)
    requires Select(xml, 0).Some?
    ensures var c := Select(xml, 0).value;
      c + |ConnectorTag(xml)| <= |xml| && xml[c..c + |ConnectorTag(xml)|] == ConnectorTag(xml)
  {
    hide Select, TagLen;
  }

  lemma PatchedAgain(xml: string, httpPort: int, shutdownPort: int)
    requires Patch(xml, httpPort, shutdownPort).Ok? && shutdownPort >= 0 && httpPort >= 0
    ensures var y := Patch(xml, httpPort, shutdownPort); Patch(y.value, httpPort, shutdownPort) == y
  {
    hide FindTag, Select, HasPort, ServerTag, ConnectorTag, Patch, PatchedConnector, Rewrite, TwoSpans, TagsOverlap,
         Outside, CarriesPort, Qualifies, InComment, ShutdownPortStays;
    PatchIsEffective(xml, httpPort, shutdownPort);
    OwnPartRewritten(xml, httpPort, shutdownPort);
    var y := Patch(xml, httpPort, shutdownPort).value;
    var p, s, c, k := FindTag(SERVER, y), ServerTag(y), Select(y, 0).value, ConnectorTag(y);
    StillHasPorts(xml, httpPort, shutdownPort);
    PatchOutcome(y, httpPort, shutdownPort);
    PatchIsLocal(y, httpPort, shutdownPort);
    if TagsOverlap(y) {
      OverlapsFrom(y);
      if p < c {
        OuterAsItWas(y, p, c, |k|);
      } else {
        OuterAsItWas(y, c, c, |k|);
      }
    } else {
      RewrittenStays(xml, shutdownPort);
      SpansAsTheyWere(y, Patch(y, httpPort, shutdownPort).value, p, s, c, k);
    }
  }

  lemma RewrittenStays(xml: string, port: int)
    ensures Rewrite(PortAttr(port), Rewrite(PortAttr(port), ServerTag(xml))) == Rewrite(PortAttr(port), ServerTag(xml))
  {
    SecondPass(PortAttr(port), ServerTag(xml));
  }

  // Two tags never begin together.
  lemma OverlapsFrom(xml: string)
    requires FindTag(SERVER, xml) < |xml| && Select(xml, 0).Some?
    ensures FindTag(SERVER, xml) != Select(xml, 0).value
  {
    hide FindTag, Select, TagLen;
    FoundTagMatches(SERVER, xml);
    SelectedIsTag(xml, 0);
    DifferentTags(xml[FindTag(SERVER, xml)..]);
  }

  // With both ports non-negative, both tags have a port again.
  lemma StillHasPorts(xml: string, httpPort: int, shutdownPort: int)
    requires Patch(xml, httpPort, shutdownPort).Ok? && shutdownPort >= 0 && httpPort >= 0
    ensures var y := Patch(xml, httpPort, shutdownPort).value;
      && Select(y, 0).Some? && HasPort(ServerTag(y)) && HasPort(ConnectorTag(y))
  {
    hide FindTag, Select, HasPort, ServerTag, ConnectorTag, Patch, Found, Outside, Midway, MidConnector,
         PatchedConnector, Rewrite, LaidOut, IsTag, Replaced, OutsideOf, WithConnector, Stem, Ending, CarriesPort,
         Qualifies, InComment, Addable;
    PatchIsEffective(xml, httpPort, shutdownPort);
    var l, k, w := Stages(xml, httpPort, shutdownPort);
    var y := Patch(xml, httpPort, shutdownPort).value;
    var server' := Rewrite(PortAttr(shutdownPort), ServerTag(xml));
    var m := MidLayout(l, shutdownPort);
    FoundTags(EndLayout(m, httpPort), y, EndServer(m, server', k, httpPort, w), k);
    ConnectorIsLive(EndLayout(m, httpPort), y, EndServer(m, server', k, httpPort, w), k);
    ReplacedHolds(MidTag(xml, l, shutdownPort), k, httpPort, w);
    RewrittenHasPort(ServerTag(xml), shutdownPort);
    CarriesHas(k, httpPort);
    ConnectorIsLive(m, Midway(xml, shutdownPort), server', MidTag(xml, l, shutdownPort));
    if l.ConnectorInside? {
      TagNotEmpty(CONNECTOR, k);
      PortsSplit(m.u, k);
    } else if l.ServerInside? {
      CarriedAround(server', httpPort, w);
      CarriesHas(EndServer(m, server', k, httpPort, w), httpPort);
    }
  }

  lemma CarriesHas(tag: string, port: int)
    ensures CarriesPort(tag, port) ==> HasPort(tag)
  {
    hide Matches, Rewrite;
    PortsAreThere(tag, port);
  }

  /**
    Patching what has been patched changes nothing, attributes and shifted comments included, if and
    only if both ports are non-negative; with a negative shutdown port, as runWAR passes it, the
    second patch no longer finds a port to replace.
  */
  lemma PatchIdempotent(xml: string, httpPort: int, shutdownPort: int)
    requires Patch(xml, httpPort, shutdownPort).Ok?
    ensures var y := Patch(xml, httpPort, shutdownPort);
      && (Patch(y.value, httpPort, shutdownPort) == y <==> shutdownPort >= 0 && httpPort >= 0)
      && (shutdownPort < 0 ==> Patch(y.value, httpPort, shutdownPort) == Err(NoShutdownPort))
  {
    hide FindTag, Select, HasPort, ServerTag, ConnectorTag, Patch, PatchedConnector, Rewrite, TagsOverlap,
         Outside, CarriesPort, Qualifies, InComment, ShutdownPortStays;
    PatchIsEffective(xml, httpPort, shutdownPort);
    PatchOutcome(Patch(xml, httpPort, shutdownPort).value, httpPort, shutdownPort);
    if shutdownPort >= 0 && httpPort >= 0 {
      PatchedAgain(xml, httpPort, shutdownPort);
    }
  }

  // ---------------------------------------------------------------- a tag that is not closed

  const NEST := "<Server "

  lemma NestedServer(c: string)
    requires IsTag(CONNECTOR, c)
    ensures FindTag(SERVER, NEST + c) == 0 < |NEST + c| && ServerTag(NEST + c) == NEST + c
    ensures HasPort(NEST + c) <==> HasPort(c)
  {
    hide TagLen, Matches;
    var body := " " + c;
    assert SERVER + body + "" == NEST + c;
    assert body[..|body| - 1] == " " + c[..|c| - 1];
    TagLenAt(SERVER, body, "");
    NoHeadNoMatch(PortAttr(0), NEST, c);
    TagHere(SERVER, NEST + c);
    assert (NEST + c)[0..] == NEST + c;
  }

  lemma NoConnectorYet(c: string, m: nat)
    requires m < |NEST|
    ensures TagLen(CONNECTOR, (NEST + c)[m..]) == 0 && CommentLen((NEST + c)[m..]) == 0
  {
    var s := (NEST + c)[m..];
    if m == 0 {
      PrefixChars(s, CONNECTOR);
      PrefixChars(s, "<!--");
      assert s[1] == 'S';
    } else {
      assert s[0] == NEST[m];
      NoTagWithoutLt(CONNECTOR, s);
    }
  }

  lemma {:induction false} NotInComment(c: string, m: nat)
    requires IsTag(CONNECTOR, c) && m <= |NEST|
    ensures !InComment((NEST + c)[m..], |NEST| - m)
    decreases |NEST| - m
  {
    hide IsTag, CommentLen, InComment;
    var s := (NEST + c)[m..];
    if m == |NEST| {
      assert s == c + "";
      TagMatches(CONNECTOR, c, "");
      TagNotEmpty(CONNECTOR, c);
    } else {
      NoConnectorYet(c, m);
      assert s[1..] == (NEST + c)[m + 1..];
      NotInComment(c, m + 1);
    }
    InCommentStep(s, |NEST| - m);
  }

  lemma NestedConnector(c: string)
    requires IsTag(CONNECTOR, c) && Qualifies(c)
    ensures Select(NEST + c, 0) == Some(|NEST|) && ConnectorTag(NEST + c) == c
  {
    hide IsTag, TagLen, InComment, Qualifies;
    var s := NEST + c;
    forall m | 0 <= m < |NEST| ensures TagLen(CONNECTOR, s[m..]) == 0 {
      NoConnectorYet(c, m);
    }
    SelectSkips(s, 0, |NEST|);
    NotInComment(c, 0);
    assert s[0..] == s && s[|NEST|..] == c == c + "";
    assert s[|NEST|..|NEST| + |c|] == c;
    TagMatches(CONNECTOR, c, "");
    TagNotEmpty(CONNECTOR, c);
  }

  /**
    A <Server> tag that is not closed before a connector contains it. Then the shutdown port is lost:
    the patch fails when it is negative, as runWAR passes it, and replaces the connector alone when
    it is not.
  */
  lemma NestedTagsLosePort(c: string, httpPort: int, shutdownPort: int)
    requires IsTag(CONNECTOR, c) && Qualifies(c) && HasPort(c)
    ensures c != "" && PatchedConnector(c, httpPort).Some?
    ensures Patch(NEST + c, httpPort, shutdownPort) ==
      if shutdownPort >= 0 then Ok(NEST + PatchedConnector(c, httpPort).value) else Err(NoConnectorPort)
  {
    hide IsTag, TagLen, Select, HasPort, Qualifies, ConnectorTag, ServerTag, FindTag, Patch, EnsureAttr, TwoSpans, Rewrite,
         PatchedConnector;
    var xml := NEST + c;
    NestedServer(c);
    NestedConnector(c);
    TagNotEmpty(CONNECTOR, c);
    ReplacePortNeeds(c, httpPort);
    NoPortInNothing();
    PatchedSome(c, httpPort);
    PatchOutcome(xml, httpPort, shutdownPort);
    if shutdownPort >= 0 {
      PatchIsLocal(xml, httpPort, shutdownPort);
      NestCut(c);
      PlainText(shutdownPort, NEST);
    }
  }

  lemma PatchedSome(tag: string, port: int)
    requires tag != ""
    ensures PatchedConnector(tag, port).Some? <==> HasPort(tag)
  {
    hide HasPort, Rewrite, Matches, ReplacePort;
    ReplacePortNeeds(tag, port);
  }

  lemma NestCut(c: string)
    ensures var s := NEST + c; s[..0] == "" && s[0..|NEST|] == NEST && s[|s|..] == ""
    ensures forall k: string :: "" + NEST + k + "" == NEST + k
  {
  }
}
