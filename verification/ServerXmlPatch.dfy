/**
  What patchServerXML does to a whole document: where the two tags lie, how it ends, and which text
  it replaces. Nothing is assumed about the document; in particular the two tags may overlap.
*/
module ServerXmlPatch {
  import opened Wrappers
  import opened Text
  import opened Rewriting
  import opened XmlScan
  import opened XmlEdits
  import opened ServerXml
  import opened ServerXmlEdits

  // Every port attribute of the tag, and there is one, has this value; rewriting changes nothing.
  predicate CarriesPort(tag: string, port: int) {
    && Matches(PortAttr(port), tag) != []
    && (forall m <- Matches(PortAttr(port), tag) :: m == PortText(port))
    && Rewrite(PortAttr(port), tag) == tag
  }

  lemma ReplacedPort(tag: string, port: int)
    requires ReplacePort(tag, port).Some?
    ensures var r := ReplacePort(tag, port).value;
      && r == Rewrite(PortAttr(port), tag)
      && Rewrite(PortAttr(port), r) == r
      && (port >= 0 ==> CarriesPort(r, port))
      && (port < 0 ==> Matches(PortAttr(port), r) == [])
      && ReplacePort(r, port) == (if port >= 0 then Some(r) else None)
  {
    hide Rewrite, Matches, MatchLen;
    SecondPass(PortAttr(port), tag);
    var r := Rewrite(PortAttr(port), tag);
    forall m | m in Matches(PortAttr(port), r) ensures m == PortText(port) {
      PortReplacement(port, m);
    }
  }

  // ---------------------------------------------------------------- the two tags

  // One added attribute, in the words of the lemmas about it.
  lemma AttrAdded(tag: string, name: string, value: string, port: int, w: string)
    requires IsTag(CONNECTOR, tag) && Insertable(" " + name + "=\"" + value + "\"")
    requires Unported(w) && w[|w| - 1] !in "/>"
    ensures var r := EnsureAttr(tag, name, value);
      && IsTag(CONNECTOR, r) && (Closes(r) ==> Closes(tag))
      && Contains(r, name + "=")
      && Matches(PortAttr(port), r) == Matches(PortAttr(port), tag)
      && (Rewrite(PortAttr(port), tag) == tag ==> Rewrite(PortAttr(port), r) == r)
      && (Contains(tag, w) ==> Contains(r, w))
  {
    hide IsTag, Contains, Closes, Matches, Rewrite, MatchLen;
    TagNotEmpty(CONNECTOR, tag);
    var ins := " " + name + "=\"" + value + "\"";
    EnsureAttrIs(tag, name, value);
    StemAndEnding(CONNECTOR, tag);
    InsertKeepsTag(CONNECTOR, tag, ins);
    InsertKeepsPorts(CONNECTOR, tag, ins, port);
    if Contains(tag, w) {
      assert forall c <- Ending(tag) :: c in "/>";
      InsertKeeps(Stem(tag), ins, Ending(tag), w);
    }
  }

  lemma NoSslAdded(tag: string, name: string, value: string)
    requires IsTag(CONNECTOR, tag) && Insertable(" " + name + "=\"" + value + "\"")
    ensures Contains(EnsureAttr(tag, name, value), SSL_ENABLED) ==> Contains(tag, SSL_ENABLED)
  {
    hide IsTag, Contains;
    TagNotEmpty(CONNECTOR, tag);
    var ins := " " + name + "=\"" + value + "\"";
    EnsureAttrIs(tag, name, value);
    StemAndEnding(CONNECTOR, tag);
    if Contains(Stem(tag) + ins + Ending(tag), SSL_ENABLED) {
      InsertAddsNone(Stem(tag), ins, Ending(tag), SSL_ENABLED);
    }
  }

  lemma UriIsInsertable()
    ensures Insertable(URI_ENCODING)
  {
  }

  lemma BodyIsInsertable()
    ensures Insertable(BODY_ENCODING)
  {
  }

  lemma KnownAttrs()
    ensures Insertable(" " + "URIEncoding" + "=\"" + "UTF-8" + "\"")
    ensures Insertable(" " + "useBodyEncodingForURI" + "=\"" + "true" + "\"")
  {
    hide Insertable;
    UriIsInsertable();
    BodyIsInsertable();
    assert " " + "URIEncoding" + "=\"" + "UTF-8" + "\"" == URI_ENCODING;
    assert " " + "useBodyEncodingForURI" + "=\"" + "true" + "\"" == BODY_ENCODING;
  }

  lemma KnownProtocol()
    ensures Unported(HTTP_PROTOCOL) && HTTP_PROTOCOL[|HTTP_PROTOCOL| - 1] !in "/>"
  {
    assert HTTP_PROTOCOL[1..] == "rotocol=\"HTTP/1.1\"";
  }

  lemma KnownSsl()
    ensures Unported(SSL_ENABLED)
  {
    assert SSL_ENABLED[1..] == "SLEnabled=\"true\"";
  }

  lemma KnownUri()
    ensures Unported("URIEncoding=") && "URIEncoding="[|"URIEncoding="| - 1] !in "/>"
  {
    assert "URIEncoding="[1..] == "RIEncoding=";
  }

  /** A patched connector is still the kind of tag that is patched, and patching it again changes nothing. */
  lemma ConnectorPatched(tag: string, port: int)
    requires IsTag(CONNECTOR, tag) && Qualifies(tag)
    requires tag != "" && PatchedConnector(tag, port).Some?
    ensures var r := PatchedConnector(tag, port).value;
      && r != ""
      && IsTag(CONNECTOR, r) && Qualifies(r) && (Closes(r) ==> Closes(tag))
      && (port >= 0 ==> CarriesPort(r, port))
      && Contains(r, "URIEncoding=") && Contains(r, "useBodyEncodingForURI=")
      && PatchedConnector(r, port) == (if port >= 0 then Some(r) else None)
  {
    hide IsTag, Contains, Closes, Matches, Rewrite, MatchLen;
    KnownAttrs();
    KnownProtocol();
    KnownSsl();
    KnownUri();
    ReplacedPort(tag, port);
    PortsKeepTag(CONNECTOR, tag, port);
    PortsKeepContains(port, tag, HTTP_PROTOCOL);
    PortsKeepContains(port, tag, SSL_ENABLED);
    var r0 := ReplacePort(tag, port).value;
    var r1 := EnsureAttr(r0, "URIEncoding", "UTF-8");
    AttrAdded(r0, "URIEncoding", "UTF-8", port, HTTP_PROTOCOL);
    NoSslAdded(r0, "URIEncoding", "UTF-8");
    AttrAdded(r1, "useBodyEncodingForURI", "true", port, HTTP_PROTOCOL);
    AttrAdded(r1, "useBodyEncodingForURI", "true", port, "URIEncoding=");
    NoSslAdded(r1, "useBodyEncodingForURI", "true");
    var r := EnsureAttr(r1, "useBodyEncodingForURI", "true");
    assert "URIEncoding" + "=" == "URIEncoding=" && "useBodyEncodingForURI" + "=" == "useBodyEncodingForURI=";
    assert ReplacePort(r, port) == (if port >= 0 then Some(r) else None) by {
      PortReplacedAgain(r, port);
    }
  }

  lemma PortReplacedAgain(tag: string, port: int)
    requires Rewrite(PortAttr(port), tag) == tag
    ensures ReplacePort(tag, port) == if Matches(PortAttr(port), tag) == [] then None else Some(tag)
  {
  }

  // ---------------------------------------------------------------- the two tags in a document

  // The first <Server> tag, and the tag of the connector that the search selects.
  function ServerTag(xml: string): string {
    var p := FindTag(SERVER, xml);
    xml[p..p + TagLen(SERVER, xml[p..])]
  }

  function ConnectorTag(xml: string): string
    requires Select(xml, 0).Some?
  {
    var c := Select(xml, 0).value;
    xml[c..c + TagLen(CONNECTOR, xml[c..])]
  }

  // How the two tags lie: apart, or one around the other, ending at the same '>'.
  datatype Layout =
    | ConnectorFirst(a: string, x: string, b: string)
    | ServerFirst(a: string, x: string, b: string)
    | ConnectorInside(a: string, u: string, b: string)
    | ServerInside(a: string, v: string, b: string)

  predicate Apart(l: Layout) {
    l.ConnectorFirst? || l.ServerFirst?
  }

  // What lies before and behind each of the tags.
  function BeforeServer(l: Layout, connector: string): string {
    match l
    case ConnectorFirst(a, x, _) => a + connector + x
    case ServerFirst(a, _, _) => a
    case ConnectorInside(a, _, _) => a
    case ServerInside(a, v, _) => a + v
  }

  function BehindServer(l: Layout, connector: string): string {
    if l.ServerFirst? then l.x + connector + l.b else l.b
  }

  function BeforeConnector(l: Layout, server: string): string {
    match l
    case ConnectorFirst(a, _, _) => a
    case ServerFirst(a, x, _) => a + server + x
    case ConnectorInside(a, u, _) => a + u
    case ServerInside(a, _, _) => a
  }

  function BehindConnector(l: Layout, server: string): string {
    if l.ConnectorFirst? then l.x + server + l.b else l.b
  }

  predicate Nested(l: Layout, server: string, connector: string) {
    && (l.ConnectorInside? ==> l.u != "" && server == l.u + connector)
    && (l.ServerInside? ==> l.v != "" && connector == l.v + server)
  }

  predicate LaidOut(l: Layout, xml: string, server: string, connector: string) {
    && xml == BeforeServer(l, connector) + server + BehindServer(l, connector)
    && xml == BeforeConnector(l, server) + connector + BehindConnector(l, server)
    && Nested(l, server, connector)
  }

  // The two tags of this document, and where they are found.
  predicate Found(l: Layout, xml: string, server: string, connector: string) {
    && LaidOut(l, xml, server, connector)
    && IsTag(SERVER, server) && IsTag(CONNECTOR, connector)
    && FindTag(SERVER, xml) == |BeforeServer(l, connector)|
    && Select(xml, 0) == Some(|BeforeConnector(l, server)|)
  }

  lemma TagAt(open: string, xml: string, p: nat)
    requires TagName(open) && p <= |xml| && TagLen(open, xml[p..]) > 0
    ensures var n := TagLen(open, xml[p..]);
      && p + n <= |xml| && IsTag(open, xml[p..p + n]) && xml[p + n - 1] == '>'
      && '>' !in xml[p..p + n - 1]
  {
    hide TagLen, IsTag;
    var n := TagLen(open, xml[p..]);
    TagIsTag(open, xml[p..]);
    var t := xml[p..p + n];
    assert xml[p..][..n] == t;
    TagNotEmpty(open, t);
    LastOnly(open, t);
    assert t[..n - 1] == xml[p..p + n - 1] && t[n - 1] == xml[p + n - 1];
  }

  // Two tags that begin in the same stretch without '>' end together.
  lemma EndTogether(xml: string, p: nat, n: nat, c: nat, m: nat)
    requires p < c < p + n <= |xml| && 0 < m && c + m <= |xml|
    requires xml[p + n - 1] == '>' && '>' !in xml[p..p + n - 1]
    requires xml[c + m - 1] == '>' && '>' !in xml[c..c + m - 1]
    ensures c + m == p + n
  {
    NoGtBefore(xml, p, p + n - 1);
    NoGtBefore(xml, c, c + m - 1);
  }

  lemma NoGtBefore(s: string, i: nat, j: nat)
    requires i <= j <= |s| && '>' !in s[i..j]
    ensures forall k | i <= k < j :: s[k] != '>'
  {
    assert forall k | i <= k < j :: s[k] == s[i..j][k - i];
  }

  lemma DifferentTags(s: string)
    ensures TagLen(SERVER, s) == 0 || TagLen(CONNECTOR, s) == 0
  {
    PrefixChars(s, SERVER);
    PrefixChars(s, CONNECTOR);
  }

  function SpansOverlap(p: nat, n: nat, c: nat, m: nat): bool {
    p < c + m && c < p + n
  }

  // The layout of two spans that are apart or end together.
  function LayoutAt(xml: string, p: nat, n: nat, c: nat, m: nat): Layout
    requires p + n <= |xml| && c + m <= |xml|
  {
    if c + m <= p then ConnectorFirst(xml[..c], xml[c + m..p], xml[p + n..])
    else if p + n <= c then ServerFirst(xml[..p], xml[p + n..c], xml[c + m..])
    else if p < c then ConnectorInside(xml[..p], xml[p..c], xml[p + n..])
    else ServerInside(xml[..c], xml[c..p], xml[c + m..])
  }

  lemma LaidFirst(a: string, k: string, x: string, t: string, b: string)
    ensures LaidOut(ConnectorFirst(a, x, b), a + k + (x + t + b), t, k)
    ensures |BeforeServer(ConnectorFirst(a, x, b), k)| == |a| + |k| + |x|
  {
    Reassociate(a, k, x, t, b);
  }

  lemma LaidLast(a: string, t: string, x: string, k: string, b: string)
    ensures LaidOut(ServerFirst(a, x, b), a + t + (x + k + b), t, k)
    ensures |BeforeConnector(ServerFirst(a, x, b), t)| == |a| + |t| + |x|
  {
    Reassociate(a, t, x, k, b);
  }

  lemma ConnectorFirstIs(xml: string, p: nat, n: nat, c: nat, m: nat)
    requires c + m <= p && p + n <= |xml|
    ensures var l, server, connector := LayoutAt(xml, p, n, c, m), xml[p..p + n], xml[c..c + m];
      LaidOut(l, xml, server, connector) && |BeforeServer(l, connector)| == p && |BeforeConnector(l, server)| == c
  {
    hide LaidOut, BeforeServer;
    CutInFive(xml, c, c + m, p, p + n);
    LaidFirst(xml[..c], xml[c..c + m], xml[c + m..p], xml[p..p + n], xml[p + n..]);
  }

  lemma ServerFirstIs(xml: string, p: nat, n: nat, c: nat, m: nat)
    requires p + n <= c && c + m <= |xml| && 0 < m
    ensures var l, server, connector := LayoutAt(xml, p, n, c, m), xml[p..p + n], xml[c..c + m];
      LaidOut(l, xml, server, connector) && |BeforeServer(l, connector)| == p && |BeforeConnector(l, server)| == c
  {
    hide LaidOut, BeforeConnector;
    CutInFive(xml, p, p + n, c, c + m);
    LaidLast(xml[..p], xml[p..p + n], xml[p + n..c], xml[c..c + m], xml[c + m..]);
  }

  lemma ConnectorInsideIs(xml: string, p: nat, n: nat, c: nat, m: nat)
    requires p < c < p + n == c + m <= |xml|
    ensures var l, server, connector := LayoutAt(xml, p, n, c, m), xml[p..p + n], xml[c..c + m];
      LaidOut(l, xml, server, connector) && |BeforeServer(l, connector)| == p && |BeforeConnector(l, server)| == c
  {
    CutInThree(xml, p, c, p + n);
  }

  lemma ServerInsideIs(xml: string, p: nat, n: nat, c: nat, m: nat)
    requires c < p < c + m == p + n <= |xml|
    ensures var l, server, connector := LayoutAt(xml, p, n, c, m), xml[p..p + n], xml[c..c + m];
      LaidOut(l, xml, server, connector) && |BeforeServer(l, connector)| == p && |BeforeConnector(l, server)| == c
  {
    CutInThree(xml, c, p, c + m);
  }

  lemma LayoutAtIs(xml: string, p: nat, n: nat, c: nat, m: nat)
    requires p + n <= |xml| && c + m <= |xml| && p != c && 0 < n && 0 < m
    requires SpansOverlap(p, n, c, m) ==> c + m == p + n
    ensures var l, server, connector := LayoutAt(xml, p, n, c, m), xml[p..p + n], xml[c..c + m];
      LaidOut(l, xml, server, connector) && |BeforeServer(l, connector)| == p && |BeforeConnector(l, server)| == c
    ensures Apart(LayoutAt(xml, p, n, c, m)) <==> !SpansOverlap(p, n, c, m)
  {
    hide LaidOut, BeforeServer, BeforeConnector;
    if c + m <= p {
      ConnectorFirstIs(xml, p, n, c, m);
    } else if p + n <= c {
      ServerFirstIs(xml, p, n, c, m);
    } else if p < c {
      ConnectorInsideIs(xml, p, n, c, m);
    } else {
      ServerInsideIs(xml, p, n, c, m);
    }
  }

  lemma CutInFive(s: string, i: nat, j: nat, k: nat, l: nat)
    requires i <= j <= k <= l <= |s|
    ensures s == s[..i] + s[i..j] + (s[j..k] + s[k..l] + s[l..])
  {
  }

  lemma CutInThree(s: string, i: nat, j: nat, k: nat)
    requires i <= j <= k <= |s|
    ensures s == s[..i] + s[i..k] + s[k..] && s[i..k] == s[i..j] + s[j..k]
    ensures s == (s[..i] + s[i..j]) + s[j..k] + s[k..]
    ensures |s[..i] + s[i..j]| == j && |s[..i]| == i
  {
  }

  /** Where both tags are found, they lie in one of the four ways; apart exactly if their spans are disjoint. */
  lemma Layouts(xml: string) returns (l: Layout)
    requires FindTag(SERVER, xml) < |xml| && Select(xml, 0).Some?
    ensures Found(l, xml, ServerTag(xml), ConnectorTag(xml))
    ensures Apart(l) <==>
      !SpansOverlap(FindTag(SERVER, xml), |ServerTag(xml)|, Select(xml, 0).value, |ConnectorTag(xml)|)
  {
    hide TagLen, FindTag, Select, IsTag, LayoutAt, LaidOut, BeforeServer, BeforeConnector, Apart;
    var p, c := FindTag(SERVER, xml), Select(xml, 0).value;
    FoundTagMatches(SERVER, xml);
    SelectedIsTag(xml, 0);
    TagAt(SERVER, xml, p);
    TagAt(CONNECTOR, xml, c);
    DifferentTags(xml[p..]);
    var n, m := |ServerTag(xml)|, |ConnectorTag(xml)|;
    if SpansOverlap(p, n, c, m) {
      if p < c {
        EndTogether(xml, p, n, c, m);
      } else {
        EndTogether(xml, c, m, p, n);
      }
    }
    LayoutAtIs(xml, p, n, c, m);
    l := LayoutAt(xml, p, n, c, m);
  }

  lemma PieceAt(open: string, a: string, t: string, b: string)
    requires IsTag(open, t)
    ensures var xml := a + t + b;
      && |a| < |xml| && TagLen(open, xml[|a|..]) == |t| && xml[|a|..|a| + |t|] == t
  {
    hide IsTag, TagLen;
    TagNotEmpty(open, t);
    TagMatches(open, t, b);
    assert (a + t + b)[|a|..] == t + b;
  }

  lemma FoundTags(l: Layout, xml: string, server: string, connector: string)
    requires Found(l, xml, server, connector)
    ensures FindTag(SERVER, xml) < |xml| && ServerTag(xml) == server && ConnectorTag(xml) == connector
  {
    hide TagLen, FindTag, Select, IsTag, BeforeServer, BeforeConnector, BehindServer, BehindConnector;
    PieceAt(SERVER, BeforeServer(l, connector), server, BehindServer(l, connector));
    PieceAt(CONNECTOR, BeforeConnector(l, server), connector, BehindConnector(l, server));
  }

  // ---------------------------------------------------------------- the <Server> tag is rewritten

  // The document that the search for the connector looks at.
  function Midway(xml: string, shutdownPort: int): string {
    var p := FindTag(SERVER, xml);
    xml[..p] + Rewrite(PortAttr(shutdownPort), ServerTag(xml)) + xml[p + |ServerTag(xml)|..]
  }

  // How the two tags lie there, and what has become of the connector.
  function MidLayout(l: Layout, port: int): Layout {
    if l.ConnectorInside? then l.(u := Rewrite(PortAttr(port), l.u)) else l
  }

  function MidConnector(l: Layout, server: string, connector: string, port: int): string {
    match l
    case ConnectorInside(_, _, _) => Rewrite(PortAttr(port), connector)
    case ServerInside(_, v, _) => v + Rewrite(PortAttr(port), server)
    case _ => connector
  }

  lemma PortsServerTurns(a: Edits, t: Edits, b: Edits, a0: string, a1: string, t0: string, t1: string, b0: string, b1: string)
    requires Turns(a, a0, a1) && Turns(t, t0, t1) && Turns(b, b0, b1)
    requires t != [] && t[0] == Keep('<') && t[|t| - 1] == Keep('>') && IsTag(SERVER, t0)
    requires FindTag(SERVER, a0 + t0 + b0) == |a0|
    ensures FindTag(SERVER, a1 + t1 + b1) == |a1|
  {
    hide FindTag, IsTag, Changes;
    TurnsBegin(b, b0, b1);
    ServerTurns(a, t, b, a0, a1, t0, t1, b0, b1);
  }

  // The `<Server>` tag is found again when its ports are replaced and what is around it stays.
  lemma ServerFoundAgain(before: string, server: string, behind: string, port: int)
    requires IsTag(SERVER, server) && FindTag(SERVER, before + server + behind) == |before|
    ensures FindTag(SERVER, before + Rewrite(PortAttr(port), server) + behind) == |before|
  {
    hide FindTag, Rewrite, IsTag, Turns, Keeps, PortEdits;
    TagNotEmpty(SERVER, server);
    KeepsTurn(before);
    KeepsTurn(behind);
    PortsTurn(port, server);
    PortsServerTurns(Keeps(before), PortEdits(port, server), Keeps(behind), before, before,
                     server, Rewrite(PortAttr(port), server), behind, behind);
  }

  // The connector is selected again when the ports of a tag behind it are replaced.
  lemma ConnectorFoundBefore(a: string, connector: string, x: string, server: string, b: string, port: int)
    requires IsTag(CONNECTOR, connector) && Select(a + connector + (x + server + b), 0) == Some(|a|)
    ensures Select(a + connector + (x + Rewrite(PortAttr(port), server) + b), 0) == Some(|a|)
  {
    hide Select, Rewrite, IsTag, Turns, Keeps, PortEdits, Whole;
    var r := Rewrite(PortAttr(port), server);
    TagNotEmpty(CONNECTOR, connector);
    KeepsTurn(a);
    KeepsTurn(x);
    KeepsTurn(b);
    KeepsTurn(connector);
    PortsTurn(port, server);
    TurnsWhole(Keeps(x), PortEdits(port, server), Keeps(b), x, x, server, r, b, b);
    ConnectorTurns(Keeps(a), Keeps(connector), Whole(Keeps(x), PortEdits(port, server), Keeps(b)),
                   a, a, connector, connector, x + server + b, x + r + b);
  }

  // The connector is selected again when the ports of a tag before it are replaced.
  lemma ConnectorFoundAfter(a: string, server: string, x: string, connector: string, b: string, port: int)
    requires IsTag(CONNECTOR, connector) && Select(a + server + x + connector + b, 0) == Some(|a + server + x|)
    ensures var r := Rewrite(PortAttr(port), server);
      Select(a + r + x + connector + b, 0) == Some(|a + r + x|)
  {
    hide Select, Rewrite, IsTag, Turns, Keeps, PortEdits, Whole;
    var r := Rewrite(PortAttr(port), server);
    TagNotEmpty(CONNECTOR, connector);
    KeepsTurn(a);
    KeepsTurn(x);
    KeepsTurn(b);
    KeepsTurn(connector);
    PortsTurn(port, server);
    TurnsWhole(Keeps(a), PortEdits(port, server), Keeps(x), a, a, server, r, x, x);
    ConnectorTurns(Whole(Keeps(a), PortEdits(port, server), Keeps(x)), Keeps(connector), Keeps(b),
                   a + server + x, a + r + x, connector, connector, b, b);
  }

  lemma ServerStepBefore(l: Layout, xml: string, server: string, connector: string, port: int)
    requires Found(l, xml, server, connector) && l.ConnectorFirst?
    ensures var r := Rewrite(PortAttr(port), server);
      Found(l, BeforeServer(l, connector) + r + BehindServer(l, connector), r, connector)
  {
    hide FindTag, Select, Rewrite, IsTag;
    var a, x, b := l.a, l.x, l.b;
    var r := Rewrite(PortAttr(port), server);
    TagNotEmpty(CONNECTOR, connector);
    PortsKeepTag(SERVER, server, port);
    ServerFoundAgain(BeforeServer(l, connector), server, BehindServer(l, connector), port);
    ConnectorFoundBefore(a, connector, x, server, b, port);
    Reassociate(a, connector, x, r, b);
  }

  lemma Reassociate(a: string, k: string, x: string, r: string, b: string)
    ensures (a + k + x) + r + b == a + k + (x + r + b)
  {
  }

  lemma ServerStepAfter(l: Layout, xml: string, server: string, connector: string, port: int)
    requires Found(l, xml, server, connector) && l.ServerFirst?
    ensures var r := Rewrite(PortAttr(port), server);
      Found(l, BeforeServer(l, connector) + r + BehindServer(l, connector), r, connector)
  {
    hide FindTag, Select, Rewrite, IsTag;
    var a, x, b := l.a, l.x, l.b;
    var r := Rewrite(PortAttr(port), server);
    TagNotEmpty(CONNECTOR, connector);
    PortsKeepTag(SERVER, server, port);
    ServerFoundAgain(BeforeServer(l, connector), server, BehindServer(l, connector), port);
    ConnectorFoundAfter(a, server, x, connector, b, port);
    Reassociate(a, r, x, connector, b);
  }

  lemma ServerStepOutside(l: Layout, xml: string, server: string, connector: string, port: int)
    requires Found(l, xml, server, connector) && l.ConnectorInside?
    ensures var r := Rewrite(PortAttr(port), server);
      Found(MidLayout(l, port), l.a + r + l.b, r, Rewrite(PortAttr(port), connector))
  {
    hide FindTag, Select, Rewrite, IsTag, Turns, Keeps, PortEdits;
    var a, u, b := l.a, l.u, l.b;
    var rule := PortAttr(port);
    var r, w, k := Rewrite(rule, server), Rewrite(rule, u), Rewrite(rule, connector);
    hide MidLayout, LaidOut;
    TagNotEmpty(SERVER, server);
    TagNotEmpty(CONNECTOR, connector);
    PortsKeepTag(SERVER, server, port);
    PortsKeepTag(CONNECTOR, connector, port);
    NestedParts(l, xml, server, connector);
    RewriteSplit(port, u, connector);
    KeepsTurn(a);
    KeepsTurn(b);
    PortsTurn(port, u);
    PortsTurn(port, connector);
    PortsTurn(port, server);
    PortsServerTurns(Keeps(a), PortEdits(port, server), Keeps(b), a, a, server, r, b, b);
    TurnsConcat(Keeps(a), PortEdits(port, u), a, a, u, w);
    ConnectorTurns(Keeps(a) + PortEdits(port, u), PortEdits(port, connector), Keeps(b),
                   a + u, a + w, connector, k, b, b);
    NestedMid(l, server, connector, port);
  }

  lemma NestedParts(l: Layout, xml: string, server: string, connector: string)
    requires LaidOut(l, xml, server, connector) && l.ConnectorInside?
    ensures server == l.u + connector && xml == l.a + server + l.b == (l.a + l.u) + connector + l.b
    ensures BeforeServer(l, connector) == l.a && BeforeConnector(l, server) == l.a + l.u
  {
  }

  lemma NestedMid(l: Layout, server: string, connector: string, port: int)
    requires l.ConnectorInside? && l.u != ""
    ensures var rule := PortAttr(port); var w, k := Rewrite(rule, l.u), Rewrite(rule, connector);
      && MidLayout(l, port) == ConnectorInside(l.a, w, l.b)
      && LaidOut(MidLayout(l, port), l.a + (w + k) + l.b, w + k, k)
  {
    hide Rewrite;
    NotErased(port, l.u);
    NestedJoin(l.a, Rewrite(PortAttr(port), l.u), Rewrite(PortAttr(port), connector), l.b);
  }

  lemma NestedJoin(a: string, u: string, k: string, b: string)
    ensures a + (u + k) + b == (a + u) + k + b
  {
  }

  lemma NotErased(port: int, u: string)
    requires u != ""
    ensures Rewrite(PortAttr(port), u) != ""
  {
    FirstCharStays(PortAttr(port), u);
  }

  // A connector around the <Server> tag is still a tag when the end of it is rewritten.
  lemma OuterTag(open: string, v: string, t: string, r: string)
    requires IsTag(open, v + t) && v != "" && t != "" && r != "" && t[0] == '<' && r[0] == '<'
    requires r[|r| - 1] == '>' && '>' !in r[..|r| - 1]
    ensures IsTag(open, v + r)
  {
    var whole, s := v + t, v + r;
    PrefixChars(whole, open);
    assert whole[|v|] == '<';
    assert |v| >= |open| && v[..|open|] == whole[..|open|];
    assert whole[..|whole| - 1] == v + t[..|t| - 1];
    assert s[..|s| - 1] == v + r[..|r| - 1];
    assert s[..|open|] == v[..|open|];
    assert |v| > |open| ==> s[|open|] == v[|open|] == whole[|open|];
    assert |v| == |open| ==> s[|open|] == '<';
  }

  lemma ServerStepInside(l: Layout, xml: string, server: string, connector: string, port: int)
    requires Found(l, xml, server, connector) && l.ServerInside?
    ensures var r := Rewrite(PortAttr(port), server);
      Found(l, BeforeServer(l, connector) + r + l.b, r, l.v + r)
  {
    hide FindTag, Select, Rewrite, IsTag, Turns, Keeps, PortEdits;
    var a, v, b := l.a, l.v, l.b;
    var r := Rewrite(PortAttr(port), server);
    TagNotEmpty(SERVER, server);
    PortsKeepTag(SERVER, server, port);
    TagNotEmpty(SERVER, r);
    LastOnly(SERVER, r);
    OuterTag(CONNECTOR, v, server, r);
    KeepsTurn(a);
    KeepsTurn(v);
    KeepsTurn(b);
    KeepsTurn(a + v);
    PortsTurn(port, server);
    PortsServerTurns(Keeps(a + v), PortEdits(port, server), Keeps(b), a + v, a + v, server, r, b, b);
    TurnsConcat(Keeps(v), PortEdits(port, server), v, v, server, r);
    ConnectorTurns(Keeps(a), Keeps(v) + PortEdits(port, server), Keeps(b), a, a, v + server, v + r, b, b);
    NestedJoin(a, v, r, b);
  }

  /** Rewriting the <Server> tag leaves both tags where they are found, as this says. */
  lemma ServerStep(l: Layout, xml: string, server: string, connector: string, port: int)
    requires Found(l, xml, server, connector)
    ensures Found(MidLayout(l, port), Midway(xml, port), Rewrite(PortAttr(port), server),
                  MidConnector(l, server, connector, port))
  {
    hide Found, Rewrite, FindTag;
    MidwayIs(l, xml, server, connector, port);
    match l
    case ConnectorFirst(_, _, _) => ServerStepBefore(l, xml, server, connector, port);
    case ServerFirst(_, _, _) => ServerStepAfter(l, xml, server, connector, port);
    case ConnectorInside(_, _, _) => ServerStepOutside(l, xml, server, connector, port);
    case ServerInside(_, _, _) => ServerStepInside(l, xml, server, connector, port);
  }

  lemma MidwayIs(l: Layout, xml: string, server: string, connector: string, port: int)
    requires Found(l, xml, server, connector)
    ensures Midway(xml, port) ==
      BeforeServer(l, connector) + Rewrite(PortAttr(port), server) + BehindServer(l, connector)
  {
    hide FindTag, Select, Rewrite, IsTag, BeforeServer, BehindServer, BeforeConnector, BehindConnector, ServerTag;
    FoundTags(l, xml, server, connector);
    var a, b := BeforeServer(l, connector), BehindServer(l, connector);
    assert xml[..|a|] == a && xml[|a| + |server|..] == b;
  }

  // ---------------------------------------------------------------- ports

  predicate HasPort(tag: string) {
    Matches(PortAttr(0), tag) != []
  }

  lemma {:induction false} PortsAreThere(tag: string, port: int)
    ensures Matches(PortAttr(port), tag) == Matches(PortAttr(0), tag)
    decreases |tag|
  {
    hide StartsWith, DigitRun;
    var n := MatchLen(PortAttr(0), tag);
    if n > 0 {
      PortsAreThere(tag[n..], port);
    } else if tag == "" {
    } else {
      PortsAreThere(tag[1..], port);
    }
  }

  lemma ReplacePortNeeds(tag: string, port: int)
    ensures ReplacePort(tag, port) == if HasPort(tag) then Some(Rewrite(PortAttr(port), tag)) else None
  {
    hide Matches, Rewrite;
    PortsAreThere(tag, port);
  }

  lemma RewrittenHasPort(tag: string, port: int)
    ensures HasPort(Rewrite(PortAttr(port), tag)) <==> port >= 0 && HasPort(tag)
  {
    hide Matches, Rewrite;
    SecondPass(PortAttr(port), tag);
    PortsAreThere(tag, port);
    PortsAreThere(Rewrite(PortAttr(port), tag), port);
  }

  lemma PortsSplit(u: string, v: string)
    requires v == "" || v[0] == '<'
    ensures HasPort(u + v) <==> HasPort(u) || HasPort(v)
    ensures forall port :: Rewrite(PortAttr(port), u + v) == Rewrite(PortAttr(port), u) + Rewrite(PortAttr(port), v)
  {
    hide Matches, Rewrite;
    RewriteSplit(0, u, v);
    forall port ensures Rewrite(PortAttr(port), u + v) == Rewrite(PortAttr(port), u) + Rewrite(PortAttr(port), v) {
      RewriteSplit(port, u, v);
    }
  }

  lemma NoPortInNothing()
    ensures !HasPort("")
  {
  }

  // ---------------------------------------------------------------- how the patch ends

  // The part of the connector's tag that lies outside the <Server> tag.
  function Outside(xml: string): string
    requires FindTag(SERVER, xml) < |xml| && Select(xml, 0).Some?
  {
    var p, c := FindTag(SERVER, xml), Select(xml, 0).value;
    if !SpansOverlap(p, |ServerTag(xml)|, c, |ConnectorTag(xml)|) then ConnectorTag(xml)
    else if c < p then xml[c..p]
    else ""
  }

  function OutsideOf(l: Layout, connector: string): string {
    match l
    case ConnectorInside(_, _, _) => ""
    case ServerInside(_, v, _) => v
    case _ => connector
  }

  lemma OutsideIs(l: Layout, xml: string)
    requires FindTag(SERVER, xml) < |xml| && Select(xml, 0).Some?
    requires Found(l, xml, ServerTag(xml), ConnectorTag(xml))
    requires Apart(l) <==>
      !SpansOverlap(FindTag(SERVER, xml), |ServerTag(xml)|, Select(xml, 0).value, |ConnectorTag(xml)|)
    ensures Outside(xml) == OutsideOf(l, ConnectorTag(xml))
  {
    hide FindTag, Select, IsTag, ServerTag, ConnectorTag;
    if l.ServerInside? {
      assert xml[|l.a|..|l.a| + |l.v|] == l.v by { VPart(l.a, l.v, ServerTag(xml), l.b); }
    }
  }

  lemma VPart(a: string, v: string, t: string, b: string)
    ensures ((a + v) + t + b)[|a|..|a| + |v|] == v
  {
  }

  lemma MidConnectorHasPort(l: Layout, xml: string, server: string, connector: string, port: int)
    requires Found(l, xml, server, connector) && HasPort(server)
    ensures HasPort(MidConnector(l, server, connector, port)) <==>
      HasPort(if port >= 0 then connector else OutsideOf(l, connector))
  {
    hide HasPort, Rewrite, IsTag, FindTag, Select;
    NoPortInNothing();
    TagNotEmpty(SERVER, server);
    if l.ConnectorInside? {
      RewrittenHasPort(connector, port);
    } else if l.ServerInside? {
      var r := Rewrite(PortAttr(port), server);
      FirstCharStays(PortAttr(port), server);
      PortsSplit(l.v, r);
      PortsSplit(l.v, server);
      RewrittenHasPort(server, port);
    }
  }

  lemma PatchSteps(xml: string, httpPort: int, shutdownPort: int)
    ensures Patch(xml, httpPort, shutdownPort) ==
      if FindTag(SERVER, xml) == |xml| then Err(NoServerTag)
      else if !HasPort(ServerTag(xml)) then Err(NoShutdownPort)
      else PatchConnector(Midway(xml, shutdownPort), httpPort)
  {
    hide TagLen, FindTag, PatchConnector, HasPort, Rewrite, Matches, ReplacePort;
    ReplacePortNeeds(ServerTag(xml), shutdownPort);
  }

  lemma ConnectorOutcome(xml: string, port: int)
    ensures var r := PatchConnector(xml, port);
      && (r == Err(NoConnector) <==> Select(xml, 0).None?)
      && (r == Err(NoConnectorPort) <==> Select(xml, 0).Some? && !HasPort(ConnectorTag(xml)))
      && (r.Ok? <==> Select(xml, 0).Some? && HasPort(ConnectorTag(xml)))
  {
    hide TagLen, EnsureAttr, HasPort, ReplacePort, Select;
    if Select(xml, 0).Some? {
      SelectedIsTag(xml, 0);
      ReplacePortNeeds(ConnectorTag(xml), port);
    }
  }

  lemma NoneSelectedMidway(xml: string, port: int)
    requires FindTag(SERVER, xml) < |xml|
    ensures Select(Midway(xml, port), 0).Some? <==> Select(xml, 0).Some?
  {
    hide FindTag, Select, Rewrite, Turns, TagLen;
    var p, t := FindTag(SERVER, xml), ServerTag(xml);
    NoneSelectedAround(xml[..p], t, xml[p + |t|..], port);
    CutAt(xml, p, |t|);
  }

  lemma CutAt(s: string, i: nat, n: nat)
    requires i + n <= |s|
    ensures s[..i] + s[i..i + n] + s[i + n..] == s
  {
  }

  lemma NoneSelectedAround(a: string, t: string, b: string, port: int)
    ensures Select(a + Rewrite(PortAttr(port), t) + b, 0).Some? <==> Select(a + t + b, 0).Some?
  {
    hide Select, Rewrite, Turns, Keeps, PortEdits, Whole;
    var r := Rewrite(PortAttr(port), t);
    KeepsTurn(a);
    KeepsTurn(b);
    PortsTurn(port, t);
    TurnsWhole(Keeps(a), PortEdits(port, t), Keeps(b), a, a, t, r, b, b);
    SelectedTurns(Whole(Keeps(a), PortEdits(port, t), Keeps(b)), a + t + b, a + r + b);
  }

  lemma SelectedTurns(d: Edits, from: string, to: string)
    requires Turns(d, from, to)
    ensures Select(from, 0).Some? <==> Select(to, 0).Some?
  {
    hide Select, Read, Good, PortsOnly;
    NoneSelected(d);
  }

  /**
    Every outcome of the patch, as a condition on the document it was given. The code looks for the
    connector only after it has rewritten the <Server> tag; that matters only when one of the two
    tags contains the other and the shutdown port is negative, as runWAR passes it.
  */
  lemma PatchOutcome(xml: string, httpPort: int, shutdownPort: int)
    ensures var r := Patch(xml, httpPort, shutdownPort);
      var found := FindTag(SERVER, xml) < |xml|;
      var hasShutdown := found && HasPort(ServerTag(xml));
      var hasHttp := hasShutdown && Select(xml, 0).Some?
        && HasPort(if shutdownPort >= 0 then ConnectorTag(xml) else Outside(xml));
      && (r == Err(NoServerTag) <==> !found)
      && (r == Err(NoShutdownPort) <==> found && !hasShutdown)
      && (r == Err(NoConnector) <==> hasShutdown && Select(xml, 0).None?)
      && (r == Err(NoConnectorPort) <==> hasShutdown && Select(xml, 0).Some? && !hasHttp)
      && (r.Ok? <==> hasHttp)
  {
    hide FindTag, HasPort, Select, ServerTag, ConnectorTag, PatchConnector, Patch, Found, Midway, Outside,
         MidConnector, OutsideOf, MidLayout;
    PatchSteps(xml, httpPort, shutdownPort);
    if FindTag(SERVER, xml) < |xml| && HasPort(ServerTag(xml)) {
      var mid := Midway(xml, shutdownPort);
      ConnectorOutcome(mid, httpPort);
      NoneSelectedMidway(xml, shutdownPort);
      if Select(xml, 0).Some? {
        var l := Layouts(xml);
        ServerStep(l, xml, ServerTag(xml), ConnectorTag(xml), shutdownPort);
        FoundTags(MidLayout(l, shutdownPort), mid, Rewrite(PortAttr(shutdownPort), ServerTag(xml)),
                  MidConnector(l, ServerTag(xml), ConnectorTag(xml), shutdownPort));
        MidConnectorHasPort(l, xml, ServerTag(xml), ConnectorTag(xml), shutdownPort);
        OutsideIs(l, xml);
      }
    }
  }
}
