/**
  The text of the connector that patchServerXML leaves behind, and of the ports, spelled out.
*/
module ServerXmlText {
  import opened Text
  import opened Rewriting
  import opened XmlScan
  import opened ServerXml
  import opened ServerXmlPatch
  import opened ServerXmlResult

  const ENCODING_NAME := "URIEncoding="
  const ENCODING_TEXT := " URIEncoding=\"UTF-8\""
  const BODY_NAME := "useBodyEncodingForURI="
  const BODY_TEXT := " useBodyEncodingForURI=\"true\""

  // What is added to a connector that says this.
  function Additions(tag: string): string {
    (if Contains(tag, "URIEncoding=") then "" else " URIEncoding=\"UTF-8\"")
    + (if Contains(tag, "useBodyEncodingForURI=") then "" else " useBodyEncodingForURI=\"true\"")
  }

  lemma EncodingIsUnported()
    ensures Unported(ENCODING_NAME)
  {
    assert ENCODING_NAME[1..] == "RIEncoding=";
  }

  lemma BodyIsUnported()
    ensures Unported(BODY_NAME)
  {
    hide Unported;
    var front, back := "seBodyEnc", "odingForURI=";
    NoP(front, back);
    assert BODY_NAME == "u" + (front + back);
    OneChar('u', front + back);
  }

  lemma NoP(front: string, back: string)
    requires front == "seBodyEnc" && back == "odingForURI="
    ensures 'p' !in front + back
  {
    assert 'p' !in front;
    assert 'p' !in back;
  }

  lemma OneChar(c: char, rest: string)
    requires 'p' !in rest && rest != "" && c == 'u'
    ensures Unported([c] + rest)
  {
    assert ([c] + rest)[1..] == rest;
  }

  lemma SpelledEncoding()
    ensures "URIEncoding" + "=" == ENCODING_NAME && " " + "URIEncoding" + "=\"" + "UTF-8" + "\"" == ENCODING_TEXT
  {
  }

  lemma SpelledBody()
    ensures "useBodyEncodingForURI" + "=" == BODY_NAME
    ensures " " + "useBodyEncodingForURI" + "=\"" + "true" + "\"" == BODY_TEXT
  {
  }

  lemma StemHere(tag: string)
    requires tag != ""
    ensures Stem(tag) == tag[..|tag| - |Ending(tag)|]
  {
  }

  predicate Ends(r: string, e: string) {
    r != "" && (e == "/>" || (e == ">" && r[|r| - 1] != '/'))
  }

  lemma FirstAttr(r: string, e: string)
    requires Ends(r, e)
    ensures EnsureAttr(r + e, "URIEncoding", "UTF-8") == if Contains(r + e, ENCODING_NAME) then r + e else r + ENCODING_TEXT + e
  {
    hide Contains, Stem, Ending;
    SpelledEncoding();
    StemOf(r, e);
    StemHere(r + e);
  }

  lemma SecondAttr(r: string, e: string)
    requires Ends(r, e)
    ensures EnsureAttr(r + e, "useBodyEncodingForURI", "true") ==
      if Contains(r + e, BODY_NAME) then r + e else r + BODY_TEXT + e
  {
    hide Contains, Stem, Ending;
    SpelledBody();
    StemOf(r, e);
    StemHere(r + e);
  }

  lemma EncodingSparesBody()
    ensures BODY_NAME[0] !in ENCODING_TEXT && ENCODING_TEXT[0] !in BODY_NAME && BODY_NAME[|BODY_NAME| - 1] == '='
  {
  }

  // The first attribute does not hide the name of the second, nor make it up.
  lemma OtherName(r: string, e: string)
    requires e == "/>" || e == ">"
    ensures Contains(r + ENCODING_TEXT + e, BODY_NAME) <==> Contains(r + e, BODY_NAME)
  {
    hide Contains;
    EncodingSparesBody();
    assert BODY_NAME[0] == 'u' && BODY_NAME[|BODY_NAME| - 1] !in e;
    if Contains(r + e, BODY_NAME) {
      InsertKeeps(r, ENCODING_TEXT, e, BODY_NAME);
    }
    if Contains(r + ENCODING_TEXT + e, BODY_NAME) {
      InsertAddsNone(r, ENCODING_TEXT, e, BODY_NAME);
    }
  }

  // Both attributes, one after the other.
  lemma BothAttrs(r: string, e: string)
    requires Ends(r, e)
    ensures EnsureAttr(EnsureAttr(r + e, "URIEncoding", "UTF-8"), "useBodyEncodingForURI", "true") == r + Additions(r + e) + e
  {
    hide Contains, EnsureAttr;
    FirstAttr(r, e);
    if Contains(r + e, ENCODING_NAME) {
      SecondAttr(r, e);
      Joined(r, "", if Contains(r + e, BODY_NAME) then "" else BODY_TEXT, e);
    } else {
      OtherName(r, e);
      assert Ends(r + ENCODING_TEXT, e);
      SecondAttr(r + ENCODING_TEXT, e);
      Joined(r, ENCODING_TEXT, if Contains(r + e, BODY_NAME) then "" else BODY_TEXT, e);
    }
  }

  lemma Joined(r: string, x: string, y: string, e: string)
    ensures r + x + y + e == r + (x + y) + e && r + "" + e == r + e && r + "" == r && x + "" == x
  {
  }

  lemma SameAdditions(tag: string, port: int)
    ensures Additions(Rewrite(PortAttr(port), tag)) == Additions(tag)
  {
    hide Contains, Rewrite;
    EncodingIsUnported();
    BodyIsUnported();
    PortsKeepContains(port, tag, ENCODING_NAME);
    PortsKeepContains(port, tag, BODY_NAME);
  }

  /** The patched connector: its ports replaced, and exactly the attributes added that it did not have. */
  lemma PatchedTextIs(tag: string, port: int)
    requires IsTag(CONNECTOR, tag) && tag != "" && PatchedConnector(tag, port).Some?
    ensures PatchedConnector(tag, port).value == Rewrite(PortAttr(port), Stem(tag)) + Additions(tag) + Ending(tag)
  {
    hide IsTag, Rewrite, Matches, Stem, Ending, EnsureAttr, Additions;
    EndingOf(CONNECTOR, tag);
    var u, e := Stem(tag), Ending(tag);
    var r := Rewrite(PortAttr(port), u);
    PlainTail(port, u, e);
    LastCharStays(port, u);
    BothAttrs(r, e);
    SameAdditions(tag, port);
  }

  // ---------------------------------------------------------------- on the document

  // Text before a character that the word does not have.
  lemma {:induction false} ContainsAcross(v: string, t: string, w: string)
    requires w != "" && t != "" && t[0] !in w
    ensures Contains(v + t, w) <==> Contains(v, w) || Contains(t, w)
  {
    hide StartsWith;
    if v == "" {
      assert v + t == t;
      NotInNothing(w);
    } else {
      assert (v + t)[1..] == v[1..] + t;
      ContainsAcross(v[1..], t, w);
      StartsAcross(v, t, w);
    }
  }

  lemma NotInNothing(w: string)
    requires w != ""
    ensures !Contains("", w)
  {
  }

  lemma StartsAcross(v: string, t: string, w: string)
    requires v != "" && w != "" && t != "" && t[0] !in w
    ensures StartsWith(v + t, w) <==> StartsWith(v, w)
  {
    var s := v + t;
    PrefixChars(s, w);
    assert s[|v|] == t[0];
    if |v| >= |w| {
      assert s[..|w|] == v[..|w|];
    }
  }

  lemma NoBracketInNames()
    ensures '<' !in ENCODING_NAME && '<' !in BODY_NAME
  {
  }

  lemma MidAdditions(l: Layout, xml: string, server: string, connector: string, port: int)
    requires Found(l, xml, server, connector)
    ensures Additions(MidConnector(l, server, connector, port)) == Additions(connector)
  {
    hide Contains, Rewrite, IsTag, FindTag, Select;
    SameAdditions(connector, port);
    if l.ServerInside? {
      var r := Rewrite(PortAttr(port), server);
      TagNotEmpty(SERVER, server);
      FirstCharStays(PortAttr(port), server);
      NoBracketInNames();
      EncodingIsUnported();
      BodyIsUnported();
      PortsKeepContains(port, server, ENCODING_NAME);
      PortsKeepContains(port, server, BODY_NAME);
      ContainsAcross(l.v, server, ENCODING_NAME);
      ContainsAcross(l.v, r, ENCODING_NAME);
      ContainsAcross(l.v, server, BODY_NAME);
      ContainsAcross(l.v, r, BODY_NAME);
    }
  }

  /**
    On every patched document: the connector found there ends in exactly the attributes that the one
    found in the original did not have, with these values, and says before them what that one said,
    its ports replaced.
  */
  lemma AttributesAdded(xml: string, httpPort: int, shutdownPort: int) returns (said: string)
    requires Patch(xml, httpPort, shutdownPort).Ok?
    ensures var y := Patch(xml, httpPort, shutdownPort).value;
      && Select(xml, 0).Some? && Select(y, 0).Some? && ConnectorTag(xml) != ""
      && ConnectorTag(y) == said + Additions(ConnectorTag(xml)) + Ending(ConnectorTag(xml))
      && (shutdownPort >= 0 || !TagsOverlap(xml) ==> said == Rewrite(PortAttr(httpPort), Stem(ConnectorTag(xml))))
  {
    hide FindTag, Select, HasPort, ServerTag, ConnectorTag, Patch, Found, Outside, Midway, MidLayout, MidConnector,
         PatchedConnector, EndLayout, EndServer, Rewrite, IsTag, Qualifies, Apart, Additions, Stem, Ending,
         Replaced, OutsideOf, WithConnector, SpansOverlap, LaidOut, BeforeConnector;
    var l, k, w := Stages(xml, httpPort, shutdownPort);
    var server, connector := ServerTag(xml), ConnectorTag(xml);
    var y := Patch(xml, httpPort, shutdownPort).value;
    var m := MidLayout(l, shutdownPort);
    var server' := Rewrite(PortAttr(shutdownPort), server);
    var mid := MidTag(xml, l, shutdownPort);
    FoundTags(EndLayout(m, httpPort), y, EndServer(m, server', k, httpPort, w), k);
    FoundIs(EndLayout(m, httpPort), y, EndServer(m, server', k, httpPort, w), k);
    ConnectorIsLive(l, xml, server, connector);
    ConnectorIsLive(m, Midway(xml, shutdownPort), server', mid);
    PatchedTextIs(mid, httpPort);
    MidAdditions(l, xml, server, connector, shutdownPort);
    MidEnding(l, xml, server, connector, shutdownPort);
    said := Rewrite(PortAttr(httpPort), Stem(mid));
    if shutdownPort >= 0 || Apart(l) {
      MidPatched(l, xml, server, connector, shutdownPort, httpPort);
      SaidAlike(mid, connector, httpPort);
    }
  }

  // The end of the connector's tag stays, and so does its text, when its ports are rewritten alike.
  lemma MidEnding(l: Layout, xml: string, server: string, connector: string, port: int)
    requires Found(l, xml, server, connector)
    ensures Ending(MidConnector(l, server, connector, port)) == Ending(connector)
  {
    hide IsTag, FindTag, Select, Rewrite, Stem, Ending;
    if l.ConnectorInside? {
      EndingStays(CONNECTOR, connector, port);
    } else if l.ServerInside? {
      EndingStays(SERVER, server, port);
      PortsKeepTag(SERVER, server, port);
      StemOver(l.v, server);
      StemOver(l.v, Rewrite(PortAttr(port), server));
    }
  }

  lemma EndingStays(open: string, tag: string, port: int)
    requires IsTag(open, tag)
    ensures Ending(Rewrite(PortAttr(port), tag)) == Ending(tag)
    ensures tag != "" && Rewrite(PortAttr(port), tag) != ""
    ensures Stem(Rewrite(PortAttr(port), tag)) == Rewrite(PortAttr(port), Stem(tag))
  {
    hide IsTag, Rewrite, Stem, Ending;
    TagNotEmpty(open, tag);
    EndingOf(open, tag);
    var u, e := Stem(tag), Ending(tag);
    PlainTail(port, u, e);
    LastCharStays(port, u);
    StemOf(Rewrite(PortAttr(port), u), e);
  }

  lemma SaidAlike(tag: string, other: string, port: int)
    requires IsTag(CONNECTOR, tag) && IsTag(CONNECTOR, other) && tag != "" && other != ""
    requires Rewrite(PortAttr(port), tag) == Rewrite(PortAttr(port), other)
    ensures Rewrite(PortAttr(port), Stem(tag)) == Rewrite(PortAttr(port), Stem(other))
  {
    hide IsTag, Rewrite, Stem, Ending;
    EndingStays(CONNECTOR, tag, port);
    EndingStays(CONNECTOR, other, port);
  }
}
