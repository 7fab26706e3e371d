/**
  The comments of a server.xml that patchServerXML has patched: which documents keep every one of
  them as it was. Nothing is assumed about the document.
*/
module ServerXmlComments {
  import opened Text
  import opened Rewriting
  import opened XmlScan
  import opened XmlEdits
  import opened XmlComments
  import opened ServerXml
  import opened ServerXmlEdits
  import opened ServerXmlPatch
  import opened ServerXmlResult

  // ---------------------------------------------------------------- openings come and go with no patch

  lemma PortsOpenNothing(tag: string, port: int)
    ensures Inner(Rewrite(PortAttr(port), tag)) == "" <==> Inner(tag) == ""
  {
    hide Contains, Rewrite, Inner;
    InnerIs(tag);
    InnerIs(Rewrite(PortAttr(port), tag));
    assert OPEN[1..] == "!--";
    PortsKeepContains(port, tag, OPEN);
  }

  lemma PatchOpensNothing(connector: string, k: string, port: int, w: string)
    requires Replaced(connector, k, port, w)
    ensures Inner(k) == "" <==> Inner(connector) == ""
  {
    hide IsTag, Contains, Closes, Rewrite, Stem, Ending, Qualifies, Inner;
    EndingOf(CONNECTOR, connector);
    var u, e := Stem(connector), Ending(connector);
    var r := Rewrite(PortAttr(port), u);
    PlainTail(port, u, e);
    PortsOpenNothing(connector, port);
    InnerIs(r + e);
    InnerIs(k);
    if w == "" {
      assert r + w + e == r + e;
    } else {
      if Contains(k, OPEN) {
        InsertAddsNone(r, w, e, OPEN);
      }
      if Contains(r + e, OPEN) {
        InsertKeeps(r, w, e, OPEN);
      }
    }
  }

  // Text in front of a tag.
  lemma {:induction false} ContainsBefore(v: string, t: string)
    requires |t| > 1 && t[0] == '<' && t[1] != '!'
    ensures Contains(v + t, OPEN) <==> Contains(v, OPEN) || Contains(t, OPEN)
  {
    hide StartsWith;
    if v == "" {
      assert v + t == t;
      NothingOpens();
    } else {
      assert (v + t)[1..] == v[1..] + t;
      ContainsBefore(v[1..], t);
      OpensBefore(v, t);
    }
  }

  lemma OpensBefore(v: string, t: string)
    requires v != "" && |t| > 1 && t[0] == '<'
    ensures StartsWith(v + t, OPEN) <==> StartsWith(v, OPEN)
  {
    var s := v + t;
    PrefixChars(s, OPEN);
    assert s[|v|] == '<';
    if |v| >= 4 {
      assert s[..4] == v[..4];
    }
  }

  lemma InnerBefore(v: string, t: string, o: string)
    requires IsTag(o, t)
    ensures Inner(v + t) == "" <==> Inner(v) == "" && Inner(t) == ""
  {
    hide Contains, Inner;
    TagNotEmpty(o, t);
    assert t[1] == t[..|o|][1];
    ContainsBefore(v, t);
    InnerIs(v);
    InnerIs(t);
    InnerIs(v + t);
  }

  // ---------------------------------------------------------------- one tag is replaced

  // What lies in comments of the tag `t` at `p` is the same in `u`.
  predicate PartKept(xml: string, p: nat, t: string, u: string)
    requires p + |t| <= |xml|
  {
    if InComment(xml, p) then t == u else Hidden(t, xml[p + |t|..]) == Hidden(u, xml[p + |t|..])
  }

  lemma PartOf(a: string, t: string, u: string, b: string)
    ensures PartKept(a + t + b, |a|, t, u) <==>
      if InComment(a + t + b, |a|) then t == u else Hidden(t, b) == Hidden(u, b)
  {
    hide InComment, Hidden;
    AroundPiece(a, t, b);
  }

  /** A tag is replaced by one that opens and closes comments alike. */
  lemma TagComments(a: string, t: string, u: string, b: string, o: string)
    requires IsTag(o, t) && IsTag(o, u) && (Inner(t) == "" <==> Inner(u) == "")
    requires Closes(t) == Closes(u) || (!Closes(u) && !InComment(a + t + b, |a|))
    ensures Comments(a + t + b) == Comments(a + u + b) <==> PartKept(a + t + b, |a|, t, u)
  {
    hide IsTag, Inner, Closes, InComment, Hidden, Comments, PartKept, CloseLen;
    PartOf(a, t, u, b);
    if InComment(a + t + b, |a|) {
      if t != u {
        CommentsChange(a, t, u, b, o);
      }
    } else {
      InCommentBefore(a, t, u, b, o, |a|);
      FrontOfTag(a, t, b, o);
      FrontOfTag(a, u, b, o);
      LastOnly(o, t);
      LastOnly(o, u);
      SameComments(t, u, b, b);
      SameParts(Comments(a), Comments(a), Comments(t + b), Comments(u + b));
    }
  }

  lemma FrontOfTag(a: string, t: string, b: string, o: string)
    requires IsTag(o, t) && !InComment(a + t + b, |a|)
    ensures Comments(a + t + b) == Comments(a) + Comments(t + b)
  {
    hide IsTag, InComment, Comments;
    TagNotEmpty(o, t);
    assert a + t + b == a + (t + b);
    CommentsOfFront(a, t + b);
  }

  // ---------------------------------------------------------------- ports are replaced

  lemma PortsKeepCount(a: string, t: string, b: string, port: int)
    ensures |Comments(a + Rewrite(PortAttr(port), t) + b)| == |Comments(a + t + b)|
    ensures CloseLen(a + Rewrite(PortAttr(port), t) + b) > 0 <==> CloseLen(a + t + b) > 0
  {
    hide Rewrite, Turns, Keeps, PortEdits, Whole, Comments, CloseLen;
    var r := Rewrite(PortAttr(port), t);
    KeepsTurn(a);
    KeepsTurn(b);
    PortsTurn(port, t);
    TurnsWhole(Keeps(a), PortEdits(port, t), Keeps(b), a, a, t, r, b, b);
    TurnsKeepCount(Whole(Keeps(a), PortEdits(port, t), Keeps(b)), a + t + b, a + r + b);
  }

  lemma TurnsKeepCount(d: Edits, from: string, to: string)
    requires Turns(d, from, to)
    ensures |Comments(from)| == |Comments(to)| && (CloseLen(from) > 0 <==> CloseLen(to) > 0)
  {
    hide Comments, CloseLen, Read, Good, PortsOnly, CommentsIn, CloseEdits, Pos;
    CommentCount(d, false);
    CommentCount(d, true);
    CloseRead(d, false);
    CloseRead(d, true);
    NoPos(d, false);
    NoPos(d, true);
  }

  /** The first of the two replacements, on its own. */
  lemma ServerComments(l: Layout, xml: string, server: string, connector: string, port: int)
    requires Found(l, xml, server, connector)
    ensures FindTag(SERVER, xml) + |server| <= |xml|
    ensures Comments(Midway(xml, port)) == Comments(xml)
      <==> PartKept(xml, FindTag(SERVER, xml), server, Rewrite(PortAttr(port), server))
  {
    hide IsTag, Rewrite, FindTag, Select, Comments, InComment, Closes, LaidOut, PartKept, BeforeServer, BehindServer, Inner;
    var a, b := BeforeServer(l, connector), BehindServer(l, connector);
    MidwayIs(l, xml, server, connector, port);
    FoundIs(l, xml, server, connector);
    ServerAt(l, xml, server, connector);
    PortsKeepTag(SERVER, server, port);
    PortsOpenNothing(server, port);
    TagComments(a, server, Rewrite(PortAttr(port), server), b, SERVER);
  }

  lemma ServerAt(l: Layout, xml: string, server: string, connector: string)
    requires LaidOut(l, xml, server, connector)
    ensures xml == BeforeServer(l, connector) + server + BehindServer(l, connector)
  {
  }

  // ---------------------------------------------------------------- both tags are replaced

  lemma SameParts<T>(p: seq<T>, p': seq<T>, q: seq<T>, q': seq<T>)
    requires |p| == |p'|
    ensures p + q == p' + q' <==> p == p' && q == q'
  {
    if p + q == p' + q' {
      assert p == (p + q)[..|p|] && p' == (p' + q')[..|p|];
      assert q == (p + q)[|p|..] && q' == (p' + q')[|p|..];
    }
  }

  lemma ServerFirstComments(a: string, s: string, x: string, t: string, u: string, b: string, port: int)
    requires IsTag(CONNECTOR, t) && IsTag(CONNECTOR, u) && (Inner(t) == "" <==> Inner(u) == "")
    requires var r := Rewrite(PortAttr(port), s);
      && !InComment((a + s + x) + t + b, |a + s + x|)
      && !InComment((a + r + x) + t + b, |a + r + x|)
      && !InComment((a + r + x) + u + b, |a + r + x|)
    ensures var r := Rewrite(PortAttr(port), s);
      Comments((a + r + x) + u + b) == Comments((a + s + x) + t + b) <==>
        Comments((a + r + x) + t + b) == Comments((a + s + x) + t + b) && Hidden(t, b) == Hidden(u, b)
  {
    hide IsTag, Rewrite, Comments, InComment, Closes, Inner, CloseLen, Hidden;
    var r := Rewrite(PortAttr(port), s);
    FrontOfTag(a + s + x, t, b, CONNECTOR);
    FrontOfTag(a + r + x, t, b, CONNECTOR);
    FrontOfTag(a + r + x, u, b, CONNECTOR);
    PortsKeepCount(a, s, x, port);
    LastOnly(CONNECTOR, t);
    LastOnly(CONNECTOR, u);
    SameComments(t, u, b, b);
    var p, p' := Comments(a + s + x), Comments(a + r + x);
    SameParts(p', p, Comments(u + b), Comments(t + b));
    SameParts(p', p, Comments(t + b), Comments(t + b));
  }

  lemma ConnectorFirstComments(a: string, t: string, u: string, x: string, s: string, b: string, port: int)
    requires IsTag(CONNECTOR, t) && IsTag(CONNECTOR, u) && (Inner(t) == "" <==> Inner(u) == "")
    requires var r := Rewrite(PortAttr(port), s);
      && !InComment(a + t + (x + s + b), |a|)
      && !InComment(a + t + (x + r + b), |a|)
      && !InComment(a + u + (x + r + b), |a|)
    ensures var r := Rewrite(PortAttr(port), s);
      Comments(a + u + (x + r + b)) == Comments(a + t + (x + s + b)) <==>
        && Comments(a + t + (x + r + b)) == Comments(a + t + (x + s + b))
        && Hidden(t, x + s + b) == Hidden(u, x + s + b)
  {
    hide IsTag, Rewrite, Comments, InComment, Closes, Inner, CloseLen, Hidden;
    var r := Rewrite(PortAttr(port), s);
    FrontOfTag(a, t, x + s + b, CONNECTOR);
    FrontOfTag(a, t, x + r + b, CONNECTOR);
    FrontOfTag(a, u, x + r + b, CONNECTOR);
    PortsKeepCount(x, s, b, port);
    LastOnly(CONNECTOR, t);
    LastOnly(CONNECTOR, u);
    SameComments(t, u, x + s + b, x + r + b);
    var p := Comments(a);
    SameParts(p, p, Comments(u + (x + r + b)), Comments(t + (x + s + b)));
    SameParts(p, p, Comments(t + (x + r + b)), Comments(t + (x + s + b)));
  }

  // ---------------------------------------------------------------- the patch

  /**
    Whether what lies in comments of the tags that are replaced is replaced by itself. A comment may
    contain a tag or begin inside it.
  */
  predicate CommentedPartsKept(xml: string, httpPort: int, shutdownPort: int)
    requires Patch(xml, httpPort, shutdownPort).Ok?
  {
    PatchIsLocal(xml, httpPort, shutdownPort);
    SpansInside(xml, httpPort, shutdownPort);
    var p, c, server, connector := FindTag(SERVER, xml), Select(xml, 0).value, ServerTag(xml), ConnectorTag(xml);
    var server' := Rewrite(PortAttr(shutdownPort), server);
    var k := PatchedConnector(connector, httpPort).value;
    if !TagsOverlap(xml) then PartKept(xml, p, server, server') && PartKept(xml, c, connector, k)
    else if p < c then PartKept(xml, p, server, Rewrite(PortAttr(shutdownPort), xml[p..c]) + k)
    else
      OverlapsFrom(xml);
      PartKept(xml, c, connector, PatchedConnector(xml[c..p] + server', httpPort).value)
  }

  lemma SpansInside(xml: string, httpPort: int, shutdownPort: int)
    requires Patch(xml, httpPort, shutdownPort).Ok?
    ensures FindTag(SERVER, xml) < |xml| && Select(xml, 0).Some?
    ensures FindTag(SERVER, xml) + |ServerTag(xml)| <= |xml|
    ensures Select(xml, 0).value + |ConnectorTag(xml)| <= |xml|
  {
    hide FindTag, Select, ServerTag, ConnectorTag, Patch, PatchedConnector, Rewrite, TagsOverlap, Outside, HasPort,
         Found, EndLayout, EndServer, Replaced, WithConnector, Midway, MidLayout, MidConnector, OutsideOf;
    var l, k, w := Stages(xml, httpPort, shutdownPort);
    TagsInside(l, xml, ServerTag(xml), ConnectorTag(xml));
  }

  lemma TagsInside(l: Layout, xml: string, server: string, connector: string)
    requires Found(l, xml, server, connector)
    ensures FindTag(SERVER, xml) + |server| <= |xml|
    ensures Select(xml, 0).value + |connector| <= |xml|
  {
    hide FindTag, Select, IsTag, BeforeServer, BeforeConnector, BehindServer, BehindConnector;
  }

  lemma ApartComments(l: Layout, xml: string, server: string, connector: string, k: string, w: string, httpPort: int, shutdownPort: int)
    requires Found(l, xml, server, connector) && Apart(l) && Replaced(connector, k, httpPort, w)
    requires var r := Rewrite(PortAttr(shutdownPort), server);
      && Midway(xml, shutdownPort) == WithConnector(l, r, connector)
      && Found(l, Midway(xml, shutdownPort), r, connector)
      && Found(l, WithConnector(l, r, k), r, k)
    ensures FindTag(SERVER, xml) + |server| <= |xml| && Select(xml, 0).value + |connector| <= |xml|
    ensures var r := Rewrite(PortAttr(shutdownPort), server);
      Comments(WithConnector(l, r, k)) == Comments(xml) <==>
        && PartKept(xml, FindTag(SERVER, xml), server, r)
        && PartKept(xml, Select(xml, 0).value, connector, k)
  {
    hide FindTag, Select, Found, Comments, InComment, PartKept, Replaced, Hidden, IsTag, Rewrite, Inner, WithConnector, Midway;
    var r := Rewrite(PortAttr(shutdownPort), server);
    TagsInside(l, xml, server, connector);
    ServerComments(l, xml, server, connector, shutdownPort);
    ConnectorIsLive(l, xml, server, connector);
    ConnectorIsLive(l, Midway(xml, shutdownPort), r, connector);
    ConnectorIsLive(l, WithConnector(l, r, k), r, k);
    PatchOpensNothing(connector, k, httpPort, w);
    FoundIs(l, xml, server, connector);
    PartOf(BeforeConnector(l, server), connector, k, BehindConnector(l, server));
    WithIs(l, server, connector);
    WithIs(l, r, connector);
    WithIs(l, r, k);
    var a, x, b := l.a, l.x, l.b;
    if l.ServerFirst? {
      ServerFirstComments(a, server, x, connector, k, b, shutdownPort);
    } else {
      ConnectorFirstComments(a, connector, k, x, server, b, shutdownPort);
    }
  }

  lemma WithIs(l: Layout, server: string, k: string)
    requires Apart(l)
    ensures WithConnector(l, server, k) == BeforeConnector(l, server) + k + BehindConnector(l, server)
    ensures l.ServerFirst? ==>
      BeforeConnector(l, server) == l.a + server + l.x && BehindConnector(l, server) == l.b
    ensures l.ConnectorFirst? ==>
      BeforeConnector(l, server) == l.a && BehindConnector(l, server) == l.x + server + l.b
  {
  }

  lemma ClosesOver(v: string, t: string, o: string)
    requires IsTag(o, t)
    ensures Closes(v + t) == Closes(t)
  {
    hide IsTag;
    TagNotEmpty(o, t);
    assert |o| >= 2;
    CloseAtEnd(t);
    CloseAtEnd(v + t);
  }

  // One tag goes around the other, and only the outer one is replaced, here the <Server> tag.
  lemma InsideComments(l: Layout, xml: string, server: string, connector: string, k: string, w: string, httpPort: int, shutdownPort: int)
    requires Found(l, xml, server, connector) && l.ConnectorInside?
    requires Replaced(Rewrite(PortAttr(shutdownPort), connector), k, httpPort, w)
    requires IsTag(SERVER, Rewrite(PortAttr(shutdownPort), l.u) + k)
    ensures var t := Rewrite(PortAttr(shutdownPort), l.u) + k;
      && |l.a| + |server| <= |xml|
      && (Comments(l.a + t + l.b) == Comments(xml) <==> PartKept(xml, |l.a|, server, t))
  {
    hide FindTag, Select, Found, Comments, InComment, PartKept, Hidden, IsTag, Rewrite, Inner, Closes, Stem, Ending, Qualifies,
         LaidOut;
    var a, u, b := l.a, l.u, l.b;
    var u' := Rewrite(PortAttr(shutdownPort), u);
    FoundIs(l, xml, server, connector);
    NestedParts(l, xml, server, connector);
    ConnectorIsLive(l, xml, server, connector);
    PortsKeepTag(CONNECTOR, connector, shutdownPort);
    PatchOpensNothing(Rewrite(PortAttr(shutdownPort), connector), k, httpPort, w);
    PortsOpenNothing(connector, shutdownPort);
    PortsOpenNothing(u, shutdownPort);
    InnerBefore(u, connector, CONNECTOR);
    InnerBefore(u', k, CONNECTOR);
    ClosesOver(u, connector, CONNECTOR);
    ClosesOver(u', k, CONNECTOR);
    if InComment(xml, |a|) {
      TagNotEmpty(CONNECTOR, connector);
      CommentAroundTag(a, server, b, SERVER, |u|);
    }
    TagComments(a, server, u' + k, b, SERVER);
  }

  // Here it is the connector.
  lemma AroundComments(l: Layout, xml: string, server: string, connector: string, k: string, w: string, httpPort: int, shutdownPort: int)
    requires Found(l, xml, server, connector) && l.ServerInside?
    requires Replaced(l.v + Rewrite(PortAttr(shutdownPort), server), k, httpPort, w)
    ensures |l.a| + |connector| <= |xml|
    ensures Comments(l.a + k + l.b) == Comments(xml) <==> PartKept(xml, |l.a|, connector, k)
  {
    hide FindTag, Select, Found, Comments, InComment, PartKept, Hidden, IsTag, Rewrite, Inner, Closes, Stem, Ending, Qualifies,
         LaidOut;
    var a, v, b := l.a, l.v, l.b;
    var r := Rewrite(PortAttr(shutdownPort), server);
    FoundIs(l, xml, server, connector);
    AroundParts(l, xml, server, connector);
    ConnectorIsLive(l, xml, server, connector);
    PortsKeepTag(SERVER, server, shutdownPort);
    PatchOpensNothing(v + r, k, httpPort, w);
    PortsOpenNothing(server, shutdownPort);
    InnerBefore(v, server, SERVER);
    InnerBefore(v, r, SERVER);
    ClosesOver(v, server, SERVER);
    ClosesOver(v, r, SERVER);
    TagComments(a, connector, k, b, CONNECTOR);
  }

  lemma AroundParts(l: Layout, xml: string, server: string, connector: string)
    requires LaidOut(l, xml, server, connector) && l.ServerInside?
    ensures connector == l.v + server && xml == l.a + connector + l.b && BeforeConnector(l, server) == l.a
  {
  }

  lemma ApartEnds(l: Layout, r: string, k: string, httpPort: int, shutdownPort: int, w: string)
    requires Apart(l) && r != ""
    ensures var m := MidLayout(l, shutdownPort);
      m == l && EndLayout(m, httpPort) == l && EndServer(m, r, k, httpPort, w) == r
  {
  }

  lemma InsideEnds(l: Layout, y: string, r: string, k: string, httpPort: int, shutdownPort: int, w: string)
    requires l.ConnectorInside? && r != ""
    requires var m := MidLayout(l, shutdownPort);
      && y == WithConnector(m, r, k)
      && Found(EndLayout(m, httpPort), y, EndServer(m, r, k, httpPort, w), k)
    ensures var t := Rewrite(PortAttr(shutdownPort), l.u) + k; IsTag(SERVER, t) && y == l.a + t + l.b
  {
    hide FindTag, Select, IsTag, Rewrite;
    NestedJoin(l.a, Rewrite(PortAttr(shutdownPort), l.u), k, l.b);
  }

  /**
    Every comment survives byte for byte exactly when what lies in comments of the replaced tags is
    replaced by itself. The search for the connector skips comments, but the search for the <Server>
    tag does not; and neither minds a comment that begins inside the tag.
  */
  lemma CommentsSurviveIff(xml: string, httpPort: int, shutdownPort: int)
    requires Patch(xml, httpPort, shutdownPort).Ok?
    ensures Comments(Patch(xml, httpPort, shutdownPort).value) == Comments(xml)
      <==> CommentedPartsKept(xml, httpPort, shutdownPort)
  {
    hide FindTag, Select, HasPort, ServerTag, ConnectorTag, Patch, Found, Outside, Midway,
         PatchedConnector, Replaced, EndLayout, EndServer, Rewrite, LaidOut, Comments, PartKept, TwoSpans, IsTag;
    var l, k, w := Stages(xml, httpPort, shutdownPort);
    var server, connector := ServerTag(xml), ConnectorTag(xml);
    var r := Rewrite(PortAttr(shutdownPort), server);
    PatchIsLocal(xml, httpPort, shutdownPort);
    SpansInside(xml, httpPort, shutdownPort);
    FoundIs(l, xml, server, connector);
    if shutdownPort >= 0 || Apart(l) {
      MidPatched(l, xml, server, connector, shutdownPort, httpPort);
      SamePatch(MidTag(xml, l, shutdownPort), connector, httpPort);
    }
    if Apart(l) {
      ConnectorIsLive(l, Midway(xml, shutdownPort), r, connector);
      ApartEnds(l, r, k, httpPort, shutdownPort, w);
      ApartComments(l, xml, server, connector, k, w, httpPort, shutdownPort);
    } else {
      NestedSpans(l, xml, server, connector);
      ApartOr(l);
      if l.ConnectorInside? {
        InsideEnds(l, Patch(xml, httpPort, shutdownPort).value, r, k, httpPort, shutdownPort, w);
        InsideComments(l, xml, server, connector, k, w, httpPort, shutdownPort);
      } else {
        AroundComments(l, xml, server, connector, k, w, httpPort, shutdownPort);
      }
    }
  }

  lemma PlainPart(xml: string, p: nat, t: string, u: string)
    requires p + |t| <= |xml| && Inner(t) == "" && Inner(u) == ""
    ensures PartKept(xml, p, t, u) <==> !InComment(xml, p) || t == u
  {
    hide InComment, CommentLen;
  }

  lemma LiveConnector(xml: string, httpPort: int, shutdownPort: int)
    requires Patch(xml, httpPort, shutdownPort).Ok?
    ensures Select(xml, 0).Some? && !InComment(xml, Select(xml, 0).value)
    ensures ConnectorTag(xml) != "" && PatchedConnector(ConnectorTag(xml), httpPort).Some?
    ensures Inner(PatchedConnector(ConnectorTag(xml), httpPort).value) == "" <==> Inner(ConnectorTag(xml)) == ""
  {
    hide FindTag, Select, HasPort, ServerTag, ConnectorTag, Patch, Found, Outside, Midway,
         PatchedConnector, Replaced, EndLayout, EndServer, Rewrite, TagsOverlap, TwoSpans, IsTag, Inner, InComment, Qualifies;
    var l, k, w := Stages(xml, httpPort, shutdownPort);
    PatchIsLocal(xml, httpPort, shutdownPort);
    ConnectorIsLive(l, xml, ServerTag(xml), ConnectorTag(xml));
    FoundIs(l, xml, ServerTag(xml), ConnectorTag(xml));
    var x := ConnectorReplaced(ConnectorTag(xml), httpPort);
    PatchOpensNothing(ConnectorTag(xml), PatchedConnector(ConnectorTag(xml), httpPort).value, httpPort, x);
  }

  /**
    In particular, where the two tags share no text and no comment begins inside them: exactly when
    the first <Server> tag is outside every comment or already carries the port.
  */
  lemma PlainCommentsSurviveIff(xml: string, httpPort: int, shutdownPort: int)
    requires Patch(xml, httpPort, shutdownPort).Ok?
    requires Select(xml, 0).Some? && !TagsOverlap(xml) && Inner(ServerTag(xml)) == "" && Inner(ConnectorTag(xml)) == ""
    ensures Comments(Patch(xml, httpPort, shutdownPort).value) == Comments(xml)
      <==> !InComment(xml, FindTag(SERVER, xml))
           || Rewrite(PortAttr(shutdownPort), ServerTag(xml)) == ServerTag(xml)
  {
    hide FindTag, Select, ServerTag, ConnectorTag, Patch, PatchedConnector, Rewrite, TagsOverlap, TwoSpans, Inner,
         InComment, Comments, PartKept;
    CommentsSurviveIff(xml, httpPort, shutdownPort);
    LiveConnector(xml, httpPort, shutdownPort);
    SpansInside(xml, httpPort, shutdownPort);
    PortsOpenNothing(ServerTag(xml), shutdownPort);
    PlainPart(xml, FindTag(SERVER, xml), ServerTag(xml), Rewrite(PortAttr(shutdownPort), ServerTag(xml)));
    PlainPart(xml, Select(xml, 0).value, ConnectorTag(xml), PatchedConnector(ConnectorTag(xml), httpPort).value);
  }
}
