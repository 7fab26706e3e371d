/**
  patchServerXML: the shutdown port of the first <Server> tag and the port of
  the first live HTTP/1.1 connector, whatever their current values are.
*/
module ServerXml {
  import opened Wrappers
  import opened Text
  import opened Rewriting
  import opened XmlScan

  const HTTP_PROTOCOL := "protocol=\"HTTP/1.1\""
  const SSL_ENABLED := "SSLEnabled=\"true\""

  datatype PatchError = NoServerTag | NoShutdownPort | NoConnector | NoConnectorPort

  // serverXMLReplacePort: None when the tag has no port attribute.
  function ReplacePort(tag: string, port: int): (r: Option<string>)
    ensures r.Some? ==> (r.value == "" <==> tag == "")
  {
    FirstCharStays(PortAttr(port), tag);
    if Matches(PortAttr(port), tag) == [] then None else Some(Rewrite(PortAttr(port), tag))
  }

  function Ending(tag: string): string {
    if EndsWith(tag, "/>") then "/>" else ">"
  }

  // serverXMLEnsureAttr
  function EnsureAttr(tag: string, name: string, value: string): (r: string)
    requires tag != ""
    ensures r != ""
  {
    if Contains(tag, name + "=") then tag
    else tag[..|tag| - |Ending(tag)|] + (" " + name + "=\"" + value + "\"") + Ending(tag)
  }

  predicate Qualifies(tag: string) {
    Contains(tag, HTTP_PROTOCOL) && !Contains(tag, SSL_ENABLED)
  }

  // The first connector at or after `i`, outside comments, that speaks plain HTTP/1.1.
  function Select(s: string, i: nat): (c: Option<nat>)
    ensures c.Some? ==> i <= c.value < |s|
    decreases |s| - i
  {
    if i >= |s| then None
    else
      var n := TagLen(CONNECTOR, s[i..]);
      if n == 0 then Select(s, i + 1)
      else if InComment(s, i) || !Qualifies(s[i..i + n]) then Select(s, i + n)
      else Some(i)
  }

  lemma {:induction false} SelectedIsTag(s: string, i: nat)
    ensures var c := Select(s, i); c.Some? ==> TagLen(CONNECTOR, s[c.value..]) > 0
    decreases |s| - i
  {
    hide TagLen, InComment, Qualifies;
    if i >= |s| {
    } else {
      var n := TagLen(CONNECTOR, s[i..]);
      SelectedIsTag(s, if n == 0 then i + 1 else i + n);
    }
  }

  // What the selected connector becomes.
  function PatchedConnector(tag: string, port: int): Option<string>
    requires tag != ""
  {
    match ReplacePort(tag, port)
    case None => None
    case Some(replaced) =>
      Some(EnsureAttr(EnsureAttr(replaced, "URIEncoding", "UTF-8"), "useBodyEncodingForURI", "true"))
  }

  function PatchConnector(xml: string, httpPort: int): Result<string, PatchError> {
    match Select(xml, 0)
    case None => Err(NoConnector)
    case Some(c) =>
      SelectedIsTag(xml, 0);
      var n := TagLen(CONNECTOR, xml[c..]);
      match PatchedConnector(xml[c..c + n], httpPort)
      case None => Err(NoConnectorPort)
      case Some(tag) => Ok(xml[..c] + tag + xml[c + n..])
  }

  function Patch(xml: string, httpPort: int, shutdownPort: int): Result<string, PatchError> {
    var p := FindTag(SERVER, xml);
    if p == |xml| then Err(NoServerTag)
    else
      var n := TagLen(SERVER, xml[p..]);
      match ReplacePort(xml[p..p + n], shutdownPort)
      case None => Err(NoShutdownPort)
      case Some(tag) => PatchConnector(xml[..p] + tag + xml[p + n..], httpPort)
  }

  // ---------------------------------------------------------------- the search as it is coded

  // Start and end of every comment.
  function CommentRanges(s: string, from: nat): (ranges: seq<(nat, nat)>)
    requires from <= |s|
    decreases |s| - from
  {
    if from == |s| then []
    else
      var n := CommentLen(s[from..]);
      if n > 0 then [(from, from + n)] + CommentRanges(s, from + n) else CommentRanges(s, from + 1)
  }

  predicate InRanges(ranges: seq<(nat, nat)>, idx: nat) {
    exists r <- ranges :: r.0 <= idx < r.1
  }

  lemma {:induction false} RangesAreComments(s: string, from: nat, idx: nat)
    requires from <= |s|
    ensures InRanges(CommentRanges(s, from), idx) <==> idx >= from && InComment(s[from..], idx - from)
    decreases |s| - from
  {
    hide CommentLen;
    if from >= |s| {
    } else {
      var n := CommentLen(s[from..]);
      var step := if n > 0 then n else 1;
      assert s[from..][step..] == s[from + step..];
      RangesAreComments(s, from + step, idx);
      if n > 0 {
        var rest := CommentRanges(s, from + n);
        assert forall r :: r in [(from, from + n)] + rest <==> r == (from, from + n) || r in rest;
      }
    }
  }

  // The inComment closure.
  method InOneOf(ranges: seq<(nat, nat)>, idx: nat) returns (inside: bool)
    ensures inside <==> InRanges(ranges, idx)
  {
    for k := 0 to |ranges|
      invariant !InRanges(ranges[..k], idx)
    {
      assert ranges[..k + 1] == ranges[..k] + [ranges[k]];
      if ranges[k].0 <= idx < ranges[k].1 {
        assert ranges[k] in ranges;
        return true;
      }
    }
    assert ranges[..|ranges|] == ranges;
    return false;
  }

  method PatchServerXml(xml: string, httpPort: int, shutdownPort: int) returns (r: Result<string, PatchError>)
    ensures r == Patch(xml, httpPort, shutdownPort)
  {
    hide TagLen, Contains, InComment, FindTag, ReplacePort, PatchedConnector, CommentRanges, InRanges;
    var p := FindTag(SERVER, xml);
    if p == |xml| {
      return Err(NoServerTag);
    }
    var n := TagLen(SERVER, xml[p..]);
    var serverTag := ReplacePort(xml[p..p + n], shutdownPort);
    if serverTag.None? {
      return Err(NoShutdownPort);
    }
    var text := xml[..p] + serverTag.value + xml[p + n..];
    var ranges := CommentRanges(text, 0);
    var found: Option<nat> := None;
    var i := 0;
    while i < |text| && found.None?
      invariant found.None? ==> Select(text, 0) == Select(text, i)
      invariant found.Some? ==> found == Select(text, 0)
      decreases |text| - i, found.None?
    {
      var len := TagLen(CONNECTOR, text[i..]);
      if len == 0 {
        i := i + 1;
        continue;
      }
      var commented := InOneOf(ranges, i);
      RangesAreComments(text, 0, i);
      assert text[0..] == text;
      if commented || !Contains(text[i..i + len], HTTP_PROTOCOL) || Contains(text[i..i + len], SSL_ENABLED) {
        i := i + len;
        continue;
      }
      found := Some(i);
    }
    if found.None? {
      return Err(NoConnector);
    }
    SelectedIsTag(text, 0);
    var c := found.value;
    var m := TagLen(CONNECTOR, text[c..]);
    var tag := PatchedConnector(text[c..c + m], httpPort);
    if tag.None? {
      return Err(NoConnectorPort);
    }
    return Ok(text[..c] + tag.value + text[c + m..]);
  }

  // ---------------------------------------------------------------- replacing ports in a tag

  // A character that cannot continue a port attribute.
  predicate Breaks(c: char) {
    !IsDigit(c) && c !in "port=\""
  }

  // A match does not reach across a character that breaks it.
  lemma MatchWithin(port: int, u: string, v: string)
    requires v == "" || Breaks(v[0])
    ensures u != "" ==> MatchLen(PortAttr(port), u + v) == MatchLen(PortAttr(port), u)
    ensures u == "" ==> MatchLen(PortAttr(port), v) == 0
  {
    var rule := PortAttr(port);
    var s := u + v;
    assert v != "" ==> s[|u|] == v[0];
    assert v == "" ==> s == u;
    assert u == "" ==> s == v;
    if MatchLen(rule, u) > 0 {
      assert s[..MatchLen(rule, u)] == u[..MatchLen(rule, u)];
      MatchIsLocal(rule, u, s);
    } else if MatchLen(rule, s) > 0 && v != "" {
      var n := MatchLen(rule, s);
      MatchIsPlain(rule, s);
      if n <= |u| {
        assert u[..n] == s[..n];
        MatchIsLocal(rule, s, u);
      }
    }
  }

  lemma MatchIsPlain(rule: Rule, s: string)
    requires rule.PortAttr? && MatchLen(rule, s) > 0
    ensures forall i | 0 <= i < MatchLen(rule, s) :: !Breaks(s[i])
    ensures s[MatchLen(rule, s) - 1] == '"'
  {
    var n := DigitRun(s[6..]);
    PrefixChars(s, "port=\"");
    forall i | 0 <= i < 7 + n ensures !Breaks(s[i]) {
      if i < 6 {
        assert s[i] == "port=\""[i];
      } else if i < 6 + n {
        assert s[i] == s[6..][..n][i - 6];
      }
    }
  }

  /** Ports are replaced independently on both sides of a breaking character. */
  lemma {:induction false} RewriteSplit(port: int, u: string, v: string)
    requires v == "" || Breaks(v[0])
    ensures Rewrite(PortAttr(port), u + v) == Rewrite(PortAttr(port), u) + Rewrite(PortAttr(port), v)
    ensures Matches(PortAttr(port), u + v) == Matches(PortAttr(port), u) + Matches(PortAttr(port), v)
    decreases |u|
  {
    hide MatchLen, Replacement, Rewrite, Matches;
    var rule := PortAttr(port);
    MatchWithin(port, u, v);
    if u == "" {
      assert u + v == v;
      assert Rewrite(rule, "") == "" && Matches(rule, "") == [] by { EmptyText(rule); }
    } else {
      var n := MatchLen(rule, u);
      var step := if n > 0 then n else 1;
      assert (u + v)[step..] == u[step..] + v && (u + v)[..n] == u[..n];
      RewriteSplit(port, u[step..], v);
      OneScanStep(rule, u);
      OneScanStep(rule, u + v);
    }
  }

  lemma EmptyText(rule: Rule)
    ensures Rewrite(rule, "") == "" && Matches(rule, "") == []
  {
  }

  lemma PlainText(port: int, v: string)
    requires 'p' !in v
    ensures Rewrite(PortAttr(port), v) == v && Matches(PortAttr(port), v) == []
  {
    NoHeadNoMatch(PortAttr(port), v, "");
    EmptyText(PortAttr(port));
    assert v + "" == v;
    NoMatchesNoChange(PortAttr(port), v);
  }

  lemma PlainTail(port: int, u: string, v: string)
    requires 'p' !in v && (v == "" || Breaks(v[0]))
    ensures Rewrite(PortAttr(port), u + v) == Rewrite(PortAttr(port), u) + v
    ensures Matches(PortAttr(port), u + v) == Matches(PortAttr(port), u)
  {
    RewriteSplit(port, u, v);
    PlainText(port, v);
  }

  // Neither angle bracket comes or goes.
  lemma {:induction false} BracketsStay(port: int, s: string, c: char)
    requires c == '<' || c == '>'
    ensures c in Rewrite(PortAttr(port), s) <==> c in s
    decreases |s|
  {
    var rule := PortAttr(port);
    var n := MatchLen(rule, s);
    if n > 0 {
      MatchIsPlain(rule, s);
      assert s == s[..n] + s[n..];
      BracketsStay(port, s[n..], c);
      PortTextIsPlain(port);
    } else if s == "" {
    } else {
      assert s == [s[0]] + s[1..];
      BracketsStay(port, s[1..], c);
    }
  }

  lemma PortTextIsPlain(port: int)
    ensures forall c <- PortText(port) :: c == '-' || !Breaks(c)
    ensures PortText(port)[0] == 'p' && 'p' !in PortText(port)[1..]
    ensures PortText(port)[|PortText(port)| - 1] == '"'
  {
    var digits := Decimal(port);
    assert PortText(port)[1..] == "ort=\"" + digits + "\"";
    assert forall c <- digits :: c == '-' || IsDigit(c);
  }

  lemma {:induction false} LastCharStays(port: int, s: string)
    requires s != ""
    ensures var r := Rewrite(PortAttr(port), s); r != "" && r[|r| - 1] == s[|s| - 1]
    decreases |s|
  {
    hide MatchLen, Replacement, Rewrite, Matches;
    var rule := PortAttr(port);
    OneScanStep(rule, s);
    FirstCharStays(rule, s);
    var n := MatchLen(rule, s);
    var step := if n > 0 then n else 1;
    if n > 0 {
      MatchIsPlain(rule, s);
      assert Replacement(rule, s[..n]) == PortText(port) by { PortReplacement(port, s[..n]); }
      PortTextIsPlain(port);
    }
    if s[step..] == "" {
      EmptyText(rule);
    } else {
      LastCharStays(port, s[step..]);
      assert s[step..][|s[step..]| - 1] == s[|s| - 1];
    }
  }

  lemma DashesStay(port: int, w: string)
    ensures EndsWith(Rewrite(PortAttr(port), w), "--") <==> EndsWith(w, "--")
  {
    hide MatchLen, Replacement, Rewrite, Matches, EndsWith, PortText;
    var rule := PortAttr(port);
    var r := Rewrite(rule, w);
    EndsWithDashes(w);
    EndsWithDashes(r);
    if w == "" {
      EmptyText(rule);
    } else {
      LastCharStays(port, w);
      if w[|w| - 1] == '-' {
        var v := w[..|w| - 1];
        var q := Rewrite(rule, v);
        assert w == v + "-";
        PlainTail(port, v, "-");
        assert r == q + "-";
        if v == "" {
          EmptyText(rule);
        } else {
          LastCharStays(port, v);
          assert w[|w| - 2] == v[|v| - 1] && r[|r| - 2] == q[|q| - 1];
        }
      }
    }
  }

  lemma EndsWithDashes(w: string)
    ensures EndsWith(w, "--") <==> |w| >= 2 && w[|w| - 1] == '-' && w[|w| - 2] == '-'
  {
  }

  /** Replacing its ports leaves a tag a tag, closing a comment exactly if it did. */
  lemma PortsKeepTag(open: string, t: string, port: int)
    requires IsTag(open, t)
    ensures IsTag(open, Rewrite(PortAttr(port), t)) && Closes(Rewrite(PortAttr(port), t)) == Closes(t)
  {
    hide MatchLen, Replacement, Rewrite, Matches;
    var rule := PortAttr(port);
    var r := Rewrite(rule, t);
    var q := t[..|t| - 1];
    var body := t[|open|..];
    assert t == q + ">";
    PlainTail(port, q, ">");
    BracketsStay(port, q, '>');
    assert r[..|r| - 1] == Rewrite(rule, q);
    PlainPrefix(rule, t, open);
    assert r == open + Rewrite(rule, body);
    FirstCharStays(rule, body);
    DashesStay(port, q);
    ClosesMeansDashes(q);
    ClosesMeansDashes(Rewrite(rule, q));
  }

  lemma ClosesMeansDashes(q: string)
    ensures Closes(q + ">") <==> EndsWith(q, "--")
  {
    var t := q + ">";
    if |t| >= 3 {
      assert t[|t| - 3..] == q[|q| - 2..] + ">";
      assert EndsWith(q, "--") ==> t[|t| - 3..] == "-->";
      assert Closes(t) ==> q[|q| - 2..] == t[|t| - 3..][..2];
    }
  }

  // ---------------------------------------------------------------- adding attributes

  const URI_ENCODING := " URIEncoding=\"UTF-8\""
  const BODY_ENCODING := " useBodyEncodingForURI=\"true\""

  predicate Insertable(ins: string) {
    && |ins| > 1 && ins[0] == ' ' && ins[|ins| - 1] == '"'
    && 'p' !in ins && '<' !in ins && '>' !in ins && 'S' !in ins
  }

  function Stem(tag: string): string
    requires tag != ""
  {
    tag[..|tag| - |Ending(tag)|]
  }

  lemma StemAndEnding(open: string, tag: string)
    requires IsTag(open, tag)
    ensures tag == Stem(tag) + Ending(tag) && |Stem(tag)| >= |open|
  {
    if EndsWith(tag, "/>") {
      assert tag[|tag| - 2..] == "/>";
      assert tag[|tag| - 2] == '/';
      PrefixChars(tag, open);
    } else {
      assert tag[|tag| - 1..] == ">";
    }
  }

  lemma EnsureAttrIs(tag: string, name: string, value: string)
    requires tag != ""
    ensures var ins := " " + name + "=\"" + value + "\"";
      EnsureAttr(tag, name, value) == tag || EnsureAttr(tag, name, value) == Stem(tag) + ins + Ending(tag)
    ensures Contains(EnsureAttr(tag, name, value), name + "=")
  {
    hide Contains;
    if !Contains(tag, name + "=") {
      var ins := " " + name + "=\"" + value + "\"";
      ContainsInside(Stem(tag) + " ", name + "=", "\"" + value + "\"" + Ending(tag));
      assert Stem(tag) + ins + Ending(tag)
          == Stem(tag) + " " + (name + "=") + ("\"" + value + "\"" + Ending(tag));
    }
  }

  /** An added attribute leaves a tag a tag, which does not close a comment. */
  lemma InsertKeepsTag(open: string, tag: string, ins: string)
    requires IsTag(open, tag) && Insertable(ins)
    ensures var r := Stem(tag) + ins + Ending(tag); IsTag(open, r) && !Closes(r)
  {
    hide Stem, Ending, IsTag, Closes, Insertable;
    TagNotEmpty(open, tag);
    var u, e := Stem(tag), Ending(tag);
    StemAndEnding(open, tag);
    EndingIs(tag);
    TagAroundInsertion(open, u, ins, e);
    InsertionDoesNotClose(u, ins, e);
  }

  lemma InsertionDoesNotClose(u: string, ins: string, e: string)
    requires Insertable(ins) && (e == ">" || e == "/>")
    ensures !Closes(u + ins + e)
  {
    var r := u + ins + e;
    assert r[|r| - 3..] == (ins + e)[|ins + e| - 3..];
    assert (ins + e)[|ins| - 1] == '"';
  }

  lemma EndingIs(tag: string)
    ensures Ending(tag) == ">" || Ending(tag) == "/>"
  {
  }

  lemma TagAroundInsertion(open: string, u: string, ins: string, e: string)
    requires IsTag(open, u + e) && |u| >= |open| && Insertable(ins) && (e == ">" || e == "/>")
    ensures IsTag(open, u + ins + e)
  {
    var tag, r := u + e, u + ins + e;
    StemIsPlain(open, u, e);
    hide IsTag;
    TagNotEmpty(open, tag);
    assert IsTag(open, r) by {
      TagFromParts(open, u, ins + e);
      assert u + (ins + e) == r;
    }
  }

  // What a tag without its ending is like.
  predicate PlainStem(open: string, u: string) {
    && |u| >= |open| && u[..|open|] == open && '>' !in u && u != ""
    && (|u| > |open| ==> !IsWordChar(u[|open|]))
  }

  lemma StemIsPlain(open: string, u: string, e: string)
    requires IsTag(open, u + e) && |u| >= |open| && (e == ">" || e == "/>")
    ensures PlainStem(open, u)
  {
    var tag := u + e;
    assert u[..|open|] == tag[..|open|];
    assert u == tag[..|tag| - 1][..|u|];
    assert |u| > |open| ==> u[|open|] == tag[|open|];
  }

  lemma TagFromParts(open: string, u: string, v: string)
    requires TagName(open) && PlainStem(open, u)
    requires |v| > 1 && v[0] == ' ' && v[|v| - 1] == '>' && '>' !in v[..|v| - 1]
    ensures IsTag(open, u + v)
  {
    hide TagName;
    var r := u + v;
    assert r[..|open|] == u[..|open|];
    assert r[..|r| - 1] == u + v[..|v| - 1];
    assert r[|r| - 1] == v[|v| - 1];
    assert r[|open|] == if |u| > |open| then u[|open|] else ' ';
  }

  /** An added attribute leaves the ports of a tag as they are. */
  lemma InsertKeepsPorts(open: string, tag: string, ins: string, port: int)
    requires IsTag(open, tag) && Insertable(ins)
    ensures var r := Stem(tag) + ins + Ending(tag);
      && Matches(PortAttr(port), r) == Matches(PortAttr(port), tag)
      && (Rewrite(PortAttr(port), tag) == tag ==> Rewrite(PortAttr(port), r) == r)
  {
    hide MatchLen, Replacement, Rewrite, Matches, IsTag;
    TagNotEmpty(open, tag);
    var u, e := Stem(tag), Ending(tag);
    StemAndEnding(open, tag);
    PlainTail(port, u, e);
    PlainTail(port, u, ins + e);
    assert u + ins + e == u + (ins + e);
    if Rewrite(PortAttr(port), tag) == tag {
      assert Rewrite(PortAttr(port), u) == (Rewrite(PortAttr(port), u) + e)[..|u|] == u;
    }
  }

  lemma InsertKeeps(u: string, ins: string, e: string, w: string)
    requires w != "" && w[|w| - 1] !in e && Contains(u + e, w)
    ensures Contains(u + ins + e, w)
  {
    var s, s' := u + e, u + ins + e;
    ContainsAt(s, w);
    ContainsAt(s', w);
    var i :| 0 <= i <= |s| && StartsWith(s[i..], w);
    PrefixChars(s[i..], w);
    assert forall k | |u| <= k < |s| :: s[k] == e[k - |u|] && s[k] in e;
    assert s[i..][|w| - 1] == s[i + |w| - 1];
    assert s'[i..][..|w|] == s[i..][..|w|];
  }

  lemma InsertAddsNone(u: string, ins: string, e: string, w: string)
    requires w != "" && w[0] !in ins && w[0] !in e && ins != "" && ins[0] !in w
    requires Contains(u + ins + e, w)
    ensures Contains(u + e, w)
  {
    var s, s' := u + e, u + ins + e;
    ContainsAt(s, w);
    ContainsAt(s', w);
    var i :| 0 <= i <= |s'| && StartsWith(s'[i..], w);
    hide Contains;
    assert forall k | |u| <= k < |s'| :: s'[k] in ins || s'[k] in e;
    PrefixChars(s'[i..], w);
    assert s'[i..][0] == s'[i];
    assert s'[|u|] == ins[0];
    StopsBefore(s', i, w, |u|);
    assert s[i..][..|w|] == s'[i..][..|w|];
  }

  lemma StopsBefore(s: string, i: nat, w: string, cut: nat)
    requires i <= cut < |s| && StartsWith(s[i..], w) && s[cut] !in w
    ensures i + |w| <= cut
  {
    PrefixChars(s[i..], w);
    assert s[i..][cut - i] == s[cut];
  }

  // ---------------------------------------------------------------- what a connector still says

  // Text that neither begins nor continues like a port attribute.
  predicate Unported(w: string) {
    && |w| > 1 && 'p' !in w[1..]
    && (if w[0] == 'p' then w[1] != 'o' else Breaks(w[0]) && w[0] != '-')
  }

  lemma {:induction false} PortsKeepContains(port: int, s: string, w: string)
    requires Unported(w)
    ensures Contains(Rewrite(PortAttr(port), s), w) <==> Contains(s, w)
    decreases |s|
  {
    hide MatchLen, Replacement, Rewrite, Matches;
    var rule := PortAttr(port);
    if s == "" {
      EmptyText(rule);
    } else {
      OneScanStep(rule, s);
      var n := MatchLen(rule, s);
      if n > 0 {
        var rest := Rewrite(rule, s[n..]);
        PortReplacement(port, s[..n]);
        PortsKeepContains(port, s[n..], w);
        assert s == s[..n] + s[n..];
        MatchSkipped(port, s, w);
        ContainsSkip(s[..n], s[n..], w);
        PortTextSkipped(port, rest, w);
        ContainsSkip(PortText(port), rest, w);
      } else {
        var r := Rewrite(rule, s);
        assert r[1..] == Rewrite(rule, s[1..]);
        PortsKeepContains(port, s[1..], w);
        PlainPrefix(rule, s[1..], w[1..]);
        SplitPrefix(s, w);
        SplitPrefix(r, w);
      }
    }
  }

  lemma PortReplacement(port: int, m: string)
    ensures Replacement(PortAttr(port), m) == PortText(port)
  {
  }

  lemma MatchSkipped(port: int, s: string, w: string)
    requires Unported(w) && MatchLen(PortAttr(port), s) > 0
    ensures w[0] !in s[..MatchLen(PortAttr(port), s)][1..] && !StartsWith(s, w)
  {
    var rule := PortAttr(port);
    var n := MatchLen(rule, s);
    MatchIsPlain(rule, s);
    BodyHasNoHead(rule, s);
    BeginWithHead(rule, s);
    PrefixChars(s, w);
    PrefixChars(s, "port=\"");
    assert s[..n][1..] == s[1..n];
    assert forall i | 1 <= i < n :: s[1..n][i - 1] == s[i];
  }

  lemma PortTextSkipped(port: int, rest: string, w: string)
    requires Unported(w)
    ensures w[0] !in PortText(port)[1..] && !StartsWith(PortText(port) + rest, w)
  {
    PortTextIsPlain(port);
    PrefixChars(PortText(port) + rest, w);
    assert (PortText(port) + rest)[1] == 'o';
  }

  // ---------------------------------------------------------------- the selected connector

  /** The selected connector stays selected once it is replaced by a tag that still qualifies. */
  lemma {:induction false} SelectHere(a: string, t: string, u: string, b: string, i: nat)
    requires i <= |a| && IsTag(CONNECTOR, t) && IsTag(CONNECTOR, u) && Qualifies(u) && KeepsComments(a, t, u, b)
    requires Select(a + t + b, i) == Some(|a|)
    ensures Select(a + u + b, i) == Some(|a|)
    decreases |a| - i
  {
    hide IsTag, TagLen, Qualifies, InComment, KeepsComments, Select;
    var s, s' := a + t + b, a + u + b;
    TagNotEmpty(CONNECTOR, t);
    TagNotEmpty(CONNECTOR, u);
    InCommentBefore(a, t, u, b, CONNECTOR, i);
    SelectStep(s, i);
    SelectStep(s', i);
    DropFront(a, t, b, i);
    DropFront(a, u, b, i);
    if i == |a| {
      EmptyFront(t, b);
      EmptyFront(u, b);
      TagMatches(CONNECTOR, t, b);
      TagMatches(CONNECTOR, u, b);
      assert s'[i..i + |u|] == u;
    } else {
      TagBefore(CONNECTOR, a[i..], t, u, b, CONNECTOR);
      var n := TagLen(CONNECTOR, s[i..]);
      if n > 0 {
        assert s[i..i + n] == s'[i..i + n] by { SameSlice(a, t, u, b, i, n); }
      }
      SelectHere(a, t, u, b, if n == 0 then i + 1 else i + n);
    }
  }

  lemma SameSlice(a: string, t: string, u: string, b: string, i: nat, n: nat)
    requires i + n <= |a|
    ensures (a + t + b)[i..i + n] == (a + u + b)[i..i + n]
  {
  }

  // One step of the search.
  lemma SelectStep(s: string, i: nat)
    requires i < |s|
    ensures var n := TagLen(CONNECTOR, s[i..]);
      Select(s, i) ==
        if n == 0 then Select(s, i + 1)
        else if InComment(s, i) || !Qualifies(s[i..i + n]) then Select(s, i + n)
        else Some(i)
    ensures Select(s, i).Some? ==> Select(s, i).value >= i
  {
  }

  lemma {:induction false} SelectSkips(s: string, i: nat, k: nat)
    requires i <= k <= |s| && forall m | i <= m < k :: TagLen(CONNECTOR, s[m..]) == 0
    ensures Select(s, i) == Select(s, k)
    decreases k - i
  {
    hide TagLen, Qualifies, InComment;
    if i >= k {
    } else {
      SelectSkips(s, i + 1, k);
    }
  }
}
