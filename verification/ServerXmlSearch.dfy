/**
  What the searches of patchServerXML find, spelled out: the first tag, the comments, and the first
  live connector for plain HTTP.
*/
module ServerXmlSearch {
  import opened Wrappers
  import opened Text
  import opened Rewriting
  import opened XmlScan
  import opened ServerXml

  // A tag of this element begins here and is so long: up to the first '>'.
  predicate TagAt(s: string, open: string, i: int, n: int) {
    && 0 <= i && |open| < n && i + n <= |s| && s[i..i + |open|] == open
    && !(IsDigit(s[i + |open|]) || 'a' <= s[i + |open|] <= 'z' || 'A' <= s[i + |open|] <= 'Z' || s[i + |open|] == '_')
    && s[i + n - 1] == '>' && '>' !in s[i + |open|..i + n - 1]
  }

  lemma TagLenIs(open: string, s: string, i: nat, n: nat)
    requires i <= |s| && n > 0
    ensures TagLen(open, s[i..]) == n <==> TagAt(s, open, i, n)
  {
    hide IndexOf;
    var t := s[i..];
    if TagLen(open, t) == n {
      TagShape(open, t);
      assert t[|open|..n][..n - |open| - 1] == s[i + |open|..i + n - 1];
      assert t[|open|..n][n - |open| - 1] == s[i + n - 1];
      assert t[..|open|] == s[i..i + |open|];
    }
    if TagAt(s, open, i, n) {
      var body := s[i + |open|..i + n];
      assert body[..|body| - 1] == s[i + |open|..i + n - 1];
      assert t == open + body + s[i + n..];
      TagLenAt(open, body, s[i + n..]);
    }
  }

  /** The first tag is found where one begins and none begins before. */
  lemma {:induction false} FoundTagIsFirst(open: string, s: string)
    ensures var p := FindTag(open, s);
      && (p < |s| ==> TagLen(open, s[p..]) > 0)
      && forall i | 0 <= i < p :: TagLen(open, s[i..]) == 0
  {
    if s == "" {
    } else if TagLen(open, s) > 0 {
      assert s[0..] == s;
    } else {
      FoundTagIsFirst(open, s[1..]);
      var p := FindTag(open, s);
      assert s[p..] == s[1..][p - 1..];
      forall i | 0 <= i < p ensures TagLen(open, s[i..]) == 0 {
        assert i > 0 ==> s[i..] == s[1..][i - 1..];
        assert i == 0 ==> s[i..] == s;
      }
    }
  }

  /** In particular the first <Server> tag, whichever comments there are. */
  lemma ServerTagIsFirst(xml: string)
    ensures var p := FindTag(SERVER, xml);
      && (p < |xml| ==> exists n | 0 < n <= |xml| :: TagAt(xml, "<Server", p, n))
      && forall i, n | 0 <= i < p && 0 < n :: !TagAt(xml, "<Server", i, n)
  {
    hide TagLen, FindTag, TagAt;
    FoundTagIsFirst(SERVER, xml);
    var p := FindTag(SERVER, xml);
    if p < |xml| {
      TagLenIs(SERVER, xml, p, TagLen(SERVER, xml[p..]));
      assert TagAt(xml, "<Server", p, TagLen(SERVER, xml[p..]));
    }
    forall i, n | 0 <= i < p && 0 < n ensures !TagAt(xml, "<Server", i, n) {
      TagLenIs(SERVER, xml, i, n);
    }
  }

  lemma {:induction false} CloseLenIs(s: string)
    ensures var n := CloseLen(s);
      && (n > 0 ==> StartsWith(s[n - 3..], "-->") && forall i | 0 <= i < n - 3 :: !StartsWith(s[i..], "-->"))
      && (n == 0 ==> !Contains(s, "-->"))
  {
    hide StartsWith;
    assert s[0..] == s;
    if s == "" {
      assert !Contains(s, "-->") by { NoneInNothing(); }
    } else if StartsWith(s, "-->") {
    } else {
      CloseLenIs(s[1..]);
      var n := CloseLen(s[1..]);
      if n > 0 {
        assert s[n - 2..] == s[1..][n - 3..];
        forall i | 0 <= i < n - 2 ensures !StartsWith(s[i..], "-->") {
          assert i > 0 ==> s[i..] == s[1..][i - 1..];
        }
      }
    }
  }

  lemma NoneInNothing()
    ensures !Contains("", "-->")
  {
  }

  /** A comment begins with "<!--" and ends with the first "-->" behind that; without one there is none. */
  lemma CommentIs(s: string)
    ensures var n := CommentLen(s);
      && (n > 0 ==>
            && n >= 7 && StartsWith(s, "<!--") && StartsWith(s[n - 3..], "-->")
            && forall i | 4 <= i < n - 3 :: !StartsWith(s[i..], "-->"))
      && (n == 0 ==> !StartsWith(s, "<!--") || !Contains(s[4..], "-->"))
  {
    if StartsWith(s, "<!--") {
      CloseLenIs(s[4..]);
      var n := CommentLen(s);
      if n > 0 {
        assert s[4..][n - 7..] == s[n - 3..];
        forall i | 4 <= i < n - 3 ensures !StartsWith(s[i..], "-->") {
          assert s[4..][i - 4..] == s[i..];
        }
      }
    }
  }

  // A connector begins here, and is not one to be patched: in a comment, not for HTTP, or with TLS.
  predicate PassedOver(s: string, i: nat)
    requires i <= |s|
  {
    var tag := s[i..i + TagLen("<Connector", s[i..])];
    InComment(s, i) || !Contains(tag, "protocol=\"HTTP/1.1\"") || Contains(tag, "SSLEnabled=\"true\"")
  }

  // A connector's tag that begins earlier goes on here.
  predicate InsideEarlier(s: string, from: nat, i: nat)
    requires i <= |s|
  {
    exists k | from <= k < i :: k + TagLen("<Connector", s[k..]) > i
  }

  // No connector before `to` is one to be patched.
  predicate NoneBefore(s: string, from: nat, to: nat)
    requires to <= |s|
  {
    forall i | from <= i < to ::
      TagLen("<Connector", s[i..]) > 0 ==> PassedOver(s, i) || InsideEarlier(s, from, i)
  }

  /**
    The connector selected is the first one outside comments that says `protocol="HTTP/1.1"` and not
    `SSLEnabled="true"`, apart from tags that begin inside the tag of an earlier connector; without
    one, nothing is selected.
  */
  lemma {:induction false} SelectIsFirst(s: string, from: nat)
    requires from <= |s|
    ensures var c := Select(s, from);
      && (c.Some? ==>
            && TagLen("<Connector", s[c.value..]) > 0 && !PassedOver(s, c.value)
            && NoneBefore(s, from, c.value))
      && (c.None? ==> NoneBefore(s, from, |s|))
    decreases |s| - from
  {
    hide TagLen, InComment, PassedOver, Select;
    if from == |s| {
      assert Select(s, from) == None by { NothingLeft(s, from); }
    } else {
      SelectStep(s, from);
      var n := TagLen("<Connector", s[from..]);
      QualifiesIs(s, from);
      if n == 0 || PassedOver(s, from) {
        var next := if n == 0 then from + 1 else from + n;
        SelectIsFirst(s, next);
        var c := Select(s, next);
        var to := if c.Some? then c.value else |s|;
        NoneBetween(s, from, next, to);
      }
    }
  }

  lemma NothingLeft(s: string, i: nat)
    requires i >= |s|
    ensures Select(s, i) == None
  {
  }

  lemma QualifiesIs(s: string, i: nat)
    requires i <= |s|
    ensures InComment(s, i) || !Qualifies(s[i..i + TagLen("<Connector", s[i..])]) <==> PassedOver(s, i)
  {
    hide Contains, TagLen, InComment;
  }

  lemma NoneBetween(s: string, from: nat, next: nat, to: nat)
    requires from < next <= to <= |s| && NoneBefore(s, next, to)
    requires var n := TagLen("<Connector", s[from..]);
      if n == 0 then next == from + 1 else next == from + n && PassedOver(s, from)
    ensures NoneBefore(s, from, to)
  {
    hide TagLen, PassedOver;
    forall i | from <= i < to && TagLen("<Connector", s[i..]) > 0
      ensures PassedOver(s, i) || InsideEarlier(s, from, i)
    {
      if from < i < next {
        assert from + TagLen("<Connector", s[from..]) > i;
      } else if i >= next && !PassedOver(s, i) {
        var k :| next <= k < i && k + TagLen("<Connector", s[k..]) > i;
        assert from <= k < i;
      }
    }
  }
}
