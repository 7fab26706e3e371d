/**
  Tags and comments of a server.xml, as the launcher's regular expressions see
  them, and what replacing one tag by another does to them.

  The lemmas speak of a document `a + t + b` in which the tag `t` is replaced by
  `u`: what the scanners find up to the replaced tag, and which comments change.
*/
module XmlScan {
  import opened Text
  import opened Rewriting

  const SERVER := "<Server"
  const CONNECTOR := "<Connector"

  predicate TagName(open: string) {
    open == SERVER || open == CONNECTOR
  }

  // Where the first match of `open\b[^>]*>` begins; the length when there is none.
  function FindTag(open: string, s: string): (p: nat)
    ensures p <= |s|
  {
    if s == "" then 0
    else if TagLen(open, s) > 0 then 0
    else 1 + FindTag(open, s[1..])
  }

  lemma {:induction false} FoundTagMatches(open: string, s: string)
    ensures var p := FindTag(open, s); p < |s| ==> TagLen(open, s[p..]) > 0
  {
    if s == "" || TagLen(open, s) > 0 {
    } else {
      FoundTagMatches(open, s[1..]);
      var p := FindTag(open, s);
      assert s[p..] == s[1..][p - 1..];
    }
  }

  // The length up to and including the first "-->", or 0.
  function CloseLen(s: string): (n: nat)
    ensures n <= |s| && (n > 0 ==> n >= 3 && s[n - 1] == '>')
  {
    if s == "" then 0
    else if StartsWith(s, "-->") then 3
    else
      var n := CloseLen(s[1..]);
      if n == 0 then 0 else n + 1
  }

  // The length of a match of (?s)<!--.*?--> at the start of `s`, or 0.
  function CommentLen(s: string): (n: nat)
    ensures n <= |s|
  {
    if !StartsWith(s, "<!--") then 0
    else
      var n := CloseLen(s[4..]);
      if n == 0 then 0 else n + 4
  }

  // Whether position `idx` lies in one of the comments of `s`.
  predicate InComment(s: string, idx: nat)
    decreases |s|
  {
    if s == "" then false
    else
      var n := CommentLen(s);
      if n > 0 then idx < n || InComment(s[n..], idx - n)
      else idx > 0 && InComment(s[1..], idx - 1)
  }

  function Comments(s: string): seq<string>
    decreases |s|
  {
    if s == "" then []
    else
      var n := CommentLen(s);
      if n > 0 then [s[..n]] + Comments(s[n..]) else Comments(s[1..])
  }

  // A whole tag by itself.
  predicate IsTag(open: string, t: string) {
    && TagName(open)
    && |t| > |open| && t[..|open|] == open && !IsWordChar(t[|open|])
    && t[|t| - 1] == '>' && '>' !in t[..|t| - 1]
  }

  predicate Closes(t: string) {
    EndsWith(t, "-->")
  }

  // ---------------------------------------------------------------- tags

  lemma TagIsTag(open: string, s: string)
    requires TagName(open) && TagLen(open, s) > 0
    ensures IsTag(open, s[..TagLen(open, s)])
  {
    var n := TagLen(open, s);
    var t := s[..n];
    TagShape(open, s);
    var body := s[|open|..n];
    assert t[|open|..] == body;
    assert '>' !in open;
    assert t[..n - 1] == open + body[..|body| - 1];
  }

  lemma TagMatches(open: string, t: string, b: string)
    requires IsTag(open, t)
    ensures TagLen(open, t + b) == |t|
    ensures TagLen(if open == SERVER then CONNECTOR else SERVER, t + b) == 0
    ensures CommentLen(t + b) == 0
  {
    hide StartsWith, IndexOf;
    TagThenRest(open, t, b);
    SecondChar(t + b, "<!--");
    SecondChar(t + b, if open == SERVER then CONNECTOR else SERVER);
  }

  lemma TagThenRest(open: string, t: string, b: string)
    requires IsTag(open, t)
    ensures TagLen(open, t + b) == |t| && |t| > 1 && (t + b)[1] == open[1]
  {
    hide TagLen;
    var body := t[|open|..];
    assert t == open + body;
    assert t[1] == t[..|open|][1];
    assert body[|body| - 1] == '>' && body[..|body| - 1] == t[|open|..|t| - 1];
    assert t[|open|..|t| - 1] == t[..|t| - 1][|open|..];
    TagLenAt(open, body, b);
  }

  lemma SecondChar(s: string, w: string)
    requires |s| > 1 && |w| > 1 && s[1] != w[1]
    ensures !StartsWith(s, w)
  {
    PrefixChars(s, w);
  }

  lemma NoTagWithoutLt(open: string, s: string)
    requires TagName(open) && (s == "" || s[0] != '<')
    ensures TagLen(open, s) == 0 && CommentLen(s) == 0
  {
    PrefixChars(s, open);
    PrefixChars(s, "<!--");
  }

  /**
    Before the replaced tag, the same tags begin; one that ends before it ends in the same place, and
    one that does not ends with it.
  */
  lemma TagBefore(open: string, a: string, t: string, u: string, b: string, o: string)
    requires a != "" && TagName(open) && IsTag(o, t) && IsTag(o, u)
    ensures var n := TagLen(open, a + t + b);
      && TagLen(open, a + u + b) == (if n <= |a| then n else |a| + |u|)
      && (n > |a| ==> n == |a| + |t|)
  {
    hide TagLen, StartsWith, IndexOf;
    if |a| > |open| {
      TagBeforeLong(open, a, t, b, o);
      TagBeforeLong(open, a, u, b, o);
    } else {
      TagBeforeShort(open, a, t, b, o);
      TagBeforeShort(open, a, u, b, o);
    }
  }

  lemma TagBeforeLong(open: string, a: string, t: string, b: string, o: string)
    requires |a| > |open| > 0 && IsTag(o, t)
    ensures TagLen(open, a + t + b) ==
      if !StartsWith(a, open) || IsWordChar(a[|open|]) then 0
      else if '>' in a[|open|..] then |open| + IndexOf(a[|open|..], '>') + 1
      else |a| + |t|
  {
    hide IsTag;
    var s, len := a + t + b, |open|;
    TagNotEmpty(o, t);
    assert s[..len] == a[..len] && s[len..] == a[len..] + (t + b);
    if '>' in a[len..] {
      IndexOfIn(a[len..], '>', t + b);
    } else {
      IndexOfBeyond(a[len..], '>', t + b);
      OnlyLastGt(o, t, b);
    }
  }

  lemma OnlyLastGt(o: string, t: string, b: string)
    requires IsTag(o, t)
    ensures IndexOf(t + b, '>') == |t| - 1
  {
    assert t + b == t[..|t| - 1] + ['>'] + b;
    IndexOfSkips(t[..|t| - 1], '>', b);
  }

  lemma TagBeforeShort(open: string, a: string, t: string, b: string, o: string)
    requires 0 < |a| <= |open| && TagName(open) && IsTag(o, t)
    ensures TagLen(open, a + t + b) == if a == open then |a| + |t| else 0
  {
    hide IsTag, StartsWith, IndexOf;
    var s := a + t + b;
    TagNotEmpty(o, t);
    OpenTooLong(open, a, t, b, o);
    assert s[|a|] == '<';
    if a == open {
      assert s[|open|..] == t + b;
      OnlyLastGt(o, t, b);
      SelfPrefix(a, t + b);
      assert a + (t + b) == s;
    }
  }

  lemma SelfPrefix(a: string, rest: string)
    ensures StartsWith(a + rest, a)
  {
  }

  lemma OpenTooLong(open: string, a: string, t: string, b: string, o: string)
    requires TagName(open) && IsTag(o, t) && 0 < |a| <= |open|
    ensures StartsWith(a + t + b, open) ==> a == open
  {
    hide IsTag;
    var s := a + t + b;
    TagNotEmpty(o, t);
    assert s[|a|] == '<';
    PrefixChars(s, open);
    if StartsWith(s, open) && |a| == |open| {
      assert s[..|open|] == a;
    }
  }

  lemma {:induction false} IndexOfIn(a: string, c: char, rest: string)
    requires c in a
    ensures IndexOf(a + rest, c) == IndexOf(a, c) < |a|
  {
    if a[0] == c {
    } else {
      assert (a + rest)[1..] == a[1..] + rest;
      IndexOfIn(a[1..], c, rest);
    }
  }

  lemma {:induction false} IndexOfBeyond(a: string, c: char, rest: string)
    requires c !in a
    ensures IndexOf(a + rest, c) == |a| + IndexOf(rest, c)
  {
    if a == "" {
      assert a + rest == rest;
    } else {
      assert (a + rest)[1..] == a[1..] + rest;
      IndexOfBeyond(a[1..], c, rest);
    }
  }

  // ---------------------------------------------------------------- replacing a tag

  lemma {:induction false} FindAfter(open: string, s: string, tail: string)
    requires TagName(open) && '<' !in s
    ensures FindTag(open, s + tail) == |s| + FindTag(open, tail)
  {
    if s == "" {
      assert s + tail == tail;
    } else {
      assert (s + tail)[1..] == s[1..] + tail;
      FindAfter(open, s[1..], tail);
      NoTagWithoutLt(open, s + tail);
    }
  }

  lemma TagNotEmpty(o: string, t: string)
    requires IsTag(o, t)
    ensures |t| > |o| > 1 && t[0] == '<' && t[|t| - 1] == '>' && o in [SERVER, CONNECTOR]
  {
    assert t[0] == t[..|o|][0];
  }

  // ---------------------------------------------------------------- comments

  lemma {:induction false} CloseLenIn(a: string, rest: string)
    requires CloseLen(a) > 0
    ensures CloseLen(a + rest) == CloseLen(a)
  {
    assert (a + rest)[..3] == a[..3];
    if StartsWith(a, "-->") {
    } else {
      assert (a + rest)[1..] == a[1..] + rest;
      CloseLenIn(a[1..], rest);
    }
  }

  // Nothing closes in `a`, and what follows begins with a character that cannot be part of a close.
  lemma {:induction false} CloseLenBeyond(a: string, rest: string)
    requires CloseLen(a) == 0 && (rest == "" || rest[0] == '<')
    ensures CloseLen(a + rest) == if CloseLen(rest) == 0 then 0 else |a| + CloseLen(rest)
  {
    if a == "" {
      assert a + rest == rest;
    } else {
      assert (a + rest)[1..] == a[1..] + rest;
      CloseLenBeyond(a[1..], rest);
      PrefixChars(a + rest, "-->");
      assert |a| >= 3 ==> (a + rest)[..3] == a[..3];
      assert rest != "" ==> (a + rest)[|a|] == rest[0];
    }
  }

  lemma CloseAtStart(s: string)
    ensures StartsWith(s, "-->") <==> |s| >= 3 && s[0] == '-' && s[1] == '-' && s[2] == '>'
  {
    PrefixChars(s, "-->");
  }

  lemma CloseAtEnd(t: string)
    ensures Closes(t) <==> |t| >= 3 && t[|t| - 3] == '-' && t[|t| - 2] == '-' && t[|t| - 1] == '>'
  {
    if |t| >= 3 {
      CloseAtStart(t[|t| - 3..]);
    }
  }

  // In text whose only '>' is its last character, "-->" can only be at the end.
  lemma {:induction false} CloseLenTag(t: string, b: string)
    requires t != "" && t[|t| - 1] == '>' && '>' !in t[..|t| - 1]
    ensures CloseLen(t + b) ==
      if Closes(t) then |t| else if CloseLen(b) == 0 then 0 else |t| + CloseLen(b)
  {
    hide Closes, StartsWith;
    var s := t + b;
    CloseAtStart(s);
    CloseAtEnd(t);
    assert forall i | 0 <= i < |t| - 1 :: t[i] == t[..|t| - 1][i];
    assert s[1..] == t[1..] + b;
    if |t| == 1 {
      assert t[1..] + b == b;
    } else {
      assert t[1..][..|t| - 2] == t[..|t| - 1][1..];
      CloseLenTag(t[1..], b);
      CloseAtEnd(t[1..]);
    }
  }

  // `a` ends inside a comment that it opens at its start.
  predicate OpensComment(a: string) {
    StartsWith(a, "<!--") && CloseLen(a[4..]) == 0
  }

  lemma CommentLenSplice(a: string, t: string, b: string, o: string)
    requires a != "" && IsTag(o, t)
    ensures CommentLen(a) > 0 ==> CommentLen(a + t + b) == CommentLen(a)
    ensures CommentLen(a) == 0 && !OpensComment(a) ==> CommentLen(a + t + b) == 0
    ensures CommentLen(a) == 0 && OpensComment(a) ==>
      CommentLen(a + t + b) == (if Closes(t) then |a| + |t|
                                else if CloseLen(b) > 0 then |a| + |t| + CloseLen(b)
                                else 0)
  {
    hide IsTag, CloseLen, StartsWith, Closes;
    var s := a + t + b;
    TagNotEmpty(o, t);
    PrefixChars(s, "<!--");
    assert s[|a|] == t[0];
    if StartsWith(a, "<!--") {
      PrefixFits(a, "<!--");
    }
    if |a| >= 4 {
      SamePrefix(a, t + b, "<!--");
      assert s == a + (t + b);
      assert s[4..] == a[4..] + (t + b);
      TailOpens(a, t + b, t, o, b);
      assert CloseLen(s[4..]) == CloseLen(a[4..] + (t + b));
    }
  }

  lemma SamePrefix(a: string, rest: string, w: string)
    requires |w| <= |a|
    ensures StartsWith(a + rest, w) == StartsWith(a, w)
  {
    assert (a + rest)[..|w|] == a[..|w|];
  }

  lemma TailOpens(a: string, rest: string, t: string, o: string, b: string)
    requires |a| >= 4 && rest == t + b && IsTag(o, t)
    ensures CloseLen(a[4..]) > 0 ==> CloseLen(a[4..] + rest) == CloseLen(a[4..])
    ensures CloseLen(a[4..]) == 0 ==>
      CloseLen(a[4..] + rest) == (if Closes(t) then |a| - 4 + |t|
                                  else if CloseLen(b) > 0 then |a| - 4 + |t| + CloseLen(b)
                                  else 0)
  {
    hide CloseLen, Closes;
    TagNotEmpty(o, t);
    LastOnly(o, t);
    if CloseLen(a[4..]) > 0 {
      CloseLenIn(a[4..], rest);
    } else {
      assert rest[0] == t[0];
      CloseLenBeyond(a[4..], rest);
      CloseLenTag(t, b);
    }
  }

  lemma LastOnly(open: string, t: string)
    requires IsTag(open, t)
    ensures t != "" && t[|t| - 1] == '>' && '>' !in t[..|t| - 1]
  {
  }

  lemma {:induction false} InCommentAfter(s: string, tail: string, j: nat)
    requires '<' !in s
    ensures InComment(s + tail, |s| + j) == InComment(tail, j)
  {
    if s == "" {
      assert s + tail == tail;
    } else {
      assert (s + tail)[1..] == s[1..] + tail;
      InCommentAfter(s[1..], tail, j);
      NoTagWithoutLt(SERVER, s + tail);
    }
  }

  // The replacement cannot close a comment that the tag did not, nor leave one open around it.
  predicate KeepsComments(a: string, t: string, u: string, b: string) {
    Closes(t) == Closes(u) || (!Closes(u) && !InComment(a + t + b, |a|))
  }

  lemma KeepsCommentsTail(a: string, t: string, u: string, b: string, n: nat)
    requires KeepsComments(a, t, u, b) && n <= |a|
    requires if CommentLen(a + t + b) == 0 then n == 1 else n == CommentLen(a + t + b)
    ensures KeepsComments(a[n..], t, u, b)
  {
    assert (a + t + b)[n..] == a[n..] + t + b;
  }

  lemma DropFront(a: string, t: string, b: string, n: nat)
    requires n <= |a|
    ensures (a + t + b)[n..] == a[n..] + t + b && (a + t + b)[..n] == a[..n]
  {
  }

  lemma EmptyFront(t: string, b: string)
    ensures "" + t + b == t + b
  {
  }

  // One step of the comment scanner.
  lemma InCommentStep(s: string, idx: nat)
    requires s != ""
    ensures var n := CommentLen(s);
      InComment(s, idx) <==>
        if n > 0 then idx < n || InComment(s[n..], idx - n) else idx > 0 && InComment(s[1..], idx - 1)
  {
  }

  lemma CommentsStep(s: string)
    requires s != ""
    ensures var n := CommentLen(s);
      Comments(s) == if n > 0 then [s[..n]] + Comments(s[n..]) else Comments(s[1..])
  {
  }

  /** Up to the replaced tag, the same positions are in comments. */
  lemma {:induction false} InCommentBefore(a: string, t: string, u: string, b: string, o: string, idx: nat)
    requires idx <= |a| && IsTag(o, t) && IsTag(o, u) && KeepsComments(a, t, u, b)
    ensures InComment(a + t + b, idx) == InComment(a + u + b, idx)
    decreases |a|
  {
    hide IsTag, CommentLen, CloseLen, OpensComment, InComment;
    TagNotEmpty(o, t);
    TagNotEmpty(o, u);
    var s, s' := a + t + b, a + u + b;
    InCommentStep(s, idx);
    InCommentStep(s', idx);
    if a == "" {
      EmptyFront(t, b);
      EmptyFront(u, b);
      TagMatches(o, t, b);
      TagMatches(o, u, b);
    } else {
      CommentLenSplice(a, t, b, o);
      CommentLenSplice(a, u, b, o);
      var n := CommentLen(s);
      if n == 0 || n <= |a| {
        var step := if n == 0 then 1 else n;
        KeepsCommentsTail(a, t, u, b, step);
        DropFront(a, t, b, step);
        DropFront(a, u, b, step);
        if idx >= step {
          InCommentBefore(a[step..], t, u, b, o, idx - step);
        }
      } else {
        InCommentStep(s, |a|);
      }
    }
  }

  lemma {:induction false} CommentsAfter(s: string, tail: string)
    requires '<' !in s
    ensures Comments(s + tail) == Comments(tail)
  {
    if s == "" {
      assert s + tail == tail;
    } else {
      assert (s + tail)[1..] == s[1..] + tail;
      CommentsAfter(s[1..], tail);
      NoTagWithoutLt(SERVER, s + tail);
    }
  }

  /** A comment around the beginning of a tag is around all of it. */
  lemma {:induction false} CommentAroundTag(a: string, t: string, b: string, o: string, j: nat)
    requires IsTag(o, t) && InComment(a + t + b, |a|) && j < |t|
    ensures InComment(a + t + b, |a| + j)
    decreases |a|
  {
    hide IsTag, CommentLen, CloseLen, OpensComment, InComment, Closes;
    TagNotEmpty(o, t);
    var s := a + t + b;
    InCommentStep(s, |a|);
    InCommentStep(s, |a| + j);
    if a == "" {
      EmptyFront(t, b);
      TagMatches(o, t, b);
    } else {
      CommentLenSplice(a, t, b, o);
      var n := CommentLen(s);
      if n <= |a| {
        var step := if n == 0 then 1 else n;
        DropFront(a, t, b, step);
        CommentAroundTag(a[step..], t, b, o, j);
      }
    }
  }
}
