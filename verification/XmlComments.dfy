/**
  The comments of a document around a tag: which of them a replacement of the tag changes.

  A comment cannot end inside a tag, but it can begin there; then the end of the tag is part of it.
*/
module XmlComments {
  import opened Text
  import opened Rewriting
  import opened XmlScan

  const OPEN := "<!--"

  // Text that ends with its only '>', as the end of a tag does.
  predicate TagEnd(t: string) {
    t != "" ==> t[|t| - 1] == '>' && '>' !in t[..|t| - 1]
  }

  // From the first "<!--" of the text on; nothing when there is none.
  function Inner(t: string): string {
    if t == "" then "" else if StartsWith(t, OPEN) then t else Inner(t[1..])
  }

  // The end of a tag that lies in a comment begun inside the tag, when `b` follows the tag.
  function Hidden(t: string, b: string): string {
    if CommentLen(Inner(t) + b) > 0 then Inner(t) else ""
  }

  lemma {:induction false} InnerIs(t: string)
    ensures Inner(t) == "" <==> !Contains(t, OPEN)
    ensures Inner(t) != "" ==> StartsWith(Inner(t), OPEN)
    ensures |Inner(t)| <= |t| && t[|t| - |Inner(t)|..] == Inner(t)
    ensures TagEnd(t) ==> TagEnd(Inner(t))
  {
    hide StartsWith;
    if t == "" {
      assert !Contains(t, OPEN) by { NothingOpens(); }
    } else if StartsWith(t, OPEN) {
    } else {
      InnerIs(t[1..]);
      EndOfEnd(t, 1);
      assert t[|t| - |Inner(t)|..] == t[1..][|t| - 1 - |Inner(t)|..];
    }
  }

  lemma NothingOpens()
    ensures !Contains("", OPEN)
  {
  }

  lemma EndOfEnd(t: string, k: nat)
    requires k <= |t|
    ensures TagEnd(t) ==> TagEnd(t[k..])
  {
    if TagEnd(t) && k < |t| {
      assert t[k..][..|t| - k - 1] == t[..|t| - 1][k..];
    }
  }

  // ---------------------------------------------------------------- closes

  lemma {:induction false} CloseLenSuffix(x: string, y: string)
    requires CloseLen(x + y) == 0
    ensures CloseLen(y) == 0
  {
    if x == "" {
      assert x + y == y;
    } else {
      assert (x + y)[1..] == x[1..] + y;
      CloseLenSuffix(x[1..], y);
    }
  }

  lemma {:induction false} NoCloseNoComments(s: string)
    requires CloseLen(s) == 0
    ensures Comments(s) == []
  {
    hide StartsWith;
    if s == "" {
    } else {
      CloseStepBack(s);
      NoCloseNoComments(s[1..]);
    }
  }

  lemma CloseStepBack(s: string)
    requires s != "" && CloseLen(s) == 0
    ensures CloseLen(s[1..]) == 0 && CommentLen(s) == 0
  {
    if StartsWith(s, OPEN) {
      assert s == s[..4] + s[4..];
      CloseLenSuffix(s[..4], s[4..]);
    }
  }

  // A comment begun by the end of a tag is closed by the tag itself or behind it.
  lemma Closing(t: string, b: string)
    requires TagEnd(t) && StartsWith(t, OPEN)
    ensures |t| > 4 && t[4..] != ""
    ensures CommentLen(t + b) > 0 <==> Closes(t[4..]) || CloseLen(b) > 0
    ensures CommentLen(t + b) > 0 ==> CommentLen(t + b) >= |t|
  {
    PrefixChars(t, OPEN);
    EndOfEnd(t, 4);
    assert (t + b)[..4] == t[..4] && (t + b)[4..] == t[4..] + b;
    CloseLenTag(t[4..], b);
  }

  // ---------------------------------------------------------------- the comments behind a place

  lemma CommentWithin(a: string, rest: string)
    requires a != "" && rest != "" && rest[0] == '<'
    ensures CommentLen(a) > 0 ==> CommentLen(a + rest) == CommentLen(a)
    ensures CommentLen(a) == 0 ==> CommentLen(a + rest) == 0 || CommentLen(a + rest) > |a|
  {
    hide StartsWith, CloseLen;
    var s := a + rest;
    PrefixChars(s, OPEN);
    assert s[|a|] == '<';
    if StartsWith(a, OPEN) {
      PrefixFits(a, OPEN);
    }
    if |a| >= 4 {
      SamePrefix(a, rest, OPEN);
      assert s[4..] == a[4..] + rest;
      if CloseLen(a[4..]) > 0 {
        CloseLenIn(a[4..], rest);
      } else {
        CloseLenBeyond(a[4..], rest);
      }
    }
  }

  /** Outside every comment, the comments are those before the place and those behind it. */
  lemma {:induction false} CommentsOfFront(a: string, rest: string)
    requires rest != "" && rest[0] == '<' && !InComment(a + rest, |a|)
    ensures Comments(a + rest) == Comments(a) + Comments(rest)
    decreases |a|
  {
    hide CommentLen, InComment, Comments;
    if a == "" {
      assert a + rest == rest;
      assert Comments("") == [] by { NoCommentInNothing(); }
    } else {
      var s := a + rest;
      CommentWithin(a, rest);
      InCommentStep(s, |a|);
      CommentsStep(s);
      CommentsStep(a);
      var n := CommentLen(s);
      var step := if n > 0 then n else 1;
      assert s[step..] == a[step..] + rest && s[..n] == a[..n];
      CommentsOfFront(a[step..], rest);
    }
  }

  lemma NoCommentInNothing()
    ensures Comments("") == []
  {
  }

  lemma NoOpening(t: string, b: string)
    requires t != "" && !StartsWith(t, OPEN) && t[|t| - 1] == '>'
    ensures !StartsWith(t + b, OPEN)
  {
    var s := t + b;
    PrefixChars(s, OPEN);
    assert s[|t| - 1] == '>';
    if |t| >= 4 {
      assert s[..4] == t[..4];
    }
  }

  // An opening that is not closed hides no other that is.
  lemma UnclosedOpening(t: string, b: string)
    requires TagEnd(t) && StartsWith(t, OPEN) && CommentLen(t + b) == 0
    ensures Hidden(t[1..], b) == ""
  {
    hide CloseLen, StartsWith, CommentLen, Closes;
    Closing(t, b);
    InnerIs(t[1..]);
    EndOfEnd(t, 1);
    var i := Inner(t[1..]);
    if i != "" {
      Closing(i, b);
      var k := |t| - |i|;
      assert t[k..] == t[1..][k - 1..] == i;
      ClosesAsWell(t, k);
    }
  }

  lemma ClosesAsWell(t: string, k: nat)
    requires k + 4 <= |t|
    ensures Closes(t[k..][4..]) ==> Closes(t[4..])
  {
    if Closes(t[k..][4..]) {
      assert t[k..][4..] == t[k + 4..];
      assert t[4..][|t| - 7..] == t[k + 4..][|t| - k - 7..];
    }
  }

  /** The comments from a tag on: those from its hidden end on, or those behind it. */
  lemma {:induction false} CommentsFromTag(t: string, b: string)
    requires TagEnd(t)
    ensures Comments(t + b) == if Hidden(t, b) == "" then Comments(b) else Comments(Hidden(t, b) + b)
  {
    hide StartsWith, CloseLen, Comments, TagEnd;
    if t == "" {
      assert t + b == b;
    } else {
      EndOfEnd(t, 1);
      CommentsStep(t + b);
      assert (t + b)[1..] == t[1..] + b;
      CommentsFromTag(t[1..], b);
      if StartsWith(t, OPEN) {
        if CommentLen(t + b) == 0 {
          UnclosedOpening(t, b);
        }
      } else {
        assert !StartsWith(t + b, OPEN) by { NoOpeningEnd(t, b); }
      }
    }
  }

  lemma NoOpeningEnd(t: string, b: string)
    requires t != "" && !StartsWith(t, OPEN) && TagEnd(t)
    ensures !StartsWith(t + b, OPEN)
  {
    NoOpening(t, b);
  }

  lemma FirstComment(t: string, b: string)
    requires t != "" && TagEnd(t) && StartsWith(t, OPEN) && CommentLen(t + b) > 0
    ensures Comments(t + b) != []
    ensures |Comments(t + b)[0]| >= |t| && Comments(t + b)[0][..|t|] == t
  {
    hide CommentLen, StartsWith;
    Closing(t, b);
    CommentsStep(t + b);
  }

  lemma EndAt(t: string, c: string)
    requires t != "" && TagEnd(t) && |t| <= |c| && c[..|t|] == t
    ensures IndexOf(c, '>') == |t| - 1
  {
    assert c == t[..|t| - 1] + ['>'] + c[|t|..];
    IndexOfSkips(t[..|t| - 1], '>', c[|t|..]);
  }

  lemma DifferentEnds(t: string, u: string, c: string)
    requires t != "" && u != "" && TagEnd(t) && TagEnd(u)
    requires |t| <= |c| && c[..|t|] == t && |u| <= |c| && c[..|u|] == u
    ensures t == u
  {
    EndAt(t, c);
    EndAt(u, c);
  }

  // What is hidden is the end of a tag, and begins a comment.
  lemma HiddenIs(t: string, b: string)
    requires TagEnd(t)
    ensures var h := Hidden(t, b); TagEnd(h) && (h != "" ==> StartsWith(h, OPEN) && CommentLen(h + b) > 0)
    ensures Inner(t) != "" && Hidden(t, b) == "" ==> CloseLen(b) == 0 && Comments(t + b) == []
  {
    hide StartsWith, CloseLen, CommentLen, Closes;
    InnerIs(t);
    if Inner(t) != "" {
      Closing(Inner(t), b);
      if Hidden(t, b) == "" {
        CommentsFromTag(t, b);
        NoCloseNoComments(b);
      }
    }
  }

  // Whether what follows closes a comment decides what is hidden.
  lemma HiddenBefore(t: string, b: string, b': string)
    requires TagEnd(t) && (CloseLen(b) > 0 <==> CloseLen(b') > 0)
    ensures Hidden(t, b) == Hidden(t, b')
  {
    hide StartsWith, CloseLen, CommentLen, Closes;
    InnerIs(t);
    if Inner(t) != "" {
      Closing(Inner(t), b);
      Closing(Inner(t), b');
    }
  }

  /**
    Two tags that both have a "<!--" inside or both have none, with texts behind them that both close
    a comment or both do not: the comments are the same exactly if the hidden ends are, and the
    comments are the same with the first tag before both texts.
  */
  lemma SameComments(t: string, u: string, b: string, b': string)
    requires TagEnd(t) && TagEnd(u) && (Inner(t) == "" <==> Inner(u) == "")
    requires CloseLen(b) > 0 <==> CloseLen(b') > 0
    ensures Comments(t + b) == Comments(u + b')
      <==> Hidden(t, b) == Hidden(u, b) && Comments(t + b) == Comments(t + b')
  {
    hide Comments, CommentLen, CloseLen, Hidden, Inner, TagEnd, StartsWith;
    HiddenBefore(t, b, b');
    HiddenBefore(u, b, b');
    HiddenIs(t, b);
    HiddenIs(u, b');
    CommentsFromTag(t, b);
    CommentsFromTag(t, b');
    CommentsFromTag(u, b');
    var h, k := Hidden(t, b), Hidden(u, b');
    if h != "" {
      FirstComment(h, b);
    }
    if k != "" {
      FirstComment(k, b');
    }
    if h != "" && k != "" && Comments(t + b) == Comments(u + b') {
      DifferentEnds(h, k, Comments(t + b)[0]);
    }
    if h == "" && k == "" {
      HiddenIs(t, b');
      NothingHidden(t, b, b');
      NothingHidden(u, b, b');
    } else if h == "" || k == "" {
      SomeInner(t, b);
      SomeInner(u, b');
    }
  }

  lemma SomeInner(t: string, b: string)
    ensures Hidden(t, b) != "" ==> Inner(t) != ""
  {
  }

  lemma NothingHidden(t: string, b: string, b': string)
    requires TagEnd(t) && Hidden(t, b) == "" && Hidden(t, b') == ""
    ensures Inner(t) != "" ==> Comments(t + b) == [] && Comments(t + b') == []
    ensures Comments(t + b) == Comments(b) && Comments(t + b') == Comments(b')
  {
    hide Comments, CommentLen, CloseLen, Hidden, Inner, TagEnd;
    HiddenIs(t, b);
    HiddenIs(t, b');
    CommentsFromTag(t, b);
    CommentsFromTag(t, b');
  }

  // ---------------------------------------------------------------- a tag in a comment

  /** Replacing a tag inside a comment by a different one changes that comment. */
  lemma {:induction false} CommentsChange(a: string, t: string, u: string, b: string, o: string)
    requires IsTag(o, t) && IsTag(o, u) && Closes(u) == Closes(t) && t != u
    requires InComment(a + t + b, |a|)
    ensures Comments(a + t + b) != Comments(a + u + b)
    decreases |a|
  {
    hide IsTag, CommentLen, CloseLen, OpensComment, Closes, InComment, Comments;
    TagNotEmpty(o, t);
    TagNotEmpty(o, u);
    var s, s' := a + t + b, a + u + b;
    CommentsStep(s);
    CommentsStep(s');
    InCommentStep(s, |a|);
    if a == "" {
      EmptyFront(t, b);
      TagMatches(o, t, b);
    } else {
      CommentLenSplice(a, t, b, o);
      CommentLenSplice(a, u, b, o);
      var n := CommentLen(s);
      if n == 0 || n <= |a| {
        var step := if n == 0 then 1 else n;
        DropFront(a, t, b, step);
        DropFront(a, u, b, step);
        CommentsChange(a[step..], t, u, b, o);
        if n > 0 {
          assert Comments(s)[1..] == Comments(s[n..]) && Comments(s')[1..] == Comments(s'[n..]);
        }
      } else {
        var n' := CommentLen(s');
        assert Comments(s)[0] == s[..n] && Comments(s')[0] == s'[..n'];
        DifferentInside(a, t, u, b, n, n');
      }
    }
  }

  lemma DifferentInside(a: string, t: string, u: string, b: string, n: nat, n': nat)
    requires |a| + |t| <= n <= |a| + |t| + |b| && n' - |u| == n - |t| && t != u
    ensures (a + t + b)[..n] != (a + u + b)[..n']
  {
    var s, s' := a + t + b, a + u + b;
    assert forall i | 0 <= i < |t| :: s[..n][|a| + i] == t[i];
    assert forall i | 0 <= i < |u| :: s'[..n'][|a| + i] == u[i];
    assert |t| != |u| || exists i :: 0 <= i < |t| && t[i] != u[i];
  }
}
