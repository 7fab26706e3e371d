/**
  A document before and after some of its text was replaced, as one list of edits: characters kept,
  port attributes swapped, attributes inserted in front of the end of a tag.

  The scanners of XmlScan are read off the edits alone, so they find the same tags and comments, edit
  by edit, in the document before and in the document after. Nothing is assumed about the document.
*/
module XmlEdits {
  import opened Text
  import opened Rewriting
  import opened XmlScan

  datatype Edit = Keep(c: char) | Swap(was: string, now: string) | Insert(text: string)

  type Edits = seq<Edit>

  function Part(e: Edit, after: bool): string {
    match e
    case Keep(c) => [c]
    case Swap(was, now) => if after then now else was
    case Insert(text) => if after then text else ""
  }

  function Read(d: Edits, after: bool): string {
    if d == [] then "" else Part(d[0], after) + Read(d[1..], after)
  }

  // No close of a comment begins in this text.
  predicate ClosesNothing(t: string) {
    && '>' !in t
    && (t != "" ==> t[|t| - 1] != '-')
    && forall i, k | 0 <= i < |t| && 0 <= k < |t| && k == i + 1 :: t[i] != '-' || t[k] != '-'
  }

  // Text like a port attribute: nothing the scanners look for begins in it or runs across it.
  predicate Inert(t: string) {
    && |t| >= 2 && t[0] == 'p' && t[1] == 'o'
    && 'p' !in t[1..] && '<' !in t && 'S' !in t
    && ClosesNothing(t)
  }

  // An attribute, to be inserted between the other text of a tag and its end.
  predicate IsAttr(t: string) {
    t != "" && t[0] == ' ' && '<' !in t && '>' !in t
  }

  predicate AtTagEnd(d: Edits) {
    d != [] && (d[0].Insert? || d[0] == Keep('>') || d[0] == Keep('/'))
  }

  predicate Good(d: Edits) {
    d != [] ==>
      && (d[0].Swap? ==> Inert(d[0].was) && Inert(d[0].now))
      && (d[0].Insert? ==> IsAttr(d[0].text) && AtTagEnd(d[1..]))
      && Good(d[1..])
  }

  predicate PortsOnly(d: Edits) {
    forall e <- d :: !e.Insert?
  }

  lemma {:induction false} ReadConcat(d: Edits, more: Edits, after: bool)
    ensures Read(d + more, after) == Read(d, after) + Read(more, after)
  {
    hide Part;
    if d == [] {
      assert d + more == more;
    } else {
      assert (d + more)[1..] == d[1..] + more;
      ReadConcat(d[1..], more, after);
    }
  }

  // Where edit number `k` begins.
  function Pos(d: Edits, k: nat, after: bool): nat
    requires k <= |d|
  {
    |Read(d[..k], after)|
  }

  lemma ReadAt(d: Edits, k: nat, after: bool)
    requires k <= |d|
    ensures Pos(d, k, after) <= |Read(d, after)|
    ensures Read(d, after)[Pos(d, k, after)..] == Read(d[k..], after)
    ensures Read(d, after)[..Pos(d, k, after)] == Read(d[..k], after)
  {
    hide Read;
    assert d == d[..k] + d[k..];
    ReadConcat(d[..k], d[k..], after);
  }

  lemma PosStep(d: Edits, k: nat, after: bool)
    requires 0 < k <= |d|
    ensures Pos(d, k, after) == |Part(d[0], after)| + Pos(d[1..], k - 1, after)
  {
    hide Part;
    assert d[..k][0] == d[0] && d[..k][1..] == d[1..][..k - 1];
  }

  lemma {:induction false} GoodTail(d: Edits, k: nat)
    requires Good(d) && k <= |d|
    ensures Good(d[k..])
  {
    hide Inert, IsAttr, AtTagEnd;
    if k == 0 {
      assert d[0..] == d;
    } else {
      assert d[1..][k - 1..] == d[k..];
      GoodTail(d[1..], k - 1);
    }
  }

  // ---------------------------------------------------------------- words

  predicate HasWord(d: Edits, w: string) {
    w == "" || (d != [] && d[0] == Keep(w[0]) && HasWord(d[1..], w[1..]))
  }

  // A word that no swapped text and no insertion can be part of.
  predicate Spared(w: string, d: Edits) {
    && (forall i | 0 <= i < |w| :: w[i] == 'p' ==> i + 1 < |w| && w[i + 1] != 'o')
    && (PortsOnly(d) || (' ' !in w && '>' !in w && '/' !in w))
  }

  lemma {:induction false} TagEndRead(d: Edits)
    requires AtTagEnd(d) && Good(d)
    ensures Read(d, false) != "" && Read(d, false)[0] in "/>"
  {
    if d[0].Insert? {
      TagEndRead(d[1..]);
    }
  }

  lemma SwapFirst(d: Edits, after: bool)
    requires d != [] && d[0].Swap? && Good(d)
    ensures |Read(d, after)| >= 2 && Read(d, after)[0] == 'p' && Read(d, after)[1] == 'o'
  {
  }

  lemma InsertFirst(d: Edits, after: bool)
    requires d != [] && d[0].Insert? && Good(d)
    ensures Read(d, after) != "" && Read(d, after)[0] in " />"
  {
    TagEndRead(d);
  }

  lemma SparedTail(w: string, d: Edits)
    requires Spared(w, d) && w != "" && d != []
    ensures Spared(w[1..], d[1..])
  {
    assert PortsOnly(d) ==> PortsOnly(d[1..]) by { assert forall e <- d[1..] :: e in d; }
  }

  /** The same words begin at the same edits, before and after. */
  lemma {:induction false} WordRead(d: Edits, w: string, after: bool)
    requires Good(d) && Spared(w, d)
    ensures StartsWith(Read(d, after), w) <==> HasWord(d, w)
    decreases |w|
  {
    hide StartsWith, Inert, IsAttr;
    var s := Read(d, after);
    if w == "" {
      EmptyPrefix(s);
    } else if d == [] {
      SplitPrefix(s, w);
    } else {
      SplitPrefix(s, w);
      match d[0] {
        case Keep(c) =>
          assert s[1..] == Read(d[1..], after);
          SparedTail(w, d);
          WordRead(d[1..], w[1..], after);
        case Swap(_, _) =>
          SwapFirst(d, after);
          PrefixChars(s, w);
        case Insert(_) =>
          InsertFirst(d, after);
          assert d[0] in d;
      }
    }
  }

  lemma {:induction false} WordLength(d: Edits, w: string, after: bool)
    requires HasWord(d, w)
    ensures |w| <= |d| && Pos(d, |w|, after) == |w| && PortsOnly(d[..|w|])
  {
    if w == "" {
    } else {
      WordLength(d[1..], w[1..], after);
      PosStep(d, |w|, after);
      assert d[..|w|] == [d[0]] + d[1..][..|w| - 1];
    }
  }

  // ---------------------------------------------------------------- tags

  // The edits up to and including the first '>', or 0.
  function GtEdits(d: Edits): (n: nat)
    ensures n <= |d|
  {
    if d == [] then 0
    else if d[0] == Keep('>') then 1
    else
      var n := GtEdits(d[1..]);
      if n == 0 then 0 else n + 1
  }

  lemma PartWithoutGt(d: Edits, after: bool)
    requires d != [] && Good(d) && d[0] != Keep('>')
    ensures '>' !in Part(d[0], after)
  {
  }

  lemma {:induction false} GtRead(d: Edits, after: bool)
    requires Good(d)
    ensures var n := GtEdits(d); var s := Read(d, after);
      IndexOf(s, '>') == if n == 0 then |s| else Pos(d, n, after) - 1
    ensures GtEdits(d) > 0 ==> Pos(d, GtEdits(d), after) > 0
  {
    hide Inert, IsAttr, AtTagEnd, IndexOf, Pos;
    if d == [] {
      EmptyIndex();
    } else if d[0] == Keep('>') {
      PosStep(d, 1, after);
      NoPos(d[1..], after);
      IndexOfSkips("", '>', Read(d[1..], after));
      assert "" + ['>'] + Read(d[1..], after) == Read(d, after);
    } else {
      GtRead(d[1..], after);
      PartWithoutGt(d, after);
      IndexOfBeyond(Part(d[0], after), '>', Read(d[1..], after));
      if GtEdits(d) > 0 {
        PosStep(d, GtEdits(d), after);
      }
    }
  }

  lemma EmptyIndex()
    ensures IndexOf("", '>') == 0
  {
  }

  lemma NoPos(d: Edits, after: bool)
    ensures Pos(d, 0, after) == 0
  {
  }

  predicate WordNext(d: Edits) {
    d != [] && (d[0].Swap? || (d[0].Keep? && IsWordChar(d[0].c)))
  }

  lemma WordNextRead(d: Edits, after: bool)
    requires d != [] && Good(d)
    ensures Read(d, after) != "" && IsWordChar(Read(d, after)[0]) == WordNext(d)
  {
    match d[0]
    case Keep(_) =>
    case Swap(_, _) => SwapFirst(d, after);
    case Insert(_) => InsertFirst(d, after);
  }

  // The edits of the tag that begins here, or 0.
  function TagEdits(open: string, d: Edits): (n: nat)
    ensures n <= |d|
  {
    if !HasWord(d, open) || |d| <= |open| || WordNext(d[|open|..]) then 0
    else
      var n := GtEdits(d[|open|..]);
      if n == 0 then 0 else |open| + n
  }

  lemma PosSplit(d: Edits, k: nat, n: nat, after: bool)
    requires k + n <= |d|
    ensures Pos(d, k + n, after) == Pos(d, k, after) + Pos(d[k..], n, after)
  {
    assert d[..k + n] == d[..k] + d[k..][..n];
    ReadConcat(d[..k], d[k..][..n], after);
  }

  lemma OpensAreSpared(d: Edits)
    ensures Spared(SERVER, d) && Spared(CONNECTOR, d) && Spared("<!--", d)
    ensures PortsOnly(d) ==> Spared("-->", d)
  {
  }

  /** The same tags begin at the same edits, and end at the same edits. */
  lemma TagRead(open: string, d: Edits, after: bool)
    requires TagName(open) && Good(d)
    ensures TagLen(open, Read(d, after)) == Pos(d, TagEdits(open, d), after)
    ensures TagEdits(open, d) > 0 ==> Pos(d, TagEdits(open, d), after) > 0
  {
    hide HasWord, Read, Spared, GtEdits, WordNext, StartsWith, IndexOf, Pos;
    var s, len := Read(d, after), |open|;
    OpensAreSpared(d);
    WordRead(d, open, after);
    NoPos(d, after);
    if HasWord(d, open) {
      WordLength(d, open, after);
      ReadAt(d, len, after);
      var rest := d[len..];
      GoodTail(d, len);
      if rest == [] {
        NothingRead(after);
      } else {
        WordNextRead(rest, after);
        GtRead(rest, after);
        PosSplit(d, len, GtEdits(rest), after);
        ReadAt(rest, GtEdits(rest), after);
        assert s[len..][0] == s[len];
      }
    }
  }

  lemma NothingRead(after: bool)
    ensures Read([], after) == ""
  {
  }

  // The edit at which the first tag begins, or their number.
  function FindEdit(open: string, d: Edits): (k: nat)
    ensures k <= |d|
  {
    if d == [] then 0 else if TagEdits(open, d) > 0 then 0 else 1 + FindEdit(open, d[1..])
  }

  lemma PartWithoutLt(d: Edits, after: bool)
    requires d != [] && Good(d) && !d[0].Keep?
    ensures '<' !in Part(d[0], after)
  {
  }

  lemma {:induction false} FindRead(open: string, d: Edits, after: bool)
    requires TagName(open) && Good(d)
    ensures FindTag(open, Read(d, after)) == Pos(d, FindEdit(open, d), after)
  {
    hide Inert, IsAttr, AtTagEnd, TagEdits, TagLen, Pos;
    NoPos(d, after);
    if d == [] {
    } else {
      TagRead(open, d, after);
      PosStep(d, 1, after);
      NoPos(d[1..], after);
      FindRead(open, d[1..], after);
      if TagEdits(open, d) == 0 {
        PosStep(d, FindEdit(open, d), after);
        if d[0].Keep? {
          assert Read(d, after)[1..] == Read(d[1..], after);
        } else {
          PartWithoutLt(d, after);
          FindAfter(open, Part(d[0], after), Read(d[1..], after));
        }
      } else {
        TagHere(open, Read(d, after));
      }
    }
  }

  lemma TagHere(open: string, s: string)
    requires TagLen(open, s) > 0
    ensures FindTag(open, s) == 0
  {
  }

  // ---------------------------------------------------------------- comments, when only ports change

  lemma PortsOnlyTail(d: Edits, k: nat)
    requires PortsOnly(d) && k <= |d|
    ensures PortsOnly(d[k..])
  {
    assert forall e <- d[k..] :: e in d;
  }

  function CloseEdits(d: Edits): (n: nat)
    ensures n <= |d|
  {
    if d == [] then 0
    else if HasWord(d, "-->") && |d| >= 3 then 3
    else
      var n := CloseEdits(d[1..]);
      if n == 0 then 0 else n + 1
  }

  function CommentEdits(d: Edits): (n: nat)
    ensures n <= |d|
  {
    if !HasWord(d, "<!--") || |d| < 4 then 0
    else
      var n := CloseEdits(d[4..]);
      if n == 0 then 0 else n + 4
  }

  lemma {:induction false} CloseSkips(t: string, rest: string)
    requires ClosesNothing(t)
    ensures CloseLen(t + rest) == if CloseLen(rest) == 0 then 0 else |t| + CloseLen(rest)
  {
    if t == "" {
      assert t + rest == rest;
    } else {
      var s := t + rest;
      assert s[1..] == t[1..] + rest;
      CloseAtStart(s);
      assert |t| > 1 ==> s[1] == t[1];
      assert ClosesNothing(t[1..]) by {
        assert forall i | 0 <= i < |t| - 1 :: t[1..][i] == t[i + 1];
      }
      CloseSkips(t[1..], rest);
    }
  }

  lemma SwapCloses(d: Edits, after: bool)
    requires d != [] && d[0].Swap? && Good(d)
    ensures Part(d[0], after) != "" && ClosesNothing(Part(d[0], after))
  {
  }

  lemma {:induction false} CloseRead(d: Edits, after: bool)
    requires Good(d) && PortsOnly(d)
    ensures CloseLen(Read(d, after)) == Pos(d, CloseEdits(d), after)
    ensures CloseEdits(d) > 0 ==> Pos(d, CloseEdits(d), after) > 0
  {
    hide Inert, IsAttr, AtTagEnd, Pos, HasWord, StartsWith, CloseLen, PortsOnly, ClosesNothing;
    NoPos(d, after);
    if d == [] {
      NoClose();
    } else {
      var s := Read(d, after);
      OpensAreSpared(d);
      WordRead(d, "-->", after);
      PortsOnlyTail(d, 1);
      CloseRead(d[1..], after);
      NoPos(d[1..], after);
      if CloseEdits(d[1..]) > 0 {
        PosStep(d, CloseEdits(d[1..]) + 1, after);
      }
      if d[0].Keep? {
        assert s[1..] == Read(d[1..], after);
        CloseStep(s);
        if HasWord(d, "-->") {
          WordLength(d, "-->", after);
        }
      } else {
        NotInsert(d);
        SwapCloses(d, after);
        CloseSkips(Part(d[0], after), Read(d[1..], after));
        SwapHasNoWord(d, "-->");
      }
    }
  }

  lemma NotInsert(d: Edits)
    requires PortsOnly(d) && d != []
    ensures !d[0].Insert?
  {
    assert d[0] in d;
  }

  lemma SwapHasNoWord(d: Edits, w: string)
    requires d != [] && !d[0].Keep? && w != ""
    ensures !HasWord(d, w)
  {
  }

  lemma NoClose()
    ensures CloseLen("") == 0
  {
  }

  lemma CloseStep(s: string)
    requires s != ""
    ensures CloseLen(s) ==
      if StartsWith(s, "-->") then 3 else if CloseLen(s[1..]) == 0 then 0 else CloseLen(s[1..]) + 1
  {
  }

  lemma CommentRead(d: Edits, after: bool)
    requires Good(d) && PortsOnly(d)
    ensures CommentLen(Read(d, after)) == Pos(d, CommentEdits(d), after)
    ensures CommentEdits(d) > 0 ==> Pos(d, CommentEdits(d), after) > 0
  {
    hide HasWord, Read, Spared, StartsWith, CloseLen, CloseEdits, Pos, PortsOnly, Good;
    OpensAreSpared(d);
    WordRead(d, "<!--", after);
    NoPos(d, after);
    if HasWord(d, "<!--") {
      WordLength(d, "<!--", after);
      ReadAt(d, 4, after);
      GoodTail(d, 4);
      PortsOnlyTail(d, 4);
      CloseRead(d[4..], after);
      NoPos(d[4..], after);
      PosSplit(d, 4, CloseEdits(d[4..]), after);
    }
  }

  // Whether edit number `k` lies in a comment.
  predicate EditInComment(d: Edits, k: nat)
    decreases |d|
  {
    if d == [] then false
    else
      var n := CommentEdits(d);
      if n > 0 then k < n || EditInComment(d[n..], k - n) else k > 0 && EditInComment(d[1..], k - 1)
  }

  lemma PosMonotone(d: Edits, k: nat, n: nat, after: bool)
    requires k <= n <= |d|
    ensures Pos(d, k, after) <= Pos(d, n, after)
  {
    PosSplit(d, k, n - k, after);
  }

  // Positions of edits that are no insertions are different.
  lemma {:induction false} PosGrows(d: Edits, k: nat, n: nat, after: bool)
    requires Good(d) && k < n <= |d| && !d[k].Insert?
    ensures Pos(d, k, after) < Pos(d, n, after)
  {
    hide Inert;
    GoodTail(d, k);
    var rest := d[k..];
    PosSplit(d, k, n - k, after);
    PosStep(rest, n - k, after);
    if rest[0].Swap? {
      SwapCloses(rest, after);
    }
  }

  /** The same edits lie in comments. */
  lemma {:induction false} EditInCommentRead(d: Edits, k: nat, after: bool)
    requires Good(d) && PortsOnly(d) && k <= |d|
    ensures InComment(Read(d, after), Pos(d, k, after)) <==> EditInComment(d, k)
    decreases |d|
  {
    hide Good, Read, Part, Pos, PortsOnly, CommentEdits, CommentLen, InComment;
    NoPos(d, after);
    if d == [] {
      NothingRead(after);
      NoComment(Pos(d, k, after));
    } else {
      var s, n := Read(d, after), CommentEdits(d);
      CommentRead(d, after);
      FirstPos(d, after);
      if n > 0 {
        InCommentStep(s, Pos(d, k, after));
        ReadAt(d, n, after);
        if k < n {
          PortsOnlyTail(d, k);
          NotInsert(d[k..]);
          PosGrows(d, k, n, after);
        } else {
          PosSplit(d, n, k - n, after);
          GoodTail(d, n);
          PortsOnlyTail(d, n);
          EditInCommentRead(d[n..], k - n, after);
        }
      } else if k == 0 {
        InCommentStep(s, 0);
      } else {
        PosStep(d, k, after);
        PortsOnlyTail(d, 1);
        GoodTail(d, 1);
        ReadStep(d, after);
        EditInCommentRead(d[1..], k - 1, after);
        if d[0].Keep? {
          InCommentStep(s, Pos(d, k, after));
        } else {
          PartWithoutLt(d, after);
          InCommentAfter(Part(d[0], after), Read(d[1..], after), Pos(d[1..], k - 1, after));
        }
      }
    }
  }

  lemma ReadStep(d: Edits, after: bool)
    requires d != []
    ensures Read(d, after) == Part(d[0], after) + Read(d[1..], after)
    ensures d[0].Keep? ==> |Part(d[0], after)| == 1 && Read(d, after)[1..] == Read(d[1..], after)
  {
  }

  lemma NoComment(idx: nat)
    ensures !InComment("", idx)
  {
  }

  lemma FirstPos(d: Edits, after: bool)
    requires d != [] && Good(d) && PortsOnly(d)
    ensures Read(d, after) != ""
  {
    NotInsert(d);
  }

  function CommentsIn(d: Edits): nat
    decreases |d|
  {
    if d == [] then 0
    else
      var n := CommentEdits(d);
      if n > 0 then 1 + CommentsIn(d[n..]) else CommentsIn(d[1..])
  }

  /** There are as many comments before as after. */
  lemma {:induction false} CommentCount(d: Edits, after: bool)
    requires Good(d) && PortsOnly(d)
    ensures |Comments(Read(d, after))| == CommentsIn(d)
    decreases |d|
  {
    hide Good, Read, Part, Pos, PortsOnly, CommentEdits, CommentLen, Comments;
    if d == [] {
      NothingRead(after);
      assert Comments("") == [] by { NoComments(); }
    } else {
      var s, n := Read(d, after), CommentEdits(d);
      CommentRead(d, after);
      NoPos(d, after);
      FirstPos(d, after);
      CommentsStep(s);
      if n > 0 {
        ReadAt(d, n, after);
        GoodTail(d, n);
        PortsOnlyTail(d, n);
        CommentCount(d[n..], after);
      } else {
        PortsOnlyTail(d, 1);
        GoodTail(d, 1);
        ReadStep(d, after);
        CommentCount(d[1..], after);
        if !d[0].Keep? {
          PartWithoutLt(d, after);
          CommentsAfter(Part(d[0], after), Read(d[1..], after));
        }
      }
    }
  }

  lemma NoComments()
    ensures Comments("") == []
  {
  }

  // ---------------------------------------------------------------- words anywhere

  predicate HasAnywhere(d: Edits, w: string) {
    HasWord(d, w) || (d != [] && HasAnywhere(d[1..], w))
  }

  lemma {:induction false} AnywhereRead(d: Edits, w: string, after: bool)
    requires Good(d) && PortsOnly(d) && w != "" && Spared(w, d) && w[0] in "pS"
    ensures Contains(Read(d, after), w) <==> HasAnywhere(d, w)
  {
    hide Inert, IsAttr, AtTagEnd, PortsOnly, HasWord, StartsWith, Spared;
    WordRead(d, w, after);
    if d == [] {
    } else {
      PortsOnlyTail(d, 1);
      SparedStays(w, d);
      AnywhereRead(d[1..], w, after);
      var s, rest := Read(d, after), Read(d[1..], after);
      if d[0].Keep? {
        assert s[1..] == rest;
      } else {
        NotInsert(d);
        SwapHasNoWord(d, w);
        SwapInside(d, w[0], after);
        ContainsSkip(Part(d[0], after), rest, w);
      }
    }
  }

  lemma SparedStays(w: string, d: Edits)
    requires Spared(w, d) && d != []
    ensures Spared(w, d[1..])
  {
    assert PortsOnly(d) ==> PortsOnly(d[1..]) by { PortsOnlyTailIf(d); }
  }

  lemma PortsOnlyTailIf(d: Edits)
    requires d != []
    ensures PortsOnly(d) ==> PortsOnly(d[1..])
  {
    if PortsOnly(d) {
      PortsOnlyTail(d, 1);
    }
  }

  lemma SwapInside(d: Edits, c: char, after: bool)
    requires d != [] && d[0].Swap? && Good(d) && c in "pS"
    ensures Part(d[0], after) != "" && c !in Part(d[0], after)[1..]
  {
  }
}
