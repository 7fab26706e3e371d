/**
  The edits that patchServerXML makes, and what they do to the tags it looks for: a document in three
  pieces, before, at and after a tag, has that tag at the same place once the pieces are edited.
*/
module ServerXmlEdits {
  import opened Wrappers
  import opened Text
  import opened Rewriting
  import opened XmlScan
  import opened XmlEdits
  import opened ServerXml

  // ---------------------------------------------------------------- the edits

  function Keeps(s: string): Edits {
    if s == "" then [] else [Keep(s[0])] + Keeps(s[1..])
  }

  // Every port attribute replaced.
  function PortEdits(port: int, s: string): Edits
    decreases |s|
  {
    var n := MatchLen(PortAttr(port), s);
    if n > 0 then [Swap(s[..n], PortText(port))] + PortEdits(port, s[n..])
    else if s == "" then []
    else [Keep(s[0])] + PortEdits(port, s[1..])
  }

  lemma {:induction false} KeepsRead(s: string, after: bool)
    ensures Read(Keeps(s), after) == s && |Keeps(s)| == |s|
  {
    if s == "" {
    } else {
      KeepsRead(s[1..], after);
    }
  }

  lemma {:induction false} KeepsAreGood(s: string)
    ensures Good(Keeps(s)) && PortsOnly(Keeps(s)) && |Keeps(s)| == |s|
    ensures forall i | 0 <= i < |s| :: Keeps(s)[i] == Keep(s[i])
  {
    hide Inert, IsAttr;
    if s == "" {
    } else {
      KeepsAreGood(s[1..]);
    }
  }

  lemma PortTextIsInert(port: int)
    ensures Inert(PortText(port))
  {
    hide ClosesNothing;
    var digits, t := Decimal(port), PortText(port);
    assert t == "port=\"" + digits + "\"";
    PortTextIsPlain(port);
    assert forall c <- digits :: c == '-' || IsDigit(c);
    PortTextClosesNothing(port);
  }

  lemma PortTextClosesNothing(port: int)
    ensures ClosesNothing(PortText(port))
  {
    var digits, t := Decimal(port), PortText(port);
    assert t == "port=\"" + digits + "\"";
    assert forall c <- digits :: c == '-' || IsDigit(c);
    DashOnlyFirst(port);
    assert forall i | 0 <= i < |digits| :: t[6 + i] == digits[i];
    forall i, k | 0 <= i < |t| && 0 <= k < |t| && k == i + 1 ensures t[i] != '-' || t[k] != '-' {
      if 6 < k < 6 + |digits| {
        assert t[k] == digits[k - 6];
      }
    }
  }

  lemma DashOnlyFirst(port: int)
    ensures forall i | 1 <= i < |Decimal(port)| :: IsDigit(Decimal(port)[i])
  {
    if port < 0 {
      assert Decimal(port)[1..] == Itoa(-port);
      assert forall i | 1 <= i < |Decimal(port)| :: Decimal(port)[i] == Itoa(-port)[i - 1];
    }
  }

  lemma MatchIsInert(port: int, s: string)
    requires MatchLen(PortAttr(port), s) > 0
    ensures Inert(s[..MatchLen(PortAttr(port), s)])
  {
    var n := MatchLen(PortAttr(port), s);
    MatchIsPlain(PortAttr(port), s);
    BodyHasNoHead(PortAttr(port), s);
    PrefixChars(s, "port=\"");
    assert s[..n][1..] == s[1..n];
    assert forall c <- s[..n] :: !Breaks(c);
  }

  lemma OneMore(e: Edit, d: Edits)
    requires Good(d) && PortsOnly(d) && !e.Insert? && (e.Swap? ==> Inert(e.was) && Inert(e.now))
    ensures Good([e] + d) && PortsOnly([e] + d)
    ensures Read([e] + d, false) == Part(e, false) + Read(d, false)
    ensures Read([e] + d, true) == Part(e, true) + Read(d, true)
  {
    hide Inert;
    assert ([e] + d)[1..] == d;
  }

  lemma {:induction false} PortEditsRead(port: int, s: string)
    ensures var d := PortEdits(port, s);
      && Read(d, false) == s && Read(d, true) == Rewrite(PortAttr(port), s)
      && Good(d) && PortsOnly(d) && (s != "" ==> d != [])
    ensures s != "" && s[0] == '<' ==> PortEdits(port, s)[0] == Keep('<')
    decreases |s|
  {
    hide Inert, MatchLen, Replacement, Read, Good, PortsOnly;
    var rule := PortAttr(port);
    var n := MatchLen(rule, s);
    if n > 0 {
      BeginWithHead(rule, s);
      MatchIsInert(port, s);
      PortTextIsInert(port);
      PortReplacement(port, s[..n]);
      PortEditsRead(port, s[n..]);
      OneMore(Swap(s[..n], PortText(port)), PortEdits(port, s[n..]));
    } else if s == "" {
      NothingRead(false);
      NothingRead(true);
      NoneIsGood();
    } else {
      PortEditsRead(port, s[1..]);
      OneMore(Keep(s[0]), PortEdits(port, s[1..]));
    }
  }

  lemma NoneIsGood()
    ensures Good([]) && PortsOnly([])
  {
  }

  // The last edit is no insertion.
  predicate Ended(d: Edits) {
    d == [] || !d[|d| - 1].Insert?
  }

  lemma {:induction false} GoodConcat(d: Edits, more: Edits)
    requires Good(d) && Ended(d) && Good(more)
    ensures Good(d + more) && (Ended(more) ==> Ended(d + more))
    ensures PortsOnly(d) && PortsOnly(more) ==> PortsOnly(d + more)
  {
    hide Inert, IsAttr, PortsOnly;
    if d == [] {
      assert d + more == more;
    } else {
      assert (d + more)[1..] == d[1..] + more;
      assert Ended(d[1..]);
      GoodConcat(d[1..], more);
      PortsOnlyConcat(d, more);
    }
  }

  lemma PortsOnlyConcat(d: Edits, more: Edits)
    ensures PortsOnly(d) && PortsOnly(more) ==> PortsOnly(d + more)
  {
  }

  // ---------------------------------------------------------------- the selected connector

  predicate EditsQualify(d: Edits) {
    HasAnywhere(d, HTTP_PROTOCOL) && !HasAnywhere(d, SSL_ENABLED)
  }

  lemma QualifyRead(d: Edits, after: bool)
    requires Good(d) && PortsOnly(d)
    ensures Qualifies(Read(d, after)) <==> EditsQualify(d)
  {
    hide Contains, HasAnywhere, Good;
    assert HTTP_PROTOCOL[0] == 'p' && HTTP_PROTOCOL[1] == 'r' && 'p' !in HTTP_PROTOCOL[1..];
    assert 'p' !in SSL_ENABLED;
    AnywhereRead(d, HTTP_PROTOCOL, after);
    AnywhereRead(d, SSL_ENABLED, after);
  }

  function SelectEdit(d: Edits, k: nat): (r: Option<nat>)
    ensures r.Some? ==> k <= r.value < |d| && TagEdits(CONNECTOR, d[r.value..]) > 0
    decreases |d| - k
  {
    if k >= |d| then None
    else
      var n := TagEdits(CONNECTOR, d[k..]);
      if n == 0 then SelectEdit(d, k + 1)
      else if EditInComment(d, k) || !EditsQualify(d[k..k + n]) then SelectEdit(d, k + n)
      else Some(k)
  }

  // A slice of the edits, read.
  lemma SliceRead(d: Edits, k: nat, n: nat, after: bool)
    requires k + n <= |d| && Good(d) && PortsOnly(d)
    ensures Pos(d, k, after) <= Pos(d, k + n, after) <= |Read(d, after)|
    ensures Read(d, after)[Pos(d, k, after)..Pos(d, k + n, after)] == Read(d[k..k + n], after)
    ensures Good(d[k..k + n]) && PortsOnly(d[k..k + n])
  {
    hide Read, Good;
    PosMonotone(d, k, k + n, after);
    ReadAt(d, k + n, after);
    var front := d[..k + n];
    ReadAt(front, k, after);
    assert front[..k] == d[..k] && front[k..] == d[k..k + n];
    GoodTail(d, k);
    GoodFront(d[k..], n);
    assert d[k..][..n] == d[k..k + n];
    assert forall e <- d[k..k + n] :: e in d;
  }

  lemma {:induction false} GoodFront(d: Edits, n: nat)
    requires Good(d) && n <= |d| && PortsOnly(d)
    ensures Good(d[..n])
  {
    hide Inert, IsAttr;
    if n == 0 {
    } else {
      assert d[..n][1..] == d[1..][..n - 1];
      NotInsert(d);
      PortsOnlyTail(d, 1);
      GoodFront(d[1..], n - 1);
    }
  }

  /** The search for the connector stops at the same edit, before and after. */
  lemma {:induction false} SelectRead(d: Edits, k: nat, after: bool)
    requires Good(d) && PortsOnly(d) && k <= |d|
    ensures var r := SelectEdit(d, k);
      Select(Read(d, after), Pos(d, k, after)) == if r.None? then None else Some(Pos(d, r.value, after))
    decreases |d| - k
  {
    hide Good, PortsOnly, Read, Pos, TagEdits, TagLen, InComment, EditInComment, Qualifies, EditsQualify;
    var s, i := Read(d, after), Pos(d, k, after);
    ReadAt(d, k, after);
    if k == |d| {
      assert d[k..] == [];
      NothingRead(after);
    } else {
      GoodTail(d, k);
      TagRead(CONNECTOR, d[k..], after);
      var n := TagEdits(CONNECTOR, d[k..]);
      PosGrowsHere(d, k, after);
      if n == 0 {
        NoPos(d[k..], after);
        SelectRead(d, k + 1, after);
        SkipEdit(d, k, after);
      } else {
        PosSplit(d, k, n, after);
        SelectRead(d, k + n, after);
        SliceRead(d, k, n, after);
        QualifyRead(d[k..k + n], after);
        EditInCommentRead(d, k, after);
      }
    }
  }

  lemma PosGrowsHere(d: Edits, k: nat, after: bool)
    requires Good(d) && PortsOnly(d) && k < |d|
    ensures Pos(d, k, after) < Pos(d, k + 1, after) <= |Read(d, after)|
  {
    PortsOnlyTail(d, k);
    NotInsert(d[k..]);
    PosGrows(d, k, k + 1, after);
    ReadAt(d, k + 1, after);
  }

  // No tag begins in an edit at which none begins.
  lemma SkipEdit(d: Edits, k: nat, after: bool)
    requires Good(d) && PortsOnly(d) && k < |d| && TagEdits(CONNECTOR, d[k..]) == 0
    ensures Select(Read(d, after), Pos(d, k, after)) == Select(Read(d, after), Pos(d, k + 1, after))
  {
    hide Good, PortsOnly, Read, Pos, TagEdits, TagLen, Select;
    var s, i, j := Read(d, after), Pos(d, k, after), Pos(d, k + 1, after);
    var rest := d[k..];
    PosGrowsHere(d, k, after);
    ReadAt(d, k, after);
    GoodTail(d, k);
    PortsOnlyTail(d, k);
    TagRead(CONNECTOR, rest, after);
    NoPos(rest, after);
    ReadStep(rest, after);
    PosSplit(d, k, 1, after);
    PosStep(rest, 1, after);
    NoPos(rest[1..], after);
    forall m | i <= m < j ensures TagLen(CONNECTOR, s[m..]) == 0 {
      if m > i {
        InsideSwap(rest, m - i, after);
        assert s[m..] == Read(rest, after)[m - i..];
        NoTagWithoutLt(CONNECTOR, s[m..]);
      }
    }
    SelectSkips(s, i, j);
  }

  lemma InsideSwap(d: Edits, m: nat, after: bool)
    requires d != [] && Good(d) && PortsOnly(d) && 0 < m < |Part(d[0], after)|
    ensures m < |Read(d, after)| && Read(d, after)[m..][0] != '<'
  {
    NotInsert(d);
    var t := Part(d[0], after);
    assert Read(d, after)[m] == t[m];
    assert t[m] in t;
  }

  // ---------------------------------------------------------------- a document in three pieces

  function Whole(a: Edits, t: Edits, b: Edits): Edits {
    a + t + b
  }

  lemma WholeRead(a: Edits, t: Edits, b: Edits, after: bool)
    ensures var d := Whole(a, t, b);
      && Read(d, after) == Read(a, after) + Read(t, after) + Read(b, after)
      && Pos(d, |a|, after) == |Read(a, after)|
      && d[|a|..] == t + b && Read(d[|a|..], after) == Read(t, after) + Read(b, after)
      && Pos(d[|a|..], |t|, after) == |Read(t, after)|
  {
    hide Read;
    ReadConcat(a, t, after);
    ReadConcat(a + t, b, after);
    ReadConcat(t, b, after);
    var d := Whole(a, t, b);
    assert d[..|a|] == a && d[|a|..] == t + b && (t + b)[..|t|] == t;
  }

  // The piece in the middle is the tag that begins there.
  predicate IsPiece(open: string, t: string, b: string) {
    TagLen(open, t + b) == |t| > 0
  }

  lemma SamePos(d: Edits, k: nat, j: nat, after: bool)
    requires Good(d) && k <= |d| && j <= |d| && Pos(d, k, after) == Pos(d, j, after)
    requires k < |d| ==> !d[k].Insert?
    requires j < |d| ==> !d[j].Insert?
    ensures k == j
  {
    hide Good, Pos;
    if k < j {
      PosGrows(d, k, j, after);
    } else if j < k {
      PosGrows(d, j, k, after);
    }
  }

  // The first edit is no insertion.
  predicate Begins(d: Edits) {
    d == [] || !d[0].Insert?
  }

  lemma PairRead(t: Edits, b: Edits, after: bool)
    ensures Read(t + b, after) == Read(t, after) + Read(b, after)
    ensures Pos(t + b, |t|, after) == |Read(t, after)|
  {
    hide Read;
    ReadConcat(t, b, after);
    assert (t + b)[..|t|] == t;
  }

  lemma WholeLength(a: Edits, t: Edits, b: Edits)
    ensures |Whole(a, t, b)| == |a| + |t| + |b|
  {
  }

  lemma PairGood(a: Edits, t: Edits, b: Edits)
    requires Good(Whole(a, t, b))
    ensures Good(t + b)
  {
    hide Good, Read, Whole, Pos;
    WholeRead(a, t, b, false);
    assert |a| <= |Whole(a, t, b)| by { WholeLength(a, t, b); }
    GoodTail(Whole(a, t, b), |a|);
  }

  // Two places with the same text before them, neither of them behind an insertion alone.
  lemma SameEnd(t: Edits, b: Edits, n: nat)
    requires Good(t + b) && t != [] && t[|t| - 1].Keep? && Begins(b)
    requires n <= |t + b| && Pos(t + b, n, false) == Pos(t + b, |t|, false)
    ensures n == |t|
  {
    hide Good, Pos;
    if n < |t| {
      PosGrowsTo(t + b, n, |t|);
    } else if n > |t| {
      assert (t + b)[|t|] == b[0];
      PosGrows(t + b, |t|, n, false);
    }
  }

  // The tag in the middle ends where it did.
  lemma PieceRead(open: string, a: Edits, t: Edits, b: Edits)
    requires TagName(open) && Good(Whole(a, t, b)) && t != [] && t[|t| - 1] == Keep('>') && Begins(b)
    requires IsPiece(open, Read(t, false), Read(b, false))
    ensures TagEdits(open, t + b) == |t|
    ensures IsPiece(open, Read(t, true), Read(b, true))
  {
    hide Read, Good, TagLen, Pos, TagEdits, Whole;
    PairGood(a, t, b);
    PairRead(t, b, false);
    PairRead(t, b, true);
    TagRead(open, t + b, false);
    TagRead(open, t + b, true);
    SameEnd(t, b, TagEdits(open, t + b));
  }

  // The last of these edits is no insertion.
  lemma PosGrowsTo(d: Edits, n: nat, k: nat)
    requires Good(d) && n < k <= |d| && d[k - 1].Keep?
    ensures Pos(d, n, false) < Pos(d, k, false)
  {
    hide Good, Pos;
    PosGrows(d, k - 1, k, false);
    PosMonotone(d, n, k - 1, false);
  }

  /** The selected connector is selected again, in its new place. */
  lemma SelectedPiece(a: Edits, t: Edits, b: Edits)
    requires Good(Whole(a, t, b)) && PortsOnly(Whole(a, t, b)) && t != [] && t[|t| - 1] == Keep('>')
    requires IsPiece(CONNECTOR, Read(t, false), Read(b, false))
    requires Select(Read(a, false) + Read(t, false) + Read(b, false), 0) == Some(|Read(a, false)|)
    ensures IsPiece(CONNECTOR, Read(t, true), Read(b, true))
    ensures Select(Read(a, true) + Read(t, true) + Read(b, true), 0) == Some(|Read(a, true)|)
  {
    hide Read, Good, Select, SelectEdit, Pos, IsPiece, PortsOnly;
    var d := Whole(a, t, b);
    WholeRead(a, t, b, false);
    WholeRead(a, t, b, true);
    PortsOnlyPart(a, t, b);
    PieceRead(CONNECTOR, a, t, b);
    SelectRead(d, 0, false);
    SelectRead(d, 0, true);
    NoPos(d, false);
    NoPos(d, true);
    var j := SelectEdit(d, 0).value;
    NotInsertAt(d, j);
    NotInsertAt(d, |a|);
    SamePos(d, j, |a|, false);
  }

  lemma NotInsertAt(d: Edits, k: nat)
    requires PortsOnly(d) && k < |d|
    ensures !d[k].Insert?
  {
    assert d[k] in d;
  }

  lemma PortsOnlyPart(a: Edits, t: Edits, b: Edits)
    requires PortsOnly(Whole(a, t, b))
    ensures Begins(b)
  {
    assert forall e <- b :: e in Whole(a, t, b);
  }

  lemma NoneSelected(d: Edits)
    requires Good(d) && PortsOnly(d)
    ensures Select(Read(d, false), 0).Some? <==> Select(Read(d, true), 0).Some?
  {
    hide Read, Good, Select, SelectEdit, Pos, PortsOnly;
    SelectRead(d, 0, false);
    SelectRead(d, 0, true);
    NoPos(d, false);
    NoPos(d, true);
  }

  /** The first tag is the first tag again, in its new place; attributes may have been inserted, too. */
  lemma FoundPiece(open: string, a: Edits, t: Edits, b: Edits)
    requires TagName(open) && Good(Whole(a, t, b)) && Begins(b)
    requires t != [] && t[0] == Keep('<') && t[|t| - 1] == Keep('>')
    requires IsPiece(open, Read(t, false), Read(b, false))
    requires FindTag(open, Read(a, false) + Read(t, false) + Read(b, false)) == |Read(a, false)|
    ensures IsPiece(open, Read(t, true), Read(b, true))
    ensures FindTag(open, Read(a, true) + Read(t, true) + Read(b, true)) == |Read(a, true)|
  {
    hide Read, Good, FindTag, FindEdit, Pos, IsPiece;
    var d := Whole(a, t, b);
    WholeRead(a, t, b, false);
    WholeRead(a, t, b, true);
    PieceRead(open, a, t, b);
    FindRead(open, d, false);
    FindRead(open, d, true);
    var j := FindEdit(open, d);
    FoundIsKeep(open, d);
    SamePos(d, j, |a|, false);
  }

  lemma {:induction false} FoundIsKeep(open: string, d: Edits)
    requires TagName(open)
    ensures var j := FindEdit(open, d); j < |d| ==> d[j].Keep?
  {
    if d == [] {
    } else {
      FoundIsKeep(open, d[1..]);
    }
  }

  // ---------------------------------------------------------------- pieces of text as edits

  // Edits that make one text of another.
  ghost predicate Changes(d: Edits, from: string, to: string) {
    Good(d) && Ended(d) && Read(d, false) == from && Read(d, true) == to
  }

  // The same, and nothing but ports changes.
  ghost predicate Turns(d: Edits, from: string, to: string) {
    Changes(d, from, to) && PortsOnly(d)
  }

  lemma TurnsBegin(d: Edits, from: string, to: string)
    requires Turns(d, from, to)
    ensures Begins(d)
  {
    assert d != [] ==> d[0] in d;
  }

  lemma KeepsTurn(s: string)
    ensures Turns(Keeps(s), s, s)
    ensures s != "" ==> Keeps(s) != [] && Keeps(s)[0] == Keep(s[0]) && Keeps(s)[|Keeps(s)| - 1] == Keep(s[|s| - 1])
  {
    KeepsRead(s, false);
    KeepsRead(s, true);
    KeepsAreGood(s);
  }

  lemma PortsTurn(port: int, s: string)
    ensures Turns(PortEdits(port, s), s, Rewrite(PortAttr(port), s))
    ensures s != "" && s[0] == '<' ==> PortEdits(port, s) != [] && PortEdits(port, s)[0] == Keep('<')
    ensures s != "" && s[|s| - 1] == '>' ==>
      PortEdits(port, s) != [] && PortEdits(port, s)[|PortEdits(port, s)| - 1] == Keep('>')
  {
    PortEditsRead(port, s);
    if s != "" && s[|s| - 1] == '>' {
      PortEditsLast(port, s);
    }
  }

  lemma {:induction false} PortEditsLast(port: int, s: string)
    requires s != "" && s[|s| - 1] == '>'
    ensures PortEdits(port, s) != [] && PortEdits(port, s)[|PortEdits(port, s)| - 1] == Keep('>')
    decreases |s|
  {
    hide MatchLen;
    var n := MatchLen(PortAttr(port), s);
    var step := if n > 0 then n else 1;
    if n > 0 {
      MatchIsPlain(PortAttr(port), s);
    }
    if |s| <= step {
    } else {
      assert s[step..][|s[step..]| - 1] == s[|s| - 1];
      PortEditsLast(port, s[step..]);
    }
  }

  lemma ChangesConcat(d: Edits, more: Edits, from: string, to: string, from': string, to': string)
    requires Changes(d, from, to) && Changes(more, from', to')
    ensures Changes(d + more, from + from', to + to')
  {
    hide Read, Good, PortsOnly;
    GoodConcat(d, more);
    ReadConcat(d, more, false);
    ReadConcat(d, more, true);
  }

  lemma TurnsConcat(d: Edits, more: Edits, from: string, to: string, from': string, to': string)
    requires Turns(d, from, to) && Turns(more, from', to')
    ensures Turns(d + more, from + from', to + to')
  {
    hide Changes, PortsOnly;
    ChangesConcat(d, more, from, to, from', to');
    PortsOnlyConcat(d, more);
  }

  lemma TurnsWhole(a: Edits, t: Edits, b: Edits, a0: string, a1: string, t0: string, t1: string, b0: string, b1: string)
    requires Turns(a, a0, a1) && Turns(t, t0, t1) && Turns(b, b0, b1)
    ensures Turns(Whole(a, t, b), a0 + t0 + b0, a1 + t1 + b1)
  {
    hide Turns;
    TurnsConcat(a, t, a0, a1, t0, t1);
    TurnsConcat(a + t, b, a0 + t0, a1 + t1, b0, b1);
  }

  // The two searches, on texts that such edits make of each other.
  lemma ConnectorTurns(a: Edits, t: Edits, b: Edits, a0: string, a1: string, t0: string, t1: string, b0: string, b1: string)
    requires Turns(a, a0, a1) && Turns(t, t0, t1) && Turns(b, b0, b1)
    requires t != [] && t[|t| - 1] == Keep('>') && IsTag(CONNECTOR, t0)
    requires Select(a0 + t0 + b0, 0) == Some(|a0|)
    ensures Select(a1 + t1 + b1, 0) == Some(|a1|)
  {
    hide Read, Select, Good, PortsOnly, IsTag, TagLen;
    TurnsWhole(a, t, b, a0, a1, t0, t1, b0, b1);
    TagMatches(CONNECTOR, t0, b0);
    TagNotEmpty(CONNECTOR, t0);
    SelectedPiece(a, t, b);
  }

  lemma ServerTurns(a: Edits, t: Edits, b: Edits, a0: string, a1: string, t0: string, t1: string, b0: string, b1: string)
    requires Changes(a, a0, a1) && Changes(t, t0, t1) && Changes(b, b0, b1) && Begins(b)
    requires t != [] && t[0] == Keep('<') && t[|t| - 1] == Keep('>') && IsTag(SERVER, t0)
    requires FindTag(SERVER, a0 + t0 + b0) == |a0|
    ensures FindTag(SERVER, a1 + t1 + b1) == |a1|
  {
    hide Read, FindTag, Good, Ended, IsTag, TagLen;
    ChangesConcat(a, t, a0, a1, t0, t1);
    ChangesConcat(a + t, b, a0 + t0, a1 + t1, b0, b1);
    TagMatches(SERVER, t0, b0);
    TagNotEmpty(SERVER, t0);
    FoundPiece(SERVER, a, t, b);
  }
}
