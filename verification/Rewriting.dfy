/**
  The launcher's regular-expression and literal replacements as one explicit
  left-to-right scanner: at each position it either replaces a match and goes on
  after it, or copies one character.
*/
module Rewriting {
  import opened Text

  datatype Rule =
    | PortAttr(port: int)  // port="\d+" becomes port="<port>"
    | JdbcEncoding         // a <jdbc:script\b[^>]*> tag without encoding= gets one
    | EurekaPort           // :8761/eureka becomes :8762/eureka

  const EUREKA_OLD := ":8761/eureka"
  const EUREKA_NEW := ":8762/eureka"
  const JDBC_TAG := "<jdbc:script"
  const JDBC_ENCODING := " encoding=\"UTF-8\""

  // fmt's %d
  function Decimal(n: int): string {
    if n < 0 then "-" + Itoa(-n) else Itoa(n)
  }

  function PortText(port: int): string {
    "port=\"" + Decimal(port) + "\""
  }

  function DigitRun(s: string): (n: nat)
    ensures n <= |s| && AllDigits(s[..n]) && (n < |s| ==> !IsDigit(s[n]))
  {
    if s == "" || !IsDigit(s[0]) then 0 else 1 + DigitRun(s[1..])
  }

  predicate IsWordChar(c: char) {
    IsDigit(c) || 'a' <= c <= 'z' || 'A' <= c <= 'Z' || c == '_'
  }

  // The length of a match of `open\b[^>]*>` at the start of `s`; `open` ends with a word character.
  function TagLen(open: string, s: string): (n: nat)
    ensures n <= |s| && (n > 0 ==> n > |open|)
  {
    if !StartsWith(s, open) || |s| == |open| || IsWordChar(s[|open|]) then 0
    else
      var i := IndexOf(s[|open|..], '>');
      if i == |s| - |open| then 0 else |open| + i + 1
  }

  // The length of a match of the rule at the start of `s`, or 0.
  function MatchLen(rule: Rule, s: string): (n: nat)
    ensures n <= |s|
  {
    match rule
    case PortAttr(_) =>
      if !StartsWith(s, "port=\"") then 0
      else
        var n := DigitRun(s[6..]);
        if n > 0 && 6 + n < |s| && s[6 + n] == '"' then 7 + n else 0
    case JdbcEncoding => TagLen(JDBC_TAG, s)
    case EurekaPort => if StartsWith(s, EUREKA_OLD) then |EUREKA_OLD| else 0
  }

  function Replacement(rule: Rule, m: string): string {
    match rule
    case PortAttr(port) => PortText(port)
    case JdbcEncoding =>
      if Contains(m, "encoding=") || |m| < |JDBC_TAG| then m
      else JDBC_TAG + JDBC_ENCODING + m[|JDBC_TAG|..]
    case EurekaPort => EUREKA_NEW
  }

  function Rewrite(rule: Rule, s: string): string
    decreases |s|
  {
    var n := MatchLen(rule, s);
    if n > 0 then Replacement(rule, s[..n]) + Rewrite(rule, s[n..])
    else if s == "" then ""
    else [s[0]] + Rewrite(rule, s[1..])
  }

  // The matches the scanner stops at, in order.
  function Matches(rule: Rule, s: string): seq<string>
    decreases |s|
  {
    var n := MatchLen(rule, s);
    if n > 0 then [s[..n]] + Matches(rule, s[n..])
    else if s == "" then []
    else Matches(rule, s[1..])
  }

  // The scanner's first step on text that is not empty.
  lemma OneScanStep(rule: Rule, s: string)
    requires s != ""
    ensures var n := MatchLen(rule, s);
      if n > 0 then
        Rewrite(rule, s) == Replacement(rule, s[..n]) + Rewrite(rule, s[n..])
        && Matches(rule, s) == [s[..n]] + Matches(rule, s[n..])
      else
        Rewrite(rule, s) == [s[0]] + Rewrite(rule, s[1..]) && Matches(rule, s) == Matches(rule, s[1..])
  {
  }

  // ---------------------------------------------------------------- heads

  // Matches and replacements of a rule begin with this character, and no match has it elsewhere
  // (but a tag may).
  function Head(rule: Rule): char {
    match rule
    case PortAttr(_) => 'p'
    case JdbcEncoding => '<'
    case EurekaPort => ':'
  }

  lemma BeginWithHead(rule: Rule, s: string)
    requires MatchLen(rule, s) > 0
    ensures s[0] == Head(rule)
    ensures var r := Replacement(rule, s[..MatchLen(rule, s)]); r != "" && r[0] == Head(rule)
  {
    match rule
    case PortAttr(_) => assert s[0] == s[..6][0];
    case JdbcEncoding => assert s[0] == s[..|JDBC_TAG|][0];
    case EurekaPort => assert s[0] == s[..|EUREKA_OLD|][0];
  }

  lemma FirstCharStays(rule: Rule, s: string)
    ensures Rewrite(rule, s) == "" <==> s == ""
    ensures s != "" ==> Rewrite(rule, s)[0] == s[0]
  {
    if MatchLen(rule, s) > 0 {
      BeginWithHead(rule, s);
    }
  }

  /** Text without the head character is copied, and is in front of the result only if it was in front. */
  lemma {:induction false} PlainPrefix(rule: Rule, s: string, w: string)
    requires Head(rule) !in w
    ensures StartsWith(Rewrite(rule, s), w) <==> StartsWith(s, w)
    ensures StartsWith(s, w) ==> Rewrite(rule, s) == w + Rewrite(rule, s[|w|..])
    decreases |w|
  {
    hide MatchLen, Replacement, Rewrite, StartsWith;
    if w == "" {
      EmptyPrefix(s);
      EmptyPrefix(Rewrite(rule, s));
      assert s[0..] == s;
    } else {
      FirstCharStays(rule, s);
      var r := Rewrite(rule, s);
      SplitPrefix(s, w);
      SplitPrefix(r, w);
      if s != "" && s[0] == w[0] {
        if MatchLen(rule, s) > 0 { BeginWithHead(rule, s); }
        OneScanStep(rule, s);
        assert r[1..] == Rewrite(rule, s[1..]);
        PlainPrefix(rule, s[1..], w[1..]);
        if StartsWith(s, w) {
          PrefixFits(s, w);
          assert s[1..][|w| - 1..] == s[|w|..];
          assert w == [s[0]] + w[1..];
        }
      }
    }
  }

  lemma EmptyPrefix(s: string)
    ensures StartsWith(s, "")
  {
  }

  lemma PrefixFits(s: string, w: string)
    requires StartsWith(s, w)
    ensures |w| <= |s|
  {
  }

  lemma SplitPrefix(s: string, w: string)
    requires w != ""
    ensures StartsWith(s, w) <==> s != "" && s[0] == w[0] && StartsWith(s[1..], w[1..])
  {
    if s != "" && s[0] == w[0] && StartsWith(s[1..], w[1..]) {
      assert s[..|w|] == [s[0]] + s[1..][..|w| - 1];
      assert w == [w[0]] + w[1..];
    }
    if StartsWith(s, w) {
      assert s[0] == s[..|w|][0];
      assert s[1..][..|w| - 1] == s[..|w|][1..];
    }
  }

  // ---------------------------------------------------------------- copied text

  // The characters of a match of a port attribute or of the Eureka address, after its head.
  lemma BodyHasNoHead(rule: Rule, s: string)
    requires !rule.JdbcEncoding? && MatchLen(rule, s) > 0
    ensures Head(rule) !in s[1..MatchLen(rule, s)]
  {
    if rule.PortAttr? {
      var n := DigitRun(s[6..]);
      assert s[1..7 + n] == s[..6][1..] + s[6..][..n] + [s[6 + n]];
      assert s[..6][1..] == "ort=\"";
      assert AllDigits(s[6..][..n]);
    } else {
      assert s[1..|EUREKA_OLD|] == s[..|EUREKA_OLD|][1..] == "8761/eureka";
    }
  }

  // Whether the rule matches at the start is decided by the matched text alone.
  lemma MatchIsLocal(rule: Rule, s: string, t: string)
    requires !rule.JdbcEncoding? && MatchLen(rule, s) > 0 && StartsWith(t, s[..MatchLen(rule, s)])
    ensures MatchLen(rule, t) == MatchLen(rule, s)
  {
    var n := MatchLen(rule, s);
    assert forall i | 0 <= i < n :: t[i] == t[..n][i] && s[i] == s[..n][i] && t[i] == s[i];
    if rule.PortAttr? {
      var d := DigitRun(s[6..]);
      assert t[..6] == s[..6];
      assert forall i | 0 <= i < d + 1 :: t[6..][i] == s[6..][i];
      DigitRunIs(s[6..], d);
      DigitRunIs(t[6..], d);
    } else {
      assert t[..n] == s[..n];
    }
  }

  lemma {:induction false} DigitRunIs(s: string, n: nat)
    requires n < |s| && AllDigits(s[..n]) && !IsDigit(s[n])
    ensures DigitRun(s) == n
  {
    if n == 0 {
    } else {
      assert IsDigit(s[..n][0]);
      assert s[1..][..n - 1] == s[..n][1..];
      DigitRunIs(s[1..], n - 1);
    }
  }

  lemma {:induction false} TagEndStays(s: string)
    ensures '>' in Rewrite(JdbcEncoding, s) <==> '>' in s
    decreases |s|
  {
    var n := MatchLen(JdbcEncoding, s);
    if n > 0 {
      var m := s[..n];
      assert s == m + s[n..];
      TagEndStays(s[n..]);
      assert m[n - 1] == '>';
      assert Replacement(JdbcEncoding, m)[|Replacement(JdbcEncoding, m)| - 1] == '>';
    } else if s == "" {
    } else {
      assert s == [s[0]] + s[1..];
      TagEndStays(s[1..]);
    }
  }

  lemma TagLenIff(open: string, s: string)
    ensures TagLen(open, s) > 0 <==>
      StartsWith(s, open) && |s| > |open| && !IsWordChar(s[|open|]) && '>' in s[|open|..]
  {
    if |s| >= |open| {
      assert s[|open|..][..|s| - |open|] == s[|open|..];
    }
  }

  /** A character that the scanner copies does not become the start of a match once the rest is rewritten. */
  lemma CopyStays(rule: Rule, s: string)
    requires s != "" && MatchLen(rule, s) == 0
    ensures MatchLen(rule, [s[0]] + Rewrite(rule, s[1..])) == 0
  {
    if rule.JdbcEncoding? {
      JdbcCopyStays(s);
    } else {
      PlainCopyStays(rule, s);
    }
  }

  lemma PlainCopyStays(rule: Rule, s: string)
    requires !rule.JdbcEncoding? && s != "" && MatchLen(rule, s) == 0
    ensures MatchLen(rule, [s[0]] + Rewrite(rule, s[1..])) == 0
  {
    hide MatchLen, Replacement, Rewrite;
    var t := Rewrite(rule, s[1..]);
    var r := [s[0]] + t;
    var n := MatchLen(rule, r);
    if n > 0 {
      BodyHasNoHead(rule, r);
      var w := r[1..n];
      assert w == t[..n - 1];
      PlainPrefix(rule, s[1..], w);
      assert StartsWith(s, r[..n]) by { SplitPrefix(s, r[..n]); }
      MatchIsLocal(rule, r, s);
    }
  }

  lemma JdbcCopyStays(s: string)
    requires s != "" && TagLen(JDBC_TAG, s) == 0
    ensures TagLen(JDBC_TAG, [s[0]] + Rewrite(JdbcEncoding, s[1..])) == 0
  {
    hide Rewrite;
    var t := Rewrite(JdbcEncoding, s[1..]);
    var r := [s[0]] + t;
    var w := JDBC_TAG[1..];
    if TagLen(JDBC_TAG, r) > 0 {
      TagLenIff(JDBC_TAG, r);
      TagLenIff(JDBC_TAG, s);
      SplitPrefix(r, JDBC_TAG);
      SplitPrefix(s, JDBC_TAG);
      assert r[1..] == t;
      PlainPrefix(JdbcEncoding, s[1..], w);
      var after := s[1..][|w|..];
      assert t == w + Rewrite(JdbcEncoding, after);
      assert r[|JDBC_TAG|..] == Rewrite(JdbcEncoding, after);
      assert s[|JDBC_TAG|..] == after;
      FirstCharStays(JdbcEncoding, after);
      TagEndStays(after);
    }
  }

  // ---------------------------------------------------------------- a second pass

  // The rule recognises its own replacements, and replaces them by themselves.
  predicate KeepsMatching(rule: Rule) {
    match rule
    case PortAttr(port) => port >= 0
    case JdbcEncoding => true
    case EurekaPort => false
  }

  lemma TagLenAt(open: string, body: string, rest: string)
    requires body != "" && !IsWordChar(body[0])
    requires body[|body| - 1] == '>' && '>' !in body[..|body| - 1]
    ensures TagLen(open, open + body + rest) == |open| + |body|
  {
    var s := open + body + rest;
    assert s[|open|..] == body[..|body| - 1] + ['>'] + rest;
    IndexOfSkips(body[..|body| - 1], '>', rest);
    assert s[..|open|] == open;
  }

  lemma PortTextMatches(rule: Rule, rest: string)
    requires rule.PortAttr?
    ensures MatchLen(rule, PortText(rule.port) + rest) == if rule.port >= 0 then |PortText(rule.port)| else 0
  {
    var s := PortText(rule.port) + rest;
    var digits := Decimal(rule.port);
    assert s == "port=\"" + digits + "\"" + rest;
    assert s[..6] == "port=\"";
    assert s[6..] == digits + ("\"" + rest);
    if rule.port >= 0 {
      assert (digits + ("\"" + rest))[..|digits|] == digits;
      DigitRunIs(s[6..], |digits|);
    }
  }

  lemma TagShape(open: string, s: string)
    requires TagLen(open, s) > 0
    ensures var n := TagLen(open, s); var body := s[|open|..n];
      && s[..n] == open + body
      && body != "" && !IsWordChar(body[0])
      && body[|body| - 1] == '>' && '>' !in body[..|body| - 1]
  {
    var n := TagLen(open, s);
    var tail := s[|open|..];
    var i := IndexOf(tail, '>');
    assert s[..n] == s[..|open|] + s[|open|..n];
    assert s[|open|..n][..i] == tail[..i];
  }

  lemma JdbcTagAgain(s: string, rest: string)
    requires TagLen(JDBC_TAG, s) > 0
    ensures var r := Replacement(JdbcEncoding, s[..TagLen(JDBC_TAG, s)]);
      TagLen(JDBC_TAG, r + rest) == |r| && Contains(r, "encoding=")
  {
    hide Contains, TagLen;
    var n := TagLen(JDBC_TAG, s);
    var m := s[..n];
    var body := s[|JDBC_TAG|..n];
    TagShape(JDBC_TAG, s);
    if Contains(m, "encoding=") {
      TagLenAt(JDBC_TAG, body, rest);
    } else {
      var longer := JDBC_ENCODING + body;
      assert longer[..|longer| - 1] == JDBC_ENCODING + body[..|body| - 1];
      TagLenAt(JDBC_TAG, longer, rest);
      var r := Replacement(JdbcEncoding, m);
      assert m[|JDBC_TAG|..] == body;
      assert r == JDBC_TAG + longer;
      EncodingIsIn(body);
    }
  }

  lemma EncodingIsIn(body: string)
    ensures Contains(JDBC_TAG + (JDBC_ENCODING + body), "encoding=")
  {
    ContainsInside(JDBC_TAG + " ", "encoding=", "\"UTF-8\"" + body);
    assert JDBC_TAG + (JDBC_ENCODING + body) == JDBC_TAG + " " + "encoding=" + ("\"UTF-8\"" + body);
  }

  lemma ReplacementAgain(rule: Rule, s: string, rest: string)
    requires MatchLen(rule, s) > 0 && KeepsMatching(rule)
    ensures var r := Replacement(rule, s[..MatchLen(rule, s)]);
      MatchLen(rule, r + rest) == |r| && Replacement(rule, r) == r
  {
    if rule.PortAttr? {
      PortTextMatches(rule, rest);
    } else {
      JdbcTagAgain(s, rest);
    }
  }

  lemma {:induction false} NoHeadNoMatch(rule: Rule, u: string, v: string)
    requires Head(rule) !in u
    ensures Matches(rule, u + v) == Matches(rule, v)
  {
    if u == "" {
      assert u + v == v;
    } else {
      assert (u + v)[1..] == u[1..] + v;
      NoHeadNoMatch(rule, u[1..], v);
      if MatchLen(rule, u + v) > 0 {
        BeginWithHead(rule, u + v);
      }
    }
  }

  lemma ReplacementGone(rule: Rule, s: string, rest: string)
    requires MatchLen(rule, s) > 0 && !KeepsMatching(rule)
    ensures Matches(rule, Replacement(rule, s[..MatchLen(rule, s)]) + rest) == Matches(rule, rest)
  {
    var r := Replacement(rule, s[..MatchLen(rule, s)]);
    var all := r + rest;
    assert all[1..] == r[1..] + rest;
    if rule.PortAttr? {
      PortTextMatches(rule, rest);
      assert r[1..] == "ort=\"" + Decimal(rule.port) + "\"";
      assert AllDigits(Itoa(-rule.port));
    } else {
      assert all[..|EUREKA_OLD|] == EUREKA_NEW;
      assert EUREKA_NEW[5] != EUREKA_OLD[5] || EUREKA_NEW[4] != EUREKA_OLD[4];
    }
    NoHeadNoMatch(rule, r[1..], rest);
  }

  lemma {:induction false} NoMatchesNoChange(rule: Rule, s: string)
    requires Matches(rule, s) == []
    ensures Rewrite(rule, s) == s
    decreases |s|
  {
    if s == "" {
    } else {
      NoMatchesNoChange(rule, s[1..]);
    }
  }

  /**
    A second pass changes nothing. The second scan stops at exactly the replacements of the first
    one, unless the rule does not recognise its own replacements, in which case nothing is left to
    stop at.
  */
  lemma {:induction false} SecondPass(rule: Rule, s: string)
    ensures Rewrite(rule, Rewrite(rule, s)) == Rewrite(rule, s)
    ensures forall m <- Matches(rule, Rewrite(rule, s)) :: Replacement(rule, m) == m
    ensures |Matches(rule, Rewrite(rule, s))| == if KeepsMatching(rule) then |Matches(rule, s)| else 0
    decreases |s|
  {
    hide MatchLen, Replacement, KeepsMatching;
    var n := MatchLen(rule, s);
    var whole := Rewrite(rule, s);
    if n > 0 {
      var r, rest := Replacement(rule, s[..n]), Rewrite(rule, s[n..]);
      SecondPass(rule, s[n..]);
      BeginWithHead(rule, s);
      if KeepsMatching(rule) {
        ReplacementAgain(rule, s, rest);
        assert whole[..|r|] == r && whole[|r|..] == rest;
      } else {
        ReplacementGone(rule, s, rest);
        NoMatchesNoChange(rule, whole);
      }
    } else if s != "" {
      CopyStays(rule, s);
      assert whole[1..] == Rewrite(rule, s[1..]);
      SecondPass(rule, s[1..]);
    } else {
      NothingInEmpty(rule);
    }
  }

  lemma NothingInEmpty(rule: Rule)
    ensures MatchLen(rule, "") == 0
  {
  }
}
