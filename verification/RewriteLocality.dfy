/**
  What a rewriting pass leaves alone and what it puts in the place of each match: the text between the
  matches is copied, and a match becomes what the rule is for, spelled out.
*/
module RewriteLocality {
  import opened Text
  import opened Rewriting

  // The text before, between and behind the matches.
  function Gaps(rule: Rule, s: string): (gaps: seq<string>)
    ensures |gaps| == |Matches(rule, s)| + 1
    decreases |s|
  {
    var n := MatchLen(rule, s);
    if n > 0 then [""] + Gaps(rule, s[n..])
    else if s == "" then [""]
    else
      var later := Gaps(rule, s[1..]);
      [[s[0]] + later[0]] + later[1..]
  }

  // Gaps and matches in turn.
  function Weave(gaps: seq<string>, matches: seq<string>): string
    requires |gaps| == |matches| + 1
  {
    if matches == [] then gaps[0] else gaps[0] + matches[0] + Weave(gaps[1..], matches[1..])
  }

  function Replacements(rule: Rule, matches: seq<string>): (r: seq<string>)
    ensures |r| == |matches| && forall k | 0 <= k < |r| :: r[k] == Replacement(rule, matches[k])
  {
    if matches == [] then [] else [Replacement(rule, matches[0])] + Replacements(rule, matches[1..])
  }

  lemma WeaveMatch(gaps: seq<string>, m: string, matches: seq<string>)
    requires |gaps| == |matches| + 1
    ensures Weave([""] + gaps, [m] + matches) == m + Weave(gaps, matches)
  {
    assert ([""] + gaps)[1..] == gaps && ([m] + matches)[1..] == matches;
    assert "" + m == m;
  }

  lemma WeaveChar(c: char, gaps: seq<string>, matches: seq<string>)
    requires |gaps| == |matches| + 1
    ensures Weave([[c] + gaps[0]] + gaps[1..], matches) == [c] + Weave(gaps, matches)
  {
    var longer := [[c] + gaps[0]] + gaps[1..];
    assert longer[1..] == gaps[1..];
    if matches == [] {
    } else {
      assert [c] + gaps[0] + matches[0] + Weave(gaps[1..], matches[1..])
          == [c] + (gaps[0] + matches[0] + Weave(gaps[1..], matches[1..]));
    }
  }

  lemma GapsStep(rule: Rule, s: string)
    requires s != ""
    ensures var n := MatchLen(rule, s);
      Gaps(rule, s) ==
        if n > 0 then [""] + Gaps(rule, s[n..])
        else [[s[0]] + Gaps(rule, s[1..])[0]] + Gaps(rule, s[1..])[1..]
  {
  }

  lemma OneMore(rule: Rule, m: string, matches: seq<string>)
    ensures Replacements(rule, [m] + matches) == [Replacement(rule, m)] + Replacements(rule, matches)
  {
    assert ([m] + matches)[1..] == matches;
  }

  lemma {:induction false} PassWeaves(rule: Rule, s: string)
    ensures var gaps, matches := Gaps(rule, s), Matches(rule, s);
      s == Weave(gaps, matches) && Rewrite(rule, s) == Weave(gaps, Replacements(rule, matches))
    decreases |s|
  {
    hide MatchLen, Replacement, Weave, Gaps, Matches, Rewrite, Replacements;
    if s == "" {
      NothingWoven(rule);
    } else {
      var n := MatchLen(rule, s);
      var step := if n > 0 then n else 1;
      var gaps, matches := Gaps(rule, s[step..]), Matches(rule, s[step..]);
      OneScanStep(rule, s);
      GapsStep(rule, s);
      PassWeaves(rule, s[step..]);
      if n > 0 {
        WeaveMatch(gaps, s[..n], matches);
        WeaveMatch(gaps, Replacement(rule, s[..n]), Replacements(rule, matches));
        OneMore(rule, s[..n], matches);
        assert s == s[..n] + s[n..];
      } else {
        WeaveChar(s[0], gaps, matches);
        WeaveChar(s[0], gaps, Replacements(rule, matches));
        assert s == [s[0]] + s[1..];
      }
    }
  }

  lemma NothingWoven(rule: Rule)
    ensures Gaps(rule, "") == [""] && Matches(rule, "") == [] && Rewrite(rule, "") == ""
    ensures Replacements(rule, []) == [] && Weave([""], []) == ""
  {
  }

  // ---------------------------------------------------------------- what a match becomes

  // A port attribute with some number becomes one with this port.
  predicate PortBecomes(port: int, m: string, m': string) {
    && |m| > 7 && m == "port=\"" + m[6..|m| - 1] + "\"" && AllDigits(m[6..|m| - 1])
    && m' == "port=\"" + (if port < 0 then "-" + Itoa(-port) else Itoa(port)) + "\""
  }

  // A script tag that states an encoding stays; another one gets it in front of what it says.
  predicate ScriptBecomes(m: string, m': string) {
    && |m| > 12 && m == "<jdbc:script" + m[12..] && !IsWordChar(m[12])
    && m[|m| - 1] == '>' && '>' !in m[..|m| - 1]
    && m' == if Contains(m, "encoding=") then m else "<jdbc:script" + " encoding=\"UTF-8\"" + m[12..]
  }

  predicate Becomes(rule: Rule, m: string, m': string) {
    match rule
    case PortAttr(port) => PortBecomes(port, m, m')
    case JdbcEncoding => ScriptBecomes(m, m')
    case EurekaPort => m == ":8761/eureka" && m' == ":8762/eureka"
  }

  lemma MatchBecomes(rule: Rule, s: string)
    requires MatchLen(rule, s) > 0
    ensures var m := s[..MatchLen(rule, s)]; Becomes(rule, m, Replacement(rule, m))
  {
    var n := MatchLen(rule, s);
    var m := s[..n];
    match rule
    case PortAttr(_) =>
      var d := DigitRun(s[6..]);
      assert m[..6] == s[..6] && m[6..n - 1] == s[6..][..d];
    case JdbcEncoding =>
      TagShape("<jdbc:script", s);
      assert m[12..] == s[12..n];
      assert m[..n - 1] == "<jdbc:script" + s[12..n][..n - 13];
    case EurekaPort =>
  }

  lemma {:induction false} MatchesBecome(rule: Rule, s: string)
    ensures forall m <- Matches(rule, s) :: Becomes(rule, m, Replacement(rule, m))
    decreases |s|
  {
    hide MatchLen, Replacement, Becomes;
    var n := MatchLen(rule, s);
    if n > 0 {
      MatchBecomes(rule, s);
      MatchesBecome(rule, s[n..]);
    } else if s == "" {
    } else {
      MatchesBecome(rule, s[1..]);
    }
  }

  /**
    A pass is local: the text outside the matches is copied, and each match becomes what it should,
    with everything else it says.
  */
  lemma PassIsLocal(rule: Rule, s: string) returns (replaced: seq<string>)
    ensures |replaced| == |Matches(rule, s)|
    ensures s == Weave(Gaps(rule, s), Matches(rule, s)) && Rewrite(rule, s) == Weave(Gaps(rule, s), replaced)
    ensures forall k | 0 <= k < |replaced| :: Becomes(rule, Matches(rule, s)[k], replaced[k])
  {
    hide Becomes, Replacement, Matches, Rewrite, Weave, Gaps;
    PassWeaves(rule, s);
    MatchesBecome(rule, s);
    replaced := Replacements(rule, Matches(rule, s));
  }

  lemma {:induction false} PassKeepsPlaces(rule: Rule, s: string)
    requires KeepsMatching(rule)
    ensures Matches(rule, Rewrite(rule, s)) == Replacements(rule, Matches(rule, s))
    ensures Gaps(rule, Rewrite(rule, s)) == Gaps(rule, s)
    decreases |s|
  {
    hide MatchLen, Replacement, KeepsMatching;
    var n := MatchLen(rule, s);
    var whole := Rewrite(rule, s);
    if n > 0 {
      var r, rest := Replacement(rule, s[..n]), Rewrite(rule, s[n..]);
      PassKeepsPlaces(rule, s[n..]);
      BeginWithHead(rule, s);
      ReplacementAgain(rule, s, rest);
      assert whole[..|r|] == r && whole[|r|..] == rest;
      assert ([s[..n]] + Matches(rule, s[n..]))[1..] == Matches(rule, s[n..]);
    } else if s == "" {
      NothingInEmpty(rule);
    } else {
      CopyStays(rule, s);
      assert whole[1..] == Rewrite(rule, s[1..]);
      PassKeepsPlaces(rule, s[1..]);
    }
  }

  /**
    The tags of a patched script file, one by one: a tag that states its encoding is as it was, and
    any other one says what it said behind the encoding; nothing else in the file changes.
  */
  lemma ScriptsKeepTheRest(s: string)
    ensures var out := Rewrite(JdbcEncoding, s);
      var tags, patched := Matches(JdbcEncoding, s), Matches(JdbcEncoding, out);
      && |patched| == |tags|
      && s == Weave(Gaps(JdbcEncoding, s), tags) && out == Weave(Gaps(JdbcEncoding, s), patched)
      && forall k | 0 <= k < |tags| :: ScriptBecomes(tags[k], patched[k])
  {
    hide Rewrite, Matches, Gaps, Weave, ScriptBecomes, Replacement;
    PassKeepsPlaces(JdbcEncoding, s);
    PassWeaves(JdbcEncoding, s);
    MatchesBecome(JdbcEncoding, s);
  }

  /** The number in a port attribute reads back as the port. */
  lemma PortReadsBack(port: nat)
    requires port <= MAX_INT
    ensures Atoi(PortText(port)[6..|PortText(port)| - 1]) == port
  {
    AtoiItoa(port);
    assert PortText(port)[6..|PortText(port)| - 1] == Itoa(port);
  }
}
