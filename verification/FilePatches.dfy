/**
  The text patches that the launcher applies to the files of a clone: the Lombok block in pom.xml,
  the two Gradle appendices, the Eureka port, and the encoding of JDBC scripts. All take the whole
  text of a file and give the text written back.
*/
module FilePatches {
  import opened Wrappers
  import opened Text
  import opened Rewriting

  const TABS := "\n\t\t\t\t\t"
  const PATHS := "annotationProcessorPaths"
  const LOMBOK_PATHS := TABS + "<" + PATHS + LOMBOK_REST
  const LOMBOK_REST := LOMBOK_OPEN + (LOMBOK_GROUP + (LOMBOK_ARTIFACT + (LOMBOK_VERSION + LOMBOK_CLOSE)))
  const LOMBOK_OPEN := ">" + TABS + "\t<path>"
  const LOMBOK_GROUP := TABS + "\t\t" + "<groupId>org.projectlombok</groupId>"
  const LOMBOK_ARTIFACT := TABS + "\t\t" + "<artifactId>lombok</artifactId>"
  const LOMBOK_VERSION := TABS + "\t\t" + "<version>1.18.42</version>"
  const LOMBOK_CLOSE := TABS + "\t</path>" + TABS + "</annotationProcessorPaths>"

  const POM_TARGETS: seq<string> := [
    "<release>${java.version}</release>",
    "<source>1.8</source>\n\t\t\t\t\t<target>1.8</target>",
    "<source>11</source>\n\t\t\t\t\t<target>11</target>",
    "<source>17</source>\n\t\t\t\t\t<target>17</target>"]
  const POM_PLUGIN := "<artifactId>maven-compiler-plugin</artifactId>"
  const POM_CONFIGURATION := "<configuration>"

  const SOURCES_JAR_MARK := "egov-launcher: sourcesJar fix"
  const SOURCES_JAR_WHY := " — Gradle 8 implicit-dependency validation (upstream PR #87) */\n"
  const SOURCES_JAR_FIX := "tasks.named('sourcesJar') { dependsOn tasks.named('compileJava') }"
  const SOURCES_JAR_REST := SOURCES_JAR_WHY + (SOURCES_JAR_FIX + "\n")
  const LOG4J_MARK := "egov-launcher: log4j exclude"
  const LOG4J_WHY :=
    " — logback 사용 서비스에 log4j-slf4j2-impl이 섞이면 기동 불가 (upstream PR #87) */\nconfigurations.configureEach {\n    "
  const LOG4J_FIX := "exclude group: 'org.apache.logging.log4j', module: 'log4j-slf4j2-impl'"
  const LOG4J_REST := LOG4J_WHY + (LOG4J_FIX + "\n}\n")

  // Go's strings.Index: the first place where `part` occurs.
  function Find(s: string, part: string): (r: Option<nat>)
    ensures r.None? <==> !Contains(s, part)
    ensures r.Some? ==> r.value + |part| <= |s| && s[r.value..r.value + |part|] == part
  {
    if StartsWith(s, part) then Some(0)
    else if s == "" then None
    else
      var rest := Find(s[1..], part);
      if rest.None? then None
      else
        assert s[1..][rest.value..rest.value + |part|] == s[rest.value + 1..rest.value + 1 + |part|];
        Some(rest.value + 1)
  }

  // Go's strings.Replace(s, part, with, 1).
  function ReplaceFirst(s: string, part: string, with: string): string {
    match Find(s, part)
    case None => s
    case Some(i) => s[..i] + with + s[i + |part|..]
  }

  // Go's strings.ReplaceAll(s, "\r", "").
  function NoCr(s: string): string {
    if s == "" then "" else (if s[0] == '\r' then "" else [s[0]]) + NoCr(s[1..])
  }

  // This is the first place where `part` occurs.
  predicate FirstAt(s: string, part: string, i: int) {
    && 0 <= i <= |s| && StartsWith(s[i..], part)
    && forall k | 0 <= k < i :: !StartsWith(s[k..], part)
  }

  lemma {:induction false} FindIsFirst(s: string, part: string)
    ensures Find(s, part).Some? ==> FirstAt(s, part, Find(s, part).value)
  {
    hide StartsWith;
    assert s[0..] == s;
    if StartsWith(s, part) {
    } else if s == "" {
    } else {
      FindIsFirst(s[1..], part);
      var rest := Find(s[1..], part);
      if rest.Some? {
        forall k | 0 <= k < rest.value + 1 ensures !StartsWith(s[k..], part) {
          assert k > 0 ==> s[k..] == s[1..][k - 1..];
        }
        assert s[rest.value + 1..] == s[1..][rest.value..];
      }
    }
  }

  /** Carriage returns are dropped, and nothing else. */
  lemma {:induction false} NoCrDrops(a: string, b: string)
    ensures NoCr(a + b) == NoCr(a) + NoCr(b)
    ensures NoCr("\r") == ""
  {
    if a == "" {
      assert a + b == b;
    } else {
      var head := if a[0] == '\r' then "" else [a[0]];
      assert (a + b)[1..] == a[1..] + b && (a + b)[0] == a[0];
      NoCrDrops(a[1..], b);
      assert head + (NoCr(a[1..]) + NoCr(b)) == head + NoCr(a[1..]) + NoCr(b);
    }
  }

  lemma {:induction false} NoCrKeeps(a: string)
    ensures '\r' !in NoCr(a) && ('\r' !in a ==> NoCr(a) == a)
  {
    if a == "" {
    } else {
      NoCrKeeps(a[1..]);
      assert a == [a[0]] + a[1..];
    }
  }

  // ---------------------------------------------------------------- pom.xml

  predicate WantsLombokPaths(pom: string) {
    Contains(pom, "lombok") && Contains(pom, "maven-compiler-plugin") && !Contains(pom, PATHS)
  }

  function FirstTarget(clean: string, targets: seq<string>): Option<string> {
    if targets == [] then None
    else if Contains(clean, NoCr(targets[0])) then Some(NoCr(targets[0]))
    else FirstTarget(clean, targets[1..])
  }

  // Just behind the first <configuration> that follows the compiler plugin.
  function ConfigurationEnd(pom: string): (r: Option<nat>)
    ensures r.Some? ==> r.value <= |pom|
  {
    match Find(pom, POM_PLUGIN)
    case None => None
    case Some(i) =>
      match Find(pom[i..], POM_CONFIGURATION)
      case None => None
      case Some(k) => Some(i + k + |POM_CONFIGURATION|)
  }

  function PomPatched(pom: string): string {
    if !WantsLombokPaths(pom) then pom
    else
      var clean := NoCr(pom);
      match FirstTarget(clean, POM_TARGETS)
      case Some(target) => ReplaceFirst(clean, target, target + LOMBOK_PATHS)
      case None =>
        match ConfigurationEnd(pom)
        case Some(at) => pom[..at] + LOMBOK_PATHS + pom[at..]
        case None => pom
  }

  // Where `pom` leaves a place for the block.
  predicate HasPlace(pom: string) {
    FirstTarget(NoCr(pom), POM_TARGETS).Some? || ConfigurationEnd(pom).Some?
  }

  ghost predicate Inserts(whole: string, block: string, rest: string) {
    exists a, b :: whole == a + block + b && rest == a + b
  }

  lemma ContainsWithin(before: string, middle: string, after: string, part: string)
    requires Contains(middle, part)
    ensures Contains(before + middle + after, part)
  {
    ContainsAt(middle, part);
    var i :| 0 <= i <= |middle| && StartsWith(middle[i..], part);
    var s := before + middle + after;
    assert middle[i..][..|part|] == middle[i..i + |part|];
    assert s == (before + middle[..i]) + part + (middle[i + |part|..] + after);
    ContainsInside(before + middle[..i], part, middle[i + |part|..] + after);
  }

  lemma LombokPathsNamed(before: string, after: string)
    ensures Contains(before + LOMBOK_PATHS + after, PATHS)
  {
    hide Contains;
    ContainsInside(TABS + "<", PATHS, LOMBOK_REST);
    ContainsWithin(before, LOMBOK_PATHS, after, PATHS);
  }

  lemma {:induction false} TargetIsThere(clean: string, targets: seq<string>)
    ensures var t := FirstTarget(clean, targets); t.Some? ==> Contains(clean, t.value)
  {
    if targets == [] {
    } else {
      TargetIsThere(clean, targets[1..]);
    }
  }

  /**
    A pom.xml either stays as it is or gets exactly one block inserted, into its own text or into
    its text without carriage returns; it gets it exactly when it wants one and has a place.
  */
  lemma PomGetsOneBlock(pom: string)
    ensures var p := PomPatched(pom);
      if WantsLombokPaths(pom) && HasPlace(pom)
      then (Inserts(p, LOMBOK_PATHS, pom) || Inserts(p, LOMBOK_PATHS, NoCr(pom))) && Contains(p, PATHS)
      else p == pom
  {
    hide Contains, Find, NoCr;
    if WantsLombokPaths(pom) {
      var clean := NoCr(pom);
      var t := FirstTarget(clean, POM_TARGETS);
      if t.Some? {
        TargetIsThere(clean, POM_TARGETS);
        TargetKept(clean, t.value);
      } else if ConfigurationEnd(pom).Some? {
        var at := ConfigurationEnd(pom).value;
        assert pom == pom[..at] + pom[at..];
        LombokPathsNamed(pom[..at], pom[at..]);
        assert Inserts(PomPatched(pom), LOMBOK_PATHS, pom);
      }
    }
  }

  lemma BlockBehind(s: string, i: nat, target: string, block: string)
    requires i + |target| <= |s| && s[i..i + |target|] == target
    ensures var a, b := s[..i] + target, s[i + |target|..];
      s[..i] + (target + block) + b == a + block + b && s == a + b
  {
  }

  lemma TargetKept(clean: string, target: string)
    requires Contains(clean, target)
    ensures var p := ReplaceFirst(clean, target, target + LOMBOK_PATHS);
      Inserts(p, LOMBOK_PATHS, clean) && Contains(p, PATHS)
  {
    hide Contains;
    var i := Find(clean, target).value;
    BlockBehind(clean, i, target, LOMBOK_PATHS);
    LombokPathsNamed(clean[..i] + target, clean[i + |target|..]);
  }

  // The block stands in this place of the text.
  predicate InsertedAt(whole: string, block: string, rest: string, at: int) {
    0 <= at <= |rest| && whole == rest[..at] + block + rest[at..]
  }

  lemma Within(a: string, b: string, c: string, part: string)
    requires Contains(b, part)
    ensures Contains(a + (b + c), part)
  {
    ContainsWithin(a, b, c, part);
    assert a + b + c == a + (b + c);
  }

  lemma BehindTabs(t: string, part: string)
    ensures Contains(t + part, part)
  {
    ContainsInside(t, part, "");
    assert t + part + "" == t + part;
  }

  /** The block names Lombok, in this version. */
  lemma BlockSays()
    ensures Contains(LOMBOK_PATHS, "<groupId>org.projectlombok</groupId>")
    ensures Contains(LOMBOK_PATHS, "<artifactId>lombok</artifactId>")
    ensures Contains(LOMBOK_PATHS, "<version>1.18.42</version>")
    ensures Contains(LOMBOK_PATHS, "annotationProcessorPaths")
  {
    hide Contains;
    var front := TABS + "<" + PATHS;
    BehindTabs(TABS + "\t\t", "<groupId>org.projectlombok</groupId>");
    BehindTabs(TABS + "\t\t", "<artifactId>lombok</artifactId>");
    BehindTabs(TABS + "\t\t", "<version>1.18.42</version>");
    var tail3 := LOMBOK_VERSION + LOMBOK_CLOSE;
    var tail2 := LOMBOK_ARTIFACT + tail3;
    Within(front + LOMBOK_OPEN, LOMBOK_GROUP, tail2, "<groupId>org.projectlombok</groupId>");
    Within(front + LOMBOK_OPEN + LOMBOK_GROUP, LOMBOK_ARTIFACT, tail3, "<artifactId>lombok</artifactId>");
    Within(front + LOMBOK_OPEN + LOMBOK_GROUP + LOMBOK_ARTIFACT, LOMBOK_VERSION, LOMBOK_CLOSE, "<version>1.18.42</version>");
    Rearranged(front, LOMBOK_OPEN, LOMBOK_GROUP, LOMBOK_ARTIFACT, LOMBOK_VERSION, LOMBOK_CLOSE);
    LombokPathsNamed("", "");
    assert "" + LOMBOK_PATHS + "" == LOMBOK_PATHS;
  }

  lemma Rearranged(f: string, o: string, g: string, a: string, v: string, c: string)
    ensures var all := f + (o + (g + (a + (v + c))));
      && all == (f + o) + (g + (a + (v + c)))
      && all == (f + o + g) + (a + (v + c))
      && all == (f + o + g + a) + (v + c)
  {
  }

  // The first of the texts that the block goes behind.
  function TargetIn(clean: string): Option<string> {
    if Contains(clean, "<release>${java.version}</release>") then Some("<release>${java.version}</release>")
    else if Contains(clean, "<source>1.8</source>\n\t\t\t\t\t<target>1.8</target>")
    then Some("<source>1.8</source>\n\t\t\t\t\t<target>1.8</target>")
    else if Contains(clean, "<source>11</source>\n\t\t\t\t\t<target>11</target>")
    then Some("<source>11</source>\n\t\t\t\t\t<target>11</target>")
    else if Contains(clean, "<source>17</source>\n\t\t\t\t\t<target>17</target>")
    then Some("<source>17</source>\n\t\t\t\t\t<target>17</target>")
    else None
  }

  lemma NoCrTarget(t: string)
    requires '\r' !in t
    ensures NoCr(t) == t
  {
    NoCrKeeps(t);
  }

  lemma TargetsHaveNoCr()
    ensures forall k | 0 <= k < |POM_TARGETS| :: NoCr(POM_TARGETS[k]) == POM_TARGETS[k]
  {
    forall k | 0 <= k < |POM_TARGETS| ensures NoCr(POM_TARGETS[k]) == POM_TARGETS[k] {
      TargetHasNoCr(k);
      NoCrTarget(POM_TARGETS[k]);
    }
  }

  lemma TargetHasNoCr(k: nat)
    requires k < |POM_TARGETS|
    ensures '\r' !in POM_TARGETS[k]
  {
    if k == 0 {
      Target0HasNoCr();
    } else if k == 1 {
      Target1HasNoCr();
    } else if k == 2 {
      Target2HasNoCr();
    } else {
      Target3HasNoCr();
    }
  }

  lemma Target0HasNoCr()
    ensures '\r' !in POM_TARGETS[0]
  {
    var a, b := "<release>${java.v", "ersion}</release>";
    assert POM_TARGETS[0] == a + b;
    assert '\r' !in a && '\r' !in b;
  }

  lemma Target1HasNoCr()
    ensures '\r' !in POM_TARGETS[1]
  {
    var a, b := "<source>1.8</source>", "\n\t\t\t\t\t<target>1.8</target>";
    assert POM_TARGETS[1] == a + b;
    assert '\r' !in a && '\r' !in b;
  }

  lemma Target2HasNoCr()
    ensures '\r' !in POM_TARGETS[2]
  {
    var a, b := "<source>11</source>", "\n\t\t\t\t\t<target>11</target>";
    assert POM_TARGETS[2] == a + b;
    assert '\r' !in a && '\r' !in b;
  }

  lemma Target3HasNoCr()
    ensures '\r' !in POM_TARGETS[3]
  {
    var a, b := "<source>17</source>", "\n\t\t\t\t\t<target>17</target>";
    assert POM_TARGETS[3] == a + b;
    assert '\r' !in a && '\r' !in b;
  }

  lemma OneTarget(clean: string, targets: seq<string>)
    requires targets != [] && NoCr(targets[0]) == targets[0]
    ensures FirstTarget(clean, targets) ==
      if Contains(clean, targets[0]) then Some(targets[0]) else FirstTarget(clean, targets[1..])
  {
    hide Contains, NoCr;
  }

  lemma FirstTargetIs(clean: string)
    ensures FirstTarget(clean, POM_TARGETS) == TargetIn(clean)
  {
    hide Contains, NoCr, FirstTarget;
    TargetsHaveNoCr();
    var t := POM_TARGETS;
    assert t[1..][0] == t[1] && t[2..][0] == t[2] && t[3..][0] == t[3];
    assert t[1..][1..] == t[2..] && t[2..][1..] == t[3..] && t[3..][1..] == [];
    OneTarget(clean, t);
    OneTarget(clean, t[1..]);
    OneTarget(clean, t[2..]);
    OneTarget(clean, t[3..]);
    NoTarget(clean);
  }

  lemma NoTarget(clean: string)
    ensures FirstTarget(clean, []) == None
  {
  }

  /**
    Where the block goes: directly behind the first of the compiler settings that the text without
    carriage returns has, in the order release, 1.8, 11, 17; without any, directly behind the first
    `<configuration>` that follows the compiler plugin.
  */
  lemma PomBlockPlace(pom: string)
    requires Contains(pom, "lombok") && Contains(pom, "maven-compiler-plugin") && !Contains(pom, "annotationProcessorPaths")
    ensures var clean := NoCr(pom);
      match TargetIn(clean)
      case Some(t) => forall i | FirstAt(clean, t, i) :: InsertedAt(PomPatched(pom), LOMBOK_PATHS, clean, i + |t|)
      case None =>
        forall i, k |
          FirstAt(pom, "<artifactId>maven-compiler-plugin</artifactId>", i) && FirstAt(pom[i..], "<configuration>", k) ::
          InsertedAt(PomPatched(pom), LOMBOK_PATHS, pom, i + k + |"<configuration>"|)
  {
    hide Contains, Find, NoCr, StartsWith, TargetIn, InsertedAt;
    var clean := NoCr(pom);
    FirstTargetIs(clean);
    var t := TargetIn(clean);
    if t.Some? {
      forall i | FirstAt(clean, t.value, i) ensures InsertedAt(PomPatched(pom), LOMBOK_PATHS, clean, i + |t.value|) {
        OnlyFirst(clean, t.value, i);
        BehindTarget(clean, t.value, LOMBOK_PATHS);
      }
    } else {
      forall i, k | FirstAt(pom, POM_PLUGIN, i) && FirstAt(pom[i..], POM_CONFIGURATION, k)
        ensures InsertedAt(PomPatched(pom), LOMBOK_PATHS, pom, i + k + |POM_CONFIGURATION|)
      {
        OnlyFirst(pom, POM_PLUGIN, i);
        OnlyFirst(pom[i..], POM_CONFIGURATION, k);
        BehindConfiguration(pom, i + k + |POM_CONFIGURATION|, LOMBOK_PATHS);
      }
    }
  }

  // There is only one first place.
  lemma OnlyFirst(s: string, part: string, i: int)
    requires FirstAt(s, part, i)
    ensures Find(s, part) == Some(i) && i + |part| <= |s|
  {
    hide StartsWith;
    FindIsFirst(s, part);
    ContainsAt(s, part);
    assert StartsWith(s[i..], part);
    FitsIn(s[i..], part);
  }

  lemma FitsIn(s: string, part: string)
    requires StartsWith(s, part)
    ensures |part| <= |s|
  {
  }

  lemma BehindTarget(clean: string, target: string, block: string)
    requires Find(clean, target).Some?
    ensures InsertedAt(ReplaceFirst(clean, target, target + block), block, clean, Find(clean, target).value + |target|)
  {
    hide Find, Contains;
    TextBehind(clean, Find(clean, target).value, target, block);
  }

  lemma TextBehind(s: string, i: nat, target: string, block: string)
    requires i + |target| <= |s| && s[i..i + |target|] == target
    ensures s[..i] + (target + block) + s[i + |target|..] == s[..i + |target|] + block + s[i + |target|..]
  {
    assert s[..i + |target|] == s[..i] + target;
  }

  lemma BehindConfiguration(pom: string, at: nat, block: string)
    requires at <= |pom|
    ensures InsertedAt(pom[..at] + block + pom[at..], block, pom, at)
  {
  }

  lemma PomPatchedTwice(pom: string)
    ensures PomPatched(PomPatched(pom)) == PomPatched(pom)
  {
    hide NoCr, Contains, Find, FirstTarget, ConfigurationEnd, ReplaceFirst;
    PomGetsOneBlock(pom);
  }

  // ---------------------------------------------------------------- Gradle

  function SourcesJarPatched(gradle: string): string {
    if Contains(gradle, "withSourcesJar()")
       && !Contains(gradle, SOURCES_JAR_MARK)
       && !Contains(gradle, "dependsOn tasks.named('compileJava')")
    then gradle + ("\n/* " + SOURCES_JAR_MARK + SOURCES_JAR_REST)
    else gradle
  }

  function Log4jPatched(gradle: string): string {
    if Contains(gradle, LOG4J_MARK) || Contains(gradle, "log4j-slf4j2-impl") then gradle
    else gradle + ("\n/* " + LOG4J_MARK + LOG4J_REST)
  }

  lemma MarkedAtEnd(text: string, mark: string, rest: string)
    ensures Contains(text + ("\n/* " + mark + rest), mark)
  {
    ContainsInside(text + "\n/* ", mark, rest);
    assert text + ("\n/* " + mark + rest) == text + "\n/* " + mark + rest;
  }

  /** Both appendices are written at most once, and only behind the text that was there. */
  lemma GradlePatchedTwice(gradle: string)
    ensures SourcesJarPatched(SourcesJarPatched(gradle)) == SourcesJarPatched(gradle)
    ensures Log4jPatched(Log4jPatched(gradle)) == Log4jPatched(gradle)
    ensures gradle <= SourcesJarPatched(gradle) && gradle <= Log4jPatched(gradle)
  {
    hide Contains;
    MarkedAtEnd(gradle, SOURCES_JAR_MARK, SOURCES_JAR_REST);
    MarkedAtEnd(gradle, LOG4J_MARK, LOG4J_REST);
  }

  // A comment with this mark was written behind the text, and an instruction.
  ghost predicate Appended(after: string, text: string, mark: string, instruction: string) {
    exists a, b :: after == text + ("\n/* " + mark + (a + (instruction + b)))
  }

  /** A build file gets the instruction under its mark exactly when it wants it, and otherwise stays as it is. */
  lemma GradleAppended(gradle: string)
    ensures
      if Contains(gradle, "withSourcesJar()") && !Contains(gradle, "egov-launcher: sourcesJar fix")
         && !Contains(gradle, "dependsOn tasks.named('compileJava')")
      then Appended(SourcesJarPatched(gradle), gradle, "egov-launcher: sourcesJar fix",
                    "tasks.named('sourcesJar') { dependsOn tasks.named('compileJava') }")
      else SourcesJarPatched(gradle) == gradle
    ensures
      if !Contains(gradle, "egov-launcher: log4j exclude") && !Contains(gradle, "log4j-slf4j2-impl")
      then Appended(Log4jPatched(gradle), gradle, "egov-launcher: log4j exclude",
                    "exclude group: 'org.apache.logging.log4j', module: 'log4j-slf4j2-impl'")
      else Log4jPatched(gradle) == gradle
  {
    hide Contains;
  }

  // ---------------------------------------------------------------- Eureka and JDBC

  lemma {:induction false} NoMatchNoAddress(s: string)
    requires Matches(EurekaPort, s) == []
    ensures !Contains(s, EUREKA_OLD)
    decreases |s|
  {
    if s == "" {
    } else {
      NoMatchNoAddress(s[1..]);
    }
  }

  lemma {:induction false} AbsentNoMatches(rule: Rule, s: string, literal: string)
    requires (rule == EurekaPort && literal == EUREKA_OLD) || (rule == JdbcEncoding && literal == JDBC_TAG)
    requires !Contains(s, literal)
    ensures Matches(rule, s) == []
    decreases |s|
  {
    if s == "" {
    } else {
      AbsentNoMatches(rule, s[1..], literal);
    }
  }

  /** Skipping a file that lacks the literal, as both patches do, gives the same text as rewriting it. */
  lemma GuardIsExact(rule: Rule, s: string, literal: string)
    requires (rule == EurekaPort && literal == EUREKA_OLD) || (rule == JdbcEncoding && literal == JDBC_TAG)
    ensures !Contains(s, literal) ==> Rewrite(rule, s) == s
  {
    if !Contains(s, literal) {
      AbsentNoMatches(rule, s, literal);
      NoMatchesNoChange(rule, s);
    }
  }

  /** After one pass no old address is left, not even one formed across the ends of a replacement. */
  lemma NoOldAddressLeft(s: string)
    ensures !Contains(Rewrite(EurekaPort, s), ":8761/eureka")
  {
    SecondPass(EurekaPort, s);
    NoMatchNoAddress(Rewrite(EurekaPort, s));
  }

  lemma {:induction false} MatchesAreTags(s: string)
    ensures forall m <- Matches(JdbcEncoding, s) :: StartsWith(m, JDBC_TAG)
    decreases |s|
  {
    var n := MatchLen(JdbcEncoding, s);
    if n > 0 {
      MatchesAreTags(s[n..]);
      assert s[..n][..|JDBC_TAG|] == s[..|JDBC_TAG|];
    } else if s == "" {
    } else {
      MatchesAreTags(s[1..]);
    }
  }

  /** After one pass every script tag states its encoding, and there are as many tags as before. */
  lemma EveryScriptHasEncoding(s: string)
    ensures var out := Rewrite(JdbcEncoding, s);
      && (forall m <- Matches(JdbcEncoding, out) :: Contains(m, "encoding="))
      && |Matches(JdbcEncoding, out)| == |Matches(JdbcEncoding, s)|
      && Rewrite(JdbcEncoding, out) == out
  {
    hide Contains, Rewrite, Matches;
    var out := Rewrite(JdbcEncoding, s);
    SecondPass(JdbcEncoding, s);
    MatchesAreTags(out);
    forall m | m in Matches(JdbcEncoding, out)
      ensures Contains(m, "encoding=")
    {
      assert Replacement(JdbcEncoding, m) == m;
    }
  }
}
