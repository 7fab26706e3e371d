/**
  A target's checkout directory: its regular files, and the Clone operation with the patches it
  reapplies every time. `PatchedFile` says what the whole pipeline does to one file; the class
  applies the patches one after another, in loops, as the runner does.
*/
module SourceTree {
  import opened Wrappers
  import opened Text
  import opened Rewriting
  import opened RewriteLocality
  import opened FilePatches
  import J = Jobs

  // The names on the way from the checkout directory to a file.
  type Path = seq<string>
  type Files = map<Path, string>

  function PomPath(): Path {
    ["pom.xml"]
  }

  function ModuleCommonPath(): Path {
    ["backend", "egovframe-cloud-module-common", "build.gradle"]
  }

  function Services(): seq<string> {
    ["user-service", "portal-service", "board-service"]
  }

  function ServiceGradle(service: string): Path {
    ["backend", service, "build.gradle"]
  }

  predicate IsConfigYaml(p: Path) {
    |p| == 2 && p[0] == "config" && (EndsWith(p[1], ".yml") || EndsWith(p[1], ".yaml"))
  }

  predicate IsServiceAmong(p: Path, n: nat)
    requires n <= |Services()|
  {
    exists i | 0 <= i < n :: p == ServiceGradle(Services()[i])
  }

  predicate IsServiceGradle(p: Path) {
    IsServiceAmong(p, |Services()|)
  }

  predicate InSkippedDirectory(p: Path) {
    p != [] && (".git" in p[..|p| - 1] || "node_modules" in p[..|p| - 1])
  }

  predicate IsScriptXml(p: Path) {
    p != [] && !InSkippedDirectory(p) && EndsWith(p[|p| - 1], ".xml")
  }

  // ---------------------------------------------------------------- one patch over all files

  function PomStep(files: Files): Files {
    if PomPath() in files then files[PomPath() := PomPatched(files[PomPath()])] else files
  }

  function GradleFile(p: Path, text: string): string {
    if p == ModuleCommonPath() then SourcesJarPatched(text)
    else if IsServiceGradle(p) then Log4jPatched(text)
    else text
  }

  function GradleStep(files: Files): Files {
    map p | p in files :: GradleFile(p, files[p])
  }

  function ConfigFile(p: Path, text: string): string {
    if IsConfigYaml(p) then Rewrite(EurekaPort, text) else text
  }

  function ConfigStep(files: Files): Files {
    map p | p in files :: ConfigFile(p, files[p])
  }

  function JdbcFile(p: Path, text: string): string {
    if IsScriptXml(p) then Rewrite(JdbcEncoding, text) else text
  }

  function JdbcStep(files: Files): Files {
    map p | p in files :: JdbcFile(p, files[p])
  }

  function Pipeline(files: Files): Files {
    ConfigStep(GradleStep(PomStep(files)))
  }

  // The build files of the services differ from each other and from that of the common module.
  lemma ServicesApart(i: nat)
    requires i <= |Services()|
    ensures forall p :: !IsServiceAmong(p, 0)
    ensures !IsServiceAmong(ModuleCommonPath(), i)
    ensures i < |Services()| ==> ServiceGradle(Services()[i]) != ModuleCommonPath()
    ensures i < |Services()| ==> !IsServiceAmong(ServiceGradle(Services()[i]), i)
    ensures i < |Services()| ==>
      forall p :: IsServiceAmong(p, i + 1) <==> IsServiceAmong(p, i) || p == ServiceGradle(Services()[i])
  {
    assert ModuleCommonPath()[1][0] == 'e';
    assert Services()[0][0] == 'u' && Services()[1][0] == 'p' && Services()[2][0] == 'b';
    assert forall k | 0 <= k < |Services()| :: ServiceGradle(Services()[k])[1] == Services()[k];
  }

  // What a fresh checkout leaves behind, and why it failed if it did.
  datatype Checkout = Checkout(files: Files, failure: Option<string>)

  function Cloned(files: Files, clean: bool, mkdir: Option<string>, checkout: Checkout): Files {
    if files != map[] && !clean then Pipeline(files)
    else if mkdir.Some? then map[]
    else if checkout.failure.Some? then checkout.files
    else Pipeline(checkout.files)
  }

  class Workspace {
    var files: Files

    constructor (initial: Files)
      ensures files == initial
    {
      files := initial;
    }

    method PatchPomXml()
      modifies this
      ensures files == PomStep(old(files))
    {
      hide Contains, Find, NoCr, Rewrite, ConfigurationEnd, PomPath;
      if PomPath() !in files {
        return;
      }
      var pom := files[PomPath()];
      if !Contains(pom, "lombok") || !Contains(pom, "maven-compiler-plugin") || Contains(pom, PATHS) {
        return;
      }
      var patched := false;
      var i := 0;
      while i < |POM_TARGETS|
        invariant 0 <= i <= |POM_TARGETS|
        invariant !patched && files == old(files)
        invariant FirstTarget(NoCr(pom), POM_TARGETS) == FirstTarget(NoCr(pom), POM_TARGETS[i..])
      {
        var target, clean := NoCr(POM_TARGETS[i]), NoCr(pom);
        assert POM_TARGETS[i..][0] == POM_TARGETS[i] && POM_TARGETS[i..][1..] == POM_TARGETS[i + 1..];
        if Contains(clean, target) {
          files := files[PomPath() := ReplaceFirst(clean, target, target + LOMBOK_PATHS)];
          patched := true;
          break;
        }
        i := i + 1;
      }
      if !patched {
        var at := ConfigurationEnd(pom);
        if at.Some? {
          files := files[PomPath() := pom[..at.value] + LOMBOK_PATHS + pom[at.value..]];
        }
      }
    }

    method PatchGradleSourcesJar()
      modifies this
      ensures files == GradleStep(old(files))
    {
      hide SourcesJarPatched, Log4jPatched, IsServiceAmong, ServiceGradle, ModuleCommonPath, Services;
      var i := 0;
      ServicesApart(i);
      if ModuleCommonPath() in files {
        files := files[ModuleCommonPath() := SourcesJarPatched(files[ModuleCommonPath()])];
      }
      while i < |Services()|
        invariant 0 <= i <= |Services()|
        invariant files.Keys == old(files).Keys
        invariant forall p <- files :: p == ModuleCommonPath() ==> files[p] == SourcesJarPatched(old(files)[p])
        invariant forall p <- files :: p != ModuleCommonPath() ==>
          files[p] == if IsServiceAmong(p, i) then Log4jPatched(old(files)[p]) else old(files)[p]
      {
        ServicesApart(i);
        var path := ServiceGradle(Services()[i]);
        if path in files {
          files := files[path := Log4jPatched(files[path])];
        }
        i := i + 1;
      }
    }

    method PatchCentralConfigEurekaPort()
      modifies this
      ensures files == ConfigStep(old(files))
    {
      hide Contains, Rewrite, EndsWith;
      var entries := set p | p in files && |p| == 2 && p[0] == "config";
      while entries != {}
        invariant files.Keys == old(files).Keys && entries <= files.Keys
        invariant forall p <- entries :: |p| == 2 && p[0] == "config"
        invariant forall p <- files :: |p| == 2 && p[0] == "config" && p !in entries ==>
          files[p] == ConfigFile(p, old(files)[p])
        invariant forall p <- files :: p in entries || !(|p| == 2 && p[0] == "config") ==> files[p] == old(files)[p]
        decreases |entries|
      {
        var path :| path in entries;
        entries := entries - {path};
        var name := path[1];
        if !EndsWith(name, ".yml") && !EndsWith(name, ".yaml") {
          continue;
        }
        GuardIsExact(EurekaPort, files[path], EUREKA_OLD);
        if !Contains(files[path], EUREKA_OLD) {
          continue;
        }
        files := files[path := Rewrite(EurekaPort, files[path])];
      }
    }

    /** The walk over all XML files; `count` is the number of files it really changed. */
    method PatchJdbcScriptEncoding() returns (count: nat)
      modifies this
      ensures files == JdbcStep(old(files))
      ensures count == |set p | p in old(files) && files[p] != old(files)[p]|
    {
      hide Contains, Rewrite, EndsWith, InSkippedDirectory;
      var walk := files.Keys;
      ghost var changed: set<Path> := {};
      count := 0;
      while walk != {}
        invariant files.Keys == old(files).Keys && walk <= files.Keys
        invariant forall p <- files :: files[p] == if p in walk then old(files)[p] else JdbcFile(p, old(files)[p])
        invariant changed == set p | p in old(files) && files[p] != old(files)[p]
        invariant count == |changed|
        decreases |walk|
      {
        var path :| path in walk;
        walk := walk - {path};
        if path == [] || InSkippedDirectory(path) || !EndsWith(path[|path| - 1], ".xml") {
          continue;
        }
        var data := files[path];
        GuardIsExact(JdbcEncoding, data, JDBC_TAG);
        if !Contains(data, JDBC_TAG) {
          continue;
        }
        var out := Rewrite(JdbcEncoding, data);
        if out != data {
          files := files[path := out];
          assert (set p | p in old(files) && files[p] != old(files)[p]) == changed + {path};
          changed := changed + {path};
          count := count + 1;
        }
      }
    }

    method Patch()
      modifies this
      ensures files == Pipeline(old(files))
    {
      PatchPomXml();
      PatchGradleSourcesJar();
      PatchCentralConfigEurekaPort();
    }

    /** The Clone button. */
    method Clone(job: J.Job, clean: bool, mkdir: Option<string>, checkout: Checkout)
      modifies this, job
      ensures files == Cloned(old(files), clean, mkdir, checkout)
      ensures var anew := old(files) == map[] || clean;
        job.View() ==
          if anew && mkdir.Some? then J.SetStatus(old(job.View()), J.Error, mkdir.value)
          else if anew && checkout.failure.Some?
          then J.SetStatus(old(job.View()), J.Error, checkout.failure.value)
          else J.SetStatus(old(job.View()), J.Done, "")
    {
      hide Pipeline;
      var exists_ := files != map[];
      if exists_ && !clean {
        Patch();
        job.Set(J.Done, "");
        return;
      }
      if clean {
        files := map[];
      }
      if mkdir.Some? {
        job.Set(J.Error, mkdir.value);
        return;
      }
      job.Set(J.Cloning, "");
      files := checkout.files;
      if checkout.failure.Some? {
        job.Set(J.Error, checkout.failure.value);
        return;
      }
      Patch();
      job.Set(J.Done, "");
    }
  }

  // ---------------------------------------------------------------- what the pipeline does

  // The whole pipeline, file by file: no file is touched by two of the patches.
  function PatchedFile(p: Path, text: string): string {
    if p == PomPath() then PomPatched(text)
    else if p == ModuleCommonPath() then SourcesJarPatched(text)
    else if IsServiceGradle(p) then Log4jPatched(text)
    else if IsConfigYaml(p) then Rewrite(EurekaPort, text)
    else text
  }

  lemma PathsApart(p: Path)
    ensures p == PomPath() ==> p != ModuleCommonPath() && !IsServiceGradle(p) && !IsConfigYaml(p)
    ensures p == ModuleCommonPath() ==> !IsServiceGradle(p) && !IsConfigYaml(p)
    ensures IsServiceGradle(p) ==> !IsConfigYaml(p)
  {
    hide EndsWith, Services;
    assert |PomPath()| == 1 && |ModuleCommonPath()| == 3;
    assert IsServiceGradle(p) ==> |p| == 3;
    ServicesApart(|Services()|);
  }

  lemma PipelineIsPointwise(files: Files)
    ensures Pipeline(files) == map p | p in files :: PatchedFile(p, files[p])
  {
    hide PomPatched, SourcesJarPatched, Log4jPatched, Rewrite;
    hide PomPath, ModuleCommonPath, IsServiceGradle, IsConfigYaml;
    forall p | p in files
      ensures Pipeline(files)[p] == PatchedFile(p, files[p])
    {
      PathsApart(p);
    }
  }

  // What becomes of one file, by its path.
  ghost predicate BecomesByPath(p: Path, text: string, after: string) {
    if p == ["pom.xml"] then after == PomPatched(text)
    else if p == ["backend", "egovframe-cloud-module-common", "build.gradle"] then
      if Contains(text, "withSourcesJar()") && !Contains(text, "egov-launcher: sourcesJar fix")
         && !Contains(text, "dependsOn tasks.named('compileJava')")
      then Appended(after, text, "egov-launcher: sourcesJar fix",
                    "tasks.named('sourcesJar') { dependsOn tasks.named('compileJava') }")
      else after == text
    else if p in [["backend", "user-service", "build.gradle"], ["backend", "portal-service", "build.gradle"],
                  ["backend", "board-service", "build.gradle"]] then
      if !Contains(text, "egov-launcher: log4j exclude") && !Contains(text, "log4j-slf4j2-impl")
      then Appended(after, text, "egov-launcher: log4j exclude",
                    "exclude group: 'org.apache.logging.log4j', module: 'log4j-slf4j2-impl'")
      else after == text
    else if |p| == 2 && p[0] == "config" && (EndsWith(p[1], ".yml") || EndsWith(p[1], ".yaml")) then
      after == Rewrite(EurekaPort, text)
    else after == text
  }

  lemma ServicesAre(p: Path)
    ensures IsServiceGradle(p) <==>
      p in [["backend", "user-service", "build.gradle"], ["backend", "portal-service", "build.gradle"],
            ["backend", "board-service", "build.gradle"]]
  {
    assert Services()[0] == "user-service" && Services()[1] == "portal-service" && Services()[2] == "board-service";
    if IsServiceGradle(p) {
      var i :| 0 <= i < |Services()| && p == ServiceGradle(Services()[i]);
    }
    assert p == ServiceGradle(Services()[0]) ==> IsServiceAmong(p, 3);
    assert p == ServiceGradle(Services()[1]) ==> IsServiceAmong(p, 3);
    assert p == ServiceGradle(Services()[2]) ==> IsServiceAmong(p, 3);
  }

  /** The pipeline changes these files in these ways, every one of them, and no other. */
  lemma PipelineByPath(files: Files)
    ensures Pipeline(files).Keys == files.Keys
    ensures forall p <- files :: BecomesByPath(p, files[p], Pipeline(files)[p])
  {
    hide Pipeline, PatchedFile, BecomesByPath;
    PipelineIsPointwise(files);
    forall p | p in files ensures BecomesByPath(p, files[p], Pipeline(files)[p]) {
      FileByPath(p, files[p]);
    }
  }

  lemma FileByPath(p: Path, text: string)
    ensures BecomesByPath(p, text, PatchedFile(p, text))
  {
    hide PomPatched, SourcesJarPatched, Log4jPatched, Rewrite, Contains, Appended, IsServiceGradle;
    ServicesAre(p);
    PathsApart(p);
    GradleAppended(text);
  }

  lemma PatchedFileTwice(p: Path, text: string)
    ensures PatchedFile(p, PatchedFile(p, text)) == PatchedFile(p, text)
  {
    hide PomPatched, SourcesJarPatched, Log4jPatched, Rewrite, IsServiceGradle, IsConfigYaml;
    hide PomPath, ModuleCommonPath;
    PomPatchedTwice(text);
    GradlePatchedTwice(text);
    SecondPass(EurekaPort, text);
  }

  /** Running the pipeline a second time changes no file of any tree. */
  lemma PipelineTwice(files: Files)
    ensures Pipeline(Pipeline(files)) == Pipeline(files)
  {
    hide Pipeline, PatchedFile;
    PipelineIsPointwise(files);
    PipelineIsPointwise(Pipeline(files));
    forall p | p in files
      ensures Pipeline(Pipeline(files))[p] == Pipeline(files)[p]
    {
      PatchedFileTwice(p, files[p]);
    }
  }

  /**
    Which files a Clone starts from. Over an existing checkout it neither fetches nor depends on
    anything else; anew it depends on nothing that was there, keeps what a failed checkout left, and
    leaves no file when there is no directory.
  */
  lemma CloneStartsFrom(files: Files, clean: bool, mkdir: Option<string>, checkout: Checkout)
    ensures var after := Cloned(files, clean, mkdir, checkout);
      && (files != map[] && !clean ==> after.Keys == files.Keys && forall p <- files :: BecomesByPath(p, files[p], after[p]))
      && (files == map[] || clean ==>
            && (mkdir.Some? ==> after == map[])
            && (mkdir.None? && checkout.failure.Some? ==> after == checkout.files)
            && (mkdir.None? && checkout.failure.None? ==>
                  && after.Keys == checkout.files.Keys
                  && forall p <- checkout.files :: BecomesByPath(p, checkout.files[p], after[p])))
  {
    hide Pipeline, BecomesByPath;
    PipelineByPath(files);
    PipelineByPath(checkout.files);
  }

  /**
    Clicking Clone again after a Clone that ended without an error leaves every file as it is,
    whatever a fresh checkout would have brought.
  */
  lemma ReclickChangesNothing(files: Files, clean: bool, checkout: Checkout, again: Checkout, mkdir: Option<string>)
    requires checkout.failure.None?
    ensures var once := Cloned(files, clean, None, checkout);
      once != map[] ==> Cloned(once, false, mkdir, again) == once
  {
    hide Pipeline;
    PipelineTwice(files);
    PipelineTwice(checkout.files);
  }

  /** After any Clone without an error, no YAML file of the central configuration names the old port. */
  lemma NoOldPortAfterClone(files: Files, clean: bool, checkout: Checkout)
    requires checkout.failure.None?
    ensures var after := Cloned(files, clean, None, checkout);
      forall p <- after :: IsConfigYaml(p) ==> !Contains(after[p], ":8761/eureka")
  {
    hide Contains, Pipeline, PatchedFile;
    var source := if files != map[] && !clean then files else checkout.files;
    PipelineIsPointwise(source);
    forall p | p in source && IsConfigYaml(p)
      ensures !Contains(PatchedFile(p, source[p]), EUREKA_OLD)
    {
      ConfigYamlFile(p, source[p]);
      NoOldAddressLeft(source[p]);
    }
  }

  lemma ConfigYamlFile(p: Path, text: string)
    requires IsConfigYaml(p)
    ensures PatchedFile(p, text) == Rewrite(EurekaPort, text)
  {
    hide PomPatched, SourcesJarPatched, Log4jPatched, Rewrite;
    hide PomPath, ModuleCommonPath, IsServiceGradle, IsConfigYaml;
    PathsApart(p);
  }

  // What the walk does to one file: every script tag states its encoding behind its name and says
  // the rest as before, and nothing outside the tags changes.
  ghost predicate ScriptsBecome(text: string, after: string) {
    var tags, patched := Matches(JdbcEncoding, text), Matches(JdbcEncoding, after);
    && |patched| == |tags|
    && text == Weave(Gaps(JdbcEncoding, text), tags) && after == Weave(Gaps(JdbcEncoding, text), patched)
    && (forall k | 0 <= k < |tags| :: ScriptBecomes(tags[k], patched[k]) && Contains(patched[k], "encoding="))
  }

  // A regular XML file outside `.git` and `node_modules`.
  predicate Visited(p: Path) {
    && p != [] && EndsWith(p[|p| - 1], ".xml")
    && forall k | 0 <= k < |p| - 1 :: p[k] != ".git" && p[k] != "node_modules"
  }

  lemma VisitedIs(p: Path)
    ensures Visited(p) <==> IsScriptXml(p)
  {
    if p != [] {
      var way := p[..|p| - 1];
      assert forall k | 0 <= k < |way| :: way[k] == p[k] && way[k] in way;
    }
  }

  /**
    After the walk every script tag of every visited XML file states its encoding and says the rest
    as before, no other text and no other file is changed, and a second walk changes nothing.
  */
  lemma ScriptsAfterWalk(files: Files)
    ensures var after := JdbcStep(files);
      && after.Keys == files.Keys
      && (forall p <- files :: if Visited(p) then ScriptsBecome(files[p], after[p]) else after[p] == files[p])
      && JdbcStep(after) == after
  {
    hide Contains, Rewrite, Matches, Gaps, Weave, ScriptBecomes, IsScriptXml, ScriptsBecome, Visited;
    forall p | p in files
      ensures var out := JdbcFile(p, files[p]);
        && (if Visited(p) then ScriptsBecome(files[p], out) else out == files[p])
        && JdbcFile(p, out) == out
    {
      VisitedIs(p);
      EveryScriptHasEncoding(files[p]);
      ScriptsChange(files[p]);
    }
  }

  lemma ScriptsChange(text: string)
    ensures ScriptsBecome(text, Rewrite(JdbcEncoding, text))
  {
    hide Contains, Rewrite, Matches, Gaps, Weave, ScriptBecomes;
    EveryScriptHasEncoding(text);
    ScriptsKeepTheRest(text);
    var after := Rewrite(JdbcEncoding, text);
    assert forall k | 0 <= k < |Matches(JdbcEncoding, after)| :: Matches(JdbcEncoding, after)[k] in Matches(JdbcEncoding, after);
  }
}
