/**
  The environment a child process is started with: a list of KEY=VALUE entries of which the last one
  for a key counts. The launcher builds it from its own environment, the entries for the job's port,
  and, for a dependency service, a rebuilt list that must not pass the job's port on.
*/
module Environment {
  import opened Wrappers
  import opened Text

  type Env = seq<string>

  // What the child sees for a key: the value of the last entry with that key.
  function Effective(env: Env, key: string): Option<string> {
    if env == [] then None
    else
      var last := env[|env| - 1];
      if StartsWith(last, key + "=") then Some(last[|key| + 1..]) else Effective(env[..|env| - 1], key)
  }

  predicate HasAnyPrefix(entry: string, prefixes: seq<string>) {
    exists i | 0 <= i < |prefixes| :: StartsWith(entry, prefixes[i])
  }

  function Without(env: Env, prefixes: seq<string>): Env {
    if env == [] then []
    else
      Without(env[..|env| - 1], prefixes)
      + (if HasAnyPrefix(env[|env| - 1], prefixes) then [] else [env[|env| - 1]])
  }

  /** exec.Cmd, as far as its environment goes; None stands for the launcher's own environment. */
  class Cmd {
    var env: Option<Env>

    constructor ()
      ensures env == None
    {
      env := None;
    }

    function Base(os: Env): Env
      reads this
    {
      if env.Some? then env.value else os
    }

    method AppendEnv(os: Env, kv: Env)
      modifies this
      ensures env == Some(old(Base(os)) + kv)
    {
      if env.None? {
        env := Some(os);
      }
      env := Some(env.value + kv);
    }

    method SetEnvWithout(os: Env, dropPrefixes: seq<string>, kv: Env)
      modifies this
      ensures env == Some(Without(old(Base(os)), dropPrefixes) + kv)
    {
      var base := if env.Some? then env.value else os;
      var newEnv: Env := [];
      var i := 0;
      while i < |base|
        invariant 0 <= i <= |base|
        invariant newEnv == Without(base[..i], dropPrefixes)
      {
        var drop := false;
        var k := 0;
        while k < |dropPrefixes|
          invariant 0 <= k <= |dropPrefixes| && !drop
          invariant forall n | 0 <= n < k :: !StartsWith(base[i], dropPrefixes[n])
        {
          if StartsWith(base[i], dropPrefixes[k]) {
            drop := true;
            break;
          }
          k := k + 1;
        }
        assert base[..i + 1][..i] == base[..i];
        if !drop {
          newEnv := newEnv + [base[i]];
        }
        i := i + 1;
      }
      assert base[..i] == base;
      env := Some(newEnv + kv);
    }
  }

  // ---------------------------------------------------------------- the entries the runner writes

  datatype Settings = Settings(
    javaHome: string,
    binPath: string,        // filepath.Join(javaHome, "bin")
    separator: string,
    osPath: string,
    jvmOptions: Option<string>)  // JAVA_TOOL_OPTIONS, on Windows only

  function PortEntries(first: string, second: string, port: int): Env {
    if port > 0 then [first + "=" + Itoa(port), second + "=" + Itoa(port)] else []
  }

  // The entries `command` adds.
  function CommandExtra(s: Settings, port: int): Env {
    (if s.javaHome != "" then ["JAVA_HOME=" + s.javaHome, "PATH=" + s.binPath + s.separator + s.osPath] else [])
    + PortEntries("PORT", "SERVER_PORT", port)
    + (if s.jvmOptions.Some? then ["JAVA_TOOL_OPTIONS=" + s.jvmOptions.value] else [])
  }

  const DEP_DROPS: seq<string> := ["SERVER_PORT=", "PORT="]

  function DependencyExtra(depPort: int, runEnv: Env): Env {
    PortEntries("SERVER_PORT", "PORT", depPort) + runEnv
  }

  // The command of a job, and the same command started as a dependency service.
  method CommandFor(os: Env, s: Settings, port: int) returns (cmd: Cmd)
    ensures fresh(cmd)
    ensures cmd.Base(os) == os + CommandExtra(s, port)
  {
    cmd := new Cmd();
    var extra := CommandExtra(s, port);
    if |extra| > 0 {
      cmd.env := Some(os + extra);
    } else {
      assert os + extra == os;
    }
  }

  method DependencyFor(os: Env, s: Settings, jobPort: int, depPort: int, runEnv: Env) returns (cmd: Cmd)
    ensures fresh(cmd)
    ensures cmd.env == Some(Without(os + CommandExtra(s, jobPort), DEP_DROPS) + DependencyExtra(depPort, runEnv))
  {
    cmd := CommandFor(os, s, jobPort);
    var kv: Env := [];
    if depPort > 0 {
      kv := ["SERVER_PORT=" + Itoa(depPort), "PORT=" + Itoa(depPort)];
    }
    assert "SERVER_PORT" + "=" == "SERVER_PORT=" && "PORT" + "=" == "PORT=";
    assert kv == PortEntries("SERVER_PORT", "PORT", depPort);
    kv := kv + runEnv;
    cmd.SetEnvWithout(os, ["SERVER_PORT=", "PORT="], kv);
  }

  // ---------------------------------------------------------------- what a child sees

  lemma {:induction false} EffectiveConcat(a: Env, b: Env, key: string)
    ensures Effective(a + b, key) == if Effective(b, key).Some? then Effective(b, key) else Effective(a, key)
  {
    if b == [] {
      assert a + b == a;
    } else {
      assert (a + b)[..|a + b| - 1] == a + b[..|b| - 1];
      EffectiveConcat(a, b[..|b| - 1], key);
    }
  }

  // Two keys without '=' name the same entry only if they are the same.
  lemma SameKey(entry: string, a: string, b: string)
    requires '=' !in a && '=' !in b
    requires StartsWith(entry, a + "=") && StartsWith(entry, b + "=")
    ensures a == b
  {
    KeyEnds(entry, a);
    KeyEnds(entry, b);
    assert a == entry[..|a|] && b == entry[..|b|];
  }

  lemma KeyEnds(entry: string, key: string)
    requires '=' !in key && StartsWith(entry, key + "=")
    ensures IndexOf(entry, '=') == |key| && entry[..|key|] == key
  {
    PrefixChars(entry, key + "=");
    assert entry == key + ['='] + entry[|key| + 1..];
    IndexOfSkips(key, '=', entry[|key| + 1..]);
  }

  predicate Keys(prefixes: seq<string>, keys: seq<string>) {
    |prefixes| == |keys| && forall i | 0 <= i < |keys| :: '=' !in keys[i] && prefixes[i] == keys[i] + "="
  }

  /** Dropping prefixes that end keys removes exactly those keys and leaves every other one as it was. */
  lemma {:induction false} EffectiveWithout(env: Env, prefixes: seq<string>, keys: seq<string>, key: string)
    requires Keys(prefixes, keys) && '=' !in key
    ensures Effective(Without(env, prefixes), key) == if key in keys then None else Effective(env, key)
  {
    hide StartsWith;
    if env == [] {
    } else {
      var rest, last := env[..|env| - 1], env[|env| - 1];
      EffectiveWithout(rest, prefixes, keys, key);
      if HasAnyPrefix(last, prefixes) {
        var i :| 0 <= i < |prefixes| && StartsWith(last, prefixes[i]);
        if StartsWith(last, key + "=") {
          SameKey(last, key, keys[i]);
        }
        assert Without(env, prefixes) == Without(rest, prefixes) + [] == Without(rest, prefixes);
      } else {
        var kept := Without(rest, prefixes) + [last];
        assert kept[..|kept| - 1] == Without(rest, prefixes);
        if k :| 0 <= k < |keys| && keys[k] == key {
          assert !StartsWith(last, prefixes[k]);
        }
      }
    }
  }

  lemma EntryFor(name: string, value: string, key: string)
    requires '=' !in name && '=' !in key
    ensures StartsWith(name + "=" + value, key + "=") <==> name == key
    ensures (name + "=" + value)[|name| + 1..] == value
  {
    var entry := name + "=" + value;
    assert entry[..|name| + 1] == name + "=";
    if StartsWith(entry, key + "=") {
      SameKey(entry, name, key);
    }
  }

  lemma PortEntriesSeen(first: string, second: string, port: int, key: string)
    requires '=' !in first && '=' !in second && '=' !in key
    ensures Effective(PortEntries(first, second, port), key) ==
      if port > 0 && (key == first || key == second) then Some(Itoa(port)) else None
  {
    hide StartsWith;
    if port > 0 {
      EntryFor(first, Itoa(port), key);
      EntryFor(second, Itoa(port), key);
      OneEntry(first + "=" + Itoa(port), key);
      OneEntry(second + "=" + Itoa(port), key);
      var a, b := [first + "=" + Itoa(port)], [second + "=" + Itoa(port)];
      assert PortEntries(first, second, port) == a + b;
      EffectiveConcat(a, b, key);
    }
  }

  lemma OneEntry(entry: string, key: string)
    ensures Effective([entry], key) == if StartsWith(entry, key + "=") then Some(entry[|key| + 1..]) else None
  {
    assert [entry][..0] == [];
  }

  /**
    Isolation: a dependency service sees its own port, or none, under both names, whatever port the
    job has and whatever the launcher's own environment says, unless the target's run environment
    sets the name itself; every other name means to it what it means to the job's own command,
    again unless the run environment sets it.
  */
  lemma DependencySees(os: Env, s: Settings, jobPort: int, depPort: int, runEnv: Env, key: string)
    requires '=' !in key
    ensures var env := Without(os + CommandExtra(s, jobPort), DEP_DROPS) + DependencyExtra(depPort, runEnv);
      Effective(env, key) ==
        if Effective(runEnv, key).Some? then Effective(runEnv, key)
        else if key == "SERVER_PORT" || key == "PORT" then (if depPort > 0 then Some(Itoa(depPort)) else None)
        else Effective(os + CommandExtra(s, jobPort), key)
  {
    hide CommandExtra, PortEntries, Effective, Without;
    var base := os + CommandExtra(s, jobPort);
    var ports := PortEntries("SERVER_PORT", "PORT", depPort);
    EffectiveConcat(Without(base, DEP_DROPS), DependencyExtra(depPort, runEnv), key);
    EffectiveConcat(ports, runEnv, key);
    PortEntriesSeen("SERVER_PORT", "PORT", depPort, key);
    EffectiveWithout(base, DEP_DROPS, ["SERVER_PORT", "PORT"], key);
  }

  // The entries added behind those of `command` for the final process: where the page's dev server
  // forwards requests to, if there is a backend, and the target's run environment.
  function FinalExtra(backendPort: int, runEnv: Env): Env {
    ProxyEntries(backendPort) + runEnv
  }

  function ProxyEntries(backendPort: int): Env {
    if backendPort > 0 then
      ["VITE_APP_API_PROXY_TARGET" + "=" + ("http://localhost:" + Itoa(backendPort))]
      + ["VITE_APP_EGOV_CONTEXT_URL" + "=" + ("localhost:" + Itoa(backendPort))]
    else []
  }

  method FinalFor(os: Env, s: Settings, port: int, backendPort: int, runEnv: Env) returns (cmd: Cmd)
    ensures fresh(cmd)
    ensures cmd.Base(os) == os + CommandExtra(s, port) + FinalExtra(backendPort, runEnv)
  {
    cmd := CommandFor(os, s, port);
    ghost var base := os + CommandExtra(s, port);
    if backendPort > 0 {
      cmd.AppendEnv(os, ProxyEntries(backendPort));
    }
    assert cmd.Base(os) == base + ProxyEntries(backendPort);
    if |runEnv| > 0 {
      cmd.AppendEnv(os, runEnv);
    }
    assert base + FinalExtra(backendPort, runEnv) == base + ProxyEntries(backendPort) + runEnv;
  }

  lemma NamedEntry(name: string, value: string, key: string)
    requires '=' !in name && '=' !in key && name != key
    ensures Effective([name + "=" + value], key) == None
  {
    hide StartsWith;
    EntryFor(name, value, key);
    OneEntry(name + "=" + value, key);
  }

  lemma ProxyEntriesSeen(backendPort: int, key: string)
    requires key == "SERVER_PORT" || key == "PORT"
    ensures Effective(ProxyEntries(backendPort), key) == None
  {
    hide StartsWith;
    if backendPort > 0 {
      var target, context := "http://localhost:" + Itoa(backendPort), "localhost:" + Itoa(backendPort);
      NamedEntry("VITE_APP_API_PROXY_TARGET", target, key);
      NamedEntry("VITE_APP_EGOV_CONTEXT_URL", context, key);
      EffectiveConcat(["VITE_APP_API_PROXY_TARGET" + "=" + target], ["VITE_APP_EGOV_CONTEXT_URL" + "=" + context], key);
    }
  }

  /**
    The job's own process does see the job's port, with or without a backend to forward to, unless
    its run environment sets the name itself.
  */
  lemma FinalSees(os: Env, s: Settings, port: int, backendPort: int, runEnv: Env, key: string)
    requires port > 0 && (key == "SERVER_PORT" || key == "PORT")
    ensures Effective(os + CommandExtra(s, port) + FinalExtra(backendPort, runEnv), key) ==
      if Effective(runEnv, key).Some? then Effective(runEnv, key) else Some(Itoa(port))
  {
    hide Effective, ProxyEntries, CommandExtra;
    EffectiveConcat(os + CommandExtra(s, port), FinalExtra(backendPort, runEnv), key);
    EffectiveConcat(ProxyEntries(backendPort), runEnv, key);
    ProxyEntriesSeen(backendPort, key);
    EffectiveConcat(os, CommandExtra(s, port), key);
    CommandSees(s, port, key);
  }

  lemma CommandSees(s: Settings, port: int, key: string)
    requires port > 0 && (key == "SERVER_PORT" || key == "PORT")
    ensures Effective(CommandExtra(s, port), key) == Some(Itoa(port))
  {
    hide Effective, PortEntries, StartsWith;
    var home: Env :=
      if s.javaHome != "" then ["JAVA_HOME=" + s.javaHome, "PATH=" + s.binPath + s.separator + s.osPath] else [];
    var jvm: Env := if s.jvmOptions.Some? then ["JAVA_TOOL_OPTIONS=" + s.jvmOptions.value] else [];
    var ports := PortEntries("PORT", "SERVER_PORT", port);
    assert CommandExtra(s, port) == home + ports + jvm;
    EffectiveConcat(home + ports, jvm, key);
    EffectiveConcat(home, ports, key);
    PortEntriesSeen("PORT", "SERVER_PORT", port, key);
    JvmEntry(s, key);
  }

  lemma JvmEntry(s: Settings, key: string)
    requires key == "SERVER_PORT" || key == "PORT"
    ensures Effective(if s.jvmOptions.Some? then ["JAVA_TOOL_OPTIONS=" + s.jvmOptions.value] else [], key) == None
  {
    if s.jvmOptions.Some? {
      EntryFor("JAVA_TOOL_OPTIONS", s.jvmOptions.value, key);
      assert "JAVA_TOOL_OPTIONS" + "=" == "JAVA_TOOL_OPTIONS=";
    }
  }

  // ---------------------------------------------------------------- every key

  // What the entries of `command` say for a key.
  function CommandSays(s: Settings, port: int, key: string): Option<string> {
    if key == "JAVA_TOOL_OPTIONS" && s.jvmOptions.Some? then s.jvmOptions
    else if (key == "PORT" || key == "SERVER_PORT") && port > 0 then Some(Itoa(port))
    else if key == "JAVA_HOME" && s.javaHome != "" then Some(s.javaHome)
    else if key == "PATH" && s.javaHome != "" then Some(s.binPath + s.separator + s.osPath)
    else None
  }

  lemma NamedSays(name: string, value: string, key: string)
    requires '=' !in name && '=' !in key
    ensures Effective([name + "=" + value], key) == if key == name then Some(value) else None
  {
    hide StartsWith;
    EntryFor(name, value, key);
    OneEntry(name + "=" + value, key);
  }

  lemma HomeSays(s: Settings, key: string)
    requires '=' !in key
    ensures Effective(["JAVA_HOME=" + s.javaHome, "PATH=" + s.binPath + s.separator + s.osPath], key) ==
      if key == "JAVA_HOME" then Some(s.javaHome) else if key == "PATH" then Some(s.binPath + s.separator + s.osPath)
      else None
  {
    hide Effective;
    var home, path := "JAVA_HOME" + "=" + s.javaHome, "PATH" + "=" + (s.binPath + s.separator + s.osPath);
    assert "JAVA_HOME" + "=" == "JAVA_HOME=" && "PATH" + "=" == "PATH=";
    assert path == "PATH=" + s.binPath + s.separator + s.osPath;
    NamedSays("JAVA_HOME", s.javaHome, key);
    NamedSays("PATH", s.binPath + s.separator + s.osPath, key);
    EffectiveConcat([home], [path], key);
    assert [home] + [path] == [home, path];
  }

  lemma NothingSays(key: string)
    ensures Effective([], key) == None
  {
  }

  lemma ExtraSays(s: Settings, port: int, key: string)
    requires '=' !in key
    ensures Effective(CommandExtra(s, port), key) == CommandSays(s, port, key)
  {
    hide Effective, PortEntries;
    var home: Env :=
      if s.javaHome != "" then ["JAVA_HOME=" + s.javaHome, "PATH=" + s.binPath + s.separator + s.osPath] else [];
    var jvm: Env := if s.jvmOptions.Some? then ["JAVA_TOOL_OPTIONS=" + s.jvmOptions.value] else [];
    var ports := PortEntries("PORT", "SERVER_PORT", port);
    NothingSays(key);
    HomeSays(s, key);
    if s.jvmOptions.Some? {
      assert "JAVA_TOOL_OPTIONS" + "=" == "JAVA_TOOL_OPTIONS=";
      NamedSays("JAVA_TOOL_OPTIONS", s.jvmOptions.value, key);
    }
    PortEntriesSeen("PORT", "SERVER_PORT", port, key);
    EffectiveConcat(home + ports, jvm, key);
    EffectiveConcat(home, ports, key);
  }

  // What the forwarding entries say.
  function ProxySays(backendPort: int, key: string): Option<string> {
    if backendPort <= 0 then None
    else if key == "VITE_APP_API_PROXY_TARGET" then Some("http://localhost:" + Itoa(backendPort))
    else if key == "VITE_APP_EGOV_CONTEXT_URL" then Some("localhost:" + Itoa(backendPort))
    else None
  }

  lemma ForwardingSays(backendPort: int, key: string)
    requires '=' !in key
    ensures Effective(ProxyEntries(backendPort), key) == ProxySays(backendPort, key)
  {
    hide StartsWith;
    if backendPort > 0 {
      var target, context := "http://localhost:" + Itoa(backendPort), "localhost:" + Itoa(backendPort);
      NamedSays("VITE_APP_API_PROXY_TARGET", target, key);
      NamedSays("VITE_APP_EGOV_CONTEXT_URL", context, key);
      EffectiveConcat(["VITE_APP_API_PROXY_TARGET" + "=" + target], ["VITE_APP_EGOV_CONTEXT_URL" + "=" + context], key);
    }
  }

  function OrElse(first: Option<string>, second: Option<string>): Option<string> {
    if first.Some? then first else second
  }

  /**
    What the final process sees for every key: what its run environment says, or else where to
    forward requests to, or else what the launcher sets for every command, or else what it has itself.
  */
  lemma FinalSeesEvery(os: Env, s: Settings, port: int, backendPort: int, runEnv: Env, key: string)
    requires '=' !in key
    ensures Effective(os + CommandExtra(s, port) + FinalExtra(backendPort, runEnv), key) ==
      OrElse(Effective(runEnv, key), OrElse(ProxySays(backendPort, key), OrElse(CommandSays(s, port, key), Effective(os, key))))
  {
    hide Effective, ProxyEntries, CommandExtra, CommandSays, ProxySays;
    EffectiveConcat(os + CommandExtra(s, port), FinalExtra(backendPort, runEnv), key);
    EffectiveConcat(ProxyEntries(backendPort), runEnv, key);
    ForwardingSays(backendPort, key);
    EffectiveConcat(os, CommandExtra(s, port), key);
    ExtraSays(s, port, key);
  }
}
