/** What a foreground argv is read as, in plain terms: what is peeled, which agent a script is, which options take the
    next token, what a remote session shows (crates/core/src/command.rs). Every name here is written out. */
module ArgvLaws {
  import opened Prelude
  import opened Argv

  // ----- text helpers -----

  lemma {:induction false} FirstAt(s: string, c: char, k: nat)
    requires k < |s| && s[k] == c && forall j :: 0 <= j < k ==> s[j] != c
    ensures FirstIndex(s, c) == k
  {
  }

  lemma {:induction false} PastLastSlash(dir: string, base: string)
    requires !Has(base, '/')
    ensures AfterLast(dir + "/" + base, '/') == base
  {
    var s := dir + "/" + base;
    if base == "" {
      assert s[|s| - 1] == '/';
    } else {
      assert base[|base| - 1] != '/' && !Has(base[..|base| - 1], '/');
      PastLastSlash(dir, base[..|base| - 1]);
      assert s[..|s| - 1] == dir + "/" + base[..|base| - 1];
    }
  }

  /** A program's name is the last segment of its path. */
  lemma BasenameOfPath(dir: string, base: string)
    requires base != "" && !Has(base, '/')
    ensures Basename(dir + "/" + base) == base && Basename(base) == base
  {
    var s := dir + "/" + base;
    assert s[|s| - 1] == base[|base| - 1];
    PastLastSlash(dir, base);
    BasenameOfSegment(base);
  }

  // ----- wrappers and assignments -----

  /** An identifier, an equals sign and anything else. */
  lemma AssignmentIs(name: string, value: string)
    requires name != ""
    requires forall k :: 0 <= k < |name| ==>
               'a' <= name[k] <= 'z' || 'A' <= name[k] <= 'Z' || '0' <= name[k] <= '9' || name[k] == '_'
    ensures IsEnvAssignment(name + "=" + value) && Peels(name + "=" + value)
  {
    var s := name + "=" + value;
    assert s[|name|] == '=';
    FirstAt(s, '=', |name|);
    assert forall k :: 0 <= k < |name| ==> s[k] == name[k];
  }

  /** Nothing without an equals sign is one, nor anything that starts with it. */
  lemma NoAssignment(s: string)
    requires !Has(s, '=') || s[0] == '='
    ensures !IsEnvAssignment(s)
  {
  }

  /** What is peeled: assignments, and the seven wrappers under any path. */
  lemma PeelsExactly(dir: string, base: string)
    requires base != "" && !Has(base, '/') && !Has(base, '=')
    ensures Peels(base) <==> base in {"sudo", "doas", "env", "time", "nice", "command", "exec"}
    ensures !Has(dir, '=') ==> (Peels(dir + "/" + base) <==> Peels(base))
  {
    hide Basename, IsEnvAssignment;
    BasenameOfPath(dir, base);
    NoAssignment(base);
    if !Has(dir, '=') {
      assert !Has(dir + "/" + base, '=');
      NoAssignment(dir + "/" + base);
    }
  }

  lemma {:induction false} PeelCountIs(prefix: seq<string>, rest: seq<string>)
    requires forall k :: 0 <= k < |prefix| ==> Peels(prefix[k])
    requires rest != [] && !Peels(rest[0])
    ensures PeelCount(prefix + rest) == |prefix|
  {
    if prefix == [] {
      assert prefix + rest == rest;
    } else {
      assert (prefix + rest)[1..] == prefix[1..] + rest;
      PeelCountIs(prefix[1..], rest);
    }
  }

  /** Whatever is peeled in front of a command, the command is read as without it - unless an option comes first,
      which is the wrapper's own: then nothing is peeled. */
  lemma PrefixIsPeeled(prefix: seq<string>, command: seq<string>)
    requires forall k :: 0 <= k < |prefix| ==> Peels(prefix[k])
    requires command != [] && !Peels(command[0])
    ensures !IsOptionArg(command[0]) ==>
              Peeled(prefix + command) == command && EffectiveProgram(prefix + command) == EffectiveProgram(command)
    ensures IsOptionArg(command[0]) ==> Peeled(prefix + command) == prefix + command
  {
    PeelCountIs(prefix, command);
    PeelCountIs([], command);
    assert [] + command == command && (prefix + command)[|prefix|..] == command;
    assert prefix == [] ==> prefix + command == command;
  }

  /** An option is a dash and more: a dash alone is none. */
  lemma OptionIs(s: string)
    ensures IsOptionArg(s) <==> |s| >= 2 && s[0] == '-'
  {
    assert |s| == 1 && s[0] == '-' ==> s == "-";
    assert |s| >= 1 ==> s[..1] == [s[0]];
  }

  // ----- the program behind a command -----

  /** A script's extension goes, if it is one of the three. */
  lemma ScriptStemIs(stem: string, s: string)
    requires |s| < 4 || s[|s| - 3..] != ".js"
    requires |s| < 4 || s[|s| - 4..] !in {".mjs", ".cjs"}
    ensures ScriptStem(stem + ".js") == ScriptStem(stem + ".mjs") == ScriptStem(stem + ".cjs") == stem
    ensures |s| >= 4 ==> ScriptStem(s) == s
  {
    var j, m, c := stem + ".js", stem + ".mjs", stem + ".cjs";
    assert j[|stem|..] == ".js" && m[|stem|..] == ".mjs" && c[|stem|..] == ".cjs";
    assert m[|m| - 3..] == "mjs" && c[|c| - 3..] == "cjs" && "mjs"[0] != ".js"[0] && "cjs"[0] != ".js"[0];
    assert c[|c| - 4..] == ".cjs" && ".cjs"[1] != ".mjs"[1];
  }

  lemma {:induction false} OptionsArePassed(command: seq<string>, i: nat, n: nat)
    requires i <= n < |command| && !IsOptionArg(command[n])
    requires forall k :: i <= k < n ==> IsOptionArg(command[k])
    ensures FirstNonOption(command, i) == n
    decreases n - i
  {
    if i < n {
      OptionsArePassed(command, i + 1, n);
    }
  }

  const AGENTS: set<string> := {"claude", "codex", "opencode", "pi", "omp"}

  lemma HostedArgv(runtime: string, options: seq<string>, script: string, rest: seq<string>)
    requires !IsOptionArg(script) && forall k :: 0 <= k < |options| ==> IsOptionArg(options[k])
    ensures var argv, at := [runtime] + options + [script] + rest, 1 + |options|;
            && argv[0] == runtime && at < |argv| && argv[at] == script && argv[at..] == [script] + rest
            && FirstNonOption(argv, 1) == at
  {
    var argv, at := [runtime] + options + [script] + rest, 1 + |options|;
    assert forall k :: 1 <= k < at ==> argv[k] == options[k - 1];
    OptionsArePassed(argv, 1, at);
  }

  lemma HostedBy(runtime: string, options: seq<string>, script: string, rest: seq<string>)
    requires !Peels(runtime) && ProgramName(runtime) in JS_RUNTIMES
    requires ScriptStem(Basename(script)) in AGENT_NAMES && !IsOptionArg(script)
    requires forall k :: 0 <= k < |options| ==> IsOptionArg(options[k])
    ensures var argv := [runtime] + options + [script] + rest;
            EffectiveProgram(argv) == ([script] + rest, ScriptStem(Basename(script)))
  {
    hide EffectiveProgram, ScriptStem, Basename, ProgramName, Peels;
    var argv := [runtime] + options + [script] + rest;
    HostedArgv(runtime, options, script, rest);
    UnpeeledIs(argv);
    HostedProgramIs(argv, 1 + |options|);
  }

  lemma HostedProgramIs(argv: seq<string>, at: nat)
    requires argv != [] && Peeled(argv) == argv && ProgramName(argv[0]) in JS_RUNTIMES
    requires at < |argv| && FirstNonOption(argv, 1) == at && ScriptStem(Basename(argv[at])) in AGENT_NAMES
    ensures EffectiveProgram(argv) == (argv[at..], ScriptStem(Basename(argv[at])))
  {
  }

  lemma UnpeeledIs(argv: seq<string>)
    requires argv != [] && !Peels(argv[0])
    ensures Peeled(argv) == argv
  {
  }

  lemma RuntimeHasPlainText(runtime: string)
    requires runtime in {"node", "bun"}
    ensures runtime != "" && runtime[0] != '-' && !Has(runtime, '/') && !Has(runtime, '=')
    ensures runtime !in {"sudo", "doas", "env", "time", "nice", "command", "exec"} && runtime in JS_RUNTIMES
  {
  }

  lemma PlainTextIsName(name: string)
    requires name != "" && name[0] != '-' && !Has(name, '/') && !Has(name, '=')
    requires name !in {"sudo", "doas", "env", "time", "nice", "command", "exec"}
    ensures !Peels(name) && ProgramName(name) == name
  {
    BasenameOfPath("", name);
    PeelsExactly("", name);
    DashlessIsKept(name);
  }

  /** A JavaScript runtime that runs an agent's script is the agent: by whatever path, past whatever options. */
  lemma HostedAgentIsNamed(runtime: string, options: seq<string>, script: string, rest: seq<string>)
    requires runtime in {"node", "bun"} && ScriptStem(Basename(script)) in AGENTS && !IsOptionArg(script)
    requires forall k :: 0 <= k < |options| ==> IsOptionArg(options[k])
    ensures var argv := [runtime] + options + [script] + rest;
            EffectiveProgram(argv) == ([script] + rest, ScriptStem(Basename(script)))
  {
    RuntimeHasPlainText(runtime);
    PlainTextIsName(runtime);
    HostedBy(runtime, options, script, rest);
  }

  /** Any other program is named by its own path. */
  lemma ProgramIsNamed(dir: string, name: string, args: seq<string>)
    requires IsPlainName(name)
    ensures EffectiveProgram([name] + args) == ([name] + args, name)
    ensures !Has(dir, '=') && (dir == "" || dir[0] != '-') ==>
              EffectiveProgram([dir + "/" + name] + args) == ([dir + "/" + name] + args, name)
  {
    BasenameOfPath(dir, name);
    PeelsExactly(dir, name);
    DashlessIsKept(name);
    PlainProgramIs(name, name, args);
    if !Has(dir, '=') && (dir == "" || dir[0] != '-') {
      PlainProgramIs(dir + "/" + name, name, args);
    }
  }

  /** A login shell's dash is no part of its name. */
  lemma LoginShellIsNamed(name: string, args: seq<string>)
    requires IsPlainName(name)
    ensures EffectiveProgram(["-" + name] + args) == (["-" + name] + args, name)
  {
    var login := "-" + name;
    assert login[1..] == name && login[0] == '-' && !Has(login, '/') && !Has(login, '=');
    BasenameOfPath("", login);
    PeelsExactly("", login);
    DashesAreNoWrapper(login);
    DashlessIsKept(name);
    assert TrimDashes(login) == name;
    PlainProgramIs(login, name, args);
  }

  lemma DashesAreNoWrapper(s: string)
    requires s != "" && s[0] == '-'
    ensures s !in {"sudo", "doas", "env", "time", "nice", "command", "exec"}
  {
  }

  lemma DashlessIsKept(name: string)
    requires name != "" && name[0] != '-'
    ensures TrimDashes(name) == name
  {
  }

  /** A program's name that is nothing special: no path, no dash, no assignment, no wrapper, no JavaScript runtime. */
  predicate IsPlainName(name: string) {
    && name != "" && name[0] != '-' && !Has(name, '/') && !Has(name, '=') && name !in {"node", "bun"}
    && name !in {"sudo", "doas", "env", "time", "nice", "command", "exec"}
  }

  lemma PlainProgramIs(program: string, name: string, args: seq<string>)
    requires !Peels(program) && ProgramName(program) == name && name !in {"node", "bun"}
    ensures EffectiveProgram([program] + args) == ([program] + args, name)
  {
    UnpeeledIs([program] + args);
  }

  // ----- options of a remote launcher -----

  /** A cluster of short options takes the next token exactly when its first letter that has a value is its last: with
      more behind it, that is the value. */
  lemma {:induction false} ClusterTakesNext(o: OptionTable, flags: string, letter: char, attached: string)
    requires forall k :: 0 <= k < |flags| ==> flags[k] !in o.letters
    requires letter in o.letters
    ensures TakesNext(o, flags + [letter] + attached) <==> attached == ""
    ensures !TakesNext(o, flags)
  {
    var all := flags + [letter] + attached;
    if flags == "" {
      assert all == [letter] + attached;
    } else {
      assert all[1..] == flags[1..] + [letter] + attached;
      ClusterTakesNext(o, flags[1..], letter, attached);
    }
  }

  /** The letters that have one, for ssh and the like; autossh has one more. */
  lemma ValueLetters(exe: string, c: char)
    ensures c in OptionsOf(exe).letters <==>
              c in "BbcDEeFIiJLlmOopQRSWw" || (exe == "autossh" && c == 'M')
  {
  }

  /** So a short option is two tokens wide or one; a long one only if it is listed. */
  lemma WidthIs(exe: string, flags: string, letter: char, attached: string)
    requires forall k :: 0 <= k < |flags| ==> flags[k] !in OptionsOf(exe).letters && flags[k] != '-'
    requires letter in OptionsOf(exe).letters
    ensures OptionWidth(OptionsOf(exe), "-" + flags + [letter] + attached) == if attached == "" then 2 else 1
    ensures flags != "" ==> OptionWidth(OptionsOf(exe), "-" + flags) == 1
  {
    var o, cluster := OptionsOf(exe), "-" + flags + [letter] + attached;
    ClusterTakesNext(o, flags, letter, attached);
    assert cluster[1..] == flags + [letter] + attached && ("-" + flags)[1..] == flags;
    OptionIs(cluster);
    OptionIs("-" + flags);
    assert letter != '-';
    assert cluster[1] != '-' && (flags != "" ==> ("-" + flags)[1] != '-');
  }

  lemma LongWidthIs(exe: string, name: string)
    requires |name| >= 3 && name[..2] == "--"
    ensures OptionWidth(OptionsOf(exe), name) == if name in REMOTE_VALUE_LONG_OPTS then 2 else 1
    ensures "--port" in REMOTE_VALUE_LONG_OPTS && "--ssh" in REMOTE_VALUE_LONG_OPTS
  {
    assert name[0] == '-';
    OptionIs(name);
  }

  // ----- what a remote session shows -----

  lemma HostIsFirst(o: OptionTable, host: string, words: seq<string>, positionalOnly: bool)
    requires positionalOnly || (host != "-" && !IsOptionArg(host))
    requires positionalOnly || words == [] || (words[0] != "-" && !IsOptionArg(words[0]))
    ensures Destination(o, [host] + words, None, positionalOnly) == (Some(host), words != [])
  {
    assert ([host] + words)[1..] == words;
    OptionIs(host);
    if words != [] {
      OptionIs(words[0]);
      assert words[0] == "--" ==> IsOptionArg(words[0]);
    }
    assert host == "--" ==> IsOptionArg(host);
  }

  lemma HostIsShown(exe: string, host: string)
    requires exe != "" && host != "" && PlainHost(host) && !StartsWith(host, SCHEME)
    ensures Shown(exe, Some(host)) == exe + " " + host
  {
    HostAloneIsShown(Spelling(false, None, Plain(host), None, None));
  }

  /** A host and nothing after it is a session; with words after it, a command runs there - but for mosh-client, whose
      second word is a port. The host is shown behind the launcher. */
  lemma SessionOrCommand(exe: string, host: string, words: seq<string>)
    requires exe != "" && host != "" && PlainHost(host) && !IsOptionArg(host) && host != "-"
    requires !StartsWith(host, SCHEME)
    requires words != [] ==> words[0] != "-" && !IsOptionArg(words[0])
    ensures RemoteDisplay(exe, [host] + words) == (exe + " " + host, words != [] && exe != "mosh-client")
    ensures RemoteDisplay(exe, []) == (exe, false)
  {
    HostIsFirst(OptionsOf(exe), host, words, false);
    HostIsShown(exe, host);
  }

  /** After `--` every word is one, dashes or not; a dash alone is passed over. */
  lemma DoubleDashEndsOptions(exe: string, host: string, words: seq<string>)
    requires exe != "" && host != "" && PlainHost(host) && !StartsWith(host, SCHEME)
    ensures RemoteDisplay(exe, ["--"] + ([host] + words)) == (exe + " " + host, words != [] && exe != "mosh-client")
    ensures RemoteDisplay(exe, ["-"] + words) == RemoteDisplay(exe, words)
  {
    HostIsFirst(OptionsOf(exe), host, words, true);
    HostIsShown(exe, host);
    assert (["--"] + ([host] + words))[1..] == [host] + words;
    assert (["-"] + words)[1..] == words;
  }
}
