/** Which segments are services and which are not, shape by shape (`segment_is_service` of crates/cli/src/agents.rs). */
module SegmentLaws {
  import opened Prelude
  import opened Segments

  // ----- tokens -----

  lemma {:induction false} UpToIs(s: string, c: char, rest: string)
    requires c !in s
    ensures UpTo(s + [c] + rest, c) == s && UpTo(s, c) == s
  {
    if s == "" {
      assert s + [c] + rest == [c] + rest;
    } else {
      assert s[0] in s && (forall x :: x in s[1..] ==> x in s);
      UpToIs(s[1..], c, rest);
      assert (s + [c] + rest)[1..] == s[1..] + [c] + rest;
    }
  }

  lemma {:induction false} PastLastIs(dir: string, c: char, s: string)
    requires c !in s
    ensures PastLast(dir + [c] + s, c) == s
    decreases |s|
  {
    var all := dir + [c] + s;
    if s == "" {
      assert all[|all| - 1] == c;
    } else {
      var front, last := s[..|s| - 1], s[|s| - 1];
      assert s == front + [last];
      PastLastIs(dir, c, front);
      assert all[|all| - 1] == last && all[..|all| - 1] == dir + [c] + front;
    }
  }

  lemma {:induction false} PastLastOfPlain(c: char, s: string)
    requires c !in s
    ensures PastLast(s, c) == s
    decreases |s|
  {
    if s != "" {
      assert s == s[..|s| - 1] + [s[|s| - 1]];
      PastLastOfPlain(c, s[..|s| - 1]);
    }
  }

  lemma PlainWordIs(name: string)
    requires '/' !in name && '@' !in name
    ensures Word(name) == name
  {
    PastLastOfPlain('/', name);
    UpToIs(name, '@', "");
  }

  /** A token's word is its basename, without a version. */
  lemma WordIs(dir: string, name: string, version: string)
    requires '/' !in name && '@' !in name && '/' !in version
    ensures Word(dir + "/" + name) == name && Word(dir + "/" + name + "@" + version) == name
    ensures Word(name + "@" + version) == name
  {
    PastLastIs(dir, '/', name);
    UpToIs(name, '@', version);
    var versioned := name + "@" + version;
    assert '/' !in versioned;
    PastLastIs(dir, '/', versioned);
    PastLastOfPlain('/', versioned);
    assert dir + "/" + versioned == dir + "/" + name + "@" + version;
  }

  /** What a head is not: an assignment of a lower-case name, a wrapper word, a flag, a number with or without a unit.
      */
  lemma AssignmentsAreSkipped(tb: Tables, name: string, value: string)
    requires name != "" && (name[0] == '_' || 'a' <= name[0] <= 'z')
    requires forall k :: 0 <= k < |name| ==> name[k] == '_' || 'a' <= name[k] <= 'z' || '0' <= name[k] <= '9'
    ensures Skipped(tb, name + "=" + value)
  {
    UpToIs(name, '=', value);
    assert (name + "=" + value)[|name|] == '=';
  }

  lemma NumbersAreSkipped(tb: Tables, digits: string, unit: string)
    requires digits != "" && '0' <= digits[0] <= '9'
    requires forall k :: 0 <= k < |digits| ==> '0' <= digits[k] <= '9' || digits[k] == '.'
    requires unit == "" || (|unit| == 1 && unit[0] in {'s', 'm', 'h', 'd'})
    ensures Skipped(tb, digits + unit)
  {
    var s := digits + unit;
    assert forall k :: 0 <= k < |digits| ==> IsDigit(digits[k]) || digits[k] == '.';
    if unit == "" {
      assert s == digits && s[|s| - 1] == digits[|digits| - 1];
    } else {
      assert s[..|s| - 1] == digits && s[|s| - 1] == unit[0];
    }
    assert IsNumber(s);
  }

  lemma {:induction false} HeadIs(tb: Tables, skipped: seq<string>, head: string, rest: seq<string>)
    requires (forall k :: 0 <= k < |skipped| ==> Skipped(tb, skipped[k])) && !Skipped(tb, head)
    ensures Head(tb, skipped + ([head] + rest)) == Some(|skipped|)
  {
    var t := skipped + ([head] + rest);
    if skipped == [] {
      assert t == [head] + rest;
    } else {
      assert t[1..] == skipped[1..] + ([head] + rest);
      HeadIs(tb, skipped[1..], head, rest);
    }
  }

  // ----- a command of its own -----

  /** A command: not skipped on the way to the head, nor on the way from it. */
  predicate IsCommand(tb: Tables, c: string) {
    !Skipped(tb, c) && c !in tb.valueFlags && c !in tb.runners
  }

  /** No phrase of the table starts at the token. */
  predicate NoPhraseAt(tb: Tables, t: seq<string>, i: nat) {
    forall p :: 0 <= p < |tb.phrases| ==> !PhraseAt(t, i, tb.phrases[p])
  }

  /** No watch flag is on. */
  predicate NoWatch(t: seq<string>) {
    forall k :: 0 <= k < |t| ==> !WatchAt(t, k)
  }

  lemma CommandIsJudged(tb: Tables, c: string, args: seq<string>)
    requires IsCommand(tb, c) && !StartsWith(Word(c), "python")
    ensures Service(tb, [c] + args) == Decided(Judged(tb, [c] + args, 0, 0))
  {
    HeadIs(tb, [], c, args);
    assert [] + ([c] + args) == [c] + args;
  }

  lemma NotPythonWord(word: string)
    requires word in {"kubectl", "docker", "docker-compose", "vite", "gh"}
    ensures !StartsWith(word, "python")
  {
    assert word[0] in {'k', 'd', 'v', 'g'} && "python"[0] == 'p';
    SameInitial(word, "python");
  }

  lemma SameInitial(s: string, prefix: string)
    requires prefix != ""
    ensures StartsWith(s, prefix) ==> s != "" && s[0] == prefix[0]
  {
    assert StartsWith(s, prefix) ==> s[..|prefix|][0] == s[0];
  }

  /** A command outside the phrase table that serves by none of the rules does not serve. */
  lemma PlainCommandEnds(tb: Tables, c: string, args: seq<string>)
    requires IsCommand(tb, c) && !StartsWith(Word(c), "python")
    requires Word(c) !in {"vite", "kubectl", "docker", "docker-compose"}
    requires NoPhraseAt(tb, [c] + args, 0) && NoWatch([c] + args)
    ensures Service(tb, [c] + args) == Decided(false)
  {
    CommandIsJudged(tb, c, args);
  }

  /** A phrase of the table, by the words of its tokens, serves wherever a command starts - if the walk stays inside the
      tokens. */
  lemma PhraseServes(tb: Tables, skipped: seq<string>, command: seq<string>, p: nat, args: seq<string>)
    requires (forall k :: 0 <= k < |skipped| ==> Skipped(tb, skipped[k])) && p < |tb.phrases|
    requires command != [] && !Skipped(tb, command[0]) && |command| == |tb.phrases[p]|
    requires forall k :: 0 <= k < |command| ==> Word(command[k]) == tb.phrases[p][k]
    ensures Service(tb, skipped + (command + args)) in {Decided(true), Panics}
  {
    var t, head := skipped + (command + args), |skipped|;
    assert command + args == [command[0]] + (command + args)[1..];
    HeadIs(tb, skipped, command[0], (command + args)[1..]);
    assert t[head..] == command + args;
    assert PhraseAt(t, head, tb.phrases[p]);
    assert forall cw: nat :: Starts(t, head, cw, tb.phrases[p]);
  }

  lemma {:induction false} RunnersAreWalked(tb: Tables, t: seq<string>, i: nat, n: nat)
    requires i <= n < |t| && t[n] !in tb.valueFlags && t[n] !in tb.runners && !IsFlag(t[n])
    requires forall k :: i <= k < n ==> t[k] !in tb.valueFlags && (t[k] in tb.runners || IsFlag(t[k]))
    ensures Walk(tb, t, i) == n
    decreases n - i
  {
    if i < n {
      RunnersAreWalked(tb, t, i + 1, n);
    }
  }

  lemma NotPython(t: seq<string>, cw: nat)
    requires cw < |t| && Word(t[cw]) != "" && Word(t[cw])[0] != 'p'
    ensures PastPython(t, cw) == cw
  {
  }

  /** A `dev` or `start` script behind a runner serves: `npm run dev`, `yarn start`. */
  lemma ScriptServes(tb: Tables, runners: seq<string>, script: string, args: seq<string>)
    requires runners != [] && !Skipped(tb, runners[0])
    requires forall k :: 0 <= k < |runners| ==> runners[k] in tb.runners && runners[k] !in tb.valueFlags
    requires IsCommand(tb, script) && Word(script) in {"dev", "start"}
    ensures Service(tb, runners + ([script] + args)) == Decided(true)
  {
    var t, n := runners + ([script] + args), |runners|;
    assert t == [runners[0]] + t[1..] && [] + t == t;
    HeadIs(tb, [], runners[0], t[1..]);
    RunnersAreWalked(tb, t, 0, n);
    ScriptIsNotPython(script);
    NotPython(t, n);
    assert t[n - 1] == runners[n - 1];
  }

  lemma ScriptIsNotPython(script: string)
    requires Word(script) in {"dev", "start"}
    ensures Word(script) != "" && Word(script)[0] != 'p'
  {
  }

  /** And behind the value of a runner's flag: `pnpm --filter web dev`. */
  lemma FilteredScriptServes(tb: Tables, runner: string, flag: string, value: string, script: string, args: seq<string>)
    requires !Skipped(tb, runner) && runner in tb.runners && runner !in tb.valueFlags && flag in tb.valueFlags
    requires IsCommand(tb, script) && Word(script) in {"dev", "start"}
    ensures Service(tb, [runner, flag, value, script] + args) == Decided(true)
  {
    var t := [runner, flag, value, script] + args;
    assert t == [runner] + t[1..] && [] + t == t;
    HeadIs(tb, [], runner, t[1..]);
    FilteredWalk(tb, t);
    ScriptIsNotPython(script);
    NotPython(t, 3);
  }

  lemma FilteredWalk(tb: Tables, t: seq<string>)
    requires |t| >= 4 && t[0] in tb.runners && t[0] !in tb.valueFlags && t[1] in tb.valueFlags && IsCommand(tb, t[3])
    ensures Walk(tb, t, 0) == 3
  {
    assert Walk(tb, t, 3) == 3 && Walk(tb, t, 1) == 3;
  }

  /** `kubectl` serves with `port-forward` anywhere behind it. */
  lemma PortForwardServes(tb: Tables, c: string, args: seq<string>)
    requires IsCommand(tb, c) && Word(c) == "kubectl" && "port-forward" in args
    ensures Service(tb, [c] + args) == Decided(true)
  {
    var t := [c] + args;
    NotPythonWord(Word(c));
    CommandIsJudged(tb, c, args);
    var k :| 0 <= k < |args| && args[k] == PORT_FORWARD;
    assert t[k + 1] == PORT_FORWARD && t[0] == c;
  }

  /** `vite` serves exactly when it does not build - a phrase or a watch flag aside. */
  lemma ViteServesUnlessBuilding(tb: Tables, c: string, args: seq<string>)
    requires IsCommand(tb, c) && Word(c) == "vite" && NoPhraseAt(tb, [c] + args, 0) && NoWatch([c] + args)
    ensures Service(tb, [c] + args) == Decided("build" !in args)
  {
    var t := [c] + args;
    NotPythonWord(Word(c));
    CommandIsJudged(tb, c, args);
    assert t[1..] == args && t[0] == c;
    NotAPhraseOf(t, ["docker", "compose", "up"]);
    NotAPhraseOf(t, ["docker-compose", "up"]);
  }

  /** A phrase starts where its first word does. */
  lemma NotAPhraseOf(t: seq<string>, phrase: seq<string>)
    requires t != [] && phrase != [] && Word(t[0]) != phrase[0]
    ensures !PhraseAt(t, 0, phrase)
  {
    assert t[0..] == t;
  }

  /** `docker compose up` serves exactly when nothing makes it end: a detach, an abort on exit, an exit code to
      report. */
  lemma ComposeServesUnlessDetached(tb: Tables, c: string, compose: string, up: string, args: seq<string>)
    requires IsCommand(tb, c) && Word(c) == "docker" && Word(compose) == "compose" && Word(up) == "up"
    requires !IsFlag(compose) && !IsFlag(up)
    requires NoPhraseAt(tb, [c, compose, up] + args, 0) && NoWatch([c, compose, up] + args)
    ensures Service(tb, [c, compose, up] + args) == Decided(forall k :: 0 <= k < |args| ==> !EndsCompose(args[k]))
  {
    var t := [c, compose, up] + args;
    assert t == [c] + ([compose, up] + args);
    NotPythonWord(Word(c));
    CommandIsJudged(tb, c, [compose, up] + args);
    ComposeIsAll(tb, t);
    ComposeUpIs(t);
    OnlyArgsCount(c, compose, up, args);
  }

  /** So does `docker-compose up`. */
  lemma OldComposeServes(tb: Tables, c: string, up: string, args: seq<string>)
    requires IsCommand(tb, c) && Word(c) == "docker-compose" && Word(up) == "up" && !IsFlag(up)
    requires forall k :: 0 <= k < |args| ==> !EndsCompose(args[k])
    ensures Service(tb, [c, up] + args) == Decided(true)
  {
    var t := [c, up] + args;
    assert t == [c] + ([up] + args) && t[0..] == t;
    NotPythonWord(Word(c));
    CommandIsJudged(tb, c, [up] + args);
    FlagsAlone(c);
    FlagsAlone(up);
    assert PhraseAt(t, 0, ["docker-compose", "up"]);
    assert forall k :: 2 <= k < |t| ==> t[k] == args[k - 2];
    assert forall k :: 0 <= k < |t| ==> (Detaches(t[k]) <==> EndsCompose(t[k]));
  }

  lemma ComposeIsAll(tb: Tables, t: seq<string>)
    requires |t| >= 3 && Word(t[0]) == "docker" && NoPhraseAt(tb, t, 0) && NoWatch(t)
    ensures Judged(tb, t, 0, 0) == ComposeUp(t, 0, 0)
  {
  }

  lemma OnlyArgsCount(c: string, compose: string, up: string, args: seq<string>)
    requires !IsFlag(c) && !IsFlag(compose) && !IsFlag(up)
    ensures var t := [c, compose, up] + args;
            (forall k :: 0 <= k < |t| ==> !EndsCompose(t[k]))
            <==> (forall k :: 0 <= k < |args| ==> !EndsCompose(args[k]))
  {
    var t := [c, compose, up] + args;
    FlagsAlone(c);
    FlagsAlone(compose);
    FlagsAlone(up);
    assert forall k :: 3 <= k < |t| ==> t[k] == args[k - 3];
    assert forall k :: 0 <= k < |args| ==> t[k + 3] == args[k];
  }

  /** A token that makes `docker compose up` end. */
  predicate EndsCompose(s: string) {
    s in {"-d", "--detach", "--abort-on-container-exit"} || StartsWith(s, "--exit-code-from")
  }

  lemma FlagsAlone(s: string)
    requires !IsFlag(s)
    ensures !EndsCompose(s)
  {
  }

  lemma ComposeUpIs(t: seq<string>)
    requires |t| >= 3 && Word(t[0]) == "docker" && Word(t[1]) == "compose" && Word(t[2]) == "up"
    ensures ComposeUp(t, 0, 0) <==> forall k :: 0 <= k < |t| ==> !EndsCompose(t[k])
  {
    assert t[0..] == t;
    assert PhraseAt(t, 0, ["docker", "compose", "up"]);
    assert forall k :: 0 <= k < |t| ==> (Detaches(t[k]) <==> EndsCompose(t[k]));
  }

  /** A watch flag serves, set to anything but false or zero - unless the command waits on something that ends: `gh`, or
      `kubectl rollout status`. */
  lemma WatchServes(tb: Tables, c: string, args: seq<string>, k: nat)
    requires IsCommand(tb, c) && !StartsWith(Word(c), "python") && Word(c) !in {"gh", "kubectl"}
    requires k < |args| && args[k] in {"--watch", "--watchall"}
    requires k + 1 < |args| ==> args[k + 1] !in {"false", "0"}
    ensures Service(tb, [c] + args) == Decided(true)
  {
    var t := [c] + args;
    CommandIsJudged(tb, c, args);
    WatchFlags(args[k]);
    assert t[k + 1] == args[k] && (k + 1 < |args| ==> t[k + 2] == args[k + 1]);
    assert WatchAt(t, k + 1);
  }

  lemma WatchFlags(flag: string)
    requires flag in {"--watch", "--watchall"}
    ensures '=' !in flag && UpTo(flag, '=') == flag
  {
    assert '=' !in flag;
    UpToIs(flag, '=', "");
  }

  /** Switched off, it is no watch flag: by its value, or by the token behind it. */
  lemma WatchSwitchedOff(t: seq<string>, k: nat, flag: string, value: string)
    requires k < |t| && flag in {"--watch", "--watchall"} && value in {"false", "0"}
    ensures t[k] == flag + "=" + value ==> !WatchAt(t, k)
    ensures t[k] == flag && k + 1 < |t| && t[k + 1] == value ==> !WatchAt(t, k)
  {
    WatchFlags(flag);
    UpToIs(flag, '=', value);
    var token := flag + "=" + value;
    assert token[|flag|] == '=' && token[|flag| + 1..] == value;
  }

  /** `gh` never serves by a watch flag. */
  lemma GhEnds(tb: Tables, c: string, args: seq<string>)
    requires IsCommand(tb, c) && Word(c) == "gh" && NoPhraseAt(tb, [c] + args, 0)
    ensures Service(tb, [c] + args) == Decided(false)
  {
    var t := [c] + args;
    NotPythonWord(Word(c));
    CommandIsJudged(tb, c, args);
    assert t[0] == c;
    NotAPhraseOf(t, ["docker", "compose", "up"]);
    NotAPhraseOf(t, ["docker-compose", "up"]);
  }

  /** Nor does `kubectl rollout status`. */
  lemma RolloutStatusEnds(tb: Tables, c: string, args: seq<string>)
    requires IsCommand(tb, c) && Word(c) == "kubectl" && NoPhraseAt(tb, [c, ROLLOUT, "status"] + args, 0)
    requires PORT_FORWARD !in args
    ensures Service(tb, [c, ROLLOUT, "status"] + args) == Decided(false)
  {
    var more := [ROLLOUT, "status"] + args;
    var t := [c, ROLLOUT, "status"] + args;
    assert t == [c] + more;
    NotPythonWord(Word(c));
    CommandIsJudged(tb, c, more);
    assert t[0] == c && t[1] == ROLLOUT && t[2] == "status" && RolloutStatus(t);
    KubectlHasNoPortForward(c);
    NotAPhraseOf(t, ["docker", "compose", "up"]);
    NotAPhraseOf(t, ["docker-compose", "up"]);
  }

  lemma KubectlHasNoPortForward(c: string)
    requires Word(c) == "kubectl"
    ensures c != PORT_FORWARD && ROLLOUT != PORT_FORWARD && "status" != PORT_FORWARD
  {
    var p := PORT_FORWARD;
    assert '/' !in p && '@' !in p;
    PlainWordIs(p);
    assert p[0] == 'p' && "kubectl"[0] == 'k' && ROLLOUT[0] == 'r' && "status"[0] == 's';
  }

  /** The module of `python -m` is the command. */
  lemma PythonModuleServes(tb: Tables, c: string, name: string, p: nat, args: seq<string>)
    requires IsCommand(tb, c) && StartsWith(Word(c), "python")
    requires p < |tb.phrases| && tb.phrases[p] == [Word(name)]
    ensures Service(tb, [c, "-m", name] + args) == Decided(true)
  {
    var t := [c, "-m", name] + args;
    assert t == [c] + (["-m", name] + args) && [] + t == t;
    HeadIs(tb, [], c, ["-m", name] + args);
    assert Walk(tb, t, 0) == 0 && PastPython(t, 0) == 2;
    assert t[2..][0] == name;
    assert PhraseAt(t, 2, tb.phrases[p]);
  }
}
