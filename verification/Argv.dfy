/** Reading a foreground argv (crates/core/src/command.rs): the program behind its wrappers, and the destination of a
    remote session. */
module Argv {
  import opened Prelude

  // ----- text helpers -----

  predicate Has(s: string, c: char) {
    exists k :: 0 <= k < |s| && s[k] == c
  }

  predicate StartsWith(s: string, prefix: string) {
    |prefix| <= |s| && s[..|prefix|] == prefix
  }

  /** The index of the first `c`, or the length. */
  function FirstIndex(s: string, c: char): (k: nat)
    ensures k <= |s| && (k < |s| ==> s[k] == c) && forall j :: 0 <= j < k ==> s[j] != c
  {
    if s == [] || s[0] == c then 0 else
      var k := FirstIndex(s[1..], c);
      assert forall j :: 1 <= j < 1 + k ==> s[j] == s[1..][j - 1];
      1 + k
  }

  /** What follows the last `c`; all of `s` when there is none. */
  function AfterLast(s: string, c: char): (r: string)
    ensures |r| <= |s| && r == s[|s| - |r|..] && !Has(r, c)
    ensures |r| < |s| ==> s[|s| - |r| - 1] == c
  {
    if s == [] || s[|s| - 1] == c then []
    else AfterLast(s[..|s| - 1], c) + [s[|s| - 1]]
  }

  /** The last non-empty `/`-separated segment, or nothing. */
  function Basename(s: string): (r: string)
    ensures !Has(r, '/')
  {
    if s == [] then [] else if s[|s| - 1] == '/' then Basename(s[..|s| - 1]) else AfterLast(s, '/')
  }

  lemma {:induction false} BasenameOfSegment(s: string)
    requires !Has(s, '/')
    ensures Basename(s) == s
  {
    if s != [] {
      assert s[|s| - 1] != '/';
      var r := AfterLast(s, '/');
      if |r| < |s| {
        assert Has(s, '/');
      }
    }
  }

  function TrimDashes(s: string): string {
    if s != [] && s[0] == '-' then TrimDashes(s[1..]) else s
  }

  /** The basename without a login shell's dashes. */
  function ProgramName(s: string): string {
    TrimDashes(Basename(s))
  }

  predicate IsOptionArg(s: string) {
    StartsWith(s, "-") && s != "-"
  }

  // ----- wrappers and environment prefixes -----

  const WRAPPERS: set<string> := {"sudo", "doas", "env", "time", "nice", "command", "exec"}
  const JS_RUNTIMES: set<string> := {"node", "bun"}
  const AGENT_NAMES: set<string> := {"claude", "codex", "opencode", "pi", "omp"}
  const IGNORE_NAMES: set<string> := {
    "zsh", "bash", "fish", "sh", "dash", "ash", "ksh", "mksh", "tcsh", "csh", "nu", "nushell", "pwsh", "elvish",
    "xonsh", "starship", "direnv"
  }

  predicate IsWordChar(c: char) {
    'a' <= c <= 'z' || 'A' <= c <= 'Z' || '0' <= c <= '9' || c == '_'
  }

  predicate IsEnvAssignment(s: string) {
    var k := FirstIndex(s, '=');
    0 < k < |s| && forall j :: 0 <= j < k ==> IsWordChar(s[j])
  }

  predicate Peels(token: string) {
    IsEnvAssignment(token) || Basename(token) in WRAPPERS
  }

  /** How many leading tokens are assignments or wrappers. */
  function PeelCount(command: seq<string>): (i: nat)
    ensures i <= |command|
    ensures forall j :: 0 <= j < i ==> Peels(command[j])
    ensures i < |command| ==> !Peels(command[i])
  {
    if command == [] || !Peels(command[0]) then 0 else
      var i := PeelCount(command[1..]);
      assert forall j :: 1 <= j < 1 + i ==> command[j] == command[1..][j - 1];
      1 + i
  }

  /** The argv with its prefix peeled - or untouched, when nothing follows it or an option does. */
  function Peeled(command: seq<string>): seq<string> {
    var i := PeelCount(command);
    if 0 < i < |command| && !IsOptionArg(command[i]) then command[i..] else command
  }

  method EffectiveCommand(command: seq<string>) returns (r: seq<string>)
    ensures r == Peeled(command)
  {
    var i := 0;
    var wrapped := true;
    while wrapped
      invariant i <= |command|
      invariant i + PeelCount(command[i..]) == PeelCount(command)
      invariant !wrapped ==> PeelCount(command[i..]) == 0
      decreases |command| - i, wrapped
    {
      while i < |command| && IsEnvAssignment(command[i])
        invariant i <= |command|
        invariant i + PeelCount(command[i..]) == PeelCount(command)
      {
        assert command[i..][1..] == command[i + 1..];
        i := i + 1;
      }
      if i < |command| && Basename(command[i]) in WRAPPERS {
        assert command[i..][1..] == command[i + 1..];
        i := i + 1;
      } else {
        wrapped := false;
      }
    }
    if 0 < i < |command| && !IsOptionArg(command[i]) && !IsEnvAssignment(command[i]) {
      return command[i..];
    }
    return command;
  }

  /** Peeling is a projection: what it returns has nothing left to peel. */
  lemma {:induction false} PeeledTwice(command: seq<string>)
    ensures Peeled(Peeled(command)) == Peeled(command)
  {
    var i := PeelCount(command);
    if 0 < i < |command| && !IsOptionArg(command[i]) {
      assert command[i..][0] == command[i];
    }
  }

  function WithoutSuffix(s: string, suffix: string): Option<string> {
    if |suffix| <= |s| && s[|s| - |suffix|..] == suffix then Some(s[..|s| - |suffix|]) else None
  }

  function ScriptStem(base: string): string {
    match WithoutSuffix(base, ".js")
    case Some(stem) => stem
    case None =>
      match WithoutSuffix(base, ".mjs")
      case Some(stem) => stem
      case None => match WithoutSuffix(base, ".cjs") case Some(stem) => stem case None => base
  }

  /** The index of the first token at or after `i` that is not an option, or the length. */
  function FirstNonOption(command: seq<string>, i: nat): (at: nat)
    requires i <= |command|
    ensures i <= at <= |command| && (at < |command| ==> !IsOptionArg(command[at]))
    decreases |command| - i
  {
    if i == |command| || !IsOptionArg(command[i]) then i else FirstNonOption(command, i + 1)
  }

  /** The argv that owns the pane and the name of its program: a JS runtime hosting an agent script names the agent. */
  function EffectiveProgram(argv: seq<string>): (seq<string>, string) {
    var command := Peeled(argv);
    if command == [] then (command, "")
    else
      var name := ProgramName(command[0]);
      var at := FirstNonOption(command, 1);
      if name in JS_RUNTIMES && at < |command| && ScriptStem(Basename(command[at])) in AGENT_NAMES
      then (command[at..], ScriptStem(Basename(command[at])))
      else (command, name)
  }

  // ----- the destination of a remote session -----

  const SSH_VALUE_OPTS: set<char> := {
    'B', 'b', 'c', 'D', 'E', 'e', 'F', 'I', 'i', 'J', 'L', 'l', 'm', 'O', 'o', 'p', 'Q', 'R', 'S', 'W', 'w'
  }
  const AUTOSSH_VALUE_OPTS: set<char> := SSH_VALUE_OPTS + {'M'}
  const REMOTE_VALUE_LONG_OPTS: set<string> := {
    "--ssh", "--server", "--predict", "--port", "--family", "--client", "--bind-server", "--experimental-remote-ip",
    "--local", "--jumphost", "--jport", "--tunnel", "--reversetunnel", "--username", "--user", "--command",
    "--ssh-option", "--sshoptions", "--ssh-socket", "--terminal-path", "--keepalive", "--serverfifo", "--logtostdout"
  }

  const SCHEME := "ssh://"

  function StripScheme(token: string): string {
    if StartsWith(token, SCHEME) then token[|SCHEME|..] else token
  }

  function BeforeFirst(s: string, c: char): string {
    s[..FirstIndex(s, c)]
  }

  /** The host of a `host`, `host:port`, `[v6]` or bare v6 spelling: a port only ever follows a single colon. */
  function HostOf(hostPort: string): string {
    if StartsWith(hostPort, "[") then BeforeFirst(hostPort[1..], ']')
    else
      var k := FirstIndex(hostPort, ':');
      if k < |hostPort| && !Has(hostPort[k + 1..], ':') then hostPort[..k] else hostPort
  }

  /** The host alone, from any destination spelling. */
  function RemoteDestination(token: string): string {
    HostOf(BeforeFirst(AfterLast(StripScheme(token), '@'), '/'))
  }

  /** Which options take a value: short ones by letter, long ones by name. */
  datatype OptionTable = OptionTable(letters: set<char>, longs: set<string>)

  /** Whether a short-option cluster (without its dash) ends in a letter whose value is the next token. */
  predicate TakesNext(o: OptionTable, letters: string) {
    letters != [] && if letters[0] in o.letters then |letters| == 1 else TakesNext(o, letters[1..])
  }

  /** How many tokens the option at the front takes, itself included. */
  function OptionWidth(o: OptionTable, arg: string): nat
    requires IsOptionArg(arg)
  {
    if StartsWith(arg, "--") then (if arg in o.longs then 2 else 1)
    else if TakesNext(o, arg[1..]) then 2
    else 1
  }

  function Drop<T>(s: seq<T>, n: nat): seq<T> {
    if |s| <= n then [] else s[n..]
  }

  /** The destination token, and whether another positional token follows it. */
  function Destination(o: OptionTable, args: seq<string>, dest: Option<string>, positionalOnly: bool)
    : (Option<string>, bool)
    decreases |args|
  {
    if args == [] then (dest, false)
    else if !positionalOnly && args[0] == "--" then Destination(o, args[1..], dest, true)
    else if !positionalOnly && args[0] == "-" then Destination(o, args[1..], dest, false)
    else if !positionalOnly && IsOptionArg(args[0]) then
      Destination(o, Drop(args, OptionWidth(o, args[0])), dest, false)
    else if dest.None? then Destination(o, args[1..], Some(args[0]), positionalOnly)
    else (dest, true)
  }

  function OptionsOf(exe: string): OptionTable {
    OptionTable(if exe == "autossh" then AUTOSSH_VALUE_OPTS else SSH_VALUE_OPTS, REMOTE_VALUE_LONG_OPTS)
  }

  function Shown(exe: string, dest: Option<string>): string {
    if dest.None? then exe
    else
      var host := RemoteDestination(dest.value);
      if host == [] then exe else if exe == [] then host else exe + " " + host
  }

  /** What `display_remote` answers: the compact display and whether a remote command follows. */
  function RemoteDisplay(exe: string, args: seq<string>): (string, bool) {
    var (dest, more) := Destination(OptionsOf(exe), args, None, false);
    (Shown(exe, dest), more && exe != "mosh-client")
  }

  /** The walk over the arguments. */
  method WalkRemote(o: OptionTable, args: seq<string>) returns (dest: Option<string>, more: bool)
    ensures (dest, more) == Destination(o, args, None, false)
  {
    dest, more := None, false;
    var positionalOnly := false;
    var i := 0;
    while i < |args|
      invariant Destination(o, Drop(args, i), dest, positionalOnly) == Destination(o, args, None, false)
      invariant !more
      decreases |args| - i
    {
      var arg := args[i];
      ghost var rest := Drop(args, i);
      assert rest[0] == arg && rest[1..] == Drop(args, i + 1) && Drop(rest, 2) == Drop(args, i + 2);
      if !positionalOnly {
        if arg == "--" {
          positionalOnly := true;
          i := i + 1;
          continue;
        }
        if arg == "-" {
          i := i + 1;
          continue;
        }
        if StartsWith(arg, "--") {
          i := i + (if arg in o.longs then 2 else 1);
          continue;
        }
        if IsOptionArg(arg) {
          i := i + (if TakesNext(o, arg[1..]) then 2 else 1);
          continue;
        }
      }
      if dest.Some? {
        return dest, true;
      }
      dest := Some(arg);
      i := i + 1;
    }
  }

  method DisplayRemote(exe: string, args: seq<string>) returns (display: string, hasCommand: bool)
    ensures (display, hasCommand) == RemoteDisplay(exe, args)
  {
    var dest, more := WalkRemote(OptionsOf(exe), args);
    display, hasCommand := Shown(exe, dest), more && exe != "mosh-client";
  }

  /** A complete option: a flag cluster or an option with its value, attached or as the next token. */
  predicate WellFormedOption(o: OptionTable, option: seq<string>) {
    option != [] && option[0] != "--" && IsOptionArg(option[0]) && OptionWidth(o, option[0]) == |option|
  }

  /** Where `args` leaves the walk when it ends exactly at an option boundary: no `--`, no option cut short, no
      remote command begun. */
  function Boundary(o: OptionTable, args: seq<string>, dest: Option<string>): Option<Option<string>>
    decreases |args|
  {
    if args == [] then Some(dest)
    else if args[0] == "--" then None
    else if args[0] == "-" then Boundary(o, args[1..], dest)
    else if IsOptionArg(args[0]) then
      var n := OptionWidth(o, args[0]);
      if |args| < n then None else Boundary(o, args[n..], dest)
    else if dest.None? then Boundary(o, args[1..], Some(args[0]))
    else None
  }

  lemma {:induction false} WalkPastBoundary(o: OptionTable, before: seq<string>, after: seq<string>,
                                            dest: Option<string>)
    requires Boundary(o, before, dest).Some?
    ensures Destination(o, before + after, dest, false)
         == Destination(o, after, Boundary(o, before, dest).value, false)
    decreases |before|
  {
    var all := before + after;
    if before == [] {
      assert all == after;
    } else if before[0] == "-" {
      assert all[1..] == before[1..] + after;
      WalkPastBoundary(o, before[1..], after, dest);
    } else if IsOptionArg(before[0]) {
      var n := OptionWidth(o, before[0]);
      assert Drop(all, n) == before[n..] + after;
      WalkPastBoundary(o, before[n..], after, dest);
    } else {
      assert all[1..] == before[1..] + after;
      WalkPastBoundary(o, before[1..], after, Some(before[0]));
    }
  }

  /** Inserting a complete option at an option boundary, before the destination or after it, changes neither the
      destination shown nor whether a remote command follows. */
  lemma OptionsAreInvisible(exe: string, before: seq<string>, option: seq<string>, after: seq<string>)
    requires Boundary(OptionsOf(exe), before, None).Some? && WellFormedOption(OptionsOf(exe), option)
    ensures RemoteDisplay(exe, before + option + after) == RemoteDisplay(exe, before + after)
  {
    var v := OptionsOf(exe);
    var dest := Boundary(v, before, None).value;
    WalkPastBoundary(v, before, option + after, None);
    WalkPastBoundary(v, before, after, None);
    assert before + option + after == before + (option + after);
    assert Drop(option + after, |option|) == after;
  }

  predicate PlainHost(host: string) {
    forall k :: 0 <= k < |host| ==> host[k] != '@' && host[k] != '/' && host[k] != ':' && host[k] != '['
  }

  lemma HostOfPlain(host: string)
    requires PlainHost(host)
    ensures HostOf(host) == host
  {
    BeforeFirstNone(host, ':');
  }

  lemma HostOfPort(host: string, port: string)
    requires PlainHost(host) && PlainHost(port)
    ensures HostOf(host + ":" + port) == host
  {
    PortAfterHost(host, port);
    HostNotBracketed(host, port);
    assert (host + ":" + port)[..|host|] == host;
  }

  lemma PathIsDropped(host: string, path: string)
    requires !Has(host, '/')
    ensures BeforeFirst(host + "/" + path, '/') == host
  {
    assert forall k :: 0 <= k < |host| ==> host[k] != '/';
    FirstIndexAt(host, '/', path);
    assert host + (['/'] + path) == host + "/" + path;
  }

  lemma NoPathIsDropped(host: string)
    requires !Has(host, '/')
    ensures BeforeFirst(host, '/') == host
  {
    assert forall k :: 0 <= k < |host| ==> host[k] != '/';
    BeforeFirstNone(host, '/');
  }

  lemma NoAtSign(a: string, sep: string, b: string)
    requires !Has(a, '@') && !Has(sep, '@') && !Has(b, '@')
    ensures !Has(a + sep + b, '@')
  {
  }

  lemma Unschemed(token: string)
    requires !StartsWith(token, SCHEME)
    ensures StripScheme(token) == token
  {
  }

  lemma Schemed(rest: string)
    ensures StripScheme(SCHEME + rest) == rest
  {
    assert (SCHEME + rest)[..|SCHEME|] == SCHEME && (SCHEME + rest)[|SCHEME|..] == rest;
  }

  /** A host as it is spelled: a name or v4 address, a v6 address in brackets, or one without. */
  datatype Host = Plain(name: string) | Bracketed(name: string) | BareV6(name: string) {
    function Text(): string {
      if Bracketed? then "[" + name + "]" else name
    }

    /** A bare v6 address has two colons at least, and takes no port. */
    predicate IsProper(port: Option<string>) {
      match this
      case Plain(_) => PlainHost(name)
      case Bracketed(_) => !Has(name, '@') && !Has(name, '/') && !Has(name, ']')
      case BareV6(_) =>
        && !Has(name, '@') && !Has(name, '/') && !StartsWith(name, "[") && port.None?
        && Has(name, ':') && Has(name[FirstIndex(name, ':') + 1..], ':')
    }
  }

  /** A destination as it is spelled: `[ssh://][user@]host[:port][/path]`. */
  datatype Spelling =
    Spelling(scheme: bool, user: Option<string>, host: Host, port: Option<string>, path: Option<string>)
  {
    function HostPort(): string {
      if port.Some? then host.Text() + ":" + port.value else host.Text()
    }

    function AfterUser(): string {
      if path.Some? then HostPort() + "/" + path.value else HostPort()
    }

    function AfterScheme(): string {
      if user.Some? then user.value + "@" + AfterUser() else AfterUser()
    }

    function Token(): string {
      if scheme then SCHEME + AfterScheme() else AfterScheme()
    }

    /** The host and port are proper ones, and a token without the scheme does not read as one with it. */
    predicate IsProper() {
      && host.IsProper(port) && (port.Some? ==> PlainHost(port.value))
      && (!scheme ==> !StartsWith(AfterScheme(), SCHEME))
    }

    predicate HasAtInPath() {
      path.Some? && Has(path.value, '@')
    }
  }

  lemma StrippedSpelling(d: Spelling)
    requires d.IsProper()
    ensures StripScheme(d.Token()) == d.AfterScheme()
  {
    if d.scheme {
      Schemed(d.AfterScheme());
    } else {
      Unschemed(d.AfterScheme());
    }
  }

  /** A v6 address in brackets is displayed without them, whatever port follows. */
  lemma HostOfBracketed(name: string, rest: string)
    requires !Has(name, ']')
    ensures HostOf("[" + name + "]" + rest) == name
  {
    var token := "[" + name + "]" + rest;
    assert token[0] == '[' && token[1..] == name + ([']'] + rest);
    FirstIndexAt(name, ']', rest);
  }

  /** A bare one, with its two colons, as it stands. */
  lemma HostOfBareV6(name: string)
    requires BareV6(name).IsProper(None)
    ensures HostOf(name) == name
  {
  }

  lemma HasNeither(a: string, b: string, c: char)
    requires !Has(a, c) && !Has(b, c)
    ensures !Has(a + b, c)
  {
  }

  lemma TextHasNeither(host: Host, port: Option<string>, c: char)
    requires host.IsProper(port) && (c == '@' || c == '/')
    ensures !Has(host.Text(), c)
  {
    if host.Bracketed? {
      HasNeither("[", host.name, c);
      HasNeither("[" + host.name, "]", c);
    }
  }

  lemma HostPortHasNeither(d: Spelling, c: char)
    requires d.IsProper() && (c == '@' || c == '/')
    ensures !Has(d.HostPort(), c)
  {
    TextHasNeither(d.host, d.port, c);
    if d.port.Some? {
      HasNeither(d.host.Text(), ":", c);
      HasNeither(d.host.Text() + ":", d.port.value, c);
    }
  }

  lemma HostPortIsPlain(d: Spelling)
    requires d.IsProper()
    ensures !Has(d.HostPort(), '@') && !Has(d.HostPort(), '/') && HostOf(d.HostPort()) == d.host.name
  {
    HostPortHasNeither(d, '@');
    HostPortHasNeither(d, '/');
    HostPortShowsHost(d);
  }

  lemma HostPortShowsHost(d: Spelling)
    requires d.IsProper()
    ensures HostOf(d.HostPort()) == d.host.name
  {
    match d.host
    case Plain(name) =>
      if d.port.Some? {
        HostOfPort(name, d.port.value);
      } else {
        HostOfPlain(name);
      }
    case Bracketed(name) =>
      var rest := if d.port.Some? then ":" + d.port.value else "";
      assert d.HostPort() == "[" + name + "]" + rest;
      HostOfBracketed(name, rest);
    case BareV6(name) => HostOfBareV6(name);
  }

  lemma BeforePath(d: Spelling)
    requires d.IsProper()
    ensures HostOf(BeforeFirst(d.AfterUser(), '/')) == d.host.name
  {
    HostPortIsPlain(d);
    if d.path.Some? {
      PathIsDropped(d.HostPort(), d.path.value);
    } else {
      NoPathIsDropped(d.HostPort());
    }
  }

  lemma PastUser(d: Spelling)
    requires d.IsProper() && !d.HasAtInPath()
    ensures AfterLast(d.AfterScheme(), '@') == d.AfterUser()
  {
    HostPortIsPlain(d);
    if d.path.Some? {
      NoAtSign(d.HostPort(), "/", d.path.value);
    }
    if d.user.Some? {
      AfterLastAt(d.user.value, d.AfterUser());
    } else {
      AfterLastNone(d.AfterUser());
    }
  }

  lemma AfterLastNone(s: string)
    requires !Has(s, '@')
    ensures AfterLast(s, '@') == s
  {
    var r := AfterLast(s, '@');
    assert |r| < |s| ==> Has(s, '@');
  }

  /** Any text in front of an `@` and what follows it is as good as none. */
  lemma {:induction false} AfterLastWithin(front: string, back: string)
    requires Has(back, '@')
    ensures AfterLast(front + back, '@') == AfterLast(back, '@')
    decreases |back|
  {
    var n := |back| - 1;
    assert (front + back)[|front + back| - 1] == back[n];
    if back[n] != '@' {
      assert (front + back)[..|front + back| - 1] == front + back[..n];
      var k :| 0 <= k < |back| && back[k] == '@';
      assert back[..n][k] == '@';
      AfterLastWithin(front, back[..n]);
    }
  }

  /** Whatever the spelling - scheme, user, port and path or none of them, a v6 address in brackets or without - the
      host alone is displayed, as long as the path has no `@` in it. */
  lemma HostAloneIsShown(d: Spelling)
    requires d.IsProper() && !d.HasAtInPath()
    ensures RemoteDestination(d.Token()) == d.host.name
  {
    StrippedSpelling(d);
    PastUser(d);
    BeforePath(d);
  }

  /** With an `@` in the path, it is taken for the one after the user: what is displayed comes from the path, and the
      host has no part in it. */
  lemma AtInPathHidesHost(d: Spelling)
    requires d.IsProper() && d.HasAtInPath()
    ensures RemoteDestination(d.Token()) == HostOf(BeforeFirst(AfterLast(d.path.value, '@'), '/'))
  {
    StrippedSpelling(d);
    var front := (if d.user.Some? then d.user.value + "@" else []) + d.HostPort() + "/";
    assert d.AfterScheme() == front + d.path.value;
    AfterLastWithin(front, d.path.value);
  }

  /** So the display follows the host, whichever it is, exactly when the path has no `@`. */
  lemma HostIsShownIff(scheme: bool, user: string, port: Option<string>, path: Option<string>)
    requires port.Some? ==> PlainHost(port.value)
    requires forall host: Host :: host.IsProper(port) ==> Spelling(scheme, Some(user), host, port, path).IsProper()
    ensures (forall host: Host :: host.IsProper(port) ==>
               RemoteDestination(Spelling(scheme, Some(user), host, port, path).Token()) == host.name)
            <==> !(path.Some? && Has(path.value, '@'))
  {
    if path.Some? && Has(path.value, '@') {
      assert Plain("a").IsProper(port) && Plain("b").IsProper(port) && "a"[0] != "b"[0];
      AtInPathHidesHost(Spelling(scheme, Some(user), Plain("a"), port, path));
      AtInPathHidesHost(Spelling(scheme, Some(user), Plain("b"), port, path));
    } else {
      forall host: Host | host.IsProper(port)
        ensures RemoteDestination(Spelling(scheme, Some(user), host, port, path).Token()) == host.name
      {
        HostAloneIsShown(Spelling(scheme, Some(user), host, port, path));
      }
    }
  }

  const AT_IN_PATH := Spelling(false, Some("u"), Plain("h"), None, Some("p@q"))

  lemma AtInPathToken()
    ensures AT_IN_PATH.Token() == "u@h/p@q"
  {
    assert "h" + "/" + "p@q" == "h/p@q" && "u" + "@" + "h/p@q" == "u@h/p@q";
  }

  lemma AtInPathProper()
    ensures AT_IN_PATH.IsProper() && AT_IN_PATH.HasAtInPath()
  {
    AtInPathToken();
    assert "u@h/p@q"[0] == 'u' && SCHEME[0] == 's' && "p@q"[1] == '@';
  }

  lemma PathTail()
    ensures HostOf(BeforeFirst(AfterLast("p@q", '@'), '/')) == "q"
  {
    assert "p" + "@" + "q" == "p@q";
    AfterLastAt("p", "q");
    BeforeFirstNone("q", '/');
    HostOfPlain("q");
  }

  /** `u@h/p@q` displays `q`. */
  lemma AtInPathIsShown()
    ensures RemoteDestination("u@h/p@q") == "q"
  {
    AtInPathToken();
    AtInPathProper();
    AtInPathHidesHost(AT_IN_PATH);
    PathTail();
  }

  lemma PortAfterHost(host: string, port: string)
    requires PlainHost(host) && PlainHost(port)
    ensures FirstIndex(host + ":" + port, ':') == |host| && (host + ":" + port)[|host| + 1..] == port
  {
    FirstIndexAt(host, ':', port);
    assert host + ([':'] + port) == host + ":" + port;
  }

  lemma HostNotBracketed(host: string, port: string)
    requires PlainHost(host)
    ensures !StartsWith(host + ":" + port, "[")
  {
    assert (host + ":" + port)[0] == (if host == [] then ':' else host[0]);
  }

  lemma {:induction false} AfterLastAt(user: string, rest: string)
    requires !Has(rest, '@')
    ensures AfterLast(user + "@" + rest, '@') == rest
  {
    var s := user + "@" + rest;
    if rest == [] {
      assert s[|s| - 1] == '@';
    } else {
      assert rest[|rest| - 1] != '@';
      assert !Has(rest[..|rest| - 1], '@');
      AfterLastAt(user, rest[..|rest| - 1]);
      assert s[..|s| - 1] == user + "@" + rest[..|rest| - 1];
    }
  }

  lemma {:induction false} BeforeFirstNone(s: string, c: char)
    requires forall k :: 0 <= k < |s| ==> s[k] != c
    ensures FirstIndex(s, c) == |s|
  {
  }

  lemma FirstIndexAt(s: string, c: char, rest: string)
    requires forall k :: 0 <= k < |s| ==> s[k] != c
    ensures FirstIndex(s + ([c] + rest), c) == |s|
  {
    var t := s + ([c] + rest);
    var k := FirstIndex(t, c);
    assert t[|s|] == c;
  }
}
