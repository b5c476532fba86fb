/** The command store in plain terms: the deadlines in ticks, what an exit code means, which programs are a shell,
    what a sweep renames (crates/core/src/command.rs). Every status, number and name here is written out. */
module CommandLaws {
  import opened Prelude
  import opened Vocabulary
  import opened Sanitizer
  import opened Argv
  import opened ArgvLaws
  import opened Observation
  import opened CommandPane
  import opened CommandStores
  import opened CommandRuns
  import opened Ledgers

  // ----- deadlines -----

  /** Nothing is waiting to be promoted. */
  predicate NothingPending(p: Pane) {
    p.pending.None? || !p.pending.value.promotable
  }

  /** A foreground command waits two ticks, no more and no less. Until then the pane stays as it is; then it runs
      under its own label, directory and kind, since this tick - or since it started, if it was running already. */
  lemma PromotesAfterTwoTicks(p: Pane, tick: nat, now: nat)
    requires Coherent(p) && !NothingPending(p) && p.leaving.None? && !HasStatus(p, Status.Done)
    ensures var c, q := p.pending.value, OnTick(p, tick, now);
            if tick < c.sinceTick + 2 then q == p
            else
              && q.pending.None? && q.leaving.None? && HasStatus(q, Status.Running)
              && q.row.value.origin == Origin.Observed && q.row.value.msg == c.command && q.row.value.kind == c.kind
              && q.row.value.repo == RepoOf(c.cwd) && q.row.value.everActive
              && q.row.value.completedEpochS.None? && q.row.value.exitCode.None?
              && q.row.value.lastChangeTick ==
                   (if HasStatus(p, Status.Running) && p.row.value.msg == c.command then p.row.value.lastChangeTick
                    else tick)
  {
  }

  /** Away from the foreground, a running command is done after two ticks, no sooner: stamped, and otherwise as it
      was. */
  lemma ConfirmsAfterTwoTicks(p: Pane, tick: nat, now: nat)
    requires Coherent(p) && NothingPending(p) && p.leaving.Some?
    ensures var q := OnTick(p, tick, now);
            if tick < p.leaving.value + 2 then q == p
            else q == p.(leaving := None,
                         row := Some(p.row.value.(status := Status.Done, lastChangeTick := tick,
                                                  completedEpochS := Some(now))))
  {
  }

  /** A completion stays on the card for sixty ticks, no fewer; then it goes idle and is handed out as it stood. */
  lemma RecedesAfterSixtyTicks(p: Pane, tick: nat, now: nat)
    requires Coherent(p) && NothingPending(p) && HasStatus(p, Status.Done)
    ensures OnTick(p, tick, now) == p <==> tick < p.row.value.lastChangeTick + 60
    ensures if tick < p.row.value.lastChangeTick + 60 then TickDrops(p, tick, now).None?
            else TickDrops(p, tick, now) == p.row
                 && OnTick(p, tick, now) ==
                      p.(row := Some(p.row.value.(status := Status.Idle, lastChangeTick := tick,
                                                  completedEpochS := None)))
  {
  }

  /** An error does not recede with time, nor does anything else change that waits for no deadline. */
  lemma OthersStand(p: Pane, tick: nat, now: nat)
    requires Coherent(p) && NothingPending(p) && p.leaving.None? && !HasStatus(p, Status.Done)
    ensures OnTick(p, tick, now) == p && TickDrops(p, tick, now).None?
  {
  }

  /** A new command in the way of a completion, done or failed, hands it out two ticks after it came - and no sooner. */
  lemma PromotionHandsOut(p: Pane, tick: nat, now: nat)
    requires Coherent(p) && !NothingPending(p) && HasStatus(p, Status.Error)
    ensures TickDrops(p, tick, now) == if tick < p.pending.value.sinceTick + 2 then None else p.row
  {
  }

  /** The timer is needed exactly when some tick will change the pane, or its row is one that spins. */
  lemma TicksAreNeededExactly(p: Pane)
    requires Coherent(p)
    ensures PaneNeedsTicks(p) || HasStatus(p, Status.Done)
            <==> (exists tick: nat, now: nat :: OnTick(p, tick, now) != p)
                 || (HasStatus(p, Status.Running) && p.row.value.kind != Kind.Server && p.row.value.kind != Kind.Remote)
  {
    if !NothingPending(p) {
      var late := p.pending.value.sinceTick + 2;
      assert OnTick(p, late, 0).pending.None?;
    } else if p.leaving.Some? {
      ConfirmsAfterTwoTicks(p, p.leaving.value + 2, 0);
      assert OnTick(p, p.leaving.value + 2, 0) != p;
    } else if HasStatus(p, Status.Done) {
      RecedesAfterSixtyTicks(p, p.row.value.lastChangeTick + 60, 0);
      assert OnTick(p, p.row.value.lastChangeTick + 60, 0) != p;
    } else {
      forall tick: nat, now: nat ensures OnTick(p, tick, now) == p {
        OthersStand(p, tick, now);
      }
    }
  }

  // ----- exits -----

  /** A code other than zero is a failure; zero, or none, is not. The row says so, is stamped, and has the code. */
  lemma ExitCodeDecides(p: Pane, code: Option<int>, tick: nat, now: nat)
    requires ExitApplies(p, code)
    ensures var row := OnExit(p, code, tick, now).row;
            && row.Some? && row.value.completedEpochS == Some(now) && row.value.lastChangeTick == tick
            && (row.value.status == Status.Error <==> code.Some? && code.value != 0)
            && (row.value.status == Status.Done <==> code.None? || code.value == 0)
            && row.value.exitCode == code
  {
  }

  /** An exit is news in four cases and in no other: a command was in the foreground, the row was running or an error or
      done with another outcome, or the pane had no row; and never twice with the same code. */
  lemma ExitIsNewsIff(p: Pane, code: Option<int>)
    ensures ExitApplies(p, code)
            <==> p.exit != Some(code)
                 && (p.pending.Some? || p.row.None?
                     || (p.row.value.status != Status.Idle
                         && !(p.row.value.exitCode == code
                              && p.row.value.status ==
                                    if code.Some? && code.value != 0 then Status.Error else Status.Done)))
  {
  }

  /** Otherwise no row moves and nothing is handed out; and an idle pane remembers nothing of it. */
  lemma OtherExitsAreSilent(p: Pane, code: Option<int>, tick: nat, now: nat)
    requires !ExitApplies(p, code)
    ensures var q := OnExit(p, code, tick, now);
            && q.row == p.row && q.pending == p.pending && q.leaving == p.leaving && ExitDrops(p, code).None?
            && q.exit == if p.exit == Some(code) || HasStatus(p, Status.Idle) then p.exit else Some(code)
  {
  }

  /** An exit of a pane nothing was known of shows a bare completion; of a completed one with another outcome, it hands
      the old completion out. */
  lemma ExitRowsAndDrops(p: Pane, code: Option<int>, tick: nat, now: nat)
    requires ExitApplies(p, code) && p.pending.None?
    ensures var q := OnExit(p, code, tick, now);
            && (p.row.None? ==> q.row.value.msg == "" && q.row.value.repo == "" && q.row.value.kind == Kind.Command)
            && (p.row.Some? ==> q.row.value.msg == p.row.value.msg && q.row.value.repo == p.row.value.repo
                                && q.row.value.kind == p.row.value.kind)
            && ExitDrops(p, code) ==
                 (if HasStatus(p, Status.Done) || HasStatus(p, Status.Error) then p.row else None)
  {
  }

  /** The exit's outcome is the ledger entry's, once the completion leaves the card. */
  lemma ExitOutcomeIsFiled(p: Pane, code: Option<int>, tick: nat, now: nat, id: PaneId, tab: TabId, name: string)
    requires ExitApplies(p, code)
    ensures var entry := FromObservation(id, OnExit(p, code, tick, now).row.value, tab, name);
            && entry.Some? && entry.value.atEpochS == now && entry.value.paneId == id && entry.value.tabId == tab
            && entry.value.outcome == if code.Some? && code.value != 0 then LedgerOutcome.Error else LedgerOutcome.Done
  {
  }

  // ----- what comes to the foreground -----

  const SHELLS: set<string> := {
    "zsh", "bash", "fish", "sh", "dash", "ash", "ksh", "mksh", "tcsh", "csh", "nu", "nushell", "pwsh", "elvish",
    "xonsh", "starship", "direnv"
  }
  /** A report is the return to the prompt exactly when it is of a shell or an agent - or of a background process that
      is not interactive. */
  lemma PromptReturnIff(argv: seq<string>, isForeground: bool, cwd: Option<string>, interactive: set<string>,
                        remoteExtras: set<string>, classify: Classifier)
    ensures var name := EffectiveProgram(argv).1;
            Judge(argv, isForeground, cwd, interactive, remoteExtras, classify) == Ignored
            <==> name in SHELLS || name in AGENTS || (!isForeground && name !in interactive)
  {
  }

  /** Anything else with a display is taken in under it: in the pane's directory, as a remote session when the program
      is one of the extras, and as interactive when it is one of those. */
  lemma ForegroundIsTakenIn(argv: seq<string>, isForeground: bool, cwd: Option<string>, interactive: set<string>,
                            remoteExtras: set<string>, classify: Classifier)
    ensures var (command, name) := EffectiveProgram(argv);
            var (display, kind) := classify(command);
            var intake := Judge(argv, isForeground, cwd, interactive, remoteExtras, classify);
            intake != Ignored ==>
              && (intake == Unclassified <==> display == "")
              && (intake.Foreground? ==>
                    && intake.command == display && intake.program == name
                     && (intake.interactive <==> name in interactive)
                    && intake.cwd == (if cwd.Some? then cwd.value else "")
                    && intake.kind == if name in remoteExtras then Kind.Remote else kind)
  {
  }

  /** Back at the prompt a pending command is forgotten, and a running one starts to leave; a second report does not
      put the leaving off. No row moves. */
  lemma PromptReturnLeaves(p: Pane, tick: nat)
    ensures var q := OnCommand(p, Ignored, tick);
            && q.row == p.row && q.exit == p.exit && q.pending.None?
            && q.leaving == if HasStatus(p, Status.Running) && p.leaving.None? then Some(tick) else p.leaving
  {
  }

  /** A report without a display is no evidence of anything. */
  lemma UnclassifiedIsIgnored(p: Pane, tick: nat)
    ensures OnCommand(p, Unclassified, tick) == p
  {
  }

  /** A command that comes to the front waits since this tick, and the last exit is history. A running row stops
      leaving, unless the newcomer is interactive: then it leaves. */
  lemma ForegroundWaits(p: Pane, command: string, kind: Kind, cwd: string, program: string, interactive: bool,
                        tick: nat)
    ensures var q := OnCommand(p, Foreground(command, kind, cwd, program, interactive), tick);
            && q.row == p.row && q.exit.None?
            && q.pending == Some(PendingCommand(command, cwd, kind, tick, !interactive, program))
            && q.leaving == (if !interactive then None
                             else if HasStatus(p, Status.Running) && p.leaving.None? then Some(tick)
                             else p.leaving)
            && QuietIdentity(q) == if interactive then Some((command, kind)) else None
  {
  }

  // ----- the repo column -----

  /** The repo column is the last segment of the directory - trailing slashes or not - cut to forty characters. */
  lemma RepoIsLastSegment(dir: string, segment: string)
    requires segment != "" && !Has(segment, '/') && AllKept(segment)
    ensures RepoOf(dir + "/" + segment) == RepoOf(dir + "/" + segment + "/") == Take(segment, 40)
  {
    var path := dir + "/" + segment;
    BasenameOfPath(dir, segment);
    CleanTextSurvives(segment);
    assert (path + "/")[..|path + "/"| - 1] == path;
  }

  // ----- the sweeps -----

  /** A running row whose first word became interactive goes idle, unless it is leaving already; the pane shows the
      word as its quiet label, unless a command is pending. No other row moves. */
  lemma InteractiveSweepDemotes(p: Pane, names: set<string>)
    ensures var q := OnInteractive(p, names);
            var demoted := HasStatus(p, Status.Running) && p.leaving.None? && FirstToken(p.row.value.msg).Some?
                           && FirstToken(p.row.value.msg).value in names;
            && q.row == (if demoted then Some(p.row.value.(status := Status.Idle)) else p.row)
            && q.leaving == p.leaving && q.exit == p.exit
            && (p.pending.Some? ==>
                   q.pending == Some(p.pending.value.(promotable := p.pending.value.program !in names)))
            && (p.pending.None? && !demoted ==> q.pending.None?)
            && (p.pending.None? && demoted ==> QuietIdentity(q) == Some((p.row.value.msg, p.row.value.kind)))
  {
  }

  /** The first word of a row tells whether the extras call it remote. */
  predicate FirstWordIs(p: Pane, name: string) {
    p.row.Some? && FirstToken(p.row.value.msg) == Some(name)
  }

  /** A row becomes remote when its first word is one of the extras, and a plain command when it is remote by nothing:
      not by an extra, not by a built-in launcher. */
  lemma RemoteSweepRekinds(p: Pane, extras: set<string>, name: string)
    requires FirstWordIs(p, name)
    ensures var before, after := p.row.value, OnRemote(p, extras).row.value;
            && after == before.(kind := after.kind)
            && after.kind == if name in extras then Kind.Remote
                             else if before.kind == Kind.Remote
                                     && name !in {"ssh", "mosh", "mosh-client", "autossh", "et"}
                             then Kind.Command
                             else before.kind
  {
  }

  /** And a pending command by its program. */
  lemma RemoteSweepRekindsPending(p: Pane, extras: set<string>)
    requires p.pending.Some?
    ensures var before, after := p.pending.value, OnRemote(p, extras).pending.value;
            && after == before.(kind := after.kind)
            && after.kind ==
                 if before.program in extras then Kind.Remote
                 else if before.kind == Kind.Remote
                         && before.program !in {"ssh", "mosh", "mosh-client", "autossh", "et"}
                 then Kind.Command
                 else before.kind
  {
  }

  /** A row nothing is written on, the sweeps leave alone. */
  lemma BlankRowsAreLeftAlone(p: Pane, names: set<string>)
    requires p.row.Some? && IsBlank(p.row.value.msg)
    ensures OnInteractive(p, names).row == p.row && OnRemote(p, names).row == p.row
  {
    BlankHasNoToken(p.row.value.msg);
  }

  lemma {:induction false} BlankHasNoToken(s: string)
    requires IsBlank(s)
    ensures SkipWhitespace(s) == ""
  {
    if s != "" {
      assert IsWhitespace(s[0]);
      BlankHasNoToken(s[1..]);
    }
  }

  lemma {:induction false} SpacesAreSkipped(front: string, rest: string)
    requires IsBlank(front)
    ensures SkipWhitespace(front + rest) == SkipWhitespace(rest)
  {
    if front == "" {
      assert front + rest == rest;
    } else {
      assert IsWhitespace(front[0]) && (front + rest)[1..] == front[1..] + rest;
      SpacesAreSkipped(front[1..], rest);
    }
  }

  lemma {:induction false} WordIsRead(word: string, rest: string)
    requires forall k :: 0 <= k < |word| ==> !IsWhitespace(word[k])
    requires rest == "" || IsWhitespace(rest[0])
    ensures LeadingWord(word + rest) == word
  {
    if word == "" {
      assert word + rest == rest;
    } else {
      assert (word + rest)[1..] == word[1..] + rest;
      WordIsRead(word[1..], rest);
    }
  }

  lemma {:induction false} DashesAreTrimmed(dashes: string, word: string)
    requires (forall k :: 0 <= k < |dashes| ==> dashes[k] == '-') && word != "" && word[0] != '-'
    ensures TrimDashes(dashes + word) == word
  {
    if dashes == "" {
      assert dashes + word == word;
    } else {
      assert (dashes + word)[1..] == dashes[1..] + word;
      DashesAreTrimmed(dashes[1..], word);
    }
  }

  /** The first word of a display: past leading space, up to the next, without a login shell's dashes. */
  lemma FirstTokenIs(space: string, dashes: string, word: string, rest: string)
    requires IsBlank(space) && (forall k :: 0 <= k < |dashes| ==> dashes[k] == '-')
    requires word != "" && word[0] != '-' && forall k :: 0 <= k < |word| ==> !IsWhitespace(word[k])
    requires rest == "" || IsWhitespace(rest[0])
    ensures FirstToken(space + (dashes + word + rest)) == Some(word)
  {
    var token := dashes + word;
    SpacesAreSkipped(space, token + rest);
    assert (token + rest)[0] == token[0] && !IsWhitespace(token[0]);
    WordIsRead(token, rest);
    DashesAreTrimmed(dashes, word);
  }
}
