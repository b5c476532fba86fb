/** One pane of the command store (crates/core/src/command.rs): the lifecycle as a state machine over the four things
    the store's maps hold about it. `CommandStore` applies these steps to its maps, pane by pane. */
module CommandPane {
  import opened Prelude
  import opened Vocabulary
  import opened Sanitizer
  import opened Observation
  import opened Argv

  const DEBOUNCE_TICKS: nat := 2
  const DONE_TTL_TICKS: nat := 60
  const MAX_REPO_CHARS: nat := 40
  const DEFAULT_INTERACTIVE: set<string> := {
    "vi", "vim", "nvim", "emacs", "nano", "hx", "kak", "micro", "less", "more", "most", "man", "htop", "btop", "top",
    "lazygit", "tig", "gitui", "k9s", "fzf", "ranger", "yazi", "nnn", "lf", "mc"
  }
  const DEFAULT_REMOTE: set<string> := {"ssh", "mosh", "mosh-client", "autossh", "et"}

  /** A foreground command awaiting promotion - or, not promotable, a quiet identity. */
  datatype PendingCommand = PendingCommand(
    command: string, cwd: string, kind: Kind, sinceTick: nat, promotable: bool, program: string)

  /** A pane: its row, its pending command, the tick its running command was seen leaving, the last exit applied. */
  datatype Pane = Pane(
    row: Option<Tracked>, pending: Option<PendingCommand>, leaving: Option<nat>, exit: Option<Option<int>>)

  const NO_PANE := Pane(None, None, None, None)

  predicate HasStatus(p: Pane, s: Status) {
    p.row.Some? && p.row.value.status == s
  }

  /** The row's repo column: the sanitized basename of a working directory. */
  function RepoOf(cwd: string): string {
    Sanitize(Basename(cwd), MAX_REPO_CHARS)
  }

  /** The leading run of non-whitespace. */
  function LeadingWord(s: string): string {
    if s == [] || IsWhitespace(s[0]) then [] else [s[0]] + LeadingWord(s[1..])
  }

  function SkipWhitespace(s: string): string {
    if s != [] && IsWhitespace(s[0]) then SkipWhitespace(s[1..]) else s
  }

  /** The first word of a display, without a login shell's dashes. */
  function FirstToken(display: string): Option<string> {
    var rest := SkipWhitespace(display);
    if rest == [] then None else Some(TrimDashes(LeadingWord(rest)))
  }

  // ----- intake -----

  /** What a `CommandChanged` event amounts to once its argv is peeled and classified. */
  datatype Intake =
    | Ignored                     // back at the prompt, or an agent's process
    | Unclassified                // no evidence about the pane
    | Foreground(command: string, kind: Kind, cwd: string, program: string, interactive: bool)

  function ArmLeaving(p: Pane, tick: nat): Pane {
    if HasStatus(p, Status.Running) && p.leaving.None? then p.(leaving := Some(tick)) else p
  }

  function OnCommand(p: Pane, intake: Intake, tick: nat): Pane {
    match intake
    case Ignored => ArmLeaving(p.(pending := None), tick)
    case Unclassified => p
    case Foreground(command, kind, cwd, program, interactive) =>
      var q := if interactive then ArmLeaving(p, tick) else p.(leaving := None);
      q.(exit := None, pending := Some(PendingCommand(command, cwd, kind, tick, !interactive, program)))
  }

  // ----- the timer's three phases -----

  predicate PromotionDue(p: Pane, tick: nat) {
    p.pending.Some? && p.pending.value.promotable && SatSub(tick, p.pending.value.sinceTick) >= DEBOUNCE_TICKS
  }

  /** The row a pending command is promoted to: a re-report of the same running command keeps its start. */
  function PromotedRow(p: Pane, tick: nat): Tracked
    requires p.pending.Some?
  {
    var c := p.pending.value;
    var promoted := CommandRow(Status.Running, RepoOf(c.cwd), c.command, c.kind, tick);
    if HasStatus(p, Status.Running) && p.row.value.msg == promoted.msg
    then promoted.(lastChangeTick := p.row.value.lastChangeTick)
    else promoted
  }

  function Promote(p: Pane, tick: nat): Pane {
    if PromotionDue(p, tick) then p.(row := Some(PromotedRow(p, tick)), pending := None) else p
  }

  /** The completion a promotion displaces. */
  function PromoteDrops(p: Pane, tick: nat): Option<Tracked> {
    if PromotionDue(p, tick) && p.row.Some? && p.row.value.status.IsCompletion() then p.row else None
  }

  predicate ConfirmDue(p: Pane, tick: nat) {
    p.leaving.Some? && SatSub(tick, p.leaving.value) >= DEBOUNCE_TICKS
  }

  predicate Confirms(p: Pane, tick: nat) {
    ConfirmDue(p, tick) && HasStatus(p, Status.Running)
  }

  function Confirm(p: Pane, tick: nat, now: nat): Pane {
    if !ConfirmDue(p, tick) then p
    else if !HasStatus(p, Status.Running) then p.(leaving := None)
    else
      p.(leaving := None,
         row := Some(p.row.value.(status := Status.Done, lastChangeTick := tick, completedEpochS := Some(now))))
  }

  predicate RecedeDue(p: Pane, tick: nat) {
    HasStatus(p, Status.Done) && SatSub(tick, p.row.value.lastChangeTick) >= DONE_TTL_TICKS
  }

  function Recede(p: Pane, tick: nat): Pane {
    if RecedeDue(p, tick)
    then p.(row := Some(p.row.value.(status := Status.Idle, lastChangeTick := tick, completedEpochS := None)))
    else p
  }

  function RecedeDrops(p: Pane, tick: nat): Option<Tracked> {
    if RecedeDue(p, tick) then p.row else None
  }

  /** One tick of one pane. */
  function OnTick(p: Pane, tick: nat, now: nat): Pane {
    Recede(Confirm(Promote(p, tick), tick, now), tick)
  }

  /** The completion the tick hands out: displaced by a promotion, or receded. */
  function TickDrops(p: Pane, tick: nat, now: nat): Option<Tracked> {
    var displaced := PromoteDrops(p, tick);
    if displaced.Some? then displaced else RecedeDrops(Confirm(Promote(p, tick), tick, now), tick)
  }

  // ----- exits -----

  function ExitStatus(code: Option<int>): Status {
    if code.None? || code.value == 0 then Status.Done else Status.Error
  }

  /** The same outcome is already on display. */
  predicate OutcomeShown(p: Pane, code: Option<int>) {
    p.row.Some? && p.row.value.status == ExitStatus(code) && p.row.value.exitCode == code
  }

  /** Whether an exit report is news, rather than a replay. */
  predicate ExitApplies(p: Pane, code: Option<int>) {
    p.exit != Some(code) && (p.pending.Some? || (!HasStatus(p, Status.Idle) && !OutcomeShown(p, code)))
  }

  /** The completion row an applied exit leaves. */
  function ExitRow(p: Pane, code: Option<int>, tick: nat, now: nat): Tracked {
    var identity :=
      if p.pending.Some? then Some((RepoOf(p.pending.value.cwd), p.pending.value.command, p.pending.value.kind))
      else None;
    if p.row.Some? then
      var r := p.row.value;
      var named :=
        if identity.Some? then r.(repo := identity.value.0, msg := identity.value.1, kind := identity.value.2) else r;
      named.(status := ExitStatus(code), lastChangeTick := tick, exitCode := code, completedEpochS := Some(now))
    else
      var (repo, msg, kind) := if identity.Some? then identity.value else ("", "", Kind.Command);
      CommandRow(ExitStatus(code), repo, msg, kind, tick).(exitCode := code, completedEpochS := Some(now))
  }

  function OnExit(p: Pane, code: Option<int>, tick: nat, now: nat): Pane {
    if p.exit == Some(code) then p
    else if ExitApplies(p, code) then Pane(Some(ExitRow(p, code, tick, now)), None, None, Some(code))
    else if HasStatus(p, Status.Idle) then p
    else p.(exit := Some(code))
  }

  /** The earlier completion an applied exit displaces. */
  function ExitDrops(p: Pane, code: Option<int>): Option<Tracked> {
    if ExitApplies(p, code) && p.row.Some? && p.row.value.status.IsCompletion() then p.row else None
  }

  // ----- configuration sweeps -----

  function Rejudge(p: Pane, interactive: set<string>): Pane {
    if p.pending.Some? then p.(pending := Some(p.pending.value.(promotable := p.pending.value.program !in interactive)))
    else p
  }

  predicate DemotionDue(p: Pane, interactive: set<string>) {
    HasStatus(p, Status.Running) && p.leaving.None?
    && FirstToken(p.row.value.msg).Some? && FirstToken(p.row.value.msg).value in interactive
  }

  function QuietPending(r: Tracked): PendingCommand {
    PendingCommand(r.msg, r.repo, r.kind, r.lastChangeTick, false,
                   if FirstToken(r.msg).Some? then FirstToken(r.msg).value else "")
  }

  function Demote(p: Pane, interactive: set<string>): Pane {
    if DemotionDue(p, interactive) then
      p.(row := Some(p.row.value.(status := Status.Idle)),
         pending := if p.pending.Some? then p.pending else Some(QuietPending(p.row.value)))
    else p
  }

  /** The effect of a new interactive set on one pane. */
  function OnInteractive(p: Pane, interactive: set<string>): Pane {
    Demote(Rejudge(p, interactive), interactive)
  }

  /** The Remote flip a name calls for, if any. */
  function Rekind(name: string, kind: Kind, extras: set<string>): Option<Kind> {
    if name in extras && !kind.IsRemote() then Some(Kind.Remote)
    else if name !in extras && kind.IsRemote() && name !in DEFAULT_REMOTE then Some(Kind.Command)
    else None
  }

  function RekindPending(p: Pane, extras: set<string>): Pane {
    if p.pending.Some? && Rekind(p.pending.value.program, p.pending.value.kind, extras).Some? then
      p.(pending := Some(p.pending.value.(
           kind := Rekind(p.pending.value.program, p.pending.value.kind, extras).value)))
    else p
  }

  function RowRekind(p: Pane, extras: set<string>): Option<Kind> {
    if p.row.None? || FirstToken(p.row.value.msg).None? then None
    else Rekind(FirstToken(p.row.value.msg).value, p.row.value.kind, extras)
  }

  function RekindRow(p: Pane, extras: set<string>): Pane {
    if RowRekind(p, extras).Some? then p.(row := Some(p.row.value.(kind := RowRekind(p, extras).value))) else p
  }

  /** The effect of a new set of remote extras on one pane. */
  function OnRemote(p: Pane, extras: set<string>): Pane {
    RekindRow(RekindPending(p, extras), extras)
  }

  /** The quiet identity feeding the muted pane label. */
  function QuietIdentity(p: Pane): Option<(string, Kind)> {
    if p.pending.Some? && !p.pending.value.promotable
    then Some((p.pending.value.command, p.pending.value.kind))
    else None
  }

  // ----- the relations between the maps -----

  /** An exit on record excludes a run in flight, and only a running row can be leaving. */
  predicate Coherent(p: Pane) {
    && (p.exit.Some? ==> p.pending.None? && !HasStatus(p, Status.Running))
    && (p.leaving.Some? ==> HasStatus(p, Status.Running))
  }

  /** A row is stamped exactly while it displays a completion; a running row is a promoted one. */
  predicate WellStamped(p: Pane) {
    && (p.row.Some? ==> p.row.value.completedEpochS.Some? == p.row.value.status.IsCompletion())
    && (HasStatus(p, Status.Running) ==>
          var r := p.row.value;
          r == CommandRow(Status.Running, r.repo, r.msg, r.kind, r.lastChangeTick) && RepoOf(r.repo) == r.repo)
  }

  // ----- how the passes of one operation combine -----

  /** The Running-to-Done confirm of a tick, with the row's kind. */
  function TickCompletes(p: Pane, tick: nat): Option<Kind> {
    var q := Promote(p, tick);
    if Confirms(q, tick) then Some(q.row.value.kind) else None
  }

  predicate PaneNeedsTicks(p: Pane) {
    (p.pending.Some? && p.pending.value.promotable) || p.leaving.Some? || (p.row.Some? && p.row.value.Animating())
  }

  /** A promotion that displaces a completion leaves nothing to recede in the same tick. */
  lemma PromotedRowsDoNotRecede(p: Pane, tick: nat, now: nat)
    ensures PromoteDrops(p, tick).Some? ==> RecedeDrops(Confirm(Promote(p, tick), tick, now), tick).None?
  {
  }

  /** A row the tick leaves as it was, no pass touched. */
  lemma NoPassUndoesAnother(p: Pane, tick: nat, now: nat)
    requires Coherent(p) && OnTick(p, tick, now).row == p.row
    ensures Promote(p, tick).row == p.row && Confirm(Promote(p, tick), tick, now).row == p.row
  {
  }

  /** A sweep changes a pane exactly when it re-judges its pending or demotes its row. */
  lemma SweepChanges(p: Pane, interactive: set<string>)
    ensures OnInteractive(p, interactive) != p <==>
              Rejudge(p, interactive).pending != p.pending || DemotionDue(Rejudge(p, interactive), interactive)
  {
  }

  lemma RekindChanges(p: Pane, extras: set<string>)
    ensures OnRemote(p, extras) != p <==>
              RekindPending(p, extras).pending != p.pending || RowRekind(RekindPending(p, extras), extras).Some?
  {
  }
}
