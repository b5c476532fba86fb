/** Whole runs of the command store: what every run keeps, that completions are conserved, that replays are silent,
    when the timer may be disarmed, and what the configuration sweeps undo. */
module CommandRuns {
  import opened Prelude
  import opened Vocabulary
  import opened Sanitizer
  import opened Argv
  import opened Observation
  import opened CommandPane
  import opened CommandStores

  /** Everything the plugin feeds the store. */
  datatype Event =
    | CommandChanged(id: PaneId, argv: seq<string>, isForeground: bool, cwd: Option<string>, tick: nat)
    | Timer(tick: nat, now: nat)
    | Exit(id: PaneId, code: Option<int>, tick: nat, now: nat)
    | Prune(live: set<PaneId>)
    | SetInteractive(extras: set<string>)
    | SetRemote(extras: set<string>)

  datatype Config = Config(interactive: set<string>, remoteExtras: set<string>)

  const INITIAL_CONFIG := Config(DEFAULT_INTERACTIVE, {})

  function ConfigAfter(c: Config, e: Event): Config {
    match e
    case SetInteractive(extras) => c.(interactive := DEFAULT_INTERACTIVE + extras)
    case SetRemote(extras) => c.(remoteExtras := extras - DEFAULT_REMOTE)
    case _ => c
  }

  /** One pane after an event; `c` is the configuration before it. */
  function StepPane(f: Classifier, c: Config, id: PaneId, p: Pane, e: Event): Pane {
    match e
    case CommandChanged(x, argv, isForeground, cwd, tick) =>
      if x == id then OnCommand(p, Judge(argv, isForeground, cwd, c.interactive, c.remoteExtras, f), tick) else p
    case Timer(tick, now) => OnTick(p, tick, now)
    case Exit(x, code, tick, now) => if x == id then OnExit(p, code, tick, now) else p
    case Prune(live) => if id in live then p else NO_PANE
    case SetInteractive(extras) => OnInteractive(p, DEFAULT_INTERACTIVE + extras)
    case SetRemote(extras) => OnRemote(p, extras - DEFAULT_REMOTE)
  }

  /** The observation an event hands out of the store for this pane. */
  function HandedOut(id: PaneId, p: Pane, e: Event): Option<Tracked> {
    match e
    case Timer(tick, now) => TickDrops(p, tick, now)
    case Exit(x, code, _, _) => if x == id then ExitDrops(p, code) else None
    case Prune(live) => if id in live then None else p.row
    case _ => None
  }

  /** The completion an event stamps on this pane: a confirmed return to the shell, or an exit that applies. */
  function Stamped(id: PaneId, p: Pane, e: Event): Option<(Status, nat)> {
    match e
    case Timer(tick, now) => if TickCompletes(p, tick).Some? then Some((Status.Done, now)) else None
    case Exit(x, code, _, now) => if x == id && ExitApplies(p, code) then Some((ExitStatus(code), now)) else None
    case _ => None
  }

  // ----- the store goes through exactly these steps -----

  method Handle(s: CommandStore, e: Event) returns (handed: Drops)
    requires s.AllCoherent()
    modifies s, s.store
    ensures var c := old(Config(s.interactive, s.remoteExtras));
            && Config(s.interactive, s.remoteExtras) == ConfigAfter(c, e)
            && (forall id :: s.PaneAt(id) == StepPane(s.classify, c, id, old(s.PaneAt(id)), e))
            && (forall id :: Lookup(handed, id) == HandedOut(id, old(s.PaneAt(id)), e))
  {
    handed := map[];
    match e {
      case CommandChanged(id, argv, isForeground, cwd, tick) =>
        s.OnCommandChanged(id, argv, isForeground, cwd, tick);
      case Timer(tick, now) =>
        var report := s.OnTimer(tick, now);
        handed := report.receded;
      case Exit(id, code, tick, now) =>
        var receded := s.ApplyExit(id, code, tick, now);
        if receded.Some? {
          handed := map[id := receded.value];
        }
      case Prune(live) =>
        handed := s.Prune(live);
      case SetInteractive(extras) =>
        var _ := s.SetInteractiveExtras(extras);
      case SetRemote(extras) =>
        var _ := s.SetRemoteExtras(extras);
    }
  }

  function ConfigOf(es: seq<Event>): Config
    decreases |es|
  {
    if es == [] then INITIAL_CONFIG else ConfigAfter(ConfigOf(es[..|es| - 1]), es[|es| - 1])
  }

  /** A pane after a run from the empty store. */
  function RunPane(f: Classifier, es: seq<Event>, id: PaneId): Pane
    decreases |es|
  {
    if es == [] then NO_PANE
    else StepPane(f, ConfigOf(es[..|es| - 1]), id, RunPane(f, es[..|es| - 1], id), es[|es| - 1])
  }

  /** Driving a fresh store through a run leaves every pane where `RunPane` says. */
  method Drive(f: Classifier, es: seq<Event>) returns (s: CommandStore)
    ensures forall id :: s.PaneAt(id) == RunPane(f, es, id)
    ensures Config(s.interactive, s.remoteExtras) == ConfigOf(es)
  {
    s := new CommandStore(f);
    for n := 0 to |es|
      invariant fresh(s) && fresh(s.store) && s.classify == f
      invariant forall id :: s.PaneAt(id) == RunPane(f, es[..n], id)
      invariant Config(s.interactive, s.remoteExtras) == ConfigOf(es[..n])
    {
      forall id ensures Coherent(s.PaneAt(id)) {
        EveryRunIsCoherent(f, es[..n], id);
      }
      assert es[..n + 1][..n] == es[..n];
      var _ := Handle(s, es[n]);
    }
    assert es[..|es|] == es;
  }

  // ----- invariants -----

  lemma RepoOfRepo(cwd: string)
    ensures RepoOf(RepoOf(cwd)) == RepoOf(cwd)
  {
    var base := Basename(cwd);
    var repo := RepoOf(cwd);
    if Has(repo, '/') {
      ScrubbedAddsOnlySpaces(base, '/');
    }
    BasenameOfSegment(repo);
    SanitizeTwice(base, MAX_REPO_CHARS, MAX_REPO_CHARS);
  }

  lemma CommandKeepsInvariants(p: Pane, intake: Intake, tick: nat)
    requires Coherent(p) && WellStamped(p)
    ensures var q := OnCommand(p, intake, tick); Coherent(q) && WellStamped(q)
  {
  }

  lemma TickKeepsInvariants(p: Pane, tick: nat, now: nat)
    requires Coherent(p) && WellStamped(p)
    ensures var q := OnTick(p, tick, now); Coherent(q) && WellStamped(q)
  {
    if p.pending.Some? {
      RepoOfRepo(p.pending.value.cwd);
    }
    var q := Promote(p, tick);
    assert Coherent(q) && WellStamped(q);
    var r := Confirm(q, tick, now);
    assert Coherent(r) && WellStamped(r);
  }

  lemma ExitKeepsInvariants(p: Pane, code: Option<int>, tick: nat, now: nat)
    requires Coherent(p) && WellStamped(p)
    ensures var q := OnExit(p, code, tick, now); Coherent(q) && WellStamped(q)
  {
  }

  lemma SweepsKeepInvariants(p: Pane, names: set<string>)
    requires Coherent(p) && WellStamped(p)
    ensures var q := OnInteractive(p, names); Coherent(q) && WellStamped(q)
    ensures var q := OnRemote(p, names); Coherent(q) && WellStamped(q)
  {
  }

  lemma StepKeepsInvariants(f: Classifier, c: Config, id: PaneId, p: Pane, e: Event)
    requires Coherent(p) && WellStamped(p)
    ensures var q := StepPane(f, c, id, p, e); Coherent(q) && WellStamped(q)
  {
    match e
    case CommandChanged(_, argv, isForeground, cwd, tick) =>
      CommandKeepsInvariants(p, Judge(argv, isForeground, cwd, c.interactive, c.remoteExtras, f), tick);
    case Timer(tick, now) => TickKeepsInvariants(p, tick, now);
    case Exit(_, code, tick, now) => ExitKeepsInvariants(p, code, tick, now);
    case Prune(_) =>
    case SetInteractive(extras) => SweepsKeepInvariants(p, DEFAULT_INTERACTIVE + extras);
    case SetRemote(extras) => SweepsKeepInvariants(p, extras - DEFAULT_REMOTE);
  }

  /** In every reachable state an exit on record excludes a pending command and a running row, only running rows are
      leaving, and a row is stamped exactly while it displays a completion. */
  lemma {:induction false} EveryRunIsCoherent(f: Classifier, es: seq<Event>, id: PaneId)
    ensures Coherent(RunPane(f, es, id)) && WellStamped(RunPane(f, es, id))
    decreases |es|
  {
    if es != [] {
      var front := es[..|es| - 1];
      EveryRunIsCoherent(f, front, id);
      StepKeepsInvariants(f, ConfigOf(front), id, RunPane(f, front, id), es[|es| - 1]);
    }
  }

  // ----- conservation of completions -----

  predicate Displays(row: Option<Tracked>, outcome: Status, stamp: nat) {
    row.Some? && row.value.status == outcome && outcome.IsCompletion() && row.value.completedEpochS == Some(stamp)
  }

  function One(b: bool): nat {
    if b then 1 else 0
  }

  /** How often a run stamped this completion on this pane. */
  function TimesStamped(f: Classifier, es: seq<Event>, id: PaneId, outcome: Status, stamp: nat): nat
    decreases |es|
  {
    if es == [] then 0
    else
      var front := es[..|es| - 1];
      TimesStamped(f, front, id, outcome, stamp)
      + One(Stamped(id, RunPane(f, front, id), es[|es| - 1]) == Some((outcome, stamp)))
  }

  /** How often it handed it out. */
  function TimesHandedOut(f: Classifier, es: seq<Event>, id: PaneId, outcome: Status, stamp: nat): nat
    decreases |es|
  {
    if es == [] then 0
    else
      var front := es[..|es| - 1];
      TimesHandedOut(f, front, id, outcome, stamp)
      + One(Displays(HandedOut(id, RunPane(f, front, id), es[|es| - 1]), outcome, stamp))
  }

  lemma TickConserves(p: Pane, tick: nat, now: nat, outcome: Status, stamp: nat)
    requires Coherent(p) && WellStamped(p)
    ensures One(Displays(p.row, outcome, stamp))
            + One(TickCompletes(p, tick).Some? && outcome == Status.Done && stamp == now)
         == One(Displays(OnTick(p, tick, now).row, outcome, stamp))
            + One(Displays(TickDrops(p, tick, now), outcome, stamp))
  {
    if PromotionDue(p, tick) {
      assert HasStatus(Promote(p, tick), Status.Running);
    }
  }

  lemma ExitConserves(p: Pane, code: Option<int>, tick: nat, now: nat, outcome: Status, stamp: nat)
    requires Coherent(p) && WellStamped(p)
    ensures One(Displays(p.row, outcome, stamp))
            + One(ExitApplies(p, code) && outcome == ExitStatus(code) && stamp == now)
         == One(Displays(OnExit(p, code, tick, now).row, outcome, stamp))
            + One(Displays(ExitDrops(p, code), outcome, stamp))
  {
  }

  lemma SweepsConserve(p: Pane, names: set<string>, outcome: Status, stamp: nat)
    ensures Displays(OnInteractive(p, names).row, outcome, stamp) == Displays(p.row, outcome, stamp)
    ensures Displays(OnRemote(p, names).row, outcome, stamp) == Displays(p.row, outcome, stamp)
  {
  }

  lemma StepConserves(f: Classifier, c: Config, id: PaneId, p: Pane, e: Event, outcome: Status, stamp: nat)
    requires Coherent(p) && WellStamped(p)
    ensures One(Displays(p.row, outcome, stamp)) + One(Stamped(id, p, e) == Some((outcome, stamp)))
         == One(Displays(StepPane(f, c, id, p, e).row, outcome, stamp))
            + One(Displays(HandedOut(id, p, e), outcome, stamp))
  {
    match e
    case CommandChanged(_, _, _, _, _) =>
    case Timer(tick, now) => TickConserves(p, tick, now, outcome, stamp);
    case Exit(_, code, tick, now) => ExitConserves(p, code, tick, now, outcome, stamp);
    case Prune(_) =>
    case SetInteractive(extras) => SweepsConserve(p, DEFAULT_INTERACTIVE + extras, outcome, stamp);
    case SetRemote(extras) => SweepsConserve(p, extras - DEFAULT_REMOTE, outcome, stamp);
  }

  /** No completion is lost or duplicated: over any run from the empty store, each was stamped as often as it was handed
      out, plus once if it is still displayed. */
  lemma {:induction false} CompletionsAreConserved(f: Classifier, es: seq<Event>, id: PaneId, outcome: Status,
                                                   stamp: nat)
    ensures TimesStamped(f, es, id, outcome, stamp)
         == TimesHandedOut(f, es, id, outcome, stamp) + One(Displays(RunPane(f, es, id).row, outcome, stamp))
    decreases |es|
  {
    if es != [] {
      var front := es[..|es| - 1];
      CompletionsAreConserved(f, front, id, outcome, stamp);
      EveryRunIsCoherent(f, front, id);
      StepConserves(f, ConfigOf(front), id, RunPane(f, front, id), es[|es| - 1], outcome, stamp);
    }
  }

  // ----- exits -----

  /** The exit of a run in flight is always news: it labels the row with that run and stamps it. */
  lemma InFlightExitApplies(p: Pane, code: Option<int>, tick: nat, now: nat)
    requires Coherent(p) && (p.pending.Some? || HasStatus(p, Status.Running))
    ensures var q := OnExit(p, code, tick, now);
            && Displays(q.row, ExitStatus(code), now) && q.row.value.exitCode == code
            && (q.row.value.status == Status.Error <==> code.Some? && code.value != 0)
            && (q.row.value.status == Status.Done <==> code.None? || code.value == 0)
            && q.pending.None? && q.leaving.None? && q.exit == Some(code)
            && (p.pending.Some? ==> q.row.value.msg == p.pending.value.command
                                    && q.row.value.repo == RepoOf(p.pending.value.cwd)
                                    && q.row.value.kind == p.pending.value.kind)
  {
  }

  /** Nothing in flight, and the exit either on record or receded. */
  predicate Settled(p: Pane, code: Option<int>) {
    && p.pending.None? && p.leaving.None? && !HasStatus(p, Status.Running)
    && (p.exit == Some(code) || HasStatus(p, Status.Idle))
  }

  /** Events that bring the pane no foreground command, no prune and no other exit. */
  predicate Quiet(f: Classifier, c: Config, id: PaneId, code: Option<int>, e: Event) {
    match e
    case CommandChanged(x, argv, isForeground, cwd, _) =>
      x == id ==> !Judge(argv, isForeground, cwd, c.interactive, c.remoteExtras, f).Foreground?
    case Exit(x, other, _, _) => x == id ==> other == code
    case Prune(live) => id in live
    case _ => true
  }

  lemma QuietKeepsSettled(f: Classifier, c: Config, id: PaneId, p: Pane, code: Option<int>, e: Event)
    requires Settled(p, code) && Quiet(f, c, id, code, e)
    ensures Settled(StepPane(f, c, id, p, e), code)
  {
  }

  /** A pane and the configuration after some events. */
  function After(f: Classifier, c: Config, id: PaneId, p: Pane, es: seq<Event>): (Config, Pane)
    decreases |es|
  {
    if es == [] then (c, p) else After(f, ConfigAfter(c, es[0]), id, StepPane(f, c, id, p, es[0]), es[1..])
  }

  predicate AllQuiet(f: Classifier, c: Config, id: PaneId, code: Option<int>, es: seq<Event>)
    decreases |es|
  {
    es != [] ==> Quiet(f, c, id, code, es[0]) && AllQuiet(f, ConfigAfter(c, es[0]), id, code, es[1..])
  }

  lemma {:induction false} QuietRunKeepsSettled(f: Classifier, c: Config, id: PaneId, p: Pane, code: Option<int>,
                                                es: seq<Event>)
    requires Settled(p, code) && AllQuiet(f, c, id, code, es)
    ensures Settled(After(f, c, id, p, es).1, code)
    decreases |es|
  {
    if es != [] {
      QuietKeepsSettled(f, c, id, p, code, es[0]);
      QuietRunKeepsSettled(f, ConfigAfter(c, es[0]), id, StepPane(f, c, id, p, es[0]), code, es[1..]);
    }
  }

  /** Zellij re-reports an exited pane on every manifest. Once an exit has been reported, reporting it again - after any
      number of ticks, sweeps, prompt returns and other replays - changes nothing and hands out nothing. */
  lemma ReplayedExitIsSilent(f: Classifier, c: Config, id: PaneId, p: Pane, code: Option<int>, tick: nat, now: nat,
                             es: seq<Event>, tick': nat, now': nat)
    requires Coherent(p) && AllQuiet(f, c, id, code, es)
    ensures var q := After(f, c, id, OnExit(p, code, tick, now), es).1;
            OnExit(q, code, tick', now') == q && ExitDrops(q, code).None?
  {
    assert Settled(OnExit(p, code, tick, now), code);
    QuietRunKeepsSettled(f, c, id, OnExit(p, code, tick, now), code, es);
  }

  // ----- the life of a command -----

  /** A command in an empty pane: running once it has been in the foreground for the debounce, under its own label and
      directory; done, stamped, once it has been away for the debounce; idle, the completion handed out, once that has
      stood for its time to live. */
  lemma CommandRunsItsCourse(command: string, kind: Kind, cwd: string, program: string, started: nat, left: nat,
                             t: nat, u: nat, v: nat, now: nat)
    requires t >= started + DEBOUNCE_TICKS && u >= left + DEBOUNCE_TICKS && v >= u + DONE_TTL_TICKS
    ensures var running := OnTick(OnCommand(NO_PANE, Foreground(command, kind, cwd, program, false), started), t, now);
            var done := OnTick(OnCommand(running, Ignored, left), u, now);
            var row := CommandRow(Status.Running, RepoOf(cwd), command, kind, t);
            var doneRow := row.(status := Status.Done, lastChangeTick := u, completedEpochS := Some(now));
            && running == Pane(Some(row), None, None, None)
            && done == Pane(Some(doneRow), None, None, None)
            && TickCompletes(OnCommand(running, Ignored, left), u) == Some(kind)
            && TickDrops(done, v, now) == Some(doneRow) && HasStatus(OnTick(done, v, now), Status.Idle)
  {
    var pending := OnCommand(NO_PANE, Foreground(command, kind, cwd, program, false), started);
    assert PromotionDue(pending, t);
    var running := OnTick(pending, t, now);
    assert running == Pane(Some(CommandRow(Status.Running, RepoOf(cwd), command, kind, t)), None, None, None);
    var leaving := OnCommand(running, Ignored, left);
    assert leaving == running.(leaving := Some(left)) && Confirms(leaving, u);
  }

  /** A command that leaves the foreground and is reported again before the debounce is out never completes: the row is
      the same row, start included, however often that happens. */
  lemma FlickerIsIgnored(p: Pane, cwd: string, program: string, left: nat, t: nat, back: nat, u: nat, now: nat)
    requires Coherent(p) && HasStatus(p, Status.Running) && p.pending.None? && p.leaving.None?
    requires var r := p.row.value; r == CommandRow(Status.Running, RepoOf(cwd), r.msg, r.kind, r.lastChangeTick)
    requires t < left + DEBOUNCE_TICKS && u >= back + DEBOUNCE_TICKS
    ensures var away := OnTick(OnCommand(p, Ignored, left), t, now);
            var returned := OnCommand(away, Foreground(p.row.value.msg, p.row.value.kind, cwd, program, false), back);
            OnTick(returned, u, now) == p && TickCompletes(OnCommand(p, Ignored, left), t).None?
            && TickCompletes(returned, u).None? && TickDrops(returned, u, now).None?
  {
  }

  /** An interactive command never becomes a row of its own, however many ticks pass. */
  lemma {:induction false} EditorNeverRuns(command: string, kind: Kind, cwd: string, program: string, started: nat,
                                           ts: seq<(nat, nat)>)
    ensures var p := OnCommand(NO_PANE, Foreground(command, kind, cwd, program, true), started);
            Ticks(p, ts) == p && p.row.None? && QuietIdentity(p) == Some((command, kind))
  {
    QuietPaneSitsOutTicks(OnCommand(NO_PANE, Foreground(command, kind, cwd, program, true), started), ts);
  }

  // ----- disarming the timer -----

  /** With no tick-driven work and no Done awaiting its recede, every tick is the identity and hands out nothing - so
      the condition persists, and the timer may stay disarmed. */
  lemma IdleTickIsIdentity(p: Pane, tick: nat, now: nat)
    requires !PaneNeedsTicks(p) && !HasStatus(p, Status.Done)
    ensures OnTick(p, tick, now) == p && TickDrops(p, tick, now).None? && TickCompletes(p, tick).None?
  {
  }

  /** The condition is not idle: a pane that needs ticks for a scheduled step, or shows a Done, changes by the time its
      deadline has passed. */
  lemma DueTickChangesPane(p: Pane, tick: nat, now: nat)
    requires (p.pending.Some? && p.pending.value.promotable && tick >= p.pending.value.sinceTick + DEBOUNCE_TICKS)
             || (p.leaving.Some? && tick >= p.leaving.value + DEBOUNCE_TICKS)
             || (HasStatus(p, Status.Done) && tick >= p.row.value.lastChangeTick + DONE_TTL_TICKS)
    ensures OnTick(p, tick, now) != p
  {
  }

  // ----- configuration sweeps -----

  /** Applying the same interactive set again changes nothing. */
  lemma InteractiveSweepIsIdempotent(p: Pane, interactive: set<string>)
    ensures OnInteractive(OnInteractive(p, interactive), interactive) == OnInteractive(p, interactive)
  {
  }

  function Ticks(p: Pane, ts: seq<(nat, nat)>): Pane
    decreases |ts|
  {
    if ts == [] then p else Ticks(OnTick(p, ts[0].0, ts[0].1), ts[1..])
  }

  lemma {:induction false} QuietPaneSitsOutTicks(p: Pane, ts: seq<(nat, nat)>)
    requires !PaneNeedsTicks(p) && !HasStatus(p, Status.Done)
    ensures Ticks(p, ts) == p
  {
    if ts != [] {
      IdleTickIsIdentity(p, ts[0].0, ts[0].1);
      QuietPaneSitsOutTicks(p, ts[1..]);
    }
  }

  /** Adding a running row's name to the interactive set demotes it; taking the name out again, any number of ticks
      later, gives the row back on the first tick past the debounce - the same repo, message, kind and everything else
      but the start tick - with no completion emitted at any point. */
  lemma {:induction false} DemotionIsUndone(p: Pane, added: set<string>, ts: seq<(nat, nat)>, removed: set<string>,
                                            tick: nat, now: nat)
    requires Coherent(p) && WellStamped(p) && HasStatus(p, Status.Running) && p.pending.None?
    requires DemotionDue(p, added) && FirstToken(p.row.value.msg).value !in removed
    requires tick >= p.row.value.lastChangeTick + DEBOUNCE_TICKS
    ensures var demoted := OnInteractive(p, added);
            var waited := Ticks(demoted, ts);
            var unquieted := OnInteractive(waited, removed);
            && HasStatus(demoted, Status.Idle) && QuietIdentity(waited) == Some((p.row.value.msg, p.row.value.kind))
            && OnTick(unquieted, tick, now) == p.(row := Some(p.row.value.(lastChangeTick := tick)))
            && TickDrops(unquieted, tick, now).None? && TickCompletes(unquieted, tick).None?
  {
    var demoted := OnInteractive(p, added);
    QuietPaneSitsOutTicks(demoted, ts);
  }

  /** Applying the same remote extras again changes nothing. */
  lemma RemoteSweepIsIdempotent(p: Pane, extras: set<string>)
    ensures OnRemote(OnRemote(p, extras), extras) == OnRemote(p, extras)
  {
  }

  /** Unlike the interactive sweep, the remote one forgets: adding a launcher and taking it out again gives a row its
      kind back exactly when that kind was plain Command. */
  lemma RemoteFlipForgetsKind(p: Pane, added: set<string>, removed: set<string>)
    requires p.row.Some? && FirstToken(p.row.value.msg).Some?
    requires var name := FirstToken(p.row.value.msg).value;
             name in added && name !in removed && name !in DEFAULT_REMOTE
    ensures OnRemote(OnRemote(p, added), removed).row == p.row <==> p.row.value.kind == Kind.Command
  {
  }
}
