/** The session's radar state (crates/plugin/src/radar_state.rs): the live tabs and panes over the two observation
    stores, with a memo of the rows, a grace rule before pruning, and a ledger of what left the rail. */
module RadarStates {
  import opened Prelude
  import opened Vocabulary
  import opened Sanitizer
  import opened Argv
  import opened Observation
  import opened CommandPane
  import opened CommandStores
  import opened StatusStores
  import opened Ledgers
  import opened Rollup
  import opened Grace
  import opened Attention
  import Wire

  const FLASH_TICKS: nat := 2

  datatype RowsMemo = RowsMemo(generation: nat, litFlashes: nat, rows: seq<TabRow>)

  type Flashes = map<TabId, nat>

  /** The tabs mid-flash. */
  function Lit(flashUntil: Flashes, tick: nat): set<TabId> {
    set id | id in flashUntil && tick < flashUntil[id]
  }

  /** The flash of the tab that seats a pane, armed. */
  function Armed(flashUntil: Flashes, tab: Option<TabId>, tick: nat): Flashes {
    if tab.Some? then flashUntil[tab.value := tick + FLASH_TICKS] else flashUntil
  }

  predicate IsShellPrompt(argv: seq<string>) {
    EffectiveProgram(argv).1 in IGNORE_NAMES
  }

  predicate IsAgentCommand(argv: seq<string>) {
    EffectiveProgram(argv).1 in AGENT_NAMES
  }

  predicate RemoteRunning(p: Pane) {
    HasStatus(p, Status.Running) && p.row.value.kind.IsRemote()
  }

  // ----- a manifest, as a function of what it finds -----

  type Exits = seq<(PaneId, Option<int>)>

  /** What a map has of some panes. */
  function Within<T>(m: map<PaneId, T>, ids: set<PaneId>): map<PaneId, T> {
    map id | id in m && id in ids :: m[id]
  }

  /** What a manifest works on: the command store's panes, the pushed rows, the ledger, the flashes. */
  datatype Session = Session(
    panes: imap<PaneId, Pane>, rows: map<PaneId, Tracked>, entries: seq<LedgerEntry>, flashUntil: Flashes)
  {
    ghost predicate Total() {
      forall id: PaneId :: id in panes
    }
  }

  /** What a manifest knows before it replaces the topology. */
  datatype Topology = Topology(tabs: seq<RadarTab>, seating: Seating, shadow: set<PaneId>) {
    function Index(): TabIndex {
      PaneTabIndex(tabs, seating)
    }
  }

  /** The command store's half of an exit: what it displaces goes to the ledger, a remote session's end flashes its
      tab. */
  ghost function CommandExit(s: Session, id: PaneId, code: Option<int>, t: Topology, tick: nat, now: nat): (r: Session)
    requires s.Total()
    ensures r.Total()
  {
    var p := s.panes[id];
    Session(
      s.panes[id := OnExit(p, code, tick, now)], s.rows,
      PushedAll(s.entries, Grace.Offered(id, ExitDrops(p, code), t.Index(), t.shadow)),
      if RemoteRunning(p) then Armed(s.flashUntil, TabOfPane(t.tabs, t.seating, id), tick) else s.flashUntil)
  }

  /** The status store's half: a pushed status is cleared. */
  ghost function StatusExit(s: Session, id: PaneId, t: Topology, tick: nat): Session {
    var row := Lookup(s.rows, id);
    if !ClearsOnExit(row) then s
    else
      s.(rows := s.rows[id := Idled(row.value, tick)],
         entries := PushedAll(s.entries, Grace.Offered(id, row, t.Index(), t.shadow)))
  }

  /** One exit. */
  ghost function TakenExit(s: Session, id: PaneId, code: Option<int>, t: Topology, tick: nat, now: nat): (r: Session)
    requires s.Total()
    ensures r.Total()
  {
    StatusExit(CommandExit(s, id, code, t, tick, now), id, t, tick)
  }

  /** The panes reported to have exited. */
  function ExitIds(exits: Exits): set<PaneId> {
    set k | 0 <= k < |exits| :: exits[k].0
  }

  lemma ExitIdsGrow(clocks: map<PaneId, nat>, exits: Exits, n: nat)
    requires n < |exits|
    ensures clocks - ExitIds(exits[..n]) - {exits[n].0} == clocks - ExitIds(exits[..n + 1])
  {
    assert forall k :: 0 <= k < n ==> exits[..n][k] == exits[..n + 1][k] == exits[k];
    assert exits[..n + 1][n] == exits[n];
    assert ExitIds(exits[..n + 1]) == ExitIds(exits[..n]) + {exits[n].0};
  }

  /** The exit takes something off the card. */
  ghost predicate ExitDisplaces(s: Session, id: PaneId, code: Option<int>)
    requires s.Total()
  {
    ExitDrops(s.panes[id], code).Some? || ClearsOnExit(Lookup(s.rows, id))
  }

  /** One of them does. */
  ghost predicate ExitsDisplace(s: Session, exits: Exits, t: Topology, tick: nat, now: nat)
    requires s.Total()
    decreases |exits|
  {
    exits != [] &&
    var (id, code) := exits[|exits| - 1];
    var front := exits[..|exits| - 1];
    ExitsDisplace(s, front, t, tick, now) || ExitDisplaces(TakenExits(s, front, t, tick, now), id, code)
  }

  ghost function TakenExits(s: Session, exits: Exits, t: Topology, tick: nat, now: nat): (r: Session)
    requires s.Total()
    ensures r.Total()
    decreases |exits|
  {
    if exits == [] then s
    else
      var (id, code) := exits[|exits| - 1];
      TakenExit(TakenExits(s, exits[..|exits| - 1], t, tick, now), id, code, t, tick, now)
  }

  /** The pushed rows the grace rule drops. */
  function GonePushed(s: Session, live: set<PaneId>, absentBefore: Absences): Drops {
    map id | id in s.rows && !Stays(live, absentBefore, id) :: s.rows[id]
  }

  /** The observed ones: of panes in grace. */
  ghost function GoneObserved(s: Session, live: set<PaneId>, absentBefore: Absences): Drops
    requires s.Total()
  {
    map id | id in absentBefore && id !in live && s.panes[id].row.Some? :: s.panes[id].row.value
  }

  /** What stays, stays as it was; of the rest nothing is left. */
  ghost function Pruned(s: Session, live: set<PaneId>, absentBefore: Absences): (r: Session)
    requires s.Total()
    ensures r.Total()
  {
    s.(panes := imap id: PaneId | true :: if Stays(live, absentBefore, id) then s.panes[id] else NO_PANE,
       rows := map id | id in s.rows && Stays(live, absentBefore, id) :: s.rows[id])
  }

  ghost predicate Tracks(s: Session, tracked: set<PaneId>)
    requires s.Total()
  {
    forall id: PaneId :: id in tracked <==> id in s.rows || s.panes[id] != NO_PANE
  }

  ghost predicate RestrictedTo(s: Session, r: Session, kept: set<PaneId>)
    requires s.Total() && r.Total()
  {
    && (forall id: PaneId :: r.panes[id] == if id in kept then s.panes[id] else NO_PANE)
    && (forall id: PaneId :: Lookup(r.rows, id) == if id in kept then Lookup(s.rows, id) else None)
    && r.entries == s.entries && r.flashUntil == s.flashUntil
  }

  /** Keeping the listed panes and those in their first absence is the grace rule. */
  lemma KeepingIsPruning(s: Session, r: Session, tracked: set<PaneId>, live: set<PaneId>, absentBefore: Absences,
                         index: TabIndex)
    requires s.Total() && r.Total() && Tracks(s, tracked)
    requires RestrictedTo(s, r, live + NextAbsences(tracked, live, absentBefore, index).Keys)
    ensures r == Pruned(s, live, absentBefore)
  {
    var p := Pruned(s, live, absentBefore);
    forall id: PaneId ensures r.panes[id] == p.panes[id] && Lookup(r.rows, id) == Lookup(p.rows, id) {
      KeptAreStaying(tracked, live, absentBefore, index, id);
    }
    SameRows(r.rows, p.rows);
    assert r.panes == p.panes;
  }

  /** And what it drops are the rows of the panes gone. */
  lemma DroppedAreGone(s: Session, pushed: Drops, observed: Drops, tracked: set<PaneId>, live: set<PaneId>,
                       absentBefore: Absences, index: TabIndex)
    requires s.Total() && Tracks(s, tracked)
    requires var kept := live + NextAbsences(tracked, live, absentBefore, index).Keys;
             && (forall id: PaneId :: Lookup(pushed, id) == if id in kept then None else Lookup(s.rows, id))
             && (forall id: PaneId :: Lookup(observed, id) == if id in kept then None else s.panes[id].row)
    ensures pushed == GonePushed(s, live, absentBefore) && observed == GoneObserved(s, live, absentBefore)
  {
    forall id: PaneId
      ensures Lookup(pushed, id) == Lookup(GonePushed(s, live, absentBefore), id)
           && Lookup(observed, id) == Lookup(GoneObserved(s, live, absentBefore), id)
    {
      KeptAreStaying(tracked, live, absentBefore, index, id);
    }
    SameRows(pushed, GonePushed(s, live, absentBefore));
    SameRows(observed, GoneObserved(s, live, absentBefore));
  }

  /** After it every pane still tracked is listed or in grace. */
  lemma PrunedAreCovered(s: Session, tracked: set<PaneId>, after: set<PaneId>, live: set<PaneId>,
                         absentBefore: Absences, index: TabIndex)
    requires s.Total() && Tracks(s, tracked) && Tracks(Pruned(s, live, absentBefore), after)
    ensures var absences := NextAbsences(tracked, live, absentBefore, index);
            after <= live + absences.Keys && absences == NextAbsences(after, live, absentBefore, index)
  {
    forall id: PaneId ensures id in after <==> id in tracked && Stays(live, absentBefore, id) {
      assert Pruned(s, live, absentBefore).panes[id] == if Stays(live, absentBefore, id) then s.panes[id] else NO_PANE;
    }
    TrackedAreCovered(tracked, after, live, absentBefore, index);
    AreNextAbsences(NextAbsences(tracked, live, absentBefore, index), after, live, absentBefore, index);
  }

  /** What the grace rule drops. */
  ghost predicate Gone(dropped: Dropped, s: Session, live: set<PaneId>, absentBefore: Absences)
    requires s.Total()
  {
    dropped.pushed == GonePushed(s, live, absentBefore) && dropped.observed == GoneObserved(s, live, absentBefore)
  }

  /** The grace rule: what is dropped reaches the ledger under the tab captured when its pane first went missing. */
  ghost function Settled(s: Session, live: set<PaneId>, absentBefore: Absences, t: Topology,
                         dropped: Dropped): (r: Session)
    requires s.Total()
    ensures r.Total()
  {
    Pruned(s, live, absentBefore).(
      entries := PushedAll(s.entries, dropped.Offers(PruneIndex(t.Index(), absentBefore), t.shadow)))
  }

  /** The row shows on the card: no pushed status hides it. */
  predicate Shown(id: PaneId, row: Tracked, shadow: set<PaneId>) {
    row.origin == Origin.StatusPipe || id !in shadow
  }

  /** A stamped completion, of either store, that shows in a pane in grace and missing again, is filed under the tab
      captured when the pane first went missing: the ledger the manifest leaves has it, or had it pushed out. */
  lemma DroppedCompletionIsFiled(s: Session, live: set<PaneId>, absentBefore: Absences, t: Topology, dropped: Dropped,
                                 id: PaneId, row: Tracked)
    requires s.Total() && Gone(dropped, s, live, absentBefore) && dropped.Listed() && |s.entries| <= LEDGER_CAP
    requires id in absentBefore && absentBefore[id].Some? && id !in live
    requires Lookup(s.rows, id) == Some(row) || s.panes[id].row == Some(row)
    requires Shown(id, row, t.shadow) && row.status.IsCompletion() && row.completedEpochS.Some?
    ensures var (tab, name) := absentBefore[id].value;
            var entry := FromObservation(id, row, tab, name);
            var offers := dropped.Offers(PruneIndex(t.Index(), absentBefore), t.shadow);
            && entry.Some? && Filed(s.entries, offers, entry.value)
            && Settled(s, live, absentBefore, t, dropped).entries == PushedAll(s.entries, offers)
  {
    var index := PruneIndex(t.Index(), absentBefore);
    FiledUnderCapturedTab(id, row, t.Index(), absentBefore, t.shadow);
    var e := OfferOf(id, row, index, t.shadow).value;
    OffersAreExact(dropped.pushedOrder, dropped.pushed, index, t.shadow, e);
    OffersAreExact(dropped.observedOrder, dropped.observed, index, t.shadow, e);
    if Lookup(s.rows, id) == Some(row) {
      assert id in dropped.pushed && dropped.pushed[id] == row;
    } else {
      assert id in dropped.observed && dropped.observed[id] == row;
    }
    OffersAreFiled(s.entries, dropped.Offers(index, t.shadow), e);
  }

  lemma SettledIsCalm(s: Session, live: set<PaneId>, absentBefore: Absences, t: Topology, dropped: Dropped)
    requires s.Total() && Calm(s)
    ensures Calm(Settled(s, live, absentBefore, t, dropped))
  {
  }

  ghost predicate Calm(s: Session)
    requires s.Total()
  {
    forall id: PaneId :: Coherent(s.panes[id])
  }

  lemma {:induction false} ExitsKeepCalm(s: Session, exits: Exits, t: Topology, tick: nat, now: nat)
    requires s.Total() && Calm(s)
    ensures Calm(TakenExits(s, exits, t, tick, now))
    decreases |exits|
  {
    if exits != [] {
      var front := TakenExits(s, exits[..|exits| - 1], t, tick, now);
      ExitsKeepCalm(s, exits[..|exits| - 1], t, tick, now);
      var (id, code) := exits[|exits| - 1];
      ExitKeepsCoherence(front.panes[id], code, tick, now);
    }
  }

  /** The exits of other panes leave a pane alone. */
  lemma {:induction false} ExitsAreLocal(s: Session, exits: Exits, t: Topology, tick: nat, now: nat, id: PaneId)
    requires s.Total() && forall k :: 0 <= k < |exits| ==> exits[k].0 != id
    ensures var r := TakenExits(s, exits, t, tick, now);
            r.panes[id] == s.panes[id] && Lookup(r.rows, id) == Lookup(s.rows, id)
    decreases |exits|
  {
    if exits != [] {
      ExitsAreLocal(s, exits[..|exits| - 1], t, tick, now, id);
    }
  }

  /** Two sets, one within the other, of the same size. */
  lemma SameCountSameSet<T>(a: set<T>, b: set<T>)
    requires a <= b && |a| == |b|
    ensures a == b
  {
    assert b == a + (b - a) && |b| == |a| + |b - a|;
  }

  // ----- what a step leaves to the rows -----

  lemma TickKeepsQuiet(p: Pane, tick: nat, now: nat)
    requires Coherent(p)
    ensures QuietIdentity(OnTick(p, tick, now)) == QuietIdentity(p) && Coherent(OnTick(p, tick, now))
  {
  }

  /** A confirm always shows on the row, however soon the row would recede. */
  lemma CompletionChangesRow(p: Pane, tick: nat, now: nat)
    requires Coherent(p) && TickCompletes(p, tick).Some?
    ensures OnTick(p, tick, now).row != p.row
  {
  }

  lemma CommandKeepsRow(p: Pane, intake: Intake, tick: nat)
    requires Coherent(p)
    ensures OnCommand(p, intake, tick).row == p.row && Coherent(OnCommand(p, intake, tick))
  {
  }

  lemma SweepsKeepCoherence(p: Pane, names: set<string>)
    requires Coherent(p)
    ensures Coherent(OnInteractive(p, names)) && Coherent(OnRemote(p, names))
  {
  }

  lemma ExitKeepsCoherence(p: Pane, code: Option<int>, tick: nat, now: nat)
    requires Coherent(p)
    ensures Coherent(OnExit(p, code, tick, now))
  {
  }

  /** A foreground change leaves a served memo behind: the pane's quiet identity changed, the pane is on the rail, and
      nothing observed outranks the identity there. */
  predicate LabelGoesStale(tabs: seq<RadarTab>, seating: Seating, src: Sources, id: PaneId,
                           after: Option<(string, Kind)>) {
    after != src.Quiet(id) && YieldsToQuiet(src.Resolve(id)) && OnRail(tabs, seating, id)
  }

  /** It shows on the rail exactly then. */
  lemma OneLabelOnTheRail(tabs: seq<RadarTab>, seating: Seating, a: Sources, b: Sources, id: PaneId)
    requires SameTracked(a, b) && forall x :: x != id ==> a.Quiet(x) == b.Quiet(x)
    ensures RailStays(tabs, seating, a, b) <==> !LabelGoesStale(tabs, seating, a, id, b.Quiet(id))
  {
    LabelsOnTheRail(tabs, seating, a, b);
  }

  // ----- a snapshot, loaded -----

  /** A loaded Done starts its time to live over. */
  function Rebased(row: Tracked, tick: nat): Tracked {
    if row.origin == Origin.Observed && row.status == Status.Done then row.(lastChangeTick := tick) else row
  }

  /** The rows of one origin a snapshot holds; a later entry wins. */
  function Loaded(observations: seq<(PaneId, Tracked)>, origin: Origin, tick: nat): map<PaneId, Tracked> {
    if observations == [] then map[]
    else
      var (id, row) := observations[|observations| - 1];
      var front := Loaded(observations[..|observations| - 1], origin, tick);
      if row.origin == origin then front[id := Rebased(row, tick)] else front
  }

  class RadarState {
    const status: StatusStore
    const command: CommandStore
    const ledger: Ledger
    var tabs: seq<RadarTab>
    var seating: Seating
    var paneCwd: map<PaneId, string>
    var flashUntil: Flashes
    var livePanes: Option<set<PaneId>>
    var absentOnce: Absences
    var generation: nat
    var memo: Option<RowsMemo>
    /** The latest tick any step was given; and what the memo was filled from: the tabs mid-flash, the two stores. */
    ghost var clock: nat
    ghost var memoLit: set<TabId>
    ghost var memoSources: Sources

    constructor (classify: Classifier, kindOf: string -> Kind)
      ensures Separate() && fresh(status) && fresh(status.store) && fresh(command) && fresh(command.store)
              && fresh(ledger)
      ensures Sound() && command.AllCoherent() && status.store.rows == map[] && ledger.entries == [] && clock == 0
      ensures forall x :: command.PaneAt(x) == NO_PANE
      ensures memo == None && flashUntil == map[] && absentOnce == map[]
      ensures status.kindOf == kindOf && command.classify == classify && Genuine(Sources())
    {
      status := new StatusStore(kindOf);
      command := new CommandStore(classify);
      ledger := new Ledger();
      tabs, seating, paneCwd, flashUntil, livePanes, absentOnce := [], map[], map[], map[], None, map[];
      generation, memo, clock, memoLit, memoSources := 0, None, 0, {}, Rollup.Sources(map[], map[], map[]);
    }

    predicate Separate() {
      status.store != command.store
    }

    function Sources(): Sources
      reads status.store, command, command.store
    {
      Rollup.Sources(status.store.rows, command.store.rows, command.pending)
    }

    /** What `rows_uncached` computes. */
    function RowsAt(tick: nat): seq<TabRow>
      reads this, status.store, command, command.store
    {
      Rollup.Rows(tabs, seating, Sources(), Lit(flashUntil, tick))
    }

    predicate MemoCurrent()
      reads this
    {
      memo.Some? && memo.value.generation == generation
    }

    /** A memo that would still be served is what the rows were when it was filled, and since then nothing but evictions
        and foreground changes came in - no evictions, had the status store been within its cap. */
    ghost predicate MemoFaithful()
      reads this, status.store, command, command.store
    {
      MemoCurrent() ==>
        && memo.value.rows == Rollup.Rows(tabs, seating, memoSources, memoLit)
        && memo.value.litFlashes == |memoLit| && Lit(flashUntil, clock) <= memoLit
        && Trails(memoSources, Sources())
        && (|memoSources.status| <= MAX_TRACKED_PANES ==> memoSources.status == status.store.rows)
    }

    predicate MemoDated()
      reads this
    {
      memo.Some? ==> memo.value.generation <= generation
    }

    /** What every step keeps: the memo's half, and the grace rule's - a pane in grace was missing from the last
        manifest. */
    ghost predicate Steady()
      reads this, status.store, command, command.store
    {
      MemoDated() && MemoFaithful() && GraceSound(absentOnce, livePanes)
    }

    /** And what came in since the memo was filled does not show. */
    ghost predicate MemoFresh()
      reads this, status.store, command, command.store
    {
      MemoCurrent() ==> RailStays(tabs, seating, memoSources, Sources())
    }

    ghost predicate Sound()
      reads this, status.store, command, command.store
    {
      Steady() && MemoFresh()
    }

    /** A memo that would be served holds what the rows would be now. */
    ghost predicate MemoServes()
      reads this, status.store, command, command.store
    {
      MemoCurrent() ==>
        && memo.value.rows == Rollup.Rows(tabs, seating, Sources(), memoLit)
        && memo.value.litFlashes == |memoLit| && Lit(flashUntil, clock) <= memoLit
    }

    /** A sound state is a steady one whose memo would serve what the rows are. */
    lemma SoundIffServes()
      requires Steady()
      ensures Sound() <==> MemoServes()
    {
      if MemoCurrent() {
        RailStaysIff(tabs, seating, memoSources, Sources(), memoLit);
      }
    }

    /** Rows that stay or are evicted, and flashes that only go out, leave the memo faithful. */
    twostate lemma StaysFaithful()
      requires old(MemoDated() && MemoFaithful())
      requires unchanged(this`memo, this`tabs, this`seating, this`memoLit, this`memoSources)
      requires old(generation) <= generation && Trails(old(Sources()), Sources())
      requires |old(status.store.rows)| <= MAX_TRACKED_PANES ==> status.store.rows == old(status.store.rows)
      requires Lit(flashUntil, clock) <= old(Lit(flashUntil, clock))
      ensures MemoFaithful()
    {
    }

    /** What then comes of a sound memo, the rail decides. */
    twostate lemma FreshUnlessSeen()
      requires old(MemoDated() && MemoFaithful() && MemoFresh())
      requires unchanged(this`memo, this`tabs, this`seating, this`memoSources)
      requires old(generation) <= generation && Trails(old(Sources()), Sources())
      ensures MemoFresh() <==> !MemoCurrent() || RailStays(tabs, seating, old(Sources()), Sources())
    {
      if MemoCurrent() {
        RailStaysFrom(tabs, seating, memoSources, old(Sources()), Sources());
      }
    }

    /** With the rows and the quiet identities it stays fresh. */
    twostate lemma StaysFresh()
      requires old(MemoDated() && MemoFaithful() && MemoFresh())
      requires unchanged(this`memo, this`tabs, this`seating, this`memoSources)
      requires old(generation) <= generation && SameTracked(old(Sources()), Sources())
      requires forall id :: Sources().Quiet(id) == old(Sources()).Quiet(id)
      ensures MemoFresh()
    {
      if MemoCurrent() {
        RailStaysAlike(tabs, seating, memoSources, old(Sources()), Sources());
      }
    }

    // ----- the rows and their memo -----

    method LitFlashes(tick: nat) returns (n: nat)
      ensures n == |Lit(flashUntil, tick)|
    {
      n := |Lit(flashUntil, tick)|;
    }

    /** The memo would be served at this tick. */
    predicate Answers(tick: nat)
      reads this
    {
      MemoCurrent() && memo.value.litFlashes == |Lit(flashUntil, tick)|
    }

    /** The rows, from the memo when it still answers. From a steady state they are the rows of the sources the memo was
        filled from, and those of the present ones exactly when the rail stays in between. */
    method Rows(tick: nat) returns (rows: seq<TabRow>)
      requires MemoDated() && tick >= clock
      modifies this`memo, this`memoLit, this`memoSources, this`clock
      ensures clock == tick && MemoDated() && Answers(tick) && memo.value.rows == rows
      ensures rows == if old(Answers(tick)) then old(memo).value.rows else RowsAt(tick)
      ensures memoSources == if old(Answers(tick)) then old(memoSources) else Sources()
      ensures old(MemoFaithful()) ==>
                MemoFaithful() && rows == Rollup.Rows(tabs, seating, memoSources, Lit(flashUntil, tick))
      ensures old(MemoFaithful()) ==> (rows == RowsAt(tick) <==> RailStays(tabs, seating, memoSources, Sources()))
      ensures old(Sound()) ==> Sound() && rows == RowsAt(tick)
    {
      var lit := LitFlashes(tick);
      clock := tick;
      if MemoCurrent() && memo.value.litFlashes == lit {
        rows := memo.value.rows;
        if old(MemoFaithful()) {
          SameCountSameSet(Lit(flashUntil, tick), memoLit);
          RailStaysIff(tabs, seating, memoSources, Sources(), Lit(flashUntil, tick));
        }
      } else {
        rows := RowsAt(tick);
        memo, memoLit := Some(RowsMemo(generation, lit, rows)), Lit(flashUntil, tick);
        memoSources := Sources();
        RailStaysIff(tabs, seating, memoSources, Sources(), Lit(flashUntil, tick));
      }
    }

    /** The position of the active tab. */
    function ActiveIn(tabs: seq<RadarTab>): Option<nat> {
      if tabs == [] then None else if tabs[0].active then Some(tabs[0].position) else ActiveIn(tabs[1..])
    }

    function Needs(): seq<(nat, Status)>
      reads this, status.store, command, command.store
    {
      seq(|tabs|, k requires 0 <= k < |tabs| reads this, status.store, command, command.store =>
        (tabs[k].position, Display(tabs, seating, tabs[k].position, Sources()).status))
    }

    /** The tab an attention command goes to: with `Attention`'s laws, over the rolled-up statuses. */
    method NextAttentionTab(dir: Direction) returns (target: Option<nat>)
      ensures target == CycleAttention(Needs(), ActiveIn(tabs), dir)
      ensures target.Some? ==> exists k :: 0 <= k < |tabs| && tabs[k].position == target.value
                                           && Display(tabs, seating, target.value, Sources()).status.NeedsAttention()
    {
      var needs := Needs();
      target := CycleAttention(needs, ActiveIn(tabs), dir);
      TargetNeedsAttention(needs, ActiveIn(tabs), dir);
    }

    method Touch()
      modifies this`generation
      ensures generation == old(generation) + 1
    {
      generation := generation + 1;
    }

    method ArmFlash(id: PaneId, tick: nat)
      modifies this`flashUntil
      ensures flashUntil == Armed(old(flashUntil), TabOfPane(tabs, seating, id), tick)
    {
      var tab := TabOfPane(tabs, seating, id);
      if tab.Some? {
        flashUntil := flashUntil[tab.value := tick + FLASH_TICKS];
      }
    }

    // ----- the ledger -----

    /** Hand one receded row to the ledger. */
    method LedgerOne(id: PaneId, row: Tracked, index: TabIndex, shadow: set<PaneId>)
      modifies this`generation, ledger
      ensures ledger.entries == PushedAll(old(ledger.entries), Offered(id, Some(row), index, shadow))
      ensures generation >= old(generation)
    {
      OfferedOne(ledger.entries, id, row, index, shadow);
      if row.origin == Origin.Observed && id in shadow {
        return;
      }
      if id !in index {
        return;
      }
      var (tab, name) := index[id];
      var entry := FromObservation(id, row, tab, name);
      if entry.Some? {
        var isNew := ledger.Push(entry.value);
        if isNew {
          Touch();
        }
      }
    }

    /** Hand every receded row to the ledger, in whatever order the store gave them up. */
    method LedgerReceded(receded: Drops, index: TabIndex, shadow: set<PaneId>) returns (ghost order: seq<PaneId>)
      modifies this`generation, ledger
      ensures Lists(order, receded.Keys)
      ensures ledger.entries == PushedAll(old(ledger.entries), OffersAlong(order, receded, index, shadow))
      ensures generation >= old(generation)
    {
      var todo := receded.Keys;
      order := [];
      while todo != {}
        invariant todo <= receded.Keys && generation >= old(generation) && Lists(order, receded.Keys - todo)
        invariant ledger.entries == PushedAll(old(ledger.entries), OffersAlong(order, receded, index, shadow))
        decreases |todo|
      {
        var id :| id in todo;
        LedgerOne(id, receded[id], index, shadow);
        OneMoreOffer(old(ledger.entries), order, id, receded, todo, index, shadow);
        todo := todo - {id};
        order := order + [id];
      }
      assert receded.Keys - {} == receded.Keys;
    }

    // ----- the steps -----

    method TabsChanged(reported: seq<RadarTab>)
      requires Steady()
      modifies this`tabs, this`generation
      ensures Steady() && (old(Sound()) ==> Sound()) && tabs == ByPosition(SanitizedNames(reported))
      ensures generation == old(generation) + if tabs == old(tabs) then 0 else 1
    {
      var sorted := ByPosition(SanitizedNames(reported));
      if sorted == tabs {
        return;
      }
      tabs := sorted;
      Touch();
    }

    method CwdChanged(id: PaneId, path: string)
      requires Steady()
      modifies this`paneCwd
      ensures Steady() && (old(Sound()) ==> Sound()) && paneCwd == old(paneCwd)[id := path]
    {
      paneCwd := paneCwd[id := path];
    }

    /** Forget flashes that are over. */
    method RetainFlashes(tick: nat)
      modifies this`flashUntil
      ensures forall id: TabId :: Lookup(flashUntil, id)
                                  == if id in Lit(old(flashUntil), tick) then Lookup(old(flashUntil), id) else None
      ensures old(MemoFaithful()) ==> MemoFaithful()
    {
      flashUntil := map id | id in flashUntil && tick < flashUntil[id] :: flashUntil[id];
    }

    method ArmCompleted(completed: map<PaneId, Kind>, tick: nat)
      modifies this`flashUntil
      ensures completed == map[] ==> flashUntil == old(flashUntil)
      ensures forall tab: TabId :: Lookup(flashUntil, tab)
                            == (if exists id :: id in completed && completed[id].IsRemote()
                                                && TabOfPane(tabs, seating, id) == Some(tab)
                                then Some(tick + FLASH_TICKS) else Lookup(old(flashUntil), tab))
    {
      var todo := completed.Keys;
      while todo != {}
        invariant todo <= completed.Keys && (completed == map[] ==> flashUntil == old(flashUntil))
        invariant forall tab: TabId :: Lookup(flashUntil, tab)
                    == (if exists id :: id in completed && id !in todo && completed[id].IsRemote()
                                        && TabOfPane(tabs, seating, id) == Some(tab)
                        then Some(tick + FLASH_TICKS) else Lookup(old(flashUntil), tab))
        decreases |todo|
      {
        var id :| id in todo;
        todo := todo - {id};
        if completed[id].IsRemote() {
          ArmFlash(id, tick);
        }
      }
    }

    /** The stores' half of a tick, with the ledger. */
    method TickStores(tick: nat, now: nat)
      returns (changed: bool, completed: map<PaneId, Kind>, ghost receded: Drops, ghost order: seq<PaneId>)
      requires Separate() && command.AllCoherent()
      modifies this`generation, status, status.store, command`pending, command`pendingDone, command.store, ledger
      ensures forall x :: command.PaneAt(x) == OnTick(old(command.PaneAt(x)), tick, now)
      ensures forall x :: Lookup(status.store.rows, x)
                          == (if old(status.Expires(x, tick)) then Some(Idled(old(status.store.rows)[x], tick))
                              else Lookup(old(status.store.rows), x))
      ensures forall x :: Lookup(status.suspects, x)
                          == (if old(status.SuspectDue(x, tick)) then None else Lookup(old(status.suspects), x))
      ensures forall x :: Lookup(completed, x) == TickCompletes(old(command.PaneAt(x)), tick)
      ensures forall x :: Lookup(receded, x) == TickDrops(old(command.PaneAt(x)), tick, now)
      ensures Lists(order, receded.Keys)
      ensures ledger.entries ==
                PushedAll(old(ledger.entries),
                          OffersAlong(order, receded, PaneTabIndex(tabs, seating), old(status.store.rows).Keys))
      ensures generation >= old(generation)
      ensures changed <==> command.store.rows != old(command.store.rows) || status.store.rows != old(status.store.rows)
    {
      var report := command.OnTimer(tick, now);
      receded, completed := report.receded, report.completed;
      label Ticked:
      order := LedgerReceded(report.receded, PaneTabIndex(tabs, seating), status.store.rows.Keys);
      var stale := status.ExpireStaleRunning(tick);
      changed := report.changed || stale != {};
      if stale != {} {
        ghost var x :| x in stale;
        assert status.store.rows[x] != old(status.store.rows)[x];
      } else {
        SameRows(status.store.rows, old(status.store.rows));
      }
    }

    /** A tick that changes nothing leaves the sources as the rows see them, and completes nothing. */
    method TickSources(tick: nat, now: nat)
      returns (changed: bool, completed: map<PaneId, Kind>, ghost receded: Drops, ghost order: seq<PaneId>)
      requires Separate() && command.AllCoherent() && MemoDated() && MemoFaithful()
      modifies this`generation, status, status.store, command`pending, command`pendingDone, command.store, ledger
      ensures command.AllCoherent()
      ensures forall x :: command.PaneAt(x) == OnTick(old(command.PaneAt(x)), tick, now)
      ensures forall x :: Lookup(status.store.rows, x)
                          == (if old(status.Expires(x, tick)) then Some(Idled(old(status.store.rows)[x], tick))
                              else Lookup(old(status.store.rows), x))
      ensures forall x :: Lookup(status.suspects, x)
                          == (if old(status.SuspectDue(x, tick)) then None else Lookup(old(status.suspects), x))
      ensures forall x :: Lookup(completed, x) == TickCompletes(old(command.PaneAt(x)), tick)
      ensures forall x :: Lookup(receded, x) == TickDrops(old(command.PaneAt(x)), tick, now)
      ensures Lists(order, receded.Keys)
      ensures ledger.entries ==
                PushedAll(old(ledger.entries),
                          OffersAlong(order, receded, PaneTabIndex(tabs, seating), old(status.store.rows).Keys))
      ensures generation >= old(generation)
      ensures changed <==> command.store.rows != old(command.store.rows) || status.store.rows != old(status.store.rows)
      ensures MemoDated() && (!changed ==> MemoFaithful() && completed == map[])
      ensures !changed && old(MemoFresh()) ==> MemoFresh()
    {
      changed, completed, receded, order := TickStores(tick, now);
      forall x ensures Sources().Quiet(x) == old(Sources().Quiet(x)) && Coherent(command.PaneAt(x)) {
        TickKeepsQuiet(old(command.PaneAt(x)), tick, now);
        assert command.PaneAt(x) == OnTick(old(command.PaneAt(x)), tick, now);
      }
      if !changed {
        forall x ensures x !in completed {
          assert command.PaneAt(x).row == old(command.PaneAt(x)).row;
          if TickCompletes(old(command.PaneAt(x)), tick).Some? {
            CompletionChangesRow(old(command.PaneAt(x)), tick, now);
          }
        }
        StaysFaithful();
        if old(MemoFresh()) {
          StaysFresh();
        }
      }
    }

    /** A timer tick: reports whether an observation changed. */
    method Timer(tick: nat, now: nat)
      returns (changed: bool, ghost completed: map<PaneId, Kind>, ghost receded: Drops, ghost order: seq<PaneId>)
      requires Separate() && Steady() && tick >= clock && command.AllCoherent()
      modifies this`flashUntil, this`generation, this`clock, status, status.store, command`pending,
               command`pendingDone, command.store, ledger
      ensures Steady() && (old(Sound()) ==> Sound()) && clock == tick && command.AllCoherent()
      ensures forall x :: command.PaneAt(x) == OnTick(old(command.PaneAt(x)), tick, now)
      ensures forall x :: Lookup(status.store.rows, x)
                          == (if old(status.Expires(x, tick)) then Some(Idled(old(status.store.rows)[x], tick))
                              else Lookup(old(status.store.rows), x))
      ensures forall x :: Lookup(status.suspects, x)
                          == (if old(status.SuspectDue(x, tick)) then None else Lookup(old(status.suspects), x))
      ensures forall x :: Lookup(completed, x) == TickCompletes(old(command.PaneAt(x)), tick)
      ensures forall tab: TabId ::
                Lookup(flashUntil, tab)
                == (if exists id :: id in completed && completed[id].IsRemote()
                                    && TabOfPane(tabs, seating, id) == Some(tab)
                    then Some(tick + FLASH_TICKS)
                    else if tab in Lit(old(flashUntil), tick) then Lookup(old(flashUntil), tab) else None)
      ensures forall x :: Lookup(receded, x) == TickDrops(old(command.PaneAt(x)), tick, now)
      ensures Lists(order, receded.Keys)
      ensures ledger.entries ==
                PushedAll(old(ledger.entries),
                          OffersAlong(order, receded, PaneTabIndex(tabs, seating), old(status.store.rows).Keys))
      ensures changed <==> command.store.rows != old(command.store.rows) || status.store.rows != old(status.store.rows)
    {
      RetainFlashes(tick);
      var remote;
      changed, remote, receded, order := TickSources(tick, now);
      completed := remote;
      Settle(changed, remote, tick);
    }

    /** The end of a tick: the flashes it arms, and the memo invalidated if it changed anything. */
    method Settle(changed: bool, completed: map<PaneId, Kind>, tick: nat)
      requires MemoDated() && tick >= clock && (!changed ==> MemoFaithful() && completed == map[])
      modifies this`flashUntil, this`generation, this`clock
      ensures MemoDated() && MemoFaithful() && clock == tick && (changed || old(MemoFresh()) ==> MemoFresh())
      ensures forall tab: TabId :: Lookup(flashUntil, tab)
                            == (if exists id :: id in completed && completed[id].IsRemote()
                                                && TabOfPane(tabs, seating, id) == Some(tab)
                                then Some(tick + FLASH_TICKS) else Lookup(old(flashUntil), tab))
    {
      ArmCompleted(completed, tick);
      clock := tick;
      if changed {
        Touch();
      }
    }

    /** The grace clocks after a foreground report: a running row at a shell starts its own, once; its agent back in
        front stops it. */
    function ClocksAfter(clocks: map<PaneId, nat>, row: Option<Tracked>, id: PaneId, argv: seq<string>, tick: nat)
      : map<PaneId, nat>
    {
      if IsShellPrompt(argv) then
        if row.Some? && row.value.status == Status.Running && id !in clocks then clocks[id := tick] else clocks
      else if IsAgentCommand(argv) then clocks - {id}
      else clocks
    }

    /** What a foreground report amounts to here. */
    function IntakeOf(id: PaneId, argv: seq<string>, isForeground: bool): Intake
      reads this, command
    {
      Judge(argv, isForeground, Lookup(paneCwd, id), command.interactive, command.remoteExtras, command.classify)
    }

    /** A foreground change. The rows read the quiet identity this may set or drop, yet only a cleared pushed status
        invalidates the memo. */
    method CommandChanged(id: PaneId, argv: seq<string>, isForeground: bool, tick: nat)
      returns (cleared: bool, ghost offered: seq<LedgerEntry>)
      requires Separate() && Steady() && tick >= clock && command.AllCoherent()
      modifies this`generation, this`clock, status, status.store, command`pending, command`pendingDone,
               command`exited, ledger
      ensures Steady() && clock == tick && command.AllCoherent()
      ensures var intake := old(IntakeOf(id, argv, isForeground));
              forall x :: command.PaneAt(x)
                          == (if x == id then OnCommand(old(command.PaneAt(x)), intake, tick)
                              else old(command.PaneAt(x)))
      ensures status.suspects == ClocksAfter(old(status.suspects), Lookup(old(status.store.rows), id), id, argv, tick)
      ensures cleared <==> IsShellPrompt(argv) && ClearsOnReturn(Lookup(old(status.store.rows), id))
      ensures status.store.rows == if cleared then old(status.store.rows)[id := Idled(old(status.store.rows)[id], tick)]
                                   else old(status.store.rows)
      ensures ledger.entries == PushedAll(old(ledger.entries), offered)
      ensures offered == Grace.Offered(id, if cleared then Lookup(old(status.store.rows), id) else None,
                                       PaneTabIndex(tabs, seating), status.store.rows.Keys)
      ensures var intake := old(IntakeOf(id, argv, isForeground));
              var after := QuietIdentity(OnCommand(old(command.PaneAt(id)), intake, tick));
              old(Sound()) ==>
                (Sound()
                 <==> cleared || !old(MemoCurrent()) || !LabelGoesStale(tabs, seating, old(Sources()), id, after))
    {
      TakeCommand(id, argv, isForeground, tick);
      cleared, offered := ClearAtPrompt(id, argv, tick);
    }

    /** The command store's half of a foreground change: no row moves, and only this pane's quiet identity may. */
    method TakeCommand(id: PaneId, argv: seq<string>, isForeground: bool, tick: nat)
      requires Separate() && Steady() && tick >= clock && command.AllCoherent()
      modifies this`clock, command`pending, command`pendingDone, command`exited
      ensures command.AllCoherent() && Steady() && clock == tick
      ensures var intake := old(IntakeOf(id, argv, isForeground));
              && (forall x :: command.PaneAt(x)
                              == (if x == id then OnCommand(old(command.PaneAt(x)), intake, tick)
                                  else old(command.PaneAt(x))))
              && Sources().Quiet(id) == QuietIdentity(OnCommand(old(command.PaneAt(id)), intake, tick))
      ensures old(MemoFresh()) ==>
                (MemoFresh() <==>
                   !MemoCurrent() || !LabelGoesStale(tabs, seating, old(Sources()), id, Sources().Quiet(id)))
    {
      ghost var intake := IntakeOf(id, argv, isForeground);
      command.OnCommandChanged(id, argv, isForeground, Lookup(paneCwd, id), tick);
      forall x ensures Coherent(command.PaneAt(x)) && (x != id ==> Sources().Quiet(x) == old(Sources().Quiet(x))) {
        CommandKeepsRow(old(command.PaneAt(x)), intake, tick);
        assert command.PaneAt(x)
            == if x == id then OnCommand(old(command.PaneAt(x)), intake, tick) else old(command.PaneAt(x));
      }
      SameRows(command.store.rows, old(command.store.rows));
      clock := tick;
      StaysFaithful();
      if old(MemoFresh()) {
        FreshUnlessSeen();
        OneLabelOnTheRail(tabs, seating, old(Sources()), Sources(), id);
      }
    }

    /** The prompt-return clear of a pushed status, and the grace clock's cancel. */
    method ClearAtPrompt(id: PaneId, argv: seq<string>, tick: nat)
      returns (cleared: bool, ghost offered: seq<LedgerEntry>)
      requires Separate() && Steady()
      modifies this`generation, status, status.store, ledger
      ensures Steady() && MemoFresh() == (cleared || old(MemoFresh()))
      ensures status.suspects == ClocksAfter(old(status.suspects), Lookup(old(status.store.rows), id), id, argv, tick)
      ensures cleared <==> IsShellPrompt(argv) && ClearsOnReturn(Lookup(old(status.store.rows), id))
      ensures status.store.rows == if cleared then old(status.store.rows)[id := Idled(old(status.store.rows)[id], tick)]
                                   else old(status.store.rows)
      ensures ledger.entries == PushedAll(old(ledger.entries), offered)
      ensures offered == Grace.Offered(id, if cleared then Lookup(old(status.store.rows), id) else None,
                                       PaneTabIndex(tabs, seating), status.store.rows.Keys)
    {
      var receded := AtPrompt(id, argv, tick);
      offered := FileReceded(id, receded);
      cleared := receded.Some?;
    }

    /** What receded reaches the ledger, and the memo goes; nothing receded, nothing happens. */
    method FileReceded(id: PaneId, receded: Option<Tracked>) returns (ghost offered: seq<LedgerEntry>)
      modifies this`generation, ledger
      ensures if receded.Some? then generation > old(generation) else generation == old(generation)
      ensures offered == Grace.Offered(id, receded, PaneTabIndex(tabs, seating), status.store.rows.Keys)
      ensures ledger.entries == PushedAll(old(ledger.entries), offered)
    {
      offered := Grace.Offered(id, receded, PaneTabIndex(tabs, seating), status.store.rows.Keys);
      if receded.Some? {
        LedgerOne(id, receded.value, PaneTabIndex(tabs, seating), status.store.rows.Keys);
        Touch();
      }
    }

    method AtPrompt(id: PaneId, argv: seq<string>, tick: nat) returns (receded: Option<Tracked>)
      modifies status, status.store
      ensures status.suspects == ClocksAfter(old(status.suspects), Lookup(old(status.store.rows), id), id, argv, tick)
      ensures receded == if IsShellPrompt(argv) && ClearsOnReturn(Lookup(old(status.store.rows), id))
                         then Lookup(old(status.store.rows), id) else None
      ensures status.store.rows == if receded.Some? then old(status.store.rows)[id := Idled(receded.value, tick)]
                                   else old(status.store.rows)
    {
      receded := None;
      if IsShellPrompt(argv) {
        receded := status.ClearOnPromptReturn(id, tick);
      } else if IsAgentCommand(argv) {
        status.CancelRunningSuspect(id);
      }
    }

    /** A producer's payload. An identical re-broadcast goes untouched - rightly while the store is within its cap. */
    method StatusPipe(p: Wire.StatusPayload, tick: nat, now: nat)
      returns (touched: bool, ghost offered: seq<LedgerEntry>)
      requires Separate() && Steady() && tick >= clock
      modifies this`generation, this`clock, this`flashUntil, status, status.store, ledger
      ensures clock == tick && MemoDated() && (generation == old(generation) <==> !touched)
      ensures Evicted(old(status.store.rows)[p.paneId := RowAfter(Lookup(old(status.store.rows), p.paneId), p,
                                                                  status.kindOf(p.source), tick, now)],
                      status.store.rows)
      ensures forall x :: Lookup(status.suspects, x)
                          == (if x == p.paneId || (x in old(status.store.rows) && x !in status.store.rows) then None
                              else Lookup(old(status.suspects), x))
      ensures touched <==> Lookup(status.store.rows, p.paneId) != Lookup(old(status.store.rows), p.paneId)
      ensures !touched ==> (status.store.rows == old(status.store.rows)
                            <==> |old(status.store.rows)| <= MAX_TRACKED_PANES)
      ensures Steady() && (touched || |old(status.store.rows)| <= MAX_TRACKED_PANES ==> old(Sound()) ==> Sound())
      ensures !touched && old(Sound()) ==>
                (Sound() <==> !MemoCurrent() || RailStays(tabs, seating, old(Sources()), Sources()))
      ensures !touched && old(Sound()) && old(Genuine(Sources())) ==>
                (Sound() <==> !MemoCurrent() || FacesAndCountsStay(tabs, seating, old(Sources()), Sources()))
      ensures flashUntil == if touched && p.status == Status.Pending
                               && !(p.paneId in old(status.store.rows)
                                    && old(status.store.rows)[p.paneId].status == Status.Pending)
                            then Armed(old(flashUntil), TabOfPane(tabs, seating, p.paneId), tick) else old(flashUntil)
      ensures ledger.entries == PushedAll(old(ledger.entries), offered)
      ensures var prev := Lookup(old(status.store.rows), p.paneId);
              offered == if prev.Some? && prev.value.status.IsCompletion()
                            && !(prev.value.status == p.status && prev.value.msg == p.msg)
                         then Grace.Offered(p.paneId, prev, PaneTabIndex(tabs, seating), status.store.rows.Keys)
                         else []
    {
      hide Evicted, RowAfter, RailStays, FacesAndCountsStay, Genuine, Trails;
      var prev, recedes;
      prev, recedes, touched := TakePayload(p, tick, now);
      offered := [];
      if touched {
        var flips := p.status == Status.Pending && !(prev.Some? && prev.value.status == Status.Pending);
        offered := RecordEdge(p.paneId, flips, if recedes then prev else None, tick);
      }
    }

    /** The status store's half: untouched means the memo stays. */
    method TakePayload(p: Wire.StatusPayload, tick: nat, now: nat)
      returns (prev: Option<Tracked>, recedes: bool, touched: bool)
      requires Separate() && Steady() && tick >= clock
      modifies this`clock, status, status.store
      ensures clock == tick && prev == Lookup(old(status.store.rows), p.paneId)
      ensures recedes <==> prev.Some? && prev.value.status.IsCompletion()
                           && !(prev.value.status == p.status && prev.value.msg == p.msg)
      ensures forall x :: Lookup(status.suspects, x)
                          == (if x == p.paneId || (x in old(status.store.rows) && x !in status.store.rows) then None
                              else Lookup(old(status.suspects), x))
      ensures touched <==> Lookup(status.store.rows, p.paneId) != prev
      ensures Evicted(old(status.store.rows)[p.paneId := RowAfter(prev, p, status.kindOf(p.source), tick, now)],
                      status.store.rows)
      ensures Steady() || touched
      ensures !touched ==> !recedes
      ensures !touched ==> (status.store.rows == old(status.store.rows)
                            <==> |old(status.store.rows)| <= MAX_TRACKED_PANES)
      ensures !touched && |old(status.store.rows)| <= MAX_TRACKED_PANES && old(Sound()) ==> Sound()
      ensures !touched && old(Sound()) ==>
                (Sound() <==> !MemoCurrent() || RailStays(tabs, seating, old(Sources()), Sources()))
      ensures !touched && old(Sound()) && old(Genuine(Sources())) ==>
                (Sound() <==> !MemoCurrent() || FacesAndCountsStay(tabs, seating, old(Sources()), Sources()))
    {
      clock := tick;
      prev, recedes := status.Apply(p, tick, now);
      touched := prev != Lookup(status.store.rows, p.paneId);
      if !touched {
        CapDecides(old(status.store.rows), status.store.rows, p.paneId,
                   RowAfter(prev, p, status.kindOf(p.source), tick, now));
        LeftAsItWas();
      }
    }

    /** A payload that leaves its row as it was: the rest stays too, unless the store is over its cap. */
    twostate lemma LeftAsItWas()
      requires old(Steady()) && Trails(old(Sources()), Sources()) && old(command.pending) == command.pending
      requires |old(status.store.rows)| <= MAX_TRACKED_PANES ==> status.store.rows == old(status.store.rows)
      requires unchanged(this`memo, this`generation, this`tabs, this`seating, this`memoLit, this`memoSources)
      requires unchanged(this`flashUntil, this`absentOnce, this`livePanes) && clock >= old(clock)
      ensures Steady()
      ensures status.store.rows == old(status.store.rows) && old(Sound()) ==> Sound()
      ensures old(Sound()) ==> (Sound() <==> !MemoCurrent() || RailStays(tabs, seating, old(Sources()), Sources()))
      ensures old(Genuine(Sources())) ==>
                (RailStays(tabs, seating, old(Sources()), Sources())
                 <==> FacesAndCountsStay(tabs, seating, old(Sources()), Sources()))
    {
      StaysFaithful();
      if old(Genuine(Sources())) {
        RailStaysByCounts(tabs, seating, old(Sources()), Sources());
      }
      if old(Sound()) {
        FreshUnlessSeen();
        LabelsOnTheRail(tabs, seating, old(Sources()), old(Sources()));
      }
    }

    /** A pushed edge: the memo goes, a flip to Pending flashes, an overwritten completion reaches the ledger. */
    method RecordEdge(id: PaneId, flips: bool, receded: Option<Tracked>, tick: nat)
      returns (ghost offered: seq<LedgerEntry>)
      modifies this`generation, this`flashUntil, ledger
      ensures generation > old(generation)
      ensures flashUntil == if flips then Armed(old(flashUntil), TabOfPane(tabs, seating, id), tick)
              else old(flashUntil)
      ensures offered == Grace.Offered(id, receded, PaneTabIndex(tabs, seating), status.store.rows.Keys)
      ensures ledger.entries == PushedAll(old(ledger.entries), offered)
    {
      Touch();
      if flips {
        ArmFlash(id, tick);
      }
      offered := [];
      if receded.Some? {
        LedgerOne(id, receded.value, PaneTabIndex(tabs, seating), status.store.rows.Keys);
        offered := Grace.Offered(id, receded, PaneTabIndex(tabs, seating), status.store.rows.Keys);
      }
    }

    method SetInteractiveCommands(extras: set<string>) returns (changed: bool)
      requires Separate() && Steady() && command.AllCoherent()
      modifies this`generation, command`interactive, command`pending, command.store
      ensures Steady() && (old(Sound()) ==> Sound()) && command.AllCoherent()
      ensures command.interactive == DEFAULT_INTERACTIVE + extras
      ensures forall x :: command.PaneAt(x) == OnInteractive(old(command.PaneAt(x)), command.interactive)
      ensures changed <==> exists x :: command.PaneAt(x) != old(command.PaneAt(x))
    {
      ghost var before := Sources();
      changed := command.SetInteractiveExtras(extras);
      forall x ensures Coherent(command.PaneAt(x)) {
        SweepsKeepCoherence(old(command.PaneAt(x)), command.interactive);
        assert command.PaneAt(x) == OnInteractive(old(command.PaneAt(x)), command.interactive);
      }
      if changed {
        Touch();
      } else {
        forall x ensures before.Quiet(x) == Sources().Quiet(x)
                      && Lookup(command.store.rows, x) == Lookup(old(command.store.rows), x)
        {
          assert command.PaneAt(x) == old(command.PaneAt(x));
        }
        SameRows(command.store.rows, old(command.store.rows));
        if old(MemoFresh()) {
          StaysFresh();
        }
      }
    }

    method SetRemoteCommands(extras: set<string>) returns (changed: bool)
      requires Separate() && Steady() && command.AllCoherent()
      modifies this`generation, command`remoteExtras, command`pending, command.store
      ensures Steady() && (old(Sound()) ==> Sound()) && command.AllCoherent()
      ensures command.remoteExtras == extras - DEFAULT_REMOTE
      ensures forall x :: command.PaneAt(x) == OnRemote(old(command.PaneAt(x)), command.remoteExtras)
      ensures changed <==> exists x :: command.PaneAt(x) != old(command.PaneAt(x))
    {
      ghost var before := Sources();
      changed := command.SetRemoteExtras(extras);
      forall x ensures Coherent(command.PaneAt(x)) {
        SweepsKeepCoherence(old(command.PaneAt(x)), command.remoteExtras);
        assert command.PaneAt(x) == OnRemote(old(command.PaneAt(x)), command.remoteExtras);
      }
      if changed {
        Touch();
      } else {
        forall x ensures before.Quiet(x) == Sources().Quiet(x)
                      && Lookup(command.store.rows, x) == Lookup(old(command.store.rows), x)
        {
          assert command.PaneAt(x) == old(command.PaneAt(x));
        }
        SameRows(command.store.rows, old(command.store.rows));
        if old(MemoFresh()) {
          StaysFresh();
        }
      }
    }

    /** Seed from a snapshot, adopting its tick. */
    method LoadSnapshot(observations: seq<(PaneId, Tracked)>, tick: nat, entries: seq<LedgerEntry>)
      requires Separate() && Steady()
      modifies this`generation, this`clock, status, status.store, command, command.store, ledger
      ensures Sound() && clock == tick && command.AllCoherent()
      ensures status.suspects == map[] && command.interactive == DEFAULT_INTERACTIVE && command.remoteExtras == {}
      ensures status.store.rows == Loaded(observations, Origin.StatusPipe, tick)
      ensures forall x :: command.PaneAt(x) == NO_PANE.(row := Lookup(Loaded(observations, Origin.Observed, tick), x))
      ensures ledger.entries == Take(SortedNewestFirst(entries), LEDGER_CAP)
    {
      Touch();
      clock := tick;
      Route(observations, tick);
      ledger.Replace(entries);
    }

    /** Both stores anew: each entry to the store of its origin. */
    method Route(observations: seq<(PaneId, Tracked)>, tick: nat)
      requires Separate()
      modifies status, status.store, command, command.store
      ensures status.suspects == map[] && command.interactive == DEFAULT_INTERACTIVE && command.remoteExtras == {}
      ensures command.AllCoherent() && status.store.rows == Loaded(observations, Origin.StatusPipe, tick)
      ensures forall x :: command.PaneAt(x) == NO_PANE.(row := Lookup(Loaded(observations, Origin.Observed, tick), x))
    {
      status.Reset();
      command.Reset();
      for n := 0 to |observations|
        modifies status.store, command.store
        invariant status.store.rows == Loaded(observations[..n], Origin.StatusPipe, tick)
        invariant forall x :: command.PaneAt(x)
                              == NO_PANE.(row := Lookup(Loaded(observations[..n], Origin.Observed, tick), x))
      {
        assert observations[..n + 1][..n] == observations[..n];
        var (id, row) := observations[n];
        if row.origin == Origin.Observed && row.status == Status.Done {
          row := row.(lastChangeTick := tick);
        }
        if row.origin == Origin.StatusPipe {
          status.InsertSnapshot(id, row);
        } else {
          command.InsertSnapshot(id, row);
        }
      }
      assert observations[..|observations|] == observations;
    }

    // ----- manifests -----

    /** What the class holds of a session. */
    ghost predicate IsAt(s: Session)
      reads this`flashUntil, status.store, command, command.store, ledger
    {
      && s.Total() && (forall x :: s.panes[x] == command.PaneAt(x))
      && s.rows == status.store.rows && s.entries == ledger.entries && s.flashUntil == flashUntil
    }

    function Here(): Topology
      reads this`tabs, this`seating, status.store
    {
      Topology(tabs, seating, status.store.rows.Keys)
    }

    method LedgerMaybe(id: PaneId, row: Option<Tracked>, index: TabIndex, shadow: set<PaneId>)
      modifies this`generation, ledger
      ensures ledger.entries == PushedAll(old(ledger.entries), Grace.Offered(id, row, index, shadow))
      ensures generation >= old(generation)
    {
      if row.Some? {
        LedgerOne(id, row.value, index, shadow);
      }
    }

    method ExitInStore(ghost s: Session, id: PaneId, code: Option<int>, tick: nat, now: nat)
      returns (receded: Option<Tracked>)
      requires Separate() && IsAt(s)
      modifies command`pending, command`pendingDone, command`exited, command.store
      ensures IsAt(s.(panes := s.panes[id := OnExit(s.panes[id], code, tick, now)]))
      ensures receded == ExitDrops(s.panes[id], code)
    {
      receded := command.ApplyExit(id, code, tick, now);
    }

    method ApplyCommandExit(ghost s: Session, id: PaneId, code: Option<int>, t: Topology, index: TabIndex, tick: nat,
                            now: nat)
      returns (displaced: bool)
      requires Separate() && IsAt(s) && index == t.Index() && t.tabs == tabs && t.seating == seating
      modifies this`generation, this`flashUntil, command`pending, command`pendingDone, command`exited, command.store,
               ledger
      ensures IsAt(CommandExit(s, id, code, t, tick, now)) && generation >= old(generation)
      ensures displaced <==> ExitDrops(s.panes[id], code).Some?
    {
      var wasRemoteRunning := RemoteRunning(command.PaneAt(id));
      var receded := ExitInStore(s, id, code, tick, now);
      LedgerMaybe(id, receded, index, t.shadow);
      if wasRemoteRunning {
        ArmFlash(id, tick);
      }
      displaced := receded.Some?;
    }

    method ApplyStatusExit(ghost s: Session, id: PaneId, t: Topology, index: TabIndex, tick: nat)
      returns (displaced: bool)
      requires Separate() && IsAt(s) && index == t.Index()
      modifies this`generation, status, status.store, ledger
      ensures IsAt(StatusExit(s, id, t, tick)) && generation >= old(generation)
      ensures status.suspects == old(status.suspects) - {id}
      ensures displaced <==> ClearsOnExit(Lookup(s.rows, id))
    {
      var cleared := status.ClearOnExit(id, tick);
      LedgerMaybe(id, cleared, index, t.shadow);
      displaced := cleared.Some?;
    }

    /** One exit, in both stores. */
    method ApplyExit(ghost s: Session, id: PaneId, code: Option<int>, t: Topology, index: TabIndex, tick: nat, now: nat)
      returns (displaced: bool)
      requires Separate() && IsAt(s) && index == t.Index() && t.tabs == tabs && t.seating == seating
      modifies this`generation, this`flashUntil, status, status.store, command`pending, command`pendingDone,
               command`exited, command.store, ledger
      ensures IsAt(TakenExit(s, id, code, t, tick, now)) && generation >= old(generation)
      ensures status.suspects == old(status.suspects) - {id} && (displaced <==> ExitDisplaces(s, id, code))
    {
      var displacedRow := ApplyCommandExit(s, id, code, t, index, tick, now);
      var cleared := ApplyStatusExit(CommandExit(s, id, code, t, tick, now), id, t, index, tick);
      displaced := displacedRow || cleared;
    }

    method ApplyExits(ghost s: Session, exits: Exits, t: Topology, tick: nat, now: nat)
      returns (displaced: bool, ghost after: Session)
      requires Separate() && IsAt(s) && Calm(s) && t.tabs == tabs && t.seating == seating
      modifies this`generation, this`flashUntil, status, status.store, command`pending, command`pendingDone,
               command`exited, command.store, ledger
      ensures after == TakenExits(s, exits, t, tick, now) && IsAt(after) && Calm(after) && generation >= old(generation)
      ensures status.suspects == old(status.suspects) - ExitIds(exits)
      ensures displaced <==> ExitsDisplace(s, exits, t, tick, now)
    {
      var index := t.Index();
      displaced := false;
      for n := 0 to |exits|
        invariant IsAt(TakenExits(s, exits[..n], t, tick, now)) && generation >= old(generation)
        invariant status.suspects == old(status.suspects) - ExitIds(exits[..n])
        invariant displaced <==> ExitsDisplace(s, exits[..n], t, tick, now)
      {
        var (id, code) := exits[n];
        assert exits[..n + 1][..n] == exits[..n];
        ExitIdsGrow(old(status.suspects), exits, n);
        var takesOff := ApplyExit(TakenExits(s, exits[..n], t, tick, now), id, code, t, index, tick, now);
        displaced := displaced || takesOff;
      }
      assert exits[..|exits|] == exits;
      after := TakenExits(s, exits, t, tick, now);
      ExitsKeepCalm(s, exits, t, tick, now);
    }

    /** Every pane either store tracks. */
    function Tracked(): (ids: set<PaneId>)
      reads status.store, command, command.store
      ensures forall x :: x in ids <==> x in status.store.rows || command.PaneAt(x) != NO_PANE
    {
      status.store.rows.Keys + command.TrackedIds()
    }

    ghost function Now(): (s: Session)
      reads this`flashUntil, status.store, command, command.store, ledger
      ensures IsAt(s)
    {
      Session(imap id: PaneId | true :: command.PaneAt(id), status.store.rows, ledger.entries, flashUntil)
    }

    /** Prune both stores. */
    method PruneStores(ghost s: Session, kept: set<PaneId>) returns (pushed: Drops, observed: Drops)
      requires Separate() && IsAt(s)
      modifies status, status.store, command`pending, command`pendingDone, command`exited, command.store
      ensures RestrictedTo(s, Now(), kept)
      ensures forall x :: Lookup(status.suspects, x) == if x in kept then Lookup(old(status.suspects), x) else None
      ensures forall id :: Lookup(pushed, id) == if id in kept then None else Lookup(s.rows, id)
      ensures forall id :: Lookup(observed, id) == if id in kept then None else s.panes[id].row
    {
      pushed := status.Prune(kept);
      observed := command.Prune(kept);
    }

    /** Grant grace to the panes first missing and drop the rest. */
    method DropGone(ghost s: Session, live: set<PaneId>, index: TabIndex) returns (pushed: Drops, observed: Drops)
      requires Separate() && IsAt(s)
      modifies this`absentOnce, this`paneCwd, status, status.store, command`pending,
               command`pendingDone, command`exited, command.store
      ensures IsAt(Pruned(s, live, old(absentOnce)))
      ensures pushed == GonePushed(s, live, old(absentOnce)) && observed == GoneObserved(s, live, old(absentOnce))
      ensures forall x :: Lookup(status.suspects, x)
                          == if x in live + absentOnce.Keys then Lookup(old(status.suspects), x) else None
      ensures paneCwd == Within(old(paneCwd), live + absentOnce.Keys)
      ensures Tracked() <= live + absentOnce.Keys
      ensures absentOnce == NextAbsences(Tracked(), live, old(absentOnce), index)
    {
      var tracked := Tracked();
      var absentBefore := absentOnce;
      absentOnce := NextAbsences(tracked, live, absentBefore, index);
      paneCwd := Within(paneCwd, live + absentOnce.Keys);
      pushed, observed := KeepOnly(s, tracked, absentBefore, live, index, live + absentOnce.Keys);
    }

    method KeepOnly(ghost s: Session, ghost tracked: set<PaneId>, ghost absentBefore: Absences, ghost live: set<PaneId>,
                    ghost index: TabIndex, kept: set<PaneId>)
      returns (pushed: Drops, observed: Drops)
      requires Separate() && IsAt(s) && tracked == Tracked()
      requires kept == live + NextAbsences(tracked, live, absentBefore, index).Keys
      modifies status, status.store, command`pending, command`pendingDone, command`exited, command.store
      ensures IsAt(Pruned(s, live, absentBefore))
      ensures pushed == GonePushed(s, live, absentBefore) && observed == GoneObserved(s, live, absentBefore)
      ensures Tracked() <= kept
      ensures forall x :: Lookup(status.suspects, x) == if x in kept then Lookup(old(status.suspects), x) else None
      ensures NextAbsences(tracked, live, absentBefore, index) == NextAbsences(Tracked(), live, absentBefore, index)
    {
      assert Tracks(s, tracked);
      pushed, observed := PruneStores(s, kept);
      KeepingIsPruning(s, Now(), tracked, live, absentBefore, index);
      DroppedAreGone(s, pushed, observed, tracked, live, absentBefore, index);
      PrunedAreCovered(s, tracked, Tracked(), live, absentBefore, index);
    }

    /** Hand what was dropped to the ledger. */
    method FileDropped(pushed: Drops, observed: Drops, index: TabIndex, shadow: set<PaneId>)
      returns (ghost dropped: Dropped)
      modifies this`generation, ledger
      ensures dropped.pushed == pushed && dropped.observed == observed && dropped.Listed()
              && generation >= old(generation)
      ensures ledger.entries == PushedAll(old(ledger.entries), dropped.Offers(index, shadow))
    {
      ghost var first := LedgerReceded(pushed, index, shadow);
      ghost var second := LedgerReceded(observed, index, shadow);
      dropped := Dropped(pushed, observed, first, second);
      PushedAllInTurn(old(ledger.entries), OffersAlong(first, pushed, index, shadow),
                      OffersAlong(second, observed, index, shadow));
    }

    method PruneGone(ghost s: Session, ghost absentBefore: Absences, live: set<PaneId>, t: Topology)
      returns (any: bool, ghost dropped: Dropped, ghost settled: Session)
      requires Separate() && IsAt(s) && absentBefore == absentOnce
      modifies this`absentOnce, this`paneCwd, this`generation, status, status.store, command`pending,
               command`pendingDone, command`exited, command.store, ledger
      ensures dropped.Listed() && Gone(dropped, s, live, absentBefore) && (any <==> dropped.Any())
      ensures settled == Settled(s, live, absentBefore, t, dropped) && IsAt(settled)
      ensures forall x :: Lookup(status.suspects, x)
                          == if x in live + absentOnce.Keys then Lookup(old(status.suspects), x) else None
      ensures paneCwd == Within(old(paneCwd), live + absentOnce.Keys)
      ensures Tracked() <= live + absentOnce.Keys && generation >= old(generation)
      ensures absentOnce == NextAbsences(Tracked(), live, absentBefore, t.Index())
    {
      var pruneIndex := PruneIndex(t.Index(), absentOnce);
      var pushed, observed := DropGone(s, live, t.Index());
      any := pushed != map[] || observed != map[];
      dropped := FileDropped(pushed, observed, pruneIndex, t.shadow);
      settled := Settled(s, live, absentBefore, t, dropped);
    }

    /** The new topology, and the grace rule. */
    method Replace(ghost after: Session, ghost absentBefore: Absences, newSeating: Seating, live: set<PaneId>,
                   t: Topology)
      returns (any: bool, ghost dropped: Dropped, ghost settled: Session)
      requires Separate() && IsAt(after) && Calm(after) && absentBefore == absentOnce && MemoDated() && !MemoCurrent()
      modifies this`seating, this`livePanes, this`absentOnce, this`paneCwd, this`generation, status, status.store,
               command`pending, command`pendingDone, command`exited, command.store, ledger
      ensures seating == newSeating && livePanes == Some(live) && command.AllCoherent()
      ensures MemoDated() && !MemoCurrent() && GraceSound(absentOnce, livePanes)
      ensures dropped.Listed() && Gone(dropped, after, live, absentBefore) && (any <==> dropped.Any())
      ensures settled == Settled(after, live, absentBefore, t, dropped) && IsAt(settled)
      ensures forall x :: Lookup(status.suspects, x)
                          == if x in live + absentOnce.Keys then Lookup(old(status.suspects), x) else None
      ensures paneCwd == Within(old(paneCwd), live + absentOnce.Keys)
      ensures Tracked() <= live + absentOnce.Keys
      ensures absentOnce == NextAbsences(Tracked(), live, absentBefore, t.Index())
    {
      livePanes, seating := Some(live), newSeating;
      any, dropped, settled := PruneGone(after, absentBefore, live, t);
      SettledIsCalm(after, live, absentBefore, t, dropped);
    }

    /** The topology captured, the memo gone, the exits taken. */
    method TakeExits(exits: Exits, tick: nat, now: nat)
      returns (displaced: bool, t: Topology, ghost s: Session, ghost after: Session)
      requires Separate() && MemoDated() && command.AllCoherent()
      modifies this`flashUntil, this`generation, this`clock, status, status.store, command`pending,
               command`pendingDone, command`exited, command.store, ledger
      ensures clock == tick && MemoDated() && !MemoCurrent()
      ensures s == old(Now()) && t == old(Here()) && after == TakenExits(s, exits, t, tick, now)
      ensures status.suspects == old(status.suspects) - ExitIds(exits)
      ensures IsAt(after) && Calm(after) && (displaced <==> ExitsDisplace(s, exits, t, tick, now))
    {
      t := Here();
      s := Now();
      Touch();
      clock := tick;
      displaced, after := ApplyExits(s, exits, t, tick, now);
    }

    /** A pane manifest: its exits, then the grace rule against the topology it replaces. After it every tracked pane
        is listed or in grace, and the memo is sound whatever it was. It asks to be persisted when it took something
        off the card or out of a store. */
    method PanesChanged(newSeating: Seating, live: set<PaneId>, exits: Exits, tick: nat, now: nat)
      returns (persist: bool, ghost s: Session, ghost t: Topology, ghost after: Session, ghost absentBefore: Absences,
               ghost dropped: Dropped, ghost settled: Session)
      requires Separate() && MemoDated() && command.AllCoherent()
      modifies this`seating, this`livePanes, this`absentOnce, this`paneCwd, this`flashUntil, this`generation,
               this`clock, status, status.store, command`pending, command`pendingDone, command`exited,
               command.store, ledger
      ensures clock == tick && seating == newSeating && livePanes == Some(live) && Sound() && command.AllCoherent()
      ensures absentBefore == old(absentOnce)
      ensures s == old(Now()) && t == old(Here()) && after == TakenExits(s, exits, t, tick, now)
      ensures dropped.Listed() && Gone(dropped, after, live, absentBefore)
              && (persist <==> ExitsDisplace(s, exits, t, tick, now) || dropped.Any())
      ensures settled == Settled(after, live, absentBefore, t, dropped) && IsAt(settled)
      ensures forall x :: Lookup(status.suspects, x)
                          == if x in live + absentOnce.Keys && x !in ExitIds(exits)
                             then Lookup(old(status.suspects), x) else None
      ensures paneCwd == Within(old(paneCwd), live + absentOnce.Keys)
      ensures Tracked() <= live + absentOnce.Keys
      ensures absentOnce == NextAbsences(Tracked(), live, absentBefore, t.Index())
    {
      var before;
      absentBefore := absentOnce;
      persist, before, s, after := TakeExits(exits, tick, now);
      t := before;
      var any;
      any, dropped, settled := Replace(after, absentBefore, newSeating, live, before);
      persist := persist || any;
    }
  }
}
