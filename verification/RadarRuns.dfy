/** Whole runs of the radar state: what a look at the rail can show, which panes a run of manifests drops, and where
    their completions go. */
module RadarRuns {
  import opened Prelude
  import opened Vocabulary
  import opened Observation
  import opened CommandPane
  import opened CommandStores
  import opened StatusStores
  import opened Ledgers
  import opened Rollup
  import opened Grace
  import opened RadarStates
  import Wire

  /** Every entry point of the radar state, and a look at the rows. */
  datatype Step =
    | Tabs(tabs: seq<RadarTab>)
    | Panes(seating: Seating, live: set<PaneId>, exits: Exits, tick: nat, now: nat)
    | Tick(tick: nat, now: nat)
    | Pipe(payload: Wire.StatusPayload, tick: nat, now: nat)
    | Command(id: PaneId, argv: seq<string>, isForeground: bool, tick: nat)
    | Cwd(id: PaneId, path: string)
    | Interactives(extras: set<string>)
    | Remotes(extras: set<string>)
    | Load(observations: seq<(PaneId, Tracked)>, tick: nat, entries: seq<LedgerEntry>)
    | Look(tick: nat)
  {
    /** The step's tick, or `before` for a step without one. */
    function TickFrom(before: nat): nat {
      match this
      case Panes(_, _, _, t, _) => t
      case Tick(t, _) => t
      case Pipe(_, t, _) => t
      case Command(_, _, _, t) => t
      case Load(_, t, _) => t
      case Look(t) => t
      case _ => before
    }

    /** Ticks never go back, but for a snapshot's. */
    predicate Follows(before: nat) {
      Load? || TickFrom(before) >= before
    }

    /** The panes it may bring a pushed row for. */
    function Brings(): set<PaneId> {
      if Pipe? then {payload.paneId} else {}
    }

    /** The panes whose pushed row it may replace. */
    function Concerns(): set<PaneId> {
      if Pipe? then {payload.paneId} else if Command? then {id} else {}
    }

    /** A snapshot, if it is one, of no more pushed rows than the store's cap. */
    predicate WithinCap() {
      Load? ==> |Loaded(observations, Origin.StatusPipe, tick)| <= MAX_TRACKED_PANES
    }

    /** A snapshot, if it is one, of genuine rows. */
    predicate IsGenuine() {
      Load? ==> forall k :: 0 <= k < |observations| ==> GenuineRow(observations[k].1)
    }
  }

  predicate GenuineRow(row: Tracked) {
    if row.origin.StatusPipe? then GenuinePushed(row) else GenuineObserved(row)
  }

  predicate Forward(steps: seq<Step>, from: nat)
    decreases |steps|
  {
    steps != [] ==> steps[0].Follows(from) && Forward(steps[1..], steps[0].TickFrom(from))
  }

  ghost predicate Ready(r: RadarState)
    reads r, r.status.store, r.command, r.command.store, r.ledger
  {
    r.Separate() && r.Steady() && r.command.AllCoherent() && |r.ledger.entries| <= LEDGER_CAP
  }

  /** Either store has a row for the pane. */
  predicate HasRow(r: RadarState, id: PaneId)
    reads r.status.store, r.command.store
  {
    id in r.status.store.rows || id in r.command.store.rows
  }

  // ----- what a step does to the rows -----

  lemma {:induction false} SubsetSize(a: set<PaneId>, b: set<PaneId>)
    requires a <= b
    ensures |a| <= |b|
  {
    if a != b {
      var x :| x in b && x !in a;
      ProperlySmaller(a, b, x);
    }
  }

  /** The pushed completions of other panes stay as they are. */
  ghost predicate CompletionsKept(before: map<PaneId, Tracked>, after: map<PaneId, Tracked>, but: set<PaneId>) {
    forall x :: x in before && x !in but && before[x].status.IsCompletion() ==> Lookup(after, x) == Some(before[x])
  }

  /** Pushed rows come with payloads only, and go only when the store is over its cap. */
  ghost predicate RowsAfter(before: map<PaneId, Tracked>, after: map<PaneId, Tracked>, step: Step) {
    && after.Keys <= before.Keys + step.Brings()
    && (|before| <= MAX_TRACKED_PANES ==> |after| <= MAX_TRACKED_PANES)
    && (|before.Keys + step.Brings()| <= MAX_TRACKED_PANES ==>
          before.Keys <= after.Keys && CompletionsKept(before, after, step.Concerns()))
  }

  lemma SameKeysAfter(before: map<PaneId, Tracked>, after: map<PaneId, Tracked>, step: Step)
    requires before.Keys == after.Keys && CompletionsKept(before, after, step.Concerns())
    ensures RowsAfter(before, after, step)
  {
    assert |before| == |before.Keys| && |after| == |after.Keys|;
  }

  lemma PayloadAfter(rows: map<PaneId, Tracked>, kept: map<PaneId, Tracked>, row: Tracked, step: Step)
    requires step.Pipe? && Evicted(rows[step.payload.paneId := row], kept)
    ensures RowsAfter(rows, kept, step)
  {
    var id := step.payload.paneId;
    assert rows[id := row].Keys == rows.Keys + {id};
    assert |rows[id := row]| == |rows.Keys + {id}|;
  }

  lemma {:induction false} LoadedIsGenuine(observations: seq<(PaneId, Tracked)>, tick: nat)
    requires forall k :: 0 <= k < |observations| ==> GenuineRow(observations[k].1)
    ensures forall id :: id in Loaded(observations, Origin.StatusPipe, tick) ==>
              GenuinePushed(Loaded(observations, Origin.StatusPipe, tick)[id])
    ensures forall id :: id in Loaded(observations, Origin.Observed, tick) ==>
              GenuineObserved(Loaded(observations, Origin.Observed, tick)[id])
  {
    if observations != [] {
      LoadedIsGenuine(observations[..|observations| - 1], tick);
      assert GenuineRow(observations[|observations| - 1].1);
    }
  }

  // ----- exits and manifests -----

  /** What the exits offer the ledger. */
  ghost function ExitOffers(s: Session, exits: Exits, t: Topology, tick: nat, now: nat): seq<LedgerEntry>
    requires s.Total()
    decreases |exits|
  {
    if exits == [] then []
    else
      var (id, code) := exits[|exits| - 1];
      var front := TakenExits(s, exits[..|exits| - 1], t, tick, now);
      ExitOffers(s, exits[..|exits| - 1], t, tick, now)
      + Grace.Offered(id, ExitDrops(front.panes[id], code), t.Index(), t.shadow)
      + if ClearsOnExit(Lookup(front.rows, id)) then Grace.Offered(id, Lookup(front.rows, id), t.Index(), t.shadow)
        else []
  }

  lemma {:induction false} ExitsOffer(s: Session, exits: Exits, t: Topology, tick: nat, now: nat)
    requires s.Total()
    ensures TakenExits(s, exits, t, tick, now).entries == PushedAll(s.entries, ExitOffers(s, exits, t, tick, now))
    decreases |exits|
  {
    if exits != [] {
      var (id, code) := exits[|exits| - 1];
      var front := TakenExits(s, exits[..|exits| - 1], t, tick, now);
      var before := ExitOffers(s, exits[..|exits| - 1], t, tick, now);
      var dropped := Grace.Offered(id, ExitDrops(front.panes[id], code), t.Index(), t.shadow);
      ExitsOffer(s, exits[..|exits| - 1], t, tick, now);
      PushedAllInTurn(s.entries, before, dropped);
      PushedAllInTurn(s.entries, before + dropped, Grace.Offered(id, Lookup(front.rows, id), t.Index(), t.shadow));
      assert before + dropped + [] == before + dropped;
    }
  }

  /** Exits bring and drop no row of either store, and no row that is not genuine. */
  lemma {:induction false} ExitsKeepRows(s: Session, exits: Exits, t: Topology, tick: nat, now: nat)
    requires s.Total()
    ensures var r := TakenExits(s, exits, t, tick, now);
            && r.rows.Keys == s.rows.Keys
            && forall id: PaneId :: s.panes[id].row.Some? ==> r.panes[id].row.Some?
    decreases |exits|
  {
    if exits != [] {
      ExitsKeepRows(s, exits[..|exits| - 1], t, tick, now);
    }
  }

  ghost predicate GenuineIn(s: Session)
    requires s.Total()
  {
    && (forall id :: id in s.rows ==> GenuinePushed(s.rows[id]))
    && (forall id: PaneId :: s.panes[id].row.Some? ==> GenuineObserved(s.panes[id].row.value))
  }

  lemma {:induction false} ExitsKeepGenuine(s: Session, exits: Exits, t: Topology, tick: nat, now: nat)
    requires s.Total() && GenuineIn(s)
    ensures GenuineIn(TakenExits(s, exits, t, tick, now))
    decreases |exits|
  {
    if exits != [] {
      ExitsKeepGenuine(s, exits[..|exits| - 1], t, tick, now);
    }
  }

  /** Either store of a session has a row for the pane. */
  ghost predicate Shows(s: Session, id: PaneId)
    requires s.Total()
  {
    id in s.rows || s.panes[id].row.Some?
  }

  predicate Spared(exits: Exits, id: PaneId) {
    forall k :: 0 <= k < |exits| ==> exits[k].0 != id
  }

  /** A manifest keeps the rows of the panes that stay, and of no others; a pane without an exit keeps its own. */
  lemma ManifestKeeps(s: Session, exits: Exits, t: Topology, tick: nat, now: nat, live: set<PaneId>,
                      absentBefore: Absences, dropped: Dropped)
    requires s.Total()
    ensures var r := Settled(TakenExits(s, exits, t, tick, now), live, absentBefore, t, dropped);
            && r.rows.Keys <= s.rows.Keys
            && (forall id :: Shows(s, id) && Stays(live, absentBefore, id) ==> Shows(r, id))
            && (forall id :: Shows(r, id) ==> Stays(live, absentBefore, id))
            && (forall id :: Spared(exits, id) && Stays(live, absentBefore, id) ==>
                  Lookup(r.rows, id) == Lookup(s.rows, id))
  {
    var after := TakenExits(s, exits, t, tick, now);
    ExitsKeepRows(s, exits, t, tick, now);
    forall id | Spared(exits, id) ensures Lookup(after.rows, id) == Lookup(s.rows, id) {
      ExitsAreLocal(s, exits, t, tick, now, id);
    }
  }

  /** Everything a manifest offers the ledger. */
  ghost function ManifestOffers(s: Session, exits: Exits, t: Topology, tick: nat, now: nat, absentBefore: Absences,
                                dropped: Dropped): seq<LedgerEntry>
    requires s.Total()
  {
    ExitOffers(s, exits, t, tick, now) + dropped.Offers(PruneIndex(t.Index(), absentBefore), t.shadow)
  }

  /** A completion the manifest gives up: on the card, stamped, of a pane that exits nothing, is in grace and missing
      again. */
  ghost predicate GivenUp(s: Session, exits: Exits, t: Topology, live: set<PaneId>, absentBefore: Absences, id: PaneId,
                          row: Tracked)
    requires s.Total()
  {
    && (Lookup(s.rows, id) == Some(row) || s.panes[id].row == Some(row))
    && Shown(id, row, t.shadow) && row.status.IsCompletion() && row.completedEpochS.Some?
    && Spared(exits, id) && id !in live && id in absentBefore && absentBefore[id].Some?
  }

  /** The ledger has the row's entry under that tab, or had it pushed out. */
  ghost predicate FiledUnder(ring: seq<LedgerEntry>, offered: seq<LedgerEntry>, id: PaneId, row: Tracked,
                             at: (TabId, string))
  {
    var entry := FromObservation(id, row, at.0, at.1);
    entry.Some? && Filed(ring, offered, entry.value)
  }

  lemma ManifestFiles(s: Session, exits: Exits, t: Topology, tick: nat, now: nat, live: set<PaneId>,
                      absentBefore: Absences, dropped: Dropped, id: PaneId, row: Tracked)
    requires s.Total() && |s.entries| <= LEDGER_CAP && GivenUp(s, exits, t, live, absentBefore, id, row)
    requires Gone(dropped, TakenExits(s, exits, t, tick, now), live, absentBefore) && dropped.Listed()
    ensures FiledUnder(s.entries, ManifestOffers(s, exits, t, tick, now, absentBefore, dropped), id, row,
                       absentBefore[id].value)
  {
    var after := TakenExits(s, exits, t, tick, now);
    ExitsAreLocal(s, exits, t, tick, now, id);
    ExitsOffer(s, exits, t, tick, now);
    RingStaysCapped(s.entries, ExitOffers(s, exits, t, tick, now));
    DroppedCompletionIsFiled(after, live, absentBefore, t, dropped, id, row);
    var (tab, name) := absentBefore[id].value;
    OffersAreFiled(s.entries, ManifestOffers(s, exits, t, tick, now, absentBefore, dropped),
                   FromObservation(id, row, tab, name).value);
  }

  /** And the ledger takes all of it, within its cap. */
  lemma ManifestLedger(s: Session, exits: Exits, t: Topology, tick: nat, now: nat, live: set<PaneId>,
                       absentBefore: Absences, dropped: Dropped)
    requires s.Total() && |s.entries| <= LEDGER_CAP
    ensures var offers := ManifestOffers(s, exits, t, tick, now, absentBefore, dropped);
            && Settled(TakenExits(s, exits, t, tick, now), live, absentBefore, t, dropped).entries
               == PushedAll(s.entries, offers)
            && |PushedAll(s.entries, offers)| <= LEDGER_CAP
  {
    ExitsOffer(s, exits, t, tick, now);
    PushedAllInTurn(s.entries, ExitOffers(s, exits, t, tick, now),
                    dropped.Offers(PruneIndex(t.Index(), absentBefore), t.shadow));
    RingStaysCapped(s.entries, ManifestOffers(s, exits, t, tick, now, absentBefore, dropped));
  }

  // ----- the steps -----

  /** What every step but a manifest and a snapshot does to the rows. */
  ghost predicate Advanced(before: Sources, after: Sources, step: Step) {
    && RowsAfter(before.status, after.status, step) && before.command.Keys <= after.command.Keys
    && (Genuine(before) ==> Genuine(after))
  }

  lemma TickKeepsPushed(before: map<PaneId, Tracked>, after: map<PaneId, Tracked>, step: Step)
    requires step.Tick?
    requires forall id :: Lookup(after, id) == Lookup(before, id)
                          || (id in before && !before[id].status.IsCompletion()
                              && Lookup(after, id) == Some(Idled(before[id], step.tick)))
    ensures RowsAfter(before, after, step)
    ensures forall id :: id in after ==> id in before && (GenuinePushed(before[id]) ==> GenuinePushed(after[id]))
  {
    forall id
      ensures id in after <==> id in before
      ensures id in before && before[id].status.IsCompletion() ==> Lookup(after, id) == Some(before[id])
      ensures id in after && GenuinePushed(before[id]) ==> GenuinePushed(after[id])
    {
      assert Lookup(after, id).Some? <==> Lookup(before, id).Some?;
    }
    SameKeysAfter(before, after, step);
  }

  lemma TickMakesGenuine(p: Pane, tick: nat, now: nat)
    requires p.row.Some? ==> GenuineObserved(p.row.value)
    ensures OnTick(p, tick, now).row.Some? ==> GenuineObserved(OnTick(p, tick, now).row.value)
  {
  }

  lemma TickKeepsRow(p: Pane, tick: nat, now: nat)
    ensures p.row.Some? ==> OnTick(p, tick, now).row.Some?
  {
  }

  lemma TickKeepsObserved(panes: imap<PaneId, Pane>, before: map<PaneId, Tracked>, after: map<PaneId, Tracked>,
                          tick: nat, now: nat)
    requires forall id: PaneId :: id in panes
    requires forall id :: Lookup(before, id) == panes[id].row
    requires forall id :: Lookup(after, id) == OnTick(panes[id], tick, now).row
    ensures forall id :: id in before ==> id in after
    ensures forall id :: id in after && (id in before ==> GenuineObserved(before[id])) ==> GenuineObserved(after[id])
  {
    forall id
      ensures id in before ==> id in after
      ensures id in after && (id in before ==> GenuineObserved(before[id])) ==> GenuineObserved(after[id])
    {
      var p, q := panes[id], OnTick(panes[id], tick, now);
      assert Lookup(after, id) == q.row && Lookup(before, id) == p.row;
      TickKeepsRow(p, tick, now);
      if p.row.Some? ==> GenuineObserved(p.row.value) {
        TickMakesGenuine(p, tick, now);
      }
    }
  }

  method TakeTick(r: RadarState, step: Step)
    requires Ready(r) && step.Tick? && step.tick >= r.clock
    modifies r`flashUntil, r`generation, r`clock, r.status, r.status.store, r.command, r.command.store, r.ledger
    ensures Ready(r) && r.clock == step.tick && (old(r.Sound()) ==> r.Sound())
    ensures Advanced(old(r.Sources()), r.Sources(), step)
  {
    ghost var entries, before := r.ledger.entries, r.Sources();
    ghost var panes := imap id: PaneId | true :: r.command.PaneAt(id);
    ghost var offered := PassTick(r, panes, step.tick, step.now);
    RingStaysCapped(entries, offered);
    TickKeepsPushed(before.status, r.status.store.rows, step);
    TickKeepsObserved(panes, before.command, r.command.store.rows, step.tick, step.now);
  }

  method PassTick(r: RadarState, ghost panes: imap<PaneId, Pane>, tick: nat, now: nat)
    returns (ghost offered: seq<LedgerEntry>)
    requires r.Separate() && r.Steady() && r.command.AllCoherent() && tick >= r.clock
    requires forall id: PaneId :: id in panes && panes[id] == r.command.PaneAt(id)
    modifies r`flashUntil, r`generation, r`clock, r.status, r.status.store, r.command, r.command.store, r.ledger
    ensures r.Steady() && r.command.AllCoherent() && r.clock == tick && (old(r.Sound()) ==> r.Sound())
    ensures r.ledger.entries == PushedAll(old(r.ledger.entries), offered)
    ensures forall id :: Lookup(r.command.store.rows, id) == OnTick(panes[id], tick, now).row
    ensures forall id :: Lookup(r.status.store.rows, id) == Lookup(old(r.status.store.rows), id)
                         || (id in old(r.status.store.rows) && !old(r.status.store.rows)[id].status.IsCompletion()
                             && Lookup(r.status.store.rows, id) == Some(Idled(old(r.status.store.rows)[id], tick)))
  {
    ghost var index, shadow := PaneTabIndex(r.tabs, r.seating), r.status.store.rows.Keys;
    var _, _, receded, order := r.Timer(tick, now);
    offered := OffersAlong(order, receded, index, shadow);
    forall id ensures Lookup(r.command.store.rows, id) == OnTick(panes[id], tick, now).row {
      assert r.command.PaneAt(id) == OnTick(old(r.command.PaneAt(id)), tick, now);
    }
  }

  lemma PipeAdvances(before: Sources, after: Sources, step: Step, kind: Kind)
    requires step.Pipe? && after.command == before.command
    requires var p := step.payload;
             Evicted(before.status[p.paneId := RowAfter(Lookup(before.status, p.paneId), p, kind, step.tick, step.now)],
                     after.status)
    ensures Advanced(before, after, step)
  {
    var p := step.payload;
    PayloadAfter(before.status, after.status,
                 RowAfter(Lookup(before.status, p.paneId), p, kind, step.tick, step.now), step);
  }

  method TakePipe(r: RadarState, step: Step)
    requires Ready(r) && step.Pipe? && step.tick >= r.clock
    modifies r`generation, r`clock, r`flashUntil, r.status, r.status.store, r.ledger
    ensures Ready(r) && r.clock == step.tick && Advanced(old(r.Sources()), r.Sources(), step)
    ensures old(r.Sound()) && |old(r.status.store.rows)| <= MAX_TRACKED_PANES ==> r.Sound()
  {
    hide RowAfter, Evicted, RailStays, FacesAndCountsStay, Genuine, Advanced;
    ghost var before, entries := r.Sources(), r.ledger.entries;
    var _, offered := r.StatusPipe(step.payload, step.tick, step.now);
    RingStaysCapped(entries, offered);
    PipeAdvances(before, r.Sources(), step, r.status.kindOf(step.payload.source));
  }

  lemma CommandAdvances(before: Sources, after: Sources, step: Step)
    requires step.Command? && after.command == before.command
    requires after.status == before.status
             || (step.id in before.status
                 && exists tick :: after.status == before.status[step.id := Idled(before.status[step.id], tick)])
    ensures Advanced(before, after, step)
  {
    SameKeysAfter(before.status, after.status, step);
  }

  method TakeCommand(r: RadarState, step: Step)
    requires Ready(r) && step.Command? && step.tick >= r.clock
    modifies r`generation, r`clock, r.status, r.status.store, r.command, r.command.store, r.ledger
    ensures Ready(r) && r.clock == step.tick && Advanced(old(r.Sources()), r.Sources(), step)
  {
    ghost var entries, before := r.ledger.entries, r.Sources();
    ghost var intake := r.IntakeOf(step.id, step.argv, step.isForeground);
    var _, offered := r.CommandChanged(step.id, step.argv, step.isForeground, step.tick);
    RingStaysCapped(entries, offered);
    forall x ensures Lookup(r.command.store.rows, x) == Lookup(before.command, x) {
      CommandKeepsRow(old(r.command.PaneAt(x)), intake, step.tick);
      assert r.command.PaneAt(x).row == old(r.command.PaneAt(x)).row;
    }
    SameRows(r.command.store.rows, before.command);
    CommandAdvances(before, r.Sources(), step);
  }

  method TakeInteractives(r: RadarState, step: Step)
    requires Ready(r) && step.Interactives?
    modifies r`generation, r.command, r.command.store
    ensures Ready(r) && (old(r.Sound()) ==> r.Sound()) && Advanced(old(r.Sources()), r.Sources(), step)
  {
    var _ := r.SetInteractiveCommands(step.extras);
    forall id
      ensures id in old(r.command.store.rows) <==> id in r.command.store.rows
      ensures id in r.command.store.rows && GenuineObserved(old(r.command.store.rows)[id]) ==>
                GenuineObserved(r.command.store.rows[id])
    {
      assert r.command.PaneAt(id) == OnInteractive(old(r.command.PaneAt(id)), r.command.interactive);
    }
    SameKeysAfter(r.status.store.rows, r.status.store.rows, step);
  }

  method TakeRemotes(r: RadarState, step: Step)
    requires Ready(r) && step.Remotes?
    modifies r`generation, r.command, r.command.store
    ensures Ready(r) && (old(r.Sound()) ==> r.Sound()) && Advanced(old(r.Sources()), r.Sources(), step)
  {
    var _ := r.SetRemoteCommands(step.extras);
    forall id
      ensures id in old(r.command.store.rows) <==> id in r.command.store.rows
      ensures id in r.command.store.rows && GenuineObserved(old(r.command.store.rows)[id]) ==>
                GenuineObserved(r.command.store.rows[id])
    {
      assert r.command.PaneAt(id) == OnRemote(old(r.command.PaneAt(id)), r.command.remoteExtras);
    }
    SameKeysAfter(r.status.store.rows, r.status.store.rows, step);
  }

  lemma ManifestFilesAll(s: Session, exits: Exits, t: Topology, tick: nat, now: nat, live: set<PaneId>,
                         absentBefore: Absences, dropped: Dropped)
    requires s.Total() && |s.entries| <= LEDGER_CAP
    requires Gone(dropped, TakenExits(s, exits, t, tick, now), live, absentBefore) && dropped.Listed()
    ensures var offered := ManifestOffers(s, exits, t, tick, now, absentBefore, dropped);
            forall id, row :: GivenUp(s, exits, t, live, absentBefore, id, row) ==>
              FiledUnder(s.entries, offered, id, row, absentBefore[id].value)
  {
    var offered := ManifestOffers(s, exits, t, tick, now, absentBefore, dropped);
    forall id, row | GivenUp(s, exits, t, live, absentBefore, id, row)
      ensures FiledUnder(s.entries, offered, id, row, absentBefore[id].value)
    {
      ManifestFiles(s, exits, t, tick, now, live, absentBefore, dropped, id, row);
    }
  }

  lemma ManifestKeepsGenuine(s: Session, exits: Exits, t: Topology, tick: nat, now: nat, live: set<PaneId>,
                             absentBefore: Absences, dropped: Dropped)
    requires s.Total()
    ensures GenuineIn(s) ==> GenuineIn(Settled(TakenExits(s, exits, t, tick, now), live, absentBefore, t, dropped))
  {
    if GenuineIn(s) {
      ExitsKeepGenuine(s, exits, t, tick, now);
    }
  }

  lemma GenuineAt(src: Sources, s: Session)
    requires s.Total() && src.status == s.rows && forall id: PaneId :: s.panes[id].row == Lookup(src.command, id)
    ensures Genuine(src) <==> GenuineIn(s)
  {
    if GenuineIn(s) {
      forall id | id in src.command ensures GenuineObserved(src.command[id]) {
        assert s.panes[id].row == Lookup(src.command, id);
      }
    }
  }

  /** A manifest: a pane with a row keeps it if the grace rule says so, no other pane has one afterwards, and the
      panes in grace are the next in the history of manifests. A completion given up is filed under the tab its pane
      was in when it first went missing. */
  method TakePanes(r: RadarState, step: Step)
    returns (ghost m: Manifest, ghost s: Session, ghost offered: seq<LedgerEntry>)
    requires Ready(r) && step.Panes? && step.tick >= r.clock
    modifies r`seating, r`livePanes, r`absentOnce, r`paneCwd, r`flashUntil, r`generation, r`clock, r.status,
             r.status.store, r.command, r.command.store, r.ledger
    ensures Ready(r) && r.clock == step.tick && r.Sound()
    ensures Genuine(old(r.Sources())) ==> Genuine(r.Sources())
    ensures r.status.store.rows.Keys <= old(r.status.store.rows).Keys
    ensures m == Manifest(r.Tracked(), step.live, old(PaneTabIndex(r.tabs, r.seating)))
    ensures r.absentOnce == NextAbsences(m.tracked, step.live, old(r.absentOnce), m.index)
    ensures forall id :: old(HasRow(r, id)) && Stays(step.live, old(r.absentOnce), id) ==> HasRow(r, id)
    ensures forall id :: HasRow(r, id) ==> Stays(step.live, old(r.absentOnce), id)
    ensures forall id :: Spared(step.exits, id) && Stays(step.live, old(r.absentOnce), id) ==>
              Lookup(r.status.store.rows, id) == Lookup(old(r.status.store.rows), id)
    ensures s == old(r.Now()) && r.ledger.entries == PushedAll(s.entries, offered) && |s.entries| <= LEDGER_CAP
    ensures forall id, row :: GivenUp(s, step.exits, old(r.Here()), step.live, old(r.absentOnce), id, row) ==>
              FiledUnder(s.entries, offered, id, row, old(r.absentOnce)[id].value)
  {
    var _, session, t, _, before, dropped, settled :=
      r.PanesChanged(step.seating, step.live, step.exits, step.tick, step.now);
    s := session;
    m := Manifest(r.Tracked(), step.live, t.Index());
    offered := ManifestOffers(s, step.exits, t, step.tick, step.now, before, dropped);
    ManifestKeeps(s, step.exits, t, step.tick, step.now, step.live, before, dropped);
    ManifestLedger(s, step.exits, t, step.tick, step.now, step.live, before, dropped);
    ManifestFilesAll(s, step.exits, t, step.tick, step.now, step.live, before, dropped);
    ManifestKeepsGenuine(s, step.exits, t, step.tick, step.now, step.live, before, dropped);
    forall id ensures old(HasRow(r, id)) == Shows(s, id) && HasRow(r, id) == Shows(settled, id) {
      assert s.panes[id] == old(r.command.PaneAt(id)) && settled.panes[id] == r.command.PaneAt(id);
    }
    GenuineAt(old(r.Sources()), s);
    GenuineAt(r.Sources(), settled);
  }

  method TakeLoad(r: RadarState, step: Step)
    requires Ready(r) && step.Load?
    modifies r`generation, r`clock, r.status, r.status.store, r.command, r.command.store, r.ledger
    ensures Ready(r) && r.clock == step.tick && r.Sound()
    ensures step.IsGenuine() ==> Genuine(r.Sources())
    ensures step.WithinCap() ==> |r.status.store.rows| <= MAX_TRACKED_PANES
  {
    r.LoadSnapshot(step.observations, step.tick, step.entries);
    if step.IsGenuine() {
      LoadedIsGenuine(step.observations, step.tick);
      forall id | id in r.command.store.rows ensures GenuineObserved(r.command.store.rows[id]) {
        assert r.command.PaneAt(id).row == Lookup(Loaded(step.observations, Origin.Observed, step.tick), id);
      }
    }
  }

  /** A look at the rail: what it served, over which topology; the sources it shows, and the present ones. */
  datatype Sight = Sight(
    served: seq<TabRow>, tabs: seq<RadarTab>, seating: Seating, shown: Sources, present: Sources, lit: set<TabId>)
  {
    function Recomputed(): seq<TabRow> {
      Rollup.Rows(tabs, seating, present, lit)
    }

    /** The rail served is the one of the sources shown, which the present ones trail. It is the one recomputed
        exactly when the rail stays from those to these - between genuine rows, in its faces and counts. From a store
        within its cap nothing was evicted, so what differs is labels alone. */
    ghost predicate Faithful() {
      && served == Rollup.Rows(tabs, seating, shown, lit) && Trails(shown, present)
      && (served == Recomputed() <==> RailStays(tabs, seating, shown, present))
      && (Genuine(shown) ==> (served == Recomputed() <==> FacesAndCountsStay(tabs, seating, shown, present)))
      && (|shown.status| <= MAX_TRACKED_PANES ==>
            && SameTracked(shown, present) && SameButLabels(served, Recomputed())
            && (served == Recomputed() <==> WellLabeled(tabs, seating, shown, present)))
    }
  }

  lemma SightIsFaithful(sight: Sight)
    requires sight.served == Rollup.Rows(sight.tabs, sight.seating, sight.shown, sight.lit)
    requires Trails(sight.shown, sight.present)
    requires |sight.shown.status| <= MAX_TRACKED_PANES ==> sight.shown.status == sight.present.status
    ensures sight.Faithful()
  {
    RailStaysIff(sight.tabs, sight.seating, sight.shown, sight.present, sight.lit);
    if Genuine(sight.shown) {
      RailStaysByCounts(sight.tabs, sight.seating, sight.shown, sight.present);
    }
    if |sight.shown.status| <= MAX_TRACKED_PANES {
      LabelsReachTheRows(sight.tabs, sight.seating, sight.shown, sight.present, sight.lit);
    }
  }

  /** The look, as it finds the radar state. */
  ghost function SightAt(r: RadarState, served: seq<TabRow>, tick: nat): Sight
    reads r, r.status.store, r.command, r.command.store
  {
    Sight(served, r.tabs, r.seating, r.memoSources, r.Sources(), Lit(r.flashUntil, tick))
  }

  method TakeLook(r: RadarState, step: Step) returns (seen: seq<TabRow>, ghost sight: Sight)
    requires Ready(r) && step.Look? && step.tick >= r.clock
    modifies r`memo, r`memoLit, r`memoSources, r`clock
    ensures Ready(r) && r.clock == step.tick && (old(r.Sound()) ==> r.Sound() && seen == sight.Recomputed())
    ensures sight == SightAt(r, seen, step.tick) && sight.Faithful()
    ensures sight.shown == old(r.memoSources) || sight.shown == sight.present
  {
    seen := r.Rows(step.tick);
    sight := SightAt(r, seen, step.tick);
    SightIsFaithful(sight);
  }

  method TakeTabs(r: RadarState, step: Step)
    requires Ready(r) && step.Tabs?
    modifies r`tabs, r`generation
    ensures Ready(r) && (old(r.Sound()) ==> r.Sound()) && Advanced(r.Sources(), r.Sources(), step)
  {
    r.TabsChanged(step.tabs);
    SameKeysAfter(r.status.store.rows, r.status.store.rows, step);
  }

  method TakeCwd(r: RadarState, step: Step)
    requires Ready(r) && step.Cwd?
    modifies r`paneCwd
    ensures Ready(r) && (old(r.Sound()) ==> r.Sound()) && Advanced(r.Sources(), r.Sources(), step)
  {
    r.CwdChanged(step.id, step.path);
    SameKeysAfter(r.status.store.rows, r.status.store.rows, step);
  }

  /** The steps that neither look nor replace what is there. */
  method TakeOther(r: RadarState, step: Step)
    requires Ready(r) && step.Follows(r.clock) && !step.Look? && !step.Panes? && !step.Load?
    modifies r`tabs, r`paneCwd, r`flashUntil, r`generation, r`clock, r.status, r.status.store, r.command,
             r.command.store, r.ledger
    ensures Ready(r) && r.clock == step.TickFrom(old(r.clock)) && Advanced(old(r.Sources()), r.Sources(), step)
    ensures old(r.Sound()) && !step.Command? && |old(r.status.store.rows)| <= MAX_TRACKED_PANES ==> r.Sound()
  {
    hide Advanced;
    match step {
      case Tabs(_) => TakeTabs(r, step);
      case Tick(_, _) => TakeTick(r, step);
      case Pipe(_, _, _) => TakePipe(r, step);
      case Command(_, _, _, _) => TakeCommand(r, step);
      case Cwd(_, _) => TakeCwd(r, step);
      case Interactives(_) => TakeInteractives(r, step);
      case Remotes(_) => TakeRemotes(r, step);
    }
  }

  // ----- whole runs -----

  /** What is known of a run: no foreground change comes in; no store is ever over its cap; all rows are genuine. */
  datatype Terms = Terms(exact: bool, capped: bool, genuine: bool) {
    predicate Admits(step: Step) {
      (exact ==> capped && !step.Command?) && (capped ==> step.WithinCap()) && (genuine ==> step.IsGenuine())
    }
  }

  /** The terms hold at this point of a run. */
  ghost predicate Meets(r: RadarState, terms: Terms)
    reads r, r.status.store, r.command, r.command.store
  {
    && (terms.exact ==> r.Sound())
    && (terms.capped ==> |r.status.store.rows| <= MAX_TRACKED_PANES && |r.memoSources.status| <= MAX_TRACKED_PANES)
    && (terms.genuine ==> Genuine(r.Sources()) && Genuine(r.memoSources))
  }

  /** A look on those terms. */
  ghost predicate KeepsTerms(sight: Sight, terms: Terms) {
    && sight.Faithful()
    && (terms.exact ==> sight.served == sight.Recomputed())
    && (terms.capped ==> |sight.shown.status| <= MAX_TRACKED_PANES)
    && (terms.genuine ==> Genuine(sight.shown))
  }

  method OnLook(r: RadarState, step: Step, ghost terms: Terms) returns (seen: seq<TabRow>, ghost sight: Sight)
    requires Ready(r) && step.Look? && step.tick >= r.clock && Meets(r, terms)
    modifies r`memo, r`memoLit, r`memoSources, r`clock
    ensures Ready(r) && r.clock == step.tick && Meets(r, terms)
    ensures sight == SightAt(r, seen, step.tick) && KeepsTerms(sight, terms)
    ensures sight.shown == old(r.memoSources) || sight.shown == sight.present
  {
    seen, sight := TakeLook(r, step);
  }

  method OnPanes(r: RadarState, step: Step, ghost terms: Terms) returns (ghost m: Manifest)
    requires Ready(r) && step.Panes? && step.tick >= r.clock && Meets(r, terms)
    modifies r`seating, r`livePanes, r`absentOnce, r`paneCwd, r`flashUntil, r`generation, r`clock, r.status,
             r.status.store, r.command, r.command.store, r.ledger
    ensures Ready(r) && r.clock == step.tick && Meets(r, terms)
    ensures m.live == step.live && r.absentOnce == NextAbsences(m.tracked, m.live, old(r.absentOnce), m.index)
  {
    ghost var rows := r.status.store.rows;
    ghost var taken, _, _ := TakePanes(r, step);
    SubsetSize(r.status.store.rows.Keys, rows.Keys);
    assert |rows| == |rows.Keys| && |r.status.store.rows| == |r.status.store.rows.Keys|;
    m := taken;
  }

  method OnLoad(r: RadarState, step: Step, ghost terms: Terms)
    requires Ready(r) && step.Load? && Meets(r, terms) && terms.Admits(step)
    modifies r`generation, r`clock, r.status, r.status.store, r.command, r.command.store, r.ledger
    ensures Ready(r) && r.clock == step.tick && Meets(r, terms)
  {
    TakeLoad(r, step);
  }

  method OnOther(r: RadarState, step: Step, ghost terms: Terms)
    requires Ready(r) && step.Follows(r.clock) && !step.Look? && !step.Panes? && !step.Load?
    requires Meets(r, terms) && terms.Admits(step)
    modifies r`tabs, r`paneCwd, r`flashUntil, r`generation, r`clock, r.status, r.status.store, r.command,
             r.command.store, r.ledger
    ensures Ready(r) && r.clock == step.TickFrom(old(r.clock)) && Meets(r, terms)
  {
    TakeOther(r, step);
  }

  /** One step of a run on these terms, with what it showed and the manifest it took. */
  method Take(r: RadarState, step: Step, ghost terms: Terms)
    returns (seen: Option<seq<TabRow>>, ghost sight: Option<Sight>, ghost m: Option<Manifest>)
    requires Ready(r) && step.Follows(r.clock) && Meets(r, terms) && terms.Admits(step)
    modifies r, r.status, r.status.store, r.command, r.command.store, r.ledger
    ensures Ready(r) && r.clock == step.TickFrom(old(r.clock)) && Meets(r, terms)
    ensures (seen.Some? <==> step.Look?) && (sight.Some? <==> step.Look?) && (m.Some? <==> step.Panes?)
    ensures step.Look? ==>
              && sight == Some(SightAt(r, seen.value, step.tick)) && KeepsTerms(sight.value, terms)
              && (r.memoSources == old(r.memoSources) || sight.value.shown == sight.value.present)
    ensures !step.Look? ==> r.memoSources == old(r.memoSources)
    ensures step.Panes? ==> m.value.live == step.live
    ensures r.absentOnce == if step.Panes?
                            then NextAbsences(m.value.tracked, m.value.live, old(r.absentOnce), m.value.index)
                            else old(r.absentOnce)
  {
    hide Meets, KeepsTerms;
    seen, sight, m := None, None, None;
    if step.Look? {
      var rows; ghost var looked;
      rows, looked := OnLook(r, step, terms);
      seen, sight := Some(rows), Some(looked);
    } else if step.Panes? {
      ghost var taken := OnPanes(r, step, terms);
      m := Some(taken);
    } else if step.Load? {
      OnLoad(r, step, terms);
    } else {
      OnOther(r, step, terms);
    }
  }

  /** The sources are those at the start, or those of a look that recomputed the rows. */
  ghost predicate Dated(sights: seq<Sight>, src: Sources, first: Sources) {
    src == first || exists m :: 0 <= m < |sights| && sights[m].shown == sights[m].present == src
  }

  /** Everything seen is faithful and dated, on the terms of the run. */
  ghost predicate Trace(seen: seq<seq<TabRow>>, sights: seq<Sight>, first: Sources, terms: Terms) {
    && |sights| == |seen|
    && forall n :: 0 <= n < |seen| ==>
         && sights[n].served == seen[n] && KeepsTerms(sights[n], terms)
         && Dated(sights[..n + 1], sights[n].shown, first)
  }

  lemma DatedStill(sights: seq<Sight>, sight: Sight, src: Sources, first: Sources)
    requires Dated(sights, src, first) || sight.shown == sight.present == src
    ensures Dated(sights + [sight], src, first)
  {
    var more := sights + [sight];
    assert more[|sights|] == sight;
    if m :| 0 <= m < |sights| && sights[m].shown == sights[m].present == src {
      assert more[m] == sights[m];
    }
  }

  lemma TraceGrows(seen: seq<seq<TabRow>>, sights: seq<Sight>, first: Sources, terms: Terms, sight: Sight)
    requires Trace(seen, sights, first, terms) && KeepsTerms(sight, terms)
    requires Dated(sights + [sight], sight.shown, first)
    ensures Trace(seen + [sight.served], sights + [sight], first, terms)
  {
    hide KeepsTerms, Dated;
    var more := sights + [sight];
    forall n | 0 <= n < |more| ensures KeepsTerms(more[n], terms) && Dated(more[..n + 1], more[n].shown, first) {
      if n < |sights| {
        assert more[..n + 1] == sights[..n + 1];
      } else {
        assert more[..n + 1] == more;
      }
    }
  }

  /** The terms a run starts on. */
  ghost function TermsOf(r: RadarState, steps: seq<Step>): Terms
    reads r, r.status.store, r.command, r.command.store
  {
    var capped := |r.status.store.rows| <= MAX_TRACKED_PANES && |r.memoSources.status| <= MAX_TRACKED_PANES
                  && forall n :: 0 <= n < |steps| ==> steps[n].WithinCap();
    Terms(
      r.Sound() && capped && (forall n :: 0 <= n < |steps| ==> !steps[n].Command?), capped,
      Genuine(r.Sources()) && Genuine(r.memoSources) && forall n :: 0 <= n < |steps| ==> steps[n].IsGenuine())
  }

  /** Every run, snapshots of any size included: each rail served is the one of sources that date from the start or
      from an earlier look, which only evictions and foreground changes have left behind, and it is the one recomputed
      exactly when those do not show on it. With no snapshot over the cap it differs in labels alone; with no
      foreground change besides, not at all. The panes in grace follow from the manifests. */
  method Drive(r: RadarState, steps: seq<Step>)
    returns (seen: seq<seq<TabRow>>, ghost sights: seq<Sight>, ghost ms: seq<Manifest>)
    requires Ready(r) && Forward(steps, r.clock)
    modifies r, r.status, r.status.store, r.command, r.command.store, r.ledger
    ensures Ready(r) && Trace(seen, sights, old(r.memoSources), old(TermsOf(r, steps)))
    ensures r.absentOnce == AbsencesAfter(old(r.absentOnce), ms)
  {
    seen, sights, ms := [], [], [];
    ghost var first, start, terms := r.memoSources, r.absentOnce, TermsOf(r, steps);
    assert forall n :: 0 <= n < |steps| ==> terms.Admits(steps[n]);
    for n := 0 to |steps|
      invariant Ready(r) && Forward(steps[n..], r.clock) && Meets(r, terms)
      invariant Trace(seen, sights, first, terms) && Dated(sights, r.memoSources, first)
      invariant r.absentOnce == AbsencesAfter(start, ms)
    {
      assert steps[n..][0] == steps[n] && steps[n..][1..] == steps[n + 1..];
      hide KeepsTerms, Trace;
      var rows; ghost var sight, m;
      rows, sight, m := Take(r, steps[n], terms);
      if rows.Some? {
        DatedStill(sights, sight.value, r.memoSources, first);
        TraceGrows(seen, sights, first, terms, sight.value);
        seen, sights := seen + [rows.value], sights + [sight.value];
      }
      if m.Some? {
        assert (ms + [m.value])[..|ms|] == ms;
        ms := ms + [m.value];
      }
    }
  }

  // ----- panes seen in every other manifest, and panes that are not -----

  /** Any step but a manifest, and what it does to the rows unless it is a snapshot. */
  method Pass(r: RadarState, step: Step)
    requires Ready(r) && step.Follows(r.clock) && !step.Panes?
    modifies r`tabs, r`paneCwd, r`flashUntil, r`generation, r`clock, r`memo, r`memoLit, r`memoSources, r.status,
             r.status.store, r.command, r.command.store, r.ledger
    ensures Ready(r) && r.clock == step.TickFrom(old(r.clock))
    ensures !step.Load? ==> RowsAfter(old(r.status.store.rows), r.status.store.rows, step)
    ensures !step.Load? ==> old(r.command.store.rows).Keys <= r.command.store.rows.Keys
  {
    if step.Look? {
      SameKeysAfter(r.status.store.rows, r.status.store.rows, step);
      var _, _ := TakeLook(r, step);
    } else if step.Load? {
      TakeLoad(r, step);
    } else {
      TakeOther(r, step);
    }
  }

  /** From here on the pane is listed in at least one of every two manifests; `missed` tells of the one before. */
  predicate SeenEveryOther(steps: seq<Step>, missed: bool, id: PaneId)
    decreases |steps|
  {
    steps != [] ==>
      if steps[0].Panes? then (missed ==> id in steps[0].live) && SeenEveryOther(steps[1..], id !in steps[0].live, id)
      else SeenEveryOther(steps[1..], missed, id)
  }

  /** The panes payloads come in for. */
  function PipedIds(steps: seq<Step>): set<PaneId> {
    if steps == [] then {} else steps[0].Brings() + PipedIds(steps[1..])
  }

  predicate NoLoad(steps: seq<Step>) {
    forall n :: 0 <= n < |steps| ==> !steps[n].Load?
  }

  /** Room for every pane in the store and every one a payload is still to come for. */
  predicate HasRoom(rows: map<PaneId, Tracked>, steps: seq<Step>) {
    |rows.Keys + PipedIds(steps)| <= MAX_TRACKED_PANES
  }

  lemma RoomIsLeft(before: map<PaneId, Tracked>, after: map<PaneId, Tracked>, steps: seq<Step>)
    requires steps != [] && HasRoom(before, steps) && after.Keys <= before.Keys + steps[0].Brings()
    ensures HasRoom(after, steps[1..]) && |before.Keys + steps[0].Brings()| <= MAX_TRACKED_PANES
  {
    SubsetSize(after.Keys + PipedIds(steps[1..]), before.Keys + PipedIds(steps));
    SubsetSize(before.Keys + steps[0].Brings(), before.Keys + PipedIds(steps));
  }

  /** A pane's row outlives every run, of however many payloads, that lists the pane in at least one of every two
      manifests - as long as no snapshot replaces the stores, and the store has room for the panes payloads come in
      for. */
  method SeenPaneKeepsItsRow(r: RadarState, steps: seq<Step>, ghost id: PaneId)
    requires Ready(r) && Forward(steps, r.clock) && NoLoad(steps) && HasRoom(r.status.store.rows, steps)
    requires HasRow(r, id) && SeenEveryOther(steps, id in r.absentOnce, id)
    modifies r, r.status, r.status.store, r.command, r.command.store, r.ledger
    ensures Ready(r) && HasRow(r, id)
  {
    ghost var missed := id in r.absentOnce;
    for n := 0 to |steps|
      invariant Ready(r) && Forward(steps[n..], r.clock) && HasRow(r, id) && HasRoom(r.status.store.rows, steps[n..])
      invariant SeenEveryOther(steps[n..], missed, id) && (id in r.absentOnce ==> missed)
    {
      assert steps[n..][0] == steps[n] && steps[n..][1..] == steps[n + 1..];
      ghost var rows := r.status.store.rows;
      if steps[n].Panes? {
        ghost var _, _, _ := TakePanes(r, steps[n]);
        missed := id !in steps[n].live;
      } else {
        Pass(r, steps[n]);
      }
      RoomIsLeft(rows, r.status.store.rows, steps[n..]);
    }
  }

  /** Two manifests with no other between them. */
  predicate TwoManifests(steps: seq<Step>) {
    |steps| >= 2 && forall n :: 0 <= n < |steps| ==> (steps[n].Panes? <==> n == 0 || n == |steps| - 1)
  }

  lemma TrackedByRow(r: RadarState, id: PaneId)
    ensures HasRow(r, id) ==> id in r.Tracked()
  {
    assert r.command.PaneAt(id).row == Lookup(r.command.store.rows, id);
  }

  /** And a pane's row does not outlive two manifests in a row that miss the pane, whatever comes between them. */
  method SecondAbsenceDrops(r: RadarState, steps: seq<Step>, ghost id: PaneId)
    requires Ready(r) && Forward(steps, r.clock) && TwoManifests(steps)
    requires id !in steps[0].live && id !in steps[|steps| - 1].live && HasRow(r, id) && id !in r.absentOnce
    modifies r, r.status, r.status.store, r.command, r.command.store, r.ledger
    ensures Ready(r) && !HasRow(r, id)
  {
    for n := 0 to |steps|
      invariant Ready(r) && Forward(steps[n..], r.clock)
      invariant n == 0 ==> HasRow(r, id) && id !in r.absentOnce
      invariant 0 < n < |steps| ==> id in r.absentOnce
      invariant n == |steps| ==> !HasRow(r, id)
    {
      assert steps[n..][0] == steps[n] && steps[n..][1..] == steps[n + 1..];
      if steps[n].Panes? {
        ghost var _, _, _ := TakePanes(r, steps[n]);
        TrackedByRow(r, id);
      } else {
        Pass(r, steps[n]);
      }
    }
  }

  /** Nothing on the way to the second manifest is about the pane: no exit, no payload, no foreground change. */
  predicate Undisturbed(steps: seq<Step>, id: PaneId) {
    forall n :: 0 <= n < |steps| ==> id !in steps[n].Concerns() && (steps[n].Panes? ==> Spared(steps[n].exits, id))
  }

  /** The first manifest that misses a pane captures its tab, and leaves its pushed row. */
  method MissOnce(r: RadarState, step: Step, ghost id: PaneId, ghost at: (TabId, string))
    requires Ready(r) && step.Panes? && step.tick >= r.clock && Spared(step.exits, id)
    requires id !in step.live && id !in r.absentOnce && id in r.status.store.rows
    requires Lookup(PaneTabIndex(r.tabs, r.seating), id) == Some(at)
    modifies r, r.status, r.status.store, r.command, r.command.store, r.ledger
    ensures Ready(r) && r.clock == step.tick && Lookup(r.absentOnce, id) == Some(Some(at))
    ensures r.status.store.rows.Keys <= old(r.status.store.rows).Keys
    ensures Lookup(r.status.store.rows, id) == Lookup(old(r.status.store.rows), id)
  {
    ghost var _, _, _ := TakePanes(r, step);
    TrackedByRow(r, id);
  }

  /** The second files its completion. */
  method MissAgain(r: RadarState, step: Step, ghost id: PaneId, ghost row: Tracked, ghost at: (TabId, string))
    returns (ghost before: seq<LedgerEntry>, ghost offered: seq<LedgerEntry>)
    requires Ready(r) && step.Panes? && step.tick >= r.clock && Spared(step.exits, id)
    requires id !in step.live && Lookup(r.absentOnce, id) == Some(Some(at))
    requires Lookup(r.status.store.rows, id) == Some(row) && row.origin.StatusPipe?
    requires row.status.IsCompletion() && row.completedEpochS.Some?
    modifies r, r.status, r.status.store, r.command, r.command.store, r.ledger
    ensures Ready(r) && r.clock == step.tick && !HasRow(r, id)
    ensures r.status.store.rows.Keys <= old(r.status.store.rows).Keys
    ensures before == old(r.ledger.entries) && r.ledger.entries == PushedAll(before, offered)
    ensures FiledUnder(before, offered, id, row, at)
  {
    ghost var t, absent := r.Here(), r.absentOnce;
    before := r.ledger.entries;
    ghost var _, session, taken := TakePanes(r, step);
    offered := taken;
    assert GivenUp(session, step.exits, t, step.live, absent, id, row);
  }

  /** What the pane's completion said is not lost with it: the ledger the second manifest leaves has it, under the tab
      the pane was in before the first, or newer entries pushed it out. `before` is the ledger the second manifest
      finds, and `offered` what it offers it. */
  method SecondAbsenceFiles(r: RadarState, steps: seq<Step>, ghost id: PaneId, ghost row: Tracked,
                            ghost at: (TabId, string))
    returns (ghost before: seq<LedgerEntry>, ghost offered: seq<LedgerEntry>)
    requires Ready(r) && Forward(steps, r.clock) && TwoManifests(steps) && NoLoad(steps)
    requires HasRoom(r.status.store.rows, steps) && Undisturbed(steps, id)
    requires id !in steps[0].live && id !in steps[|steps| - 1].live && id !in r.absentOnce
    requires Lookup(r.status.store.rows, id) == Some(row) && row.origin.StatusPipe?
    requires row.status.IsCompletion() && row.completedEpochS.Some?
    requires Lookup(PaneTabIndex(r.tabs, r.seating), id) == Some(at)
    modifies r, r.status, r.status.store, r.command, r.command.store, r.ledger
    ensures Ready(r) && !HasRow(r, id)
    ensures r.ledger.entries == PushedAll(before, offered) && FiledUnder(before, offered, id, row, at)
  {
    ghost var rows := r.status.store.rows;
    assert steps[0..] == steps;
    MissOnce(r, steps[0], id, at);
    RoomIsLeft(rows, r.status.store.rows, steps);
    for n := 1 to |steps| - 1
      invariant Ready(r) && Forward(steps[n..], r.clock) && HasRoom(r.status.store.rows, steps[n..])
      invariant Lookup(r.status.store.rows, id) == Some(row) && Lookup(r.absentOnce, id) == Some(Some(at))
    {
      assert steps[n..][0] == steps[n] && steps[n..][1..] == steps[n + 1..];
      rows := r.status.store.rows;
      Pass(r, steps[n]);
      RoomIsLeft(rows, r.status.store.rows, steps[n..]);
    }
    assert steps[|steps| - 1..][0] == steps[|steps| - 1];
    before, offered := MissAgain(r, steps[|steps| - 1], id, row, at);
  }
}
