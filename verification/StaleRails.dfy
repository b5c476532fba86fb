/** Two runs of the radar state in which the memo answers with rows that are out of date. */
module StaleRails {
  import opened Prelude
  import opened Vocabulary
  import opened Argv
  import opened Observation
  import opened CommandPane
  import opened CommandStores
  import opened StatusStores
  import opened Rollup
  import opened Grace
  import opened RadarStates
  import Wire

  const PANE := TerminalPane(0, "zsh", true, false)

  /** One tab with one pane, nothing tracked. */
  ghost predicate OneBarePane(r: RadarState)
    reads r, r.status.store, r.command, r.command.store
  {
    && r.Separate() && r.Sound() && r.memo.None? && r.clock == 0 && r.flashUntil == map[]
    && r.command.interactive == DEFAULT_INTERACTIVE
    && |r.tabs| == 1 && r.seating == map[r.tabs[0].position := [PANE]]
    && r.status.store.rows == map[] && forall x :: r.command.PaneAt(x) == NO_PANE
  }

  lemma OnTheRail(tabs: seq<RadarTab>, seating: Seating)
    requires |tabs| == 1 && seating == map[tabs[0].position := [PANE]]
    ensures OnRail(tabs, seating, PANE.id)
  {
    assert PanesAt(seating, tabs[0].position)[0].id == PANE.id;
  }

  method OpenOneTab(classify: Classifier, kindOf: string -> Kind) returns (r: RadarState)
    ensures fresh(r) && fresh(r.status) && fresh(r.status.store) && fresh(r.command) && fresh(r.command.store)
    ensures fresh(r.ledger) && OneBarePane(r) && r.command.classify == classify && r.status.kindOf == kindOf
  {
    r := new RadarState(classify, kindOf);
    r.TabsChanged([RadarTab(0, 0, "a", true, false, false)]);
    OneSortedTab(RadarTab(0, 0, "a", true, false, false));
    SeatOne(r);
    var _ := r.SetInteractiveCommands({});
    forall x ensures r.command.PaneAt(x) == NO_PANE {
      assert r.command.PaneAt(x) == OnInteractive(NO_PANE, r.command.interactive);
    }
  }

  /** The first manifest of a session that tracks nothing. */
  method SeatOne(r: RadarState)
    requires r.Separate() && r.Sound() && r.command.AllCoherent() && |r.tabs| == 1 && r.tabs[0].position == 0
    requires r.status.store.rows == map[] && r.flashUntil == map[] && forall x :: r.command.PaneAt(x) == NO_PANE
    modifies r`seating, r`livePanes, r`absentOnce, r`paneCwd, r`flashUntil, r`generation, r`clock, r.status,
             r.status.store, r.command, r.command.store, r.ledger
    ensures r.Sound() && r.command.AllCoherent() && r.seating == map[0 := [PANE]] && r.clock == 0
    ensures r.status.store.rows == map[] && r.flashUntil == map[] && forall x :: r.command.PaneAt(x) == NO_PANE
  {
    var _, s, t, after, absentBefore, dropped, settled := r.PanesChanged(map[0 := [PANE]], {PANE.id}, [], 0, 0);
    NothingSettles(s, t, {PANE.id}, absentBefore, dropped);
    forall x ensures r.command.PaneAt(x) == NO_PANE {
      assert settled.panes[x] == NO_PANE;
    }
  }

  lemma NothingSettles(s: Session, t: Topology, live: set<PaneId>, absentBefore: Absences, dropped: Dropped)
    requires s.Total() && s.rows == map[] && forall x: PaneId :: s.panes[x] == NO_PANE
    ensures var settled := Settled(TakenExits(s, [], t, 0, 0), live, absentBefore, t, dropped);
            && settled.rows == map[] && settled.flashUntil == s.flashUntil
            && forall x: PaneId :: settled.panes[x] == NO_PANE
  {
  }

  lemma OneSortedTab(t: RadarTab)
    ensures |ByPosition(SanitizedNames([t]))| == 1 && ByPosition(SanitizedNames([t]))[0].position == t.position
  {
    assert SanitizedNames([t])[1..] == [];
  }

  // ----- a foreground change -----

  lemma PlainProgram(name: string)
    requires name != "" && name[0] != '-' && !Has(name, '/')
    ensures EffectiveProgram([name]) == ([name], name)
  {
    assert Peeled([name]) == [name];
    BasenameOfSegment(name);
  }

  /** The next look would serve rows that recomputing would not give. */
  ghost predicate Outdated(r: RadarState, tick: nat)
    reads r, r.status.store, r.command, r.command.store
  {
    r.Answers(tick) && r.memo.value.rows != r.RowsAt(tick)
  }

  /** An interactive program comes to the front of a bare pane on the rail: the rail goes on without it. */
  method InteractiveGoesUnseen(r: RadarState, argv: seq<string>) returns (served: seq<TabRow>)
    requires OneBarePane(r)
    requires var intake := r.IntakeOf(PANE.id, argv, true); intake.Foreground? && intake.interactive
    modifies r, r.status, r.status.store, r.command, r.command.store, r.ledger
    ensures served != r.RowsAt(1) && SameButLabels(served, r.RowsAt(1)) && r.Steady() && Outdated(r, 1)
    ensures var intake := old(r.IntakeOf(PANE.id, argv, true));
            r.command.PaneAt(PANE.id) == OnCommand(NO_PANE, intake, 1)
  {
    var _ := r.Rows(0);
    ChangeUnheard(r, argv);
    served := LookAgain(r);
  }

  method ChangeUnheard(r: RadarState, argv: seq<string>)
    requires r.Separate() && r.Sound() && r.command.AllCoherent() && r.Answers(0)
    requires r.clock == 0 && r.flashUntil == map[]
    requires |r.tabs| == 1 && r.seating == map[r.tabs[0].position := [PANE]]
    requires r.status.store.rows == map[] && r.command.PaneAt(PANE.id) == NO_PANE && r.memoSources.status == map[]
    requires var intake := r.IntakeOf(PANE.id, argv, true); intake.Foreground? && intake.interactive
    modifies r`generation, r`clock, r.status, r.status.store, r.command, r.command.store, r.ledger
    ensures r.Steady() && r.Answers(1) && !r.MemoFresh() && r.clock == 1
    ensures var intake := old(r.IntakeOf(PANE.id, argv, true));
            r.command.PaneAt(PANE.id) == OnCommand(NO_PANE, intake, 1)
  {
    GoesStale(r, argv);
    var _, _ := r.CommandChanged(PANE.id, argv, true, 1);
  }

  lemma GoesStale(r: RadarState, argv: seq<string>)
    requires |r.tabs| == 1 && r.seating == map[r.tabs[0].position := [PANE]]
    requires PANE.id !in r.status.store.rows && r.command.PaneAt(PANE.id) == NO_PANE
    requires var intake := r.IntakeOf(PANE.id, argv, true); intake.Foreground? && intake.interactive
    ensures var after := OnCommand(NO_PANE, r.IntakeOf(PANE.id, argv, true), 1);
            LabelGoesStale(r.tabs, r.seating, r.Sources(), PANE.id, QuietIdentity(after))
  {
    OnTheRail(r.tabs, r.seating);
  }

  method LookAgain(r: RadarState) returns (served: seq<TabRow>)
    requires r.Steady() && r.Answers(1) && !r.MemoFresh() && r.clock <= 1 && r.memoSources.status == map[]
    modifies r`memo, r`memoLit, r`memoSources, r`clock
    ensures served != r.RowsAt(1) && SameButLabels(served, r.RowsAt(1)) && r.Steady() && Outdated(r, 1)
  {
    served := r.Rows(1);
    LabelsReachTheRows(r.tabs, r.seating, r.memoSources, r.Sources(), Lit(r.flashUntil, 1));
  }

  lemma InteractiveIntake(name: string, cwd: Option<string>, remoteExtras: set<string>, classify: Classifier)
    requires name != "" && name[0] != '-' && !Has(name, '/') && name in DEFAULT_INTERACTIVE && !IsIgnoredProgram(name)
    requires classify([name]).0 != ""
    ensures var intake := Judge([name], true, cwd, DEFAULT_INTERACTIVE, remoteExtras, classify);
            intake.Foreground? && intake.interactive
  {
    PlainProgram(name);
  }

  /** From a fresh session on. */
  method ProgramGoesUnseen(name: string, classify: Classifier, kindOf: string -> Kind)
    returns (r: RadarState, served: seq<TabRow>)
    requires name != "" && name[0] != '-' && !Has(name, '/') && name in DEFAULT_INTERACTIVE && !IsIgnoredProgram(name)
    requires classify([name]).0 != ""
    ensures r.Steady() && Outdated(r, 1) && served != r.RowsAt(1) && SameButLabels(served, r.RowsAt(1))
    ensures QuietIdentity(r.command.PaneAt(PANE.id)).Some?
  {
    r := OpenOneTab(classify, kindOf);
    InteractiveIntake(name, Lookup(r.paneCwd, PANE.id), r.command.remoteExtras, classify);
    served := InteractiveGoesUnseen(r, [name]);
  }

  /** As when an editor is opened. */
  method EditorGoesUnseen(classify: Classifier, kindOf: string -> Kind) returns (r: RadarState, served: seq<TabRow>)
    requires classify(["nvim"]).0 != ""
    ensures r.Steady() && Outdated(r, 1) && served != r.RowsAt(1) && SameButLabels(served, r.RowsAt(1))
    ensures QuietIdentity(r.command.PaneAt(PANE.id)).Some?
  {
    assert "nvim" in DEFAULT_INTERACTIVE && !IsIgnoredProgram("nvim");
    r, served := ProgramGoesUnseen("nvim", classify, kindOf);
  }

  // ----- a re-broadcast, over the cap -----

  const CROWD: nat := MAX_TRACKED_PANES + 1

  function Beat(id: PaneId): Wire.StatusPayload {
    Wire.StatusPayload(id, Status.Running, "", "", "", "", "", false, None)
  }

  /** The row a first such payload leaves. */
  function BeatRow(kind: Kind): Tracked {
    RowAfter(None, Beat(0), kind, 0, 0)
  }

  function Crowd(n: nat, row: Tracked): seq<(PaneId, Tracked)> {
    seq(n, k => (k, row))
  }

  function CrowdRows(n: nat, row: Tracked): map<PaneId, Tracked> {
    map id | 0 <= id < n && InCrowd(id, n) :: row
  }

  predicate InCrowd(id: PaneId, n: nat) {
    id < n
  }

  lemma {:induction false} CrowdLoads(n: nat, row: Tracked)
    requires row.origin == Origin.StatusPipe
    ensures Loaded(Crowd(n, row), Origin.StatusPipe, 0) == CrowdRows(n, row) && |CrowdRows(n, row)| == n
    ensures Loaded(Crowd(n, row), Origin.Observed, 0) == map[]
  {
    if n > 0 {
      CrowdLoads(n - 1, row);
      assert Crowd(n, row)[..n - 1] == Crowd(n - 1, row);
      assert CrowdRows(n, row) == CrowdRows(n - 1, row)[n - 1 := row];
    }
  }

  /** Of rows as old as each other the first goes, and no other. */
  lemma FirstGoes(row: Tracked, kept: map<PaneId, Tracked>)
    requires |CrowdRows(CROWD, row)| == CROWD && Evicted(CrowdRows(CROWD, row), kept)
    ensures 0 !in kept && MAX_TRACKED_PANES in kept
  {
    var rows := CrowdRows(CROWD, row);
    if 0 in kept {
      forall id | id in rows ensures id in kept {
        assert id !in kept ==> Older(rows, id, 0);
      }
      SameKept(rows, kept);
    }
    var some :| some in kept;
    assert MAX_TRACKED_PANES !in kept ==> Older(rows, MAX_TRACKED_PANES, some);
  }

  lemma SameKept(rows: map<PaneId, Tracked>, kept: map<PaneId, Tracked>)
    requires Evicted(rows, kept) && forall id :: id in rows ==> id in kept
    ensures |kept| == |rows|
  {
    assert kept == rows;
  }

  lemma RunningShows(tabs: seq<RadarTab>, seating: Seating, was: Sources, now: Sources)
    requires |tabs| == 1 && seating == map[tabs[0].position := [PANE]]
    requires PANE.id in was.status && PANE.id !in now.status && PANE.id !in now.command
    requires was.status[PANE.id].everActive && was.status[PANE.id].status == Status.Running
    ensures !RailStays(tabs, seating, was, now)
  {
    var panes := PanesAt(seating, tabs[0].position);
    assert panes[0] == PANE && !FaceStays(panes[0], was, now);
    assert !TabStays(panes, was, now);
  }

  /** A snapshot of one pane too many, and a re-broadcast of what the last of them runs: the rail goes on showing the
      pane this evicts. */
  method EvictionGoesUnseen(r: RadarState) returns (served: seq<TabRow>)
    requires OneBarePane(r)
    modifies r, r.status, r.status.store, r.command, r.command.store, r.ledger
    ensures served != r.RowsAt(1) && Outdated(r, 1) && PANE.id !in r.status.store.rows
  {
    var row := BeatRow(r.status.kindOf(""));
    LoadCrowd(r, row);
    var _ := r.Rows(0);
    Rebroadcast(r, row);
    served := r.Rows(1);
  }

  method LoadCrowd(r: RadarState, row: Tracked)
    requires r.Separate() && r.Steady() && row.origin == Origin.StatusPipe
    modifies r`generation, r`clock, r.status, r.status.store, r.command, r.command.store, r.ledger
    ensures r.Sound() && r.clock == 0
    ensures r.status.store.rows == CrowdRows(CROWD, row) && |CrowdRows(CROWD, row)| == CROWD
    ensures PANE.id !in r.command.store.rows
  {
    CrowdLoads(CROWD, row);
    r.LoadSnapshot(Crowd(CROWD, row), 0, []);
    assert r.command.PaneAt(PANE.id).row == None;
  }

  /** The re-broadcast goes untouched, and evicts the first pane. */
  method Rebroadcast(r: RadarState, row: Tracked)
    requires r.Separate() && r.Steady() && r.clock == 0 && r.MemoCurrent() && r.flashUntil == map[]
    requires row == BeatRow(r.status.kindOf("")) && r.status.store.rows == CrowdRows(CROWD, row)
    requires |CrowdRows(CROWD, row)| == CROWD && PANE.id !in r.command.store.rows
    requires |r.tabs| == 1 && r.seating == map[r.tabs[0].position := [PANE]]
    modifies r`generation, r`clock, r`flashUntil, r.status, r.status.store, r.ledger
    ensures r.MemoDated() && r.MemoCurrent() && r.clock == 1 && r.flashUntil == map[] && PANE.id !in r.status.store.rows
    ensures Rollup.Rows(r.tabs, r.seating, r.Sources(), {}) != old(Rollup.Rows(r.tabs, r.seating, r.Sources(), {}))
  {
    RebroadcastChangesNothing(None, Beat(MAX_TRACKED_PANES), row.kind, 0, 0, 1, 0);
    var touched, _ := r.StatusPipe(Beat(MAX_TRACKED_PANES), 1, 0);
    assert old(r.status.store.rows)[MAX_TRACKED_PANES := row] == CrowdRows(CROWD, row);
    FirstGoes(row, r.status.store.rows);
    RunningShows(r.tabs, r.seating, old(r.Sources()), r.Sources());
    RailStaysIff(r.tabs, r.seating, old(r.Sources()), r.Sources(), {});
  }
}
