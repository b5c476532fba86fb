/** The command store (crates/core/src/command.rs): four maps and two name sets, updated step by step. Every method is
    proved to do to each pane exactly what `CommandPane` says, whatever order it visits the panes in. */
module CommandStores {
  import opened Prelude
  import opened Vocabulary
  import opened Observation
  import opened Argv
  import opened CommandPane

  /** Compacts a peeled argv into a display string and classifies it. */
  type Classifier = seq<string> -> (string, Kind)

  predicate IsIgnoredProgram(name: string) {
    name in IGNORE_NAMES || name in AGENT_NAMES
  }

  /** What a `CommandChanged` event amounts to under a configuration. */
  function Judge(argv: seq<string>, isForeground: bool, cwd: Option<string>, interactive: set<string>,
                 remoteExtras: set<string>, classify: Classifier): Intake
  {
    var (command, name) := EffectiveProgram(argv);
    if (!isForeground && name !in interactive) || IsIgnoredProgram(name) then Ignored
    else
      var (display, kind) := classify(command);
      if display == [] then Unclassified
      else
        Foreground(display, if name in remoteExtras then Kind.Remote else kind,
                   if cwd.Some? then cwd.value else "", name, name in interactive)
  }

  datatype TimerReport = TimerReport(changed: bool, receded: Drops, completed: map<PaneId, Kind>)

  class CommandStore {
    const store: ObservationStore
    const classify: Classifier
    var pending: map<PaneId, PendingCommand>
    var pendingDone: map<PaneId, nat>
    var exited: map<PaneId, Option<int>>
    var interactive: set<string>
    var remoteExtras: set<string>

    constructor (classify: Classifier)
      ensures fresh(store) && this.classify == classify && store.rows == map[]
      ensures forall id :: PaneAt(id) == NO_PANE
      ensures interactive == DEFAULT_INTERACTIVE && remoteExtras == {}
    {
      store := new ObservationStore();
      this.classify := classify;
      pending, pendingDone, exited := map[], map[], map[];
      interactive, remoteExtras := DEFAULT_INTERACTIVE, {};
    }

    /** Back to the default store. */
    method Reset()
      modifies this, store
      ensures forall id :: PaneAt(id) == NO_PANE
      ensures interactive == DEFAULT_INTERACTIVE && remoteExtras == {}
    {
      store.rows := map[];
      pending, pendingDone, exited := map[], map[], map[];
      interactive, remoteExtras := DEFAULT_INTERACTIVE, {};
    }

    /** Everything the maps hold about one pane. */
    function PaneAt(id: PaneId): Pane
      reads this, store
    {
      Pane(Lookup(store.rows, id), Lookup(pending, id), Lookup(pendingDone, id), Lookup(exited, id))
    }

    ghost predicate AllCoherent()
      reads this, store
    {
      forall id :: Coherent(PaneAt(id))
    }

    method ArmTentativeDone(id: PaneId, tick: nat)
      modifies this`pendingDone
      ensures forall x :: PaneAt(x) == (if x == id then ArmLeaving(old(PaneAt(x)), tick) else old(PaneAt(x)))
    {
      if id in store.rows && store.rows[id].status == Status.Running && id !in pendingDone {
        pendingDone := pendingDone[id := tick];
      }
    }

    method OnCommandChanged(id: PaneId, argv: seq<string>, isForeground: bool, cwd: Option<string>, tick: nat)
      modifies this`pending, this`pendingDone, this`exited
      ensures var intake := Judge(argv, isForeground, cwd, interactive, remoteExtras, classify);
              forall x :: PaneAt(x) == (if x == id then OnCommand(old(PaneAt(x)), intake, tick) else old(PaneAt(x)))
    {
      var (command, name) := EffectiveProgram(argv);
      var isInteractive := name in interactive;
      if (!isForeground && !isInteractive) || IsIgnoredProgram(name) {
        pending := pending - {id};
        ArmTentativeDone(id, tick);
        return;
      }
      var (display, kind) := classify(command);
      if display == [] {
        return;
      }
      if name in remoteExtras {
        kind := Kind.Remote;
      }
      if isInteractive {
        ArmTentativeDone(id, tick);
      } else {
        pendingDone := pendingDone - {id};
      }
      exited := exited - {id};
      pending := pending[id := PendingCommand(display, if cwd.Some? then cwd.value else "", kind, tick, !isInteractive,
                                              name)];
    }

    /** Promote one pane's pending command. */
    method PromoteOne(id: PaneId, tick: nat) returns (changed: bool, displaced: Option<Tracked>)
      requires PromotionDue(PaneAt(id), tick)
      modifies this`pending, store
      ensures forall x :: PaneAt(x) == (if x == id then Promote(old(PaneAt(x)), tick) else old(PaneAt(x)))
      ensures displaced == PromoteDrops(old(PaneAt(id)), tick)
      ensures changed <==> store.rows != old(store.rows)
      ensures changed ==> PaneAt(id).row != old(PaneAt(id)).row
    {
      var p := pending[id];
      pending := pending - {id};
      var row := CommandRow(Status.Running, RepoOf(p.cwd), p.command, p.kind, tick);
      var prev := Lookup(store.rows, id);
      if prev.Some? && prev.value.status == Status.Running && prev.value.msg == row.msg {
        row := row.(lastChangeTick := prev.value.lastChangeTick);
      }
      changed := prev != Some(row);
      displaced := store.Insert(id, row);
      if displaced.Some? && !displaced.value.status.IsCompletion() {
        displaced := None;
      }
    }

    /** Promote every pending command that outlived the debounce. */
    method PromoteDue(tick: nat) returns (changed: bool, receded: Drops)
      modifies this`pending, store
      ensures forall x :: PaneAt(x) == Promote(old(PaneAt(x)), tick)
      ensures forall x :: Lookup(receded, x) == PromoteDrops(old(PaneAt(x)), tick)
      ensures changed <==> store.rows != old(store.rows)
    {
      changed, receded := false, map[];
      var todo := set id | id in pending && pending[id].promotable
        && SatSub(tick, pending[id].sinceTick) >= DEBOUNCE_TICKS;
      ghost var due := todo;
      while todo != {}
        invariant todo <= due && forall id :: id in due <==> PromotionDue(old(PaneAt(id)), tick)
        invariant forall x :: PaneAt(x) == (if x in due - todo then Promote(old(PaneAt(x)), tick) else old(PaneAt(x)))
        invariant forall x :: Lookup(receded, x) == (if x in due - todo then PromoteDrops(old(PaneAt(x)), tick)
                                                     else None)
        invariant changed <==> store.rows != old(store.rows)
        decreases |todo|
      {
        var id :| id in todo;
        todo := todo - {id};
        assert PaneAt(id) == old(PaneAt(id));
        var differs, displaced := PromoteOne(id, tick);
        changed := changed || differs;
        if displaced.Some? {
          receded := receded[id := displaced.value];
        }
      }
    }

    /** Confirm one pane's tentative Done. */
    method ConfirmOne(id: PaneId, tick: nat, now: nat) returns (confirmed: Option<Kind>)
      requires ConfirmDue(PaneAt(id), tick)
      modifies this`pendingDone, store
      ensures forall x :: PaneAt(x) == (if x == id then Confirm(old(PaneAt(x)), tick, now) else old(PaneAt(x)))
      ensures confirmed == (if Confirms(old(PaneAt(id)), tick) then Some(old(PaneAt(id)).row.value.kind) else None)
      ensures confirmed.Some? <==> store.rows != old(store.rows)
      ensures confirmed.Some? ==> PaneAt(id).row != old(PaneAt(id)).row
    {
      confirmed := None;
      pendingDone := pendingDone - {id};
      if id in store.rows && store.rows[id].status == Status.Running {
        var row := store.rows[id].(status := Status.Done, lastChangeTick := tick, completedEpochS := Some(now));
        store.rows := store.rows[id := row];
        confirmed := Some(row.kind);
      }
    }

    /** Confirm every tentative Done that outlived the debounce. */
    method ConfirmDueRows(tick: nat, now: nat) returns (changed: bool, completed: map<PaneId, Kind>)
      modifies this`pendingDone, store
      ensures forall x :: PaneAt(x) == Confirm(old(PaneAt(x)), tick, now)
      ensures forall x :: Lookup(completed, x)
                       == (if Confirms(old(PaneAt(x)), tick) then Some(old(PaneAt(x)).row.value.kind) else None)
      ensures changed <==> store.rows != old(store.rows)
    {
      changed, completed := false, map[];
      var todo := set id | id in pendingDone && SatSub(tick, pendingDone[id]) >= DEBOUNCE_TICKS;
      ghost var due := todo;
      while todo != {}
        invariant todo <= due && forall id :: id in due <==> ConfirmDue(old(PaneAt(id)), tick)
        invariant forall x :: PaneAt(x) == (if x in due - todo then Confirm(old(PaneAt(x)), tick, now)
                                            else old(PaneAt(x)))
        invariant forall x :: Lookup(completed, x)
                           == (if x in due - todo && Confirms(old(PaneAt(x)), tick)
                               then Some(old(PaneAt(x)).row.value.kind) else None)
        invariant changed <==> store.rows != old(store.rows)
        decreases |todo|
      {
        var id :| id in todo;
        todo := todo - {id};
        assert PaneAt(id) == old(PaneAt(id));
        var confirmed := ConfirmOne(id, tick, now);
        if confirmed.Some? {
          completed := completed[id := confirmed.value];
          changed := true;
        }
      }
    }

    /** Recede one pane's expired Done. */
    method RecedeOne(id: PaneId, tick: nat) returns (row: Tracked)
      requires RecedeDue(PaneAt(id), tick)
      modifies store
      ensures forall x :: PaneAt(x) == (if x == id then Recede(old(PaneAt(x)), tick) else old(PaneAt(x)))
      ensures Some(row) == RecedeDrops(old(PaneAt(id)), tick)
      ensures PaneAt(id).row != old(PaneAt(id)).row
    {
      row := store.rows[id];
      store.rows := store.rows[id := row.(status := Status.Idle, lastChangeTick := tick, completedEpochS := None)];
    }

    /** Recede every Done that has sat out its time. */
    method RecedeDueRows(tick: nat) returns (changed: bool, receded: Drops)
      modifies store
      ensures forall x :: PaneAt(x) == Recede(old(PaneAt(x)), tick)
      ensures forall x :: Lookup(receded, x) == RecedeDrops(old(PaneAt(x)), tick)
      ensures changed <==> store.rows != old(store.rows)
    {
      changed, receded := false, map[];
      var todo := set id | id in store.rows && store.rows[id].status == Status.Done
                           && SatSub(tick, store.rows[id].lastChangeTick) >= DONE_TTL_TICKS;
      ghost var due := todo;
      while todo != {}
        invariant todo <= due && forall id :: id in due <==> RecedeDue(old(PaneAt(id)), tick)
        invariant forall x :: PaneAt(x) == (if x in due - todo then Recede(old(PaneAt(x)), tick) else old(PaneAt(x)))
        invariant forall x :: Lookup(receded, x) == (if x in due - todo then RecedeDrops(old(PaneAt(x)), tick)
                                                     else None)
        invariant changed <==> store.rows != old(store.rows)
        decreases |todo|
      {
        var id :| id in todo;
        todo := todo - {id};
        assert PaneAt(id) == old(PaneAt(id));
        var row := RecedeOne(id, tick);
        receded := receded[id := row];
        changed := true;
      }
    }

    /** The timer's three passes, one after the other over whichever panes each finds due, come to one independent tick
        of every pane; `changed` says whether any row did. */
    method OnTimer(tick: nat, now: nat) returns (report: TimerReport)
      requires AllCoherent()
      modifies this`pending, this`pendingDone, store
      ensures forall x :: PaneAt(x) == OnTick(old(PaneAt(x)), tick, now)
      ensures forall x :: Lookup(report.receded, x) == TickDrops(old(PaneAt(x)), tick, now)
      ensures forall x :: Lookup(report.completed, x) == TickCompletes(old(PaneAt(x)), tick)
      ensures report.changed <==> store.rows != old(store.rows)
    {
      var promoted, displaced := PromoteDue(tick);
      label Promoted:
      var confirmed, completed := ConfirmDueRows(tick, now);
      label Confirmed:
      var expired, receded := RecedeDueRows(tick);
      report := TimerReport(promoted || confirmed || expired, displaced + receded, completed);
      forall x ensures Lookup(report.receded, x) == TickDrops(old(PaneAt(x)), tick, now) {
        PromotedRowsDoNotRecede(old(PaneAt(x)), tick, now);
        MergedLookup(displaced, receded, x);
      }
      if store.rows == old(store.rows) {
        forall x ensures Lookup(old@Promoted(store.rows), x) == Lookup(old(store.rows), x)
                      && Lookup(old@Confirmed(store.rows), x) == Lookup(old(store.rows), x)
        {
          assert old@Promoted(PaneAt(x)) == Promote(old(PaneAt(x)), tick);
          assert old@Confirmed(PaneAt(x)) == Confirm(old@Promoted(PaneAt(x)), tick, now);
          assert PaneAt(x) == Recede(old@Confirmed(PaneAt(x)), tick);
          NoPassUndoesAnother(old(PaneAt(x)), tick, now);
        }
        SameRows(old@Promoted(store.rows), old(store.rows));
        SameRows(old@Confirmed(store.rows), old(store.rows));
      }
    }

    /** Apply a pane's exit status, returning the completion it displaced. */
    method ApplyExit(id: PaneId, code: Option<int>, tick: nat, now: nat) returns (receded: Option<Tracked>)
      modifies this`pending, this`pendingDone, this`exited, store
      ensures forall x :: PaneAt(x) == (if x == id then OnExit(old(PaneAt(x)), code, tick, now) else old(PaneAt(x)))
      ensures receded == ExitDrops(old(PaneAt(id)), code)
    {
      receded := None;
      if Lookup(exited, id) == Some(code) {
        return;
      }
      var status := ExitStatus(code);
      if id !in pending {
        if id in store.rows && store.rows[id].status == Status.Idle {
          return;
        }
        if id in store.rows && store.rows[id].status == status && store.rows[id].exitCode == code {
          exited := exited[id := code];
          return;
        }
      }
      receded := EndRun(id, code, tick, now);
    }

    /** An exit that is news: the run in flight ends, and its outcome goes on display. */
    method EndRun(id: PaneId, code: Option<int>, tick: nat, now: nat) returns (receded: Option<Tracked>)
      requires ExitApplies(PaneAt(id), code)
      modifies this`pending, this`pendingDone, this`exited, store
      ensures forall x :: PaneAt(x) == (if x == id then Pane(Some(ExitRow(old(PaneAt(x)), code, tick, now)), None, None,
                                                             Some(code))
                                        else old(PaneAt(x)))
      ensures receded == ExitDrops(old(PaneAt(id)), code)
    {
      var status, run := ExitStatus(code), Lookup(pending, id);
      exited := exited[id := code];
      pending := pending - {id};
      pendingDone := pendingDone - {id};
      receded := None;
      if id in store.rows {
        var row := store.rows[id];
        if row.status.IsCompletion() {
          receded := Some(row);
        }
        if run.Some? {
          row := row.(repo := RepoOf(run.value.cwd), msg := run.value.command, kind := run.value.kind);
        }
        store.rows := store.rows[id := row.(status := status, lastChangeTick := tick, exitCode := code,
                                            completedEpochS := Some(now))];
      } else {
        var (repo, msg, kind) :=
          if run.Some? then (RepoOf(run.value.cwd), run.value.command, run.value.kind) else ("", "", Kind.Command);
        var row := CommandRow(status, repo, msg, kind, tick).(exitCode := code, completedEpochS := Some(now));
        var _ := store.Insert(id, row);
      }
    }

    /** Forget every pane not in `live`, returning what was on display for it. */
    method Prune(live: set<PaneId>) returns (dropped: Drops)
      modifies this`pending, this`pendingDone, this`exited, store
      ensures forall x :: PaneAt(x) == (if x in live then old(PaneAt(x)) else NO_PANE)
      ensures forall x :: Lookup(dropped, x) == (if x in live then None else old(PaneAt(x)).row)
    {
      dropped := store.Prune(live);
      pending := map id | id in pending && id in live :: pending[id];
      pendingDone := map id | id in pendingDone && id in live :: pendingDone[id];
      exited := map id | id in exited && id in live :: exited[id];
    }

    /** Every pane the store holds anything about. */
    function TrackedIds(): (ids: set<PaneId>)
      reads this, store
      ensures forall x :: x in ids <==> PaneAt(x) != NO_PANE
    {
      store.rows.Keys + pending.Keys + pendingDone.Keys + exited.Keys
    }

    /** Insert a snapshot-loaded row. */
    method InsertSnapshot(id: PaneId, row: Tracked)
      modifies store
      ensures forall x :: PaneAt(x) == (if x == id then old(PaneAt(x)).(row := Some(row)) else old(PaneAt(x)))
    {
      var _ := store.Insert(id, row);
    }

    /** Whether the timer has anything to do for this store. */
    method NeedsTicks() returns (r: bool)
      ensures r <==> exists x :: PaneNeedsTicks(PaneAt(x))
    {
      r := (exists id :: id in pending && pending[id].promotable)
        || pendingDone.Keys != {}
        || (exists id :: id in store.rows && store.rows[id].Animating());
      if exists id :: id in pending && pending[id].promotable {
        var id :| id in pending && pending[id].promotable;
        assert PaneNeedsTicks(PaneAt(id));
      }
      if pendingDone.Keys != {} {
        var id :| id in pendingDone.Keys;
        assert PaneNeedsTicks(PaneAt(id));
      }
      if exists id :: id in store.rows && store.rows[id].Animating() {
        var id :| id in store.rows && store.rows[id].Animating();
        assert PaneNeedsTicks(PaneAt(id));
      }
    }

    method HasDoneAwaitingRecede() returns (r: bool)
      ensures r <==> exists x :: HasStatus(PaneAt(x), Status.Done)
    {
      r := exists id :: id in store.rows && store.rows[id].status == Status.Done;
      if r {
        var id :| id in store.rows && store.rows[id].status == Status.Done;
        assert HasStatus(PaneAt(id), Status.Done);
      }
    }

    /** Re-judge the pending commands against the interactive set in force. */
    method RejudgePending() returns (changed: bool)
      modifies this`pending
      ensures forall x :: PaneAt(x) == Rejudge(old(PaneAt(x)), interactive)
      ensures changed <==> pending != old(pending)
    {
      changed := false;
      var todo := pending.Keys;
      while todo != {}
        invariant todo <= pending.Keys == old(pending).Keys
        invariant forall x :: PaneAt(x) == (if x in todo then old(PaneAt(x)) else Rejudge(old(PaneAt(x)), interactive))
        invariant changed <==> pending != old(pending)
        decreases |todo|
      {
        var id :| id in todo;
        todo := todo - {id};
        assert PaneAt(id) == old(PaneAt(id));
        var want := pending[id].program !in interactive;
        if pending[id].promotable != want {
          pending := pending[id := pending[id].(promotable := want)];
          changed := true;
          assert pending[id] != old(pending)[id];
        }
      }
    }

    /** Turn one running row back into a quiet pending. */
    method DemoteOne(id: PaneId)
      requires DemotionDue(PaneAt(id), interactive)
      modifies this`pending, store
      ensures forall x :: PaneAt(x) == (if x == id then Demote(old(PaneAt(x)), interactive) else old(PaneAt(x)))
    {
      var row := store.rows[id];
      store.rows := store.rows[id := row.(status := Status.Idle)];
      if id !in pending {
        var token := FirstToken(row.msg);
        pending := pending[id := PendingCommand(row.msg, row.repo, row.kind, row.lastChangeTick, false,
                                                if token.Some? then token.value else "")];
      }
    }

    /** Demote the running rows of commands now interactive. */
    method DemoteRows() returns (changed: bool)
      modifies this`pending, store
      ensures forall x :: PaneAt(x) == Demote(old(PaneAt(x)), interactive)
      ensures changed <==> exists x :: DemotionDue(old(PaneAt(x)), interactive)
    {
      var todo := set id | id in store.rows && DemotionDue(PaneAt(id), interactive);
      ghost var due := todo;
      changed := todo != {};
      if changed {
        var id :| id in todo;
        assert DemotionDue(old(PaneAt(id)), interactive);
      }
      while todo != {}
        invariant todo <= due && forall id :: id in due <==> DemotionDue(old(PaneAt(id)), interactive)
        invariant forall x :: PaneAt(x) == (if x in due - todo then Demote(old(PaneAt(x)), interactive)
                                            else old(PaneAt(x)))
        decreases |todo|
      {
        var id :| id in todo;
        todo := todo - {id};
        assert PaneAt(id) == old(PaneAt(id));
        DemoteOne(id);
      }
    }

    /** Compose the effective interactive set and sweep the recorded state with it; `changed` says whether anything
        the maps hold did. */
    method SetInteractiveExtras(extras: set<string>) returns (changed: bool)
      modifies this`interactive, this`pending, store
      ensures interactive == DEFAULT_INTERACTIVE + extras
      ensures forall x :: PaneAt(x) == OnInteractive(old(PaneAt(x)), interactive)
      ensures changed <==> exists x :: PaneAt(x) != old(PaneAt(x))
    {
      interactive := DEFAULT_INTERACTIVE + extras;
      label Composed:
      var rejudged := RejudgePending();
      label Rejudged:
      var demoted := DemoteRows();
      changed := rejudged || demoted;
      forall x ensures PaneAt(x) != old(PaneAt(x)) <==>
                         Lookup(old@Rejudged(pending), x) != Lookup(old(pending), x)
                         || DemotionDue(old@Rejudged(PaneAt(x)), interactive)
      {
        assert old@Rejudged(PaneAt(x)) == Rejudge(old(PaneAt(x)), interactive);
        SweepChanges(old(PaneAt(x)), interactive);
      }
      DiffersSomewhere(old@Rejudged(pending), old(pending));
    }

    /** Flip the pendings whose launcher entered or left the extras. */
    method RekindPendings() returns (changed: bool)
      modifies this`pending
      ensures forall x :: PaneAt(x) == RekindPending(old(PaneAt(x)), remoteExtras)
      ensures changed <==> pending != old(pending)
    {
      changed := false;
      var todo := pending.Keys;
      while todo != {}
        invariant todo <= pending.Keys == old(pending).Keys
        invariant forall x :: PaneAt(x) == (if x in todo then old(PaneAt(x))
                                            else RekindPending(old(PaneAt(x)), remoteExtras))
        invariant changed <==> pending != old(pending)
        decreases |todo|
      {
        var id :| id in todo;
        todo := todo - {id};
        assert PaneAt(id) == old(PaneAt(id));
        var want := Rekind(pending[id].program, pending[id].kind, remoteExtras);
        if want.Some? {
          pending := pending[id := pending[id].(kind := want.value)];
          changed := true;
          assert pending[id] != old(pending)[id];
        }
      }
    }

    /** Flip the rows whose launcher entered or left the extras. */
    method RekindRows() returns (changed: bool)
      modifies store
      ensures forall x :: PaneAt(x) == RekindRow(old(PaneAt(x)), remoteExtras)
      ensures changed <==> exists x :: RowRekind(old(PaneAt(x)), remoteExtras).Some?
    {
      var todo := set id | id in store.rows && RowRekind(PaneAt(id), remoteExtras).Some?;
      ghost var due := todo;
      changed := todo != {};
      if changed {
        var id :| id in todo;
        assert RowRekind(old(PaneAt(id)), remoteExtras).Some?;
      }
      while todo != {}
        invariant todo <= due && forall id :: id in due <==> RowRekind(old(PaneAt(id)), remoteExtras).Some?
        invariant forall x :: PaneAt(x) == (if x in due - todo then RekindRow(old(PaneAt(x)), remoteExtras)
                                            else old(PaneAt(x)))
        decreases |todo|
      {
        var id :| id in todo;
        todo := todo - {id};
        assert PaneAt(id) == old(PaneAt(id));
        store.rows := store.rows[id := store.rows[id].(kind := RowRekind(PaneAt(id), remoteExtras).value)];
      }
    }

    /** Store the remote extras - default launchers are never extras - and sweep the recorded kinds with them. */
    method SetRemoteExtras(extras: set<string>) returns (changed: bool)
      modifies this`remoteExtras, this`pending, store
      ensures remoteExtras == extras - DEFAULT_REMOTE
      ensures forall x :: PaneAt(x) == OnRemote(old(PaneAt(x)), remoteExtras)
      ensures changed <==> exists x :: PaneAt(x) != old(PaneAt(x))
    {
      remoteExtras := extras - DEFAULT_REMOTE;
      var pendings := RekindPendings();
      label Rekinded:
      var rows := RekindRows();
      changed := pendings || rows;
      forall x ensures PaneAt(x) != old(PaneAt(x)) <==>
                         Lookup(old@Rekinded(pending), x) != Lookup(old(pending), x)
                         || RowRekind(old@Rekinded(PaneAt(x)), remoteExtras).Some?
      {
        assert old@Rekinded(PaneAt(x)) == RekindPending(old(PaneAt(x)), remoteExtras);
        RekindChanges(old(PaneAt(x)), remoteExtras);
      }
      DiffersSomewhere(old@Rekinded(pending), old(pending));
    }
  }

  lemma SameRows(a: map<PaneId, Tracked>, b: map<PaneId, Tracked>)
    requires forall x :: Lookup(a, x) == Lookup(b, x)
    ensures a == b
  {
    forall x ensures x in a <==> x in b {
      assert Lookup(a, x) == Lookup(b, x);
    }
    forall x | x in a ensures a[x] == b[x] {
      assert Lookup(a, x) == Lookup(b, x);
    }
  }

  lemma DiffersSomewhere<T>(a: map<PaneId, T>, b: map<PaneId, T>)
    ensures a != b <==> exists x :: Lookup(a, x) != Lookup(b, x)
  {
    if forall x :: Lookup(a, x) == Lookup(b, x) {
      forall x ensures x in a <==> x in b {
        assert Lookup(a, x) == Lookup(b, x);
      }
      forall x | x in a ensures a[x] == b[x] {
        assert Lookup(a, x) == Lookup(b, x);
      }
      assert a == b;
    }
  }

  lemma MergedLookup<T>(a: map<PaneId, T>, b: map<PaneId, T>, x: PaneId)
    ensures Lookup(a + b, x) == (if x in b then Some(b[x]) else Lookup(a, x))
  {
  }
}
