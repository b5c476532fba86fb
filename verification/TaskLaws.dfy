/** What every run of the background-task merge rule keeps: the invariants of the stored list, the one-way life of a
    stored task, the eviction order, and when a payload may end a task it does not mention. */
module TaskLaws {
  import opened Prelude
  import opened Vocabulary
  import opened Tasks

  predicate DistinctIds(items: seq<BgTask>) {
    forall i, j :: 0 <= i < j < |items| ==> items[i].id != items[j].id
  }

  predicate StampedIffEnded(items: seq<BgTask>) {
    forall k :: 0 <= k < |items| ==> (items[k].endedEpochS.Some? <==> items[k].state.IsEnded())
  }

  predicate Sound(items: seq<BgTask>) {
    DistinctIds(items) && StampedIffEnded(items)
  }

  predicate Valid(t: TaskList) {
    Sound(t.items) && |t.items| <= MAX_TASKS && (t.waiting ==> AnyHolding(t.items))
  }

  /** The only way a stored task changes: its state rises, an outcome is final, the first end stands, `holds` falls. */
  predicate Evolves(a: BgTask, b: BgTask) {
    && a.id == b.id && a.startedEpochS == b.startedEpochS
    && a.state.Rank() <= b.state.Rank()
    && (a.state.IsFinal() ==> a == b)
    && (a.endedEpochS.Some? ==> b.endedEpochS == a.endedEpochS)
    && (b.holds ==> a.holds)
  }

  predicate Grows(xs: seq<BgTask>, ys: seq<BgTask>) {
    |xs| <= |ys| && forall k :: 0 <= k < |xs| ==> Evolves(xs[k], ys[k])
  }

  predicate Within(xs: seq<BgTask>, ys: seq<BgTask>) {
    forall x :: x in xs ==> x in ys
  }

  // ----- upserts and snapshots -----

  lemma UpdatedEvolves(task: BgTask, u: TaskUpdate, now: nat)
    requires task.endedEpochS.Some? <==> task.state.IsEnded()
    ensures var r := Updated(task, u, now); Evolves(task, r) && (r.endedEpochS.Some? <==> r.state.IsEnded())
  {
  }

  lemma {:induction false} UpsertGrows(items: seq<BgTask>, u: TaskUpdate, now: nat)
    requires Sound(items)
    ensures var r := Upserted(items, u, now); Grows(items, r) && Sound(r)
  {
    var k := IndexOf(items, u.id);
    if k < |items| {
      UpdatedEvolves(items[k], u, now);
    }
  }

  lemma GrowsTransitive(xs: seq<BgTask>, ys: seq<BgTask>, zs: seq<BgTask>)
    requires Grows(xs, ys) && Grows(ys, zs)
    ensures Grows(xs, zs)
  {
    forall k | 0 <= k < |xs| ensures Evolves(xs[k], zs[k]) {
      assert Evolves(xs[k], ys[k]) && Evolves(ys[k], zs[k]);
    }
  }

  lemma {:induction false} UpsertAllGrows(items: seq<BgTask>, us: seq<TaskUpdate>, now: nat)
    requires Sound(items)
    ensures var r := UpsertedAll(items, us, now); Grows(items, r) && Sound(r)
    decreases |us|
  {
    if us != [] {
      var front := us[..|us| - 1];
      UpsertAllGrows(items, front, now);
      UpsertGrows(UpsertedAll(items, front, now), us[|us| - 1], now);
      GrowsTransitive(items, UpsertedAll(items, front, now), UpsertedAll(items, us, now));
    }
  }

  lemma EndOmittedGrows(items: seq<BgTask>, batch: TaskBatch, now: nat)
    requires Sound(items)
    ensures var r := EndOmitted(items, batch, now); Grows(items, r) && Sound(r)
  {
  }

  // ----- the cap -----

  /** The cap drops whole tasks, evicting in order: nothing kept should have gone before anything dropped. */
  lemma {:induction false} CapEvictsInOrder(items: seq<BgTask>)
    requires Sound(items)
    ensures var r := Capped(items); Within(r, items) && Sound(r) && |r| == Min(|items|, MAX_TASKS)
    ensures forall x, y :: x in items && x !in Capped(items) && y in Capped(items) ==> !EvictsBefore(y, x)
    decreases |items|
  {
    if |items| > MAX_TASKS {
      var v := Victim(items);
      var rest := Without(items, v);
      assert Within(rest, items) && forall x :: x in items ==> x == items[v] || x in rest;
      assert Sound(rest);
      CapEvictsInOrder(rest);
      forall x, y | x in items && x !in Capped(items) && y in Capped(items) ensures !EvictsBefore(y, x) {
        if x == items[v] {
          assert y in items;
        }
      }
    }
  }

  /** A running task is evicted only when no ended task is left. */
  lemma RunningEvictedLast(items: seq<BgTask>, x: BgTask)
    requires Sound(items) && x in items && x !in Capped(items) && x.state == TaskState.Running
    ensures |Capped(items)| == MAX_TASKS && forall y :: y in Capped(items) ==> y.state == TaskState.Running
  {
    CapEvictsInOrder(items);
    if |items| > MAX_TASKS {
      forall y | y in Capped(items) ensures y.state == TaskState.Running {
        assert !EvictsBefore(y, x);
      }
    }
  }

  lemma {:induction false} OnlyRunningKeeps(items: seq<BgTask>)
    requires Sound(items)
    ensures var r := OnlyRunning(items);
            Within(r, items) && Sound(r) && forall x :: x in r <==> x in items && !x.state.IsEnded()
    ensures |OnlyRunning(items)| <= |items|
  {
    if items != [] {
      OnlyRunningKeeps(items[1..]);
      assert forall x :: x in items <==> x == items[0] || x in items[1..];
      assert forall x :: x in OnlyRunning(items[1..]) ==> x.id != items[0].id;
    }
  }

  // ----- one payload -----

  lemma MergedIsSound(items: seq<BgTask>, batch: Option<TaskBatch>, prev: Option<Status>, next: Status,
                      prompted: bool, now: nat)
    requires Sound(items)
    ensures var r := Merged(items, batch, prev, next, prompted, now);
            Sound(r) && (batch.Some? ==> Grows(items, r)) && (batch.None? ==> Within(r, items))
  {
    match batch
    case None => OnlyRunningKeeps(items);
    case Some(b) =>
      UpsertAllGrows(items, b.items, now);
      EndOmittedGrows(UpsertedAll(items, b.items, now), b, now);
      if b.snapshot {
        GrowsTransitive(items, UpsertedAll(items, b.items, now), Merged(items, batch, prev, next, prompted, now));
      }
  }

  lemma ApplyKeepsValid(t: TaskList, batch: Option<TaskBatch>, prev: Option<Status>, next: Status, prompted: bool,
                        now: nat)
    requires Valid(t)
    ensures Valid(Applied(t, batch, prev, next, prompted, now))
  {
    MergedIsSound(t.items, batch, prev, next, prompted, now);
    CapEvictsInOrder(Merged(t.items, batch, prev, next, prompted, now));
  }

  /** Whatever the payload, a task stored before and after it has only moved forward. */
  lemma ApplyMovesForward(t: TaskList, batch: Option<TaskBatch>, prev: Option<Status>, next: Status, prompted: bool,
                          now: nat, a: BgTask, b: BgTask)
    requires Valid(t) && a in t.items && b in Applied(t, batch, prev, next, prompted, now).items && a.id == b.id
    ensures Evolves(a, b)
  {
    var merged := Merged(t.items, batch, prev, next, prompted, now);
    MergedIsSound(t.items, batch, prev, next, prompted, now);
    CapEvictsInOrder(merged);
    assert b in merged;
    MergedMovesForward(t.items, merged, a, b);
  }

  /** In a list with each id once, the task of the same id is the one grown, or the same. */
  lemma MergedMovesForward(items: seq<BgTask>, merged: seq<BgTask>, a: BgTask, b: BgTask)
    requires Sound(items) && Sound(merged) && (Grows(items, merged) || Within(merged, items))
    requires a in items && b in merged && a.id == b.id
    ensures Evolves(a, b)
  {
    var i :| 0 <= i < |items| && items[i] == a;
    if Grows(items, merged) {
      assert merged[i] in merged && Evolves(items[i], merged[i]);
    }
  }

  /** After a snapshot, only tasks it reports as running are running. */
  lemma SnapshotIsAuthoritative(t: TaskList, batch: TaskBatch, prev: Option<Status>, next: Status, prompted: bool,
                                now: nat, b: BgTask)
    requires Valid(t) && batch.snapshot
    requires b in Applied(t, Some(batch), prev, next, prompted, now).items && b.state == TaskState.Running
    ensures batch.ReportsRunning(b.id)
  {
    var merged := Merged(t.items, Some(batch), prev, next, prompted, now);
    MergedIsSound(t.items, Some(batch), prev, next, prompted, now);
    CapEvictsInOrder(merged);
    assert b in merged;
  }

  /** Some update reports the end of `id`. */
  predicate ReportsEnd(us: seq<TaskUpdate>, id: string) {
    exists k :: 0 <= k < |us| && us[k].id == id && us[k].state.IsEnded()
  }

  /** `id` is stored as running. */
  predicate HasRunning(items: seq<BgTask>, id: string) {
    exists k :: 0 <= k < |items| && items[k].id == id && items[k].state == TaskState.Running
  }

  /** `id` made way for sixteen other running tasks. */
  predicate CrowdedOutBy(items: seq<BgTask>, id: string) {
    |items| == MAX_TASKS && forall y :: y in items ==> y.state == TaskState.Running && y.id != id
  }

  /** Updates end a running task exactly when one of them reports its end. */
  lemma {:induction false} UpsertsEndWhatTheyReport(items: seq<BgTask>, us: seq<TaskUpdate>, now: nat, k: nat)
    requires Sound(items) && k < |items| && items[k].state == TaskState.Running
    ensures var r := UpsertedAll(items, us, now);
            k < |r| && r[k].id == items[k].id && (r[k].state == TaskState.Running <==> !ReportsEnd(us, items[k].id))
    decreases |us|
  {
    if us != [] {
      var front, u := us[..|us| - 1], us[|us| - 1];
      var before := UpsertedAll(items, front, now);
      UpsertsEndWhatTheyReport(items, front, now, k);
      UpsertAllGrows(items, front, now);
      assert IndexOf(before, items[k].id) == k;
      assert forall j :: 0 <= j < |front| ==> front[j] == us[j];
      assert ReportsEnd(us, items[k].id)
             <==> (ReportsEnd(front, items[k].id) || (u.id == items[k].id && u.state.IsEnded()));
    }
  }

  /** Before the cap, a snapshot leaves a stored running task running exactly when it reports it running and nowhere
      reports its end. */
  lemma SnapshotMergesExactly(items: seq<BgTask>, batch: TaskBatch, prev: Option<Status>, next: Status, prompted: bool,
                              now: nat, a: BgTask)
    requires Sound(items) && batch.snapshot && a in items && a.state == TaskState.Running
    ensures HasRunning(Merged(items, Some(batch), prev, next, prompted, now), a.id)
            <==> batch.ReportsRunning(a.id) && !ReportsEnd(batch.items, a.id)
  {
    var merged := Merged(items, Some(batch), prev, next, prompted, now);
    var k :| 0 <= k < |items| && items[k] == a;
    UpsertsEndWhatTheyReport(items, batch.items, now, k);
    MergedIsSound(items, Some(batch), prev, next, prompted, now);
    assert merged[k] == EndIfOmitted(UpsertedAll(items, batch.items, now)[k], batch, now);
    assert merged[k].id == a.id;
  }

  /** A task the cap leaves running was running before it; and one running before it is left, or crowded out. */
  lemma CapKeepsRunning(items: seq<BgTask>, id: string)
    requires Sound(items)
    ensures HasRunning(Capped(items), id) ==> HasRunning(items, id)
    ensures HasRunning(items, id) ==> HasRunning(Capped(items), id) || CrowdedOutBy(Capped(items), id)
  {
    CapEvictsInOrder(items);
    if HasRunning(Capped(items), id) {
      var k :| 0 <= k < |Capped(items)| && Capped(items)[k].id == id && Capped(items)[k].state == TaskState.Running;
      assert Capped(items)[k] in items;
    }
    if HasRunning(items, id) {
      var k :| 0 <= k < |items| && items[k].id == id && items[k].state == TaskState.Running;
      CrowdedOut(items, items[k]);
    }
  }

  /** What a snapshot keeps running: a stored running task is still running only if the snapshot reports it running and
      nowhere reports its end, and if it does, only a full list of other running tasks can push it out. */
  lemma SnapshotKeepsExactly(t: TaskList, batch: TaskBatch, prev: Option<Status>, next: Status, prompted: bool,
                             now: nat, a: BgTask)
    requires Valid(t) && batch.snapshot && next != Status.Idle && a in t.items && a.state == TaskState.Running
    ensures var r := Applied(t, Some(batch), prev, next, prompted, now).items;
            var reported := batch.ReportsRunning(a.id) && !ReportsEnd(batch.items, a.id);
            && (HasRunning(r, a.id) ==> reported)
            && (reported ==> HasRunning(r, a.id) || CrowdedOutBy(r, a.id))
  {
    SnapshotMergesExactly(t.items, batch, prev, next, prompted, now, a);
    MergedIsSound(t.items, Some(batch), prev, next, prompted, now);
    CapKeepsRunning(Merged(t.items, Some(batch), prev, next, prompted, now), a.id);
  }

  lemma {:induction false} UnmentionedIsUntouched(items: seq<BgTask>, us: seq<TaskUpdate>, now: nat, k: nat)
    requires Sound(items) && k < |items|
    requires forall j :: 0 <= j < |us| ==> us[j].id != items[k].id
    ensures var r := UpsertedAll(items, us, now); k < |r| && r[k] == items[k]
    decreases |us|
  {
    if us != [] {
      UnmentionedIsUntouched(items, us[..|us| - 1], now, k);
    }
  }

  /** A batch without snapshot authority ends no running task by leaving it out: it is still stored as it was,
      unless sixteen other running tasks have pushed it out. */
  lemma DeltaEndsNothingByOmission(t: TaskList, batch: TaskBatch, prev: Option<Status>, next: Status, prompted: bool,
                                   now: nat, a: BgTask)
    requires Valid(t) && !batch.snapshot && next != Status.Idle
    requires a in t.items && a.state == TaskState.Running
    requires forall j :: 0 <= j < |batch.items| ==> batch.items[j].id != a.id
    ensures var r := Applied(t, Some(batch), prev, next, prompted, now);
            a in r.items || CrowdedOutBy(r.items, a.id)
  {
    var merged := Merged(t.items, Some(batch), prev, next, prompted, now);
    MergedIsSound(t.items, Some(batch), prev, next, prompted, now);
    var k :| 0 <= k < |t.items| && t.items[k] == a;
    UnmentionedIsUntouched(t.items, batch.items, now, k);
    assert merged[k] == a;
    CrowdedOut(merged, a);
  }

  /** A running task that the cap evicts leaves only other running tasks. */
  lemma CrowdedOut(items: seq<BgTask>, a: BgTask)
    requires Sound(items) && a in items && a.state == TaskState.Running
    ensures a in Capped(items) || CrowdedOutBy(Capped(items), a.id)
  {
    if a !in Capped(items) {
      RunningEvictedLast(items, a);
      CapEvictsInOrder(items);
      forall y | y in Capped(items) ensures y.id != a.id {
        assert y in items && y != a;
      }
    }
  }

  // ----- runs -----

  datatype Payload = Payload(batch: Option<TaskBatch>, prev: Option<Status>, next: Status, prompted: bool, now: nat)

  function Run(ps: seq<Payload>): TaskList
    decreases |ps|
  {
    if ps == [] then NO_TASKS
    else
      var p := ps[|ps| - 1];
      Applied(Run(ps[..|ps| - 1]), p.batch, p.prev, p.next, p.prompted, p.now)
  }

  /** Every run from an empty list keeps the invariants; the agent reads as waiting only after a running payload whose
      snapshot reports holding work, with a holding task stored. */
  lemma {:induction false} EveryRunIsValid(ps: seq<Payload>)
    ensures Valid(Run(ps))
    ensures Run(ps).waiting ==>
              && ps != [] && ps[|ps| - 1].next == Status.Running && AnyHolding(Run(ps).items)
              && ps[|ps| - 1].batch.Some? && ps[|ps| - 1].batch.value.snapshot
    decreases |ps|
  {
    if ps != [] {
      EveryRunIsValid(ps[..|ps| - 1]);
      var p := ps[|ps| - 1];
      ApplyKeepsValid(Run(ps[..|ps| - 1]), p.batch, p.prev, p.next, p.prompted, p.now);
    }
  }

  predicate Stores(t: TaskList, id: string) {
    exists k :: 0 <= k < |t.items| && t.items[k].id == id
  }

  function Stored(t: TaskList, id: string): (task: BgTask)
    requires Stores(t, id)
    ensures task in t.items && task.id == id
  {
    t.items[IndexOf(t.items, id)]
  }

  /** Over any stretch of a run in which a task stays stored, it only moves forward. */
  lemma {:induction false} StoredTaskMovesForward(ps: seq<Payload>, from: nat, id: string)
    requires from <= |ps| && forall n :: from <= n <= |ps| ==> Stores(Run(ps[..n]), id)
    ensures Stores(Run(ps[..from]), id) && Stores(Run(ps), id)
    ensures Evolves(Stored(Run(ps[..from]), id), Stored(Run(ps), id))
    decreases |ps|
  {
    assert ps[..|ps|] == ps;
    if from < |ps| {
      var front := ps[..|ps| - 1];
      assert forall n :: from <= n <= |front| ==> front[..n] == ps[..n];
      forall n | from <= n <= |front| ensures Stores(Run(front[..n]), id) {
        assert front[..n] == ps[..n];
      }
      StoredTaskMovesForward(front, from, id);
      EveryRunIsValid(front);
      var p := ps[|ps| - 1];
      ApplyMovesForward(Run(front), p.batch, p.prev, p.next, p.prompted, p.now, Stored(Run(front), id),
                        Stored(Run(ps), id));
    }
  }

  // ----- the rule in plain terms -----

  /** An update about a task that is over: an outcome stands, and an end without one gives way to an outcome alone,
      which keeps the end seen. */
  lemma OverIsOver(task: BgTask, u: TaskUpdate, now: nat)
    requires task.state != TaskState.Running
    ensures var r := Updated(task, u, now);
            var outcome := u.state in {TaskState.Completed, TaskState.Failed, TaskState.Killed};
            && r == (if task.state == TaskState.Ended && outcome
                     then task.(state := u.state, labelText := r.labelText, endedEpochS := r.endedEpochS) else task)
            && (task.endedEpochS.Some? ==> r.endedEpochS == task.endedEpochS)
            && (task.state == TaskState.Ended && outcome ==>
                  && r.labelText == (if u.labelText == "" then task.labelText else u.labelText)
                  && (task.endedEpochS.None? ==> r.endedEpochS == Some(now)))
  {
  }

  /** An update about a running one: its state, with the end now if that is one; its label unless it brings none; and it
      holds the agent only while every report says so, an end leaving that as it was. */
  lemma RunningTakesUpdate(task: BgTask, u: TaskUpdate, now: nat)
    requires task.state == TaskState.Running
    ensures var r := Updated(task, u, now);
            && r.id == task.id && r.startedEpochS == task.startedEpochS && r.state == u.state
            && r.endedEpochS == (if u.state == TaskState.Running then None else Some(now))
            && r.labelText == (if u.labelText == "" then task.labelText else u.labelText)
            && (r.holds <==> task.holds && (u.holds || u.state != TaskState.Running))
  {
  }

  /** A task first heard of starts now, and has ended now if that is what was heard. */
  lemma {:induction false} FirstHeardOf(items: seq<BgTask>, u: TaskUpdate, now: nat)
    requires forall k :: 0 <= k < |items| ==> items[k].id != u.id
    ensures var r := Upserted(items, u, now);
            && |r| == |items| + 1 && r[..|items|] == items
            && r[|items|] == BgTask(u.id, u.labelText, u.holds, u.state, now,
                                    if u.state == TaskState.Running then None else Some(now))
  {
  }

  /** Known, it is updated where it stands, and no other moves. */
  lemma KnownIsUpdated(items: seq<BgTask>, u: TaskUpdate, now: nat, k: nat)
    requires Sound(items) && k < |items| && items[k].id == u.id
    ensures Upserted(items, u, now) == items[k := Updated(items[k], u, now)]
  {
  }

  /** The seventeenth goes: of a task kept and one evicted, the one evicted was over if either was; of two that were
      over it ended first, and of two running it started first - or in the same second. */
  lemma OldestGoesFirst(items: seq<BgTask>, kept: BgTask, gone: BgTask)
    requires Sound(items) && kept in Capped(items) && gone in items && gone !in Capped(items)
    ensures |items| > 16 && |Capped(items)| == 16
    ensures kept.state != TaskState.Running ==> gone.state != TaskState.Running
    ensures kept.state != TaskState.Running && kept.endedEpochS.Some? && gone.endedEpochS.Some? ==>
              gone.endedEpochS.value <= kept.endedEpochS.value
    ensures kept.state == TaskState.Running == gone.state ==> gone.startedEpochS <= kept.startedEpochS
  {
    CapEvictsInOrder(items);
    SixteenAreKept(items);
  }

  lemma {:induction false} SixteenAreKept(items: seq<BgTask>)
    ensures |items| <= 16 ==> Capped(items) == items
    ensures |items| > 16 ==> |Capped(items)| == 16
    decreases |items|
  {
    if |items| > 17 {
      SixteenAreKept(Without(items, Victim(items)));
    }
  }

  /** A payload without tasks clears the finished ones when it starts new work - running, on a prompt or after a
      completion - and leaves every task otherwise. */
  lemma NewWorkClearsFinished(t: TaskList, prev: Option<Status>, next: Status, prompted: bool, now: nat, task: BgTask)
    requires Valid(t) && next != Status.Idle
    ensures var newWork := next == Status.Running
                           && (prompted || prev == Some(Status.Done) || prev == Some(Status.Error));
            var items := Applied(t, None, prev, next, prompted, now).items;
            && (task in items <==> task in t.items && (!newWork || task.state == TaskState.Running))
            && (!newWork ==> items == t.items)
  {
    OnlyRunningKeeps(t.items);
    SixteenAreKept(t.items);
    SixteenAreKept(OnlyRunning(t.items));
  }

  /** An idle payload clears everything. */
  lemma IdleClearsAll(t: TaskList, batch: Option<TaskBatch>, prev: Option<Status>, prompted: bool, now: nat)
    ensures Applied(t, batch, prev, Status.Idle, prompted, now) == TaskList([], false)
  {
  }

  /** The agent waits exactly after a running payload whose snapshot reports a running task that holds, with one
      stored that does. */
  lemma WaitsIff(t: TaskList, batch: Option<TaskBatch>, prev: Option<Status>, next: Status, prompted: bool, now: nat)
    ensures var r := Applied(t, batch, prev, next, prompted, now);
            r.waiting <==>
              && next == Status.Running && batch.Some? && batch.value.snapshot
              && (exists k :: 0 <= k < |batch.value.items| && batch.value.items[k].state == TaskState.Running
                              && batch.value.items[k].holds)
              && (exists k :: 0 <= k < |r.items| && r.items[k].state == TaskState.Running && r.items[k].holds)
  {
  }

  /** A running task a snapshot does not report has ended, with no outcome, now. */
  lemma OmittedHasEnded(items: seq<BgTask>, batch: TaskBatch, now: nat, k: nat)
    requires k < |items|
    ensures var reported := exists j :: 0 <= j < |batch.items| && batch.items[j].id == items[k].id
                                        && batch.items[j].state == TaskState.Running;
            EndOmitted(items, batch, now)[k] ==
              if items[k].state == TaskState.Running && !reported
              then items[k].(state := TaskState.Ended, endedEpochS := Some(now)) else items[k]
  {
  }
}
