/** Background tasks (crates/core/src/task.rs): the one merge rule, and what every run of it keeps. */
module Tasks {
  import opened Prelude
  import opened Vocabulary

  const MAX_TASKS: nat := 16

  datatype TaskState = Running | Completed | Failed | Killed | Ended {
    predicate IsEnded() {
      this != TaskState.Running
    }

    /** A reported outcome. */
    predicate IsFinal() {
      Completed? || Failed? || Killed?
    }

    /** Running < Ended < any reported outcome. */
    function Rank(): nat {
      if IsFinal() then 2 else if IsEnded() then 1 else 0
    }
  }

  datatype TaskUpdate = TaskUpdate(id: string, state: TaskState, labelText: string, holds: bool)

  datatype TaskBatch = TaskBatch(items: seq<TaskUpdate>, snapshot: bool) {
    predicate HasHolding() {
      exists k :: 0 <= k < |items| && items[k].state == TaskState.Running && items[k].holds
    }

    /** The batch reports `id` as running. */
    predicate ReportsRunning(id: string) {
      exists k :: 0 <= k < |items| && items[k].id == id && items[k].state == TaskState.Running
    }
  }

  datatype BgTask = BgTask(
    id: string, labelText: string, holds: bool, state: TaskState, startedEpochS: nat, endedEpochS: Option<nat>)

  /** A pane's stored tasks, as a value. */
  datatype TaskList = TaskList(items: seq<BgTask>, waiting: bool)

  const NO_TASKS := TaskList([], false)

  predicate AnyHolding(items: seq<BgTask>) {
    exists k :: 0 <= k < |items| && items[k].state == TaskState.Running && items[k].holds
  }

  // ----- the merge rule as functions -----

  /** The first stored task with this id, or the length of the list. */
  function IndexOf(items: seq<BgTask>, id: string): (k: nat)
    ensures k <= |items| && (k < |items| ==> items[k].id == id)
    ensures forall j :: 0 <= j < k ==> items[j].id != id
  {
    if items == [] || items[0].id == id then 0 else
      var k := IndexOf(items[1..], id);
      assert forall j :: 1 <= j < 1 + k ==> items[j] == items[1..][j - 1];
      1 + k
  }

  function EndStamp(state: TaskState, now: nat): Option<nat> {
    if state.IsEnded() then Some(now) else None
  }

  /** One stored task after an update about it. */
  function Updated(task: BgTask, u: TaskUpdate, now: nat): BgTask {
    if task.state.IsFinal() || (task.state.IsEnded() && !u.state.IsFinal()) then task
    else
      task.(labelText := if u.labelText != [] then u.labelText else task.labelText,
            holds := if u.state == TaskState.Running then task.holds && u.holds else task.holds,
            endedEpochS := if task.state.IsEnded() && task.endedEpochS.Some? then task.endedEpochS
                           else EndStamp(u.state, now),
            state := u.state)
  }

  function Fresh(u: TaskUpdate, now: nat): BgTask {
    BgTask(u.id, u.labelText, u.holds, u.state, now, EndStamp(u.state, now))
  }

  function Upserted(items: seq<BgTask>, u: TaskUpdate, now: nat): seq<BgTask> {
    var k := IndexOf(items, u.id);
    if k < |items| then items[k := Updated(items[k], u, now)] else items + [Fresh(u, now)]
  }

  function UpsertedAll(items: seq<BgTask>, us: seq<TaskUpdate>, now: nat): seq<BgTask>
    decreases |us|
  {
    if us == [] then items else Upserted(UpsertedAll(items, us[..|us| - 1], now), us[|us| - 1], now)
  }

  /** A running task the snapshot omits has ended, with no outcome. */
  function EndIfOmitted(task: BgTask, batch: TaskBatch, now: nat): BgTask {
    if task.state == TaskState.Running && !batch.ReportsRunning(task.id)
    then task.(state := TaskState.Ended, endedEpochS := Some(now))
    else task
  }

  function EndOmitted(items: seq<BgTask>, batch: TaskBatch, now: nat): (r: seq<BgTask>)
    ensures |r| == |items| && forall k :: 0 <= k < |r| ==> r[k] == EndIfOmitted(items[k], batch, now)
  {
    seq(|items|, k requires 0 <= k < |items| => EndIfOmitted(items[k], batch, now))
  }

  function OnlyRunning(items: seq<BgTask>): seq<BgTask> {
    if items == [] then []
    else (if items[0].state.IsEnded() then [] else [items[0]]) + OnlyRunning(items[1..])
  }

  /** The eviction order: ended before running, then by the end (or, for a running task, the start). */
  function EvictionStamp(task: BgTask): nat {
    if task.endedEpochS.Some? then task.endedEpochS.value else task.startedEpochS
  }

  predicate EvictsBefore(a: BgTask, b: BgTask) {
    if a.state.IsEnded() != b.state.IsEnded() then a.state.IsEnded()
    else EvictionStamp(a) < EvictionStamp(b)
  }

  /** The index `min_by_key` picks: the first of the least. */
  function Victim(items: seq<BgTask>): (v: nat)
    requires items != []
    ensures v < |items|
    ensures forall j :: 0 <= j < v ==> EvictsBefore(items[v], items[j])
    ensures forall j :: v <= j < |items| ==> !EvictsBefore(items[j], items[v])
  {
    if |items| == 1 then 0
    else
      var front := items[..|items| - 1];
      var v := Victim(front);
      if EvictsBefore(items[|items| - 1], items[v]) then |items| - 1 else v
  }

  function Without<T>(s: seq<T>, k: nat): seq<T>
    requires k < |s|
  {
    s[..k] + s[k + 1..]
  }

  function Capped(items: seq<BgTask>): (r: seq<BgTask>)
    ensures |r| <= MAX_TASKS
    decreases |items|
  {
    if |items| <= MAX_TASKS then items else Capped(Without(items, Victim(items)))
  }

  /** The list before the cap. */
  function Merged(items: seq<BgTask>, batch: Option<TaskBatch>, prev: Option<Status>, next: Status, prompted: bool,
                  now: nat): seq<BgTask>
  {
    match batch
    case None =>
      if next == Status.Running && (prompted || (prev.Some? && prev.value.IsCompletion())) then OnlyRunning(items)
      else items
    case Some(b) =>
      var merged := UpsertedAll(items, b.items, now);
      if b.snapshot then EndOmitted(merged, b, now) else merged
  }

  function Applied(t: TaskList, batch: Option<TaskBatch>, prev: Option<Status>, next: Status, prompted: bool,
                   now: nat): TaskList
  {
    if next == Status.Idle then NO_TASKS
    else
      var items := Capped(Merged(t.items, batch, prev, next, prompted, now));
      TaskList(items, next == Status.Running && batch.Some? && batch.value.snapshot && batch.value.HasHolding()
                      && AnyHolding(items))
  }

  // ----- the stored list, updated in place -----

  class BgTasks {
    var items: seq<BgTask>
    var waiting: bool

    constructor ()
      ensures View() == NO_TASKS
    {
      items, waiting := [], false;
    }

    function View(): TaskList
      reads this
    {
      TaskList(items, waiting)
    }

    method Upsert(update: TaskUpdate, now: nat)
      modifies this
      ensures items == Upserted(old(items), update, now) && waiting == old(waiting)
    {
      var k := 0;
      while k < |items| && items[k].id != update.id
        invariant k <= |items|
        invariant forall j :: 0 <= j < k ==> items[j].id != update.id
      {
        k := k + 1;
      }
      assert k == IndexOf(items, update.id);
      if k == |items| {
        items := items + [Fresh(update, now)];
        return;
      }
      var task := items[k];
      if task.state.IsFinal() || (task.state.IsEnded() && !update.state.IsFinal()) {
        assert items == items[k := task];
        return;
      }
      if update.labelText != [] {
        task := task.(labelText := update.labelText);
      }
      if update.state == TaskState.Running {
        task := task.(holds := task.holds && update.holds);
      }
      if !(task.state.IsEnded() && task.endedEpochS.Some?) {
        task := task.(endedEpochS := EndStamp(update.state, now));
      }
      task := task.(state := update.state);
      items := items[k := task];
    }

    method EndOmittedTasks(batch: TaskBatch, now: nat)
      modifies this
      ensures items == EndOmitted(old(items), batch, now) && waiting == old(waiting)
    {
      var n := 0;
      while n < |items|
        invariant n <= |items| == |old(items)| && waiting == old(waiting)
        invariant forall k :: 0 <= k < n ==> items[k] == EndIfOmitted(old(items)[k], batch, now)
        invariant forall k :: n <= k < |items| ==> items[k] == old(items)[k]
      {
        if items[n].state == TaskState.Running && !batch.ReportsRunning(items[n].id) {
          items := items[n := items[n].(state := TaskState.Ended, endedEpochS := Some(now))];
        }
        n := n + 1;
      }
    }

    method RetainRunning()
      modifies this
      ensures items == OnlyRunning(old(items)) && waiting == old(waiting)
    {
      var kept := [];
      for n := 0 to |items|
        invariant items == old(items) && waiting == old(waiting)
        invariant kept + OnlyRunning(items[n..]) == OnlyRunning(items)
      {
        assert items[n..][1..] == items[n + 1..];
        if !items[n].state.IsEnded() {
          kept := kept + [items[n]];
        }
      }
      items := kept;
    }

    method FindVictim() returns (v: nat)
      requires items != []
      ensures v == Victim(items)
    {
      v := 0;
      for n := 1 to |items|
        invariant v < n && v == Victim(items[..n])
      {
        assert items[..n + 1][..n] == items[..n];
        if EvictsBefore(items[n], items[v]) {
          v := n;
        }
      }
      assert items[..|items|] == items;
    }

    method Cap()
      modifies this
      ensures items == Capped(old(items)) && waiting == old(waiting)
    {
      while |items| > MAX_TASKS
        invariant Capped(items) == Capped(old(items)) && waiting == old(waiting)
        decreases |items|
      {
        var v := FindVictim();
        items := Without(items, v);
      }
    }

    /** Fold one payload into the stored list. */
    method Apply(batch: Option<TaskBatch>, prev: Option<Status>, next: Status, prompted: bool, now: nat)
      modifies this
      ensures View() == Applied(old(View()), batch, prev, next, prompted, now)
    {
      if next == Status.Idle {
        items, waiting := [], false;
        return;
      }
      match batch {
        case None =>
          if next == Status.Running && (prompted || (prev.Some? && prev.value.IsCompletion())) {
            RetainRunning();
          }
        case Some(b) =>
          for n := 0 to |b.items|
            invariant items == UpsertedAll(old(items), b.items[..n], now)
          {
            assert b.items[..n + 1][..n] == b.items[..n];
            Upsert(b.items[n], now);
          }
          assert b.items[..|b.items|] == b.items;
          if b.snapshot {
            EndOmittedTasks(b, now);
          }
      }
      Cap();
      waiting := next == Status.Running && batch.Some? && batch.value.snapshot && batch.value.HasHolding()
                 && AnyHolding(items);
    }
  }
}
