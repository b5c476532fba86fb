/** The status store (crates/plugin/src/status_store.rs): what producers pushed, pane by pane, capped; and the grace
    clocks of running rows whose producer may be gone. */
module StatusStores {
  import opened Prelude
  import opened Vocabulary
  import opened Tasks
  import opened Observation
  import opened Wire

  const RUNNING_SUSPECT_GRACE_TICKS: nat := 15
  const MAX_TRACKED_PANES: nat := 256

  /** The row a payload leaves. */
  function RowAfter(prev: Option<Tracked>, p: StatusPayload, kind: Kind, tick: nat, now: nat): Tracked {
    var changed := prev.None? || prev.value.status != p.status;
    var identical := !changed && prev.value.msg == p.msg;
    Tracked(
      Origin.StatusPipe, p.status, p.repo, p.branch, p.msg,
      if p.status == Status.Idle then []
      else if p.task != [] then p.task
      else if prev.Some? then prev.value.task
      else [],
      kind,
      if changed then tick else prev.value.lastChangeTick,
      p.status != Status.Idle || (prev.Some? && prev.value.everActive),
      None,
      if !p.status.IsCompletion() then None else if identical then prev.value.completedEpochS else Some(now),
      if p.status != Status.Pending then None else if identical then prev.value.pendingEpochS else Some(now),
      p.ack,
      Applied(if prev.Some? then prev.value.tasks else NO_TASKS, p.tasks,
              if prev.Some? then Some(prev.value.status) else None, p.status, p.task != [], now))
  }

  /** A row whose producer is gone. */
  function Idled(row: Tracked, tick: nat): Tracked {
    Tracked(Origin.StatusPipe, Status.Idle, row.repo, row.branch, [], [], row.kind, tick, true, None, None, None, false,
            NO_TASKS)
  }

  predicate Older(rows: map<PaneId, Tracked>, a: PaneId, b: PaneId)
    requires a in rows && b in rows
  {
    rows[a].lastChangeTick < rows[b].lastChangeTick || (rows[a].lastChangeTick == rows[b].lastChangeTick && a < b)
  }

  /** `kept` is what is left of `rows` when the oldest are evicted until they fit. */
  ghost predicate Evicted(rows: map<PaneId, Tracked>, kept: map<PaneId, Tracked>) {
    && (forall id :: id in kept ==> id in rows && kept[id] == rows[id])
    && (forall gone, id :: gone in rows && gone !in kept && id in kept ==> Older(rows, gone, id))
    && (if |rows| <= MAX_TRACKED_PANES then kept == rows else |kept| == MAX_TRACKED_PANES)
  }

  predicate ClearsOnReturn(row: Option<Tracked>) {
    row.Some? && row.value.status != Status.Running && row.value.status != Status.Idle
  }

  predicate ClearsOnExit(row: Option<Tracked>) {
    row.Some? && row.value.status != Status.Idle
  }

  lemma {:induction false} OnlyRunningOnce(items: seq<BgTask>)
    ensures forall k :: 0 <= k < |OnlyRunning(items)| ==> !OnlyRunning(items)[k].state.IsEnded()
  {
    if items != [] {
      OnlyRunningOnce(items[1..]);
    }
  }

  lemma {:induction false} RunningStay(items: seq<BgTask>)
    requires forall k :: 0 <= k < |items| ==> !items[k].state.IsEnded()
    ensures OnlyRunning(items) == items
  {
    if items != [] {
      RunningStay(items[1..]);
      assert items == [items[0]] + items[1..];
    }
  }

  lemma {:induction false} CappedKeepsRunning(items: seq<BgTask>)
    requires forall k :: 0 <= k < |items| ==> !items[k].state.IsEnded()
    ensures forall k :: 0 <= k < |Capped(items)| ==> !Capped(items)[k].state.IsEnded()
    decreases |items|
  {
    if |items| > MAX_TASKS {
      CappedKeepsRunning(Without(items, Victim(items)));
    }
  }

  /** Merging a payload without background tasks a second time changes nothing. */
  lemma TaskMergeSettles(t: TaskList, prev: Option<Status>, next: Status, prompted: bool, now: nat, later: nat)
    ensures var once := Applied(t, None, prev, next, prompted, now);
            Applied(once, None, Some(next), next, prompted, later) == once
  {
    if next == Status.Running && prompted {
      OnlyRunningOnce(t.items);
      CappedKeepsRunning(OnlyRunning(t.items));
      RunningStay(Capped(OnlyRunning(t.items)));
    }
  }

  /** A re-broadcast of the payload a row came from, whenever it arrives, leaves the row as it is: no new stamp, no new
      start, no receding completion. */
  lemma RebroadcastChangesNothing(prev: Option<Tracked>, p: StatusPayload, kind: Kind, tick: nat, now: nat, tick': nat,
                                  now': nat)
    requires p.tasks.None?
    ensures var row := RowAfter(prev, p, kind, tick, now);
            RowAfter(Some(row), p, kind, tick', now') == row
  {
    TaskMergeSettles(if prev.Some? then prev.value.tasks else NO_TASKS,
                     if prev.Some? then Some(prev.value.status) else None, p.status, p.task != [], now, now');
  }

  class StatusStore {
    const store: ObservationStore
    const kindOf: string -> Kind
    var suspects: map<PaneId, nat>

    constructor (kindOf: string -> Kind)
      ensures fresh(store) && store.rows == map[] && suspects == map[] && this.kindOf == kindOf
    {
      store := new ObservationStore();
      this.kindOf := kindOf;
      suspects := map[];
    }

    /** Back to the default store. */
    method Reset()
      modifies this, store
      ensures store.rows == map[] && suspects == map[]
    {
      store.rows := map[];
      suspects := map[];
    }

    /** Insert a snapshot-loaded row: no cap applies here. */
    method InsertSnapshot(id: PaneId, row: Tracked)
      modifies store
      ensures store.rows == old(store.rows)[id := row]
    {
      var _ := store.Insert(id, row);
    }

    predicate SuspectDue(id: PaneId, tick: nat)
      reads this
    {
      id in suspects && SatSub(tick, suspects[id]) >= RUNNING_SUSPECT_GRACE_TICKS
    }

    predicate Expires(id: PaneId, tick: nat)
      reads this, store
    {
      SuspectDue(id, tick) && id in store.rows && store.rows[id].status == Status.Running
    }

    /** Take in a payload. The old row recedes when a completion is overwritten by something else; the pane's grace
        clock stops, and so do those of the panes evicted. */
    method Apply(p: StatusPayload, tick: nat, now: nat) returns (prev: Option<Tracked>, recedes: bool)
      modifies this, store
      ensures prev == Lookup(old(store.rows), p.paneId)
      ensures recedes <==> prev.Some? && prev.value.status.IsCompletion()
                           && !(prev.value.status == p.status && prev.value.msg == p.msg)
      ensures Evicted(old(store.rows)[p.paneId := RowAfter(prev, p, kindOf(p.source), tick, now)], store.rows)
      ensures forall id :: Lookup(suspects, id)
                           == (if id == p.paneId || (id in old(store.rows) && id !in store.rows) then None
                               else Lookup(old(suspects), id))
    {
      suspects := suspects - {p.paneId};
      prev := Lookup(store.rows, p.paneId);
      recedes := prev.Some? && prev.value.status.IsCompletion()
                 && !(prev.value.status == p.status && prev.value.msg == p.msg);
      var _ := store.Insert(p.paneId, RowAfter(prev, p, kindOf(p.source), tick, now));
      EvictOverCap();
    }

    method FindOldest() returns (oldest: PaneId)
      requires store.rows != map[]
      ensures oldest in store.rows
      ensures forall id :: id in store.rows && id != oldest ==> Older(store.rows, oldest, id)
    {
      assert store.rows.Keys != {};
      oldest :| oldest in store.rows;
      var todo := store.rows.Keys - {oldest};
      while todo != {}
        invariant todo <= store.rows.Keys && oldest in store.rows && oldest !in todo
        invariant forall id :: id in store.rows && id !in todo && id != oldest ==> Older(store.rows, oldest, id)
        decreases |todo|
      {
        var id :| id in todo;
        todo := todo - {id};
        if Older(store.rows, id, oldest) {
          oldest := id;
        }
      }
    }

    method EvictOverCap()
      modifies this`suspects, store
      ensures Evicted(old(store.rows), store.rows)
      ensures forall id :: Lookup(suspects, id)
                           == (if id in old(store.rows) && id !in store.rows then None else Lookup(old(suspects), id))
    {
      ghost var rows := store.rows;
      while |store.rows| > MAX_TRACKED_PANES
        invariant forall id :: id in store.rows ==> id in rows && store.rows[id] == rows[id]
        invariant forall id :: Lookup(suspects, id)
                               == (if id in rows && id !in store.rows then None else Lookup(old(suspects), id))
        invariant forall gone, id :: gone in rows && gone !in store.rows && id in store.rows ==> Older(rows, gone, id)
        invariant if |rows| <= MAX_TRACKED_PANES then store.rows == rows else |store.rows| >= MAX_TRACKED_PANES
        decreases |store.rows|
      {
        var oldest := FindOldest();
        ghost var before := store.rows;
        store.Remove(oldest);
        OneFewer(before, oldest);
        suspects := suspects - {oldest};
      }
    }

    /** Back at the shell prompt: a running row's grace clock starts, any other but an idle one is cleared. */
    method ClearOnPromptReturn(id: PaneId, tick: nat) returns (receded: Option<Tracked>)
      modifies this`suspects, store
      ensures receded == (if ClearsOnReturn(Lookup(old(store.rows), id)) then Lookup(old(store.rows), id) else None)
      ensures store.rows == (if receded.Some? then old(store.rows)[id := Idled(receded.value, tick)]
                             else old(store.rows))
      ensures suspects == (if id in old(store.rows) && old(store.rows)[id].status == Status.Running
                           && id !in old(suspects)
                           then old(suspects)[id := tick] else old(suspects))
    {
      receded := None;
      if id !in store.rows {
        return;
      }
      var prev := store.rows[id];
      if prev.status == Status.Running {
        if id !in suspects {
          suspects := suspects[id := tick];
        }
        return;
      }
      if prev.status != Status.Idle {
        receded := Some(prev);
        var _ := store.Insert(id, Idled(prev, tick));
      }
    }

    method CancelRunningSuspect(id: PaneId)
      modifies this`suspects
      ensures suspects == old(suspects) - {id}
    {
      suspects := suspects - {id};
    }

    /** The pane's root process died. */
    method ClearOnExit(id: PaneId, tick: nat) returns (receded: Option<Tracked>)
      modifies this`suspects, store
      ensures receded == (if ClearsOnExit(Lookup(old(store.rows), id)) then Lookup(old(store.rows), id) else None)
      ensures store.rows == (if receded.Some? then old(store.rows)[id := Idled(receded.value, tick)]
                             else old(store.rows))
      ensures suspects == old(suspects) - {id}
    {
      suspects := suspects - {id};
      receded := None;
      if id in store.rows && store.rows[id].status != Status.Idle {
        receded := Some(store.rows[id]);
        var _ := store.Insert(id, Idled(store.rows[id], tick));
      }
    }

    /** Clear the running rows whose grace has run out. */
    method ExpireStaleRunning(tick: nat) returns (cleared: set<PaneId>)
      modifies this`suspects, store
      ensures forall id :: id in cleared <==> old(Expires(id, tick))
      ensures forall id :: Lookup(store.rows, id)
                           == (if old(Expires(id, tick)) then Some(Idled(old(store.rows)[id], tick))
                               else Lookup(old(store.rows), id))
      ensures forall id :: Lookup(suspects, id) == (if old(SuspectDue(id, tick)) then None
                                                    else Lookup(old(suspects), id))
    {
      ghost var rows, clocks := store.rows, suspects;
      var todo := set id | id in suspects && SatSub(tick, suspects[id]) >= RUNNING_SUSPECT_GRACE_TICKS;
      ghost var due := todo;
      cleared := {};
      while todo != {}
        invariant todo <= due
        invariant forall id :: id in cleared <==> id in due - todo && id in rows && rows[id].status == Status.Running
        invariant forall id :: Lookup(store.rows, id)
                               == (if id in cleared then Some(Idled(rows[id], tick)) else Lookup(rows, id))
        invariant suspects == clocks - (due - todo)
        decreases |todo|
      {
        var id :| id in todo;
        todo := todo - {id};
        assert Lookup(store.rows, id) == Lookup(rows, id);
        var gone := ExpireOne(id, tick);
        if gone {
          cleared := cleared + {id};
        }
      }
    }

    method ExpireOne(id: PaneId, tick: nat) returns (cleared: bool)
      modifies this`suspects, store
      ensures suspects == old(suspects) - {id}
      ensures cleared <==> id in old(store.rows) && old(store.rows)[id].status == Status.Running
      ensures store.rows == if cleared then old(store.rows)[id := Idled(old(store.rows)[id], tick)] else old(store.rows)
    {
      suspects := suspects - {id};
      cleared := id in store.rows && store.rows[id].status == Status.Running;
      if cleared {
        var _ := store.Insert(id, Idled(store.rows[id], tick));
      }
    }

    method Prune(live: set<PaneId>) returns (dropped: Drops)
      modifies this`suspects, store
      ensures forall id :: Lookup(store.rows, id) == (if id in live then Lookup(old(store.rows), id) else None)
      ensures forall id :: Lookup(dropped, id) == (if id in live then None else Lookup(old(store.rows), id))
      ensures forall id :: Lookup(suspects, id) == (if id in live then Lookup(old(suspects), id) else None)
    {
      suspects := map id | id in suspects && id in live :: suspects[id];
      dropped := store.Prune(live);
    }
  }

  lemma OneFewer(rows: map<PaneId, Tracked>, id: PaneId)
    requires id in rows
    ensures |rows - {id}| == |rows| - 1
  {
    assert (rows - {id}).Keys == rows.Keys - {id};
  }

  /** A store within its cap never evicts but to make room: a payload the store takes in without a trace - the row it
      left is the row it found - changed no row at all. */
  lemma NoTraceNoChange(rows: map<PaneId, Tracked>, kept: map<PaneId, Tracked>, id: PaneId, row: Tracked)
    requires |rows| <= MAX_TRACKED_PANES && Evicted(rows[id := row], kept) && Lookup(kept, id) == Lookup(rows, id)
    ensures kept == rows
  {
    var inserted := rows[id := row];
    if id in rows {
      assert inserted.Keys == rows.Keys && |inserted| == |rows|;
    } else {
      assert inserted.Keys == rows.Keys + {id} && |inserted| == |rows| + 1;
      assert id !in kept && kept.Keys <= rows.Keys;
      SameSize(kept.Keys, rows.Keys);
    }
  }

  /** Over the cap - a snapshot can load that many - taking in any payload evicts. */
  lemma OverCapEvicts(rows: map<PaneId, Tracked>, kept: map<PaneId, Tracked>, id: PaneId, row: Tracked)
    requires |rows| > MAX_TRACKED_PANES && Evicted(rows[id := row], kept)
    ensures kept != rows
  {
    assert rows.Keys <= rows[id := row].Keys;
    if id in rows {
      assert rows[id := row].Keys == rows.Keys;
    } else {
      assert rows[id := row].Keys == rows.Keys + {id};
    }
  }

  /** A payload that leaves its row as it was leaves every row exactly when the store is within its cap. */
  lemma CapDecides(rows: map<PaneId, Tracked>, kept: map<PaneId, Tracked>, id: PaneId, row: Tracked)
    requires Evicted(rows[id := row], kept) && Lookup(kept, id) == Lookup(rows, id)
    ensures kept == rows <==> |rows| <= MAX_TRACKED_PANES
    ensures forall x :: x in kept ==> x in rows && kept[x] == rows[x]
  {
    if |rows| <= MAX_TRACKED_PANES {
      NoTraceNoChange(rows, kept, id, row);
    } else {
      OverCapEvicts(rows, kept, id, row);
    }
  }

  lemma SameSize(a: set<PaneId>, b: set<PaneId>)
    requires a <= b && |a| >= |b|
    ensures a == b
  {
    if a != b {
      var x :| x in b && x !in a;
      ProperlySmaller(a, b, x);
    }
  }

  lemma {:induction false} ProperlySmaller(a: set<PaneId>, b: set<PaneId>, x: PaneId)
    requires a <= b && x in b && x !in a
    ensures |a| < |b|
    decreases a
  {
    if a != {} {
      var y :| y in a;
      ProperlySmaller(a - {y}, b - {y}, x);
    }
  }
}
