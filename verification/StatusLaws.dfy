/** What a pane's pushed row says after any run of payloads, column by column, and the status store's clears in plain
    terms (crates/plugin/src/status_store.rs). */
module StatusLaws {
  import opened Prelude
  import opened Vocabulary
  import opened Tasks
  import opened TaskLaws
  import opened Observation
  import opened StatusStores
  import Wire

  /** A payload for the pane as it comes in, with the kind its source stands for. */
  datatype Arrival = Arrival(p: Wire.StatusPayload, kind: Kind, tick: nat, now: nat)

  /** The pane's row after them, from the one it had. */
  function RowOf(start: Option<Tracked>, arrivals: seq<Arrival>): Option<Tracked>
    decreases |arrivals|
  {
    if arrivals == [] then start
    else
      var a := arrivals[|arrivals| - 1];
      Some(RowAfter(RowOf(start, arrivals[..|arrivals| - 1]), a.p, a.kind, a.tick, a.now))
  }

  function Latest(arrivals: seq<Arrival>): Arrival
    requires arrivals != []
  {
    arrivals[|arrivals| - 1]
  }

  /** The status the pane had before the `k`-th arrival, if it had one. */
  function StatusBefore(start: Option<Tracked>, arrivals: seq<Arrival>, k: nat): Option<Status>
    requires k <= |arrivals|
  {
    if k > 0 then Some(arrivals[k - 1].p.status) else if start.Some? then Some(start.value.status) else None
  }

  function MsgBefore(start: Option<Tracked>, arrivals: seq<Arrival>, k: nat): Option<string>
    requires k <= |arrivals|
  {
    if k > 0 then Some(arrivals[k - 1].p.msg) else if start.Some? then Some(start.value.msg) else None
  }

  /** Status, texts, kind and acknowledgement are the latest payload's; the rest of a pushed row never varies. */
  lemma LatestColumns(start: Option<Tracked>, arrivals: seq<Arrival>)
    requires arrivals != []
    ensures var row, a := RowOf(start, arrivals).value, Latest(arrivals);
            && row.status == a.p.status && row.repo == a.p.repo && row.branch == a.p.branch && row.msg == a.p.msg
            && row.acknowledged == a.p.ack && row.kind == a.kind
            && row.origin == Origin.StatusPipe && row.exitCode.None?
  {
  }

  /** A row was ever active exactly when some payload said other than idle, or it was before. */
  lemma {:induction false} EverActiveExactly(start: Option<Tracked>, arrivals: seq<Arrival>)
    requires arrivals != []
    ensures RowOf(start, arrivals).value.everActive
            <==> (start.Some? && start.value.everActive)
                 || exists k :: 0 <= k < |arrivals| && arrivals[k].p.status != Status.Idle
    decreases |arrivals|
  {
    var front := arrivals[..|arrivals| - 1];
    assert arrivals == front + [Latest(arrivals)];
    if front != [] {
      EverActiveExactly(start, front);
    }
  }

  // ----- the sticky task label -----

  /** The `k`-th arrival brings a label, and none since replaced or reset it. */
  predicate LabelledAt(arrivals: seq<Arrival>, k: nat) {
    && k < |arrivals| && arrivals[k].p.status != Status.Idle && arrivals[k].p.task != ""
    && forall j :: k < j < |arrivals| ==> arrivals[j].p.status != Status.Idle && arrivals[j].p.task == ""
  }

  /** The row's task is the last non-empty one since the last idle payload. */
  lemma {:induction false} TaskIsSticky(start: Option<Tracked>, arrivals: seq<Arrival>, k: nat)
    requires LabelledAt(arrivals, k)
    ensures RowOf(start, arrivals).value.task == arrivals[k].p.task
    decreases |arrivals|
  {
    if k < |arrivals| - 1 {
      var front := arrivals[..|arrivals| - 1];
      assert LabelledAt(front, k);
      TaskIsSticky(start, front, k);
    }
  }

  /** With no such payload it is empty after an idle one, and what it was at the start otherwise. */
  lemma {:induction false} TaskIsReset(start: Option<Tracked>, arrivals: seq<Arrival>)
    requires arrivals != [] && forall k :: !LabelledAt(arrivals, k)
    ensures RowOf(start, arrivals).value.task ==
              if (exists k :: 0 <= k < |arrivals| && arrivals[k].p.status == Status.Idle) || start.None? then ""
              else start.value.task
    decreases |arrivals|
  {
    var a, front := Latest(arrivals), arrivals[..|arrivals| - 1];
    if a.p.status == Status.Idle {
      assert arrivals[|front|].p.status == Status.Idle;
    } else {
      assert !LabelledAt(arrivals, |front|);
      NoLabelInFront(arrivals, front);
      if front != [] {
        TaskIsReset(start, front);
      }
      assert forall k :: 0 <= k < |front| ==> arrivals[k] == front[k];
    }
  }

  lemma NoLabelInFront(arrivals: seq<Arrival>, front: seq<Arrival>)
    requires arrivals != [] && front == arrivals[..|arrivals| - 1]
    requires Latest(arrivals).p.status != Status.Idle && Latest(arrivals).p.task == ""
    requires forall k :: !LabelledAt(arrivals, k)
    ensures forall k :: !LabelledAt(front, k)
  {
    forall k: nat ensures !LabelledAt(front, k) {
      if LabelledAt(front, k) {
        assert forall j :: k < j < |arrivals| ==> arrivals[j].p.status != Status.Idle && arrivals[j].p.task == "";
        assert LabelledAt(arrivals, k);
      }
    }
  }

  // ----- ticks and stamps -----

  /** From the `k`-th arrival on the status is the latest one, and before it was another. */
  predicate StatusSince(start: Option<Tracked>, arrivals: seq<Arrival>, k: nat) {
    && k < |arrivals| && StatusBefore(start, arrivals, k) != Some(Latest(arrivals).p.status)
    && forall j :: k <= j < |arrivals| ==> arrivals[j].p.status == Latest(arrivals).p.status
  }

  lemma StatusOf(start: Option<Tracked>, arrivals: seq<Arrival>)
    ensures RowOf(start, arrivals).None? <==> arrivals == [] && start.None?
    ensures var row := RowOf(start, arrivals);
            row.Some? ==> StatusBefore(start, arrivals, |arrivals|) == Some(row.value.status)
                          && MsgBefore(start, arrivals, |arrivals|) == Some(row.value.msg)
  {
  }

  /** The row changed last when the current status began: further payloads of it do not count. */
  lemma {:induction false} ChangedWhenStatusBegan(start: Option<Tracked>, arrivals: seq<Arrival>, k: nat)
    requires StatusSince(start, arrivals, k)
    ensures RowOf(start, arrivals).value.lastChangeTick == arrivals[k].tick
    decreases |arrivals|
  {
    var front := arrivals[..|arrivals| - 1];
    StatusOf(start, front);
    if k == |front| {
      assert k > 0 ==> front[k - 1] == arrivals[k - 1];
    } else {
      assert Latest(front) == arrivals[|front| - 1];
      assert StatusBefore(start, front, k) == StatusBefore(start, arrivals, k);
      ChangedWhenStatusBegan(start, front, k);
    }
  }

  /** From the `k`-th arrival on status and message are the latest ones, and before one of them was another. */
  predicate SaidSince(start: Option<Tracked>, arrivals: seq<Arrival>, k: nat) {
    && k < |arrivals|
    && (StatusBefore(start, arrivals, k) != Some(Latest(arrivals).p.status)
        || MsgBefore(start, arrivals, k) != Some(Latest(arrivals).p.msg))
    && forall j :: k <= j < |arrivals| ==>
         arrivals[j].p.status == Latest(arrivals).p.status && arrivals[j].p.msg == Latest(arrivals).p.msg
  }

  /** A completion is stamped when it was first said, and a question when it was first asked: saying the same again
      moves neither stamp, another message takes a new one. Nothing else carries one. */
  lemma {:induction false} StampedWhenFirstSaid(start: Option<Tracked>, arrivals: seq<Arrival>, k: nat)
    requires SaidSince(start, arrivals, k)
    ensures var row, at := RowOf(start, arrivals).value, Some(arrivals[k].now);
            && row.completedEpochS == (if row.status == Status.Done || row.status == Status.Error then at else None)
            && row.pendingEpochS == (if row.status == Status.Pending then at else None)
    decreases |arrivals|
  {
    var front := arrivals[..|arrivals| - 1];
    StatusOf(start, front);
    if k == |front| {
      assert k > 0 ==> front[k - 1] == arrivals[k - 1];
    } else {
      assert Latest(front) == arrivals[|front| - 1];
      assert StatusBefore(start, front, k) == StatusBefore(start, arrivals, k);
      assert MsgBefore(start, front, k) == MsgBefore(start, arrivals, k);
      StampedWhenFirstSaid(start, front, k);
    }
  }

  /** A row that said so all along keeps its tick and its stamps. */
  lemma {:induction false} KeptAllAlong(start: Tracked, arrivals: seq<Arrival>)
    requires forall k :: 0 <= k < |arrivals| ==> arrivals[k].p.status == start.status
    ensures var row := RowOf(Some(start), arrivals).value;
            && row.lastChangeTick == start.lastChangeTick
            && ((forall k :: 0 <= k < |arrivals| ==> arrivals[k].p.msg == start.msg) ==>
                  && (start.status.Done? || start.status.Error? ==> row.completedEpochS == start.completedEpochS)
                  && (start.status.Pending? ==> row.pendingEpochS == start.pendingEpochS))
    decreases |arrivals|
  {
    if arrivals != [] {
      var front := arrivals[..|arrivals| - 1];
      KeptAllAlong(start, front);
      StatusOf(Some(start), front);
      assert front != [] ==> Latest(front) == arrivals[|front| - 1];
    }
  }

  // ----- background tasks -----

  /** What an arrival is to the task list: a label of its own makes it a prompt. */
  function TaskPayload(arrivals: seq<Arrival>, k: nat): Payload
    requires k < |arrivals|
  {
    var a := arrivals[k];
    Payload(a.p.tasks, StatusBefore(None, arrivals, k), a.p.status, a.p.task != "", a.now)
  }

  function TaskPayloads(arrivals: seq<Arrival>): seq<Payload> {
    seq(|arrivals|, k requires 0 <= k < |arrivals| => TaskPayload(arrivals, k))
  }

  /** The row's tasks are what the merge rule makes of the run. */
  lemma {:induction false} TasksFollow(arrivals: seq<Arrival>)
    requires arrivals != []
    ensures RowOf(None, arrivals).value.tasks == Run(TaskPayloads(arrivals))
    decreases |arrivals|
  {
    var front := arrivals[..|arrivals| - 1];
    StatusOf(None, front);
    assert TaskPayloads(arrivals)[..|front|] == TaskPayloads(front);
    if front != [] {
      TasksFollow(front);
      assert Latest(front) == arrivals[|front| - 1];
    }
  }

  // ----- clears -----

  /** A cleared row keeps who it was and where, and nothing of what it said. */
  lemma ClearedRow(row: Tracked, tick: nat)
    ensures var r := Idled(row, tick);
            && r.repo == row.repo && r.branch == row.branch && r.kind == row.kind && r.origin == Origin.StatusPipe
            && r.status == Status.Idle && r.msg == "" && r.task == "" && r.lastChangeTick == tick && r.everActive
            && r.completedEpochS.None? && r.pendingEpochS.None? && r.exitCode.None? && !r.acknowledged
            && r.tasks.items == [] && !r.tasks.waiting
  {
  }

  /** Back at the prompt a question, a completion or an error is cleared; work in progress is not. A dead pane clears
      that too. An idle row stays in both. */
  lemma WhatClears(row: Tracked)
    ensures ClearsOnReturn(Some(row)) <==> row.status in {Status.Pending, Status.Done, Status.Error}
    ensures ClearsOnExit(Some(row)) <==> row.status in {Status.Running, Status.Pending, Status.Done, Status.Error}
    ensures !ClearsOnReturn(None) && !ClearsOnExit(None)
  {
  }

  /** The grace of a running row back at the prompt is fifteen ticks; only a row still running expires then. */
  lemma GraceIsFifteenTicks(s: StatusStore, id: PaneId, tick: nat)
    ensures s.SuspectDue(id, tick) <==> id in s.suspects && tick >= s.suspects[id] + 15
    ensures s.Expires(id, tick)
            <==> s.SuspectDue(id, tick) && Lookup(s.store.rows, id).Some?
                 && s.store.rows[id].status == Status.Running
  {
  }

  /** Over two hundred and fifty-six rows the oldest go: what is gone changed before what is kept, or in the same tick
      and under a smaller pane id. */
  lemma EvictionKeepsNewest(rows: map<PaneId, Tracked>, kept: map<PaneId, Tracked>, gone: PaneId, id: PaneId)
    requires Evicted(rows, kept) && gone in rows && gone !in kept && id in kept
    ensures |rows| > 256 && |kept| == 256
    ensures rows[gone].lastChangeTick < rows[id].lastChangeTick
            || (rows[gone].lastChangeTick == rows[id].lastChangeTick && gone < id)
  {
  }
}
