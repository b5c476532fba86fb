/** What a tab shows for its panes, in plain terms: the worst status, among equals a job before a service, then the
    latest change (crates/plugin/src/rollup.rs). Every status is written out. */
module RollupLaws {
  import opened Prelude
  import opened Vocabulary
  import opened Observation
  import opened CommandPane
  import opened Ledgers
  import opened Rollup

  predicate Any(observed: seq<Option<Tracked>>, s: Status) {
    exists k :: 0 <= k < |observed| && Is(observed[k], s)
  }

  predicate Is(o: Option<Tracked>, s: Status) {
    o.Some? && o.value.status == s
  }

  /** A service or a remote session: it never ends by itself. */
  predicate Steady(o: Tracked) {
    o.kind == Kind.Server || o.kind == Kind.Remote
  }

  // ----- the worst status -----

  lemma AnyOfMore(front: seq<Option<Tracked>>, last: Option<Tracked>, s: Status)
    ensures Any(front + [last], s) <==> Any(front, s) || Is(last, s)
  {
    var all := front + [last];
    if Any(front, s) {
      var k :| 0 <= k < |front| && Is(front[k], s);
      assert all[k] == front[k];
    }
    if Is(last, s) {
      assert all[|front|] == last;
    }
  }

  function Split(observed: seq<Option<Tracked>>): (r: (seq<Option<Tracked>>, Option<Tracked>))
    requires observed != []
    ensures observed == r.0 + [r.1] && r.0 == observed[..|observed| - 1] && |r.0| == |observed| - 1
  {
    (observed[..|observed| - 1], observed[|observed| - 1])
  }

  /** An error shows above all; a question when there is no error; work when there is neither; a completion only when
      nothing else is active; and nothing when nothing is. */
  lemma {:induction false} WorstStatusShows(observed: seq<Option<Tracked>>)
    ensures var detail := Summed(observed).detail;
            && (detail.Some? && detail.value.status == Status.Error <==> Any(observed, Status.Error))
            && (detail.Some? && detail.value.status == Status.Pending
                <==> Any(observed, Status.Pending) && !Any(observed, Status.Error))
            && (detail.Some? && detail.value.status == Status.Running
                <==> Any(observed, Status.Running) && !Any(observed, Status.Pending) && !Any(observed, Status.Error))
            && (detail.Some? && detail.value.status == Status.Done
                <==> Any(observed, Status.Done) && !Any(observed, Status.Running) && !Any(observed, Status.Pending)
                     && !Any(observed, Status.Error))
            && (detail.Some? ==> detail.value.status != Status.Idle)
  {
    if observed != [] {
      var (front, last) := Split(observed);
      WorstStatusShows(front);
      AnyOfMore(front, last, Status.Error);
      AnyOfMore(front, last, Status.Pending);
      AnyOfMore(front, last, Status.Running);
      AnyOfMore(front, last, Status.Done);
    }
  }

  // ----- whose detail it is -----

  /** The detail is this observation's. */
  predicate Describes(d: PrimaryDetail, o: Tracked) {
    d == PrimaryDetail(o.repo, o.branch, o.msg, o.task, o.lastChangeTick, o.status, o.kind, PaneOutcome(o),
                       o.pendingEpochS)
  }

  /** Of two observations of one status the first gives way: a service to a job; of two alike, the older change, and
      in the same tick the earlier pane. */
  predicate GivesWay(o: Tracked, w: Tracked, earlier: bool) {
    if Steady(o) != Steady(w) then Steady(o)
    else o.lastChangeTick < w.lastChangeTick || (o.lastChangeTick == w.lastChangeTick && earlier)
  }

  /** The `k`-th pane wins: it is active, and every other active one is less severe or gives way. */
  predicate Wins(observed: seq<Option<Tracked>>, k: nat)
    requires k < |observed|
  {
    && observed[k].Some? && observed[k].value.status != Status.Idle
    && forall j :: 0 <= j < |observed| && j != k && observed[j].Some?
                   && observed[j].value.status == observed[k].value.status ==>
         GivesWay(observed[j].value, observed[k].value, j < k)
  }

  lemma OutranksIsNotGivingWay(o: Tracked, w: Tracked, d: PrimaryDetail)
    requires Describes(d, w) && o.status == w.status
    ensures Outranks(o, d) <==> GivesWay(w, o, true)
    ensures Outranks(o, d) <==> !GivesWay(o, w, false)
  {
  }

  lemma GivingWayIsTransitive(a: Tracked, b: Tracked, c: Tracked, ab: bool, bc: bool, ac: bool)
    requires GivesWay(a, b, ab) && GivesWay(b, c, bc) && (ab && bc ==> ac)
    ensures GivesWay(a, c, ac)
  {
  }

  /** The detail a tab shows is that of the one pane that wins among those of the status shown. */
  lemma {:induction false} WinnerIsShown(observed: seq<Option<Tracked>>) returns (k: nat)
    ensures Summed(observed).detail.Some? ==>
              && k < |observed| && Wins(observed, k) && Describes(Summed(observed).detail.value, observed[k].value)
  {
    k := 0;
    if observed != [] {
      var (front, last) := Split(observed);
      k := WinnerIsShown(front);
      var before, after := Summed(front).detail, Summed(observed).detail;
      if last.Some? && last.value.status != Status.Idle && (before.None? || Outranks(last.value, before.value)) {
        LastWins(front, last.value, k);
        k := |front|;
      } else if before.Some? {
        StillWins(front, last, k);
      }
    }
  }

  lemma LastWins(front: seq<Option<Tracked>>, last: Tracked, k: nat)
    requires last.status != Status.Idle
    requires var d := Summed(front).detail;
             d.None? || (k < |front| && Wins(front, k) && Describes(d.value, front[k].value) && Outranks(last, d.value))
    ensures Wins(front + [Some(last)], |front|)
  {
    var all, d := front + [Some(last)], Summed(front).detail;
    WorstStatusShows(front);
    forall j | 0 <= j < |front| && front[j].Some? && front[j].value.status == last.status
      ensures GivesWay(front[j].value, last, true)
    {
      var o := front[j].value;
      assert Is(front[j], o.status) && Any(front, o.status);
      if d.value.status == last.status {
        OutranksIsNotGivingWay(last, front[k].value, d.value);
        if j != k {
          GivingWayIsTransitive(o, front[k].value, last, j < k, true, true);
        }
      }
    }
    assert forall j :: 0 <= j < |front| ==> all[j] == front[j];
  }

  lemma StillWins(front: seq<Option<Tracked>>, last: Option<Tracked>, k: nat)
    requires k < |front| && Wins(front, k) && Summed(front).detail.Some?
    requires Describes(Summed(front).detail.value, front[k].value)
    requires last.Some? ==> last.value.status == Status.Idle || !Outranks(last.value, Summed(front).detail.value)
    ensures Wins(front + [last], k)
  {
    var all := front + [last];
    if last.Some? && last.value.status == front[k].value.status {
      OutranksIsNotGivingWay(last.value, front[k].value, Summed(front).detail.value);
    }
    assert forall j :: 0 <= j < |front| ==> all[j] == front[j];
  }

  // ----- counts -----

  /** The panes of a tab that are so. */
  function Count(observed: seq<Option<Tracked>>, so: Tracked -> bool): nat {
    if observed == [] then 0
    else
      var last := observed[|observed| - 1];
      Count(observed[..|observed| - 1], so) + if last.Some? && so(last.value) then 1 else 0
  }

  /** The counts are of panes that were ever active: all, the completed, the asking. A tab animates when a job runs in
      it, and has a remote mark while a remote session runs. */
  lemma {:induction false} CountsAreExact(observed: seq<Option<Tracked>>)
    ensures var sum := Summed(observed);
            && sum.total == Count(observed, (o: Tracked) => o.everActive)
            && sum.done == Count(observed, (o: Tracked) => o.everActive && o.status == Status.Done)
            && sum.pending == Count(observed, (o: Tracked) => o.everActive && o.status == Status.Pending)
    ensures Summed(observed).animating
            <==> exists k :: 0 <= k < |observed| && Is(observed[k], Status.Running) && !Steady(observed[k].value)
    ensures Summed(observed).remote
            <==> exists k :: 0 <= k < |observed| && Is(observed[k], Status.Running)
                             && observed[k].value.kind == Kind.Remote
  {
    if observed != [] {
      var (front, last) := Split(observed);
      CountsAreExact(front);
      assert forall k :: 0 <= k < |front| ==> observed[k] == front[k];
      if Summed(front).animating {
        var k :| 0 <= k < |front| && Is(front[k], Status.Running) && !Steady(front[k].value);
        assert Is(observed[k], Status.Running);
      }
      if Summed(front).remote {
        var k :| 0 <= k < |front| && Is(front[k], Status.Running) && front[k].value.kind == Kind.Remote;
        assert Is(observed[k], Status.Running);
      }
      assert last.Some? ==> Is(observed[|front|], last.value.status);
    }
  }

  // ----- a pane's line -----

  /** Something to follow: a row that was active and is not idle. */
  predicate Busy(o: Option<Tracked>) {
    o.Some? && o.value.everActive && o.value.status != Status.Idle
  }

  /** A busy pane shows its row, whatever it waits in; another its quiet label, if it has one; without one an idle
      pane that was active shows its row, and the rest the pane's title. */
  lemma FaceIs(pane: TerminalPane, o: Option<Tracked>, quiet: Option<(string, Kind)>)
    ensures var face := Face(pane, o, quiet);
            && face.paneId == pane.id
            && (face.Interactive? <==> !Busy(o) && quiet.Some?)
            && (face.Interactive? ==> (face.msg, face.kind) == quiet.value)
            && (face.Followed? <==> Busy(o) || (quiet.None? && o.Some? && o.value.everActive))
            && (face.Untracked? ==> face.title == if IsBlank(pane.title) then "terminal" else pane.title)
  {
  }

  /** A row followed is shown as it is. Only an observed command has an outcome: success when done, failure with its
      code when in error. */
  lemma FollowedShowsRow(pane: TerminalPane, o: Tracked, quiet: Option<(string, Kind)>)
    ensures var face := Face(pane, Some(o), quiet);
            face.Followed? ==>
              && (face.kind, face.origin, face.status) == (o.kind, o.origin, o.status)
               && (face.msg, face.task) == (o.msg, o.task)
              && (face.sinceTick, face.acknowledged, face.tasks) == (o.lastChangeTick, o.acknowledged, o.tasks)
              && face.pendingEpochS == o.pendingEpochS
              && (face.outcome == Some(ExitOutcome.Ok) <==> o.origin == Origin.Observed && o.status == Status.Done)
              && (face.outcome == Some(Failed(o.exitCode)) <==> o.origin == Origin.Observed && o.status == Status.Error)
              && (face.outcome.None? <==> o.origin == Origin.StatusPipe || o.status !in {Status.Done, Status.Error})
  {
  }

  /** What is pushed for a pane hides what is observed in it. */
  lemma PushedHidesObserved(src: Sources, id: PaneId)
    ensures src.Resolve(id) == if id in src.status then Some(src.status[id])
                               else if id in src.command then Some(src.command[id])
                               else None
    ensures src.Quiet(id).Some? <==> id in src.pending && !src.pending[id].promotable
    ensures src.Quiet(id).Some? ==> src.Quiet(id).value == (src.pending[id].command, src.pending[id].kind)
  {
  }

  // ----- focus -----

  predicate FocusAt(panes: seq<TerminalPane>, k: nat, floating: bool) {
    && k < |panes| && panes[k].focusedInTab && panes[k].floating == floating
    && forall j :: 0 <= j < k ==> !(panes[j].focusedInTab && panes[j].floating == floating)
  }

  lemma {:induction false} FocusedInIsFirst(panes: seq<TerminalPane>, floating: bool)
    ensures var f := FocusedIn(panes, floating);
            && (f.Some? ==> exists k: nat :: FocusAt(panes, k, floating) && panes[k].id == f.value)
            && (f.None? <==> forall j :: 0 <= j < |panes| ==> !(panes[j].focusedInTab && panes[j].floating == floating))
  {
    if panes != [] && !(panes[0].focusedInTab && panes[0].floating == floating) {
      FocusedInIsFirst(panes[1..], floating);
      var f := FocusedIn(panes[1..], floating);
      assert forall j :: 1 <= j < |panes| ==> panes[j] == panes[1..][j - 1];
      if f.Some? {
        var k: nat :| FocusAt(panes[1..], k, floating) && panes[1..][k].id == f.value;
        assert FocusAt(panes, k + 1, floating);
      }
    } else if panes != [] {
      assert FocusAt(panes, 0, floating);
    }
  }

  /** The user's focus is in the first focused floating pane while floating panes show and one is focused, and in the
      first focused tiled pane otherwise. */
  lemma FocusIs(panes: seq<TerminalPane>, floatingVisible: bool)
    ensures var f := EffectiveFocus(panes, floatingVisible);
            var inFloating := floatingVisible
                              && exists j :: 0 <= j < |panes| && panes[j].focusedInTab && panes[j].floating;
            && (f.Some? ==> exists k: nat :: FocusAt(panes, k, inFloating) && panes[k].id == f.value)
            && (f.None? ==>
                  forall j :: 0 <= j < |panes| ==> !(panes[j].focusedInTab && panes[j].floating == inFloating))
  {
    FocusedInIsFirst(panes, true);
    FocusedInIsFirst(panes, false);
  }

  // ----- the rows -----

  /** Floating panes show in the tab that says so: the first one at the position. */
  lemma {:induction false} FloatingVisibleIs(tabs: seq<RadarTab>, position: nat, k: nat)
    requires k < |tabs| && tabs[k].position == position && forall j :: 0 <= j < k ==> tabs[j].position != position
    ensures FloatingVisibleAt(tabs, position) == tabs[k].floatingVisible
  {
    if k > 0 {
      FloatingVisibleIs(tabs[1..], position, k - 1);
    }
  }

  /** A row a tab, in their order: numbered from one, named, marked and flashing as the tab is, with its panes' lines in
      theirs, and the status of its detail. */
  lemma RowsAre(tabs: seq<RadarTab>, seating: Seating, src: Sources, lit: set<TabId>, k: nat)
    requires k < |tabs|
    ensures var rows, t := Rows(tabs, seating, src, lit), tabs[k];
            var panes, row := PanesAt(seating, t.position), rows[k];
            && |rows| == |tabs| && row.number == t.position + 1 && row.name == t.name && row.active == t.active
            && row.hasBell == t.hasBell && (row.flash <==> t.id in lit)
            && |row.display.faces| == |panes| && (t.position !in seating ==> panes == [])
            && (forall j :: 0 <= j < |panes| ==> row.display.faces[j].paneId == panes[j].id)
            && row.display.status ==
                 (if row.display.summary.detail.Some? then row.display.summary.detail.value.status else Status.Idle)
  {
  }
}
