/** The rail's rows (crates/plugin/src/rollup.rs and `RadarState::rows_uncached`): each tab's panes rolled up from the
    observation and the quiet identity of every pane. */
module Rollup {
  import opened Prelude
  import opened Vocabulary
  import opened Tasks
  import opened Observation
  import opened CommandPane
  import opened Ledgers

  datatype TerminalPane = TerminalPane(id: PaneId, title: string, focusedInTab: bool, floating: bool)

  datatype RadarTab = RadarTab(
    id: TabId, position: nat, name: string, active: bool, hasBell: bool, floatingVisible: bool)

  datatype ExitOutcome = Ok | Failed(code: Option<int>)

  /** A pane's line: its observation, the command it waits in, or nothing. */
  datatype PaneFace =
    | Followed(paneId: PaneId, kind: Kind, origin: Origin, status: Status, msg: string, task: string, sinceTick: nat,
               outcome: Option<ExitOutcome>, pendingEpochS: Option<nat>, acknowledged: bool, tasks: TaskList)
    | Untracked(paneId: PaneId, title: string)
    | Interactive(paneId: PaneId, kind: Kind, msg: string)

  datatype PrimaryDetail = PrimaryDetail(
    repo: string, branch: string, msg: string, task: string, sinceTick: nat, status: Status, kind: Kind,
    outcome: Option<ExitOutcome>, pendingEpochS: Option<nat>)

  /** What a tab's observations add up to. */
  datatype Summary = Summary(
    detail: Option<PrimaryDetail>, done: nat, total: nat, pending: nat, animating: bool, remote: bool)

  datatype TabDisplay = TabDisplay(status: Status, summary: Summary, faces: seq<PaneFace>, focusedPane: Option<PaneId>)

  datatype TabRow = TabRow(
    number: nat, name: string, active: bool, hasBell: bool, flash: bool, display: TabDisplay)

  // ----- roll-up -----

  function PaneOutcome(o: Tracked): Option<ExitOutcome> {
    if o.origin != Origin.Observed then None
    else if o.status == Status.Done then Some(ExitOutcome.Ok)
    else if o.status == Status.Error then Some(ExitOutcome.Failed(o.exitCode))
    else None
  }

  /** Whether a quiet identity outranks what is observed. */
  predicate YieldsToQuiet(o: Option<Tracked>) {
    o.None? || !o.value.everActive || o.value.status == Status.Idle
  }

  function Face(pane: TerminalPane, o: Option<Tracked>, quiet: Option<(string, Kind)>): PaneFace {
    if YieldsToQuiet(o) && quiet.Some? then Interactive(pane.id, quiet.value.1, quiet.value.0)
    else if o.None? || !o.value.everActive then
      Untracked(pane.id, if IsBlank(pane.title) then "terminal" else pane.title)
    else
      var s := o.value;
      Followed(pane.id, s.kind, s.origin, s.status, s.msg, s.task, s.lastChangeTick, PaneOutcome(s), s.pendingEpochS,
               s.acknowledged, s.tasks)
  }

  function Severity(s: Status): nat {
    match s
    case Idle => 0 case Done => 1 case Running => 2 case Pending => 3 case Error => 4
  }

  /** The lexicographic compare of (status, job before steady, tick); a full tie goes to the later pane. */
  predicate Outranks(s: Tracked, d: PrimaryDetail) {
    if s.status != d.status then Severity(s.status) > Severity(d.status)
    else if s.kind.IsSteady() != d.kind.IsSteady() then d.kind.IsSteady()
    else s.lastChangeTick >= d.sinceTick
  }

  function Counted(sum: Summary, o: Option<Tracked>): Summary {
    if o.None? then sum
    else
      var s := o.value;
      var wins := s.status != Status.Idle && (sum.detail.None? || Outranks(s, sum.detail.value));
      Summary(
        if wins then
          Some(PrimaryDetail(s.repo, s.branch, s.msg, s.task, s.lastChangeTick, s.status, s.kind, PaneOutcome(s),
                             s.pendingEpochS))
        else sum.detail,
        sum.done + (if s.everActive && s.status == Status.Done then 1 else 0),
        sum.total + (if s.everActive then 1 else 0),
        sum.pending + (if s.everActive && s.status == Status.Pending then 1 else 0),
        sum.animating || s.Animating(),
        sum.remote || (s.kind.IsRemote() && s.status == Status.Running))
  }

  function Summed(observed: seq<Option<Tracked>>): Summary {
    if observed == [] then Summary(None, 0, 0, 0, false, false)
    else Counted(Summed(observed[..|observed| - 1]), observed[|observed| - 1])
  }

  function FocusedIn(panes: seq<TerminalPane>, floating: bool): Option<PaneId> {
    if panes == [] then None
    else if panes[0].focusedInTab && panes[0].floating == floating then Some(panes[0].id)
    else FocusedIn(panes[1..], floating)
  }

  function EffectiveFocus(panes: seq<TerminalPane>, floatingVisible: bool): Option<PaneId> {
    if floatingVisible && FocusedIn(panes, true).Some? then FocusedIn(panes, true) else FocusedIn(panes, false)
  }

  /** A tab's detail is its most severe observation, if any is active; its counts are consistent. */
  lemma {:induction false} MostSevereWins(observed: seq<Option<Tracked>>)
    ensures var sum := Summed(observed);
            && (sum.detail.None? <==>
                  forall k :: 0 <= k < |observed| ==> observed[k].None? || observed[k].value.status == Status.Idle)
            && (forall k :: 0 <= k < |observed| && observed[k].Some? && sum.detail.Some? ==>
                  Severity(observed[k].value.status) <= Severity(sum.detail.value.status))
            && (sum.detail.Some? ==> exists k :: 0 <= k < |observed| && observed[k].Some?
                                                 && observed[k].value.status == sum.detail.value.status
                                                 && observed[k].value.msg == sum.detail.value.msg
                                                 && observed[k].value.kind == sum.detail.value.kind)
            && sum.done + sum.pending <= sum.total <= |observed|
  {
    if observed != [] {
      var front, last := observed[..|observed| - 1], observed[|observed| - 1];
      MostSevereWins(front);
      assert forall k :: 0 <= k < |front| ==> front[k] == observed[k];
      var before, after := Summed(front), Summed(observed);
      assert after == Counted(before, last);
      if after.detail.Some? && after.detail == before.detail {
        var k :| 0 <= k < |front| && front[k].Some? && front[k].value.status == before.detail.value.status
                 && front[k].value.msg == before.detail.value.msg && front[k].value.kind == before.detail.value.kind;
        assert observed[k] == front[k];
      }
    }
  }

  // ----- what the rows are computed from -----

  /** The two stores as the rows see them. */
  datatype Sources = Sources(
    status: map<PaneId, Tracked>, command: map<PaneId, Tracked>, pending: map<PaneId, PendingCommand>)
  {
    /** A pushed status wins over an observed command. */
    function Resolve(id: PaneId): Option<Tracked> {
      if id in status then Some(status[id]) else Lookup(command, id)
    }

    function Quiet(id: PaneId): Option<(string, Kind)> {
      QuietIdentity(Pane(None, Lookup(pending, id), None, None))
    }
  }

  type Seating = map<nat, seq<TerminalPane>>

  function PanesAt(seating: Seating, position: nat): seq<TerminalPane> {
    if position in seating then seating[position] else []
  }

  function FloatingVisibleAt(tabs: seq<RadarTab>, position: nat): bool {
    if tabs == [] then false
    else if tabs[0].position == position then tabs[0].floatingVisible
    else FloatingVisibleAt(tabs[1..], position)
  }

  function Faces(panes: seq<TerminalPane>, src: Sources): seq<PaneFace> {
    seq(|panes|, k requires 0 <= k < |panes| => Face(panes[k], src.Resolve(panes[k].id), src.Quiet(panes[k].id)))
  }

  function Observed(panes: seq<TerminalPane>, src: Sources): seq<Option<Tracked>> {
    seq(|panes|, k requires 0 <= k < |panes| => src.Resolve(panes[k].id))
  }

  function Display(tabs: seq<RadarTab>, seating: Seating, position: nat, src: Sources): TabDisplay {
    var panes := PanesAt(seating, position);
    var sum := Summed(Observed(panes, src));
    TabDisplay(if sum.detail.Some? then sum.detail.value.status else Status.Idle, sum, Faces(panes, src),
               EffectiveFocus(panes, FloatingVisibleAt(tabs, position)))
  }

  function Row(tabs: seq<RadarTab>, seating: Seating, t: RadarTab, src: Sources, lit: set<TabId>): TabRow {
    TabRow(t.position + 1, t.name, t.active, t.hasBell, t.id in lit, Display(tabs, seating, t.position, src))
  }

  /** The rows, with the tabs in `lit` mid-flash. */
  function Rows(tabs: seq<RadarTab>, seating: Seating, src: Sources, lit: set<TabId>): seq<TabRow> {
    seq(|tabs|, k requires 0 <= k < |tabs| => Row(tabs, seating, tabs[k], src, lit))
  }

  // ----- what the rows depend on -----

  /** The sources look the same to the rows. */
  ghost predicate Alike(a: Sources, b: Sources) {
    forall id :: a.Resolve(id) == b.Resolve(id) && a.Quiet(id) == b.Quiet(id)
  }

  lemma AlikeRows(tabs: seq<RadarTab>, seating: Seating, a: Sources, b: Sources, lit: set<TabId>)
    requires Alike(a, b)
    ensures Rows(tabs, seating, a, lit) == Rows(tabs, seating, b, lit)
  {
    forall position: nat ensures Display(tabs, seating, position, a) == Display(tabs, seating, position, b) {
      var panes := PanesAt(seating, position);
      assert Faces(panes, a) == Faces(panes, b);
      assert Observed(panes, a) == Observed(panes, b);
    }
  }

  /** The pane sits in a tab on the rail. */
  predicate OnRail(tabs: seq<RadarTab>, seating: Seating, id: PaneId) {
    exists k, j :: 0 <= k < |tabs| && 0 <= j < |PanesAt(seating, tabs[k].position)|
                   && PanesAt(seating, tabs[k].position)[j].id == id
  }

  /** Sources that track the same: only what is pending may differ. */
  predicate SameTracked(a: Sources, b: Sources) {
    a.status == b.status && a.command == b.command
  }

  /** The second sources are the first with pushed rows evicted, and whatever pending. */
  ghost predicate Trails(a: Sources, b: Sources) {
    a.command == b.command && forall id :: id in b.status ==> id in a.status && b.status[id] == a.status[id]
  }

  predicate Lost(a: Sources, b: Sources, id: PaneId) {
    id in a.status && id !in b.status
  }

  /** Nothing tracked outranks the pane's quiet identity, and that differs. */
  predicate Mislabeled(a: Sources, b: Sources, id: PaneId) {
    a.Quiet(id) != b.Quiet(id) && YieldsToQuiet(a.Resolve(id))
  }

  /** An evicted pane has the same face from the command store; any other is labelled as it was. */
  predicate FaceStays(pane: TerminalPane, a: Sources, b: Sources) {
    var id := pane.id;
    if Lost(a, b, id)
    then Face(pane, Some(a.status[id]), a.Quiet(id)) == Face(pane, Lookup(b.command, id), b.Quiet(id))
    else !Mislabeled(a, b, id)
  }

  predicate FacesStay(panes: seq<TerminalPane>, a: Sources, b: Sources) {
    forall j :: 0 <= j < |panes| ==> FaceStays(panes[j], a, b)
  }

  /** The panes of the tab show what they did, and the tab adds up to the same. */
  ghost predicate TabStays(panes: seq<TerminalPane>, a: Sources, b: Sources) {
    FacesStay(panes, a, b) && Summed(Observed(panes, a)) == Summed(Observed(panes, b))
  }

  ghost predicate RailStays(tabs: seq<RadarTab>, seating: Seating, a: Sources, b: Sources) {
    forall k :: 0 <= k < |tabs| ==> TabStays(PanesAt(seating, tabs[k].position), a, b)
  }

  lemma FaceShowsQuiet(pane: TerminalPane, o: Option<Tracked>, p: Option<(string, Kind)>, q: Option<(string, Kind)>)
    ensures Face(pane, o, p) == Face(pane, o, q) <==> p == q || !YieldsToQuiet(o)
    ensures Face(pane, o, p) != Face(pane, o, q) ==> Face(pane, o, p).Interactive? || Face(pane, o, q).Interactive?
  {
  }

  lemma FacesStayIff(panes: seq<TerminalPane>, a: Sources, b: Sources)
    requires Trails(a, b)
    ensures FacesStay(panes, a, b) <==> Faces(panes, a) == Faces(panes, b)
  {
    forall j | 0 <= j < |panes| ensures Faces(panes, a)[j] == Faces(panes, b)[j] <==> FaceStays(panes[j], a, b) {
      var id := panes[j].id;
      if !Lost(a, b, id) {
        assert a.Resolve(id) == b.Resolve(id);
        FaceShowsQuiet(panes[j], a.Resolve(id), a.Quiet(id), b.Quiet(id));
      }
    }
    assert Faces(panes, a) == Faces(panes, b) <==>
             forall j :: 0 <= j < |panes| ==> Faces(panes, a)[j] == Faces(panes, b)[j];
  }

  /** After evictions and foreground changes the rows are the same exactly when the rail stays: pane by pane in its
      faces, tab by tab in its summaries. */
  lemma RailStaysIff(tabs: seq<RadarTab>, seating: Seating, a: Sources, b: Sources, lit: set<TabId>)
    requires Trails(a, b)
    ensures Rows(tabs, seating, a, lit) == Rows(tabs, seating, b, lit) <==> RailStays(tabs, seating, a, b)
  {
    var ra, rb := Rows(tabs, seating, a, lit), Rows(tabs, seating, b, lit);
    forall k | 0 <= k < |tabs| ensures ra[k] == rb[k] <==> TabStays(PanesAt(seating, tabs[k].position), a, b) {
      FacesStayIff(PanesAt(seating, tabs[k].position), a, b);
    }
    assert ra == rb <==> forall k :: 0 <= k < |tabs| ==> ra[k] == rb[k];
  }

  /** So it stays for sources that look the same. */
  lemma RailStaysAlike(tabs: seq<RadarTab>, seating: Seating, a: Sources, b: Sources, c: Sources)
    requires Trails(a, b) && Trails(a, c) && Alike(b, c)
    ensures RailStays(tabs, seating, a, b) <==> RailStays(tabs, seating, a, c)
  {
    RailStaysIff(tabs, seating, a, b, {});
    RailStaysIff(tabs, seating, a, c, {});
    AlikeRows(tabs, seating, b, c, {});
  }

  /** And where it stayed so far, it stays to the end exactly when it does from there. */
  lemma RailStaysFrom(tabs: seq<RadarTab>, seating: Seating, a: Sources, b: Sources, c: Sources)
    requires Trails(a, b) && Trails(b, c) && RailStays(tabs, seating, a, b)
    ensures Trails(a, c) && (RailStays(tabs, seating, a, c) <==> RailStays(tabs, seating, b, c))
  {
    RailStaysIff(tabs, seating, a, b, {});
    RailStaysIff(tabs, seating, b, c, {});
    RailStaysIff(tabs, seating, a, c, {});
  }

  // ----- labels -----

  /** Rows alike but for the lines of panes that wait in a quiet command in one of them. */
  predicate SameButLabels(x: seq<TabRow>, y: seq<TabRow>) {
    |x| == |y| && forall k :: 0 <= k < |x| ==> RowSameButLabels(x[k], y[k])
  }

  predicate RowSameButLabels(x: TabRow, y: TabRow) {
    var (u, v) := (x.display.faces, y.display.faces);
    && x == y.(display := y.display.(faces := u)) && |u| == |v|
    && forall j :: 0 <= j < |u| ==> u[j] == v[j] || u[j].Interactive? || v[j].Interactive?
  }

  /** No pane on the rail is mislabeled. */
  ghost predicate WellLabeled(tabs: seq<RadarTab>, seating: Seating, a: Sources, b: Sources) {
    forall id :: OnRail(tabs, seating, id) ==> !Mislabeled(a, b, id)
  }

  /** What is pending reaches the rows in labels alone, and exactly when a pane on the rail is mislabeled. */
  lemma LabelsReachTheRows(tabs: seq<RadarTab>, seating: Seating, a: Sources, b: Sources, lit: set<TabId>)
    requires SameTracked(a, b)
    ensures SameButLabels(Rows(tabs, seating, a, lit), Rows(tabs, seating, b, lit))
    ensures Rows(tabs, seating, a, lit) == Rows(tabs, seating, b, lit) <==> WellLabeled(tabs, seating, a, b)
    ensures RailStays(tabs, seating, a, b) <==> WellLabeled(tabs, seating, a, b)
  {
    var ra, rb := Rows(tabs, seating, a, lit), Rows(tabs, seating, b, lit);
    forall k | 0 <= k < |tabs| ensures RowSameButLabels(ra[k], rb[k]) {
      LabelsReachRow(tabs, seating, k, a, b, lit);
    }
    RailStaysIff(tabs, seating, a, b, lit);
    LabelsOnTheRail(tabs, seating, a, b);
  }

  lemma LabelsReachRow(tabs: seq<RadarTab>, seating: Seating, k: nat, a: Sources, b: Sources, lit: set<TabId>)
    requires SameTracked(a, b) && k < |tabs|
    ensures RowSameButLabels(Row(tabs, seating, tabs[k], a, lit), Row(tabs, seating, tabs[k], b, lit))
  {
    var panes := PanesAt(seating, tabs[k].position);
    var u, v := Faces(panes, a), Faces(panes, b);
    assert Observed(panes, a) == Observed(panes, b);
    forall j | 0 <= j < |panes| ensures u[j] == v[j] || u[j].Interactive? || v[j].Interactive? {
      FaceShowsQuiet(panes[j], a.Resolve(panes[j].id), a.Quiet(panes[j].id), b.Quiet(panes[j].id));
    }
  }

  lemma LabelsOnTheRail(tabs: seq<RadarTab>, seating: Seating, a: Sources, b: Sources)
    requires SameTracked(a, b)
    ensures RailStays(tabs, seating, a, b) <==> WellLabeled(tabs, seating, a, b)
  {
    forall k | 0 <= k < |tabs| && WellLabeled(tabs, seating, a, b)
      ensures TabStays(PanesAt(seating, tabs[k].position), a, b)
    {
      var panes := PanesAt(seating, tabs[k].position);
      assert Observed(panes, a) == Observed(panes, b);
      assert forall j :: 0 <= j < |panes| ==> OnRail(tabs, seating, panes[j].id);
    }
    forall id | RailStays(tabs, seating, a, b) && OnRail(tabs, seating, id) ensures !Mislabeled(a, b, id) {
      var k, j :| 0 <= k < |tabs| && 0 <= j < |PanesAt(seating, tabs[k].position)|
                  && PanesAt(seating, tabs[k].position)[j].id == id;
      assert FacesStay(PanesAt(seating, tabs[k].position), a, b);
      assert FaceStays(PanesAt(seating, tabs[k].position)[j], a, b);
    }
  }

  // ----- evictions -----

  /** Each store's rows have its origin; a pushed row that was never active is idle, and an observed one was active. */
  ghost predicate Genuine(src: Sources) {
    && (forall id :: id in src.status ==> GenuinePushed(src.status[id]))
    && (forall id :: id in src.command ==> GenuineObserved(src.command[id]))
  }

  predicate GenuinePushed(row: Tracked) {
    row.origin == Origin.StatusPipe && (row.everActive || row.status == Status.Idle)
  }

  predicate GenuineObserved(row: Tracked) {
    row.origin == Origin.Observed && row.everActive
  }

  predicate Resting(o: Option<Tracked>) {
    o.None? || o.value.status == Status.Idle
  }

  /** A pushed row and an observed one make the same face only at rest. */
  lemma SameFaceIsResting(pane: TerminalPane, pushed: Tracked, o: Option<Tracked>, p: Option<(string, Kind)>,
                          q: Option<(string, Kind)>)
    requires GenuinePushed(pushed) && (o.Some? ==> GenuineObserved(o.value))
    requires Face(pane, Some(pushed), p) == Face(pane, o, q)
    ensures Resting(Some(pushed)) && Resting(o)
  {
  }

  lemma RestingCountsTotal(s: Summary, t: Summary, o: Option<Tracked>, p: Option<Tracked>)
    requires s.(total := 0) == t.(total := 0) && (o == p || (Resting(o) && Resting(p)))
    ensures Counted(s, o).(total := 0) == Counted(t, p).(total := 0)
  {
  }

  lemma SummedLast(panes: seq<TerminalPane>, src: Sources)
    requires panes != []
    ensures var n := |panes| - 1;
            Summed(Observed(panes, src)) == Counted(Summed(Observed(panes[..n], src)), src.Resolve(panes[n].id))
  {
    assert Observed(panes, src)[..|panes| - 1] == Observed(panes[..|panes| - 1], src);
  }

  /** Of a tab whose faces stay, only the count of panes that were ever active can change. */
  lemma {:induction false} OnlyTheTotal(panes: seq<TerminalPane>, a: Sources, b: Sources)
    requires Trails(a, b) && Genuine(a) && FacesStay(panes, a, b)
    ensures Summed(Observed(panes, a)).(total := 0) == Summed(Observed(panes, b)).(total := 0)
    decreases |panes|
  {
    if panes != [] {
      var n := |panes| - 1;
      var front, last := panes[..n], panes[n];
      OnlyTheTotal(front, a, b);
      SummedLast(panes, a);
      SummedLast(panes, b);
      assert FaceStays(last, a, b);
      if Lost(a, b, last.id) {
        SameFaceIsResting(last, a.status[last.id], b.Resolve(last.id), a.Quiet(last.id), b.Quiet(last.id));
      }
      RestingCountsTotal(Summed(Observed(front, a)), Summed(Observed(front, b)), a.Resolve(last.id),
                         b.Resolve(last.id));
    }
  }

  /** How many panes of a tab were ever active. */
  function ActiveCount(panes: seq<TerminalPane>, src: Sources): nat {
    Summed(Observed(panes, src)).total
  }

  /** Faces pane by pane, and one count tab by tab. */
  ghost predicate FacesAndCountsStay(tabs: seq<RadarTab>, seating: Seating, a: Sources, b: Sources) {
    forall k :: 0 <= k < |tabs| ==>
      var panes := PanesAt(seating, tabs[k].position);
      FacesStay(panes, a, b) && ActiveCount(panes, a) == ActiveCount(panes, b)
  }

  /** Between genuine rows that is all the rail staying takes. */
  lemma RailStaysByCounts(tabs: seq<RadarTab>, seating: Seating, a: Sources, b: Sources)
    requires Trails(a, b) && Genuine(a)
    ensures RailStays(tabs, seating, a, b) <==> FacesAndCountsStay(tabs, seating, a, b)
  {
    forall k | 0 <= k < |tabs| && FacesStay(PanesAt(seating, tabs[k].position), a, b)
      ensures TabStays(PanesAt(seating, tabs[k].position), a, b)
              <==> ActiveCount(PanesAt(seating, tabs[k].position), a)
                   == ActiveCount(PanesAt(seating, tabs[k].position), b)
    {
      OnlyTheTotal(PanesAt(seating, tabs[k].position), a, b);
    }
  }

  /** The two add the same to any tab. */
  ghost predicate CountsAlike(o: Option<Tracked>, p: Option<Tracked>) {
    forall sum :: Counted(sum, o) == Counted(sum, p)
  }

  lemma {:induction false} CountedAlikeSums(panes: seq<TerminalPane>, a: Sources, b: Sources)
    requires forall j :: 0 <= j < |panes| ==> CountsAlike(a.Resolve(panes[j].id), b.Resolve(panes[j].id))
    ensures Summed(Observed(panes, a)) == Summed(Observed(panes, b))
    decreases |panes|
  {
    if panes != [] {
      CountedAlikeSums(panes[..|panes| - 1], a, b);
      SummedLast(panes, a);
      SummedLast(panes, b);
    }
  }

  /** It is enough that each evicted pane shows the same face, and counts the same, from the command store. */
  lemma UnseenPaneByPane(panes: seq<TerminalPane>, a: Sources, b: Sources)
    requires Trails(a, b) && FacesStay(panes, a, b)
    requires forall j :: 0 <= j < |panes| && Lost(a, b, panes[j].id) ==>
               CountsAlike(Some(a.status[panes[j].id]), Lookup(b.command, panes[j].id))
    ensures TabStays(panes, a, b)
  {
    forall j | 0 <= j < |panes| ensures CountsAlike(a.Resolve(panes[j].id), b.Resolve(panes[j].id)) {
      var id := panes[j].id;
      if Lost(a, b, id) {
        assert a.Resolve(id) == Some(a.status[id]);
      } else {
        assert a.Resolve(id) == b.Resolve(id);
      }
    }
    CountedAlikeSums(panes, a, b);
  }
}
