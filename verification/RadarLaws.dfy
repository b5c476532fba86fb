/** The radar state's smaller rules in plain terms: tabs in order, which tab a pane counts to, how long a flash lasts,
    what an exit does, what a snapshot loads (crates/plugin/src/radar_state.rs). */
module RadarLaws {
  import opened Prelude
  import opened Vocabulary
  import opened Sanitizer
  import opened Argv
  import opened ArgvLaws
  import opened Observation
  import opened CommandPane
  import opened CommandLaws
  import opened StatusStores
  import opened Ledgers
  import opened Rollup
  import opened Grace
  import opened RadarStates

  // ----- tabs in order -----

  predicate InOrder(tabs: seq<RadarTab>) {
    forall i, j :: 0 <= i < j < |tabs| ==> tabs[i].position <= tabs[j].position
  }

  lemma ConsInOrder(t: RadarTab, sorted: seq<RadarTab>)
    requires InOrder(sorted) && (sorted != [] ==> t.position <= sorted[0].position)
    ensures InOrder([t] + sorted)
  {
    var all := [t] + sorted;
    forall i, j | 0 <= i < j < |all| ensures all[i].position <= all[j].position {
      assert all[j] == sorted[j - 1];
      if i > 0 {
        assert all[i] == sorted[i - 1];
      }
    }
  }

  lemma {:induction false} InsertKeepsOrder(t: RadarTab, sorted: seq<RadarTab>)
    requires InOrder(sorted)
    ensures var r := InsertByPosition(t, sorted);
            && InOrder(r) && multiset(r) == multiset{t} + multiset(sorted)
            && r != [] && (r[0] == t || (sorted != [] && r[0] == sorted[0]))
  {
    if sorted == [] || t.position <= sorted[0].position {
      ConsInOrder(t, sorted);
    } else {
      InsertKeepsOrder(t, sorted[1..]);
      ConsInOrder(sorted[0], InsertByPosition(t, sorted[1..]));
      assert sorted == [sorted[0]] + sorted[1..];
    }
  }

  /** The rail has the tabs reported, in the order of their positions. */
  lemma {:induction false} TabsAreSorted(tabs: seq<RadarTab>)
    ensures InOrder(ByPosition(tabs)) && multiset(ByPosition(tabs)) == multiset(tabs)
  {
    if tabs != [] {
      TabsAreSorted(tabs[1..]);
      InsertKeepsOrder(tabs[0], ByPosition(tabs[1..]));
      assert tabs == [tabs[0]] + tabs[1..];
    }
  }

  /** As reported, but for their names, which are clean and at most forty characters. */
  lemma NamesAreClean(tabs: seq<RadarTab>, k: nat)
    requires k < |tabs|
    ensures var t := SanitizedNames(tabs)[k];
            && |SanitizedNames(tabs)| == |tabs| && t == tabs[k].(name := t.name)
            && AllKept(t.name) && |t.name| <= 40
            && (AllKept(tabs[k].name) && |tabs[k].name| <= 40 ==> t == tabs[k])
  {
    SanitizedIsClean(tabs[k].name, MAX_TAB_NAME_CHARS);
    if AllKept(tabs[k].name) {
      CleanTextSurvives(tabs[k].name);
    }
  }

  // ----- a pane's tab -----

  predicate Seats(tabs: seq<RadarTab>, seating: Seating, k: nat, id: PaneId) {
    k < |tabs| && exists j :: 0 <= j < |PanesAt(seating, tabs[k].position)|
                              && PanesAt(seating, tabs[k].position)[j].id == id
  }

  lemma SeatsInFront(tabs: seq<RadarTab>, seating: Seating, id: PaneId)
    requires tabs != []
    ensures var n := |tabs| - 1;
            && (forall k: nat :: k < n ==> (Seats(tabs[..n], seating, k, id) <==> Seats(tabs, seating, k, id)))
            && (id in SeatedIn(PanesAt(seating, tabs[n].position)) <==> Seats(tabs, seating, n, id))
  {
  }

  /** For the ledger a pane counts to the last tab that seats it, by that tab's id and name. */
  lemma {:induction false} IndexIsLastTab(tabs: seq<RadarTab>, seating: Seating, id: PaneId, k: nat)
    requires Seats(tabs, seating, k, id) && forall j: nat :: k < j ==> !Seats(tabs, seating, j, id)
    ensures Lookup(PaneTabIndex(tabs, seating), id) == Some((tabs[k].id, tabs[k].name))
    decreases |tabs|
  {
    SeatsInFront(tabs, seating, id);
    if k < |tabs| - 1 {
      var front := tabs[..|tabs| - 1];
      forall j: nat | k < j ensures !Seats(front, seating, j, id) {
        assert j < |front| ==> !Seats(tabs, seating, j, id);
      }
      IndexIsLastTab(front, seating, id, k);
    }
  }

  /** And to none without one. */
  lemma {:induction false} IndexHasTheSeated(tabs: seq<RadarTab>, seating: Seating, id: PaneId)
    requires forall j: nat :: !Seats(tabs, seating, j, id)
    ensures id !in PaneTabIndex(tabs, seating)
    decreases |tabs|
  {
    if tabs != [] {
      SeatsInFront(tabs, seating, id);
      var front := tabs[..|tabs| - 1];
      forall j: nat ensures !Seats(front, seating, j, id) {
        assert j < |front| ==> !Seats(tabs, seating, j, id);
      }
      IndexHasTheSeated(front, seating, id);
    }
  }

  /** For a flash, to the first one. */
  lemma {:induction false} TabIsFirstTab(tabs: seq<RadarTab>, seating: Seating, id: PaneId)
    ensures var tab := TabOfPane(tabs, seating, id);
            && (tab.Some? <==> exists k: nat :: Seats(tabs, seating, k, id))
            && forall k: nat ::
                 Seats(tabs, seating, k, id) && (forall j: nat :: j < k ==> !Seats(tabs, seating, j, id)) ==>
                   tab == Some(tabs[k].id)
  {
    if tabs != [] {
      var rest := tabs[1..];
      TabIsFirstTab(rest, seating, id);
      assert forall k: nat :: 0 < k < |tabs| ==> rest[k - 1] == tabs[k];
      assert forall k: nat :: k < |rest| ==> (Seats(rest, seating, k, id) <==> Seats(tabs, seating, k + 1, id));
      assert id in SeatedIn(PanesAt(seating, tabs[0].position)) <==> Seats(tabs, seating, 0, id);
      if !Seats(tabs, seating, 0, id) {
        forall k: nat | Seats(tabs, seating, k, id) ensures Seats(rest, seating, k - 1, id) {
          assert Seats(rest, seating, k - 1, id) <==> Seats(tabs, seating, k - 1 + 1, id);
        }
        if TabOfPane(rest, seating, id).Some? {
          var k: nat :| Seats(rest, seating, k, id);
          assert Seats(tabs, seating, k + 1, id);
        }
      }
    }
  }

  /** An attention command starts from the first active tab. */
  lemma {:induction false} ActiveIsFirstActive(r: RadarState, tabs: seq<RadarTab>, k: nat)
    requires k < |tabs| && tabs[k].active && forall j :: 0 <= j < k ==> !tabs[j].active
    ensures r.ActiveIn(tabs) == Some(tabs[k].position)
  {
    if k > 0 {
      ActiveIsFirstActive(r, tabs[1..], k - 1);
    }
  }

  // ----- flashes -----

  /** A flash lasts two ticks: this one and the next. Other tabs flash as before. */
  lemma FlashLastsTwoTicks(flashUntil: Flashes, tab: TabId, other: TabId, tick: nat, t: nat)
    requires t >= tick
    ensures tab in Lit(Armed(flashUntil, Some(tab), tick), t) <==> t <= tick + 1
    ensures other != tab ==> (other in Lit(Armed(flashUntil, Some(tab), tick), t) <==> other in Lit(flashUntil, t))
    ensures Armed(flashUntil, None, tick) == flashUntil
  {
  }

  // ----- what a report of the foreground is to the status store -----

  lemma PromptAndAgentAre(argv: seq<string>)
    ensures IsShellPrompt(argv) <==> EffectiveProgram(argv).1 in SHELLS
    ensures IsAgentCommand(argv) <==> EffectiveProgram(argv).1 in AGENTS
  {
  }

  /** A running row back at a shell starts its clock, once; only its agent back in front stops it, not another
      command. */
  lemma ClocksAre(r: RadarState, clocks: map<PaneId, nat>, row: Option<Tracked>, id: PaneId, argv: seq<string>,
                  tick: nat)
    ensures var name, after := EffectiveProgram(argv).1, r.ClocksAfter(clocks, row, id, argv, tick);
            && (name in SHELLS ==>
                  after == if row.Some? && row.value.status == Status.Running && id !in clocks then clocks[id := tick]
                           else clocks)
            && (name in AGENTS ==> after == clocks - {id})
            && (name !in SHELLS && name !in AGENTS ==> after == clocks)
  {
    NoAgentIsAShell();
  }

  lemma NoAgentIsAShell()
    ensures forall name :: name in AGENTS ==> name !in SHELLS
  {
  }

  // ----- what is handed to the ledger -----

  /** A row makes an offer when its entry would be one, its pane is in a known tab, and no pushed row hid it. */
  lemma OfferIs(id: PaneId, row: Tracked, index: TabIndex, shadow: set<PaneId>)
    ensures var offer := OfferOf(id, row, index, shadow);
            && (offer.Some? <==> row.status in {Status.Done, Status.Error} && row.completedEpochS.Some? && id in index
                                 && (row.origin == Origin.StatusPipe || id !in shadow))
            && (offer.Some? ==> offer.value.tabId == index[id].0 && offer.value.paneId == id
                                && offer.value.atEpochS == row.completedEpochS.value)
  {
  }

  // ----- an exit -----

  /** One of the rows makes the entry. */
  predicate Makes(rows: Drops, index: TabIndex, shadow: set<PaneId>, e: LedgerEntry) {
    exists id :: id in rows && OfferOf(id, rows[id], index, shadow) == Some(e)
  }

  /** What a manifest drops is filed pushed rows first, so that the observed ones end up in front of them. */
  lemma PushedAreFiledFirst(d: Dropped, index: TabIndex, shadow: set<PaneId>) returns (n: nat)
    requires d.Listed()
    ensures var offers := d.Offers(index, shadow);
            && n <= |offers|
            && (forall e :: e in offers[..n] <==> Makes(d.pushed, index, shadow, e))
            && (forall e :: e in offers[n..] <==> Makes(d.observed, index, shadow, e))
  {
    var first := OffersAlong(d.pushedOrder, d.pushed, index, shadow);
    var second := OffersAlong(d.observedOrder, d.observed, index, shadow);
    n := |first|;
    assert (first + second)[..n] == first && (first + second)[n..] == second;
    forall e ensures e in first <==> Makes(d.pushed, index, shadow, e) {
      OffersAreExact(d.pushedOrder, d.pushed, index, shadow, e);
    }
    forall e ensures e in second <==> Makes(d.observed, index, shadow, e) {
      OffersAreExact(d.observedOrder, d.observed, index, shadow, e);
    }
  }

  /** An exit steps the pane in the command store and clears a pushed row that is not idle. What each takes off the
      card is offered, the observed one first; and when a remote session was running, its tab flashes. */
  lemma ExitTakesOff(s: Session, id: PaneId, code: Option<int>, t: Topology, tick: nat, now: nat)
    requires s.Total()
    ensures var r, row := TakenExit(s, id, code, t, tick, now), Lookup(s.rows, id);
            var cleared := row.Some? && row.value.status != Status.Idle;
            var running := HasStatus(s.panes[id], Status.Running) && s.panes[id].row.value.kind == Kind.Remote;
            && r.panes == s.panes[id := OnExit(s.panes[id], code, tick, now)]
            && r.rows == (if cleared then s.rows[id := Idled(row.value, tick)] else s.rows)
            && r.entries == PushedAll(PushedAll(s.entries,
                                                Offered(id, ExitDrops(s.panes[id], code), t.Index(), t.shadow)),
                                      if cleared then Offered(id, row, t.Index(), t.shadow) else [])
            && r.flashUntil ==
                 if running then Armed(s.flashUntil, TabOfPane(t.tabs, t.seating, id), tick) else s.flashUntil
  {
  }

  // ----- a snapshot -----

  /** Of the entries for a pane of one origin the last is loaded. */
  predicate LastFor(observations: seq<(PaneId, Tracked)>, origin: Origin, id: PaneId, k: nat) {
    && k < |observations| && observations[k].0 == id && observations[k].1.origin == origin
    && forall j :: k < j < |observations| ==> observations[j].0 != id || observations[j].1.origin != origin
  }

  /** It is loaded as it is, but a command's Done, whose sixty ticks start over. */
  lemma {:induction false} LastEntryIsLoaded(observations: seq<(PaneId, Tracked)>, origin: Origin, tick: nat,
                                             id: PaneId)
    ensures id in Loaded(observations, origin, tick) <==> exists k: nat :: LastFor(observations, origin, id, k)
    ensures forall k: nat :: LastFor(observations, origin, id, k) ==>
              var row := observations[k].1;
              Loaded(observations, origin, tick)[id]
              == if origin == Origin.Observed && row.status == Status.Done then row.(lastChangeTick := tick) else row
    decreases |observations|
  {
    if observations != [] {
      var n := |observations| - 1;
      var front := observations[..n];
      LastEntryIsLoaded(front, origin, tick, id);
      assert forall k: nat :: k < n ==> front[k] == observations[k];
      if observations[n].0 == id && observations[n].1.origin == origin {
        assert LastFor(observations, origin, id, n);
      } else {
        assert forall k: nat :: LastFor(observations, origin, id, k) <==> LastFor(front, origin, id, k);
      }
    }
  }
}
