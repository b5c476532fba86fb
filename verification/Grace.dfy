/** The grace a missing pane gets before it is pruned, and what pruning hands the ledger (`panes_changed`,
    `ledger_receded` and `pane_tab_index` of crates/plugin/src/radar_state.rs). */
module Grace {
  import opened Prelude
  import opened Vocabulary
  import opened Sanitizer
  import opened Observation
  import opened Ledgers
  import opened Rollup

  type TabIndex = map<PaneId, (TabId, string)>

  /** Panes missing from the latest manifest, with the tab each was last seen in. */
  type Absences = map<PaneId, Option<(TabId, string)>>

  function SeatedIn(panes: seq<TerminalPane>): set<PaneId> {
    set k | 0 <= k < |panes| :: panes[k].id
  }

  /** Pane to tab, as the rail has it; a later tab wins. */
  function PaneTabIndex(tabs: seq<RadarTab>, seating: Seating): TabIndex {
    if tabs == [] then map[]
    else
      var t := tabs[|tabs| - 1];
      PaneTabIndex(tabs[..|tabs| - 1], seating)
      + map id | id in SeatedIn(PanesAt(seating, t.position)) :: (t.id, t.name)
  }

  /** The first tab that seats a pane. */
  function TabOfPane(tabs: seq<RadarTab>, seating: Seating, id: PaneId): Option<TabId> {
    if tabs == [] then None
    else if id in SeatedIn(PanesAt(seating, tabs[0].position)) then Some(tabs[0].id)
    else TabOfPane(tabs[1..], seating, id)
  }

  function SanitizedNames(tabs: seq<RadarTab>): seq<RadarTab> {
    seq(|tabs|, k requires 0 <= k < |tabs| => tabs[k].(name := Sanitize(tabs[k].name, MAX_TAB_NAME_CHARS)))
  }

  function InsertByPosition(t: RadarTab, sorted: seq<RadarTab>): seq<RadarTab> {
    if sorted == [] || t.position <= sorted[0].position then [t] + sorted
    else [sorted[0]] + InsertByPosition(t, sorted[1..])
  }

  function ByPosition(tabs: seq<RadarTab>): seq<RadarTab> {
    if tabs == [] then [] else InsertByPosition(tabs[0], ByPosition(tabs[1..]))
  }

  // ----- handing rows to the ledger -----

  /** The entry a receded row makes: none for a row a pushed status was hiding, or for a pane in no known tab. */
  function OfferOf(id: PaneId, row: Tracked, index: TabIndex, shadow: set<PaneId>): Option<LedgerEntry> {
    if (row.origin == Origin.Observed && id in shadow) || id !in index then None
    else FromObservation(id, row, index[id].0, index[id].1)
  }

  function Offered(id: PaneId, row: Option<Tracked>, index: TabIndex, shadow: set<PaneId>): seq<LedgerEntry> {
    if row.Some? && OfferOf(id, row.value, index, shadow).Some?
    then [OfferOf(id, row.value, index, shadow).value]
    else []
  }

  function PushedAll(entries: seq<LedgerEntry>, offered: seq<LedgerEntry>): seq<LedgerEntry>
    decreases |offered|
  {
    if offered == [] then entries
    else Pushed(PushedAll(entries, offered[..|offered| - 1]), offered[|offered| - 1])
  }

  /** The entries receded rows make, taken in an order. */
  function OffersAlong(order: seq<PaneId>, receded: Drops, index: TabIndex, shadow: set<PaneId>): seq<LedgerEntry>
    decreases |order|
  {
    if order == [] then []
    else
      var id := order[|order| - 1];
      OffersAlong(order[..|order| - 1], receded, index, shadow) + Offered(id, Lookup(receded, id), index, shadow)
  }

  /** Each key once. */
  ghost predicate Lists(order: seq<PaneId>, keys: set<PaneId>) {
    && (forall id :: id in order <==> id in keys)
    && (forall j, k :: 0 <= j < k < |order| ==> order[j] != order[k])
  }

  /** Whatever the order, the entries are exactly those of the receded rows that make one. */
  lemma {:induction false} OffersAreExact(order: seq<PaneId>, receded: Drops, index: TabIndex, shadow: set<PaneId>,
                                          e: LedgerEntry)
    ensures e in OffersAlong(order, receded, index, shadow)
            <==> exists id :: id in order && id in receded && OfferOf(id, receded[id], index, shadow) == Some(e)
    decreases |order|
  {
    if order != [] {
      var last := order[|order| - 1];
      var front := order[..|order| - 1];
      OffersAreExact(front, receded, index, shadow, e);
      assert order == front + [last];
    }
  }

  lemma OfferedOne(entries: seq<LedgerEntry>, id: PaneId, row: Tracked, index: TabIndex, shadow: set<PaneId>)
    ensures var offer := OfferOf(id, row, index, shadow);
            PushedAll(entries, Offered(id, Some(row), index, shadow))
            == if offer.Some? then Pushed(entries, offer.value) else entries
  {
    var offer := OfferOf(id, row, index, shadow);
    if offer.Some? {
      assert [offer.value][..0] == [];
    }
  }

  lemma {:induction false} PushedAllInTurn(entries: seq<LedgerEntry>, offered: seq<LedgerEntry>, more: seq<LedgerEntry>)
    ensures PushedAll(entries, offered + more) == PushedAll(PushedAll(entries, offered), more)
    decreases |more|
  {
    if more == [] {
      assert offered + more == offered;
    } else {
      var front := more[..|more| - 1];
      PushedAllInTurn(entries, offered, front);
      assert (offered + more)[..|offered + more| - 1] == offered + front;
    }
  }

  // ----- what becomes of an offer -----

  /** How many of the offers the ring did not hold when they came. */
  function NewCount(ring: seq<LedgerEntry>, offered: seq<LedgerEntry>): nat
    decreases |offered|
  {
    if offered == [] then 0
    else
      var front := offered[..|offered| - 1];
      if Matches(PushedAll(ring, front), offered[|offered| - 1])
      then NewCount(ring, front)
      else NewCount(ring, front) + 1
  }

  lemma {:induction false} RingStaysCapped(ring: seq<LedgerEntry>, offered: seq<LedgerEntry>)
    requires |ring| <= LEDGER_CAP
    ensures |PushedAll(ring, offered)| <= LEDGER_CAP
    decreases |offered|
  {
    if offered != [] {
      RingStaysCapped(ring, offered[..|offered| - 1]);
    }
  }

  /** A new entry moves what the ring holds one place towards the cap. */
  lemma OnePlaceFurther(held: seq<LedgerEntry>, e: LedgerEntry, j: nat)
    requires j < |held| && j + 1 < LEDGER_CAP && !Matches(held, e)
    ensures j + 1 < |Pushed(held, e)| && Pushed(held, e)[j + 1] == held[j]
  {
    var all := [e] + held;
    assert all[j + 1] == held[j];
  }

  /** So many new entries move it so many places. */
  lemma {:induction false} NewEntriesShift(ring: seq<LedgerEntry>, offered: seq<LedgerEntry>, i: nat)
    requires i < |ring| && i + NewCount(ring, offered) < LEDGER_CAP
    ensures var j := i + NewCount(ring, offered);
            j < |PushedAll(ring, offered)| && PushedAll(ring, offered)[j] == ring[i]
    decreases |offered|
  {
    if offered != [] {
      var front, e := offered[..|offered| - 1], offered[|offered| - 1];
      NewEntriesShift(ring, front, i);
      var held, known := PushedAll(ring, front), Matches(PushedAll(ring, front), e);
      if !known {
        OnePlaceFurther(held, e, i + NewCount(ring, front));
      }
    }
  }

  /** The ring once the offers up to the `k`-th are in, and how many new entries the later ones bring. */
  function RingAfter(ring: seq<LedgerEntry>, offered: seq<LedgerEntry>, k: nat): seq<LedgerEntry>
    requires k < |offered|
  {
    PushedAll(ring, offered[..k + 1])
  }

  function NewAfter(ring: seq<LedgerEntry>, offered: seq<LedgerEntry>, k: nat): nat
    requires k < |offered|
  {
    NewCount(RingAfter(ring, offered, k), offered[k + 1..])
  }

  /** Later entries pushed the `k`-th offer out: with its distance from the front they come to the cap. */
  predicate PushedOut(ring: seq<LedgerEntry>, offered: seq<LedgerEntry>, k: nat)
    requires k < |offered|
  {
    var held := RingAfter(ring, offered, k);
    forall i :: 0 <= i < |held| && IsSameEvent(held[i], offered[k]) ==> i + NewAfter(ring, offered, k) >= LEDGER_CAP
  }

  lemma PushedIsHeld(ring: seq<LedgerEntry>, e: LedgerEntry)
    requires |ring| <= LEDGER_CAP
    ensures Matches(Pushed(ring, e), e) && (!Matches(ring, e) ==> Pushed(ring, e)[0] == e)
  {
    if !Matches(ring, e) {
      assert Pushed(ring, e)[0] == e && IsSameEvent(e, e);
    }
  }

  /** What the ring holds of an event it keeps, unless so many new entries follow. */
  lemma HeldUnlessPushedOut(held: seq<LedgerEntry>, later: seq<LedgerEntry>, e: LedgerEntry, i: nat)
    requires |held| <= LEDGER_CAP && i < |held| && IsSameEvent(held[i], e) && i + NewCount(held, later) < LEDGER_CAP
    ensures Matches(PushedAll(held, later), e)
  {
    NewEntriesShift(held, later, i);
  }

  /** An offer is in the ring right away - in front, when it is new - and still there at the end unless pushed out. */
  lemma OfferIsHeld(ring: seq<LedgerEntry>, offered: seq<LedgerEntry>, k: nat)
    requires |ring| <= LEDGER_CAP && k < |offered|
    ensures var e, held := offered[k], RingAfter(ring, offered, k);
            && Matches(held, e)
            && (!Matches(PushedAll(ring, offered[..k]), e) ==> held[0] == e)
            && (Matches(PushedAll(ring, offered), e) || PushedOut(ring, offered, k))
  {
    var upTo, later := offered[..k + 1], offered[k + 1..];
    var held := PushedAll(ring, upTo);
    assert upTo[..k] == offered[..k] && offered == upTo + later;
    RingStaysCapped(ring, offered[..k]);
    RingStaysCapped(ring, upTo);
    PushedIsHeld(PushedAll(ring, offered[..k]), offered[k]);
    PushedAllInTurn(ring, upTo, later);
    forall i | 0 <= i < |held| && IsSameEvent(held[i], offered[k]) && i + NewCount(held, later) < LEDGER_CAP
      ensures Matches(PushedAll(held, later), offered[k])
    {
      HeldUnlessPushedOut(held, later, offered[k], i);
    }
  }

  /** Handed to a ring, an entry is in it, or later ones pushed it out. */
  predicate Filed(ring: seq<LedgerEntry>, offered: seq<LedgerEntry>, e: LedgerEntry) {
    && e in offered
    && forall k :: 0 <= k < |offered| && offered[k] == e ==>
         Matches(PushedAll(ring, offered), e) || PushedOut(ring, offered, k)
  }

  lemma OffersAreFiled(ring: seq<LedgerEntry>, offered: seq<LedgerEntry>, e: LedgerEntry)
    requires |ring| <= LEDGER_CAP && e in offered
    ensures Filed(ring, offered, e)
  {
    forall k | 0 <= k < |offered| ensures Matches(PushedAll(ring, offered), offered[k]) || PushedOut(ring, offered, k) {
      OfferIsHeld(ring, offered, k);
    }
  }

  /** One more row in the order. */
  lemma OneMoreOffer(entries: seq<LedgerEntry>, order: seq<PaneId>, id: PaneId, receded: Drops, todo: set<PaneId>,
                     index: TabIndex, shadow: set<PaneId>)
    requires id in todo && todo <= receded.Keys && Lists(order, receded.Keys - todo)
    ensures Lists(order + [id], receded.Keys - (todo - {id}))
    ensures PushedAll(entries, OffersAlong(order + [id], receded, index, shadow))
         == PushedAll(PushedAll(entries, OffersAlong(order, receded, index, shadow)),
                      Offered(id, Some(receded[id]), index, shadow))
  {
    assert (order + [id])[..|order|] == order;
    PushedAllInTurn(entries, OffersAlong(order, receded, index, shadow), Offered(id, Some(receded[id]), index, shadow));
  }

  // ----- the grace rule -----

  /** A pane in grace was missing from the last manifest. */
  predicate GraceSound(absentOnce: Absences, livePanes: Option<set<PaneId>>) {
    if livePanes.None? then absentOnce == map[] else absentOnce.Keys !! livePanes.value
  }

  /** The tracked panes a manifest misses for the first time, with the tabs that held them until now. */
  function NextAbsences(tracked: set<PaneId>, live: set<PaneId>, absentBefore: Absences, index: TabIndex): Absences {
    map id | id in tracked && id !in live && id !in absentBefore :: Lookup(index, id)
  }

  lemma AreNextAbsences(absences: Absences, tracked: set<PaneId>, live: set<PaneId>, absentBefore: Absences,
                        index: TabIndex)
    requires forall id :: id in absences <==> id !in live && id !in absentBefore && id in tracked
    requires forall id :: id in absences ==> absences[id] == Lookup(index, id)
    ensures absences == NextAbsences(tracked, live, absentBefore, index)
  {
  }

  /** Present, or missing for the first time. */
  predicate Stays(live: set<PaneId>, absentBefore: Absences, id: PaneId) {
    id in live || id !in absentBefore
  }

  /** Keeping the listed panes and those in grace keeps exactly what stays of the tracked ones. */
  lemma KeptAreStaying(tracked: set<PaneId>, live: set<PaneId>, absentBefore: Absences, index: TabIndex, id: PaneId)
    ensures var kept := live + NextAbsences(tracked, live, absentBefore, index).Keys;
            && (id in kept ==> Stays(live, absentBefore, id))
            && (id !in kept && Stays(live, absentBefore, id) ==> id !in tracked)
  {
  }

  /** Every pane still tracked after a manifest is listed in it or in grace. */
  lemma TrackedAreCovered(tracked: set<PaneId>, after: set<PaneId>, live: set<PaneId>, absentBefore: Absences,
                          index: TabIndex)
    requires forall id :: id in after <==> id in tracked && Stays(live, absentBefore, id)
    ensures var absences := NextAbsences(tracked, live, absentBefore, index);
            && after <= live + absences.Keys
            && forall id :: id in absences <==> id !in live && id !in absentBefore && id in after
  {
  }

  /** The tabs known before a manifest, with those captured at a first absence on top. */
  function PruneIndex(index: TabIndex, absentBefore: Absences): TabIndex {
    index + map id | id in absentBefore && absentBefore[id].Some? :: absentBefore[id].value
  }

  /** The rows a manifest drops from the two stores, and the order they go to the ledger in. */
  datatype Dropped = Dropped(pushed: Drops, observed: Drops, pushedOrder: seq<PaneId>, observedOrder: seq<PaneId>) {
    predicate Any() {
      pushed != map[] || observed != map[]
    }

    ghost predicate Listed() {
      Lists(pushedOrder, pushed.Keys) && Lists(observedOrder, observed.Keys)
    }

    /** What they offer the ledger, filed by `index`. */
    function Offers(index: TabIndex, shadow: set<PaneId>): seq<LedgerEntry> {
      OffersAlong(pushedOrder, pushed, index, shadow) + OffersAlong(observedOrder, observed, index, shadow)
    }
  }

  /** A manifest taken: the panes tracked after it, the panes it lists, the tabs known before it. */
  datatype Manifest = Manifest(tracked: set<PaneId>, live: set<PaneId>, index: TabIndex)

  /** The panes in grace after a run of manifests. */
  function AbsencesAfter(start: Absences, ms: seq<Manifest>): Absences
    decreases |ms|
  {
    if ms == [] then start
    else
      var m := ms[|ms| - 1];
      NextAbsences(m.tracked, m.live, AbsencesAfter(start, ms[..|ms| - 1]), m.index)
  }

  /** What a drop offers the ledger is filed under the tab captured at the first absence. */
  lemma FiledUnderCapturedTab(id: PaneId, row: Tracked, index: TabIndex, absentBefore: Absences, shadow: set<PaneId>)
    requires id in absentBefore && absentBefore[id].Some? && !(row.origin == Origin.Observed && id in shadow)
    ensures OfferOf(id, row, PruneIndex(index, absentBefore), shadow)
         == FromObservation(id, row, absentBefore[id].value.0, absentBefore[id].value.1)
  {
  }
}
