/** The algebra of ledger union: absorption, idempotence, commutation up to ties, and that no completion vanishes except
    to the cap. "Same event" is not transitive, so union is not associative; `LedgerOrder` says exactly when it is. */
module LedgerLaws {
  import opened Prelude
  import opened Sanitizer
  import opened Vocabulary
  import opened Observation
  import opened CommandPane
  import opened CommandStores
  import opened CommandRuns
  import opened Ledgers

  // ----- entries -----

  /** Every completion the command store hands out, on any run, makes a ledger entry with its own stamp and outcome, and
      with no blank column. */
  lemma HandedOutCompletionIsAccepted(f: Classifier, es: seq<Event>, id: PaneId, e: Event, tabId: TabId,
                                      tabName: string)
    requires var h := HandedOut(id, RunPane(f, es, id), e); h.Some? && h.value.status.IsCompletion()
    ensures var h := HandedOut(id, RunPane(f, es, id), e).value;
            var entry := FromObservation(id, h, tabId, tabName);
            && entry.Some? && h.completedEpochS == Some(entry.value.atEpochS)
            && entry.value.outcome == (if h.status == Status.Done then LedgerOutcome.Done else LedgerOutcome.Error)
            && !IsBlank(entry.value.labelText) && !IsBlank(entry.value.tabName)
  {
    EveryRunIsCoherent(f, es, id);
    var p := RunPane(f, es, id);
    if e.Timer? {
      var q := Promote(p, e.tick);
      TickKeepsInvariants(p, e.tick, e.now);
    }
    EntryColumnsAreNeverBlank(HandedOut(id, p, e).value, tabName);
  }

  lemma EntryColumnsAreNeverBlank(obs: Tracked, tabName: string)
    ensures !IsBlank(EntryLabel(obs)) && !IsBlank(SanitizedOr(tabName, MAX_TAB_NAME_CHARS, "tab"))
  {
    assert KindToken(obs.kind)[0] in "copgtbdsr";
    assert "turn done"[0] == 't' && "tab"[0] == 't';
    TrimmedIsNotBlank(Sanitizer.Sanitize(tabName, MAX_TAB_NAME_CHARS));
  }

  lemma {:induction false} TrimmedIsNotBlank(s: string)
    ensures Trim(s) != [] ==> !IsBlank(Trim(s))
    decreases |s|
  {
    if s != [] {
      if IsWhitespace(s[0]) {
        TrimmedIsNotBlank(s[1..]);
      } else if IsWhitespace(s[|s| - 1]) {
        TrimmedIsNotBlank(s[..|s| - 1]);
      }
    }
  }

  // ----- the sort -----

  lemma ConsSorted(h: LedgerEntry, t: seq<LedgerEntry>)
    requires NewestFirst(t) && (t != [] ==> h.atEpochS >= t[0].atEpochS)
    ensures NewestFirst([h] + t)
  {
    var s := [h] + t;
    forall i, j | 0 <= i < j < |s| ensures s[i].atEpochS >= s[j].atEpochS {
      assert s[j] == t[j - 1];
      if i > 0 {
        assert s[i] == t[i - 1];
      }
    }
  }

  lemma {:induction false} InsertSorts(e: LedgerEntry, s: seq<LedgerEntry>)
    requires NewestFirst(s)
    ensures NewestFirst(InsertFirst(e, s))
    ensures InsertFirst(e, s) != [] && (InsertFirst(e, s)[0] == e || (s != [] && InsertFirst(e, s)[0] == s[0]))
  {
    if s == [] || e.atEpochS >= s[0].atEpochS {
      ConsSorted(e, s);
    } else {
      InsertSorts(e, s[1..]);
      ConsSorted(s[0], InsertFirst(e, s[1..]));
    }
  }

  lemma {:induction false} InsertPermutes(e: LedgerEntry, s: seq<LedgerEntry>)
    ensures multiset(InsertFirst(e, s)) == multiset{e} + multiset(s)
  {
    if s != [] && e.atEpochS < s[0].atEpochS {
      InsertPermutes(e, s[1..]);
      assert s == [s[0]] + s[1..];
    }
  }

  /** The sort is a sort: newest first, the same entries. */
  lemma {:induction false} SortSorts(s: seq<LedgerEntry>)
    ensures NewestFirst(SortedNewestFirst(s)) && multiset(SortedNewestFirst(s)) == multiset(s)
  {
    if s != [] {
      SortSorts(s[1..]);
      InsertSorts(s[0], SortedNewestFirst(s[1..]));
      InsertPermutes(s[0], SortedNewestFirst(s[1..]));
      assert s == [s[0]] + s[1..];
    }
  }

  lemma SortKeepsEntries(s: seq<LedgerEntry>, e: LedgerEntry)
    ensures e in SortedNewestFirst(s) <==> e in s
  {
    SortSorts(s);
    assert e in s <==> e in multiset(s);
    assert e in SortedNewestFirst(s) <==> e in multiset(SortedNewestFirst(s));
  }

  // ----- the greedy pass -----

  /** The pass only ever appends, keeps the list separated, and keeps it sorted when its input was. */
  lemma {:induction false} PassKeepsOrder(kept: seq<LedgerEntry>, rest: seq<LedgerEntry>)
    requires Separated(kept) && NewestFirst(kept + rest)
    ensures var r := KeepUnmatched(kept, rest);
            |kept| <= |r| && r[..|kept|] == kept && Separated(r) && NewestFirst(r)
    decreases |rest|
  {
    if rest == [] {
      assert kept + rest == kept;
    } else if Matches(kept, rest[0]) {
      assert (kept + rest)[|kept| + 1..] == rest[1..];
      SubOrder(kept, rest);
      PassKeepsOrder(kept, rest[1..]);
    } else {
      assert kept + rest == (kept + [rest[0]]) + rest[1..];
      PassKeepsOrder(kept + [rest[0]], rest[1..]);
    }
  }

  lemma SubOrder(kept: seq<LedgerEntry>, rest: seq<LedgerEntry>)
    requires rest != [] && NewestFirst(kept + rest)
    ensures NewestFirst(kept + rest[1..])
  {
    var s, t := kept + rest, kept + rest[1..];
    forall i, j | 0 <= i < j < |t| ensures t[i].atEpochS >= t[j].atEpochS {
      var i', j' := if i < |kept| then i else i + 1, if j < |kept| then j else j + 1;
      assert s[i'] == t[i] && s[j'] == t[j];
    }
  }

  /** Kept, or matched by an entry at least as late. */
  predicate Covered(m: seq<LedgerEntry>, e: LedgerEntry) {
    exists k :: 0 <= k < |m| && IsSameEvent(m[k], e) && m[k].atEpochS >= e.atEpochS
  }

  /** The ring is full of entries none of which is older. */
  predicate CutByCap(m: seq<LedgerEntry>, e: LedgerEntry) {
    |m| == LEDGER_CAP && forall k :: 0 <= k < |m| ==> m[k].atEpochS >= e.atEpochS
  }

  /** Every candidate ends up matched by something kept that is at least as late. */
  lemma {:induction false} PassCovers(kept: seq<LedgerEntry>, rest: seq<LedgerEntry>, e: LedgerEntry)
    requires NewestFirst(kept + rest) && e in rest && Separated(kept)
    ensures Covered(KeepUnmatched(kept, rest), e)
    decreases |rest|
  {
    var next := if Matches(kept, rest[0]) then kept else kept + [rest[0]];
    if Matches(kept, rest[0]) {
      SubOrder(kept, rest);
    } else {
      assert kept + rest == next + rest[1..];
    }
    if e == rest[0] {
      FirstIsCovered(kept, rest);
      PassAppends(next, rest[1..]);
      CoveredByPrefix(next, KeepUnmatched(next, rest[1..]), e);
    } else {
      assert e in rest[1..];
      PassCovers(next, rest[1..], e);
    }
  }

  lemma FirstIsCovered(kept: seq<LedgerEntry>, rest: seq<LedgerEntry>)
    requires rest != [] && NewestFirst(kept + rest)
    ensures Covered(if Matches(kept, rest[0]) then kept else kept + [rest[0]], rest[0])
  {
    if Matches(kept, rest[0]) {
      var k :| 0 <= k < |kept| && IsSameEvent(kept[k], rest[0]);
      assert (kept + rest)[k] == kept[k] && (kept + rest)[|kept|] == rest[0];
    } else {
      var next := kept + [rest[0]];
      assert IsSameEvent(next[|kept|], rest[0]);
    }
  }

  lemma CoveredByPrefix(s: seq<LedgerEntry>, r: seq<LedgerEntry>, e: LedgerEntry)
    requires |s| <= |r| && r[..|s|] == s && Covered(s, e)
    ensures Covered(r, e)
  {
    var k :| 0 <= k < |s| && IsSameEvent(s[k], e) && s[k].atEpochS >= e.atEpochS;
    assert r[k] == r[..|s|][k];
  }

  lemma {:induction false} PassAddsOnlyCandidates(kept: seq<LedgerEntry>, rest: seq<LedgerEntry>, e: LedgerEntry)
    requires e in KeepUnmatched(kept, rest)
    ensures e in kept || e in rest
    decreases |rest|
  {
    if rest != [] {
      PassAddsOnlyCandidates(if Matches(kept, rest[0]) then kept else kept + [rest[0]], rest[1..], e);
    }
  }

  // ----- what a union is -----

  /** The union before the cap. */
  function Uncapped(a: seq<LedgerEntry>, b: seq<LedgerEntry>): seq<LedgerEntry> {
    KeepUnmatched([], SortedNewestFirst(a + b))
  }

  lemma UncappedIsOrdered(a: seq<LedgerEntry>, b: seq<LedgerEntry>)
    ensures Separated(Uncapped(a, b)) && NewestFirst(Uncapped(a, b))
  {
    SortSorts(a + b);
    assert [] + SortedNewestFirst(a + b) == SortedNewestFirst(a + b);
    PassKeepsOrder([], SortedNewestFirst(a + b));
  }

  lemma UncappedCovers(a: seq<LedgerEntry>, b: seq<LedgerEntry>, e: LedgerEntry)
    requires e in a + b
    ensures Covered(Uncapped(a, b), e)
  {
    SortSorts(a + b);
    SortKeepsEntries(a + b, e);
    assert [] + SortedNewestFirst(a + b) == SortedNewestFirst(a + b);
    PassCovers([], SortedNewestFirst(a + b), e);
  }

  lemma UncappedComesFrom(a: seq<LedgerEntry>, b: seq<LedgerEntry>, e: LedgerEntry)
    requires e in Uncapped(a, b)
    ensures e in a + b
  {
    PassAddsOnlyCandidates([], SortedNewestFirst(a + b), e);
    SortKeepsEntries(a + b, e);
  }

  lemma CapCutsTheOldest(g: seq<LedgerEntry>, e: LedgerEntry)
    requires NewestFirst(g) && Covered(g, e)
    ensures Covered(Take(g, LEDGER_CAP), e) || CutByCap(Take(g, LEDGER_CAP), e)
  {
    var m := Take(g, LEDGER_CAP);
    var k :| 0 <= k < |g| && IsSameEvent(g[k], e) && g[k].atEpochS >= e.atEpochS;
    if k < LEDGER_CAP {
      assert m[k] == g[k];
    } else {
      assert forall i :: 0 <= i < |m| ==> m[i] == g[i];
    }
  }

  lemma CapKeepsOrder(g: seq<LedgerEntry>)
    requires NewestFirst(g) && Separated(g)
    ensures var m := Take(g, LEDGER_CAP); |m| <= LEDGER_CAP && NewestFirst(m) && Separated(m)
  {
  }

  /** A union is newest first, at most 32 long, with no two entries the same event, each from one of the rings. */
  lemma UnionIsARing(a: seq<LedgerEntry>, b: seq<LedgerEntry>)
    ensures var m := Merged(a, b);
            |m| <= LEDGER_CAP && NewestFirst(m) && Separated(m) && forall e :: e in m ==> e in a || e in b
  {
    UncappedIsOrdered(a, b);
    CapKeepsOrder(Uncapped(a, b));
    forall e | e in Merged(a, b) ensures e in a || e in b {
      assert e in Uncapped(a, b);
      UncappedComesFrom(a, b, e);
    }
  }

  /** No completion vanishes: each entry of either ring is matched in the union by one at least as late, or the cap cut
      it off below 32 entries none of which is older. */
  lemma UnionLosesNothing(a: seq<LedgerEntry>, b: seq<LedgerEntry>, e: LedgerEntry)
    requires e in a || e in b
    ensures Covered(Merged(a, b), e) || CutByCap(Merged(a, b), e)
  {
    UncappedIsOrdered(a, b);
    UncappedCovers(a, b, e);
    CapCutsTheOldest(Uncapped(a, b), e);
  }

  // ----- the sort as a stable interleaving -----

  /** Two sorted lists merged, the first winning ties. */
  function Interleaved(x: seq<LedgerEntry>, y: seq<LedgerEntry>): seq<LedgerEntry> {
    if x == [] then y
    else if y == [] then x
    else if x[0].atEpochS >= y[0].atEpochS then [x[0]] + Interleaved(x[1..], y)
    else [y[0]] + Interleaved(x, y[1..])
  }

  /** An entry at least as new as the head of both lists goes in front of their interleaving. */
  lemma InsertInFront(e: LedgerEntry, x: seq<LedgerEntry>, y: seq<LedgerEntry>)
    requires x == [] || e.atEpochS >= x[0].atEpochS
    requires y == [] || e.atEpochS >= y[0].atEpochS
    ensures InsertFirst(e, Interleaved(x, y)) == Interleaved(InsertFirst(e, x), y)
  {
    assert ([e] + x)[1..] == x;
  }

  lemma InterleavedStep(h: LedgerEntry, t: seq<LedgerEntry>, y: seq<LedgerEntry>)
    ensures Interleaved([h] + t, y) ==
              if y == [] || h.atEpochS >= y[0].atEpochS then [h] + Interleaved(t, y)
              else [y[0]] + Interleaved([h] + t, y[1..])
  {
    assert ([h] + t)[1..] == t;
    assert y == [] ==> Interleaved(t, y) == t;
  }

  lemma InsertStep(e: LedgerEntry, h: LedgerEntry, t: seq<LedgerEntry>)
    requires e.atEpochS < h.atEpochS
    ensures InsertFirst(e, [h] + t) == [h] + InsertFirst(e, t)
  {
    assert ([h] + t)[1..] == t;
  }

  lemma {:induction false} InsertIntoInterleaving(e: LedgerEntry, x: seq<LedgerEntry>, y: seq<LedgerEntry>)
    ensures InsertFirst(e, Interleaved(x, y)) == Interleaved(InsertFirst(e, x), y)
    decreases |x| + |y|
  {
    if x != [] && e.atEpochS < x[0].atEpochS && (y == [] || x[0].atEpochS >= y[0].atEpochS) {
      InsertIntoInterleaving(e, x[1..], y);
      assert x == [x[0]] + x[1..];
      InterleavedStep(x[0], x[1..], y);
      InsertStep(e, x[0], Interleaved(x[1..], y));
      InterleavedStep(x[0], InsertFirst(e, x[1..]), y);
    } else if y != [] && e.atEpochS < y[0].atEpochS {
      InsertIntoInterleaving(e, x, y[1..]);
      InsertStep(e, y[0], Interleaved(x, y[1..]));
      var r := InsertFirst(e, x);
      assert r == [r[0]] + r[1..];
      InterleavedStep(r[0], r[1..], y);
    } else {
      InsertInFront(e, x, y);
    }
  }

  lemma {:induction false} SortOfConcat(s: seq<LedgerEntry>, t: seq<LedgerEntry>)
    ensures SortedNewestFirst(s + t) == Interleaved(SortedNewestFirst(s), SortedNewestFirst(t))
  {
    if s == [] {
      assert s + t == t;
    } else {
      assert (s + t)[1..] == s[1..] + t;
      SortOfConcat(s[1..], t);
      InsertIntoInterleaving(s[0], SortedNewestFirst(s[1..]), SortedNewestFirst(t));
    }
  }

  lemma {:induction false} SortOfSorted(s: seq<LedgerEntry>)
    requires NewestFirst(s)
    ensures SortedNewestFirst(s) == s
  {
    if s != [] {
      SortOfSorted(s[1..]);
    }
  }

  // ----- absorption, idempotence, commutation -----

  /** Passing over a ring's remaining entries `x` interleaved with entries it already answers for changes nothing. */
  lemma {:induction false} PassAbsorbs(m: seq<LedgerEntry>, kept: seq<LedgerEntry>, x: seq<LedgerEntry>,
                                       y: seq<LedgerEntry>)
    requires m == kept + x && Separated(m) && NewestFirst(m) && |m| <= LEDGER_CAP && NewestFirst(y)
    requires forall e :: e in y ==> Matches(kept, e) || Covered(x, e) || CutByCap(m, e)
    ensures Take(KeepUnmatched(kept, Interleaved(x, y)), LEDGER_CAP) == m
    decreases |x| + |y|
  {
    if x == [] {
      assert kept == m;
      PassOverCovered(m, y);
    } else if y == [] {
      TakeOne(m, kept, x);
      PassAbsorbs(m, kept + [x[0]], x[1..], y);
    } else if x[0].atEpochS >= y[0].atEpochS {
      TakeOne(m, kept, x);
      forall e | e in y ensures Matches(kept + [x[0]], e) || Covered(x[1..], e) || CutByCap(m, e) {
        StillCovered(kept, x, e, m);
      }
      PassAbsorbs(m, kept + [x[0]], x[1..], y);
      assert ([x[0]] + Interleaved(x[1..], y))[1..] == Interleaved(x[1..], y);
    } else {
      NothingLater(m, kept, x, y[0]);
      PassAbsorbs(m, kept, x, y[1..]);
      assert ([y[0]] + Interleaved(x, y[1..]))[1..] == Interleaved(x, y[1..]);
    }
  }

  lemma TakeOne(m: seq<LedgerEntry>, kept: seq<LedgerEntry>, x: seq<LedgerEntry>)
    requires m == kept + x && x != [] && Separated(m)
    ensures !Matches(kept, x[0]) && m == (kept + [x[0]]) + x[1..]
  {
    forall k | 0 <= k < |kept| ensures !IsSameEvent(kept[k], x[0]) {
      assert m[k] == kept[k] && m[|kept|] == x[0];
    }
  }

  lemma StillCovered(kept: seq<LedgerEntry>, x: seq<LedgerEntry>, e: LedgerEntry, m: seq<LedgerEntry>)
    requires x != [] && (Matches(kept, e) || Covered(x, e) || CutByCap(m, e))
    ensures Matches(kept + [x[0]], e) || Covered(x[1..], e) || CutByCap(m, e)
  {
    var next := kept + [x[0]];
    if Matches(kept, e) {
      var k :| 0 <= k < |kept| && IsSameEvent(kept[k], e);
      assert next[k] == kept[k];
    } else if Covered(x, e) {
      var k :| 0 <= k < |x| && IsSameEvent(x[k], e) && x[k].atEpochS >= e.atEpochS;
      if k == 0 {
        assert next[|kept|] == x[0];
      } else {
        assert x[1..][k - 1] == x[k];
      }
    }
  }

  /** An entry newer than everything left of the ring can only be one already matched. */
  lemma NothingLater(m: seq<LedgerEntry>, kept: seq<LedgerEntry>, x: seq<LedgerEntry>, e: LedgerEntry)
    requires m == kept + x && x != [] && NewestFirst(m) && x[0].atEpochS < e.atEpochS
    requires Matches(kept, e) || Covered(x, e) || CutByCap(m, e)
    ensures Matches(kept, e)
  {
    assert m[|kept|] == x[0];
    if Covered(x, e) {
      var k :| 0 <= k < |x| && IsSameEvent(x[k], e) && x[k].atEpochS >= e.atEpochS;
      assert m[|kept| + k] == x[k];
    }
  }

  /** Once the whole ring is kept, the rest is either matched or past the cap. */
  lemma {:induction false} PassOverCovered(m: seq<LedgerEntry>, y: seq<LedgerEntry>)
    requires |m| <= LEDGER_CAP && forall e :: e in y ==> Matches(m, e) || |m| == LEDGER_CAP
    ensures Take(KeepUnmatched(m, y), LEDGER_CAP) == m
  {
    if |m| == LEDGER_CAP {
      PassAppends(m, y);
    } else if y != [] {
      assert y[0] in y && forall e :: e in y[1..] ==> e in y;
      PassOverCovered(m, y[1..]);
    }
  }

  lemma {:induction false} PassAppends(kept: seq<LedgerEntry>, rest: seq<LedgerEntry>)
    ensures |kept| <= |KeepUnmatched(kept, rest)| && KeepUnmatched(kept, rest)[..|kept|] == kept
    decreases |rest|
  {
    if rest != [] {
      var next := if Matches(kept, rest[0]) then kept else kept + [rest[0]];
      PassAppends(next, rest[1..]);
      assert next[..|kept|] == kept;
    }
  }

  /** A ring absorbs any list it answers for. */
  lemma RingAbsorbs(m: seq<LedgerEntry>, s: seq<LedgerEntry>)
    requires Separated(m) && NewestFirst(m) && |m| <= LEDGER_CAP
    requires forall e :: e in s ==> Covered(m, e) || CutByCap(m, e)
    ensures Merged(m, s) == m
  {
    SortOfConcat(m, s);
    SortOfSorted(m);
    var y := SortedNewestFirst(s);
    SortSorts(s);
    forall e | e in y ensures Covered(m, e) || CutByCap(m, e) {
      SortKeepsEntries(s, e);
    }
    assert [] + m == m;
    PassAbsorbs(m, [], m, y);
  }

  /** Merging either input again is a no-op: a union has absorbed both rings. */
  lemma UnionAbsorbsItsInputs(a: seq<LedgerEntry>, b: seq<LedgerEntry>)
    ensures Merged(Merged(a, b), a) == Merged(a, b) && Merged(Merged(a, b), b) == Merged(a, b)
  {
    var m := Merged(a, b);
    UnionIsARing(a, b);
    forall e | e in a || e in b ensures Covered(m, e) || CutByCap(m, e) {
      UnionLosesNothing(a, b, e);
    }
    RingAbsorbs(m, a);
    RingAbsorbs(m, b);
  }

  /** Merging a ring with itself gives it back. */
  lemma UnionIsIdempotent(m: seq<LedgerEntry>)
    requires Separated(m) && NewestFirst(m) && |m| <= LEDGER_CAP
    ensures Merged(m, m) == m
  {
    forall e | e in m ensures Covered(m, e) {
      var k :| 0 <= k < |m| && m[k] == e;
      assert IsSameEvent(m[k], e);
    }
    RingAbsorbs(m, m);
  }

  /** Entries of the two rings that share a stamp are the same entry. */
  predicate NoTies(x: seq<LedgerEntry>, y: seq<LedgerEntry>) {
    forall i, j :: 0 <= i < |x| && 0 <= j < |y| && x[i].atEpochS == y[j].atEpochS ==> x[i] == y[j]
  }

  /** With the same head on both sides, it does not matter which side gives it up. */
  lemma {:induction false} SharedHead(x: seq<LedgerEntry>, y: seq<LedgerEntry>)
    requires x != [] && y != [] && x[0] == y[0] && NoTies(x, y) && NewestFirst(x) && NewestFirst(y)
    ensures Interleaved(x[1..], y) == Interleaved(x, y[1..])
  {
    if |x| > 1 && x[1].atEpochS == x[0].atEpochS {
      assert x[1] == y[0];
      SharedHead(x[1..], y);
    }
    assert y == [y[0]] + y[1..] && x == [x[0]] + x[1..];
  }

  lemma {:induction false} InterleavingCommutes(x: seq<LedgerEntry>, y: seq<LedgerEntry>)
    requires NoTies(x, y) && NewestFirst(x) && NewestFirst(y)
    ensures Interleaved(x, y) == Interleaved(y, x)
    decreases |x| + |y|
  {
    if x != [] && y != [] {
      if x[0].atEpochS > y[0].atEpochS {
        InterleavingCommutes(x[1..], y);
      } else if x[0].atEpochS < y[0].atEpochS {
        InterleavingCommutes(x, y[1..]);
      } else {
        SharedHead(x, y);
        InterleavingCommutes(x, y[1..]);
      }
    }
  }

  /** Union commutes whenever entries of the two rings that share a stamp are the same entry. */
  lemma UnionCommutes(a: seq<LedgerEntry>, b: seq<LedgerEntry>)
    requires NoTies(a, b)
    ensures Merged(a, b) == Merged(b, a)
  {
    SortOfConcat(a, b);
    SortOfConcat(b, a);
    SortSorts(a);
    SortSorts(b);
    var x, y := SortedNewestFirst(a), SortedNewestFirst(b);
    forall i, j | 0 <= i < |x| && 0 <= j < |y| && x[i].atEpochS == y[j].atEpochS ensures x[i] == y[j] {
      SortKeepsEntries(a, x[i]);
      SortKeepsEntries(b, y[j]);
    }
    InterleavingCommutes(x, y);
  }

  // ----- where the laws stop -----

  function Sample(stamp: nat, tabId: TabId): LedgerEntry {
    LedgerEntry(stamp, LedgerOutcome.Done, tabId, "tab", "x", 1)
  }

  lemma UnionOfTwo(a: LedgerEntry, b: LedgerEntry)
    requires a.atEpochS <= b.atEpochS
    ensures Merged([a], [b]) ==
              if a.atEpochS == b.atEpochS then (if IsSameEvent(a, b) then [a] else [a, b])
              else if IsSameEvent(b, a) then [b] else [b, a]
  {
    SortOfConcat([a], [b]);
    assert SortedNewestFirst([a]) == [a] && SortedNewestFirst([b]) == [b];
    var all := if a.atEpochS == b.atEpochS then [a, b] else [b, a];
    assert Interleaved([a], [b]) == all;
    assert all[1..] == [all[1]] && all[1..][1..] == [];
    assert !Matches([], all[0]);
    assert [] + [all[0]] == [all[0]];
    assert Matches([all[0]], all[1]) <==> IsSameEvent([all[0]][0], all[1]);
    assert KeepUnmatched([], all) == KeepUnmatched([all[0]], all[1..]);
  }

  /** Union is not associative: three sightings at 0, 3 and 6 seconds collapse to one entry or stay two, by the order in
      which the rings meet. */
  lemma UnionIsNotAssociative()
    ensures var a, b, c := [Sample(0, 0)], [Sample(3, 0)], [Sample(6, 0)];
            Merged(Merged(a, b), c) == c && Merged(a, Merged(b, c)) == c + a
  {
    UnionOfTwo(Sample(0, 0), Sample(3, 0));
    UnionOfTwo(Sample(3, 0), Sample(6, 0));
    UnionOfTwo(Sample(0, 0), Sample(6, 0));
  }

  /** With equal stamps it need not commute: the first ring's tab wins. */
  lemma TiesDoNotCommute()
    ensures Merged([Sample(0, 0)], [Sample(0, 1)]) != Merged([Sample(0, 1)], [Sample(0, 0)])
  {
    UnionOfTwo(Sample(0, 0), Sample(0, 1));
    UnionOfTwo(Sample(0, 1), Sample(0, 0));
  }

  /** Pushing keeps the ring separated and capped, and the event is in it afterwards. */
  lemma PushKeepsSeparation(entries: seq<LedgerEntry>, e: LedgerEntry)
    requires Separated(entries) && |entries| <= LEDGER_CAP
    ensures var r := Pushed(entries, e); Separated(r) && |r| <= LEDGER_CAP && Matches(r, e)
  {
    if !Matches(entries, e) {
      var r := Pushed(entries, e);
      assert r[0] == e && IsSameEvent(r[0], e);
      forall i, j | 0 <= i < j < |r| ensures !IsSameEvent(r[i], r[j]) {
        assert r[j] == entries[j - 1];
        if i > 0 {
          assert r[i] == entries[i - 1];
        }
      }
    }
  }

  /** A ring is documented as newest in front, and a push keeps it so exactly when the entry is known already or no
      older than the one in front. */
  lemma PushKeepsOrderIff(entries: seq<LedgerEntry>, e: LedgerEntry)
    requires NewestFirst(entries)
    ensures NewestFirst(Pushed(entries, e))
            <==> Matches(entries, e) || entries == [] || e.atEpochS >= entries[0].atEpochS
  {
    var known, all := Matches(entries, e), [e] + entries;
    if !known && entries != [] {
      assert Pushed(entries, e) == Take(all, LEDGER_CAP) && all[0] == e && all[1] == entries[0];
      if e.atEpochS >= entries[0].atEpochS {
        ConsSorted(e, entries);
      } else {
        assert Pushed(entries, e)[0].atEpochS < Pushed(entries, e)[1].atEpochS;
      }
    }
  }

  /** As it is not when a completion stamped earlier recedes later. */
  lemma LateRecedeBreaksOrder()
    ensures var ring := Pushed([], Sample(110, 0));
            NewestFirst(ring) && Pushed(ring, Sample(100, 0)) == [Sample(100, 0), Sample(110, 0)]
            && !NewestFirst(Pushed(ring, Sample(100, 0)))
  {
    var late, early := Sample(110, 0), Sample(100, 0);
    assert !Matches([], late) && Pushed([], late) == [late];
    assert !IsSameEvent([late][0], early);
    assert Pushed([late], early)[0].atEpochS < Pushed([late], early)[1].atEpochS;
  }

  /** A loaded ring is newest first and capped, and keeps the separation it was saved with. */
  lemma {:induction false} LoadedRingStaysSeparated(s: seq<LedgerEntry>)
    requires Separated(s)
    ensures Separated(SortedNewestFirst(s))
  {
    if s != [] {
      LoadedRingStaysSeparated(s[1..]);
      var sorted := SortedNewestFirst(s[1..]);
      forall k | 0 <= k < |sorted| ensures !IsSameEvent(s[0], sorted[k]) {
        SortKeepsEntries(s[1..], sorted[k]);
        var j :| 0 <= j < |s[1..]| && s[1..][j] == sorted[k];
        assert s[j + 1] == sorted[k];
      }
      InsertKeepsSeparation(s[0], sorted);
    }
  }

  lemma {:induction false} InsertKeepsSeparation(e: LedgerEntry, s: seq<LedgerEntry>)
    requires Separated(s) && forall k :: 0 <= k < |s| ==> !IsSameEvent(e, s[k])
    ensures Separated(InsertFirst(e, s))
  {
    if s != [] && e.atEpochS < s[0].atEpochS {
      InsertKeepsSeparation(e, s[1..]);
      var r := InsertFirst(e, s[1..]);
      forall k | 0 <= k < |r| ensures !IsSameEvent(s[0], r[k]) {
        InsertPermutes(e, s[1..]);
        assert r[k] in multiset(r);
        if r[k] != e {
          var j :| 0 <= j < |s[1..]| && s[1..][j] == r[k];
          assert s[j + 1] == r[k];
        }
      }
    }
  }

  // ----- entries, in plain terms -----

  /** A stamped completion makes an entry and nothing else does: a success for a done, a failure for an error, at its
      stamp, under the tab it was in. */
  lemma EntryIs(id: PaneId, obs: Tracked, tab: TabId, name: string)
    ensures var entry := FromObservation(id, obs, tab, name);
            && (entry.Some? <==> obs.status in {Status.Done, Status.Error} && obs.completedEpochS.Some?)
            && (entry.Some? ==>
                  && (entry.value.outcome == LedgerOutcome.Done <==> obs.status == Status.Done)
                  && (entry.value.outcome == LedgerOutcome.Error <==> obs.status == Status.Error)
                  && entry.value.atEpochS == obs.completedEpochS.value && entry.value.paneId == id
                  && entry.value.tabId == tab)
  {
  }

  /** A tab name the rail shows as it is: clean, short, and with no space at either end. */
  predicate ReadsAsItIs(name: string) {
    && AllKept(name) && 0 < |name| <= 40
    && !IsWhitespace(name[0]) && !IsWhitespace(name[|name| - 1])
  }

  /** A kind's token stands for it on the wire: the two tables are inverse, and any other source is some other agent. */
  lemma KindTokensRoundTrip(k: Kind, source: string)
    ensures KindFromSource(KindToken(k)) == k
    ensures KindFromSource(source) != Kind.Other ==> KindToken(KindFromSource(source)) == source
  {
  }

  /** It is labelled with what the row said; without a word, an agent's turn is called done, and a command by its
      kind. */
  lemma EntryLabelIs(id: PaneId, obs: Tracked, tab: TabId, name: string)
    ensures var entry := FromObservation(id, obs, tab, name);
            entry.Some? ==>
              && (!IsBlank(obs.msg) ==> entry.value.labelText == obs.msg)
              && (IsBlank(obs.msg) && obs.origin == Origin.StatusPipe ==> entry.value.labelText == "turn done")
              && (IsBlank(obs.msg) && obs.origin == Origin.Observed ==> entry.value.labelText == KindToken(obs.kind))
              && (IsBlank(name) && AllKept(name) ==> entry.value.tabName == "tab")
              && (ReadsAsItIs(name) ==> entry.value.tabName == name)
  {
    if AllKept(name) {
      CleanTextSurvives(name);
      if IsBlank(name) {
        assert IsBlank(Take(name, 40));
      }
    }
  }

  /** Space around a tab's name is no part of it. */
  lemma TabNameIsTrimmed(id: PaneId, obs: Tracked, tab: TabId, front: string, name: string, back: string)
    requires IsBlank(front) && IsBlank(back) && ReadsAsItIs(name)
    requires AllKept(front) && AllKept(back) && |front| + |name| + |back| <= 40
    ensures var entry := FromObservation(id, obs, tab, front + name + back);
            entry.Some? ==> entry.value.tabName == name
  {
    CleanTextSurvives(front + name + back);
    TrimIs(front, name, back);
  }

  lemma {:induction false} TrimIs(front: string, name: string, back: string)
    requires IsBlank(front) && IsBlank(back)
    requires name != "" && !IsWhitespace(name[0]) && !IsWhitespace(name[|name| - 1])
    ensures Trim(front + name + back) == name
    decreases |front| + |back|
  {
    var s := front + name + back;
    if front != [] {
      assert s[1..] == front[1..] + name + back;
      TrimIs(front[1..], name, back);
    } else if back != [] {
      assert s[..|s| - 1] == front + name + back[..|back| - 1];
      TrimIs(front, name, back[..|back| - 1]);
    } else {
      assert s == name;
    }
  }

  /** Two entries are one event exactly when pane, outcome and label agree and their stamps are at most four seconds
      apart. */
  lemma SameEventIff(a: LedgerEntry, b: LedgerEntry)
    ensures IsSameEvent(a, b) <==>
              && a.paneId == b.paneId && a.outcome == b.outcome && a.labelText == b.labelText
              && a.atEpochS <= b.atEpochS + 4 && b.atEpochS <= a.atEpochS + 4
  {
  }

  /** A new entry goes in front, and the thirty-third of a full ring goes; a known one changes nothing, stamp
      included. */
  lemma PushIs(entries: seq<LedgerEntry>, e: LedgerEntry)
    ensures var known := exists k :: 0 <= k < |entries| && IsSameEvent(entries[k], e);
            Pushed(entries, e) == if known then entries
                                  else if |entries| < 32 then [e] + entries
                                  else [e] + entries[..31]
  {
    assert ([e] + entries)[..1] == [e];
    if |entries| >= 32 {
      assert ([e] + entries)[..32] == [e] + entries[..31];
    }
  }

  /** Loading keeps the newest thirty-two, newest first, and of equals the one loaded first. */
  lemma {:induction false} SortIsStable(s: seq<LedgerEntry>, at: nat)
    ensures Stamped(SortedNewestFirst(s), at) == Stamped(s, at)
  {
    if s != [] {
      SortIsStable(s[1..], at);
      SortSorts(s[1..]);
      InsertIsStable(s[0], SortedNewestFirst(s[1..]), at);
    }
  }

  /** The entries with a stamp, in order. */
  function Stamped(s: seq<LedgerEntry>, at: nat): seq<LedgerEntry> {
    if s == [] then [] else (if s[0].atEpochS == at then [s[0]] else []) + Stamped(s[1..], at)
  }

  lemma {:induction false} InsertIsStable(e: LedgerEntry, s: seq<LedgerEntry>, at: nat)
    requires NewestFirst(s)
    ensures Stamped(InsertFirst(e, s), at) == (if e.atEpochS == at then [e] else []) + Stamped(s, at)
  {
    if s != [] && e.atEpochS < s[0].atEpochS {
      InsertIsStable(e, s[1..], at);
      if e.atEpochS == at {
        NoneStamped(e, s);
      }
    }
  }

  lemma NoneStamped(e: LedgerEntry, s: seq<LedgerEntry>)
    requires NewestFirst(s) && s != [] && e.atEpochS < s[0].atEpochS
    ensures Stamped(s, e.atEpochS) == Stamped(s[1..], e.atEpochS)
  {
  }
}
