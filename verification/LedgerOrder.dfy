/** When the order in which rings meet does not matter: ledger union is associative exactly where "same event" is
    transitive, and commutative exactly where no two entries tie - the cap included. */
module LedgerOrder {
  import opened Prelude
  import opened Observation
  import opened Ledgers
  import opened LedgerLaws

  /** The ring a bag of entries makes: `Merged(a, b)` is the ring of `a + b`. */
  function Ring(s: seq<LedgerEntry>): seq<LedgerEntry> {
    Take(KeepUnmatched([], SortedNewestFirst(s)), LEDGER_CAP)
  }

  /** Every entry of `s` is one of `u`. */
  predicate Drawn(s: seq<LedgerEntry>, u: seq<LedgerEntry>) {
    forall e :: e in s ==> e in u
  }

  predicate TransitiveOn(u: seq<LedgerEntry>) {
    forall x, y, z :: x in u && y in u && z in u && IsSameEvent(x, y) && IsSameEvent(y, z) ==> IsSameEvent(x, z)
  }

  /** Entries that share a stamp are the same entry. */
  predicate TieFree(u: seq<LedgerEntry>) {
    forall x, y :: x in u && y in u && x.atEpochS == y.atEpochS ==> x == y
  }

  // ----- where one entry goes in the sort -----

  lemma {:induction false} InsertPast(h: LedgerEntry, p: seq<LedgerEntry>, s: seq<LedgerEntry>)
    requires forall k :: 0 <= k < |p| ==> p[k].atEpochS > h.atEpochS
    ensures InsertFirst(h, p + s) == p + InsertFirst(h, s)
  {
    if p == [] {
      assert p + s == s;
    } else {
      InsertPast(h, p[1..], s);
      assert (p + s)[1..] == p[1..] + s;
    }
  }

  lemma {:induction false} InsertWithin(h: LedgerEntry, p: seq<LedgerEntry>, s: seq<LedgerEntry>)
    requires s == [] || h.atEpochS >= s[0].atEpochS
    ensures InsertFirst(h, p + s) == InsertFirst(h, p) + s
  {
    if p == [] {
      assert p + s == s;
    } else if h.atEpochS < p[0].atEpochS {
      InsertWithin(h, p[1..], s);
      assert (p + s)[1..] == p[1..] + s;
    } else {
      assert [h] + (p + s) == ([h] + p) + s;
    }
  }

  lemma {:induction false} InsertSplits(e: LedgerEntry, s: seq<LedgerEntry>)
    returns (p: seq<LedgerEntry>, q: seq<LedgerEntry>)
    ensures InsertFirst(e, s) == p + [e] + q && s == p + q
    ensures q == [] || e.atEpochS >= q[0].atEpochS
    ensures forall k :: 0 <= k < |p| ==> p[k].atEpochS > e.atEpochS
  {
    if s == [] || e.atEpochS >= s[0].atEpochS {
      p, q := [], s;
    } else {
      var front;
      front, q := InsertSplits(e, s[1..]);
      p := [s[0]] + front;
    }
  }

  lemma InsertHas(h: LedgerEntry, s: seq<LedgerEntry>, f: LedgerEntry)
    ensures f in InsertFirst(h, s) <==> f == h || f in s
  {
    InsertPermutes(h, s);
    assert f in InsertFirst(h, s) <==> f in multiset(InsertFirst(h, s));
    assert f in s <==> f in multiset(s);
  }

  /** Where `e` lands when `u + [e] + v` is sorted: after everything at least as new before it and everything newer
      after it - and taking it out takes nothing else along. */
  lemma {:induction false} SplitAt(u: seq<LedgerEntry>, e: LedgerEntry, v: seq<LedgerEntry>)
    returns (p: seq<LedgerEntry>, q: seq<LedgerEntry>)
    ensures SortedNewestFirst(u + [e] + v) == p + [e] + q && SortedNewestFirst(u + v) == p + q
    ensures forall f :: f in u && f.atEpochS >= e.atEpochS ==> f in p
    ensures forall f :: f in v && f.atEpochS > e.atEpochS ==> f in p
    ensures q == [] || e.atEpochS >= q[0].atEpochS
    ensures forall k :: 0 <= k < |p| ==> p[k].atEpochS >= e.atEpochS
  {
    if u == [] {
      assert u + [e] + v == [e] + v && ([e] + v)[1..] == v && u + v == v;
      p, q := InsertSplits(e, SortedNewestFirst(v));
      forall f | f in v && f.atEpochS > e.atEpochS ensures f in p {
        SortKeepsEntries(v, f);
        SortSorts(v);
        NewerInFront(p, q, e, f);
      }
    } else {
      var h := u[0];
      var p', q' := SplitAt(u[1..], e, v);
      assert (u + [e] + v)[1..] == u[1..] + [e] + v && (u + v)[1..] == u[1..] + v;
      p, q := InsertAround(h, p', e, q');
      forall f | f in u && f.atEpochS >= e.atEpochS ensures f in p {
        InsertHas(h, p', f);
        assert f == h || f in u[1..];
      }
      forall f | f in v && f.atEpochS > e.atEpochS ensures f in p {
        InsertHas(h, p', f);
      }
    }
  }

  lemma NewerInFront(p: seq<LedgerEntry>, q: seq<LedgerEntry>, e: LedgerEntry, f: LedgerEntry)
    requires NewestFirst(p + q) && f in p + q && f.atEpochS > e.atEpochS && (q == [] || e.atEpochS >= q[0].atEpochS)
    ensures f in p
  {
    forall k | 0 <= k < |q| ensures q[k].atEpochS <= e.atEpochS {
      assert (p + q)[|p|] == q[0] && (p + q)[|p| + k] == q[k];
    }
  }

  lemma InsertAround(h: LedgerEntry, p: seq<LedgerEntry>, e: LedgerEntry, q: seq<LedgerEntry>)
    returns (p': seq<LedgerEntry>, q': seq<LedgerEntry>)
    requires q == [] || e.atEpochS >= q[0].atEpochS
    requires forall k :: 0 <= k < |p| ==> p[k].atEpochS >= e.atEpochS
    ensures InsertFirst(h, p + [e] + q) == p' + [e] + q' && InsertFirst(h, p + q) == p' + q'
    ensures q' == [] || e.atEpochS >= q'[0].atEpochS
    ensures forall k :: 0 <= k < |p'| ==> p'[k].atEpochS >= e.atEpochS
    ensures p' == if h.atEpochS >= e.atEpochS then InsertFirst(h, p) else p
  {
    assert p + [e] + q == p + ([e] + q);
    if h.atEpochS >= e.atEpochS {
      InsertWithin(h, p, [e] + q);
      InsertWithin(h, p, q);
      p', q' := InsertFirst(h, p), q;
      forall k | 0 <= k < |p'| ensures p'[k].atEpochS >= e.atEpochS {
        InsertHas(h, p, p'[k]);
      }
    } else {
      InsertPast(h, p, [e] + q);
      InsertPast(h, p, q);
      InsertStep(h, e, q);
      p', q' := p, InsertFirst(h, q);
      assert p + ([e] + q') == p + [e] + q';
    }
  }

  // ----- dropping what is matched already -----

  lemma {:induction false} PassInTwo(kept: seq<LedgerEntry>, x: seq<LedgerEntry>, y: seq<LedgerEntry>)
    ensures KeepUnmatched(kept, x + y) == KeepUnmatched(KeepUnmatched(kept, x), y)
    decreases |x|
  {
    if x == [] {
      assert x + y == y;
    } else {
      assert (x + y)[1..] == x[1..] + y;
      PassInTwo(if Matches(kept, x[0]) then kept else kept + [x[0]], x[1..], y);
    }
  }

  lemma SortedPrefix(s: seq<LedgerEntry>, p: seq<LedgerEntry>, q: seq<LedgerEntry>)
    requires SortedNewestFirst(s) == p + q
    ensures NewestFirst(p) && Drawn(p, s) && Drawn(q, s)
  {
    SortSorts(s);
    forall i, j | 0 <= i < j < |p| ensures p[i].atEpochS >= p[j].atEpochS {
      assert (p + q)[i] == p[i] && (p + q)[j] == p[j];
    }
    forall e | e in p || e in q ensures e in s {
      assert e in p + q;
      SortKeepsEntries(s, e);
    }
  }

  /** What the pass keeps of a sorted list answers for every entry of it. */
  lemma PassAnswers(p: seq<LedgerEntry>, f: LedgerEntry)
    requires NewestFirst(p) && f in p
    ensures Covered(KeepUnmatched([], p), f)
  {
    assert [] + p == p;
    PassCovers([], p, f);
  }

  lemma PassDraws(p: seq<LedgerEntry>)
    ensures Drawn(KeepUnmatched([], p), p)
  {
    forall e | e in KeepUnmatched([], p) ensures e in p {
      PassAddsOnlyCandidates([], p, e);
    }
  }

  lemma PassSkips(p: seq<LedgerEntry>, e: LedgerEntry, q: seq<LedgerEntry>)
    requires Matches(KeepUnmatched([], p), e)
    ensures KeepUnmatched([], p + [e] + q) == KeepUnmatched([], p + q)
  {
    assert p + [e] + q == p + ([e] + q) && ([e] + q)[1..] == q;
    PassInTwo([], p, [e] + q);
    PassInTwo([], p, q);
  }

  lemma KeptAnswers(p: seq<LedgerEntry>, f: LedgerEntry, e: LedgerEntry, all: seq<LedgerEntry>)
    requires TransitiveOn(all) && Drawn(p, all) && e in all && NewestFirst(p) && f in p && IsSameEvent(f, e)
    ensures Matches(KeepUnmatched([], p), e)
  {
    var kept := KeepUnmatched([], p);
    PassAnswers(p, f);
    PassDraws(p);
    var k :| 0 <= k < |kept| && IsSameEvent(kept[k], f) && kept[k].atEpochS >= f.atEpochS;
    assert kept[k] in all && f in all;
  }

  lemma DrawnWithout(u: seq<LedgerEntry>, e: LedgerEntry, v: seq<LedgerEntry>, all: seq<LedgerEntry>)
    requires Drawn(u + [e] + v, all)
    ensures Drawn(u + v, all) && e in all
  {
    assert forall x :: x in u + v ==> x in u + [e] + v;
    assert e in u + [e] + v;
  }

  /** Where the relation is transitive, an entry matched by one before it in the sort can go without being missed. */
  lemma MatchedIsNotMissed(u: seq<LedgerEntry>, e: LedgerEntry, v: seq<LedgerEntry>, f: LedgerEntry,
                           all: seq<LedgerEntry>)
    requires TransitiveOn(all) && Drawn(u + [e] + v, all) && IsSameEvent(f, e) && f in u && f.atEpochS >= e.atEpochS
    ensures KeepUnmatched([], SortedNewestFirst(u + [e] + v)) == KeepUnmatched([], SortedNewestFirst(u + v))
  {
    var p, q := SplitAt(u, e, v);
    DrawnWithout(u, e, v, all);
    SortedPrefix(u + v, p, q);
    KeptAnswers(p, f, e, all);
    PassSkips(p, e, q);
  }

  /** So the pass may be made over one part of the entries first. */
  lemma {:induction false} PassFirst(w: seq<LedgerEntry>, kept: seq<LedgerEntry>, rest: seq<LedgerEntry>,
                                     c: seq<LedgerEntry>, all: seq<LedgerEntry>)
    requires TransitiveOn(all) && NewestFirst(kept + rest) && Drawn(w, all) && Drawn(kept + rest, all) && Drawn(c, all)
    ensures KeepUnmatched([], SortedNewestFirst(w + (kept + rest) + c))
         == KeepUnmatched([], SortedNewestFirst(w + KeepUnmatched(kept, rest) + c))
    decreases |rest|
  {
    if rest == [] {
      assert kept + rest == kept;
    } else if Matches(kept, rest[0]) {
      var k :| 0 <= k < |kept| && IsSameEvent(kept[k], rest[0]);
      assert (kept + rest)[k] == kept[k] && (kept + rest)[|kept|] == rest[0];
      var u, v := w + kept, rest[1..] + c;
      assert u + [rest[0]] + v == w + (kept + rest) + c && u + v == w + (kept + rest[1..]) + c;
      MatchedIsNotMissed(u, rest[0], v, kept[k], all);
      SubOrder(kept, rest);
      PassFirst(w, kept, rest[1..], c, all);
    } else {
      assert kept + rest == (kept + [rest[0]]) + rest[1..];
      PassFirst(w, kept + [rest[0]], rest[1..], c, all);
    }
  }

  // ----- the cap -----

  /** Separated entries need as many entries to answer for them. */
  lemma {:induction false} AnswersAreMany(g: seq<LedgerEntry>, kept: seq<LedgerEntry>, all: seq<LedgerEntry>)
    requires TransitiveOn(all) && Drawn(g, all) && Drawn(kept, all) && Separated(g)
    requires forall k :: 0 <= k < |g| ==> Matches(kept, g[k])
    ensures |g| <= |kept|
    decreases |g|
  {
    if g != [] {
      var n := |g| - 1;
      var j :| 0 <= j < |kept| && IsSameEvent(kept[j], g[n]);
      var others := kept[..j] + kept[j + 1..];
      forall k | 0 <= k < n ensures Matches(others, g[..n][k]) {
        var i :| 0 <= i < |kept| && IsSameEvent(kept[i], g[k]);
        assert kept[j] in all && g[k] in all && g[n] in all;
        assert !IsSameEvent(g[k], g[n]);
        assert i != j;
        assert others[if i < j then i else i - 1] == kept[i];
      }
      assert forall x :: x in others ==> x in kept;
      AnswersAreMany(g[..n], others, all);
    }
  }

  lemma KeptAreMany(g: seq<LedgerEntry>, p: seq<LedgerEntry>, all: seq<LedgerEntry>)
    requires TransitiveOn(all) && Drawn(p, all) && NewestFirst(p) && Separated(g) && Drawn(g, p)
    ensures |g| <= |KeepUnmatched([], p)|
  {
    var kept := KeepUnmatched([], p);
    PassDraws(p);
    forall k | 0 <= k < |g| ensures Matches(kept, g[k]) {
      PassAnswers(p, g[k]);
    }
    AnswersAreMany(g, kept, all);
  }

  lemma FullIsFull(p: seq<LedgerEntry>, e: LedgerEntry, q: seq<LedgerEntry>)
    requires |KeepUnmatched([], p)| >= LEDGER_CAP
    ensures Take(KeepUnmatched([], p + [e] + q), LEDGER_CAP) == Take(KeepUnmatched([], p + q), LEDGER_CAP)
  {
    var kept := KeepUnmatched([], p);
    assert p + [e] + q == p + ([e] + q);
    PassInTwo([], p, [e] + q);
    PassInTwo([], p, q);
    PassAppends(kept, [e] + q);
    PassAppends(kept, q);
    SameTake(kept, KeepUnmatched(kept, [e] + q), KeepUnmatched(kept, q));
  }

  /** Past thirty-two separated entries, one older than all of them never makes it into the ring. */
  lemma LastIsCut(w: seq<LedgerEntry>, g: seq<LedgerEntry>, e: LedgerEntry, c: seq<LedgerEntry>, all: seq<LedgerEntry>)
    requires TransitiveOn(all) && Drawn(w + (g + [e]) + c, all) && |g| >= LEDGER_CAP
    requires Separated(g) && forall k :: 0 <= k < |g| ==> g[k].atEpochS >= e.atEpochS
    ensures Ring(w + (g + [e]) + c) == Ring(w + g + c)
  {
    var u := w + g;
    var p, q := SplitAt(u, e, c);
    assert u + [e] + c == w + (g + [e]) + c;
    DrawnWithout(u, e, c, all);
    SortedPrefix(u + c, p, q);
    forall f | f in g ensures f in p {
      assert f in u;
    }
    KeptAreMany(g, p, all);
    FullIsFull(p, e, q);
  }

  lemma SameTake(kept: seq<LedgerEntry>, x: seq<LedgerEntry>, y: seq<LedgerEntry>)
    requires LEDGER_CAP <= |kept| <= |x| && |kept| <= |y| && x[..|kept|] == kept && y[..|kept|] == kept
    ensures Take(x, LEDGER_CAP) == Take(y, LEDGER_CAP)
  {
    assert x[..LEDGER_CAP] == x[..|kept|][..LEDGER_CAP] && y[..LEDGER_CAP] == y[..|kept|][..LEDGER_CAP];
  }

  lemma {:induction false} CapFirst(w: seq<LedgerEntry>, g: seq<LedgerEntry>, c: seq<LedgerEntry>,
                                    all: seq<LedgerEntry>)
    requires TransitiveOn(all) && Drawn(w, all) && Drawn(g, all) && Drawn(c, all) && Separated(g) && NewestFirst(g)
    ensures Ring(w + g + c) == Ring(w + Take(g, LEDGER_CAP) + c)
    decreases |g|
  {
    if |g| > LEDGER_CAP {
      var front := g[..|g| - 1];
      assert g == front + [g[|g| - 1]];
      LastIsCut(w, front, g[|g| - 1], c, all);
      CapFirst(w, front, c, all);
      assert Take(g, LEDGER_CAP) == Take(front, LEDGER_CAP);
    }
  }

  // ----- associativity -----

  lemma SortFirst(w: seq<LedgerEntry>, s: seq<LedgerEntry>, c: seq<LedgerEntry>)
    ensures SortedNewestFirst(w + s + c) == SortedNewestFirst(w + SortedNewestFirst(s) + c)
  {
    SortSorts(s);
    SortOfSorted(SortedNewestFirst(s));
    SortOfConcat(w + s, c);
    SortOfConcat(w, s);
    SortOfConcat(w + SortedNewestFirst(s), c);
    SortOfConcat(w, SortedNewestFirst(s));
  }

  /** Where the relation is transitive, part of the entries may be made a ring first. */
  lemma RingFirst(w: seq<LedgerEntry>, s: seq<LedgerEntry>, c: seq<LedgerEntry>, all: seq<LedgerEntry>)
    requires TransitiveOn(all) && Drawn(w, all) && Drawn(s, all) && Drawn(c, all)
    ensures Ring(w + s + c) == Ring(w + Ring(s) + c)
  {
    var x := SortedNewestFirst(s);
    SortFirst(w, s, c);
    SortedPart(s, all);
    assert [] + x == x;
    PassFirst(w, [], x, c, all);
    PassKeepsOrder([], x);
    PassDraws(x);
    CapFirst(w, KeepUnmatched([], x), c, all);
  }

  lemma SortedPart(s: seq<LedgerEntry>, all: seq<LedgerEntry>)
    requires Drawn(s, all)
    ensures Drawn(SortedNewestFirst(s), all) && NewestFirst(SortedNewestFirst(s))
  {
    SortSorts(s);
    forall e | e in SortedNewestFirst(s) ensures e in all {
      SortKeepsEntries(s, e);
    }
  }

  /** Union is associative where "same event" is transitive. */
  lemma UnionAssociates(a: seq<LedgerEntry>, b: seq<LedgerEntry>, c: seq<LedgerEntry>)
    requires TransitiveOn(a + b + c)
    ensures Merged(Merged(a, b), c) == Merged(a, Merged(b, c))
  {
    RingFirst([], a + b, c, a + b + c);
    RingFirst(a, b + c, [], a + b + c);
    assert [] + (a + b) + c == a + (b + c) + [];
    assert [] + Ring(a + b) + c == Ring(a + b) + c && a + Ring(b + c) + [] == a + Ring(b + c);
  }

  /** And where it is not, three rings of one entry show it. */
  lemma ChainDoesNotAssociate(x: LedgerEntry, y: LedgerEntry, z: LedgerEntry)
    requires IsSameEvent(x, y) && IsSameEvent(y, z) && !IsSameEvent(x, z) && x.atEpochS <= z.atEpochS
    ensures Merged(Merged([x], [y]), [z]) != Merged([x], Merged([y], [z]))
  {
    UnionOfTwo(x, y);
    UnionOfTwo(y, z);
    UnionOfTwo(x, z);
  }

  ghost predicate AssociatesOver(u: seq<LedgerEntry>) {
    forall a, b, c :: Drawn(a, u) && Drawn(b, u) && Drawn(c, u) ==> Merged(Merged(a, b), c) == Merged(a, Merged(b, c))
  }

  /** Over the entries of `u`, union is associative exactly when "same event" is transitive. */
  lemma AssociativeIffTransitive(u: seq<LedgerEntry>)
    ensures AssociatesOver(u) <==> TransitiveOn(u)
  {
    if TransitiveOn(u) {
      forall a, b, c | Drawn(a, u) && Drawn(b, u) && Drawn(c, u)
        ensures Merged(Merged(a, b), c) == Merged(a, Merged(b, c))
      {
        UnionAssociates(a, b, c);
      }
    } else {
      var x, y, z :| x in u && y in u && z in u && IsSameEvent(x, y) && IsSameEvent(y, z) && !IsSameEvent(x, z);
      assert Drawn([x], u) && Drawn([y], u) && Drawn([z], u);
      if x.atEpochS <= z.atEpochS {
        ChainDoesNotAssociate(x, y, z);
      } else {
        ChainDoesNotAssociate(z, y, x);
      }
    }
  }

  // ----- commutation -----

  ghost predicate CommutesOver(u: seq<LedgerEntry>) {
    forall a, b :: Drawn(a, u) && Drawn(b, u) ==> Merged(a, b) == Merged(b, a)
  }

  /** Over the entries of `u`, union commutes exactly when no two of them tie. */
  lemma CommutativeIffTieFree(u: seq<LedgerEntry>)
    ensures CommutesOver(u) <==> TieFree(u)
  {
    if TieFree(u) {
      forall a, b | Drawn(a, u) && Drawn(b, u) ensures Merged(a, b) == Merged(b, a) {
        UnionCommutes(a, b);
      }
    } else {
      var x, y :| x in u && y in u && x.atEpochS == y.atEpochS && x != y;
      assert Drawn([x], u) && Drawn([y], u);
      UnionOfTwo(x, y);
      UnionOfTwo(y, x);
      assert [x][0] != [y][0] && [x, y][0] != [y, x][0];
    }
  }
}
