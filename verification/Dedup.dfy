/** Producer dedup (crates/cli/src/dedup.rs and `broadcast` of crates/cli/src/notify.rs): one remembered payload per
    pane, which lets a repeated `running` go unsent for a while. */
module Dedup {
  import opened Prelude
  import opened Vocabulary

  const DEDUP_TTL_SECS: nat := 10
  /** The plugin's grace for a running row without a payload (crates/core/src/pipe.rs). */
  const RUNNING_QUIET_MAX_SECS: nat := 15

  datatype SentKey = SentKey(status: Status, source: string, msg: string, task: string)

  datatype Record = Record(key: SentKey, sentAt: nat)

  /** A record stamped in the future is never trusted. */
  predicate IsRedundant(key: SentKey, last: Record, now: nat) {
    key.status == Status.Running && last.key == key && last.sentAt <= now && now - last.sentAt < DEDUP_TTL_SECS
  }

  /** One call of `broadcast`: an edge carries background tasks; a confirmed send was delivered. */
  datatype Attempt = Attempt(key: SentKey, edge: bool, now: nat, delivered: bool, confirmed: bool)

  /** The producer's record; the key the receiver last got, and when. */
  datatype Line = Line(record: Option<Record>, shown: Option<SentKey>, heardAt: Option<nat>)

  const QUIET_LINE := Line(None, None, None)

  predicate Suppressed(record: Option<Record>, a: Attempt) {
    !a.edge && record.Some? && IsRedundant(a.key, record.value, a.now)
  }

  function RecordAfter(record: Option<Record>, a: Attempt): Option<Record> {
    if !Suppressed(record, a) && a.confirmed then Some(Record(a.key, a.now)) else record
  }

  /** The receiver's half of a send. */
  function Heard(l: Line, a: Attempt): Line {
    if a.delivered then l.(shown := Some(a.key), heardAt := Some(a.now)) else l
  }

  function Step(l: Line, a: Attempt): Line {
    if Suppressed(l.record, a) then l else Heard(l, a).(record := RecordAfter(l.record, a))
  }

  function Run(l: Line, attempts: seq<Attempt>): Line
    decreases |attempts|
  {
    if attempts == [] then l else Step(Run(l, attempts[..|attempts| - 1]), attempts[|attempts| - 1])
  }

  /** The same attempts with dedup off. */
  function RunAll(l: Line, attempts: seq<Attempt>): Line
    decreases |attempts|
  {
    if attempts == [] then l else Heard(RunAll(l, attempts[..|attempts| - 1]), attempts[|attempts| - 1])
  }

  /** An attempt is held back exactly when it is no edge, says that work is running, says what was sent last in every
      word, and that was sent less than ten seconds ago - and not in the future. */
  lemma HeldBackIff(last: Record, a: Attempt)
    ensures Suppressed(Some(last), a) <==>
              && !a.edge && a.key.status == Status.Running
              && a.key.source == last.key.source && a.key.msg == last.key.msg && a.key.task == last.key.task
              && last.key.status == Status.Running
              && last.sentAt <= a.now < last.sentAt + 10
    ensures !Suppressed(None, a)
  {
  }

  // ----- the record file -----

  class LastSent {
    var cell: Option<Record>

    constructor ()
      ensures cell == None
    {
      cell := None;
    }

    method IsDuplicate(key: SentKey, now: nat) returns (r: bool)
      ensures r <==> cell.Some? && IsRedundant(key, cell.value, now)
    {
      if cell.None? {
        return false;
      }
      var last := cell.value;
      r := key.status == Status.Running && last.key == key && last.sentAt <= now && now - last.sentAt < DEDUP_TTL_SECS;
    }

    method Remember(key: SentKey, now: nat)
      modifies this
      ensures cell == Some(Record(key, now))
    {
      cell := Some(Record(key, now));
    }

    /** The broadcast tail: check, send, record. `delivered` and `confirmed` are how the send, if there is one, goes. */
    method Broadcast(a: Attempt) returns (sent: bool)
      modifies this
      ensures sent == !Suppressed(old(cell), a) && cell == RecordAfter(old(cell), a)
    {
      if !a.edge {
        var repeat := IsDuplicate(a.key, a.now);
        if repeat {
          return false;
        }
      }
      if a.confirmed {
        Remember(a.key, a.now);
      }
      sent := true;
    }
  }

  // ----- suppression is stuttering -----

  /** What the record says, the receiver has. */
  predicate Faithful(l: Line) {
    l.record.Some? ==> l.shown == Some(l.record.value.key) && l.heardAt == Some(l.record.value.sentAt)
  }

  /** A send is confirmed exactly when it was delivered. */
  predicate Honest(attempts: seq<Attempt>) {
    forall k :: 0 <= k < |attempts| ==> attempts[k].confirmed == attempts[k].delivered
  }

  lemma {:induction false} HonestRunIsFaithful(l: Line, attempts: seq<Attempt>)
    requires Faithful(l) && Honest(attempts)
    ensures Faithful(Run(l, attempts)) && Run(l, attempts).shown == RunAll(l, attempts).shown
    decreases |attempts|
  {
    if attempts != [] {
      var front := attempts[..|attempts| - 1];
      assert Honest(front) by {
        assert forall k :: 0 <= k < |front| ==> front[k] == attempts[k];
      }
      HonestRunIsFaithful(l, front);
      assert attempts[|attempts| - 1].confirmed == attempts[|attempts| - 1].delivered;
    }
  }

  /** Suppressing repeats never shows: after every attempt the receiver has the key it would have with dedup off. */
  lemma DedupIsInvisible(attempts: seq<Attempt>)
    requires Honest(attempts)
    ensures Run(QUIET_LINE, attempts).shown == RunAll(QUIET_LINE, attempts).shown
  {
    HonestRunIsFaithful(QUIET_LINE, attempts);
  }

  /** When every send arrives, that is the last attempt's key. */
  lemma {:induction false} ReceiverHasTheLatest(attempts: seq<Attempt>)
    requires attempts != [] && forall k :: 0 <= k < |attempts| ==> attempts[k].confirmed && attempts[k].delivered
    ensures Run(QUIET_LINE, attempts).shown == Some(attempts[|attempts| - 1].key)
  {
    HonestRunIsFaithful(QUIET_LINE, attempts);
  }

  /** The attempt at `k` goes out. */
  predicate Sent(l: Line, attempts: seq<Attempt>, k: nat)
    requires k < |attempts|
  {
    !Suppressed(Run(l, attempts[..k]).record, attempts[k])
  }

  /** The last of the first `n` attempts that was sent and delivered. */
  function LastDelivery(l: Line, attempts: seq<Attempt>, n: nat): (j: Option<nat>)
    requires n <= |attempts|
    ensures j.Some? ==> j.value < n && Sent(l, attempts, j.value) && attempts[j.value].delivered
  {
    if n == 0 then None
    else if Sent(l, attempts, n - 1) && attempts[n - 1].delivered then Some(n - 1)
    else LastDelivery(l, attempts, n - 1)
  }

  /** A send the producer has confirmation of did arrive. */
  predicate Trustworthy(attempts: seq<Attempt>) {
    forall k :: 0 <= k < |attempts| ==> attempts[k].confirmed ==> attempts[k].delivered
  }

  /** The attempt at `k` is held back as a repeat, it would have arrived, and the last delivery before it was an
      unconfirmed one of another key. */
  predicate Shadowed(l: Line, attempts: seq<Attempt>, k: nat)
    requires k < |attempts|
  {
    var last := LastDelivery(l, attempts, k);
    && !Sent(l, attempts, k) && attempts[k].delivered
    && last.Some? && !attempts[last.value].confirmed && attempts[last.value].key != attempts[k].key
  }

  /** What the receiver shows and the producer remembers, read off the last delivery: a confirmed one is both; an
      unconfirmed one is shown over whatever record there was. */
  lemma {:induction false} LastDeliveryIsShown(l: Line, attempts: seq<Attempt>, n: nat)
    requires Faithful(l) && Trustworthy(attempts) && n <= |attempts|
    ensures var r, last := Run(l, attempts[..n]), LastDelivery(l, attempts, n);
            if last.None? then r.shown == l.shown && r.record == l.record
            else r.shown == Some(attempts[last.value].key)
                 && (attempts[last.value].confirmed ==>
                       r.record.Some? && r.record.value.key == attempts[last.value].key)
  {
    if n > 0 {
      LastDeliveryIsShown(l, attempts, n - 1);
      OneMore(l, attempts[..n - 1], attempts[n - 1]);
      assert attempts[..n] == attempts[..n - 1] + [attempts[n - 1]];
    }
  }

  /** Held back, an attempt's key is on show unless it is shadowed. */
  lemma HeldBackIsShown(l: Line, attempts: seq<Attempt>, k: nat)
    requires Faithful(l) && Trustworthy(attempts) && k < |attempts| && !Sent(l, attempts, k) && attempts[k].delivered
    ensures Run(l, attempts[..k]).shown == Some(attempts[k].key) <==> !Shadowed(l, attempts, k)
  {
    LastDeliveryIsShown(l, attempts, k);
  }

  /** The receiver shows, after the first `n` attempts, what it would with dedup off. */
  predicate SameAfter(l: Line, attempts: seq<Attempt>, n: nat)
    requires n <= |attempts|
  {
    Run(l, attempts[..n]).shown == RunAll(l, attempts[..n]).shown
  }

  lemma SameAfterStep(l: Line, attempts: seq<Attempt>, k: nat)
    requires Faithful(l) && Trustworthy(attempts) && k < |attempts| && SameAfter(l, attempts, k)
    ensures SameAfter(l, attempts, k + 1) <==> !Shadowed(l, attempts, k)
  {
    var front, a := attempts[..k], attempts[k];
    assert attempts[..k + 1] == front + [a] && (front + [a])[..k] == front;
    OneMore(l, front, a);
    if !Sent(l, attempts, k) && a.delivered {
      HeldBackIsShown(l, attempts, k);
    }
  }

  lemma {:induction false} SameUntil(l: Line, attempts: seq<Attempt>, n: nat)
    requires Faithful(l) && Trustworthy(attempts) && n <= |attempts|
    requires forall k :: 0 <= k < n ==> !Shadowed(l, attempts, k)
    ensures SameAfter(l, attempts, n)
  {
    if n > 0 {
      SameUntil(l, attempts, n - 1);
      SameAfterStep(l, attempts, n - 1);
    }
  }

  /** Suppression shows exactly when an attempt is shadowed. Over any run, after every attempt the receiver has the
      key it would have with dedup off if and only if nothing held back that would have arrived follows, as the last
      delivery before it, an unconfirmed one of another key. */
  lemma DedupShowsExactlyWhenShadowed(l: Line, attempts: seq<Attempt>)
    requires Faithful(l) && Trustworthy(attempts)
    ensures (forall n :: 0 <= n <= |attempts| ==> SameAfter(l, attempts, n))
            <==> (forall k :: 0 <= k < |attempts| ==> !Shadowed(l, attempts, k))
  {
    if forall k :: 0 <= k < |attempts| ==> !Shadowed(l, attempts, k) {
      forall n | 0 <= n <= |attempts| ensures SameAfter(l, attempts, n) {
        SameUntil(l, attempts, n);
      }
    } else {
      var k :| 0 <= k < |attempts| && Shadowed(l, attempts, k);
      if SameAfter(l, attempts, k) {
        SameAfterStep(l, attempts, k);
      }
    }
  }

  lemma OneMore(l: Line, front: seq<Attempt>, a: Attempt)
    ensures Run(l, front + [a]) == Step(Run(l, front), a)
  {
    assert (front + [a])[..|front|] == front;
  }

  /** And that happens: a `done` delivered without confirmation, then the running key again within the window. */
  lemma UnconfirmedDeliveryParts(key: SentKey, done: SentKey, now: nat)
    requires key.status == Status.Running && done.status == Status.Done
    ensures var attempts := [Attempt(key, false, now, true, true), Attempt(done, false, now, true, false),
                             Attempt(key, false, now, true, true)];
            Run(QUIET_LINE, attempts).shown == Some(done) && RunAll(QUIET_LINE, attempts).shown == Some(key)
  {
    var a, b := Attempt(key, false, now, true, true), Attempt(done, false, now, true, false);
    OneMore(QUIET_LINE, [], a);
    OneMore(QUIET_LINE, [a], b);
    OneMore(QUIET_LINE, [a, b], a);
    assert [] + [a] == [a] && [a] + [b] == [a, b] && [a, b] + [a] == [a, b, a];
    assert [a, b, a][..2] == [a, b];
  }

  // ----- the quiet clock -----

  /** A producer repeating one running key, every send confirmed, at most `gap` seconds apart. */
  predicate Steady(attempts: seq<Attempt>, key: SentKey, gap: nat) {
    && (forall k :: 0 <= k < |attempts| ==> attempts[k].key == key && attempts[k].delivered && attempts[k].confirmed)
    && (forall k :: 0 < k < |attempts| ==> attempts[k - 1].now <= attempts[k].now <= attempts[k - 1].now + gap)
  }

  /** After each of its attempts the receiver heard within the window. */
  lemma {:induction false} HeardWithinTtl(l: Line, attempts: seq<Attempt>, key: SentKey, gap: nat)
    requires Faithful(l) && Steady(attempts, key, gap) && attempts != []
    ensures var r, now := Run(l, attempts), attempts[|attempts| - 1].now;
            r.heardAt.Some? && r.heardAt.value <= now < r.heardAt.value + DEDUP_TTL_SECS && r.shown == Some(key)
            && r.record == Some(Record(key, r.heardAt.value))
    decreases |attempts|
  {
    var front := attempts[..|attempts| - 1];
    if front != [] {
      assert Steady(front, key, gap) by {
        assert forall k :: 0 <= k < |front| ==> front[k] == attempts[k];
      }
      HeardWithinTtl(l, front, key, gap);
    }
  }

  /** A producer that attempts an unchanged `running` at least every five seconds is never quiet for more than fourteen:
      when it attempts again, the receiver last heard at most that long ago - inside the plugin's grace. */
  lemma NeverQuietPastTheGrace(l: Line, attempts: seq<Attempt>, key: SentKey, k: nat)
    requires Faithful(l) && Steady(attempts, key, 5) && 0 < k < |attempts|
    ensures var r := Run(l, attempts[..k]);
            r.heardAt.Some? && r.heardAt.value <= attempts[k].now <= r.heardAt.value + 14
            && 14 < RUNNING_QUIET_MAX_SECS
  {
    var front := attempts[..k];
    assert Steady(front, key, 5) by {
      assert forall j :: 0 <= j < |front| ==> front[j] == attempts[j];
    }
    HeardWithinTtl(l, front, key, 5);
  }

  /** Fourteen is what it can come to. */
  lemma FourteenIsReached(key: SentKey)
    requires key.status == Status.Running
    ensures var three := [Attempt(key, false, 0, true, true), Attempt(key, false, 4, true, true),
                          Attempt(key, false, 9, true, true)];
            var fourth := Attempt(key, false, 14, true, true);
            Steady(three + [fourth], key, 5) && Run(QUIET_LINE, three).heardAt == Some(0)
            && Run(QUIET_LINE, three + [fourth]).heardAt == Some(14)
  {
    var a, b, c, d := Attempt(key, false, 0, true, true), Attempt(key, false, 4, true, true),
                      Attempt(key, false, 9, true, true), Attempt(key, false, 14, true, true);
    OneMore(QUIET_LINE, [], a);
    OneMore(QUIET_LINE, [a], b);
    OneMore(QUIET_LINE, [a, b], c);
    OneMore(QUIET_LINE, [a, b, c], d);
    assert [] + [a] == [a] && [a] + [b] == [a, b] && [a, b] + [c] == [a, b, c];
  }
}
