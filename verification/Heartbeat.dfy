/** Both ends of a quiet heartbeat: the producer's dedup (crates/cli/src/dedup.rs) keeps a repeated `running` unsent,
    and the plugin's grace clock (crates/plugin/src/status_store.rs) runs out on a running row nobody vouches for. */
module Heartbeat {
  import opened Prelude
  import opened Vocabulary
  import opened Observation
  import opened StatusStores
  import Dedup
  import Wire

  const HEARTBEAT_SECS: nat := 5

  /** On one clock, a second a tick: the producer's hook fires, the pane's foreground is back at a shell, the timer. */
  datatype Event = Hook(now: nat) | Prompt(now: nat) | Timer(now: nat)

  /** The latest hook of a non-empty run; its start when there is none. */
  function LatestHook(events: seq<Event>): nat
    requires events != []
    decreases |events|
  {
    var last := events[|events| - 1];
    if last.Hook? || |events| == 1 then last.now else LatestHook(events[..|events| - 1])
  }

  /** A working producer: time moves on, and whatever happens, a hook fired in the five seconds before. */
  predicate Working(events: seq<Event>) {
    && (forall k :: 0 < k < |events| ==> events[k - 1].now <= events[k].now)
    && (forall k :: 0 < k < |events| ==> events[k].now <= LatestHook(events[..k]) + HEARTBEAT_SECS)
    && (events != [] ==> events[0].Hook?)
  }

  function KeyOf(p: Wire.StatusPayload): Dedup.SentKey {
    Dedup.SentKey(p.status, p.source, p.msg, p.task)
  }

  method OnHook(last: Dedup.LastSent, store: StatusStore, p: Wire.StatusPayload, now: nat) returns (sent: bool)
    requires last.cell.Some? ==> last.cell.value.key == KeyOf(p)
    modifies last, store, store.store
    ensures last.cell == if sent then Some(Dedup.Record(KeyOf(p), now)) else old(last.cell)
    ensures !sent ==> last.cell.Some? && last.cell.value.sentAt <= now < last.cell.value.sentAt + Dedup.DEDUP_TTL_SECS
    ensures if sent then p.paneId !in store.suspects else store.suspects == old(store.suspects)
  {
    sent := last.Broadcast(Dedup.Attempt(KeyOf(p), p.tasks.Some?, now, true, true));
    if sent {
      var _, _ := store.Apply(p, now, now);
      assert Lookup(store.suspects, p.paneId) == None;
    }
  }

  /** However the producer's repeats are suppressed and however often the pane shows a shell: while the producer works,
      its running row never expires. */
  method NeverExpires(last: Dedup.LastSent, store: StatusStore, p: Wire.StatusPayload, events: seq<Event>)
    returns (expired: seq<set<PaneId>>)
    requires last.cell == None && Working(events)
    modifies last, store, store.store
    ensures forall k :: 0 <= k < |expired| ==> p.paneId !in expired[k]
  {
    hide Idled, ClearsOnReturn, KeyOf;
    expired := [];
    ghost var heard := 0;
    for n := 0 to |events|
      invariant n == 0 ==> last.cell == None
      invariant n > 0 ==> last.cell == Some(Dedup.Record(KeyOf(p), heard))
      invariant n > 0 ==> heard <= LatestHook(events[..n]) < heard + Dedup.DEDUP_TTL_SECS && heard <= events[n - 1].now
      invariant n > 0 && p.paneId in store.suspects ==> heard <= store.suspects[p.paneId]
      invariant forall k :: 0 <= k < |expired| ==> p.paneId !in expired[k]
    {
      assert events[..n + 1][..n] == events[..n];
      match events[n] {
        case Hook(now) =>
          var sent := OnHook(last, store, p, now);
          heard := if sent then now else heard;
        case Prompt(now) =>
          var _ := store.ClearOnPromptReturn(p.paneId, now);
        case Timer(now) =>
          assert !store.SuspectDue(p.paneId, now);
          ghost var before := store.suspects;
          var cleared := store.ExpireStaleRunning(now);
          assert Lookup(store.suspects, p.paneId) == Lookup(before, p.paneId);
          expired := expired + [cleared];
      }
    }
  }
}
