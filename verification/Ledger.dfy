/** The completion ledger (crates/plugin/src/ledger.rs): a capped ring of finished work, and the union of two rings. */
module Ledgers {
  import opened Prelude
  import opened Vocabulary
  import opened Sanitizer
  import opened Observation

  const LEDGER_CAP: nat := 32
  const MERGE_WINDOW_S: nat := 4
  const MAX_TAB_NAME_CHARS: nat := 40

  type TabId = nat

  datatype LedgerOutcome = Done | Error

  datatype LedgerEntry = LedgerEntry(
    atEpochS: nat, outcome: LedgerOutcome, tabId: TabId, tabName: string, labelText: string, paneId: PaneId)

  function KindToken(k: Kind): string {
    match k
    case Claude => "claude" case Codex => "codex" case Opencode => "opencode" case Pi => "pi" case Omp => "omp"
    case Gemini => "gemini" case Command => "command" case Other => "other" case Test => "test" case Build => "build"
    case Deploy => "deploy" case Server => "server" case Remote => "remote"
  }

  /** Sanitize, trim, and fall back: a ledger column is never blank. */
  function SanitizedOr(text: string, maxChars: nat, fallback: string): string {
    var trimmed := Trim(Sanitize(text, maxChars));
    if trimmed == [] then fallback else trimmed
  }

  function EntryLabel(obs: Tracked): string {
    if Trim(obs.msg) != [] then obs.msg
    else if obs.origin.Observed? then KindToken(obs.kind)
    else "turn done"
  }

  /** An entry from an observation leaving the card; only a stamped completion makes one. */
  function FromObservation(paneId: PaneId, obs: Tracked, tabId: TabId, tabName: string): Option<LedgerEntry> {
    if !obs.status.IsCompletion() || obs.completedEpochS.None? then None
    else
      Some(LedgerEntry(obs.completedEpochS.value,
                       if obs.status == Status.Done then LedgerOutcome.Done else LedgerOutcome.Error,
                       tabId, SanitizedOr(tabName, MAX_TAB_NAME_CHARS, "tab"), EntryLabel(obs), paneId))
  }

  predicate IsSameEvent(a: LedgerEntry, b: LedgerEntry) {
    && a.paneId == b.paneId && a.outcome == b.outcome && a.labelText == b.labelText
    && SatSub(a.atEpochS, b.atEpochS) <= MERGE_WINDOW_S && SatSub(b.atEpochS, a.atEpochS) <= MERGE_WINDOW_S
  }

  predicate Matches(kept: seq<LedgerEntry>, e: LedgerEntry) {
    exists k :: 0 <= k < |kept| && IsSameEvent(kept[k], e)
  }

  /** No two entries are the same event. */
  predicate Separated(s: seq<LedgerEntry>) {
    forall i, j :: 0 <= i < j < |s| ==> !IsSameEvent(s[i], s[j])
  }

  predicate NewestFirst(s: seq<LedgerEntry>) {
    forall i, j :: 0 <= i < j < |s| ==> s[i].atEpochS >= s[j].atEpochS
  }

  // ----- the stable sort `sort_by_key(Reverse(at))` -----

  /** Put `e`, which came earlier, into a sorted list: before its equals. */
  function InsertFirst(e: LedgerEntry, s: seq<LedgerEntry>): seq<LedgerEntry> {
    if s == [] || e.atEpochS >= s[0].atEpochS then [e] + s else [s[0]] + InsertFirst(e, s[1..])
  }

  function SortedNewestFirst(s: seq<LedgerEntry>): seq<LedgerEntry> {
    if s == [] then [] else InsertFirst(s[0], SortedNewestFirst(s[1..]))
  }

  // ----- the union of two rings -----

  /** Keep each candidate that matches nothing kept before it. */
  function KeepUnmatched(kept: seq<LedgerEntry>, rest: seq<LedgerEntry>): seq<LedgerEntry>
    decreases |rest|
  {
    if rest == [] then kept
    else KeepUnmatched(if Matches(kept, rest[0]) then kept else kept + [rest[0]], rest[1..])
  }

  function Merged(a: seq<LedgerEntry>, b: seq<LedgerEntry>): seq<LedgerEntry> {
    Take(KeepUnmatched([], SortedNewestFirst(a + b)), LEDGER_CAP)
  }

  method Merge(a: seq<LedgerEntry>, b: seq<LedgerEntry>) returns (kept: seq<LedgerEntry>)
    ensures kept == Merged(a, b)
  {
    var all := SortedNewestFirst(a + b);
    kept := [];
    for n := 0 to |all|
      invariant KeepUnmatched(kept, all[n..]) == KeepUnmatched([], all)
    {
      var candidate := all[n];
      assert all[n..][1..] == all[n + 1..];
      if !exists k :: 0 <= k < |kept| && IsSameEvent(kept[k], candidate) {
        kept := kept + [candidate];
      }
    }
    if |kept| > LEDGER_CAP {
      kept := kept[..LEDGER_CAP];
    }
  }

  function Pushed(entries: seq<LedgerEntry>, e: LedgerEntry): seq<LedgerEntry> {
    if Matches(entries, e) then entries else Take([e] + entries, LEDGER_CAP)
  }

  class Ledger {
    var entries: seq<LedgerEntry>

    constructor ()
      ensures entries == []
    {
      entries := [];
    }

    /** Append unless the same event is already there; says whether it was new. */
    method Push(entry: LedgerEntry) returns (isNew: bool)
      modifies this
      ensures isNew == !Matches(old(entries), entry) && entries == Pushed(old(entries), entry)
    {
      if exists k :: 0 <= k < |entries| && IsSameEvent(entries[k], entry) {
        return false;
      }
      entries := [entry] + entries;
      if |entries| > LEDGER_CAP {
        entries := entries[..LEDGER_CAP];
      }
      return true;
    }

    method Replace(loaded: seq<LedgerEntry>)
      modifies this
      ensures entries == Take(SortedNewestFirst(loaded), LEDGER_CAP)
    {
      var sorted := SortedNewestFirst(loaded);
      entries := if |sorted| > LEDGER_CAP then sorted[..LEDGER_CAP] else sorted;
    }
  }
}
