/** The record every store shares, and the map of them (crates/core/src/observation.rs). */
module Observation {
  import opened Prelude
  import opened Vocabulary
  import opened Tasks

  type PaneId = nat

  datatype Origin = StatusPipe | Observed

  datatype Tracked = Tracked(
    origin: Origin, status: Status, repo: string, branch: string, msg: string, task: string, kind: Kind,
    lastChangeTick: nat, everActive: bool, exitCode: Option<int>, completedEpochS: Option<nat>,
    pendingEpochS: Option<nat>, acknowledged: bool, tasks: TaskList)
  {
    /** Running work that draws an animated glyph. */
    predicate Animating() {
      status == Status.Running && !kind.IsSteady()
    }
  }

  /** A freshly resolved command-origin observation. */
  function CommandRow(status: Status, repo: string, msg: string, kind: Kind, tick: nat): Tracked {
    Tracked(Observed, status, repo, "", msg, "", kind, tick, true, None, None, None, false, NO_TASKS)
  }

  function Lookup<T>(m: map<PaneId, T>, id: PaneId): Option<T> {
    if id in m then Some(m[id]) else None
  }

  /** What a store hands out, one entry per pane. */
  type Drops = map<PaneId, Tracked>

  /** A pane-to-observation map. */
  class ObservationStore {
    var rows: map<PaneId, Tracked>

    constructor ()
      ensures rows == map[]
    {
      rows := map[];
    }

    /** Insert, returning the observation this one displaced. */
    method Insert(id: PaneId, observation: Tracked) returns (displaced: Option<Tracked>)
      modifies this
      ensures rows == old(rows)[id := observation] && displaced == Lookup(old(rows), id)
    {
      displaced := Lookup(rows, id);
      rows := rows[id := observation];
    }

    /** Drop every entry not in `live`, returning every dropped observation. */
    method Prune(live: set<PaneId>) returns (dropped: Drops)
      modifies this
      ensures forall id :: Lookup(rows, id) == (if id in live then Lookup(old(rows), id) else None)
      ensures forall id :: Lookup(dropped, id) == (if id in live then None else Lookup(old(rows), id))
    {
      dropped := map id | id in rows && id !in live :: rows[id];
      rows := map id | id in rows && id in live :: rows[id];
    }

    /** Evict-only removal: nothing is handed out. */
    method Remove(id: PaneId)
      modifies this
      ensures rows == old(rows) - {id}
    {
      rows := rows - {id};
    }
  }
}
