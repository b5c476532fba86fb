/** Attention cycling (`cycle_attention` of crates/plugin/src/radar_state.rs): the next or previous tab that needs the
    user, wrapping at the ends. */
module Attention {
  import opened Prelude
  import opened Vocabulary

  datatype Direction = Next | Prev

  predicate Ascending(s: seq<nat>) {
    forall i, j :: 0 <= i < j < |s| ==> s[i] < s[j]
  }

  /** Put `p` into an ascending list, once. */
  function InsertOnce(p: nat, s: seq<nat>): (r: seq<nat>)
    requires Ascending(s)
    ensures Ascending(r) && forall x :: x in r <==> x == p || x in s
  {
    if s == [] then [p]
    else if p < s[0] then [p] + s
    else if p == s[0] then s
    else
      var rest := InsertOnce(p, s[1..]);
      assert Ascending([s[0]] + rest) by {
        forall k | 0 <= k < |rest| ensures rest[k] > s[0] {
          assert rest[k] in rest;
        }
      }
      assert s == [s[0]] + s[1..];
      [s[0]] + rest
  }

  /** The positions that need attention, sorted and without repeats. */
  function Members(tabs: seq<(nat, Status)>): (r: seq<nat>)
    ensures Ascending(r)
    ensures forall p :: p in r <==> exists k :: 0 <= k < |tabs| && tabs[k].0 == p && tabs[k].1.NeedsAttention()
  {
    if tabs == [] then []
    else
      var rest := Members(tabs[1..]);
      assert forall k :: 1 <= k < |tabs| ==> tabs[k] == tabs[1..][k - 1];
      if tabs[0].1.NeedsAttention() then InsertOnce(tabs[0].0, rest) else rest
  }

  function FirstAbove(members: seq<nat>, a: nat): Option<nat> {
    if members == [] then None else if members[0] > a then Some(members[0]) else FirstAbove(members[1..], a)
  }

  function LastBelow(members: seq<nat>, a: nat): Option<nat> {
    if members == [] then None
    else if members[|members| - 1] < a then Some(members[|members| - 1])
    else LastBelow(members[..|members| - 1], a)
  }

  /** The target before the no-op check. */
  function Target(members: seq<nat>, active: Option<nat>, dir: Direction): nat
    requires members != []
  {
    var found :=
      if active.None? then None
      else if dir.Next? then FirstAbove(members, active.value) else LastBelow(members, active.value);
    if found.Some? then found.value else if dir.Next? then members[0] else members[|members| - 1]
  }

  function CycleAttention(tabs: seq<(nat, Status)>, active: Option<nat>, dir: Direction): Option<nat> {
    var members := Members(tabs);
    if members == [] then None
    else
      var target := Target(members, active, dir);
      if active == Some(target) then None else Some(target)
  }

  // ----- what a step does -----

  lemma {:induction false} FirstAboveAt(members: seq<nat>, i: nat)
    requires Ascending(members) && i < |members|
    ensures FirstAbove(members, members[i]) == if i + 1 < |members| then Some(members[i + 1]) else None
  {
    if i == 0 {
      NothingAbove(members[1..], members[0]);
    } else {
      FirstAboveAt(members[1..], i - 1);
    }
  }

  lemma {:induction false} NothingAbove(members: seq<nat>, a: nat)
    ensures members != [] && members[0] > a ==> FirstAbove(members, a) == Some(members[0])
    ensures (forall k :: 0 <= k < |members| ==> members[k] <= a) <==> FirstAbove(members, a).None?
  {
    if members != [] && members[0] <= a {
      NothingAbove(members[1..], a);
      assert forall k :: 1 <= k < |members| ==> members[k] == members[1..][k - 1];
    }
  }

  lemma {:induction false} LastBelowAt(members: seq<nat>, i: nat)
    requires Ascending(members) && i < |members|
    ensures LastBelow(members, members[i]) == if i > 0 then Some(members[i - 1]) else None
    decreases |members|
  {
    var n := |members| - 1;
    if i == n {
      if n > 0 {
        assert members[..n][n - 1] < members[n];
      }
    } else {
      LastBelowAt(members[..n], i);
    }
  }

  function After(i: nat, n: nat): nat {
    if i + 1 < n then i + 1 else 0
  }

  function Before(i: nat, n: nat): nat {
    if i > 0 then i - 1 else SatSub(n, 1)
  }

  /** From a member, Next goes to the following member and Prev to the preceding one, around the ends. */
  lemma StepsAround(members: seq<nat>, i: nat)
    requires Ascending(members) && i < |members|
    ensures Target(members, Some(members[i]), Next) == members[After(i, |members|)]
    ensures Target(members, Some(members[i]), Prev) == members[Before(i, |members|)]
  {
    FirstAboveAt(members, i);
    LastBelowAt(members, i);
  }

  /** With two members or more there is always such a step. */
  lemma StepFrom(tabs: seq<(nat, Status)>, i: nat)
    requires i < |Members(tabs)| && |Members(tabs)| >= 2
    ensures var members := Members(tabs);
            && CycleAttention(tabs, Some(members[i]), Next) == Some(members[After(i, |members|)])
            && CycleAttention(tabs, Some(members[i]), Prev) == Some(members[Before(i, |members|)])
  {
    StepsAround(Members(tabs), i);
  }

  /** There is no target exactly when no tab needs attention, or only the active one does. */
  lemma NoTargetIff(tabs: seq<(nat, Status)>, active: Option<nat>, dir: Direction)
    ensures CycleAttention(tabs, active, dir).None? <==>
              Members(tabs) == [] || (active.Some? && Members(tabs) == [active.value])
  {
    var members := Members(tabs);
    if members != [] && active.Some? && active.value in members {
      var i :| 0 <= i < |members| && members[i] == active.value;
      StepsAround(members, i);
      assert |members| == 1 ==> members == [active.value];
    } else if members != [] && active.Some? {
      TargetIsMember(members, active.value, dir);
    }
  }

  lemma {:induction false} FoundIsMember(members: seq<nat>, a: nat)
    ensures FirstAbove(members, a).Some? ==> FirstAbove(members, a).value in members
    ensures LastBelow(members, a).Some? ==> LastBelow(members, a).value in members
    decreases |members|
  {
    if members != [] {
      FoundIsMember(members[1..], a);
      FoundIsMember(members[..|members| - 1], a);
    }
  }

  lemma TargetIsMember(members: seq<nat>, a: nat, dir: Direction)
    requires members != []
    ensures Target(members, Some(a), dir) in members
  {
    FoundIsMember(members, a);
  }

  /** A target is a tab that needs attention. */
  lemma TargetNeedsAttention(tabs: seq<(nat, Status)>, active: Option<nat>, dir: Direction)
    ensures var target := CycleAttention(tabs, active, dir);
            target.Some? ==> exists k :: 0 <= k < |tabs| && tabs[k].0 == target.value && tabs[k].1.NeedsAttention()
  {
    var target := CycleAttention(tabs, active, dir);
    if Members(tabs) != [] && active.Some? {
      TargetIsMember(Members(tabs), active.value, dir);
    }
    assert target.Some? ==> target.value in Members(tabs);
  }

  /** `t` is the closest of the members past `a`: above it going Next, below it going Prev. */
  predicate ClosestPast(members: seq<nat>, a: nat, dir: Direction, t: nat) {
    t in members && if dir.Next? then t > a && forall p :: p in members && p > a ==> t <= p
                    else t < a && forall p :: p in members && p < a ==> p <= t
  }

  /** `t` is the member a walk in this direction starts from. */
  predicate FirstOf(members: seq<nat>, dir: Direction, t: nat) {
    t in members && forall p :: p in members ==> if dir.Next? then t <= p else p <= t
  }

  lemma {:induction false} FirstAboveIsClosest(members: seq<nat>, a: nat)
    requires Ascending(members)
    ensures var t := FirstAbove(members, a);
            if t.Some? then ClosestPast(members, a, Next, t.value) else forall p :: p in members ==> p <= a
  {
    if members != [] {
      FirstAboveIsClosest(members[1..], a);
      assert members == [members[0]] + members[1..];
    }
  }

  lemma {:induction false} LastBelowIsClosest(members: seq<nat>, a: nat)
    requires Ascending(members)
    ensures var t := LastBelow(members, a);
            if t.Some? then ClosestPast(members, a, Prev, t.value) else forall p :: p in members ==> p >= a
    decreases |members|
  {
    if members != [] {
      var front := members[..|members| - 1];
      LastBelowIsClosest(front, a);
      assert members == front + [members[|members| - 1]];
    }
  }

  /** From any active tab, whether it needs attention or not, a step goes to the closest member past it, and around the
      end to the first when there is none; from no active tab, to the first. */
  lemma StepsFromAnywhere(tabs: seq<(nat, Status)>, active: Option<nat>, dir: Direction)
    ensures var members, target := Members(tabs), CycleAttention(tabs, active, dir);
            && (target.Some? && active.Some? && (exists p :: ClosestPast(members, active.value, dir, p)) ==>
                  ClosestPast(members, active.value, dir, target.value))
            && (target.Some? && (active.None? || !exists p :: ClosestPast(members, active.value, dir, p)) ==>
                  FirstOf(members, dir, target.value))
  {
    if Members(tabs) != [] {
      TargetFromAnywhere(Members(tabs), active, dir);
    }
  }

  lemma TargetFromAnywhere(members: seq<nat>, active: Option<nat>, dir: Direction)
    requires Ascending(members) && members != []
    ensures var t := Target(members, active, dir);
            if active.Some? && exists p :: ClosestPast(members, active.value, dir, p)
            then ClosestPast(members, active.value, dir, t) else FirstOf(members, dir, t)
  {
    if active.Some? {
      FirstAboveIsClosest(members, active.value);
      LastBelowIsClosest(members, active.value);
    }
    EndsAreFirst(members);
  }

  lemma EndsAreFirst(members: seq<nat>)
    requires Ascending(members) && members != []
    ensures FirstOf(members, Next, members[0]) && FirstOf(members, Prev, members[|members| - 1])
  {
  }

  /** With two members or more, Next and Prev undo each other. */
  lemma NextAndPrevAreInverse(tabs: seq<(nat, Status)>, a: nat)
    requires |Members(tabs)| >= 2 && a in Members(tabs)
    ensures var next, prev := CycleAttention(tabs, Some(a), Next), CycleAttention(tabs, Some(a), Prev);
            && next.Some? && next.value in Members(tabs) && CycleAttention(tabs, next, Prev) == Some(a)
            && prev.Some? && prev.value in Members(tabs) && CycleAttention(tabs, prev, Next) == Some(a)
  {
    var members := Members(tabs);
    var n := |members|;
    var i :| 0 <= i < n && members[i] == a;
    StepFrom(tabs, i);
    StepFrom(tabs, After(i, n));
    StepFrom(tabs, Before(i, n));
    AroundAndBack(i, n);
  }

  lemma AroundAndBack(i: nat, n: nat)
    requires i < n
    ensures After(i, n) < n && Before(i, n) < n && Before(After(i, n), n) == i && After(Before(i, n), n) == i
  {
  }

  /** Next, so many times over. */
  function Walk(tabs: seq<(nat, Status)>, from: nat, steps: nat): Option<nat> {
    if steps == 0 then Some(from)
    else
      var before := Walk(tabs, from, steps - 1);
      if before.None? then None else CycleAttention(tabs, before, Next)
  }

  /** Where so many steps around lead. */
  function Ahead(i: nat, steps: nat, n: nat): nat {
    if i + steps < n then i + steps else SatSub(i + steps, n)
  }

  lemma {:induction false} WalkIsAround(tabs: seq<(nat, Status)>, i: nat, steps: nat)
    requires 2 <= |Members(tabs)| && i < |Members(tabs)| && steps <= |Members(tabs)|
    ensures Walk(tabs, Members(tabs)[i], steps) == Some(Members(tabs)[Ahead(i, steps, |Members(tabs)|)])
  {
    if steps > 0 {
      WalkIsAround(tabs, i, steps - 1);
      StepFrom(tabs, Ahead(i, steps - 1, |Members(tabs)|));
    }
  }

  /** Repeated Next from a member is back after as many steps as there are members. */
  lemma NextComesRound(tabs: seq<(nat, Status)>, a: nat)
    requires |Members(tabs)| >= 2 && a in Members(tabs)
    ensures Walk(tabs, a, |Members(tabs)|) == Some(a)
  {
    var i :| 0 <= i < |Members(tabs)| && Members(tabs)[i] == a;
    WalkIsAround(tabs, i, |Members(tabs)|);
  }

  /** On the way it is at each member, and at none twice. */
  lemma NextVisitsAll(tabs: seq<(nat, Status)>, a: nat, p: nat)
    requires |Members(tabs)| >= 2 && a in Members(tabs) && p in Members(tabs)
    ensures exists k :: 0 <= k < |Members(tabs)| && Walk(tabs, a, k) == Some(p)
  {
    var members := Members(tabs);
    var i :| 0 <= i < |members| && members[i] == a;
    var j :| 0 <= j < |members| && members[j] == p;
    var k := if j >= i then j - i else j - i + |members|;
    WalkIsAround(tabs, i, k);
    assert Ahead(i, k, |members|) == j;
  }

  lemma NextRepeatsNone(tabs: seq<(nat, Status)>, a: nat, j: nat, k: nat)
    requires |Members(tabs)| >= 2 && a in Members(tabs) && j < k < |Members(tabs)|
    ensures Walk(tabs, a, j) != Walk(tabs, a, k)
  {
    var members := Members(tabs);
    var i :| 0 <= i < |members| && members[i] == a;
    WalkIsAround(tabs, i, j);
    WalkIsAround(tabs, i, k);
    var u, v := Ahead(i, j, |members|), Ahead(i, k, |members|);
    assert u != v;
    assert if u < v then members[u] < members[v] else members[v] < members[u];
  }
}
