/** Peer presence files (crates/core/src/presence.rs): truncate to the structural caps, then accept only if every
    string that is kept survives the sanitizer unchanged. */
module Presence {
  import opened Prelude
  import opened Sanitizer

  const MAX_SESSION_NAME_CHARS: nat := 128
  const MAX_TABS: nat := 64
  const MAX_PANES_PER_TAB: nat := 16
  const MAX_LABEL_CHARS: nat := 96
  const MAX_TOKEN_CHARS: nat := 24

  datatype PresencePane = PresencePane(
    paneId: Option<nat>, origin: Option<string>, kind: string, status: string, labelText: string)

  datatype PresenceTab = PresenceTab(position: nat, name: string, panes: seq<PresencePane>)

  datatype Document = Document(
    version: nat, sessionName: string, running: nat, attention: nat, attentionTabPosition: Option<nat>,
    updatedEpochS: nat, tabs: seq<PresenceTab>)

  /** Fit for the rail: no control, escape or bidi character, and within the cap. */
  predicate Displayable(s: string, cap: nat) {
    AllKept(s) && |s| <= cap
  }

  predicate PaneDisplayable(pane: PresencePane) {
    && Displayable(pane.labelText, MAX_LABEL_CHARS)
    && Displayable(pane.kind, MAX_TOKEN_CHARS)
    && Displayable(pane.status, MAX_TOKEN_CHARS)
    && (pane.origin.Some? ==> Displayable(pane.origin.value, MAX_TOKEN_CHARS))
  }

  predicate TabDisplayable(tab: PresenceTab) {
    Displayable(tab.name, MAX_LABEL_CHARS) && forall k :: 0 <= k < |tab.panes| ==> PaneDisplayable(tab.panes[k])
  }

  predicate DocumentDisplayable(p: Document) {
    && p.sessionName != []
    && Displayable(p.sessionName, MAX_SESSION_NAME_CHARS)
    && forall k :: 0 <= k < |p.tabs| ==> TabDisplayable(p.tabs[k])
  }

  function CutTab(tab: PresenceTab): PresenceTab {
    tab.(panes := Take(tab.panes, MAX_PANES_PER_TAB))
  }

  /** The document cut to the structural caps. */
  function Cut(p: Document): Document {
    var tabs := Take(p.tabs, MAX_TABS);
    p.(tabs := seq(|tabs|, k requires 0 <= k < |tabs| => CutTab(tabs[k])))
  }

  /** `clean`: the string survives the sanitizer unchanged. */
  predicate Clean(s: string, cap: nat) {
    s == Sanitize(s, cap)
  }

  predicate PaneClean(pane: PresencePane) {
    && Clean(pane.labelText, MAX_LABEL_CHARS)
    && Clean(pane.kind, MAX_TOKEN_CHARS)
    && Clean(pane.status, MAX_TOKEN_CHARS)
    && (pane.origin.None? || Clean(pane.origin.value, MAX_TOKEN_CHARS))
  }

  predicate TabClean(tab: PresenceTab) {
    Clean(tab.name, MAX_LABEL_CHARS) && forall k :: 0 <= k < |tab.panes| ==> PaneClean(tab.panes[k])
  }

  lemma PaneCleanIffDisplayable(pane: PresencePane)
    ensures PaneClean(pane) <==> PaneDisplayable(pane)
  {
    FixpointsAreTheCleanStrings(pane.labelText, MAX_LABEL_CHARS);
    FixpointsAreTheCleanStrings(pane.kind, MAX_TOKEN_CHARS);
    FixpointsAreTheCleanStrings(pane.status, MAX_TOKEN_CHARS);
    if pane.origin.Some? {
      FixpointsAreTheCleanStrings(pane.origin.value, MAX_TOKEN_CHARS);
    }
  }

  lemma TabCleanIffDisplayable(tab: PresenceTab)
    ensures TabClean(tab) <==> TabDisplayable(tab)
  {
    FixpointsAreTheCleanStrings(tab.name, MAX_LABEL_CHARS);
    forall k | 0 <= k < |tab.panes| ensures PaneClean(tab.panes[k]) <==> PaneDisplayable(tab.panes[k]) {
      PaneCleanIffDisplayable(tab.panes[k]);
    }
  }

  /** `Presence::parse` on the deserialized document (`None` when the JSON was bad): accepted exactly when what the
      caps keep is displayable, and then handed back cut. */
  method Parse(raw: Option<Document>) returns (r: Option<Document>)
    ensures r.Some? <==> raw.Some? && DocumentDisplayable(Cut(raw.value))
    ensures r.Some? ==> r.value == Cut(raw.value)
  {
    if raw.None? {
      return None;
    }
    var p := raw.value.(tabs := Take(raw.value.tabs, MAX_TABS));
    ghost var kept := p.tabs;
    for n := 0 to |p.tabs|
      invariant |p.tabs| == |kept| && p == raw.value.(tabs := p.tabs)
      invariant forall k :: 0 <= k < n ==> p.tabs[k] == CutTab(kept[k])
      invariant forall k :: n <= k < |kept| ==> p.tabs[k] == kept[k]
    {
      p := p.(tabs := p.tabs[n := CutTab(p.tabs[n])]);
    }
    assert p.tabs == Cut(raw.value).tabs;
    assert p == Cut(raw.value);
    FixpointsAreTheCleanStrings(p.sessionName, MAX_SESSION_NAME_CHARS);
    forall k | 0 <= k < |p.tabs| ensures TabClean(p.tabs[k]) <==> TabDisplayable(p.tabs[k]) {
      TabCleanIffDisplayable(p.tabs[k]);
    }
    var ok :=
      && p.sessionName != []
      && Clean(p.sessionName, MAX_SESSION_NAME_CHARS)
      && forall k :: 0 <= k < |p.tabs| ==> TabClean(p.tabs[k]);
    r := if ok then Some(p) else None;
  }

  /** Cutting to the caps is idempotent: an accepted document, read again, is not cut again. */
  lemma {:induction false} CutTwice(p: Document)
    ensures Cut(Cut(p)) == Cut(p)
  {
    assert Cut(Cut(p)).tabs == Cut(p).tabs;
  }

  /** A document is cut to its first sixty-four tabs and their first sixteen panes, and not otherwise. */
  lemma CutIs(p: Document)
    ensures var c := Cut(p);
            && c == p.(tabs := c.tabs) && |c.tabs| == Min(|p.tabs|, 64)
            && forall k :: 0 <= k < |c.tabs| ==>
                 && c.tabs[k] == p.tabs[k].(panes := c.tabs[k].panes)
                 && c.tabs[k].panes == p.tabs[k].panes[..Min(|p.tabs[k].panes|, 16)]
  {
  }

  /** In an acceptable document every name and label is clean and short enough: a session name has at most a hundred and
      twenty-eight characters and one at least, a label ninety-six, a token twenty-four. */
  lemma AcceptableIs(p: Document)
    requires DocumentDisplayable(p)
    ensures AllKept(p.sessionName) && 0 < |p.sessionName| <= 128
    ensures forall j, k :: 0 <= j < |p.tabs| && 0 <= k < |p.tabs[j].panes| ==>
              var (tab, pane) := (p.tabs[j], p.tabs[j].panes[k]);
              && AllKept(tab.name) && |tab.name| <= 96 && AllKept(pane.labelText) && |pane.labelText| <= 96
              && AllKept(pane.kind) && |pane.kind| <= 24 && AllKept(pane.status) && |pane.status| <= 24
              && (pane.origin.Some? ==> AllKept(pane.origin.value) && |pane.origin.value| <= 24)
  {
    forall j, k | 0 <= j < |p.tabs| && 0 <= k < |p.tabs[j].panes|
      ensures TabDisplayable(p.tabs[j]) && PaneDisplayable(p.tabs[j].panes[k])
    {
      assert TabDisplayable(p.tabs[j]);
    }
  }

  /** And that is enough. */
  lemma EnoughToAccept(p: Document)
    requires AllKept(p.sessionName) && 0 < |p.sessionName| <= 128
    requires forall j :: 0 <= j < |p.tabs| ==> AllKept(p.tabs[j].name) && |p.tabs[j].name| <= 96
    requires forall j, k :: 0 <= j < |p.tabs| && 0 <= k < |p.tabs[j].panes| ==>
               var pane := p.tabs[j].panes[k];
               && AllKept(pane.labelText) && |pane.labelText| <= 96
               && AllKept(pane.kind) && |pane.kind| <= 24 && AllKept(pane.status) && |pane.status| <= 24
               && (pane.origin.Some? ==> AllKept(pane.origin.value) && |pane.origin.value| <= 24)
    ensures DocumentDisplayable(p)
  {
  }
}
