/** The layout splice (crates/cli/src/layout.rs): wrap the `children` anchor, append the fenced additions, and reverse
    both. Texts are character sequences; the anchor and brace positions come from the KDL parser, as inputs. */
module Layout {
  import opened Prelude
  import opened TextLines

  /** The fences around the two kinds of region, and the anchor token a wrap collapses to. */
  datatype FenceSet = Fences(wrapBegin: string, wrapEnd: string, blockBegin: string, blockEnd: string, anchor: string) {
    function Begin(isWrap: bool): string {
      if isWrap then wrapBegin else blockBegin
    }

    function End(isWrap: bool): string {
      if isWrap then wrapEnd else blockEnd
    }
  }

  /** A comment marker: two slashes, then text on the same line without another. */
  predicate IsMarker(s: string) {
    |s| >= 3 && s[0] == '/' && s[1] == '/' && forall k :: 2 <= k < |s| ==> s[k] != '/' && s[k] != '\n'
  }

  /** The two texts part at some position. */
  predicate Part(s: string, t: string) {
    exists k :: 0 <= k < |s| && k < |t| && PartAt(s, t, k)
  }

  predicate PartAt(s: string, t: string, k: nat)
    requires k < |s| && k < |t|
  {
    s[k] != t[k]
  }

  predicate Usable(m: FenceSet) {
    && IsMarker(m.wrapBegin) && IsMarker(m.wrapEnd) && IsMarker(m.blockBegin) && IsMarker(m.blockEnd)
    && Part(m.wrapBegin, m.blockBegin) && Part(m.wrapBegin, m.wrapEnd) && Part(m.wrapBegin, m.blockEnd)
    && Part(m.blockBegin, m.wrapEnd) && Part(m.blockBegin, m.blockEnd)
    && m.anchor != [] && forall k :: 0 <= k < |m.anchor| ==> !IsWhitespace(m.anchor[k])
  }

  type Fences = m: FenceSet | m.wrapBegin != [] && m.blockBegin != [] witness Fences("/", "", "/", "", "")

  const FENCES_IN_USE: Fences := Fences(
    "// zj-radar:wrap begin", "// zj-radar:wrap end", "// zj-radar:block begin", "// zj-radar:block end", "children")

  const RAIL_SPLIT := "pane split_direction=\"vertical\" {"
  const RAIL_PANE := "    pane size=32 borderless=true {"
  const RAIL_PLUGIN := "        plugin location=\"radar\""
  const RAIL_PANE_WRAP: seq<string> := [RAIL_SPLIT, RAIL_PANE, RAIL_PLUGIN, "    }", "    children", "}"]

  /** Only spaces and tabs. */
  predicate IsIndent(s: string) {
    forall k :: 0 <= k < |s| ==> s[k] == ' ' || s[k] == '\t'
  }

  function LeadingIndent(s: string): string {
    if s != [] && (s[0] == ' ' || s[0] == '\t') then [s[0]] + LeadingIndent(s[1..]) else []
  }

  predicate EndsWith(s: string, suffix: string) {
    |suffix| <= |s| && s[|s| - |suffix|..] == suffix
  }

  // ----- inject, after parsing -----

  /** A line on a new line at the indent; a blank line stays blank. */
  function OnNewLine(line: string, indent: string): string {
    "\n" + (if line == [] then [] else indent) + line
  }

  function IndentedTail(lines: seq<string>, indent: string): string {
    if lines == [] then [] else OnNewLine(lines[0], indent) + IndentedTail(lines[1..], indent)
  }

  /** Lines joined, all but the first at the indent. */
  function Block(lines: seq<string>, indent: string): string {
    if lines == [] then [] else lines[0] + IndentedTail(lines[1..], indent)
  }

  lemma IndentedTailStep(lines: seq<string>, n: nat, indent: string, r: string)
    requires n < |lines|
    ensures r + IndentedTail(lines[n..], indent)
            == (r + OnNewLine(lines[n], indent)) + IndentedTail(lines[n + 1..], indent)
  {
    assert lines[n..][1..] == lines[n + 1..];
  }

  method IndentBlock(lines: seq<string>, indent: string) returns (r: string)
    ensures r == Block(lines, indent)
  {
    r := [];
    for n := 0 to |lines|
      invariant if n == 0 then r == [] else r + IndentedTail(lines[n..], indent) == Block(lines, indent)
    {
      if n > 0 {
        IndentedTailStep(lines, n, indent, r);
        var line := "\n";
        if lines[n] != [] {
          line := line + indent;
        }
        r := r + (line + lines[n]);
      } else {
        r := r + lines[n];
      }
    }
  }

  function WrapLines(m: Fences): seq<string> {
    [m.wrapBegin] + RAIL_PANE_WRAP + [m.wrapEnd]
  }

  /** The fenced rail split that replaces the anchor. */
  function Wrap(m: Fences, indent: string): string {
    Block(WrapLines(m), indent)
  }

  function BlockFence(m: Fences, block: string): string {
    m.blockBegin + "\n" + block + "\n" + m.blockEnd
  }

  /** What `inject` puts between the wrap and the rest, so that the end marker does not comment it out. */
  function Separator(indent: string, rest: string): string {
    if IsBlank(FirstLine(rest)) then [] else "\n" + indent
  }

  /** A layout cut at the anchor and the closing brace. */
  datatype Pieces = Pieces(before: string, anchor: string, rest: string, close: string) {
    function Text(): string {
      before + anchor + rest + close
    }

    /** `line_indent` at the anchor. */
    function Indent(): string {
      LeadingIndent(LastLine(before))
    }
  }

  function Rebuilt(p: Pieces, wrap: string, block: string): string {
    p.before + wrap + Separator(p.Indent(), p.rest) + p.rest + "\n" + block + "\n" + p.close
  }

  /** The text half of `inject`: the layout rebuilt around its two edit points. */
  function Spliced(m: Fences, p: Pieces, additions: string): string {
    Rebuilt(p, Wrap(m, p.Indent()), BlockFence(m, additions))
  }

  method Rebuild(p: Pieces, wrap: string, block: string) returns (out: string)
    ensures out == Rebuilt(p, wrap, block)
  {
    out := p.before + wrap;
    if !IsBlank(FirstLine(p.rest)) {
      out := out + ("\n" + p.Indent());
    } else {
      assert out == out + [];
    }
    out := out + p.rest + "\n" + block + "\n" + p.close;
  }

  method Inject(m: Fences, p: Pieces, additions: string) returns (out: string)
    ensures out == Spliced(m, p, additions)
  {
    var wrap := IndentBlock(WrapLines(m), p.Indent());
    out := Rebuild(p, wrap, BlockFence(m, additions));
  }

  // ----- uninstall -----

  /** What the reversal meets next: nothing to reverse, a marker in mid-line to pass, or a region - where it begins, and
      where its end marker ends. */
  datatype Turn = Stop | Pass(through: nat) | Undo(isWrap: bool, at: nat, through: nat)

  /** The next region's begin marker: where, and whether it is a wrap. */
  function NextBegin(m: Fences, rest: string): (r: Option<(nat, bool)>)
    ensures r.Some? ==> r.value.0 + |m.Begin(r.value.1)| <= |rest|
  {
    var w, b := Find(rest, m.wrapBegin), Find(rest, m.blockBegin);
    if w.Some? && (b.None? || w.value <= b.value) then Some((w.value, true))
    else if b.Some? then Some((b.value, false))
    else None
  }

  /** `lead` is what precedes `rest` on its line. */
  function TurnAt(m: Fences, lead: string, rest: string): (t: Turn)
    ensures t.Pass? ==> 0 < t.through <= |rest|
    ensures t.Undo? ==> t.at < t.through <= |rest|
  {
    match NextBegin(m, rest)
    case None => Stop
    case Some((at, isWrap)) =>
      var inside := at + |m.Begin(isWrap)|;
      if !IsIndent(LastLine(lead + rest[..at])) then Pass(inside)
      else
        match Find(rest[inside..], m.End(isWrap))
        case None => Stop
        case Some(e) => Undo(isWrap, at, inside + e + |m.End(isWrap)|)
  }

  lemma PassedBegin(m: Fences, lead: string, rest: string, at: nat, isWrap: bool)
    requires NextBegin(m, rest) == Some((at, isWrap)) && !IsIndent(LastLine(lead + rest[..at]))
    ensures TurnAt(m, lead, rest) == Pass(at + |m.Begin(isWrap)|)
  {
  }

  lemma RegionFound(m: Fences, lead: string, rest: string, at: nat, isWrap: bool, e: nat)
    requires NextBegin(m, rest) == Some((at, isWrap)) && IsIndent(LastLine(lead + rest[..at]))
    requires Find(rest[at + |m.Begin(isWrap)|..], m.End(isWrap)) == Some(e)
    ensures TurnAt(m, lead, rest) == Undo(isWrap, at, at + |m.Begin(isWrap)| + e + |m.End(isWrap)|)
  {
  }

  /** The text a region leaves in its place: the anchor at the region's indent, or nothing - not even the blank line
      that separated it. */
  function RegionOut(m: Fences, out: string, indent: string, isWrap: bool): string {
    if isWrap then out + indent + m.anchor + "\n"
    else if EndsWith(out, "\n\n") then out[..|out| - 1]
    else out
  }

  /** The reversal of what is left, added to what is out. */
  function Reversed(m: Fences, lead: string, rest: string, out: string, changed: bool): (string, bool)
    decreases |rest|
  {
    match TurnAt(m, lead, rest)
    case Stop => (out + rest, changed)
    case Pass(n) => Reversed(m, LastLine(lead + rest[..n]), rest[n..], out + rest[..n], changed)
    case Undo(isWrap, at, n) =>
      Reversed(m, [], AfterLine(rest[n..]),
               RegionOut(m, out + FullLines(rest[..at]), LastLine(lead + rest[..at]), isWrap), true)
  }

  /** What `uninstall` returns. */
  function Uninstalled(m: Fences, layout: string): Option<string> {
    var (out, changed) := Reversed(m, [], layout, [], false);
    if changed then Some(out) else None
  }

  // ----- the cursor loop -----

  /** The cursor is where a line starts, or past something other than indentation on its line. */
  predicate Aligned(done: string) {
    LastLine(done) == [] || !IsIndent(LastLine(done))
  }

  /** From an aligned cursor, a marker behind indentation alone starts its line at or after the cursor. */
  lemma LineStartsAfterCursor(done: string, b: string)
    requires Aligned(done) && IsIndent(LastLine(done + b))
    ensures FullLines(done + b) == done + FullLines(b)
  {
    if NoNewline(b) {
      LastLineExtended(done, b);
      IndentPrefix(LastLine(done), b);
      LinesSplit(done);
      LastLineOfLine(b);
    } else {
      LastLineWithin(done, b);
    }
  }

  lemma IndentPrefix(s: string, t: string)
    requires IsIndent(s + t)
    ensures IsIndent(s)
  {
    assert forall j :: 0 <= j < |s| ==> s[j] == (s + t)[j];
  }

  /** Past a marker in mid-line the cursor is aligned again. */
  lemma AlignedPastMarker(done: string, marker: string)
    requires IsMarker(marker)
    ensures Aligned(done + marker)
  {
    LastLineExtended(done, marker);
    assert LastLine(done + marker)[|LastLine(done)|] == '/';
  }

  /** Cutting a text after its first `i` characters, and again after `n` more. */
  lemma CutTwice(layout: string, i: nat, n: nat)
    requires i + n <= |layout|
    ensures layout[..i + n] == layout[..i] + layout[i..][..n] && layout[i + n..] == layout[i..][n..]
    ensures layout[i..i + n] == layout[i..][..n]
  {
  }

  /** `AfterLine` at an offset: where the cursor goes after a region. */
  method EndOfLine(layout: string, from: nat) returns (i: nat)
    requires from <= |layout|
    ensures from <= i <= |layout| && layout[i..] == AfterLine(layout[from..])
    ensures i < |layout| ==> LastLine(layout[..i]) == []
  {
    i := from;
    while i < |layout| && layout[i] != '\n'
      invariant from <= i <= |layout|
      invariant AfterLine(layout[i..]) == AfterLine(layout[from..])
    {
      assert layout[i..][1..] == layout[i + 1..];
      i := i + 1;
    }
    if i < |layout| {
      assert layout[i..][1..] == layout[i + 1..];
      i := i + 1;
      assert layout[..i][i - 1] == '\n';
    }
  }

  /** The line up to a marker, from the whole text or from the cursor's own line. */
  lemma LeadAt(layout: string, i: nat, at: nat)
    requires i + at <= |layout|
    ensures LastLine(layout[..i + at]) == LastLine(LastLine(layout[..i]) + layout[i..][..at])
  {
    CutTwice(layout, i, at);
    LastLineOfConcat(layout[..i], layout[i..][..at]);
  }

  /** What the cursor meets, read off the whole layout as the source does. */
  method FindTurn(m: Fences, layout: string, i: nat) returns (t: Turn)
    requires i <= |layout|
    ensures t == TurnAt(m, LastLine(layout[..i]), layout[i..])
  {
    var begin := NextBegin(m, layout[i..]);
    if begin.None? {
      return Stop;
    }
    var (at, isWrap) := begin.value;
    var inside := at + |m.Begin(isWrap)|;
    LeadAt(layout, i, at);
    if !IsIndent(LastLine(layout[..i + at])) {
      PassedBegin(m, LastLine(layout[..i]), layout[i..], at, isWrap);
      return Pass(inside);
    }
    CutTwice(layout, i, inside);
    var end := Find(layout[i + inside..], m.End(isWrap));
    if end.None? {
      return Stop;
    }
    RegionFound(m, LastLine(layout[..i]), layout[i..], at, isWrap, end.value);
    return Undo(isWrap, at, inside + end.value + |m.End(isWrap)|);
  }

  lemma NextBeginOccurs(m: Fences, rest: string)
    requires NextBegin(m, rest).Some?
    ensures var (at, isWrap) := NextBegin(m, rest).value;
            rest[..at + |m.Begin(isWrap)|] == rest[..at] + m.Begin(isWrap)
  {
    var (at, isWrap) := NextBegin(m, rest).value;
    FindOccurs(rest, m.wrapBegin);
    FindOccurs(rest, m.blockBegin);
    assert rest[at..at + |m.Begin(isWrap)|] == m.Begin(isWrap);
  }

  lemma PassIsPastBegin(m: Fences, lead: string, rest: string)
    requires TurnAt(m, lead, rest).Pass?
    ensures var next := NextBegin(m, rest);
            next.Some? && TurnAt(m, lead, rest).through == next.value.0 + |m.Begin(next.value.1)|
  {
  }

  /** A marker passed over ends at the cursor. */
  lemma PassEndsWithMarker(m: Fences, lead: string, rest: string) returns (before: string, isWrap: bool)
    requires TurnAt(m, lead, rest).Pass?
    ensures rest[..TurnAt(m, lead, rest).through] == before + m.Begin(isWrap)
  {
    PassIsPastBegin(m, lead, rest);
    NextBeginOccurs(m, rest);
    before, isWrap := rest[..NextBegin(m, rest).value.0], NextBegin(m, rest).value.1;
  }

  lemma CursorAlignedAfterPass(m: Fences, done: string, rest: string)
    requires Usable(m) && TurnAt(m, LastLine(done), rest).Pass?
    ensures Aligned(done + rest[..TurnAt(m, LastLine(done), rest).through])
  {
    var before, isWrap := PassEndsWithMarker(m, LastLine(done), rest);
    AlignedPastLater(done, before, m.Begin(isWrap));
  }

  lemma AlignedPastLater(done: string, before: string, marker: string)
    requires IsMarker(marker)
    ensures Aligned(done + (before + marker))
  {
    assert done + (before + marker) == (done + before) + marker;
    AlignedPastMarker(done + before, marker);
  }

  lemma UndoneIndent(m: Fences, lead: string, rest: string)
    requires TurnAt(m, lead, rest).Undo?
    ensures IsIndent(LastLine(lead + rest[..TurnAt(m, lead, rest).at]))
  {
  }

  lemma NothingLeft(m: Fences, lead: string, out: string, changed: bool)
    ensures Reversed(m, lead, [], out, changed) == (out, changed)
  {
    assert TurnAt(m, lead, []) == Stop && out + [] == out;
  }

  /** The answer from a cursor position. */
  function FromCursor(m: Fences, layout: string, i: nat, out: string, changed: bool): (string, bool)
    requires i <= |layout|
  {
    if i == |layout| then (out, changed) else Reversed(m, LastLine(layout[..i]), layout[i..], out, changed)
  }

  lemma FromAligned(m: Fences, layout: string, i: nat, lead: string, out: string, changed: bool)
    requires i <= |layout| && (i < |layout| ==> LastLine(layout[..i]) == lead)
    ensures Reversed(m, lead, layout[i..], out, changed) == FromCursor(m, layout, i, out, changed)
  {
    if i == |layout| {
      assert layout[i..] == [];
      NothingLeft(m, lead, out, changed);
    }
  }

  /** Pass a marker in mid-line. */
  method TakePass(m: Fences, layout: string, i: nat, n: nat, out: string, ghost changed: bool) returns (out': string)
    requires Usable(m) && i < |layout| && TurnAt(m, LastLine(layout[..i]), layout[i..]) == Pass(n)
    ensures i + n <= |layout| && Aligned(layout[..i + n])
    ensures FromCursor(m, layout, i + n, out', changed) == FromCursor(m, layout, i, out, changed)
  {
    ghost var done, rest := layout[..i], layout[i..];
    CutTwice(layout, i, n);
    CursorAlignedAfterPass(m, done, rest);
    LastLineOfConcat(done, rest[..n]);
    out' := out + layout[i..i + n];
    FromAligned(m, layout, i + n, LastLine(LastLine(done) + rest[..n]), out', changed);
  }

  lemma ReversedUndo(m: Fences, lead: string, rest: string, out: string, changed: bool)
    requires TurnAt(m, lead, rest).Undo?
    ensures var t := TurnAt(m, lead, rest);
            Reversed(m, lead, rest, out, changed)
            == Reversed(m, [], AfterLine(rest[t.through..]),
                        RegionOut(m, out + FullLines(rest[..t.at]), LastLine(lead + rest[..t.at]), t.isWrap), true)
  {
  }

  lemma ReversedPass(m: Fences, lead: string, rest: string, out: string, changed: bool)
    requires TurnAt(m, lead, rest).Pass?
    ensures var n := TurnAt(m, lead, rest).through;
            Reversed(m, lead, rest, out, changed) == Reversed(m, LastLine(lead + rest[..n]), rest[n..],
                                                              out + rest[..n], changed)
  {
  }

  /** Reverse a region. */
  method TakeUndo(m: Fences, layout: string, i: nat, isWrap: bool, at: nat, n: nat, out: string, ghost changed: bool)
    returns (out': string, next: nat)
    requires i < |layout| && Aligned(layout[..i]) && TurnAt(m, LastLine(layout[..i]), layout[i..])
             == Undo(isWrap, at, n)
    ensures i < next <= |layout| && (next < |layout| ==> Aligned(layout[..next]))
    ensures FromCursor(m, layout, next, out', true) == FromCursor(m, layout, i, out, changed)
  {
    hide TurnAt, FromCursor, RegionOut;
    UndoneIndent(m, LastLine(layout[..i]), layout[i..]);
    next := EndOfLine(layout, i + n);
    out' := EmitRegion(m, layout, i, at, isWrap, out);
    UndoLands(m, layout, i, isWrap, at, n, next, out, out', changed);
  }

  /** Past a region, the answer from the next line on is the answer from here. */
  lemma UndoLands(m: Fences, layout: string, i: nat, isWrap: bool, at: nat, n: nat, next: nat, out: string,
                  out': string,
                  changed: bool)
    requires i < |layout| && next <= |layout| && TurnAt(m, LastLine(layout[..i]), layout[i..]) == Undo(isWrap, at, n)
    requires layout[next..] == AfterLine(layout[i + n..]) && (next < |layout| ==> LastLine(layout[..next]) == [])
    requires out' == RegionOut(m, out + FullLines(layout[i..][..at]),
                               LastLine(LastLine(layout[..i]) + layout[i..][..at]), isWrap)
    ensures FromCursor(m, layout, next, out', true) == FromCursor(m, layout, i, out, changed)
  {
    CutTwice(layout, i, n);
    ReversedUndo(m, LastLine(layout[..i]), layout[i..], out, changed);
    FromAligned(m, layout, next, [], out', true);
  }

  lemma StopsHere(m: Fences, layout: string, i: nat, out: string, changed: bool)
    requires i < |layout| && TurnAt(m, LastLine(layout[..i]), layout[i..]) == Stop
    ensures FromCursor(m, layout, i, out, changed) == (out + layout[i..], changed)
  {
  }

  lemma StartsAtTop(m: Fences, layout: string)
    ensures FromCursor(m, layout, 0, [], false) == Reversed(m, [], layout, [], false) && Aligned(layout[..0])
  {
    assert layout[0..] == layout && layout[..0] == [];
    FromAligned(m, layout, 0, [], [], false);
  }

  /** One round of the loop: to the end, past a marker, or past a region. */
  method Advance(m: Fences, layout: string, i: nat, out: string, changed: bool)
    returns (out': string, changed': bool, next: nat)
    requires Usable(m) && i < |layout| && Aligned(layout[..i])
    ensures i < next <= |layout| && (next < |layout| ==> Aligned(layout[..next]))
    ensures FromCursor(m, layout, next, out', changed') == FromCursor(m, layout, i, out, changed)
  {
    var turn := FindTurn(m, layout, i);
    if turn.Stop? {
      StopsHere(m, layout, i, out, changed);
      return out + layout[i..], changed, |layout|;
    }
    if turn.Pass? {
      out' := TakePass(m, layout, i, turn.through, out, changed);
      return out', changed, i + turn.through;
    }
    out', next := TakeUndo(m, layout, i, turn.isWrap, turn.at, turn.through, out, changed);
    changed' := true;
  }

  /** The cursor loop computes the reversal. */
  method Uninstall(m: Fences, layout: string) returns (r: Option<string>)
    requires Usable(m)
    ensures r == Uninstalled(m, layout)
  {
    var out, changed, i := "", false, 0;
    StartsAtTop(m, layout);
    ghost var answer := Reversed(m, [], layout, [], false);
    while i < |layout|
      invariant i <= |layout| && (i < |layout| ==> Aligned(layout[..i]))
      invariant FromCursor(m, layout, i, out, changed) == answer
    {
      out, changed, i := Advance(m, layout, i, out, changed);
    }
    r := if changed then Some(out) else None;
  }

  /** Emit what precedes a region, and what the region collapses to. */
  method EmitRegion(m: Fences, layout: string, i: nat, at: nat, isWrap: bool, out: string) returns (out': string)
    requires i + at <= |layout| && Aligned(layout[..i]) && IsIndent(LastLine(LastLine(layout[..i]) + layout[i..][..at]))
    ensures out' == RegionOut(m, out + FullLines(layout[i..][..at]),
                              LastLine(LastLine(layout[..i]) + layout[i..][..at]), isWrap)
  {
    var absBegin := i + at;
    ghost var done, b := layout[..i], layout[i..][..at];
    CutTwice(layout, i, at);
    LastLineOfConcat(done, b);
    LineStartsAfterCursor(done, b);
    var indent := LastLine(layout[..absBegin]);
    var lineStart := absBegin - |indent|;
    assert layout[..lineStart] == FullLines(layout[..absBegin]) == done + FullLines(b);
    assert layout[i..lineStart] == FullLines(b);
    out' := out + layout[i..lineStart];
    if isWrap {
      out' := out' + indent + m.anchor + "\n";
    } else if EndsWith(out', "\n\n") {
      out' := out'[..|out'| - 1];
    }
  }
}
