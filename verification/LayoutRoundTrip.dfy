/** `uninstall` after `inject`: exactly which layouts come back character for character. */
module LayoutRoundTrip {
  import opened Prelude
  import opened TextLines
  import opened Layout

  /** No begin marker occurs: the layout carries no region yet. */
  ghost predicate Unmarked(m: Fences, s: string) {
    forall k :: !OccursAt(s, m.wrapBegin, k) && !OccursAt(s, m.blockBegin, k)
  }

  predicate NoSlash(s: string) {
    forall k :: 0 <= k < |s| ==> s[k] != '/'
  }

  lemma WrapFencesAreMarkers()
    ensures IsMarker(FENCES_IN_USE.wrapBegin) && IsMarker(FENCES_IN_USE.wrapEnd)
  {
  }

  lemma BlockFencesAreMarkers()
    ensures IsMarker(FENCES_IN_USE.blockBegin) && IsMarker(FENCES_IN_USE.blockEnd)
  {
  }

  lemma FencesPart()
    ensures var m := FENCES_IN_USE;
            && Part(m.wrapBegin, m.blockBegin) && Part(m.wrapBegin, m.wrapEnd) && Part(m.wrapBegin, m.blockEnd)
            && Part(m.blockBegin, m.wrapEnd) && Part(m.blockBegin, m.blockEnd)
  {
    var m := FENCES_IN_USE;
    assert PartAt(m.wrapBegin, m.blockBegin, 12) && PartAt(m.wrapBegin, m.wrapEnd, 17);
    assert PartAt(m.wrapBegin, m.blockEnd, 12) && PartAt(m.blockBegin, m.wrapEnd, 12);
    assert PartAt(m.blockBegin, m.blockEnd, 18);
  }

  lemma AnchorHasNoSpace()
    ensures forall k :: 0 <= k < |FENCES_IN_USE.anchor| ==> !IsWhitespace(FENCES_IN_USE.anchor[k])
  {
  }

  lemma UsableOf(m: FenceSet)
    requires IsMarker(m.wrapBegin) && IsMarker(m.wrapEnd) && IsMarker(m.blockBegin) && IsMarker(m.blockEnd)
    requires Part(m.wrapBegin, m.blockBegin) && Part(m.wrapBegin, m.wrapEnd) && Part(m.wrapBegin, m.blockEnd)
    requires Part(m.blockBegin, m.wrapEnd) && Part(m.blockBegin, m.blockEnd)
    requires m.anchor != [] && forall k :: 0 <= k < |m.anchor| ==> !IsWhitespace(m.anchor[k])
    ensures Usable(m)
  {
  }

  /** The fences in use are comment markers that part from each other, and the anchor has no space in it. */
  lemma FencesInUseAreUsable()
    ensures Usable(FENCES_IN_USE)
  {
    WrapFencesAreMarkers();
    BlockFencesAreMarkers();
    FencesPart();
    AnchorHasNoSpace();
    UsableOf(FENCES_IN_USE);
  }

  // ----- where markers can occur -----

  lemma OccursInPrefix(a: string, z: string, pat: string, j: nat)
    requires OccursAt(a + z, pat, j) && j + |pat| <= |a|
    ensures OccursAt(a, pat, j)
  {
    assert (a + z)[j..j + |pat|] == a[j..j + |pat|];
  }

  lemma OccursInSuffix(a: string, z: string, pat: string, j: nat)
    requires OccursAt(a + z, pat, j) && j >= |a|
    ensures OccursAt(z, pat, j - |a|)
  {
    assert (a + z)[j..j + |pat|] == z[j - |a|..j - |a| + |pat|];
  }

  lemma OccursChar(s: string, pat: string, j: int, d: nat)
    requires d < |pat|
    ensures OccursAt(s, pat, j) ==> j + d < |s| && s[j + d] == pat[d]
  {
    if OccursAt(s, pat, j) {
      assert s[j..j + |pat|][d] == s[j + d];
    }
  }

  /** No marker straddles the start of another. */
  lemma NoStraddle(a: string, marker: string, z: string, pat: string, j: nat)
    requires IsMarker(marker) && IsMarker(pat) && j < |a|
    ensures OccursAt(a + (marker + z), pat, j) ==> OccursAt(a, pat, j)
  {
    var s := a + (marker + z);
    assert s[|a|] == marker[0] && s[|a| + 1] == marker[1];
    if j + |pat| > |a| {
      OccursChar(s, pat, j, |a| - j);
      OccursChar(s, pat, j, 2);
    } else if OccursAt(s, pat, j) {
      OccursInPrefix(a, marker + z, pat, j);
    }
  }

  /** Nor does one cross a newline. */
  lemma NoCrossing(a: string, z: string, pat: string, j: nat)
    requires IsMarker(pat) && j <= |a|
    ensures OccursAt(a + ("\n" + z), pat, j) ==> OccursAt(a, pat, j)
  {
    var s := a + ("\n" + z);
    assert s[|a|] == '\n';
    if j + |pat| > |a| {
      OccursChar(s, pat, j, |a| - j);
    } else if OccursAt(s, pat, j) {
      OccursInPrefix(a, "\n" + z, pat, j);
    }
  }

  lemma MarkerOccurs(a: string, marker: string, z: string)
    ensures OccursAt(a + (marker + z), marker, |a|)
  {
    assert (a + (marker + z))[|a|..|a| + |marker|] == marker;
  }

  /** The first occurrence, when the text before has none. */
  lemma FindsMarker(a: string, marker: string, z: string)
    requires IsMarker(marker) && forall j :: !OccursAt(a, marker, j)
    ensures Find(a + (marker + z), marker) == Some(|a|)
  {
    MarkerOccurs(a, marker, z);
    forall j | 0 <= j < |a| ensures !OccursAt(a + (marker + z), marker, j) {
      NoStraddle(a, marker, z, marker, j);
    }
    FindIs(a + (marker + z), marker, |a|);
  }

  /** A begin marker after unmarked text is the next one. */
  lemma FindsBegin(m: Fences, a: string, isWrap: bool, z: string)
    requires Usable(m) && Unmarked(m, a)
    ensures NextBegin(m, a + (m.Begin(isWrap) + z)) == Some((|a|, isWrap))
  {
    var s, other := a + (m.Begin(isWrap) + z), m.Begin(!isWrap);
    FindsMarker(a, m.Begin(isWrap), z);
    FindOccurs(s, other);
    forall j | 0 <= j <= |a| ensures !OccursAt(s, other, j) {
      if j < |a| {
        NoStraddle(a, m.Begin(isWrap), z, other, j);
      } else {
        var k: nat :| k < |m.wrapBegin| && k < |m.blockBegin| && PartAt(m.wrapBegin, m.blockBegin, k);
        assert s[|a| + k] == m.Begin(isWrap)[k];
        OccursChar(s, other, |a|, k);
      }
    }
  }

  lemma FindsNoBegin(m: Fences, s: string)
    requires Unmarked(m, s)
    ensures NextBegin(m, s).None?
  {
    FindIsNone(s, m.wrapBegin);
    FindIsNone(s, m.blockBegin);
  }

  // ----- pieces of unmarked text -----

  lemma UnmarkedPieces(m: Fences, a: string, b: string)
    requires Unmarked(m, a + b)
    ensures Unmarked(m, a) && Unmarked(m, b)
  {
    forall k ensures !OccursAt(a, m.wrapBegin, k) && !OccursAt(a, m.blockBegin, k) {
      assert 0 <= k && k + |m.wrapBegin| <= |a| ==> (a + b)[k..k + |m.wrapBegin|] == a[k..k + |m.wrapBegin|];
      assert 0 <= k && k + |m.blockBegin| <= |a| ==> (a + b)[k..k + |m.blockBegin|] == a[k..k + |m.blockBegin|];
      assert !OccursAt(a + b, m.wrapBegin, k) && !OccursAt(a + b, m.blockBegin, k);
    }
    forall k ensures !OccursAt(b, m.wrapBegin, k) && !OccursAt(b, m.blockBegin, k) {
      assert 0 <= k && k + |m.wrapBegin| <= |b| ==>
               (a + b)[|a| + k..|a| + k + |m.wrapBegin|] == b[k..k + |m.wrapBegin|];
      assert 0 <= k && k + |m.blockBegin| <= |b| ==>
               (a + b)[|a| + k..|a| + k + |m.blockBegin|] == b[k..k + |m.blockBegin|];
      assert !OccursAt(a + b, m.wrapBegin, |a| + k) && !OccursAt(a + b, m.blockBegin, |a| + k);
    }
  }

  lemma UnmarkedThenNewline(m: Fences, a: string)
    requires Usable(m) && Unmarked(m, a)
    ensures Unmarked(m, a + "\n")
  {
    assert a + ("\n" + []) == a + "\n";
    forall k ensures !OccursAt(a + "\n", m.wrapBegin, k) && !OccursAt(a + "\n", m.blockBegin, k) {
      if 0 <= k <= |a| {
        NoCrossing(a, [], m.wrapBegin, k);
        NoCrossing(a, [], m.blockBegin, k);
      }
    }
  }

  /** Text without a slash in front adds no marker. */
  lemma SlashlessThenUnmarked(m: Fences, a: string, b: string)
    requires Usable(m) && NoSlash(a) && Unmarked(m, b)
    ensures Unmarked(m, a + b)
  {
    forall k ensures !OccursAt(a + b, m.wrapBegin, k) && !OccursAt(a + b, m.blockBegin, k) {
      StartsInSuffix(a, b, m.wrapBegin, k);
      StartsInSuffix(a, b, m.blockBegin, k);
    }
  }

  lemma StartsInSuffix(a: string, b: string, pat: string, k: int)
    requires IsMarker(pat) && NoSlash(a) && forall j :: !OccursAt(b, pat, j)
    ensures !OccursAt(a + b, pat, k)
  {
    OccursChar(a + b, pat, k, 0);
    if 0 <= k < |a| {
      assert (a + b)[k] == a[k];
    } else if OccursAt(a + b, pat, k) {
      OccursInSuffix(a, b, pat, k);
    }
  }

  /** Nor does the wrap's end marker. */
  lemma WrapEndThenUnmarked(m: Fences, b: string)
    requires Usable(m) && Unmarked(m, b)
    ensures Unmarked(m, m.wrapEnd + b)
  {
    forall k ensures !OccursAt(m.wrapEnd + b, m.wrapBegin, k) && !OccursAt(m.wrapEnd + b, m.blockBegin, k) {
      NotWithinMarker(m.wrapEnd, b, m.wrapBegin, k);
      NotWithinMarker(m.wrapEnd, b, m.blockBegin, k);
    }
  }

  lemma NotWithinMarker(marker: string, b: string, pat: string, k: int)
    requires IsMarker(marker) && IsMarker(pat) && Part(pat, marker) && forall j :: !OccursAt(b, pat, j)
    ensures !OccursAt(marker + b, pat, k)
  {
    var s := marker + b;
    if k == 0 {
      var i: nat :| i < |pat| && i < |marker| && PartAt(pat, marker, i);
      assert s[i] == marker[i];
      OccursChar(s, pat, 0, i);
    } else if 0 < k < |marker| {
      assert s[k] == marker[k] && s[2] == marker[2];
      OccursChar(s, pat, k, 0);
      OccursChar(s, pat, k, 1);
    } else if OccursAt(s, pat, k) {
      OccursInSuffix(marker, b, pat, k);
    }
  }

  // ----- the wrap -----

  lemma {:induction false} TailOfConcat(xs: seq<string>, line: string, indent: string)
    ensures IndentedTail(xs + [line], indent) == IndentedTail(xs, indent) + OnNewLine(line, indent)
  {
    if xs == [] {
      assert xs + [line] == [line] && [line][1..] == [];
      assert IndentedTail([line], indent) == OnNewLine(line, indent) + [];
    } else {
      assert (xs + [line])[1..] == xs[1..] + [line];
      TailOfConcat(xs[1..], line, indent);
    }
  }

  lemma {:induction false} TailHasNoSlash(xs: seq<string>, indent: string)
    requires NoSlash(indent) && forall k :: 0 <= k < |xs| ==> NoSlash(xs[k])
    ensures NoSlash(IndentedTail(xs, indent))
  {
    if xs != [] {
      TailHasNoSlash(xs[1..], indent);
    }
  }

  lemma SplitHasNoSlash()
    ensures NoSlash(RAIL_SPLIT)
  {
  }

  lemma PaneHasNoSlash()
    ensures NoSlash(RAIL_PANE)
  {
  }

  lemma PluginHasNoSlash()
    ensures NoSlash(RAIL_PLUGIN)
  {
  }

  lemma RailHasNoSlash(k: nat)
    requires k < |RAIL_PANE_WRAP|
    ensures NoSlash(RAIL_PANE_WRAP[k])
  {
    SplitHasNoSlash();
    PaneHasNoSlash();
    PluginHasNoSlash();
  }

  /** The rail lines between the wrap's fences. */
  function Middle(indent: string): string {
    IndentedTail(RAIL_PANE_WRAP, indent) + ("\n" + indent)
  }

  lemma WrapShape(m: Fences, indent: string)
    requires Usable(m) && IsIndent(indent)
    ensures Wrap(m, indent) == m.wrapBegin + Middle(indent) + m.wrapEnd && NoSlash(Middle(indent))
  {
    assert WrapLines(m)[1..] == RAIL_PANE_WRAP + [m.wrapEnd];
    TailOfConcat(RAIL_PANE_WRAP, m.wrapEnd, indent);
    forall k | 0 <= k < |RAIL_PANE_WRAP| ensures NoSlash(RAIL_PANE_WRAP[k]) {
      RailHasNoSlash(k);
    }
    TailHasNoSlash(RAIL_PANE_WRAP, indent);
  }

  lemma {:induction false} LeadingIndentIsIndent(s: string)
    ensures IsIndent(LeadingIndent(s)) && (IsIndent(s) ==> LeadingIndent(s) == s)
  {
    if s != [] && (s[0] == ' ' || s[0] == '\t') {
      LeadingIndentIsIndent(s[1..]);
      assert IsIndent(s) ==> IsIndent(s[1..]);
    }
  }

  // ----- the three turns -----

  /** The rest of a spliced layout from its block on. */
  function FromBlock(m: Fences, additions: string, close: string): string {
    m.blockBegin + (("\n" + additions + "\n") + (m.blockEnd + ("\n" + close)))
  }

  /** What lies between the wrap and the block. */
  function Between(p: Pieces): string {
    Separator(p.Indent(), p.rest) + p.rest + "\n"
  }

  lemma SplicedShape(m: Fences, p: Pieces, additions: string)
    requires Usable(m)
    ensures Spliced(m, p, additions)
         == p.before
            + (m.wrapBegin + (Middle(p.Indent()) + (m.wrapEnd + (Between(p) + FromBlock(m, additions, p.close)))))
    ensures NoSlash(Middle(p.Indent()))
  {
    var tail := Between(p) + FromBlock(m, additions, p.close);
    LeadingIndentIsIndent(LastLine(p.before));
    WrapShape(m, p.Indent());
    FromBlockShape(m, additions, p.close);
    RebuiltShape(p, Wrap(m, p.Indent()), BlockFence(m, additions));
    Regroup(m.wrapBegin, Middle(p.Indent()), m.wrapEnd, tail);
  }

  lemma Regroup(a: string, b: string, c: string, z: string)
    ensures (a + b + c) + z == a + (b + (c + z))
  {
  }

  lemma InnerRegroup(a: string, sep: string, rest: string, nl: string, block: string, close: string)
    ensures a + sep + rest + nl + block + nl + close == (a + (sep + rest + nl)) + (block + (nl + close))
  {
    assert a + sep + rest + nl == a + (sep + rest + nl);
  }

  lemma FromBlockShape(m: Fences, additions: string, close: string)
    ensures BlockFence(m, additions) + ("\n" + close) == FromBlock(m, additions, close)
  {
  }

  lemma RebuiltShape(p: Pieces, wrap: string, block: string)
    ensures Rebuilt(p, wrap, block) == p.before + (wrap + (Between(p) + (block + ("\n" + p.close))))
  {
    var sep := Separator(p.Indent(), p.rest);
    Regroup(p.before, wrap, Between(p), block + ("\n" + p.close));
    InnerRegroup(p.before + wrap, sep, p.rest, "\n", block, p.close);
  }

  ghost predicate BlockEndFree(m: Fences, additions: string) {
    forall j :: !OccursAt(additions, m.blockEnd, j)
  }

  lemma AdditionsInTheirFence(m: Fences, additions: string, z: string)
    requires Usable(m) && BlockEndFree(m, additions)
    ensures Find(("\n" + additions + "\n") + (m.blockEnd + z), m.blockEnd) == Some(|additions| + 2)
  {
    var a := "\n" + additions + "\n";
    forall j ensures !OccursAt(a, m.blockEnd, j) {
      OccursChar(a, m.blockEnd, j, 0);
      assert a == "\n" + (additions + ("\n" + []));
      if 1 <= j <= |additions| + 1 {
        NoCrossing(additions, [], m.blockEnd, j - 1);
        if OccursAt(a, m.blockEnd, j) {
          OccursInSuffix("\n", additions + ("\n" + []), m.blockEnd, j);
        }
      }
    }
    FindsMarker(a, m.blockEnd, z);
  }

  lemma BlockFound(m: Fences, lead: string, between: string, additions: string, close: string)
    requires Usable(m) && BlockEndFree(m, additions) && Unmarked(m, between) && LastLine(lead + between) == []
    ensures var n := |between| + |m.blockBegin| + |additions| + 2 + |m.blockEnd|;
            TurnAt(m, lead, between + FromBlock(m, additions, close)) == Undo(false, |between|, n)
  {
    var body := "\n" + additions + "\n";
    var z := body + (m.blockEnd + ("\n" + close));
    FindsBegin(m, between, false, z);
    CutAfter(between, m.blockBegin, z);
    AdditionsInTheirFence(m, additions, "\n" + close);
    RegionFound(m, lead, between + (m.blockBegin + z), |between|, false, |body|);
  }

  lemma PastBlock(m: Fences, between: string, additions: string, close: string)
    ensures var n := |between| + |m.blockBegin| + |additions| + 2 + |m.blockEnd|;
            var rest := between + FromBlock(m, additions, close);
            n <= |rest| && AfterLine(rest[n..]) == close && rest[..|between|] == between
  {
    var n := |between| + |m.blockBegin| + |additions| + 2 + |m.blockEnd|;
    var rest := between + FromBlock(m, additions, close);
    assert rest[n..] == "\n" + close;
    assert ("\n" + close)[1..] == close;
  }

  /** Reversing the block: everything out so far stays, less the separator line; then the closing brace follows. */
  lemma BlockTurn(m: Fences, lead: string, between: string, additions: string, close: string, out: string,
                  changed: bool)
    requires Usable(m) && BlockEndFree(m, additions) && Unmarked(m, between) && Unmarked(m, close)
    requires LastLine(lead + between) == []
    ensures Reversed(m, lead, between + FromBlock(m, additions, close), out, changed)
         == (RegionOut(m, out + FullLines(between), [], false) + close, true)
  {
    BlockFound(m, lead, between, additions, close);
    PastBlock(m, between, additions, close);
    ReversedUndo(m, lead, between + FromBlock(m, additions, close), out, changed);
    FindsNoBegin(m, close);
  }

  lemma CutAfter(a: string, b: string, z: string)
    ensures (a + (b + z))[..|a|] == a
    ensures (a + (b + z))[..|a| + |b|] == a + b && (a + (b + z))[|a| + |b|..] == z
  {
  }

  lemma NothingBefore(s: string)
    ensures [] + s == s
  {
  }

  /** The end marker is found past a slashless middle. */
  lemma FindsWrapEnd(m: Fences, middle: string, after: string)
    requires Usable(m) && NoSlash(middle)
    ensures Find(middle + (m.wrapEnd + after), m.wrapEnd) == Some(|middle|)
  {
    forall j ensures !OccursAt(middle, m.wrapEnd, j) {
      OccursChar(middle, m.wrapEnd, j, 0);
    }
    FindsMarker(middle, m.wrapEnd, after);
  }

  lemma WrapFound(m: Fences, before: string, middle: string, after: string)
    requires Usable(m) && Unmarked(m, before) && NoSlash(middle) && IsIndent(LastLine(before))
    ensures TurnAt(m, [], before + (m.wrapBegin + (middle + (m.wrapEnd + after))))
         == Undo(true, |before|, |before| + |m.wrapBegin| + |middle| + |m.wrapEnd|)
  {
    var body := middle + (m.wrapEnd + after);
    FindsBegin(m, before, true, body);
    FindsWrapEnd(m, middle, after);
    WrapFoundAt(m, before, body, |middle|);
  }

  lemma WrapFoundAt(m: Fences, before: string, body: string, e: nat)
    requires NextBegin(m, before + (m.wrapBegin + body)) == Some((|before|, true)) && IsIndent(LastLine(before))
    requires Find(body, m.wrapEnd) == Some(e)
    ensures TurnAt(m, [], before + (m.wrapBegin + body))
            == Undo(true, |before|, |before| + |m.wrapBegin| + e + |m.wrapEnd|)
  {
    CutAfter(before, m.wrapBegin, body);
    NothingBefore(before);
    UndoOf(m, before + (m.wrapBegin + body), before, e);
  }

  lemma PastWrap(m: Fences, before: string, middle: string, after: string)
    ensures var rest := before + (m.wrapBegin + (middle + (m.wrapEnd + after)));
            var n := |before| + |m.wrapBegin| + |middle| + |m.wrapEnd|;
            n <= |rest| && rest[..|before|] == before && rest[n..] == after
  {
  }

  /** A region behind indentation: the wrap collapses to the anchor, and its last line goes with it. */
  lemma WrapTurn(m: Fences, before: string, middle: string, after: string)
    requires Usable(m) && Unmarked(m, before) && NoSlash(middle) && IsIndent(LastLine(before))
    ensures Reversed(m, [], before + (m.wrapBegin + (middle + (m.wrapEnd + after))), [], false)
         == Reversed(m, [], AfterLine(after), before + m.anchor + "\n", true)
  {
    var rest := before + (m.wrapBegin + (middle + (m.wrapEnd + after)));
    WrapFound(m, before, middle, after);
    PastWrap(m, before, middle, after);
    LinesRejoined(before);
    UndoStep(m, rest, before, |before| + |m.wrapBegin| + |middle| + |m.wrapEnd|, after);
  }

  lemma LinesRejoined(s: string)
    ensures [] + FullLines(s) + LastLine(s) == s
  {
    LinesSplit(s);
    NothingBefore(FullLines(s));
  }

  lemma UndoOf(m: Fences, rest: string, before: string, e: nat)
    requires NextBegin(m, rest) == Some((|before|, true)) && |before| <= |rest| && [] + rest[..|before|] == before
    requires Find(rest[|before| + |m.wrapBegin|..], m.wrapEnd) == Some(e) && IsIndent(LastLine(before))
    ensures TurnAt(m, [], rest) == Undo(true, |before|, |before| + |m.wrapBegin| + e + |m.wrapEnd|)
  {
    RegionFound(m, [], rest, |before|, true, e);
  }

  lemma UndoStep(m: Fences, rest: string, before: string, n: nat, after: string)
    requires TurnAt(m, [], rest) == Undo(true, |before|, n) && rest[..|before|] == before && rest[n..] == after
    requires [] + FullLines(before) + LastLine(before) == before
    ensures Reversed(m, [], rest, [], false) == Reversed(m, [], AfterLine(after), before + m.anchor + "\n", true)
  {
    NothingBefore(before);
    ReversedUndo(m, [], rest, [], false);
  }

  lemma MidLineIsPassed(m: Fences, before: string, after: string)
    requires Usable(m) && Unmarked(m, before) && !IsIndent(LastLine(before))
    ensures TurnAt(m, [], before + (m.wrapBegin + after)) == Pass(|before| + |m.wrapBegin|)
  {
    FindsBegin(m, before, true, after);
    CutAfter(before, m.wrapBegin, after);
    PassOf(m, before + (m.wrapBegin + after), before);
  }

  lemma PassOf(m: Fences, rest: string, before: string)
    requires NextBegin(m, rest) == Some((|before|, true)) && |before| <= |rest| && rest[..|before|] == before
    requires !IsIndent(LastLine(before))
    ensures TurnAt(m, [], rest) == Pass(|before| + |m.wrapBegin|)
  {
    NothingBefore(before);
    PassedBegin(m, [], rest, |before|, true);
  }

  /** A wrap in mid-line is passed over: its begin marker stays. */
  lemma MidLineTurn(m: Fences, before: string, after: string)
    requires Usable(m) && Unmarked(m, before) && !IsIndent(LastLine(before))
    ensures Reversed(m, [], before + (m.wrapBegin + after), [], false)
         == Reversed(m, LastLine(before + m.wrapBegin), after, before + m.wrapBegin, false)
  {
    var n := |before| + |m.wrapBegin|;
    MidLineIsPassed(m, before, after);
    CutAfter(before, m.wrapBegin, after);
    assert [] + (before + m.wrapBegin) == before + m.wrapBegin;
    PassStep(m, before + (m.wrapBegin + after), n, before + m.wrapBegin, after);
  }

  lemma PassStep(m: Fences, rest: string, n: nat, passed: string, after: string)
    requires TurnAt(m, [], rest) == Pass(n) && rest[..n] == passed == [] + passed && rest[n..] == after
    ensures Reversed(m, [], rest, [], false) == Reversed(m, LastLine(passed), after, passed, false)
  {
    ReversedPass(m, [], rest, [], false);
  }

  // ----- the round trip -----

  /** The anchor's line holds the anchor token behind indentation and nothing else, and the brace starts a line. */
  predicate AnchorAlone(m: Fences, p: Pieces) {
    && p.anchor == m.anchor && IsIndent(LastLine(p.before))
    && p.rest != [] && p.rest[0] == '\n' && p.rest[|p.rest| - 1] == '\n'
  }

  /** The text between wrap and block, after the line the wrap ends on. */
  function Kept(p: Pieces): string {
    if IsBlank(FirstLine(p.rest)) then AfterLine(p.rest + "\n") else p.Indent() + p.rest + "\n"
  }

  lemma {:induction false} AfterLineExtends(s: string, z: string)
    requires !NoNewline(s)
    ensures AfterLine(s + z) == AfterLine(s) + z
  {
    FirstLineSplit(s);
    assert s + z == FirstLine(s) + "\n" + (AfterLine(s) + z);
    AfterLineAt(FirstLine(s), AfterLine(s) + z);
  }

  lemma KeptFollowsTheWrap(p: Pieces, z: string)
    ensures AfterLine(Between(p) + z) == Kept(p) + z
  {
    if IsBlank(FirstLine(p.rest)) {
      assert Between(p) == p.rest + "\n";
      assert Between(p)[|p.rest|] == '\n';
      AfterLineExtends(p.rest + "\n", z);
    } else {
      assert Between(p) + z == [] + "\n" + (Kept(p) + z);
      AfterLineAt([], Kept(p) + z);
    }
  }

  lemma KeptCases(p: Pieces)
    ensures NoNewline(p.rest) && IsBlank(FirstLine(p.rest)) ==> Kept(p) == []
    ensures !NoNewline(p.rest) && IsBlank(FirstLine(p.rest)) ==> Kept(p) == AfterLine(p.rest) + "\n"
  {
    if NoNewline(p.rest) {
      AfterLineAt(p.rest, []);
      assert p.rest + "\n" == p.rest + "\n" + [];
    } else {
      AfterLineExtends(p.rest, "\n");
    }
  }

  lemma LineHasEnded(s: string)
    requires s != [] && s[|s| - 1] == '\n'
    ensures LastLine(s) == [] && FullLines(s) == s
  {
  }

  lemma KeptIsUnmarked(m: Fences, p: Pieces)
    requires Usable(m) && Unmarked(m, p.rest)
    ensures Unmarked(m, Kept(p)) && (Kept(p) == [] || Kept(p)[|Kept(p)| - 1] == '\n')
  {
    KeptCases(p);
    FirstLineSplit(p.rest);
    LeadingIndentIsIndent(LastLine(p.before));
    if !IsBlank(FirstLine(p.rest)) {
      SlashlessThenUnmarked(m, p.Indent(), p.rest);
      UnmarkedThenNewline(m, p.Indent() + p.rest);
    } else if !NoNewline(p.rest) {
      UnmarkedPieces(m, FirstLine(p.rest) + "\n", AfterLine(p.rest));
      UnmarkedThenNewline(m, AfterLine(p.rest));
    }
  }

  lemma UnmarkedParts(m: Fences, p: Pieces)
    requires Unmarked(m, p.Text())
    ensures Unmarked(m, p.before) && Unmarked(m, p.rest) && Unmarked(m, p.close)
  {
    UnmarkedPieces(m, p.before + p.anchor + p.rest, p.close);
    UnmarkedPieces(m, p.before + p.anchor, p.rest);
    UnmarkedPieces(m, p.before, p.anchor);
  }

  /** An indented anchor: the token comes back on a line of its own, then what was kept, less one blank line. */
  lemma IndentedOutcome(m: Fences, p: Pieces, additions: string)
    requires Usable(m) && Unmarked(m, p.Text()) && BlockEndFree(m, additions) && IsIndent(LastLine(p.before))
    ensures Uninstalled(m, Spliced(m, p, additions))
         == Some(RegionOut(m, p.before + m.anchor + "\n" + Kept(p), [], false) + p.close)
  {
    UnmarkedParts(m, p);
    SplicedShape(m, p, additions);
    var block := FromBlock(m, additions, p.close);
    WrapTurn(m, p.before, Middle(p.Indent()), Between(p) + block);
    KeptFollowsTheWrap(p, block);
    KeptIsUnmarked(m, p);
    var out := p.before + m.anchor + "\n";
    if Kept(p) != [] {
      LineHasEnded(Kept(p));
    }
    assert [] + Kept(p) == Kept(p);
    BlockTurn(m, [], Kept(p), additions, p.close, out, true);
  }

  /** Two texts cut at their first newline agree only when the cuts do. */
  lemma SameCut(a: string, x: string, b: string, y: string)
    requires NoNewline(a) && NoNewline(b)
    ensures a + "\n" + x == b + "\n" + y ==> a == b && x == y
  {
    var s, t := a + "\n" + x, b + "\n" + y;
    assert s[|a|] == '\n' && t[|b|] == '\n';
    assert s[..|a|] == a && t[..|b|] == b && s[|a| + 1..] == x && t[|b| + 1..] == y;
    if |a| < |b| {
      assert t[|a|] == b[|a|];
    } else if |b| < |a| {
      assert s[|b|] == a[|b|];
    }
  }

  lemma SameMiddle(before: string, x: string, y: string, close: string)
    ensures before + x + close == before + y + close <==> x == y
  {
    var s, t := before + x + close, before + y + close;
    if s == t {
      assert |x| == |y|;
      assert s[|before|..|before| + |x|] == x && t[|before|..|before| + |y|] == y;
    }
  }

  /** What takes the place of anchor and rest. */
  function Replaced(m: Fences, p: Pieces): string {
    var s := m.anchor + "\n" + Kept(p);
    if EndsWith(s, "\n\n") then s[..|s| - 1] else s
  }

  lemma ReplacedInPlace(m: Fences, p: Pieces)
    requires m.anchor != []
    ensures RegionOut(m, p.before + m.anchor + "\n" + Kept(p), [], false) == p.before + Replaced(m, p)
  {
    var s := m.anchor + "\n" + Kept(p);
    assert p.before + m.anchor + "\n" + Kept(p) == p.before + s;
    DropBlankLine(p.before, s);
  }

  lemma DropBlankLine(front: string, s: string)
    requires |s| >= 2
    ensures EndsWith(front + s, "\n\n") <==> EndsWith(s, "\n\n")
    ensures (front + s)[..|front + s| - 1] == front + s[..|s| - 1]
  {
    assert (front + s)[|front + s| - 2..] == s[|s| - 2..];
  }

  /** The token and what was kept equal the old anchor and rest exactly when the anchor stood alone on its line and the
      brace starts a line. */
  lemma ReplacedFaithfully(m: Fences, p: Pieces)
    requires Usable(m) && NoNewline(p.anchor) && IsIndent(LastLine(p.before))
    ensures Replaced(m, p) == p.anchor + p.rest <==> AnchorAlone(m, p)
  {
    FirstLineSplit(p.rest);
    KeptCases(p);
    if !IsBlank(FirstLine(p.rest)) {
      ContentOnAnchorLine(m, p);
    } else if NoNewline(p.rest) {
      BraceOnAnchorLine(m, p);
    } else {
      BlankAnchorLine(m, p);
    }
  }

  lemma ContentOnAnchorLine(m: Fences, p: Pieces)
    requires Usable(m) && NoNewline(p.anchor) && !IsBlank(FirstLine(p.rest))
    ensures Replaced(m, p) != p.anchor + p.rest
  {
    var s := Replaced(m, p);
    assert s[|m.anchor|] == '\n';
    assert |s| >= |m.anchor| + 1 + |p.rest|;
    assert |p.anchor| > |m.anchor| ==> (p.anchor + p.rest)[|m.anchor|] == p.anchor[|m.anchor|];
  }

  lemma BraceOnAnchorLine(m: Fences, p: Pieces)
    requires Usable(m) && NoNewline(p.anchor) && NoNewline(p.rest) && Kept(p) == []
    ensures Replaced(m, p) != p.anchor + p.rest
  {
    var s := m.anchor + "\n" + Kept(p);
    assert s == m.anchor + "\n";
    assert s[|s| - 2..][0] == m.anchor[|m.anchor| - 1];
    assert !EndsWith(s, "\n\n");
    assert s[|m.anchor|] == '\n';
    assert |p.anchor| > |m.anchor| ==> (p.anchor + p.rest)[|m.anchor|] == p.anchor[|m.anchor|];
    assert |p.anchor| <= |m.anchor| < |p.anchor| + |p.rest| ==>
             (p.anchor + p.rest)[|m.anchor|] == p.rest[|m.anchor| - |p.anchor|];
  }

  lemma BlankAnchorLine(m: Fences, p: Pieces)
    requires Usable(m) && NoNewline(p.anchor) && IsIndent(LastLine(p.before))
    requires IsBlank(FirstLine(p.rest)) && !NoNewline(p.rest) && Kept(p) == AfterLine(p.rest) + "\n"
    ensures Replaced(m, p) == p.anchor + p.rest <==> AnchorAlone(m, p)
  {
    var first, after := FirstLine(p.rest), AfterLine(p.rest);
    FirstLineSplit(p.rest);
    var s := m.anchor + "\n" + (after + "\n");
    assert p.rest[|first|] == '\n';
    assert p.anchor + p.rest == (p.anchor + first) + "\n" + after;
    assert s[..|s| - 1] == m.anchor + "\n" + after;
    SameCut(m.anchor, after, p.anchor + first, after);
    SameCut(m.anchor, after + "\n", p.anchor + first, after);
    EndsBlank(m, p);
    SameToken(m, p);
  }

  /** A blank line is dropped exactly when the brace starts a line. */
  lemma EndsBlank(m: Fences, p: Pieces)
    requires !NoNewline(p.rest)
    ensures EndsWith(m.anchor + "\n" + (AfterLine(p.rest) + "\n"), "\n\n") <==> p.rest[|p.rest| - 1] == '\n'
  {
    var after := AfterLine(p.rest);
    var s := m.anchor + "\n" + (after + "\n");
    FirstLineSplit(p.rest);
    assert s[|s| - 2..] == [s[|s| - 2], '\n'];
    assert s[|s| - 2] == if after == [] then '\n' else after[|after| - 1];
    assert p.rest[|p.rest| - 1] == if after == [] then '\n' else after[|after| - 1];
  }

  /** Blanks after the old anchor cannot make it the token. */
  lemma SameToken(m: Fences, p: Pieces)
    requires Usable(m) && IsBlank(FirstLine(p.rest)) && !NoNewline(p.rest)
    ensures m.anchor == p.anchor + FirstLine(p.rest) <==> m.anchor == p.anchor && p.rest[0] == '\n'
  {
    var first := FirstLine(p.rest);
    FirstLineSplit(p.rest);
    if first != [] {
      assert IsWhitespace(first[|first| - 1]);
      assert (p.anchor + first)[|p.anchor| + |first| - 1] == first[|first| - 1];
    }
  }

  // ----- a marker in mid-line -----

  /** What lies between a wrap's begin marker and the block. */
  function AfterBegin(m: Fences, p: Pieces): string {
    Middle(p.Indent()) + m.wrapEnd + Between(p)
  }

  lemma MidLineShape(m: Fences, p: Pieces, additions: string)
    requires Usable(m) && Unmarked(m, p.rest)
    ensures Spliced(m, p, additions) == p.before + (m.wrapBegin + (AfterBegin(m, p) + FromBlock(m, additions, p.close)))
    ensures Unmarked(m, AfterBegin(m, p)) && AfterBegin(m, p) != [] && AfterBegin(m, p)[|AfterBegin(m, p)| - 1] == '\n'
  {
    var middle, block := Middle(p.Indent()), FromBlock(m, additions, p.close);
    SplicedShape(m, p, additions);
    assert middle + (m.wrapEnd + (Between(p) + block)) == AfterBegin(m, p) + block;
    BetweenIsUnmarked(m, p);
    WrapEndThenUnmarked(m, Between(p));
    SlashlessThenUnmarked(m, middle, m.wrapEnd + Between(p));
    EndsAsBetween(middle + m.wrapEnd, Between(p));
    assert middle + (m.wrapEnd + Between(p)) == AfterBegin(m, p);
  }

  lemma MidLineReversed(m: Fences, done: string, between: string, additions: string, close: string)
    requires Usable(m) && BlockEndFree(m, additions) && Unmarked(m, between) && Unmarked(m, close)
    requires between != [] && between[|between| - 1] == '\n'
    ensures Reversed(m, LastLine(done), between + FromBlock(m, additions, close), done, false)
         == (RegionOut(m, done + FullLines(between), [], false) + close, true)
  {
    EndsAsBetween(LastLine(done), between);
    LineHasEnded(LastLine(done) + between);
    BlockTurn(m, LastLine(done), between, additions, close, done, false);
  }

  /** With something other than indentation before the anchor, the wrap's begin marker is still there afterwards. */
  lemma MidLineStaysMarked(m: Fences, p: Pieces, additions: string)
    requires Usable(m) && Unmarked(m, p.Text()) && BlockEndFree(m, additions) && !IsIndent(LastLine(p.before))
    ensures var r := Uninstalled(m, Spliced(m, p, additions));
            r.Some? && OccursAt(r.value, m.wrapBegin, |p.before|)
  {
    UnmarkedParts(m, p);
    MidLineShape(m, p, additions);
    var between := AfterBegin(m, p);
    MidLineTurn(m, p.before, between + FromBlock(m, additions, p.close));
    MidLineReversed(m, p.before + m.wrapBegin, between, additions, p.close);
    MidLineOutcome(m, p.before, between, p.close);
  }

  lemma EndsAsBetween(a: string, b: string)
    requires b != [] && b[|b| - 1] == '\n'
    ensures (a + b)[|a + b| - 1] == '\n'
  {
  }

  lemma MidLineOutcome(m: Fences, before: string, between: string, close: string)
    requires between != [] && between[|between| - 1] == '\n'
    ensures OccursAt(RegionOut(m, before + m.wrapBegin + FullLines(between), [], false) + close, m.wrapBegin, |before|)
  {
    LineHasEnded(between);
    StillThere(before, m.wrapBegin, between, close);
    StillThere(before, m.wrapBegin, between[..|between| - 1], close);
    var out := before + m.wrapBegin + between;
    assert out[..|out| - 1] == before + m.wrapBegin + between[..|between| - 1];
  }

  lemma StillThere(before: string, marker: string, x: string, close: string)
    ensures OccursAt(before + marker + x + close, marker, |before|)
  {
    assert (before + marker + x + close)[|before|..|before| + |marker|] == marker;
  }

  lemma BetweenIsUnmarked(m: Fences, p: Pieces)
    requires Usable(m) && Unmarked(m, p.rest)
    ensures Unmarked(m, Between(p)) && Between(p) != [] && Between(p)[|Between(p)| - 1] == '\n'
  {
    LeadingIndentIsIndent(LastLine(p.before));
    SlashlessThenUnmarked(m, Separator(p.Indent(), p.rest), p.rest);
    UnmarkedThenNewline(m, Separator(p.Indent(), p.rest) + p.rest);
  }

  lemma IndentedRestores(m: Fences, p: Pieces)
    requires Usable(m) && NoNewline(p.anchor) && IsIndent(LastLine(p.before))
    ensures RegionOut(m, p.before + m.anchor + "\n" + Kept(p), [], false) + p.close == p.Text() <==> AnchorAlone(m, p)
  {
    ReplacedInPlace(m, p);
    ReplacedFaithfully(m, p);
    SameMiddle(p.before, Replaced(m, p), p.anchor + p.rest, p.close);
    assert p.Text() == p.before + (p.anchor + p.rest) + p.close;
  }

  /** Uninstalling what was injected into a layout without markers gives the layout back, character for character,
      exactly when the anchor stood alone on its line as the bare token and the closing brace starts a line. */
  lemma UninstallRestores(m: Fences, p: Pieces, additions: string)
    requires Usable(m) && Unmarked(m, p.Text()) && BlockEndFree(m, additions) && NoNewline(p.anchor)
    ensures Uninstalled(m, Spliced(m, p, additions)) == Some(p.Text()) <==> AnchorAlone(m, p)
  {
    if IsIndent(LastLine(p.before)) {
      IndentedOutcome(m, p, additions);
      IndentedRestores(m, p);
    } else {
      MidLineStaysMarked(m, p, additions);
    }
  }

  /** A layout without begin markers has nothing to reverse. */
  lemma NothingToUninstall(m: Fences, layout: string)
    requires Unmarked(m, layout)
    ensures Uninstalled(m, layout).None?
  {
    FindsNoBegin(m, layout);
  }
}
