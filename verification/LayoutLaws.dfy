/** The spliced layout line by line: what stands where after `inject` (crates/cli/src/layout.rs). */
module LayoutLaws {
  import opened Prelude
  import opened TextLines
  import opened Layout

  // ----- a text as its lines -----

  /** The lines of a text: one more than it has newlines. */
  function Lines(s: string): (r: seq<string>)
    ensures |r| >= 1
  {
    if s == "" then [""]
    else
      var rest := Lines(s[1..]);
      if s[0] == '\n' then [""] + rest else [[s[0]] + rest[0]] + rest[1..]
  }

  /** The lines of two texts in a row: the last of the one and the first of the other are one. */
  function Glued(a: seq<string>, b: seq<string>): seq<string>
    requires a != [] && b != []
  {
    a[..|a| - 1] + [a[|a| - 1] + b[0]] + b[1..]
  }

  lemma {:induction false} LinesOfConcat(s: string, t: string)
    ensures Lines(s + t) == Glued(Lines(s), Lines(t))
  {
    if s == "" {
      assert s + t == t && "" + Lines(t)[0] == Lines(t)[0];
      assert Glued([""], Lines(t)) == Lines(t);
    } else {
      assert (s + t)[1..] == s[1..] + t;
      LinesOfConcat(s[1..], t);
      var rest := Lines(s[1..]);
      if s[0] == '\n' {
        assert Glued([""] + rest, Lines(t)) == [""] + Glued(rest, Lines(t));
      } else {
        FirstLineGrows([s[0]], rest, Lines(t));
      }
    }
  }

  lemma FirstLineGrows(c: string, a: seq<string>, b: seq<string>)
    requires a != [] && b != []
    ensures var g := Glued(a, b);
            Glued([c + a[0]] + a[1..], b) == [c + g[0]] + g[1..]
  {
    var longer, g := [c + a[0]] + a[1..], Glued(a, b);
    if |a| == 1 {
      assert c + a[0] + b[0] == c + (a[0] + b[0]);
    }
    assert Glued(longer, b) == [c + g[0]] + g[1..];
  }

  /** A newline between them keeps them apart. */
  lemma LinesAround(s: string, t: string)
    ensures Lines(s + "\n" + t) == Lines(s) + Lines(t)
  {
    var nt := "\n" + t;
    assert nt[0] == '\n' && nt[1..] == t && s + "\n" + t == s + nt;
    LinesOfConcat(s, nt);
    var a := Lines(s);
    assert a[|a| - 1] + "" == a[|a| - 1];
    assert Glued(a, [""] + Lines(t)) == a + Lines(t);
  }

  lemma {:induction false} LineIsOne(s: string)
    requires NoNewline(s)
    ensures Lines(s) == [s]
  {
    if s != "" {
      LineIsOne(s[1..]);
      assert [s[0]] + s[1..] == s;
    }
  }

  // ----- joining at an indent -----

  /** A line at the indent; a blank one stays blank. */
  function AtIndent(line: string, indent: string): string {
    if line == "" then "" else indent + line
  }

  function AllAtIndent(lines: seq<string>, indent: string): seq<string> {
    seq(|lines|, k requires 0 <= k < |lines| => AtIndent(lines[k], indent))
  }

  predicate AreLines(lines: seq<string>) {
    forall k :: 0 <= k < |lines| ==> NoNewline(lines[k])
  }

  lemma TailText(first: string, lines: seq<string>, indent: string)
    requires lines != []
    ensures first + IndentedTail(lines, indent)
         == first + "\n" + (AtIndent(lines[0], indent) + IndentedTail(lines[1..], indent))
  {
    var next, tail := AtIndent(lines[0], indent), IndentedTail(lines[1..], indent);
    assert OnNewLine(lines[0], indent) == "\n" + next;
    assert first + ("\n" + next + tail) == first + "\n" + (next + tail);
  }

  lemma RestAreLines(lines: seq<string>, indent: string)
    requires lines != [] && AreLines(lines) && NoNewline(indent)
    ensures NoNewline(AtIndent(lines[0], indent)) && AreLines(lines[1..])
    ensures AllAtIndent(lines, indent) == [AtIndent(lines[0], indent)] + AllAtIndent(lines[1..], indent)
  {
  }

  lemma {:induction false} LinesOfTail(first: string, lines: seq<string>, indent: string)
    requires NoNewline(first) && AreLines(lines) && NoNewline(indent)
    ensures Lines(first + IndentedTail(lines, indent)) == [first] + AllAtIndent(lines, indent)
    decreases |lines|
  {
    if lines == [] {
      LineIsOne(first);
      assert first + [] == first;
    } else {
      var next, rest := AtIndent(lines[0], indent), lines[1..];
      TailText(first, lines, indent);
      LinesAround(first, next + IndentedTail(rest, indent));
      LineIsOne(first);
      RestAreLines(lines, indent);
      LinesOfTail(next, rest, indent);
    }
  }

  /** Joined at an indent, the lines are the lines given: the first as it is, the others at the indent, blank ones
      blank. */
  lemma BlockLines(lines: seq<string>, indent: string)
    requires lines != [] && AreLines(lines) && NoNewline(indent)
    ensures Lines(Block(lines, indent)) == [lines[0]] + AllAtIndent(lines[1..], indent)
  {
    LinesOfTail(lines[0], lines[1..], indent);
  }

  // ----- what is wrapped around the anchor -----

  predicate Opens(line: string) {
    line != "" && line[|line| - 1] == '{'
  }

  predicate Closes(line: string) {
    line != "" && line[|line| - 1] == '}'
  }

  /** How deep in braces a line stands. */
  function Depth(lines: seq<string>, k: nat): int
    requires k <= |lines|
  {
    if k == 0 then 0
    else Depth(lines, k - 1) + (if Opens(lines[k - 1]) then 1 else if Closes(lines[k - 1]) then -1 else 0)
  }

  /** The split keeps the layout's anchor inside, once, beside a pane that runs the radar, and closes every brace it
      opens. */
  lemma WrapHoldsTheAnchor()
    ensures var w := RAIL_PANE_WRAP;
            && |w| == 6 && w[4] == "    children" && Depth(w, 4) == 1 && Depth(w, 6) == 0
            && w[2] == "        plugin location=\"radar\"" && Depth(w, 2) == 2
            && (forall k :: 0 <= k <= 6 ==> Depth(w, k) >= 0)
            && (forall k :: 0 <= k < 6 && k != 4 ==> w[k] != w[4])
  {
    var w := RAIL_PANE_WRAP;
    WrapEnds();
    assert Depth(w, 0) == 0 && Depth(w, 1) == 1 && Depth(w, 2) == 2 && Depth(w, 3) == 2;
    assert Depth(w, 4) == 1 && Depth(w, 5) == 1 && Depth(w, 6) == 0;
  }

  lemma WrapEnds()
    ensures var w := RAIL_PANE_WRAP;
            && Opens(w[0]) && Opens(w[1]) && !Opens(w[2]) && !Closes(w[2]) && Closes(w[3]) && !Opens(w[3])
            && !Opens(w[4]) && !Closes(w[4]) && Closes(w[5]) && !Opens(w[5])
  {
  }

  // ----- the spliced layout -----

  /** The wrap's lines where the anchor stood: markers around the split, all at its indent. */
  function WrapAt(m: Fences, indent: string): seq<string> {
    [m.wrapBegin] + AllAtIndent(RAIL_PANE_WRAP + [m.wrapEnd], indent)
  }

  lemma WrapLinesAre(m: Fences, indent: string)
    requires NoNewline(m.wrapBegin) && NoNewline(m.wrapEnd) && NoNewline(indent)
    ensures Lines(Wrap(m, indent)) == WrapAt(m, indent)
  {
    var lines := WrapLines(m);
    WrapHasNoNewline();
    assert AreLines(lines) && lines[1..] == RAIL_PANE_WRAP + [m.wrapEnd];
    BlockLines(lines, indent);
  }

  lemma WrapHasNoNewline()
    ensures AreLines(RAIL_PANE_WRAP)
  {
  }

  lemma IndentHasNoNewline(s: string)
    ensures NoNewline(LeadingIndent(s))
  {
  }

  /** What follows the anchor: on the wrap's last line when nothing but space does up to the end of the line, and on a
      line of its own, at the indent, otherwise. */
  function RestLines(indent: string, rest: string): seq<string> {
    if IsBlank(FirstLine(rest)) then Lines(rest) else [""] + Lines(indent + rest)
  }

  /** After `inject`: what came before the anchor, the wrap in its place, what came after it; then, between the
      block's markers, the additions; then what closes the layout. Nothing of the layout but the anchor is missing,
      and nothing else is there. */
  lemma SplicedLines(m: Fences, p: Pieces, additions: string)
    requires NoNewline(m.wrapBegin) && NoNewline(m.wrapEnd) && NoNewline(m.blockBegin) && NoNewline(m.blockEnd)
    ensures Lines(Spliced(m, p, additions)) ==
              Glued(Glued(Lines(p.before), WrapAt(m, p.Indent())), RestLines(p.Indent(), p.rest))
              + [m.blockBegin] + Lines(additions) + [m.blockEnd] + Lines(p.close)
  {
    var top := p.before + Wrap(m, p.Indent()) + Separator(p.Indent(), p.rest) + p.rest;
    var first := Glued(Glued(Lines(p.before), WrapAt(m, p.Indent())), RestLines(p.Indent(), p.rest));
    hide Lines, Glued, WrapAt, RestLines, Wrap, Separator, BlockFence;
    TopLines(m, p);
    BlockFenceLines(m, additions);
    LinesOfThree(top, BlockFence(m, additions), p.close);
    InARow(first, [m.blockBegin], Lines(additions), [m.blockEnd], Lines(p.close));
    assert Spliced(m, p, additions) == top + "\n" + BlockFence(m, additions) + "\n" + p.close;
  }

  lemma InARow(a: seq<string>, b: seq<string>, c: seq<string>, d: seq<string>, e: seq<string>)
    ensures a + (b + c + d) + e == a + b + c + d + e
  {
  }

  lemma LinesOfThree(a: string, b: string, c: string)
    ensures Lines(a + "\n" + b + "\n" + c) == Lines(a) + Lines(b) + Lines(c)
  {
    LinesAround(a + "\n" + b, c);
    LinesAround(a, b);
  }

  lemma TopLines(m: Fences, p: Pieces)
    requires NoNewline(m.wrapBegin) && NoNewline(m.wrapEnd)
    ensures Lines(p.before + Wrap(m, p.Indent()) + Separator(p.Indent(), p.rest) + p.rest) ==
              Glued(Glued(Lines(p.before), WrapAt(m, p.Indent())), RestLines(p.Indent(), p.rest))
  {
    var indent := p.Indent();
    IndentHasNoNewline(LastLine(p.before));
    WrapLinesAre(m, indent);
    var wrap, tail := Wrap(m, indent), Separator(indent, p.rest) + p.rest;
    LinesOfConcat(p.before, wrap);
    LinesOfConcat(p.before + wrap, tail);
    assert p.before + wrap + Separator(indent, p.rest) + p.rest == p.before + wrap + tail;
    if IsBlank(FirstLine(p.rest)) {
      assert tail == p.rest;
    } else {
      LinesAround("", indent + p.rest);
      assert tail == "" + "\n" + (indent + p.rest);
    }
  }

  lemma BlockFenceLines(m: Fences, additions: string)
    requires NoNewline(m.blockBegin) && NoNewline(m.blockEnd)
    ensures Lines(BlockFence(m, additions)) == [m.blockBegin] + Lines(additions) + [m.blockEnd]
  {
    LinesAround(m.blockBegin, additions + "\n" + m.blockEnd);
    LinesAround(additions, m.blockEnd);
    LineIsOne(m.blockBegin);
    LineIsOne(m.blockEnd);
    assert BlockFence(m, additions) == m.blockBegin + "\n" + (additions + "\n" + m.blockEnd);
  }
}
