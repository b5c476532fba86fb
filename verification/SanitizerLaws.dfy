/** What the sanitizer does to a text, spelled out: which characters it drops and which it folds, and what counts as an
    escape sequence (section 5.4 of ECMA-48 for control sequences; operating-system commands as terminals take them). */
module SanitizerLaws {
  import opened Prelude
  import opened Sanitizer

  // ----- the characters -----

  /** The explicit directional marks, embeddings, overrides and isolates. */
  const BIDI_CONTROLS: set<int> := {
    0x061C, 0x200E, 0x200F, 0x202A, 0x202B, 0x202C, 0x202D, 0x202E, 0x2066, 0x2067, 0x2068, 0x2069
  }

  /** A C0 control, DEL or a C1 control. */
  predicate IsControl(c: char) {
    c < ' ' || 0x7f <= c as int <= 0x9f
  }

  /** A character is kept exactly when it is no control and no bidi control. */
  lemma KeptExactly(c: char)
    ensures Kept(c) <==> !IsControl(c) && c as int !in BIDI_CONTROLS
  {
  }

  // ----- a text, piece by piece -----

  /** The pieces a text is made of: a character that stays, a line break or tab, a character that goes, and the three
      kinds of escape sequence. */
  datatype Piece =
    | Printed(c: char)
    | Break(c: char)
    | Dropped(c: char)
    | Csi(parameters: string, final: char)
    | Osc(command: string, bell: bool)
    | Pair(c: char)
  {
    predicate IsProper() {
      match this
      case Printed(c) => !IsControl(c) && c as int !in BIDI_CONTROLS
      case Break(c) => c in "\n\t\r"
      case Dropped(c) => c !in "\n\t\r" && c != ESC && (IsControl(c) || c as int in BIDI_CONTROLS)
      case Csi(parameters, final) => InsideCsi(parameters) && 0x40 <= final as int <= 0x7e
      case Osc(command, _) => forall k :: 0 <= k < |command| ==> command[k] >= ' '
      case Pair(c) => c != '[' && c != ']'
    }

    function Text(): string {
      match this
      case Csi(parameters, final) => [ESC] + "[" + parameters + [final]
      case Osc(command, bell) => [ESC] + "]" + command + if bell then [BEL] else [ESC] + "\\"
      case Pair(c) => [ESC, c]
      case _ => [c]
    }

    /** What is left of it. */
    function Shown(): string {
      match this
      case Printed(c) => [c]
      case Break(_) => " "
      case _ => ""
    }
  }

  /** Parameters and intermediates - or DEL, which ends nothing. */
  predicate InsideCsi(s: string) {
    forall k :: 0 <= k < |s| ==> 0x20 <= s[k] as int <= 0x3f || s[k] as int == 0x7f
  }

  function TextOf(pieces: seq<Piece>): string {
    if pieces == [] then "" else pieces[0].Text() + TextOf(pieces[1..])
  }

  function ShownOf(pieces: seq<Piece>): string {
    if pieces == [] then "" else pieces[0].Shown() + ShownOf(pieces[1..])
  }

  lemma {:induction false} CsiBodyIsPassed(body: string, rest: string)
    requires InsideCsi(body)
    ensures AfterCsi(body + rest) == AfterCsi(rest)
  {
    if body == [] {
      assert body + rest == rest;
    } else {
      assert (body + rest)[1..] == body[1..] + rest;
      CsiBodyIsPassed(body[1..], rest);
    }
  }

  lemma {:induction false} OscBodyIsPassed(body: string, rest: string)
    requires forall k :: 0 <= k < |body| ==> body[k] >= ' '
    ensures AfterOsc(body + rest) == AfterOsc(rest)
  {
    if body == [] {
      assert body + rest == rest;
    } else {
      assert (body + rest)[1..] == body[1..] + rest;
      OscBodyIsPassed(body[1..], rest);
    }
  }

  lemma CsiVanishes(parameters: string, final: char, rest: string)
    requires InsideCsi(parameters) && 0x40 <= final as int <= 0x7e
    ensures Scrubbed([ESC] + "[" + parameters + [final] + rest) == Scrubbed(rest)
  {
    var s := [ESC] + "[" + parameters + [final] + rest;
    assert s[2..] == parameters + ([final] + rest);
    CsiBodyIsPassed(parameters, [final] + rest);
    assert ([final] + rest)[1..] == rest;
  }

  lemma BellEndsOsc(rest: string)
    ensures AfterOsc([BEL] + rest) == rest
  {
    assert ([BEL] + rest)[1..] == rest;
  }

  lemma StringTerminatorEndsOsc(rest: string)
    ensures AfterOsc([ESC] + "\\" + rest) == rest
  {
    var s := [ESC] + "\\" + rest;
    assert s[0] == ESC && s[1] == '\\' && s[2..] == rest;
  }

  lemma OscLeaves(command: string, bell: bool, rest: string)
    requires forall k :: 0 <= k < |command| ==> command[k] >= ' '
    ensures AfterOsc(command + ((if bell then [BEL] else [ESC] + "\\") + rest)) == rest
  {
    var end := if bell then [BEL] else [ESC] + "\\";
    OscBodyIsPassed(command, end + rest);
    if bell {
      BellEndsOsc(rest);
    } else {
      StringTerminatorEndsOsc(rest);
    }
  }

  lemma OscIsSkipped(body: string)
    ensures Scrubbed([ESC, ']'] + body) == Scrubbed(AfterOsc(body))
  {
    assert ([ESC, ']'] + body)[2..] == body;
  }

  lemma OscVanishes(command: string, bell: bool, rest: string)
    requires forall k :: 0 <= k < |command| ==> command[k] >= ' '
    ensures Scrubbed(Osc(command, bell).Text() + rest) == Scrubbed(rest)
  {
    var end := if bell then [BEL] else [ESC] + "\\";
    OscLeaves(command, bell, rest);
    OscIsSkipped(command + (end + rest));
    assert Osc(command, bell).Text() + rest == [ESC, ']'] + (command + (end + rest));
  }

  lemma PieceIsShown(p: Piece, rest: string)
    requires p.IsProper()
    ensures Scrubbed(p.Text() + rest) == p.Shown() + Scrubbed(rest)
  {
    match p
    case Csi(parameters, final) => CsiVanishes(parameters, final, rest);
    case Osc(command, bell) => OscVanishes(command, bell, rest);
    case Pair(c) => assert ([ESC, c] + rest)[2..] == rest;
    case _ =>
      assert ([p.c] + rest)[1..] == rest;
      KeptExactly(p.c);
  }

  /** The sanitizer's meaning: of a text made of such pieces the printed characters are left, each line break or tab
      as one space, and nothing else - however long the sequences, and whatever stands next to what. */
  lemma {:induction false} TextIsShown(pieces: seq<Piece>)
    requires forall k :: 0 <= k < |pieces| ==> pieces[k].IsProper()
    ensures Scrubbed(TextOf(pieces)) == ShownOf(pieces)
  {
    if pieces != [] {
      PieceIsShown(pieces[0], TextOf(pieces[1..]));
      TextIsShown(pieces[1..]);
    }
  }

  /** Without escapes and dropped characters the text keeps its length, character by character. */
  lemma {:induction false} FoldedInPlace(s: string)
    requires forall k :: 0 <= k < |s| ==> Kept(s[k]) || s[k] in "\n\t\r"
    ensures |Scrubbed(s)| == |s|
    ensures forall k :: 0 <= k < |s| ==> Scrubbed(s)[k] == if s[k] in "\n\t\r" then ' ' else s[k]
  {
    if s != [] {
      FoldedInPlace(s[1..]);
    }
  }

  // ----- sequences cut short -----

  /** A control or a character outside ASCII cuts a control sequence short, and is read afresh. */
  lemma StrayEndsCsi(parameters: string, stray: char, rest: string)
    requires InsideCsi(parameters) && (stray < ' ' || stray as int >= 0x80)
    ensures Scrubbed([ESC] + "[" + parameters + [stray] + rest) == Scrubbed([stray] + rest)
  {
    var s := [ESC] + "[" + parameters + [stray] + rest;
    assert s[2..] == parameters + ([stray] + rest);
    CsiBodyIsPassed(parameters, [stray] + rest);
  }

  /** A control other than its two ends cuts an operating-system command short, and is read afresh. */
  lemma StrayEndsOsc(command: string, stray: char, rest: string)
    requires forall k :: 0 <= k < |command| ==> command[k] >= ' '
    requires stray < ' ' && stray != BEL && !(stray == ESC && rest != [] && rest[0] == '\\')
    ensures Scrubbed([ESC] + "]" + command + [stray] + rest) == Scrubbed([stray] + rest)
  {
    OscBodyIsPassed(command, [stray] + rest);
    OscIsSkipped(command + ([stray] + rest));
    assert [ESC] + "]" + command + [stray] + rest == [ESC, ']'] + (command + ([stray] + rest));
  }

  /** Left open, either swallows what there is; an escape at the very end is dropped. */
  lemma OpenSequencesSwallow(parameters: string, command: string)
    requires InsideCsi(parameters) && forall k :: 0 <= k < |command| ==> command[k] >= ' '
    ensures Scrubbed([ESC] + "[" + parameters) == Scrubbed([ESC] + "]" + command) == Scrubbed([ESC]) == ""
  {
    var s, t := [ESC] + "[" + parameters, [ESC] + "]" + command;
    assert s[2..] == parameters + [] && t[2..] == command + [];
    CsiBodyIsPassed(parameters, []);
    OscBodyIsPassed(command, []);
  }
}
