/** The free-text sanitizer (crates/core/src/payload.rs): a byte scanner over UTF-8, the character-level
    scanner it is proved equal to, and the fixpoints that presence validation relies on. */
module Sanitizer {
  import opened Prelude
  import opened Utf8

  const ESC := 0x1b as char
  const BEL := 0x07 as char

  predicate IsBidiControl(c: char) {
    var v := c as int;
    0x202A <= v <= 0x202E || 0x2066 <= v <= 0x2069 || v == 0x200E || v == 0x200F || v == 0x061C
  }

  /** Whether the sanitizer passes `c` through unchanged. */
  predicate Kept(c: char) {
    var v := c as int;
    if v < 0x80 then 0x20 <= v && v != 0x7f else !(0x80 <= v <= 0x9f) && !IsBidiControl(c)
  }

  predicate AllKept(s: string) {
    forall k :: 0 <= k < |s| ==> Kept(s[k])
  }

  predicate FoldsToSpace(v: int) {
    v == 0x0a || v == 0x09 || v == 0x0d
  }

  // ----- the character-level scanner: what the documentation of `sanitize` promises -----

  /** What follows a CSI body: through a final byte 0x40-0x7E, or up to the first char that cannot be in one. */
  function AfterCsi(s: string): (r: string)
    ensures |r| <= |s|
  {
    if s == [] || !(0x20 <= s[0] as int < 0x80) then s
    else if 0x40 <= s[0] as int <= 0x7e then s[1..]
    else AfterCsi(s[1..])
  }

  /** What follows an OSC string: through BEL or ESC \, or up to the first other control. */
  function AfterOsc(s: string): (r: string)
    ensures |r| <= |s|
  {
    if s == [] then s
    else if s[0] == BEL then s[1..]
    else if s[0] == ESC && |s| > 1 && s[1] == '\\' then s[2..]
    else if (s[0] as int) < 0x20 then s
    else AfterOsc(s[1..])
  }

  /** What follows an ESC and the sequence it introduces. */
  function AfterEscape(s: string): (r: string)
    requires s != [] && s[0] == ESC
    ensures |r| < |s|
  {
    if |s| == 1 then []
    else if s[1] == '[' then AfterCsi(s[2..])
    else if s[1] == ']' then AfterOsc(s[2..])
    else s[2..]
  }

  /** The text that survives: escape sequences go whole, line breaks and tabs become spaces. */
  function Scrubbed(s: string): string
    decreases |s|
  {
    if s == [] then []
    else if s[0] == ESC then Scrubbed(AfterEscape(s))
    else if FoldsToSpace(s[0] as int) then " " + Scrubbed(s[1..])
    else if Kept(s[0]) then [s[0]] + Scrubbed(s[1..])
    else Scrubbed(s[1..])
  }

  /** `sanitize`: the surviving text, cut at `maxChars` characters. */
  function Sanitize(s: string, maxChars: nat): string {
    Take(Scrubbed(s), maxChars)
  }

  // ----- the byte-level scanner -----

  function AfterCsiBytes(b: seq<Byte>): (r: seq<Byte>)
    ensures |r| <= |b|
  {
    if b == [] || !(0x20 <= b[0] < 0x80) then b
    else if 0x40 <= b[0] <= 0x7e then b[1..]
    else AfterCsiBytes(b[1..])
  }

  function AfterOscBytes(b: seq<Byte>): (r: seq<Byte>)
    ensures |r| <= |b|
  {
    if b == [] then b
    else if b[0] == 0x07 then b[1..]
    else if b[0] == 0x1b && |b| > 1 && b[1] == 0x5c then b[2..]
    else if b[0] < 0x20 then b
    else AfterOscBytes(b[1..])
  }

  /** What the scan leaves after one turn of its loop. */
  function StepRest(b: seq<Byte>): (r: seq<Byte>)
    requires b != []
    ensures |r| < |b|
  {
    if b[0] == 0x1b then
      if |b| == 1 then []
      else if b[1] == 0x5b then AfterCsiBytes(b[2..])
      else if b[1] == 0x5d then AfterOscBytes(b[2..])
      else b[2..]
    else if b[0] < 0x20 || b[0] == 0x7f || IsContinuation(b[0]) then b[1..]
    else
      match DecodeFront(b)
      case Some(cn) => b[cn.1..]
      case None => b[1..]
  }

  /** What one turn of the scan pushes. */
  function StepText(b: seq<Byte>): string
    requires b != []
  {
    if b[0] == 0x1b then []
    else if FoldsToSpace(b[0]) then " "
    else if b[0] < 0x20 || b[0] == 0x7f || IsContinuation(b[0]) then []
    else
      match DecodeFront(b)
      case Some(cn) => if Kept(cn.0) then [cn.0] else []
      case None => []
  }

  function ScrubbedBytes(b: seq<Byte>): string
    decreases |b|
  {
    if b == [] then [] else StepText(b) + ScrubbedBytes(StepRest(b))
  }

  /** The CSI arm's inner loop. */
  method SkipCsi(bytes: seq<Byte>, start: nat) returns (i: nat)
    requires start <= |bytes|
    ensures start <= i <= |bytes|
    ensures bytes[i..] == AfterCsiBytes(bytes[start..])
  {
    i := start;
    while i < |bytes|
      invariant start <= i <= |bytes|
      invariant AfterCsiBytes(bytes[i..]) == AfterCsiBytes(bytes[start..])
    {
      var fb := bytes[i];
      assert bytes[i..][1..] == bytes[i + 1..];
      if !(0x20 <= fb < 0x80) {
        return;
      }
      if 0x40 <= fb <= 0x7e {
        i := i + 1;
        return;
      }
      i := i + 1;
    }
  }

  /** The OSC arm's inner loop. */
  method SkipOsc(bytes: seq<Byte>, start: nat) returns (i: nat)
    requires start <= |bytes|
    ensures start <= i <= |bytes|
    ensures bytes[i..] == AfterOscBytes(bytes[start..])
  {
    i := start;
    while i < |bytes|
      invariant start <= i <= |bytes|
      invariant AfterOscBytes(bytes[i..]) == AfterOscBytes(bytes[start..])
    {
      var b := bytes[i];
      assert bytes[i..][1..] == bytes[i + 1..];
      if b == 0x07 {
        i := i + 1;
        return;
      }
      if b == 0x1b && i + 1 < |bytes| && bytes[i + 1] == 0x5c {
        assert bytes[i..][2..] == bytes[i + 2..];
        i := i + 2;
        return;
      }
      if b < 0x20 {
        return;
      }
      i := i + 1;
    }
  }

  /** The full walk over the bytes of `s`, starting a turn at `i`: what it pushes and where it goes next. */
  method ScrubTurn(bytes: seq<Byte>, i: nat) returns (pushed: string, next: nat)
    requires i < |bytes|
    ensures i < next <= |bytes|
    ensures bytes[next..] == StepRest(bytes[i..]) && pushed == StepText(bytes[i..])
  {
    var b := bytes[i];
    ghost var rest := bytes[i..];
    assert rest[1..] == bytes[i + 1..];
    pushed := [];
    if b == 0x1b {
      if i + 1 == |bytes| {
        next := i + 1;
      } else {
        assert rest[2..] == bytes[i + 2..];
        if bytes[i + 1] == 0x5b {
          next := SkipCsi(bytes, i + 2);
        } else if bytes[i + 1] == 0x5d {
          next := SkipOsc(bytes, i + 2);
        } else {
          next := i + 2;
        }
      }
    } else if FoldsToSpace(b) {
      pushed := " ";
      next := i + 1;
    } else if b < 0x20 || b == 0x7f || IsContinuation(b) {
      next := i + 1;
    } else {
      match DecodeFront(bytes[i..])
      case Some(cn) =>
        if Kept(cn.0) {
          pushed := [cn.0];
        }
        assert rest[cn.1..] == bytes[i + cn.1..];
        next := i + cn.1;
      case None =>
        next := i + 1;
    }
  }

  method Scrub(s: string, maxChars: nat) returns (cleaned: string)
    ensures cleaned == Sanitize(s, maxChars)
  {
    var bytes := EncodeAll(s);
    var all := [];
    var i := 0;
    while i < |bytes|
      invariant i <= |bytes|
      invariant all + ScrubbedBytes(bytes[i..]) == ScrubbedBytes(bytes)
      decreases |bytes| - i
    {
      var pushed, next := ScrubTurn(bytes, i);
      assert (all + pushed) + ScrubbedBytes(bytes[next..]) == all + (pushed + ScrubbedBytes(bytes[next..]));
      all := all + pushed;
      i := next;
    }
    assert all == ScrubbedBytes(bytes);
    ScannersAgree(s);
    cleaned := Take(all, maxChars);
  }

  /** `sanitize_in_place`, the string it leaves behind: clean input is only cut, anything else takes the walk. */
  method SanitizeInPlace(s: string, maxChars: nat) returns (r: string)
    ensures r == Sanitize(s, maxChars)
  {
    if forall k :: 0 <= k < |s| ==> Kept(s[k]) {
      CleanTextSurvives(s);
      if maxChars < |s| {
        return s[..maxChars];
      }
      return s;
    }
    r := Scrub(s, maxChars);
  }

  // ----- the byte scanner computes what the character scanner computes -----

  lemma EncodeAllConcat(s: string, t: string)
    ensures EncodeAll(s + t) == EncodeAll(s) + EncodeAll(t)
  {
    if s == [] {
      assert s + t == t;
    } else {
      EncodeAllConcat(s[1..], t);
      assert (s + t)[1..] == s[1..] + t;
    }
  }

  /** An ASCII first character is one byte; the encoding goes on with the rest. */
  lemma AsciiFront(s: string)
    requires s != []
    ensures var b := EncodeAll(s);
            |b| >= 1 && (s[0] as int < 0x80 ==> b[0] == s[0] as int && b[1..] == EncodeAll(s[1..]))
            && (s[0] as int >= 0x80 ==> b[0] >= 0xC0)
  {
  }

  lemma {:induction false} CsiAgrees(s: string)
    ensures AfterCsiBytes(EncodeAll(s)) == EncodeAll(AfterCsi(s))
  {
    if s != [] {
      AsciiFront(s);
      if 0x20 <= s[0] as int < 0x80 {
        CsiAgrees(s[1..]);
      }
    }
  }

  /** An OSC swallows every byte of a multi-byte character. */
  lemma {:induction false} OscSwallowsHighBytes(h: seq<Byte>, rest: seq<Byte>)
    requires forall k :: 0 <= k < |h| ==> h[k] >= 0x80
    ensures AfterOscBytes(h + rest) == AfterOscBytes(rest)
  {
    if h == [] {
      assert h + rest == rest;
    } else {
      OscSwallowsHighBytes(h[1..], rest);
      assert (h + rest)[1..] == h[1..] + rest;
    }
  }

  lemma {:induction false} OscAgrees(s: string)
    ensures AfterOscBytes(EncodeAll(s)) == EncodeAll(AfterOsc(s))
  {
    if s != [] {
      AsciiFront(s);
      if s[0] as int >= 0x80 {
        forall k | 0 <= k < |Encode(s[0])| ensures Encode(s[0])[k] >= 0x80 {
          assert k > 0 ==> Encode(s[0])[k] == Encode(s[0])[1..][k - 1];
        }
        OscSwallowsHighBytes(Encode(s[0]), EncodeAll(s[1..]));
        OscAgrees(s[1..]);
      } else if s[0] == ESC && |s| > 1 {
        AsciiFront(s[1..]);
        assert EncodeAll(s)[1] == EncodeAll(s)[1..][0];
        assert EncodeAll(s)[2..] == EncodeAll(s)[1..][1..];
        assert s[1..][1..] == s[2..];
      } else if s[0] as int >= 0x20 {
        OscAgrees(s[1..]);
      }
    }
  }

  /** Stray continuation bytes - what "ESC + one byte" leaves of a multi-byte character - push nothing. */
  lemma {:induction false} StrayBytesVanish(junk: seq<Byte>, rest: seq<Byte>)
    requires AllContinuation(junk)
    ensures ScrubbedBytes(junk + rest) == ScrubbedBytes(rest)
  {
    if junk == [] {
      assert junk + rest == rest;
    } else {
      var b := junk + rest;
      assert b[0] == junk[0] && b[1..] == junk[1..] + rest;
      StrayBytesVanish(junk[1..], rest);
    }
  }

  /** One turn on a character that is not ESC. */
  lemma PlainTurnAgrees(s: string)
    requires s != [] && s[0] != ESC
    ensures var b := EncodeAll(s);
            b != [] && StepRest(b) == EncodeAll(s[1..])
            && StepText(b) == (if FoldsToSpace(s[0] as int) then " " else if Kept(s[0]) then [s[0]] else [])
  {
    DecodeFrontOfEncode(s[0], EncodeAll(s[1..]));
    assert (Encode(s[0]) + EncodeAll(s[1..]))[|Encode(s[0])|..] == EncodeAll(s[1..]);
  }

  lemma EscapeFront(s: string)
    requires |s| > 1 && s[0] == ESC && s[1] as int < 0x80
    ensures var b := EncodeAll(s);
            |b| > 1 && b[0] as int == 0x1b && b[1] as int == s[1] as int && b[2..] == EncodeAll(s[2..])
  {
    var b := EncodeAll(s);
    AsciiFront(s);
    AsciiFront(s[1..]);
    assert b[1] == b[1..][0] && b[2..] == b[1..][1..] && s[1..][1..] == s[2..];
  }

  lemma EscapePairBytes(s: string)
    requires |s| > 1 && s[0] == ESC
    ensures var b := EncodeAll(s);
            |b| > 1 && b[0] as int == 0x1b && b[1..] == Encode(s[1]) + EncodeAll(s[2..])
  {
    AsciiFront(s);
    assert s[1..][0] == s[1] && s[1..][1..] == s[2..];
  }

  lemma PairStep(b: seq<Byte>)
    requires |b| > 1 && b[0] == 0x1b && b[1] != 0x5b && b[1] != 0x5d
    ensures StepRest(b) == b[1..][1..] && StepText(b) == []
  {
    assert b[1..][1..] == b[2..];
  }

  lemma EncodedTail(c: char, rest: seq<Byte>)
    ensures (Encode(c) + rest)[0] == Encode(c)[0] && (Encode(c) + rest)[1..] == Encode(c)[1..] + rest
    ensures c != '[' && c != ']' ==> Encode(c)[0] != 0x5b && Encode(c)[0] != 0x5d
    ensures AllContinuation(Encode(c)[1..])
  {
  }

  /** ESC and one more character, which the byte scanner may take only the first byte of. */
  lemma EscapePairAgrees(s: string)
    requires |s| > 1 && s[0] == ESC && s[1] != '[' && s[1] != ']'
    ensures var b := EncodeAll(s);
            b != [] && AllContinuation(Encode(s[1])[1..])
            && StepRest(b) == Encode(s[1])[1..] + EncodeAll(s[2..]) && StepText(b) == []
  {
    var b := EncodeAll(s);
    EscapePairBytes(s);
    EncodedTail(s[1], EncodeAll(s[2..]));
    assert b[1] == b[1..][0];
    PairStep(b);
  }

  /** One turn on an escape: stray continuation bytes aside, it lands where the character scanner does. */
  lemma EscapeTurnAgrees(s: string) returns (junk: seq<Byte>)
    requires s != [] && s[0] == ESC
    ensures AllContinuation(junk)
    ensures EncodeAll(s) != [] && StepRest(EncodeAll(s)) == junk + EncodeAll(AfterEscape(s))
    ensures StepText(EncodeAll(s)) == []
  {
    junk := [];
    if |s| == 1 {
      AsciiFront(s);
    } else if s[1] == '[' {
      EscapeFront(s);
      CsiAgrees(s[2..]);
    } else if s[1] == ']' {
      EscapeFront(s);
      OscAgrees(s[2..]);
    } else {
      EscapePairAgrees(s);
      junk := Encode(s[1])[1..];
    }
  }

  /** The byte scanner and the character scanner agree on every string. */
  lemma {:induction false} ScannersAgree(s: string)
    ensures ScrubbedBytes(EncodeAll(s)) == Scrubbed(s)
    decreases |s|
  {
    if s == [] {
    } else if s[0] == ESC {
      var junk := EscapeTurnAgrees(s);
      StrayBytesVanish(junk, EncodeAll(AfterEscape(s)));
      ScannersAgree(AfterEscape(s));
    } else {
      PlainTurnAgrees(s);
      ScannersAgree(s[1..]);
    }
  }

  // ----- what the sanitizer guarantees -----

  lemma {:induction false} CleanTextSurvives(s: string)
    requires AllKept(s)
    ensures Scrubbed(s) == s
  {
    if s != [] {
      assert Kept(s[0]);
      CleanTextSurvives(s[1..]);
    }
  }

  lemma {:induction false} ScrubbedIsClean(s: string)
    ensures AllKept(Scrubbed(s))
    decreases |s|
  {
    if s == [] {
    } else if s[0] == ESC {
      ScrubbedIsClean(AfterEscape(s));
    } else {
      ScrubbedIsClean(s[1..]);
    }
  }

  lemma SanitizedIsClean(s: string, maxChars: nat)
    ensures AllKept(Sanitize(s, maxChars)) && |Sanitize(s, maxChars)| <= maxChars
  {
    ScrubbedIsClean(s);
  }

  /** The strings the sanitizer leaves alone are exactly the clean ones within the cap. */
  lemma FixpointsAreTheCleanStrings(s: string, maxChars: nat)
    ensures Sanitize(s, maxChars) == s <==> AllKept(s) && |s| <= maxChars
  {
    SanitizedIsClean(s, maxChars);
    if AllKept(s) {
      CleanTextSurvives(s);
    }
  }

  /** Sanitizing twice, at any two caps, is sanitizing once at the smaller. */
  lemma SanitizeTwice(s: string, m: nat, n: nat)
    ensures Sanitize(Sanitize(s, m), n) == Sanitize(s, Min(m, n))
  {
    SanitizedIsClean(s, m);
    CleanTextSurvives(Sanitize(s, m));
  }

  /** Every surviving character was in the text, or is the space a line break or tab folded to. */
  lemma {:induction false} ScrubbedAddsOnlySpaces(s: string, c: char)
    requires c in Scrubbed(s)
    ensures c in s || c == ' '
    decreases |s|
  {
    if s[0] == ESC {
      var rest := AfterEscape(s);
      ScrubbedAddsOnlySpaces(rest, c);
      AfterEscapeIsASuffix(s);
    } else if c != ' ' && c != s[0] {
      assert c in Scrubbed(s[1..]);
      ScrubbedAddsOnlySpaces(s[1..], c);
    }
  }

  lemma {:induction false} AfterCsiIsASuffix(s: string)
    ensures AfterCsi(s) == s[|s| - |AfterCsi(s)|..]
  {
    if s != [] && (0x20 <= s[0] as int < 0x40 || s[0] as int == 0x7f) {
      AfterCsiIsASuffix(s[1..]);
    }
  }

  lemma {:induction false} AfterOscIsASuffix(s: string)
    ensures AfterOsc(s) == s[|s| - |AfterOsc(s)|..]
  {
    if s != [] && s[0] != BEL && !(s[0] == ESC && |s| > 1 && s[1] == '\\') && s[0] as int >= 0x20 {
      AfterOscIsASuffix(s[1..]);
    }
  }

  lemma AfterEscapeIsASuffix(s: string)
    requires s != [] && s[0] == ESC
    ensures AfterEscape(s) == s[|s| - |AfterEscape(s)|..]
  {
    if |s| > 1 {
      AfterCsiIsASuffix(s[2..]);
      AfterOscIsASuffix(s[2..]);
    }
  }
}
