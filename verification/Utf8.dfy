/** UTF-8 as the scanner meets it: section 3 of RFC 3629, one scalar value at a time. */
module Utf8 {
  import opened Prelude

  type Byte = b: int | 0 <= b < 256

  predicate IsContinuation(b: Byte) {
    0x80 <= b < 0xC0
  }

  predicate AllContinuation(b: seq<Byte>) {
    forall k :: 0 <= k < |b| ==> IsContinuation(b[k])
  }

  /** The encoding of one scalar value. */
  function Encode(c: char): (b: seq<Byte>)
    ensures 1 <= |b| <= 4
    ensures (|b| == 1) == (c as int < 0x80)
    ensures |b| == 1 ==> b[0] == c as int
    ensures |b| > 1 ==> b[0] >= 0xC0 && AllContinuation(b[1..])
  {
    var v := c as int;
    var w := v / 0x40;
    var x := w / 0x40;
    if v < 0x80 then [v]
    else if v < 0x800 then [0xC0 + w, 0x80 + v % 0x40]
    else if v < 0x10000 then [0xE0 + x, 0x80 + w % 0x40, 0x80 + v % 0x40]
    else [0xF0 + x / 0x40, 0x80 + x % 0x40, 0x80 + w % 0x40, 0x80 + v % 0x40]
  }

  function EncodeAll(s: string): seq<Byte> {
    if s == [] then [] else Encode(s[0]) + EncodeAll(s[1..])
  }

  predicate IsScalar(v: int) {
    0 <= v < 0xD800 || 0xE000 <= v < 0x11_0000
  }

  /** How many bytes the sequence led by `b` occupies. */
  function SequenceLength(b: Byte): (n: nat)
    ensures 1 <= n <= 4
  {
    if b < 0x80 then 1 else if b < 0xE0 then 2 else if b < 0xF0 then 3 else 4
  }

  // The payload bits of a lead byte (the low 5, 4 or 3) and of a continuation byte (the low 6).
  function Low5(b: Byte): int { b as int % 0x20 }
  function Low4(b: Byte): int { b as int % 0x10 }
  function Low3(b: Byte): int { b as int % 0x08 }
  function Low6(b: Byte): int { b as int % 0x40 }

  /** The value carried by a sequence of `SequenceLength(b[0])` bytes. */
  function SequenceValue(b: seq<Byte>): int
    requires |b| > 0 && |b| >= SequenceLength(b[0])
  {
    match SequenceLength(b[0])
    case 1 => b[0]
    case 2 => Low5(b[0]) * 0x40 + Low6(b[1])
    case 3 => (Low4(b[0]) * 0x40 + Low6(b[1])) * 0x40 + Low6(b[2])
    case _ =>
      ((Low3(b[0]) * 0x40 + Low6(b[1])) * 0x40 + Low6(b[2])) * 0x40 + Low6(b[3])
  }

  /** The first character of a byte string and its length, as `chars().next()` reads them. */
  function DecodeFront(b: seq<Byte>): (r: Option<(char, nat)>)
    ensures r.Some? ==> 1 <= r.value.1 <= |b|
  {
    if b == [] then None
    else
      var n := SequenceLength(b[0]);
      if |b| < n then None
      else if !IsScalar(SequenceValue(b)) then None
      else Some((SequenceValue(b) as char, n))
  }

  lemma TwoByteValue(b: seq<Byte>, y: int, z: int)
    requires |b| >= 2 && 0 <= y < 0x20 && 0 <= z < 0x40 && b[0] == 0xC0 + y && b[1] == 0x80 + z
    ensures SequenceLength(b[0]) == 2 && SequenceValue(b) == y * 0x40 + z
  {
  }

  lemma ThreeByteValue(b: seq<Byte>, x: int, y: int, z: int)
    requires |b| >= 3 && 0 <= x < 0x10 && 0 <= y < 0x40 && 0 <= z < 0x40
    requires b[0] == 0xE0 + x && b[1] == 0x80 + y && b[2] == 0x80 + z
    ensures SequenceLength(b[0]) == 3 && SequenceValue(b) == (x * 0x40 + y) * 0x40 + z
  {
  }

  lemma FourByteValue(b: seq<Byte>, w: int, x: int, y: int, z: int)
    requires |b| >= 4 && 0 <= w < 0x08 && 0 <= x < 0x40 && 0 <= y < 0x40 && 0 <= z < 0x40
    requires b[0] == 0xF0 + w && b[1] == 0x80 + x && b[2] == 0x80 + y && b[3] == 0x80 + z
    ensures SequenceLength(b[0]) == 4 && SequenceValue(b) == ((w * 0x40 + x) * 0x40 + y) * 0x40 + z
  {
  }

  lemma SequenceValueOfEncode(c: char, rest: seq<Byte>)
    ensures var b := Encode(c) + rest;
            SequenceLength(b[0]) == |Encode(c)| && SequenceValue(b) == c as int
  {
    var v := c as int;
    var w := v / 0x40;
    var x := w / 0x40;
    var b := Encode(c) + rest;
    if v < 0x80 {
    } else if v < 0x800 {
      TwoByteValue(b, w, v % 0x40);
    } else if v < 0x10000 {
      ThreeByteValue(b, x, w % 0x40, v % 0x40);
    } else {
      FourByteValue(b, x / 0x40, x % 0x40, w % 0x40, v % 0x40);
    }
  }

  /** Decoding undoes encoding, whatever follows. */
  lemma DecodeFrontOfEncode(c: char, rest: seq<Byte>)
    ensures DecodeFront(Encode(c) + rest) == Some((c, |Encode(c)|))
  {
    SequenceValueOfEncode(c, rest);
  }
}
