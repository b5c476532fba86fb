/** JSON texts (RFC 8259), as far as payloads need them: values printed without spaces, as serde_json prints them, and
    read back by the grammar of sections 2 to 7. Numbers are natural; an escape outside the basic plane is not read.
    */
module Json {
  import opened Prelude
  import opened Wire

  datatype Value =
    | Null
    | Bool(b: bool)
    | Number(n: nat)
    | Text(s: string)
    | List(items: seq<Value>)
    | Object(fields: seq<(string, Value)>)

  // ----- printing -----

  function Print(v: Value): string
    decreases v, 2, 0
  {
    match v
    case Null => "null"
    case Bool(b) => if b then "true" else "false"
    case Number(n) => Digits(n)
    case Text(s) => Quoted(s)
    case List(items) => if items == [] then "[]" else "[" + Print(items[0]) + PrintItems(v, 1) + "]"
    case Object(fields) => if fields == [] then "{}" else "{" + PrintField(v, 0) + PrintFields(v, 1) + "}"
  }

  /** The items from the `k`-th on, each behind a comma. */
  function PrintItems(v: Value, k: nat): string
    requires v.List? && k <= |v.items|
    decreases v, 1, |v.items| - k
  {
    if k == |v.items| then "" else "," + Print(v.items[k]) + PrintItems(v, k + 1)
  }

  function PrintField(v: Value, k: nat): string
    requires v.Object? && k < |v.fields|
    decreases v, 0, 0
  {
    Quoted(v.fields[k].0) + ":" + Print(v.fields[k].1)
  }

  function PrintFields(v: Value, k: nat): string
    requires v.Object? && k <= |v.fields|
    decreases v, 1, |v.fields| - k
  {
    if k == |v.fields| then "" else "," + PrintField(v, k) + PrintFields(v, k + 1)
  }

  // ----- reading -----

  /** White space between tokens. */
  predicate IsSpace(c: char) {
    c in {' ', '\t', '\n', '\r'}
  }

  function SkipSpace(s: string): (r: string)
    ensures |r| <= |s|
  {
    if s != "" && IsSpace(s[0]) then SkipSpace(s[1..]) else s
  }

  predicate IsDigit(c: char) {
    '0' <= c <= '9'
  }

  function HexValue(c: char): Option<nat> {
    if IsDigit(c) then Some(c as nat - '0' as nat)
    else if 'a' <= c <= 'f' then Some(c as nat - 'a' as nat + 10)
    else if 'A' <= c <= 'F' then Some(c as nat - 'A' as nat + 10)
    else None
  }

  /** The character behind a backslash, but for `u`. */
  function Unescaped(c: char): Option<char> {
    if c in {'\"', '\\', '/'} then Some(c)
    else if c == 'b' then Some(8 as char)
    else if c == 't' then Some(9 as char)
    else if c == 'n' then Some(10 as char)
    else if c == 'f' then Some(12 as char)
    else if c == 'r' then Some(13 as char)
    else None
  }

  /** Four hexadecimal digits that stand for a character of their own. */
  function HexChar(s: string): Option<char>
    requires |s| >= 4
  {
    var (a, b, c, d) := (HexValue(s[0]), HexValue(s[1]), HexValue(s[2]), HexValue(s[3]));
    if a.None? || b.None? || c.None? || d.None? then None
    else
      var v := a.value * 0x1000 + b.value * 0x100 + c.value * 0x10 + d.value;
      if 0 <= v < 0xD800 || 0xE000 <= v < 0x1_0000 then Some(v as char) else None
  }

  /** A character of a string, and what follows. */
  function ReadChar(s: string): (r: Option<(char, string)>)
    ensures r.Some? ==> |r.value.1| < |s|
  {
    if s == "" || s[0] == '\"' || s[0] < ' ' then None
    else if s[0] != '\\' then Some((s[0], s[1..]))
    else if |s| < 2 then None
    else if s[1] != 'u' then
      var c := Unescaped(s[1]);
      if c.None? then None else Some((c.value, s[2..]))
    else if |s| < 6 then None
    else
      var c := HexChar(s[2..6]);
      if c.None? then None else Some((c.value, s[6..]))
  }

  /** A string behind its opening quote. */
  function ReadText(s: string): (r: Option<(string, string)>)
    ensures r.Some? ==> |r.value.1| < |s|
    decreases |s|
  {
    if s != "" && s[0] == '\"' then Some(("", s[1..]))
    else
      var c := ReadChar(s);
      if c.None? then None
      else
        var more := ReadText(c.value.1);
        if more.None? then None else Some(([c.value.0] + more.value.0, more.value.1))
  }

  function ReadDigits(s: string, sofar: nat): (r: (nat, string))
    ensures |r.1| <= |s|
    decreases |s|
  {
    if s != "" && IsDigit(s[0]) then ReadDigits(s[1..], sofar * 10 + (s[0] as nat - '0' as nat)) else (sofar, s)
  }

  /** A natural number; one with a leading zero is none. */
  function ReadNumber(s: string): (r: Option<(Value, string)>)
    requires s != "" && IsDigit(s[0])
    ensures r.Some? ==> |r.value.1| < |s|
  {
    var (n, rest) := ReadDigits(s[1..], s[0] as nat - '0' as nat);
    if (s[0] == '0' && |rest| + 1 < |s|) || (rest != "" && rest[0] in {'.', 'e', 'E'}) then None
    else Some((Number(n), rest))
  }

  predicate StartsWith(s: string, prefix: string) {
    |prefix| <= |s| && s[..|prefix|] == prefix
  }

  function ReadWord(s: string): (r: Option<(Value, string)>)
    ensures r.Some? ==> |r.value.1| < |s|
  {
    if StartsWith(s, "null") then Some((Null, s[4..]))
    else if StartsWith(s, "true") then Some((Bool(true), s[4..]))
    else if StartsWith(s, "false") then Some((Bool(false), s[5..]))
    else None
  }

  function ReadValue(s: string): (r: Option<(Value, string)>)
    ensures r.Some? ==> |r.value.1| < |s|
    decreases |s|, 1
  {
    var t := SkipSpace(s);
    if t == "" then None
    else if t[0] == '\"' then
      var text := ReadText(t[1..]);
      if text.None? then None else Some((Text(text.value.0), text.value.1))
    else if t[0] == '[' then
      var u := SkipSpace(t[1..]);
      if u != "" && u[0] == ']' then Some((List([]), u[1..]))
      else
        var first := ReadValue(t[1..]);
        if first.None? then None
        else
          var more := ReadItems(first.value.1);
          if more.None? then None else Some((List([first.value.0] + more.value.0), more.value.1))
    else if t[0] == '{' then
      var u := SkipSpace(t[1..]);
      if u != "" && u[0] == '}' then Some((Object([]), u[1..]))
      else
        var first := ReadField(t[1..]);
        if first.None? then None
        else
          var more := ReadFields(first.value.1);
          if more.None? then None else Some((Object([first.value.0] + more.value.0), more.value.1))
    else if IsDigit(t[0]) then ReadNumber(t)
    else ReadWord(t)
  }

  /** The items behind the first, and the end of the array. */
  function ReadItems(s: string): (r: Option<(seq<Value>, string)>)
    ensures r.Some? ==> |r.value.1| < |s|
    decreases |s|, 0
  {
    var t := SkipSpace(s);
    if t == "" then None
    else if t[0] == ']' then Some(([], t[1..]))
    else if t[0] != ',' then None
    else
      var next := ReadValue(t[1..]);
      if next.None? then None
      else
        var more := ReadItems(next.value.1);
        if more.None? then None else Some(([next.value.0] + more.value.0, more.value.1))
  }

  function ReadField(s: string): (r: Option<((string, Value), string)>)
    ensures r.Some? ==> |r.value.1| < |s|
    decreases |s|, 0
  {
    var t := SkipSpace(s);
    if t == "" || t[0] != '\"' then None
    else
      var key := ReadText(t[1..]);
      if key.None? then None
      else
        var u := SkipSpace(key.value.1);
        if u == "" || u[0] != ':' then None
        else
          var v := ReadValue(u[1..]);
          if v.None? then None else Some(((key.value.0, v.value.0), v.value.1))
  }

  function ReadFields(s: string): (r: Option<(seq<(string, Value)>, string)>)
    ensures r.Some? ==> |r.value.1| < |s|
    decreases |s|, 0
  {
    var t := SkipSpace(s);
    if t == "" then None
    else if t[0] == '}' then Some(([], t[1..]))
    else if t[0] != ',' then None
    else
      var next := ReadField(t[1..]);
      if next.None? then None
      else
        var more := ReadFields(next.value.1);
        if more.None? then None else Some(([next.value.0] + more.value.0, more.value.1))
  }

  /** A whole text: one value, and space. */
  function Parse(s: string): Option<Value> {
    var v := ReadValue(s);
    if v.None? || SkipSpace(v.value.1) != "" then None else Some(v.value.0)
  }

  // ----- what is printed is read back -----

  lemma HexDigitsRead(d: nat)
    requires d < 16
    ensures HexValue(HexDigit(d)) == Some(d)
  {
  }

  lemma EscapedIsRead(c: char, rest: string)
    ensures Escaped(c) + rest != "" && (Escaped(c) + rest)[0] != '\"'
    ensures ReadChar(Escaped(c) + rest) == Some((c, rest))
  {
    var e, s, v := Escaped(c), Escaped(c) + rest, c as int;
    assert s[|e|..] == rest && forall k :: 0 <= k < |e| ==> s[k] == e[k];
    if v < 0x20 && |e| == 6 {
      HexDigitsRead(v / 16);
      HexDigitsRead(v % 16);
      assert e == "\\u00" + [HexDigit(v / 16), HexDigit(v % 16)];
      HexDigitsRead(0);
      assert s[2..6][0] == '0' && s[2..6][1] == '0' && s[2..6][2] == HexDigit(v / 16) && s[2..6][3] == HexDigit(v % 16);
    }
  }

  lemma {:induction false} TextIsRead(text: string, rest: string)
    ensures ReadText(EscapedAll(text) + "\"" + rest) == Some((text, rest))
  {
    var s := EscapedAll(text) + "\"" + rest;
    if text == "" {
      assert s == "\"" + rest && s[1..] == rest;
    } else {
      var more := EscapedAll(text[1..]) + "\"" + rest;
      assert s == Escaped(text[0]) + more;
      EscapedIsRead(text[0], more);
      TextIsRead(text[1..], rest);
      assert [text[0]] + text[1..] == text;
    }
  }

  lemma QuotedIsRead(text: string, rest: string)
    ensures var s := Quoted(text) + rest;
            s != "" && s[0] == '\"' && ReadText(s[1..]) == Some((text, rest))
  {
    assert (Quoted(text) + rest)[1..] == EscapedAll(text) + "\"" + rest;
    TextIsRead(text, rest);
  }

  lemma {:induction false} DigitsAre(n: nat)
    ensures var d := Digits(n);
            && d != "" && (forall k :: 0 <= k < |d| ==> IsDigit(d[k])) && (d[0] == '0' ==> n == 0 && |d| == 1)
  {
    if n >= 10 {
      DigitsAre(n / 10);
    }
  }

  /** The number some digits stand for, behind one read already. */
  function ValueOf(digits: string, sofar: nat): nat
    requires forall k :: 0 <= k < |digits| ==> IsDigit(digits[k])
  {
    if digits == "" then sofar
    else
      assert IsDigit(digits[0]);
      ValueOf(digits[1..], sofar * 10 + (digits[0] as nat - '0' as nat))
  }

  lemma {:induction false} LastDigit(digits: string, d: char, sofar: nat)
    requires IsDigit(d) && forall k :: 0 <= k < |digits| ==> IsDigit(digits[k])
    ensures ValueOf(digits + [d], sofar) == ValueOf(digits, sofar) * 10 + (d as nat - '0' as nat)
    decreases |digits|
  {
    var all := digits + [d];
    if digits == "" {
      assert all == [d] && all[1..] == "";
    } else {
      assert all[1..] == digits[1..] + [d];
      LastDigit(digits[1..], d, sofar * 10 + (digits[0] as nat - '0' as nat));
    }
  }

  lemma {:induction false} DigitsStandFor(n: nat)
    ensures (forall k :: 0 <= k < |Digits(n)| ==> IsDigit(Digits(n)[k])) && ValueOf(Digits(n), 0) == n
  {
    DigitsAre(n);
    if n < 10 {
      assert Digits(n)[1..] == "";
    } else {
      DigitsAre(n / 10);
      DigitsStandFor(n / 10);
      LastDigit(Digits(n / 10), '0' + (n % 10) as char, 0);
    }
  }

  lemma {:induction false} DigitsAreRead(digits: string, rest: string, sofar: nat)
    requires (forall k :: 0 <= k < |digits| ==> IsDigit(digits[k])) && (rest == "" || !IsDigit(rest[0]))
    ensures ReadDigits(digits + rest, sofar) == (ValueOf(digits, sofar), rest)
    decreases |digits|
  {
    if digits == "" {
      assert digits + rest == rest;
    } else {
      assert (digits + rest)[1..] == digits[1..] + rest;
      DigitsAreRead(digits[1..], rest, sofar * 10 + (digits[0] as nat - '0' as nat));
    }
  }

  /** A number ends there. */
  predicate EndsNumber(rest: string) {
    rest == "" || !(IsDigit(rest[0]) || rest[0] in {'.', 'e', 'E'})
  }

  lemma NumberIsRead(n: nat, rest: string)
    requires EndsNumber(rest)
    ensures var s := Digits(n) + rest; s != "" && IsDigit(s[0]) && ReadNumber(s) == Some((Number(n), rest))
  {
    var d, s := Digits(n), Digits(n) + rest;
    DigitsAre(n);
    DigitsStandFor(n);
    assert s[0] == d[0] && s[1..] == d[1..] + rest;
    DigitsAreRead(d[1..], rest, d[0] as nat - '0' as nat);
    assert ValueOf(d, 0) == ValueOf(d[1..], d[0] as nat - '0' as nat);
  }

  lemma WordsAreRead(rest: string)
    ensures ReadWord("null" + rest) == Some((Null, rest))
    ensures ReadWord("true" + rest) == Some((Bool(true), rest))
    ensures ReadWord("false" + rest) == Some((Bool(false), rest))
  {
    assert ("null" + rest)[..4] == "null" && ("null" + rest)[4..] == rest;
    assert ("true" + rest)[0] == 't' && ("true" + rest)[..4] == "true" && ("true" + rest)[4..] == rest;
    assert ("false" + rest)[0] == 'f' && ("false" + rest)[..5] == "false" && ("false" + rest)[5..] == rest;
    assert ("true" + rest)[..4] != "null" && ("false" + rest)[..4][0] == 'f';
  }

  /** No printed value begins with a space, or with the end of an array. */
  lemma PrintedStart(v: Value)
    ensures Print(v) != "" && !IsSpace(Print(v)[0]) && Print(v)[0] != ']'
  {
    if v.Number? {
      DigitsAre(v.n);
    }
  }

  lemma SkipNothing(s: string)
    requires s != "" && !IsSpace(s[0])
    ensures SkipSpace(s) == s
  {
  }

  /** Whatever is printed is read back, up to where it ends. */
  lemma {:induction false} PrintedIsRead(v: Value, rest: string)
    requires v.Number? ==> EndsNumber(rest)
    ensures ReadValue(Print(v) + rest) == Some((v, rest))
    decreases v, 2, 0
  {
    var s := Print(v) + rest;
    PrintedStart(v);
    SkipNothing(s);
    match v
    case Null => WordsAreRead(rest);
    case Bool(_) => WordsAreRead(rest);
    case Number(n) => NumberIsRead(n, rest);
    case Text(text) => QuotedIsRead(text, rest);
    case List(_) => ListIsRead(v, rest);
    case Object(_) => ObjectIsRead(v, rest);
  }

  lemma EmptiesAreRead(rest: string)
    ensures ReadValue("[]" + rest) == Some((List([]), rest))
    ensures ReadValue("{}" + rest) == Some((Object([]), rest))
  {
    var l, o := "[]" + rest, "{}" + rest;
    SkipNothing(l);
    SkipNothing(o);
    assert l[0] == '[' && o[0] == '{';
    assert l[1..] == "]" + rest && l[1..][1..] == rest && o[1..] == "}" + rest && o[1..][1..] == rest;
  }

  lemma {:induction false} ListIsRead(v: Value, rest: string)
    requires v.List?
    ensures ReadValue(Print(v) + rest) == Some((v, rest))
    decreases v, 1, 0
  {
    hide ReadValue, ReadItems;
    if v.items == [] {
      EmptiesAreRead(rest);
    } else {
      var tail := PrintItems(v, 1) + "]" + rest;
      PrintedStart(v.items[0]);
      TailEndsNumber(v, 1, rest);
      PrintedIsRead(v.items[0], tail);
      ItemsAreRead(v, 1, rest);
      assert (Print(v.items[0]) + tail)[0] == Print(v.items[0])[0];
      OpenedList(Print(v.items[0]) + tail, v.items[0], tail, v.items[1..], rest);
      ListText(v, rest);
      assert [v.items[0]] + v.items[1..] == v.items;
    }
  }

  lemma ListText(v: Value, rest: string)
    requires v.List? && v.items != []
    ensures Print(v) + rest == "[" + (Print(v.items[0]) + (PrintItems(v, 1) + "]" + rest))
  {
  }

  lemma ObjectText(v: Value, rest: string)
    requires v.Object? && v.fields != []
    ensures Print(v) + rest == "{" + (PrintField(v, 0) + (PrintFields(v, 1) + "}" + rest))
  {
  }

  lemma OpenedList(body: string, first: Value, tail: string, more: seq<Value>, rest: string)
    requires body != "" && !IsSpace(body[0]) && body[0] != ']'
    requires ReadValue(body) == Some((first, tail)) && ReadItems(tail) == Some((more, rest))
    ensures ReadValue("[" + body) == Some((List([first] + more), rest))
  {
    var s := "[" + body;
    SkipNothing(s);
    SkipNothing(body);
    assert s[0] == '[' && s[1..] == body;
  }

  lemma TailEndsNumber(v: Value, k: nat, rest: string)
    requires v.List? && k <= |v.items|
    ensures EndsNumber(PrintItems(v, k) + "]" + rest)
  {
    var s := PrintItems(v, k) + "]" + rest;
    assert s[0] == ']' || s[0] == ',';
  }

  lemma {:induction false} ItemsAreRead(v: Value, k: nat, rest: string)
    requires v.List? && k <= |v.items|
    ensures ReadItems(PrintItems(v, k) + "]" + rest) == Some((v.items[k..], rest))
    decreases v, 0, |v.items| - k
  {
    var s := PrintItems(v, k) + "]" + rest;
    if k == |v.items| {
      assert s == "]" + rest && s[1..] == rest;
    } else {
      var tail := PrintItems(v, k + 1) + "]" + rest;
      assert s[0] == ',' && s[1..] == Print(v.items[k]) + tail;
      SkipNothing(s);
      TailEndsNumber(v, k + 1, rest);
      PrintedIsRead(v.items[k], tail);
      ItemsAreRead(v, k + 1, rest);
      assert [v.items[k]] + v.items[k + 1..] == v.items[k..];
    }
  }

  lemma {:induction false} ObjectIsRead(v: Value, rest: string)
    requires v.Object?
    ensures ReadValue(Print(v) + rest) == Some((v, rest))
    decreases v, 1, 0
  {
    hide ReadValue, ReadField, ReadFields;
    if v.fields == [] {
      EmptiesAreRead(rest);
    } else {
      var tail := PrintFields(v, 1) + "}" + rest;
      FieldStart(v, 0);
      FieldTailEndsNumber(v, 1, rest);
      FieldIsRead(v, 0, tail);
      FieldsAreRead(v, 1, rest);
      assert (PrintField(v, 0) + tail)[0] == PrintField(v, 0)[0];
      OpenedObject(PrintField(v, 0) + tail, v.fields[0], tail, v.fields[1..], rest);
      ObjectText(v, rest);
      assert [v.fields[0]] + v.fields[1..] == v.fields;
    }
  }

  lemma OpenedObject(body: string, first: (string, Value), tail: string, more: seq<(string, Value)>, rest: string)
    requires body != "" && body[0] == '\"'
    requires ReadField(body) == Some((first, tail)) && ReadFields(tail) == Some((more, rest))
    ensures ReadValue("{" + body) == Some((Object([first] + more), rest))
  {
    var s := "{" + body;
    SkipNothing(s);
    SkipNothing(body);
    assert s[0] == '{' && s[1..] == body;
  }

  lemma FieldStart(v: Value, k: nat)
    requires v.Object? && k < |v.fields|
    ensures PrintField(v, k) != "" && PrintField(v, k)[0] == '\"'
  {
  }

  lemma FieldTailEndsNumber(v: Value, k: nat, rest: string)
    requires v.Object? && k <= |v.fields|
    ensures EndsNumber(PrintFields(v, k) + "}" + rest)
  {
    var s := PrintFields(v, k) + "}" + rest;
    assert s[0] == '}' || s[0] == ',';
  }

  lemma {:induction false} FieldIsRead(v: Value, k: nat, tail: string)
    requires v.Object? && k < |v.fields| && EndsNumber(tail)
    ensures ReadField(PrintField(v, k) + tail) == Some((v.fields[k], tail))
    decreases v, 0, 0
  {
    var (key, value) := v.fields[k];
    var s, behind := PrintField(v, k) + tail, ":" + (Print(value) + tail);
    assert s == Quoted(key) + behind;
    FieldStart(v, k);
    SkipNothing(s);
    QuotedIsRead(key, behind);
    SkipNothing(behind);
    assert behind[1..] == Print(value) + tail;
    PrintedIsRead(value, tail);
  }

  lemma {:induction false} FieldsAreRead(v: Value, k: nat, rest: string)
    requires v.Object? && k <= |v.fields|
    ensures ReadFields(PrintFields(v, k) + "}" + rest) == Some((v.fields[k..], rest))
    decreases v, 0, |v.fields| - k + 1
  {
    hide ReadField, PrintField;
    var s := PrintFields(v, k) + "}" + rest;
    if k == |v.fields| {
      assert s == "}" + rest && s[1..] == rest;
    } else {
      var tail := PrintFields(v, k + 1) + "}" + rest;
      FieldTailEndsNumber(v, k + 1, rest);
      FieldIsRead(v, k, tail);
      FieldsAreRead(v, k + 1, rest);
      OneMoreField(PrintField(v, k) + tail, v.fields[k], tail, v.fields[k + 1..], rest);
      assert s == "," + (PrintField(v, k) + tail);
      assert [v.fields[k]] + v.fields[k + 1..] == v.fields[k..];
    }
  }

  lemma OneMoreField(body: string, first: (string, Value), tail: string, more: seq<(string, Value)>, rest: string)
    requires ReadField(body) == Some((first, tail)) && ReadFields(tail) == Some((more, rest))
    ensures ReadFields("," + body) == Some(([first] + more, rest))
  {
    var s := "," + body;
    SkipNothing(s);
    assert s[0] == ',' && s[1..] == body;
  }

  /** So printing and parsing are inverse. */
  lemma ParseOfPrint(v: Value)
    ensures Parse(Print(v)) == Some(v)
  {
    PrintedIsRead(v, "");
    assert Print(v) + "" == Print(v);
  }
}
