/** Searching text and splitting it into lines. */
module TextLines {
  import opened Prelude

  predicate OccursAt(s: string, pat: string, k: int) {
    0 <= k && k + |pat| <= |s| && s[k..k + |pat|] == pat
  }

  /** The first occurrence at or after `from`. */
  function FindFrom(s: string, pat: string, from: nat): (r: Option<nat>)
    requires from <= |s|
    ensures r.Some? ==> from <= r.value && r.value + |pat| <= |s|
    decreases |s| - from
  {
    if OccursAt(s, pat, from) then Some(from) else if from == |s| then None else FindFrom(s, pat, from + 1)
  }

  lemma {:induction false} FindFromIsFirst(s: string, pat: string, from: nat)
    requires from <= |s|
    ensures var r := FindFrom(s, pat, from);
            && (r.Some? ==> OccursAt(s, pat, r.value) && forall j :: from <= j < r.value ==> !OccursAt(s, pat, j))
            && (r.None? ==> forall j :: from <= j ==> !OccursAt(s, pat, j))
    decreases |s| - from
  {
    if !OccursAt(s, pat, from) && from < |s| {
      FindFromIsFirst(s, pat, from + 1);
    }
  }

  /** `str::find`. */
  function Find(s: string, pat: string): (r: Option<nat>)
    ensures r.Some? ==> r.value + |pat| <= |s|
  {
    FindFrom(s, pat, 0)
  }

  lemma FindOccurs(s: string, pat: string)
    ensures Find(s, pat).Some? ==> OccursAt(s, pat, Find(s, pat).value)
  {
    FindFromIsFirst(s, pat, 0);
  }

  lemma FindIs(s: string, pat: string, k: nat)
    requires OccursAt(s, pat, k) && forall j :: 0 <= j < k ==> !OccursAt(s, pat, j)
    ensures Find(s, pat) == Some(k)
  {
    FindFromIsFirst(s, pat, 0);
  }

  lemma FindIsNone(s: string, pat: string)
    requires forall j :: 0 <= j <= |s| ==> !OccursAt(s, pat, j)
    ensures Find(s, pat).None?
  {
    FindFromIsFirst(s, pat, 0);
  }

  predicate NoNewline(s: string) {
    forall k :: 0 <= k < |s| ==> s[k] != '\n'
  }

  /** Where the line around position `i` starts: past the last newline before it. */
  function LineStart(s: string, i: nat): (start: nat)
    requires i <= |s|
    ensures start <= i
  {
    if i == 0 || s[i - 1] == '\n' then i else LineStart(s, i - 1)
  }

  /** What follows the last newline. */
  function LastLine(s: string): (r: string)
    ensures |r| <= |s|
  {
    s[LineStart(s, |s|)..]
  }

  /** Up to and including the last newline. */
  function FullLines(s: string): string {
    s[..LineStart(s, |s|)]
  }

  /** What follows the first newline; nothing when there is none. */
  function AfterLine(s: string): (r: string)
    ensures |r| <= |s|
  {
    if s == [] then [] else if s[0] == '\n' then s[1..] else AfterLine(s[1..])
  }

  /** Up to the first newline. */
  function FirstLine(s: string): string {
    if s == [] || s[0] == '\n' then [] else [s[0]] + FirstLine(s[1..])
  }

  predicate EndsLine(s: string) {
    s == [] || s[|s| - 1] == '\n'
  }

  lemma {:induction false} LineStartIs(s: string, i: nat, start: nat)
    requires start <= i <= |s| && (start == 0 || s[start - 1] == '\n')
    requires forall k :: start <= k < i ==> s[k] != '\n'
    ensures LineStart(s, i) == start
  {
    if i > start {
      LineStartIs(s, i - 1, start);
    }
  }

  lemma {:induction false} LineHasNoNewline(s: string, i: nat)
    requires i <= |s|
    ensures var start := LineStart(s, i);
            (start == 0 || s[start - 1] == '\n') && forall k :: start <= k < i ==> s[k] != '\n'
  {
    if i > 0 && s[i - 1] != '\n' {
      LineHasNoNewline(s, i - 1);
    }
  }

  lemma LinesSplit(s: string)
    ensures s == FullLines(s) + LastLine(s) && NoNewline(LastLine(s)) && EndsLine(FullLines(s))
  {
    LineHasNoNewline(s, |s|);
  }

  /** A text's last line, recognized: no newline in it, and before it nothing or a newline. */
  lemma LastLineIs(front: string, last: string)
    requires NoNewline(last) && EndsLine(front)
    ensures LastLine(front + last) == last && FullLines(front + last) == front
  {
    LineStartIs(front + last, |front + last|, |front|);
  }

  lemma LastLineExtended(a: string, b: string)
    requires NoNewline(b)
    ensures LastLine(a + b) == LastLine(a) + b && FullLines(a + b) == FullLines(a)
  {
    LinesSplit(a);
    assert a + b == FullLines(a) + (LastLine(a) + b);
    LastLineIs(FullLines(a), LastLine(a) + b);
  }

  lemma LastLineWithin(a: string, b: string)
    requires !NoNewline(b)
    ensures LastLine(a + b) == LastLine(b) && FullLines(a + b) == a + FullLines(b)
  {
    LinesSplit(b);
    assert FullLines(b) != [];
    assert a + b == (a + FullLines(b)) + LastLine(b);
    LastLineIs(a + FullLines(b), LastLine(b));
  }

  lemma LastLineOfLine(s: string)
    requires NoNewline(s)
    ensures LastLine(s) == s && FullLines(s) == []
  {
    assert [] + s == s;
    LastLineIs([], s);
  }

  /** The last line of a text depends on what came before only through its last line. */
  lemma LastLineOfConcat(a: string, b: string)
    ensures LastLine(a + b) == LastLine(LastLine(a) + b)
  {
    LinesSplit(a);
    if NoNewline(b) {
      LastLineExtended(a, b);
      LastLineExtended(LastLine(a), b);
      LastLineOfLine(LastLine(a));
    } else {
      LastLineWithin(a, b);
      LastLineWithin(LastLine(a), b);
    }
  }

  lemma {:induction false} AfterLineAt(line: string, rest: string)
    requires NoNewline(line)
    ensures AfterLine(line + "\n" + rest) == rest
  {
    var s := line + "\n" + rest;
    if line == [] {
      assert s[1..] == rest;
    } else {
      AfterLineAt(line[1..], rest);
      assert s[1..] == line[1..] + "\n" + rest;
    }
  }

  lemma {:induction false} FirstLineSplit(s: string)
    ensures NoNewline(FirstLine(s))
    ensures (NoNewline(s) && FirstLine(s) == s) || s == FirstLine(s) + "\n" + AfterLine(s)
  {
    if s != [] && s[0] != '\n' {
      FirstLineSplit(s[1..]);
      assert s == [s[0]] + s[1..];
    }
  }
}
