/** Whether a backgrounded command segment is a service (`segment_is_service` of crates/cli/src/agents.rs), on tokens.
    The word tables are a parameter: they are data. */
module Segments {
  import opened Prelude

  const PORT_FORWARD := "port-forward"
  const ROLLOUT := "rollout"

  datatype Tables = Tables(wrappers: set<string>, runners: set<string>, valueFlags: set<string>,
                           phrases: seq<seq<string>>)

  /** What the tables in use are like: wrapper words are plain words, value flags are flags. */
  predicate Sensible(tb: Tables) {
    && (forall w :: w in tb.wrappers ==> w != [] && w[0] != '-' && w != PORT_FORWARD && w != ROLLOUT)
    && (forall f :: f in tb.valueFlags ==> IsFlag(f))
  }

  const WRAPPERS_IN_USE: set<string> :=
    {"env", "nohup", "exec", "sudo", "time", "timeout", "nice", "xargs", "command", "bash", "sh", "zsh"}
  const RUNNERS_IN_USE: set<string> :=
    {"npx", "bunx", "pnpm", "yarn", "bun", "npm", "exec", "x", "dlx", "bundle", "uv", "poetry", "pipenv", "run"}
  const VALUE_FLAGS_IN_USE: set<string> := {"-p", "--package", "--prefix", "--dir", "--cwd", "--filter", "--workspace"}

  // ----- tokens -----

  predicate IsFlag(s: string) {
    s != [] && s[0] == '-'
  }

  predicate IsLower(c: char) {
    'a' <= c <= 'z'
  }

  predicate IsDigit(c: char) {
    '0' <= c <= '9'
  }

  /** Up to the first `c`. */
  function UpTo(s: string, c: char): (r: string)
    ensures |r| <= |s| && (c in s ==> |r| < |s|)
  {
    if s == [] || s[0] == c then [] else [s[0]] + UpTo(s[1..], c)
  }

  /** Past the last `c`. */
  function PastLast(s: string, c: char): string {
    if s == [] || s[|s| - 1] == c then [] else PastLast(s[..|s| - 1], c) + [s[|s| - 1]]
  }

  /** `name=value`, the name a lowercased identifier. */
  predicate IsAssignment(s: string) {
    '=' in s
    && var name := UpTo(s, '=');
       && name != [] && (name[0] == '_' || IsLower(name[0]))
       && forall k :: 0 <= k < |name| ==> name[k] == '_' || IsLower(name[k]) || IsDigit(name[k])
  }

  /** A wrapper's numeric argument. */
  predicate IsNumber(s: string) {
    var digits := if s != [] && s[|s| - 1] in {'s', 'm', 'h', 'd'} then s[..|s| - 1] else s;
    digits != [] && IsDigit(digits[0]) && forall k :: 0 <= k < |digits| ==> IsDigit(digits[k]) || digits[k] == '.'
  }

  /** A token's basename, without `@version`. */
  function Word(token: string): string {
    UpTo(PastLast(token, '/'), '@')
  }

  function TokenAt(t: seq<string>, i: nat): Option<string> {
    if i < |t| then Some(t[i]) else None
  }

  // ----- the two command positions -----

  predicate Skipped(tb: Tables, s: string) {
    IsAssignment(s) || s in tb.wrappers || IsFlag(s) || IsNumber(s)
  }

  function Head(tb: Tables, t: seq<string>): (h: Option<nat>)
    ensures h.Some? ==> h.value < |t|
  {
    if t == [] then None
    else if !Skipped(tb, t[0]) then Some(0)
    else
      var rest := Head(tb, t[1..]);
      if rest.Some? then Some(rest.value + 1) else None
  }

  /** Past the runners and their flags: a value flag takes the next token with it, there or not. */
  function Walk(tb: Tables, t: seq<string>, i: nat): (cw: nat)
    ensures i <= cw && (i <= |t| ==> cw <= |t| + 1)
    decreases |t| + 2 - i
  {
    if i >= |t| then i
    else if t[i] in tb.valueFlags then Walk(tb, t, i + 2)
    else if t[i] in tb.runners || IsFlag(t[i]) then Walk(tb, t, i + 1)
    else i
  }

  predicate StartsWith(s: string, prefix: string) {
    |prefix| <= |s| && s[..|prefix|] == prefix
  }

  /** The module after `python -m`. */
  function PastPython(t: seq<string>, cw: nat): (r: nat)
    ensures r <= |t| || r == cw
  {
    if cw + 1 < |t| && StartsWith(Word(t[cw]), "python") && t[cw + 1] == "-m" then cw + 2 else cw
  }

  // ----- the rules -----

  predicate StartWith(t: seq<string>, phrase: seq<string>) {
    |phrase| <= |t| && forall k :: 0 <= k < |phrase| ==> Word(t[k]) == phrase[k]
  }

  predicate PhraseAt(t: seq<string>, i: nat, phrase: seq<string>) {
    i <= |t| && StartWith(t[i..], phrase)
  }

  predicate Starts(t: seq<string>, head: nat, cw: nat, phrase: seq<string>) {
    PhraseAt(t, head, phrase) || PhraseAt(t, cw, phrase)
  }

  function CommandAt(t: seq<string>, cw: nat): string {
    if cw < |t| then Word(t[cw]) else []
  }

  predicate ViaRunner(tb: Tables, t: seq<string>, head: nat, cw: nat)
    requires cw <= |t|
  {
    cw > head && (t[cw - 1] in tb.runners || (cw >= 2 && t[cw - 2] in tb.valueFlags))
  }

  predicate Detaches(s: string) {
    s == "-d" || s == "--detach" || s == "--abort-on-container-exit" || StartsWith(s, "--exit-code-from")
  }

  predicate ComposeUp(t: seq<string>, head: nat, cw: nat) {
    (Starts(t, head, cw, ["docker", "compose", "up"]) || Starts(t, head, cw, ["docker-compose", "up"]))
    && forall k :: 0 <= k < |t| ==> !Detaches(t[k])
  }

  predicate RolloutStatus(t: seq<string>) {
    exists k :: 0 <= k < |t| - 1 && t[k] == ROLLOUT && t[k + 1] == "status"
  }

  /** A watch flag at `k` that is not switched off. */
  predicate WatchAt(t: seq<string>, k: nat)
    requires k < |t|
  {
    var flag := UpTo(t[k], '=');
    var value := if '=' in t[k] then Some(t[k][|flag| + 1..]) else TokenAt(t, k + 1);
    (flag == "--watch" || flag == "--watchall") && value != Some("false") && value != Some("0")
  }

  predicate Watches(t: seq<string>) {
    exists k :: 0 <= k < |t| && WatchAt(t, k)
  }

  predicate Judged(tb: Tables, t: seq<string>, head: nat, cw: nat)
    requires head < |t| && cw <= |t|
  {
    var command := CommandAt(t, cw);
    || (exists p :: 0 <= p < |tb.phrases| && Starts(t, head, cw, tb.phrases[p]))
    || (ViaRunner(tb, t, head, cw) && (command == "dev" || command == "start"))
    || (Word(t[head]) == "kubectl" && PORT_FORWARD in t)
    || (cw < |t| && command == "vite" && "build" !in t[cw + 1..])
    || ComposeUp(t, head, cw)
    || (!(command == "gh" || (command == "kubectl" && RolloutStatus(t))) && Watches(t))
  }

  /** The answer, or an index past the end of the tokens. */
  datatype Verdict = Panics | Decided(isService: bool)

  function Answer(tb: Tables, t: seq<string>, head: nat, walked: nat): Verdict
    requires head < |t|
  {
    if walked > |t| then Panics else Decided(Judged(tb, t, head, PastPython(t, walked)))
  }

  function Service(tb: Tables, t: seq<string>): Verdict {
    var head := Head(tb, t);
    if head.None? then Decided(false) else Answer(tb, t, head.value, Walk(tb, t, head.value))
  }

  method SegmentIsService(tb: Tables, t: seq<string>) returns (v: Verdict)
    ensures v == Service(tb, t)
  {
    var head := Head(tb, t);
    if head.None? {
      return Decided(false);
    }
    var cw := head.value;
    while cw < |t| && (t[cw] in tb.valueFlags || t[cw] in tb.runners || IsFlag(t[cw]))
      invariant Walk(tb, t, cw) == Walk(tb, t, head.value)
      decreases |t| + 2 - cw
    {
      cw := if t[cw] in tb.valueFlags then cw + 2 else cw + 1;
    }
    if cw > |t| {
      return Panics;
    }
    cw := PastPython(t, cw);
    return Decided(Judged(tb, t, head.value, cw));
  }

  // ----- when it panics -----

  /** The walk from `i` stops at `k` on its way. */
  predicate Visits(tb: Tables, t: seq<string>, i: nat, k: nat)
    decreases |t| + 2 - i
  {
    i == k || (i < |t| && i < k
               && if t[i] in tb.valueFlags then Visits(tb, t, i + 2, k)
                  else (t[i] in tb.runners || IsFlag(t[i])) && Visits(tb, t, i + 1, k))
  }

  lemma {:induction false} WalkOverruns(tb: Tables, t: seq<string>, i: nat)
    requires i < |t|
    ensures Walk(tb, t, i) > |t| <==> t[|t| - 1] in tb.valueFlags && Visits(tb, t, i, |t| - 1)
    decreases |t| - i
  {
    var step := if t[i] in tb.valueFlags then 2 else 1;
    if i + step < |t| && (t[i] in tb.valueFlags || t[i] in tb.runners || IsFlag(t[i])) {
      WalkOverruns(tb, t, i + step);
    }
  }

  /** The segment panics exactly when its last token is a value flag that the walk from the head stops at. */
  lemma PanicsIff(tb: Tables, t: seq<string>)
    ensures Service(tb, t).Panics? <==>
              Head(tb, t).Some? && t[|t| - 1] in tb.valueFlags && Visits(tb, t, Head(tb, t).value, |t| - 1)
  {
    if Head(tb, t).Some? {
      WalkOverruns(tb, t, Head(tb, t).value);
    }
  }

  function TablesInUse(phrases: seq<seq<string>>): Tables {
    Tables(WRAPPERS_IN_USE, RUNNERS_IN_USE, VALUE_FLAGS_IN_USE, phrases)
  }

  /** `npx -p` does. */
  lemma NpxTrailingFlagPanics(phrases: seq<seq<string>>)
    ensures Service(TablesInUse(phrases), ["npx", "-p"]).Panics?
  {
    var tb := TablesInUse(phrases);
    assert "npx" !in tb.wrappers && "npx" in tb.runners && "npx" !in tb.valueFlags && "-p" in tb.valueFlags;
    assert "npx"[1] == 'p' && "npx"[2] == 'x';
    assert Head(tb, ["npx", "-p"]) == Some(0);
  }

  lemma TablesInUseAreSensible(phrases: seq<seq<string>>)
    ensures Sensible(TablesInUse(phrases))
  {
  }

  // ----- wrapper words and assignments in front -----

  predicate IsPrefixWord(tb: Tables, s: string) {
    s in tb.wrappers || IsAssignment(s)
  }

  predicate AllPrefixWords(tb: Tables, w: seq<string>) {
    forall k :: 0 <= k < |w| ==> IsPrefixWord(tb, w[k])
  }

  lemma {:induction false} UpToKeepsPlain(s: string, c: char)
    ensures c !in s ==> UpTo(s, c) == s
  {
    if s != [] && s[0] != c {
      UpToKeepsPlain(s[1..], c);
      assert s == [s[0]] + s[1..];
    }
  }

  lemma NamesHaveNoEquals()
    ensures '=' !in PORT_FORWARD && '=' !in ROLLOUT
  {
  }

  /** None of the rules sees a prefix word. */
  lemma PrefixWordIsInert(tb: Tables, s: string)
    requires Sensible(tb) && IsPrefixWord(tb, s)
    ensures s != [] && s[0] != '-' && s !in tb.valueFlags && s != PORT_FORWARD && s != ROLLOUT
    ensures !Detaches(s) && (UpTo(s, '=') == [] || UpTo(s, '=')[0] != '-')
  {
    NamesHaveNoEquals();
  }

  lemma {:induction false} HeadPastPrefix(tb: Tables, w: seq<string>, t: seq<string>)
    requires AllPrefixWords(tb, w)
    ensures Head(tb, t).Some? ==> Head(tb, w + t) == Some(|w| + Head(tb, t).value)
    ensures Head(tb, t).None? ==> Head(tb, w + t).None?
  {
    if w == [] {
      assert w + t == t;
    } else {
      assert (w + t)[1..] == w[1..] + t;
      HeadPastPrefix(tb, w[1..], t);
    }
  }

  lemma {:induction false} WalkPastPrefix(tb: Tables, w: seq<string>, t: seq<string>, i: nat)
    requires i <= |t| + 1
    ensures Walk(tb, w + t, |w| + i) == |w| + Walk(tb, t, i)
    decreases |t| + 2 - i
  {
    if i < |t| {
      assert (w + t)[|w| + i] == t[i];
      if t[i] in tb.valueFlags {
        WalkPastPrefix(tb, w, t, i + 2);
      } else if t[i] in tb.runners || IsFlag(t[i]) {
        WalkPastPrefix(tb, w, t, i + 1);
      }
    }
  }

  lemma PhrasePastPrefix(w: seq<string>, t: seq<string>, i: nat, phrase: seq<string>)
    ensures PhraseAt(w + t, |w| + i, phrase) <==> PhraseAt(t, i, phrase)
  {
    assert i <= |t| ==> (w + t)[|w| + i..] == t[i..];
  }

  lemma WatchPastPrefix(tb: Tables, w: seq<string>, t: seq<string>)
    requires Sensible(tb) && AllPrefixWords(tb, w)
    ensures Watches(w + t) <==> Watches(t)
  {
    var s := w + t;
    forall k | 0 <= k < |t| ensures WatchAt(s, |w| + k) <==> WatchAt(t, k) {
      assert s[|w| + k] == t[k] && TokenAt(s, |w| + k + 1) == TokenAt(t, k + 1);
    }
    if Watches(t) {
      var k :| 0 <= k < |t| && WatchAt(t, k);
      assert WatchAt(s, |w| + k);
    }
    if Watches(s) {
      var k :| 0 <= k < |s| && WatchAt(s, k);
      if k < |w| {
        PrefixWordIsInert(tb, w[k]);
      } else {
        assert WatchAt(t, k - |w|);
      }
    }
  }

  lemma RolloutPastPrefix(tb: Tables, w: seq<string>, t: seq<string>)
    requires Sensible(tb) && AllPrefixWords(tb, w)
    ensures RolloutStatus(w + t) <==> RolloutStatus(t)
  {
    var s := w + t;
    if RolloutStatus(t) {
      var k :| 0 <= k < |t| - 1 && t[k] == ROLLOUT && t[k + 1] == "status";
      assert s[|w| + k] == ROLLOUT && s[|w| + k + 1] == "status";
    }
    if RolloutStatus(s) {
      var k :| 0 <= k < |s| - 1 && s[k] == ROLLOUT && s[k + 1] == "status";
      if k < |w| {
        PrefixWordIsInert(tb, w[k]);
      } else {
        assert t[k - |w|] == ROLLOUT && t[k - |w| + 1] == "status";
      }
    }
  }

  lemma ComposePastPrefix(tb: Tables, w: seq<string>, t: seq<string>, head: nat, cw: nat)
    requires Sensible(tb) && AllPrefixWords(tb, w)
    ensures ComposeUp(w + t, |w| + head, |w| + cw) <==> ComposeUp(t, head, cw)
  {
    var s := w + t;
    PhrasePastPrefix(w, t, head, ["docker", "compose", "up"]);
    PhrasePastPrefix(w, t, cw, ["docker", "compose", "up"]);
    PhrasePastPrefix(w, t, head, ["docker-compose", "up"]);
    PhrasePastPrefix(w, t, cw, ["docker-compose", "up"]);
    forall k | 0 <= k < |w| ensures !Detaches(s[k]) {
      PrefixWordIsInert(tb, w[k]);
    }
    assert forall k :: 0 <= k < |t| ==> s[|w| + k] == t[k];
    assert forall k :: |w| <= k < |s| ==> s[k] == t[k - |w|];
  }

  lemma PhrasesPastPrefix(tb: Tables, w: seq<string>, t: seq<string>, head: nat, cw: nat)
    ensures (exists p :: 0 <= p < |tb.phrases| && Starts(w + t, |w| + head, |w| + cw, tb.phrases[p]))
            <==> (exists p :: 0 <= p < |tb.phrases| && Starts(t, head, cw, tb.phrases[p]))
  {
    forall p | 0 <= p < |tb.phrases|
      ensures Starts(w + t, |w| + head, |w| + cw, tb.phrases[p]) <==> Starts(t, head, cw, tb.phrases[p])
    {
      PhrasePastPrefix(w, t, head, tb.phrases[p]);
      PhrasePastPrefix(w, t, cw, tb.phrases[p]);
    }
  }

  lemma PortForwardPastPrefix(tb: Tables, w: seq<string>, t: seq<string>)
    requires Sensible(tb) && AllPrefixWords(tb, w)
    ensures PORT_FORWARD in w + t <==> PORT_FORWARD in t
  {
    forall k | 0 <= k < |w| ensures w[k] != PORT_FORWARD {
      PrefixWordIsInert(tb, w[k]);
    }
  }

  lemma RunnerPastPrefix(tb: Tables, w: seq<string>, t: seq<string>, head: nat, cw: nat)
    requires Sensible(tb) && AllPrefixWords(tb, w) && cw <= |t|
    ensures ViaRunner(tb, w + t, |w| + head, |w| + cw) <==> ViaRunner(tb, t, head, cw)
  {
    if cw > head {
      assert (w + t)[|w| + cw - 1] == t[cw - 1];
      if cw >= 2 {
        assert (w + t)[|w| + cw - 2] == t[cw - 2];
      } else if w != [] {
        PrefixWordIsInert(tb, w[|w| - 1]);
      }
    }
  }

  lemma JudgedPastPrefix(tb: Tables, w: seq<string>, t: seq<string>, head: nat, cw: nat)
    requires Sensible(tb) && AllPrefixWords(tb, w) && head < |t| && cw <= |t|
    ensures Judged(tb, w + t, |w| + head, |w| + cw) == Judged(tb, t, head, cw)
  {
    PhrasesPastPrefix(tb, w, t, head, cw);
    RunnerPastPrefix(tb, w, t, head, cw);
    PortForwardPastPrefix(tb, w, t);
    ComposePastPrefix(tb, w, t, head, cw);
    RolloutPastPrefix(tb, w, t);
    WatchPastPrefix(tb, w, t);
    assert (w + t)[|w| + head] == t[head] && CommandAt(w + t, |w| + cw) == CommandAt(t, cw);
    assert cw < |t| ==> (w + t)[|w| + cw + 1..] == t[cw + 1..];
  }

  lemma PythonPastPrefix(w: seq<string>, t: seq<string>, cw: nat)
    ensures PastPython(w + t, |w| + cw) == |w| + PastPython(t, cw)
  {
    assert cw + 1 < |t| ==> (w + t)[|w| + cw] == t[cw] && (w + t)[|w| + cw + 1] == t[cw + 1];
  }

  lemma AnswerPastPrefix(tb: Tables, w: seq<string>, t: seq<string>, head: nat, walked: nat, v: Verdict)
    requires Sensible(tb) && AllPrefixWords(tb, w) && head < |t| && Answer(tb, t, head, walked) == v
    ensures Answer(tb, w + t, |w| + head, |w| + walked) == v
  {
    hide Judged;
    if walked <= |t| {
      PythonPastPrefix(w, t, walked);
      JudgedPastPrefix(tb, w, t, head, PastPython(t, walked));
    }
  }

  lemma AnswerIs(tb: Tables, t: seq<string>, head: nat, walked: nat, v: Verdict)
    requires Head(tb, t) == Some(head) && Walk(tb, t, head) == walked && Answer(tb, t, head, walked) == v
    ensures Service(tb, t) == v
  {
  }

  /** Wrapper words and env assignments in front never change the answer - nor whether there is one. */
  lemma PrefixChangesNothing(tb: Tables, w: seq<string>, t: seq<string>)
    requires Sensible(tb) && AllPrefixWords(tb, w)
    ensures Service(tb, w + t) == Service(tb, t)
  {
    hide Judged;
    HeadPastPrefix(tb, w, t);
    if Head(tb, t).Some? {
      var head := Head(tb, t).value;
      var walked := Walk(tb, t, head);
      var v := Answer(tb, t, head, walked);
      WalkPastPrefix(tb, w, t, head);
      AnswerPastPrefix(tb, w, t, head, walked, v);
      AnswerIs(tb, w + t, |w| + head, |w| + walked, v);
      AnswerIs(tb, t, head, walked, v);
    }
  }
}
