/** Shell quoting (`shell_quote` and `shell_join` of crates/cli/src/run.rs) against word splitting as the Shell Command
    Language does it (sections 2.2 and 2.3 of IEEE Std 1003.1-2017). */
module Shell {
  import opened Prelude

  // ----- the reference: splitting a command into words -----

  datatype Mode = Plain | Single | Double

  /** The words; or why the text is not just words: an open quote, or a character that means something else there. */
  datatype Outcome = Words(words: seq<string>) | Open | Means(c: char)

  /** Unquoted, it starts an operator, an expansion or a pattern - or, opening a word, a comment or a tilde prefix. */
  predicate IsSpecial(c: char, opensWord: bool) {
    c in {'|', '&', ';', '<', '>', '(', ')', '$', '`', '*', '?', '[', '\n'} || (opensWord && c in {'#', '~'})
  }

  predicate IsBlankChar(c: char) {
    c == ' ' || c == '\t'
  }

  function Grown(word: Option<string>, more: string): Option<string> {
    if word.Some? then Some(word.value + more) else Some(more)
  }

  function Finished(word: Option<string>, done: seq<string>): seq<string> {
    if word.Some? then done + [word.value] else done
  }

  /** `word` is the word being read, `done` the words before it. */
  function Split(s: string, mode: Mode, word: Option<string>, done: seq<string>): Outcome
    decreases |s|
  {
    if s == [] then (if mode.Plain? then Words(Finished(word, done)) else Open)
    else
      match mode
      case Single =>
        if s[0] == '\'' then Split(s[1..], Plain, word, done) else Split(s[1..], Single, Grown(word, [s[0]]), done)
      case Double =>
        if s[0] == '\"' then Split(s[1..], Plain, word, done)
        else if s[0] == '$' || s[0] == '`' then Means(s[0])
        else if s[0] == '\\' && |s| > 1 && s[1] == '\n' then Split(s[2..], Double, word, done)
        else if s[0] == '\\' && |s| > 1 && s[1] in {'$', '`', '\"', '\\'}
          then Split(s[2..], Double, Grown(word, [s[1]]), done)
        else Split(s[1..], Double, Grown(word, [s[0]]), done)
      case Plain =>
        if s[0] == '\'' then Split(s[1..], Single, Grown(word, []), done)
        else if s[0] == '\"' then Split(s[1..], Double, Grown(word, []), done)
        else if s[0] == '\\' then
          (if |s| == 1 then Open
           else if s[1] == '\n' then Split(s[2..], Plain, word, done)
           else Split(s[2..], Plain, Grown(word, [s[1]]), done))
        else if IsBlankChar(s[0]) then Split(s[1..], Plain, None, Finished(word, done))
        else if IsSpecial(s[0], word.None?) then Means(s[0])
        else Split(s[1..], Plain, Grown(word, [s[0]]), done)
  }

  function SplitWords(s: string): Outcome {
    Split(s, Plain, None, [])
  }

  // ----- the program -----

  predicate IsSafe(c: char) {
    'a' <= c <= 'z' || 'A' <= c <= 'Z' || '0' <= c <= '9' || c in {'-', '_', '.', '/', ':', '=', ',', '@', '+'}
  }

  /** `'` as `'\''`. */
  function Escaped(arg: string): string {
    if arg == [] then [] else (if arg[0] == '\'' then ['\'', '\\', '\'', '\''] else [arg[0]]) + Escaped(arg[1..])
  }

  predicate AllSafe(arg: string) {
    forall k :: 0 <= k < |arg| ==> IsSafe(arg[k])
  }

  function ShellQuote(arg: string): string {
    if arg != [] && AllSafe(arg) then arg else ['\''] + Escaped(arg) + ['\'']
  }

  function ShellJoin(args: seq<string>): string {
    if args == [] then []
    else if |args| == 1 then ShellQuote(args[0])
    else ShellQuote(args[0]) + [' '] + ShellJoin(args[1..])
  }

  /** An argument stands bare exactly when it has only letters, digits and nine signs, and is not empty; any other is in
      single quotes, as it is unless it holds one. */
  lemma QuotedIff(arg: string)
    ensures ShellQuote(arg) == arg
            <==> arg != ""
                 && forall k :: 0 <= k < |arg| ==>
                      var c := arg[k];
                      'a' <= c <= 'z' || 'A' <= c <= 'Z' || '0' <= c <= '9' || c in "-_./:=,@+"
    ensures ShellQuote(arg) != arg && '\'' !in arg ==> ShellQuote(arg) == "'" + arg + "'"
  {
    EscapedGrows(arg);
  }

  lemma {:induction false} EscapedGrows(arg: string)
    ensures |Escaped(arg)| >= |arg|
    ensures '\'' !in arg ==> Escaped(arg) == arg
  {
    if arg != [] {
      EscapedGrows(arg[1..]);
    }
  }

  /** An apostrophe closes the quotes, stands escaped, and opens them again. */
  lemma {:induction false} ApostropheIs(front: string, back: string)
    ensures Escaped(front + "'" + back) == Escaped(front) + "'\\''" + Escaped(back)
  {
    var s := front + "'" + back;
    if front == [] {
      assert s[1..] == back;
    } else {
      assert s[1..] == front[1..] + "'" + back;
      ApostropheIs(front[1..], back);
    }
  }

  // ----- the round trip -----

  /** Safe text in front is read as it stands. */
  lemma {:induction false} SafeIsRead(arg: string, z: string, word: Option<string>, done: seq<string>)
    requires AllSafe(arg) && arg != []
    ensures Split(arg + z, Plain, word, done) == Split(z, Plain, Grown(word, arg), done)
  {
    var rest := arg[1..] + z;
    SafeCharIsRead(arg[0], rest, word, done);
    assert arg + z == [arg[0]] + rest;
    if |arg| == 1 {
      assert arg == [arg[0]] && rest == z;
    } else {
      SafeIsRead(arg[1..], z, Grown(word, [arg[0]]), done);
      assert [arg[0]] + arg[1..] == arg;
      assert word.Some? ==> word.value + [arg[0]] + arg[1..] == word.value + arg;
    }
  }

  lemma SafeCharIsRead(c: char, rest: string, word: Option<string>, done: seq<string>)
    requires IsSafe(c)
    ensures Split([c] + rest, Plain, word, done) == Split(rest, Plain, Grown(word, [c]), done)
  {
    assert ([c] + rest)[1..] == rest;
  }

  /** Escaped text inside single quotes, and the quote that closes it. */
  lemma {:induction false} EscapedIsRead(arg: string, z: string, word: string, done: seq<string>)
    ensures Split(Escaped(arg) + (['\''] + z), Single, Some(word), done) == Split(z, Plain, Some(word + arg), done)
  {
    var tail := ['\''] + z;
    if arg == [] {
      assert Escaped(arg) + tail == tail && tail[1..] == z && word + arg == word;
    } else {
      var rest := Escaped(arg[1..]) + tail;
      EscapedIsRead(arg[1..], z, word + [arg[0]], done);
      assert word + [arg[0]] + arg[1..] == word + arg;
      if arg[0] == '\'' {
        QuoteIsRead(rest, word, done);
        assert Escaped(arg) + tail == ['\'', '\\', '\'', '\''] + rest;
      } else {
        assert Escaped(arg) + tail == [arg[0]] + rest;
        assert ([arg[0]] + rest)[1..] == rest;
      }
    }
  }

  /** `'\''` inside single quotes adds one quote. */
  lemma QuoteIsRead(rest: string, word: string, done: seq<string>)
    ensures Split(['\'', '\\', '\'', '\''] + rest, Single, Some(word), done)
            == Split(rest, Single, Some(word + ['\'']), done)
  {
    var s := ['\'', '\\', '\'', '\''] + rest;
    assert s[1..] == ['\\', '\'', '\''] + rest;
    assert s[1..][2..] == ['\''] + rest;
    assert (['\''] + rest)[1..] == rest;
    assert Split(['\''] + rest, Plain, Some(word + ['\'']), done)
           == Split(rest, Single, Grown(Some(word + ['\'']), []), done);
    assert word + ['\''] + [] == word + ['\''];
  }

  lemma QuoteOpens(z: string, done: seq<string>)
    ensures Split(['\''] + z, Plain, None, done) == Split(z, Single, Some([]), done)
  {
    assert (['\''] + z)[1..] == z;
  }

  lemma QuotedIsRead(arg: string, z: string, done: seq<string>)
    ensures Split(ShellQuote(arg) + z, Plain, None, done) == Split(z, Plain, Some(arg), done)
  {
    assert [] + arg == arg;
    if arg != [] && AllSafe(arg) {
      SafeIsRead(arg, z, None, done);
    } else {
      var body := Escaped(arg) + (['\''] + z);
      assert ShellQuote(arg) + z == ['\''] + body;
      QuoteOpens(body, done);
      EscapedIsRead(arg, z, [], done);
    }
  }

  lemma {:induction false} JoinedIsRead(args: seq<string>, done: seq<string>)
    ensures Split(ShellJoin(args), Plain, None, done) == Words(done + args)
    decreases |args|
  {
    if args == [] {
      assert done + args == done;
    } else if |args| == 1 {
      QuotedIsRead(args[0], [], done);
      assert ShellQuote(args[0]) + [] == ShellQuote(args[0]);
      assert args == [args[0]];
    } else {
      var z := [' '] + ShellJoin(args[1..]);
      QuotedIsRead(args[0], z, done);
      assert ShellJoin(args) == ShellQuote(args[0]) + z;
      assert z[1..] == ShellJoin(args[1..]);
      JoinedIsRead(args[1..], done + [args[0]]);
      assert done + [args[0]] + args[1..] == done + args;
    }
  }

  /** A pasted command line is read back as the very arguments, whatever is in them. */
  lemma JoinRoundTrips(args: seq<string>)
    ensures SplitWords(ShellJoin(args)) == Words(args)
  {
    JoinedIsRead(args, []);
    assert [] + args == args;
  }
}
