/** Quoting of command-line arguments for a POSIX shell, and the shell's own view of the
    resulting command line: token recognition and quote removal as in sections 2.2.1,
    2.2.2 and 2.3 of the POSIX.1-2017 Shell Command Language. */
module Shell {
  import opened Basics

  predicate IsSafe(c: char)
  {
    || 'A' <= c <= 'Z' || 'a' <= c <= 'z' || '0' <= c <= '9'
    || c == '/' || c == '.' || c == '_' || c == '-' || c == '+' || c == '=' || c == ':' || c == ','
  }

  predicate AllSafe(arg: string)
  {
    forall i :: 0 <= i < |arg| ==> IsSafe(arg[i])
  }

  /** Every quote becomes: end of quoting, an escaped quote, start of quoting. */
  function ReplaceQuotes(arg: string): string
  {
    if arg == "" then "" else (if arg[0] == '\'' then "'\\''" else [arg[0]]) + ReplaceQuotes(arg[1..])
  }

  function Escape(arg: string): string
  {
    if arg == "" then "''"
    else if AllSafe(arg) then arg
    else "'" + ReplaceQuotes(arg) + "'"
  }

  function EscapeAll(args: seq<string>): (r: seq<string>)
    ensures |r| == |args|
  {
    seq(|args|, i requires 0 <= i < |args| => Escape(args[i]))
  }

  method EscapeArgsForShell(args: seq<string>) returns (escaped: seq<string>)
    ensures escaped == EscapeAll(args)
  {
    escaped := [];
    for i := 0 to |args|
      invariant |escaped| == i && forall k :: 0 <= k < i ==> escaped[k] == Escape(args[k])
    {
      if args[i] == "" {
        escaped := escaped + ["''"];
        continue;
      }
      var needsEscaping := false;
      for j := 0 to |args[i]|
        invariant needsEscaping <==> !AllSafe(args[i][..j])
      {
        if !IsSafe(args[i][j]) {
          needsEscaping := true;
          assert !IsSafe(args[i][..j + 1][j]);
          assert !AllSafe(args[i]);
          break;
        }
      }
      assert !needsEscaping ==> args[i][..|args[i]|] == args[i];
      if !needsEscaping {
        escaped := escaped + [args[i]];
        continue;
      }
      escaped := escaped + ["'" + ReplaceQuotes(args[i]) + "'"];
    }
  }

  function Join(words: seq<string>): string
  {
    if words == [] then ""
    else if |words| == 1 then words[0]
    else words[0] + " " + Join(words[1..])
  }

  // ----- The shell -------------------------------------------------------------------------

  /** Characters with a meaning of their own when they are not quoted. */
  predicate IsSpecial(c: char)
  {
    || c == '|' || c == '&' || c == ';' || c == '<' || c == '>' || c == '(' || c == ')' || c == '$' || c == '`'
    || c == '"' || c == '\n' || c == '*' || c == '?' || c == '[' || c == '#' || c == '~'
  }

  datatype Mode = Plain | Quoted

  /** Splits a command line into words and removes the quotes.  `word` is the word being
      read, if one has begun.  Fails on an open quote, and on unquoted characters that
      make more than words. */
  function Lex(s: string, word: Option<string>, mode: Mode): Option<seq<string>>
    decreases |s|
  {
    var w := if word.Some? then word.value else "";
    if s == "" then
      if mode == Quoted then None else Some(if word.Some? then [w] else [])
    else if mode == Quoted then
      if s[0] == '\'' then Lex(s[1..], Some(w), Plain) else Lex(s[1..], Some(w + [s[0]]), Quoted)
    else if s[0] == ' ' || s[0] == '\t' then
      if word.None? then Lex(s[1..], None, Plain) else Prepend(w, Lex(s[1..], None, Plain))
    else if s[0] == '\'' then Lex(s[1..], Some(w), Quoted)
    else if s[0] == '\\' then
      if |s| == 1 then None
      else if s[1] == '\n' then Lex(s[2..], word, Plain)
      else Lex(s[2..], Some(w + [s[1]]), Plain)
    else if IsSpecial(s[0]) then None
    else Lex(s[1..], Some(w + [s[0]]), Plain)
  }

  function Prepend(w: string, r: Option<seq<string>>): Option<seq<string>>
  {
    if r.Some? then Some([w] + r.value) else None
  }

  lemma {:induction false} LexSafe(arg: string, w: string, rest: string)
    requires AllSafe(arg)
    ensures Lex(arg + rest, Some(w), Plain) == Lex(rest, Some(w + arg), Plain)
    decreases |arg|
  {
    if arg == "" {
      assert arg + rest == rest && w + arg == w;
    } else {
      assert (arg + rest)[1..] == arg[1..] + rest;
      LexSafe(arg[1..], w + [arg[0]], rest);
      assert w + [arg[0]] + arg[1..] == w + arg;
    }
  }

  lemma {:induction false} LexQuoted(arg: string, w: string, rest: string)
    ensures Lex(ReplaceQuotes(arg) + "'" + rest, Some(w), Quoted) == Lex(rest, Some(w + arg), Plain)
    decreases |arg|
  {
    var s := ReplaceQuotes(arg) + "'" + rest;
    if arg == "" {
      assert s == "'" + rest && s[1..] == rest && w + arg == w;
    } else {
      var tail := ReplaceQuotes(arg[1..]) + "'" + rest;
      LexQuoted(arg[1..], w + [arg[0]], rest);
      assert w + [arg[0]] + arg[1..] == w + arg;
      if arg[0] == '\'' {
        LexEscapedQuote(w, tail);
        assert s == "'\\''" + tail;
      } else {
        assert s == [arg[0]] + tail && s[1..] == tail;
      }
    }
  }

  lemma LexEscapedQuote(w: string, tail: string)
    ensures Lex("'\\''" + tail, Some(w), Quoted) == Lex(tail, Some(w + "'"), Quoted)
  {
    var s := "'\\''" + tail;
    var s1, s2 := "\\''" + tail, "'" + tail;
    assert s[1..] == s1 && s1[2..] == s2 && s2[1..] == tail;
    assert Lex(s, Some(w), Quoted) == Lex(s1, Some(w), Plain);
    assert Lex(s1, Some(w), Plain) == Lex(s2, Some(w + "'"), Plain);
    assert Lex(s2, Some(w + "'"), Plain) == Lex(tail, Some(w + "'"), Quoted);
  }

  lemma LexSafeWord(arg: string, rest: string)
    requires arg != "" && AllSafe(arg)
    ensures Lex(arg + rest, None, Plain) == Lex(rest, Some(arg), Plain)
  {
    var s := arg + rest;
    assert s[0] == arg[0] && IsSafe(s[0]) && s[1..] == arg[1..] + rest;
    assert "" + [arg[0]] == [arg[0]];
    assert Lex(s, None, Plain) == Lex(s[1..], Some([arg[0]]), Plain);
    LexSafe(arg[1..], [arg[0]], rest);
    assert [arg[0]] + arg[1..] == arg;
  }

  lemma LexQuotedWord(arg: string, rest: string)
    ensures Lex("'" + ReplaceQuotes(arg) + "'" + rest, None, Plain) == Lex(rest, Some(arg), Plain)
  {
    var s := "'" + ReplaceQuotes(arg) + "'" + rest;
    assert s[1..] == ReplaceQuotes(arg) + "'" + rest;
    assert Lex(s, None, Plain) == Lex(s[1..], Some(""), Quoted);
    LexQuoted(arg, "", rest);
    assert "" + arg == arg;
  }

  /** An escaped argument is one word, and that word is the argument. */
  lemma LexEscaped(arg: string, rest: string)
    ensures Lex(Escape(arg) + rest, None, Plain) == Lex(rest, Some(arg), Plain)
  {
    if arg == "" {
      LexQuotedWord(arg, rest);
      assert "'" + ReplaceQuotes(arg) + "'" == "''";
    } else if AllSafe(arg) {
      LexSafeWord(arg, rest);
    } else {
      LexQuotedWord(arg, rest);
    }
  }

  /** An argument is left as it is exactly when it is not empty and has only safe characters;
      any other is put in quotes. */
  lemma EscapesIfNeeded(arg: string)
    ensures Escape(arg) == arg <==> arg != "" && AllSafe(arg)
    ensures Escape(arg) != arg ==>
      |Escape(arg)| >= |arg| + 2 && Escape(arg)[0] == '\'' == Escape(arg)[|Escape(arg)| - 1]
  {
    LongerQuoted(arg);
  }

  lemma {:induction false} LongerQuoted(arg: string)
    ensures |ReplaceQuotes(arg)| >= |arg|
  {
    if arg != "" {
      LongerQuoted(arg[1..]);
    }
  }

  /** A shell reads the joined, escaped arguments as the arguments. */
  lemma {:induction false} ShellReadsArguments(args: seq<string>)
    ensures Lex(Join(EscapeAll(args)), None, Plain) == Some(args)
    decreases |args|
  {
    var words := EscapeAll(args);
    if |args| == 1 {
      LexEscaped(args[0], "");
      assert words[0] + "" == words[0];
      assert [args[0]] == args;
    } else if |args| > 1 {
      assert words[1..] == EscapeAll(args[1..]);
      var rest := " " + Join(words[1..]);
      assert Join(words) == words[0] + rest && rest[1..] == Join(words[1..]);
      LexEscaped(args[0], rest);
      ShellReadsArguments(args[1..]);
      assert [args[0]] + args[1..] == args;
    }
  }
}
