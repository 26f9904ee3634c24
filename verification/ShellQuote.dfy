/** Commands handed to a POSIX shell as text, read back by the quoting rules of section 2.2 of the
    POSIX.1-2017 Shell Command Language. */
module ShellQuote {
  import opened Wrappers

  // ----- How a shell reads a command -----

  datatype Token = Word(text: string) | AndIf

  datatype Quote = Unquoted | Single | Double

  predicate IsBlank(c: char) {
    c == ' ' || c == '\t'
  }

  /** Unquoted characters that end the simple command, expand, or may do so (newline included). */
  predicate IsSpecial(c: char) {
    c in "|;<>()$`*?[#~=%\n"
  }

  function EndWord(inWord: bool, word: string): seq<Token> {
    if inWord then [Word(word)] else []
  }

  function Prepend(head: seq<Token>, tail: Option<seq<Token>>): Option<seq<Token>> {
    if tail.Some? then Some(head + tail.value) else None
  }

  /** The tokens of s when read inside the given quotes with `word` already gathered. None if s is
      more than words and &&, or leaves a quote open. */
  function Lex(s: string, quote: Quote, inWord: bool, word: string): Option<seq<Token>>
    decreases |s|
  {
    match quote
    case Unquoted =>
      if s == "" then Some(EndWord(inWord, word))
      else if IsBlank(s[0]) then Prepend(EndWord(inWord, word), Lex(s[1..], Unquoted, false, ""))
      else if s[0] == '&' then
        if |s| > 1 && s[1] == '&' then Prepend(EndWord(inWord, word) + [AndIf], Lex(s[2..], Unquoted, false, ""))
        else None
      else if s[0] == '\'' then Lex(s[1..], Single, true, word)
      else if s[0] == '"' then Lex(s[1..], Double, true, word)
      else if s[0] == '\\' then
        if |s| == 1 then None
        else if s[1] == '\n' then Lex(s[2..], Unquoted, inWord, word)
        else Lex(s[2..], Unquoted, true, word + [s[1]])
      else if IsSpecial(s[0]) then None
      else Lex(s[1..], Unquoted, true, word + [s[0]])
    case Single =>
      if s == "" then None
      else if s[0] == '\'' then Lex(s[1..], Unquoted, true, word)
      else Lex(s[1..], Single, true, word + [s[0]])
    case Double =>
      if s == "" then None
      else if s[0] == '"' then Lex(s[1..], Unquoted, true, word)
      else if s[0] in "$`" then None
      else if s[0] == '\\' && |s| > 1 && s[1] in "$`\"\\" then Lex(s[2..], Double, true, word + [s[1]])
      else if s[0] == '\\' && |s| > 1 && s[1] == '\n' then Lex(s[2..], Double, true, word)
      else Lex(s[1..], Double, true, word + [s[0]])
  }

  function Tokenize(s: string): Option<seq<Token>> {
    Lex(s, Unquoted, false, "")
  }

  function Words(argv: seq<string>): seq<Token> {
    seq(|argv|, i requires 0 <= i < |argv| => Word(argv[i]))
  }

  // ----- How the daemon writes one -----

  /** Every single quote is replaced by one outside the quotes, behind a backslash. */
  function Escape(s: string): string {
    if s == "" then "" else (if s[0] == '\'' then "'\\''" else [s[0]]) + Escape(s[1..])
  }

  /** shellQuote */
  function Quoted(s: string): string {
    "'" + Escape(s) + "'"
  }

  /** Each argument after a space. */
  function Spaced(argv: seq<string>): string {
    if argv == [] then "" else " " + Quoted(argv[0]) + Spaced(argv[1..])
  }

  /** The quoted arguments with spaces between them. */
  function QuotedList(argv: seq<string>): string {
    if argv == [] then "" else Quoted(argv[0]) + Spaced(argv[1..])
  }

  /** shellJoin: a shell reads exactly the arguments back. */
  method ShellJoin(argv: seq<string>) returns (b: string)
    ensures Tokenize(b) == Some(Words(argv))
  {
    b := JoinQuoted(argv);
    if argv != [] {
      JoinedLexes(argv);
    } else {
      assert Words(argv) == [];
    }
  }

  /** The loop of shellJoin. */
  method JoinQuoted(argv: seq<string>) returns (b: string)
    ensures b == QuotedList(argv)
  {
    b := "";
    for i := 0 to |argv|
      invariant b == QuotedList(argv[..i])
    {
      assert argv[..i + 1] == argv[..i] + [argv[i]];
      QuotedListMore(argv[..i], argv[i]);
      if i > 0 {
        b := b + " ";
      }
      b := b + Quoted(argv[i]);
    }
    assert argv[..|argv|] == argv;
  }

  lemma {:induction false} SpacedMore(argv: seq<string>, a: string)
    ensures Spaced(argv + [a]) == Spaced(argv) + (" " + Quoted(a))
  {
    if argv == [] {
      assert argv + [a] == [a] && Spaced([a][1..]) == "";
    } else {
      SpacedMore(argv[1..], a);
      assert (argv + [a])[1..] == argv[1..] + [a] && (argv + [a])[0] == argv[0];
      Regroup(" ", Quoted(argv[0]), Spaced(argv[1..]), " " + Quoted(a));
    }
  }

  lemma Tack(q: string, spaced: string, x: string)
    ensures q + (spaced + (" " + x)) == q + spaced + " " + x && x + "" == x
  {
  }

  lemma QuotedListMore(argv: seq<string>, a: string)
    ensures QuotedList(argv + [a]) == if argv == [] then Quoted(a) else QuotedList(argv) + " " + Quoted(a)
  {
    if argv == [] {
      assert argv + [a] == [a] && [a][1..] == [];
      Tack("", "", Quoted(a));
    } else {
      assert (argv + [a])[1..] == argv[1..] + [a] && (argv + [a])[0] == argv[0];
      SpacedMore(argv[1..], a);
      Tack(Quoted(argv[0]), Spaced(argv[1..]), Quoted(a));
    }
  }

  /** wrapCmdWithCwd: the shell reads cd and the directory, then exec and the arguments. */
  method WrapCmdWithCwd(argv: seq<string>, dir: string) returns (cmd: seq<string>)
    ensures |cmd| == 3 && cmd[0] == "sh" && cmd[1] == "-c"
    ensures Tokenize(cmd[2]) == Some([Word("cd"), Word(dir), AndIf, Word("exec")] + Words(argv))
  {
    var b := "cd ";
    b := b + Quoted(dir);
    b := b + " && exec";
    ghost var start := b;
    assert start + "" == start;
    for i := 0 to |argv|
      invariant b == start + Spaced(argv[..i])
    {
      assert argv[..i + 1] == argv[..i] + [argv[i]];
      SpacedMore(argv[..i], argv[i]);
      assert start + (Spaced(argv[..i]) + (" " + Quoted(argv[i]))) == b + " " + Quoted(argv[i]);
      b := b + " ";
      b := b + Quoted(argv[i]);
    }
    assert argv[..|argv|] == argv;
    Regroup("cd ", Quoted(dir), " && exec", Spaced(argv));
    WrappedLexes(argv, dir);
    return ["sh", "-c", b];
  }

  // ----- Reading back -----

  lemma Regroup(a: string, b: string, c: string, d: string)
    ensures a + b + c + d == a + (b + (c + d)) == a + (b + c + d)
  {
  }

  lemma PrependTwice(a: seq<Token>, b: seq<Token>, tail: Option<seq<Token>>)
    ensures Prepend(a, Prepend(b, tail)) == Prepend(a + b, tail)
  {
    if tail.Some? {
      assert a + (b + tail.value) == (a + b) + tail.value;
    }
  }

  /** Close the quote, a backslashed quote, open again: one quote character. */
  lemma EscapedQuoteLexes(rest: string, word: string)
    ensures Lex("'\\''" + rest, Single, true, word) == Lex(rest, Single, true, word + ['\''])
  {
    var a, b := "\\''" + rest, "'" + rest;
    assert Lex("'\\''" + rest, Single, true, word) == Lex(a, Unquoted, true, word) by {
      assert ("'\\''" + rest)[1..] == a;
    }
    assert Lex(a, Unquoted, true, word) == Lex(b, Unquoted, true, word + ['\'']) by {
      assert a[2..] == b && a[0] == '\\' && a[1] == '\'';
    }
    assert Lex(b, Unquoted, true, word + ['\'']) == Lex(rest, Single, true, word + ['\'']) by {
      assert b[1..] == rest;
    }
  }

  lemma {:induction false} EscapeLexes(s: string, rest: string, word: string)
    ensures Lex(Escape(s) + "'" + rest, Single, true, word) == Lex(rest, Unquoted, true, word + s)
    decreases |s|
  {
    var t := Escape(s) + "'" + rest;
    if s == "" {
      assert t[1..] == rest && word + s == word;
    } else {
      EscapeLexes(s[1..], rest, word + [s[0]]);
      assert word + [s[0]] + s[1..] == word + s;
      var u := Escape(s[1..]) + "'" + rest;
      if s[0] == '\'' {
        Regroup("'\\''", Escape(s[1..]), "'", rest);
        EscapedQuoteLexes(u, word);
        assert t == "'\\''" + u;
      } else {
        assert t == [s[0]] + u;
        assert t[1..] == u;
      }
    }
  }

  lemma QuotedLexes(s: string, rest: string, inWord: bool, word: string)
    ensures Lex(Quoted(s) + rest, Unquoted, inWord, word) == Lex(rest, Unquoted, true, word + s)
  {
    assert (Quoted(s) + rest)[1..] == Escape(s) + "'" + rest;
    EscapeLexes(s, rest, word);
  }

  lemma {:induction false} SpacedLexes(argv: seq<string>, word: string)
    ensures Lex(Spaced(argv), Unquoted, true, word) == Some([Word(word)] + Words(argv))
    decreases |argv|
  {
    if argv == [] {
      assert [Word(word)] + Words(argv) == [Word(word)];
    } else {
      SpacedLexes(argv[1..], argv[0]);
      QuotedStarts(argv[0], Spaced(argv[1..]));
      assert Spaced(argv) == " " + (Quoted(argv[0]) + Spaced(argv[1..]));
      BlankLexes(Quoted(argv[0]) + Spaced(argv[1..]), true, word);
      WordsCons(argv);
    }
  }

  predicate Letters(w: string) {
    forall i :: 0 <= i < |w| ==> 'a' <= w[i] <= 'z'
  }

  /** Plain letters are gathered into the word. */
  lemma {:induction false} LettersLex(w: string, rest: string, inWord: bool, word: string)
    requires Letters(w) && w != ""
    ensures Lex(w + rest, Unquoted, inWord, word) == Lex(rest, Unquoted, true, word + w)
    decreases |w|
  {
    LetterLexes(w[0], w[1..] + rest, inWord, word);
    assert w + rest == [w[0]] + (w[1..] + rest);
    if |w| == 1 {
      assert w[1..] + rest == rest && word + w == word + [w[0]];
    } else {
      LettersLex(w[1..], rest, true, word + [w[0]]);
      assert word + [w[0]] + w[1..] == word + w;
    }
  }

  lemma LetterLexes(c: char, rest: string, inWord: bool, word: string)
    requires 'a' <= c <= 'z'
    ensures Lex([c] + rest, Unquoted, inWord, word) == Lex(rest, Unquoted, true, word + [c])
  {
    assert ([c] + rest)[1..] == rest;
  }

  lemma BlankLexes(rest: string, inWord: bool, word: string)
    ensures Lex(" " + rest, Unquoted, inWord, word) == Prepend(EndWord(inWord, word), Tokenize(rest))
  {
    assert (" " + rest)[1..] == rest;
  }

  lemma ExecLexes(rest: string)
    ensures Tokenize("exec" + rest) == Lex(rest, Unquoted, true, "exec")
  {
    LettersLex("exec", rest, false, "");
    assert "" + "exec" == "exec";
  }

  lemma AndLexes(rest: string)
    ensures Tokenize("&& exec" + rest) == Prepend([AndIf], Lex(rest, Unquoted, true, "exec"))
  {
    var s := "&& exec" + rest;
    assert s[2..] == " " + ("exec" + rest) && s[0] == '&' && s[1] == '&';
    assert EndWord(false, "") + [AndIf] == [AndIf];
    assert Tokenize(s) == Prepend([AndIf], Tokenize(s[2..]));
    BlankLexes("exec" + rest, false, "");
    PrependTwice([AndIf], [], Tokenize("exec" + rest));
    ExecLexes(rest);
    assert [AndIf] + [] == [AndIf];
  }

  lemma CdLexes(rest: string)
    ensures Tokenize("cd " + rest) == Prepend([Word("cd")], Tokenize(rest))
  {
    LettersLex("cd", " " + rest, false, "");
    assert "cd " + rest == "cd" + (" " + rest) && "" + "cd" == "cd";
    BlankLexes(rest, true, "cd");
  }

  lemma DirLexes(dir: string, rest: string)
    ensures Tokenize(Quoted(dir) + (" && exec" + rest))
         == Prepend([Word(dir), AndIf], Lex(rest, Unquoted, true, "exec"))
  {
    QuotedStarts(dir, " && exec" + rest);
    assert " && exec" + rest == " " + ("&& exec" + rest);
    BlankLexes("&& exec" + rest, true, dir);
    AndLexes(rest);
    PrependTwice([Word(dir)], [AndIf], Lex(rest, Unquoted, true, "exec"));
    assert [Word(dir)] + [AndIf] == [Word(dir), AndIf];
  }

  lemma WrappedLexes(argv: seq<string>, dir: string)
    ensures Tokenize("cd " + (Quoted(dir) + (" && exec" + Spaced(argv))))
         == Some([Word("cd"), Word(dir), AndIf, Word("exec")] + Words(argv))
  {
    CdLexes(Quoted(dir) + (" && exec" + Spaced(argv)));
    DirLexes(dir, Spaced(argv));
    SpacedLexes(argv, "exec");
    var last := [Word("exec")] + Words(argv);
    assert [Word("cd")] + ([Word(dir), AndIf] + last) == [Word("cd"), Word(dir), AndIf, Word("exec")] + Words(argv);
  }

  lemma JoinedLexes(argv: seq<string>)
    requires argv != []
    ensures Tokenize(QuotedList(argv)) == Some(Words(argv))
  {
    QuotedStarts(argv[0], Spaced(argv[1..]));
    SpacedLexes(argv[1..], argv[0]);
    WordsCons(argv);
  }

  lemma QuotedStarts(s: string, rest: string)
    ensures Tokenize(Quoted(s) + rest) == Lex(rest, Unquoted, true, s)
  {
    QuotedLexes(s, rest, false, "");
    assert "" + s == s;
  }

  lemma WordsCons(argv: seq<string>)
    requires argv != []
    ensures [Word(argv[0])] + Words(argv[1..]) == Words(argv)
  {
  }
}
