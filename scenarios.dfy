/** Sample command lines and what the parser makes of them: ';' and '&'
    group to the right, an '&' at the end of the line or in front of ';' is
    refused, and so is a command of MAXARGS words. */
module Scenarios {
  import opened CmdTree
  import opened Lexer
  import opened Grammar
  import opened Parser

  /** The exec node of a single word. */
  function Cmd1(w: String): (c: Cmd)
    ensures Canonical(c) && Unparse(c) == [Word(w)]
  {
    ArgWordsOfArgv([w]);
    Exec(ArgvOf([w]))
  }

  /** `a;b;c` is `a ; (b ; c)`. */
  lemma SequenceGroupsRight()
    ensures ParseCmdTokens(Tokens("a;b;c", 0))
         == Ok(Sequential(Cmd1("a"), Sequential(Cmd1("b"), Cmd1("c"))))
  {
    var line := "a;b;c";
    assert WordEnd(line, 4) == 5 && line[4..5] == "c";
    assert Tokens(line, 4) == [Word("c")];
    assert Tokens(line, 3) == [Semi, Word("c")];
    assert WordEnd(line, 2) == 3 && line[2..3] == "b";
    assert Tokens(line, 2) == [Word("b"), Semi, Word("c")];
    assert Tokens(line, 1) == [Semi, Word("b"), Semi, Word("c")];
    assert WordEnd(line, 0) == 1 && line[0..1] == "a";
    assert Tokens(line, 0) == [Word("a"), Semi, Word("b"), Semi, Word("c")];
    var c := Sequential(Cmd1("a"), Sequential(Cmd1("b"), Cmd1("c")));
    ParseCmdTokensRoundTrip(Tokens(line, 0), c);
  }

  /** `ls -l &` ends with '&' and is refused. */
  lemma TrailingAmpRefused()
    ensures ParseCmdTokens(Tokens("ls -l &", 0)) == Err(TrailingAmp)
  {
    var line := "ls -l &";
    assert Tokens(line, 6) == [Amp];
    assert WordEnd(line, 3) == 5 && line[3..5] == "-l";
    assert Tokens(line, 3) == [Word("-l"), Amp];
    assert WordEnd(line, 0) == 2 && line[0..2] == "ls";
    assert Tokens(line, 0) == [Word("ls"), Word("-l"), Amp];
    assert WordTokens(["ls", "-l"]) + ([Amp] + []) == Tokens(line, 0);
    ParseCmdTokensTrailingAmp(["ls", "-l"], []);
  }

  /** `a & ; b` puts ';' right after '&' and is refused. */
  lemma AmpSemiRefused()
    ensures ParseCmdTokens(Tokens("a & ; b", 0)) == Err(TrailingAmp)
  {
    var line := "a & ; b";
    assert WordEnd(line, 6) == 7 && line[6..7] == "b";
    assert Tokens(line, 6) == [Word("b")];
    assert Tokens(line, 4) == [Semi, Word("b")];
    assert Tokens(line, 2) == [Amp, Semi, Word("b")];
    assert WordEnd(line, 0) == 1 && line[0..1] == "a";
    assert Tokens(line, 0) == [Word("a"), Amp, Semi, Word("b")];
    assert WordTokens(["a"]) + ([Amp] + [Semi, Word("b")]) == Tokens(line, 0);
    ParseCmdTokensTrailingAmp(["a"], [Semi, Word("b")]);
  }

  /** `a & b` runs `a` and `b` in parallel. */
  lemma ParallelAccepted()
    ensures ParseCmdTokens(Tokens("a & b", 0)) == Ok(Parallel(Cmd1("a"), Cmd1("b")))
  {
    var line := "a & b";
    assert WordEnd(line, 4) == 5 && line[4..5] == "b";
    assert Tokens(line, 4) == [Word("b")];
    assert Tokens(line, 2) == [Amp, Word("b")];
    assert WordEnd(line, 0) == 1 && line[0..1] == "a";
    assert Tokens(line, 0) == [Word("a"), Amp, Word("b")];
    ParseCmdTokensRoundTrip(Tokens(line, 0), Parallel(Cmd1("a"), Cmd1("b")));
  }

  /** Ten words on one line are one too many. */
  lemma TenWordsRefused()
    ensures var ws := seq(MAXARGS, _ => "x");
      ParseCmdTokens(Tokens(Render(WordTokens(ws)), 0)) == Err(TooManyArgs)
  {
    var ws := seq(MAXARGS, _ => "x");
    WordTokensAreWords(ws);
    TokensOfRender(WordTokens(ws));
    assert WordTokens(ws) + [] == WordTokens(ws);
    ParseCmdTokensTooMany(ws, []);
  }

  /** `parsecmd` on the buffer "a &\n" that `fgets` leaves behind: once the
      newline is skipped as whitespace the '&' is last, so the line is
      refused. */
  method TrailingAmpBuffer() returns (r: Result<Cmd>)
    ensures r == Err(TrailingAmp)
  {
    var buf := "a &\n";
    assert NoNul(buf);
    StrlenOfNoNul(buf);
    assert buf[..Strlen(buf)] == buf;
    assert Tokens(buf, 3) == [];
    assert Tokens(buf, 2) == [Amp];
    assert WordEnd(buf, 0) == 1 && buf[0..1] == "a";
    assert Tokens(buf, 0) == [Word("a"), Amp];
    assert WordTokens(["a"]) + ([Amp] + []) == Tokens(buf, 0);
    ParseCmdTokensTrailingAmp(["a"], []);
    r := ParseCmd(buf);
  }
}
