/** The recursive-descent parser of lab.c:253-318 as it runs: `parseexec`,
    `parseline` and `parsecmd` walk the line with a cursor, as the C code
    does with `char **ps`; each takes the cursor's position and returns its
    new one. Every method is proved to compute the Grammar function of the
    tokens from its starting position, so the lemmas of Grammar hold of it. */
module Parser {
  import opened CmdTree
  import opened Lexer
  import opened Grammar

  /** The words read before the end of the line, or before a ';' or '&',
      are what the reference `parseexec` reads. */
  lemma ParseExecEnds(line: String, ps: nat, words: seq<String>, next: nat)
    requires ps <= |line| && next <= |line| && SkipWhitespace(line, next) == next
    requires next == |line| || line[next] in "&;"
    requires |words| < MAXARGS && Tokens(line, ps) == WordTokens(words) + Tokens(line, next)
    ensures ParseExecTokens(Tokens(line, ps)) == Ok((Exec(ArgvOf(words)), Tokens(line, next)))
  {
    ParseExecTokensOfWords(words, Tokens(line, next));
  }

  /** Reading one more word keeps the words read and the tokens still to
      come together equal to the tokens of the line, and the MAXARGS-th word
      read is the reference parser's error. */
  lemma ParseExecStep(line: String, ps: nat, words: seq<String>, cur: nat, word: String, next: nat)
    requires ps <= |line| && cur <= |line| && next <= |line| && |words| < MAXARGS
    requires Tokens(line, ps) == WordTokens(words) + Tokens(line, cur)
    requires Tokens(line, cur) == [Word(word)] + Tokens(line, next)
    ensures Tokens(line, ps) == WordTokens(words + [word]) + Tokens(line, next)
    ensures ArgvOf(words)[|words| := Some(word)] == ArgvOf(words + [word])
    ensures |words| + 1 >= MAXARGS ==> ParseExecTokens(Tokens(line, ps)) == Err(TooManyArgs)
  {
    ArgvOfSnoc(words, word);
    WordTokensSnoc(words, word, Tokens(line, next));
    if |words| + 1 >= MAXARGS {
      ParseExecTokensTooMany(words + [word], Tokens(line, next));
    }
  }

  /** `parseexec`: words up to the next ';', '&' or the end, into the argv
      slots of a fresh exec node. The syntax-error branch is kept as in the
      source and proved unreachable: `peek` has excluded ';' and '&', and
      `gettoken` returns nothing else besides a word and the end. */
  method ParseExec(line: String, ps: nat) returns (r: Result<Cmd>, next: nat)
    requires NoNul(line) && ps <= |line|
    ensures ps <= next <= |line|
    ensures ParseExecTokens(Tokens(line, ps))
         == if r.Ok? then Ok((r.value, Tokens(line, next))) else Err(r.error)
    ensures r.Err? ==> r.error == TooManyArgs
    ensures r.Ok? ==> SkipWhitespace(line, next) == next
    ensures r.Ok? ==> next == |line| || IsSymbol(line[next])
  {
    var cmd := ExecCmd();
    var argc := 0;
    ghost var words: seq<String> := [];
    var stop;
    stop, next := Peek(line, ps, "&;");
    while !stop
      invariant ps <= next <= |line| && SkipWhitespace(line, next) == next
      invariant stop <==> next < |line| && line[next] in "&;"
      invariant argc == |words| < MAXARGS
      invariant cmd == Exec(ArgvOf(words))
      invariant Tokens(line, ps) == WordTokens(words) + Tokens(line, next)
      decreases |line| - next
    {
      var tok, q, eq;
      ghost var cur := next;
      tok, q, eq, next := GetToken(line, next);
      if tok == '\0' {
        break;
      }
      if tok != 'a' {
        r := Err(SyntaxError);
        return;
      }
      var word := MkCopy(line, q, eq);
      ParseExecStep(line, ps, words, cur, word, next);
      cmd := cmd.(argv := cmd.argv[argc := Some(word)]);
      argc := argc + 1;
      words := words + [word];
      if argc >= MAXARGS {
        r := Err(TooManyArgs);
        return;
      }
      stop, next := Peek(line, next, "&;");
    }
    cmd := cmd.(argv := cmd.argv[argc := None]);
    ArgvOfTerminated(words);
    ParseExecEnds(line, ps, words, next);
    r := Ok(cmd);
  }

  /** The reference `parseline` after an exec that stops in front of ';'
      goes on with the line after the ';'. */
  lemma ParseLineSemi(line: String, ps: nat, mid: nat, after: nat)
    requires ps <= |line| && mid <= |line| && after <= |line|
    requires ParseExecTokens(Tokens(line, ps)).Ok?
    requires ParseExecTokens(Tokens(line, ps)).value.1 == Tokens(line, mid)
    requires Tokens(line, mid) == [Semi] + Tokens(line, after)
    ensures ParseLineTokens(Tokens(line, ps))
         == Extend(ParseExecTokens(Tokens(line, ps)).value.0, Semi, ParseLineTokens(Tokens(line, after)))
  {
    assert Tokens(line, mid)[1..] == Tokens(line, after);
  }

  /** The reference `parseline` after an exec that stops in front of '&':
      the trailing-'&' error when the '&' is followed by nothing or by ';',
      and otherwise the line after the '&'. */
  lemma ParseLineAmp(line: String, ps: nat, mid: nat, after: nat)
    requires ps <= |line| && mid <= |line| && after <= |line|
    requires SkipWhitespace(line, after) == after
    requires ParseExecTokens(Tokens(line, ps)).Ok?
    requires ParseExecTokens(Tokens(line, ps)).value.1 == Tokens(line, mid)
    requires Tokens(line, mid) == [Amp] + Tokens(line, after)
    ensures ParseLineTokens(Tokens(line, ps))
         == if after == |line| || line[after] == ';' then Err(TrailingAmp)
            else Extend(ParseExecTokens(Tokens(line, ps)).value.0, Amp, ParseLineTokens(Tokens(line, after)))
  {
    assert Tokens(line, mid)[1..] == Tokens(line, after);
  }

  /** The reference `parseline` after an exec that reaches the end. */
  lemma ParseLineEnd(line: String, ps: nat)
    requires ps <= |line|
    requires ParseExecTokens(Tokens(line, ps)).Ok?
    requires ParseExecTokens(Tokens(line, ps)).value.1 == Tokens(line, |line|)
    ensures ParseLineTokens(Tokens(line, ps)) == Ok((ParseExecTokens(Tokens(line, ps)).value.0, []))
  {
    assert Tokens(line, |line|) == [];
  }

  /** `parseline`: an exec, then on ';' a sequential node and on '&' a
      parallel node whose right side is the rest of the line, read by a
      recursive call; an '&' followed only by whitespace, or by ';', is the
      trailing-'&' error. A line it accepts is read to its end. */
  method ParseLine(line: String, ps: nat) returns (r: Result<Cmd>, next: nat)
    requires NoNul(line) && ps <= |line|
    ensures ps <= next <= |line|
    ensures ParseLineTokens(Tokens(line, ps))
         == if r.Ok? then Ok((r.value, Tokens(line, next))) else Err(r.error)
    ensures r.Ok? ==> next == |line|
    decreases |line| - ps
  {
    var cmd;
    cmd, next := ParseExec(line, ps);
    if cmd.Err? {
      return cmd, next;
    }
    var isSemi, isAmp;
    isSemi, next := Peek(line, next, ";");
    if isSemi {
      var tok, q, eq;
      ghost var mid := next;
      tok, q, eq, next := GetToken(line, next);
      ParseLineSemi(line, ps, mid, next);
      var right;
      right, next := ParseLine(line, next);
      if right.Err? {
        return right, next;
      }
      r := Ok(SequentialCmd(cmd.value, right.value));
      return;
    }
    isAmp, next := Peek(line, next, "&");
    if isAmp {
      var tok, q, eq;
      ghost var mid := next;
      tok, q, eq, next := GetToken(line, next);
      ParseLineAmp(line, ps, mid, next);
      if next == |line| || CharAt(line, next) == ';' {
        r := Err(TrailingAmp);
        return;
      }
      var right;
      right, next := ParseLine(line, next);
      if right.Err? {
        return right, next;
      }
      r := Ok(ParallelCmd(cmd.value, right.value));
      return;
    }
    ParseLineEnd(line, ps);
    r := cmd;
  }

  /** `strlen`: the length of the C string held in `buf`. */
  function Strlen(buf: String): (n: nat)
    ensures n <= |buf| && NoNul(buf[..n])
    ensures n < |buf| ==> buf[n] == '\0'
  {
    if buf == [] || buf[0] == '\0' then 0
    else
      var n := 1 + Strlen(buf[1..]);
      assert buf[..n] == [buf[0]] + buf[1..][..n - 1];
      n
  }

  /** A buffer without NUL is a C string of its full length. */
  lemma {:induction false} StrlenOfNoNul(buf: String)
    requires NoNul(buf)
    ensures Strlen(buf) == |buf|
  {
    if buf != [] {
      assert NoNul(buf[1..]);
      StrlenOfNoNul(buf[1..]);
    }
  }

  /** `parsecmd`: parse the C string in `buf` as one line, then check that
      nothing but whitespace is left. That check never fails, and neither
      does the syntax check of `parseexec`. */
  method ParseCmd(buf: String) returns (r: Result<Cmd>)
    ensures r == ParseCmdTokens(Tokens(buf[..Strlen(buf)], 0))
    ensures r.Err? ==> r.error == TooManyArgs || r.error == TrailingAmp
    ensures forall c :: r == Ok(c) <==> Canonical(c) && Unparse(c) == Tokens(buf[..Strlen(buf)], 0)
  {
    var es := Strlen(buf);
    var line := buf[..es];
    ParseCmdTokensExactly(Tokens(line, 0));
    var cmd, s := ParseLine(line, 0);
    if cmd.Err? {
      return cmd;
    }
    var found;
    found, s := Peek(line, s, "");
    if s != es {
      r := Err(Leftovers);
      return;
    }
    r := cmd;
  }

  /** Printing a tree the parser can build, each token followed by a space,
      gives a line that `parsecmd` parses back to the same tree. */
  lemma ParseCmdOfRender(c: Cmd)
    requires Canonical(c) && WordsAreWords(Unparse(c))
    ensures ParseCmdTokens(Tokens(Render(Unparse(c)), 0)) == Ok(c)
  {
    TokensOfRender(Unparse(c));
    ParseCmdTokensRoundTrip(Unparse(c), c);
  }
}
