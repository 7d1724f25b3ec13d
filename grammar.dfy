/** The grammar the recursive-descent parser of lab.c:253-318 recognises,
    stated on token sequences:

      line := exec ( (';' | '&') line )?
      exec := word*          -- at most MAXARGS - 1 words

    The functions compute what the parser computes: the same tree and the
    same first error on every token sequence, which is what lets the
    imperative parser be proved equal to them. `ParseExecTokens` counts the
    leading words at once instead of word by word, and it has no
    syntax-error case, since that check of `parseexec` cannot fail. The
    lemmas then say what language the functions accept and that the tree
    they build gives back its tokens. */
module Grammar {
  import opened CmdTree
  import opened Lexer

  /** The tokens of a sequence of words. */
  function WordTokens(ws: seq<String>): (toks: seq<Token>)
    ensures |toks| == |ws|
  {
    if ws == [] then [] else [Word(ws[0])] + WordTokens(ws[1..])
  }

  /** The tokens of words the tokenizer reads as single words. */
  lemma {:induction false} WordTokensAreWords(ws: seq<String>)
    requires forall i | 0 <= i < |ws| :: IsWord(ws[i])
    ensures WordsAreWords(WordTokens(ws))
  {
    if ws != [] {
      WordTokensAreWords(ws[1..]);
      assert WordTokens(ws)[1..] == WordTokens(ws[1..]);
    }
  }

  /** Reading one more word moves it from the tokens still to come to the
      words read. */
  lemma WordTokensSnoc(ws: seq<String>, w: String, rest: seq<Token>)
    ensures WordTokens(ws) + ([Word(w)] + rest) == WordTokens(ws + [w]) + rest
  {
    WordTokensAppendOne(ws, w);
  }

  lemma {:induction false} WordTokensAppendOne(ws: seq<String>, w: String)
    ensures WordTokens(ws + [w]) == WordTokens(ws) + [Word(w)]
  {
    if ws != [] {
      assert (ws + [w])[1..] == ws[1..] + [w];
      WordTokensAppendOne(ws[1..], w);
    }
  }

  /** The words in front of the first separator. */
  function LeadingWords(toks: seq<Token>): (ws: seq<String>)
    ensures |ws| <= |toks|
  {
    if toks != [] && toks[0].Word? then [toks[0].text] + LeadingWords(toks[1..]) else []
  }

  /** A word in front adds itself in front of the leading words. */
  lemma LeadingWordsCons(w: String, toks: seq<Token>)
    ensures LeadingWords([Word(w)] + toks) == [w] + LeadingWords(toks)
  {
    assert ([Word(w)] + toks)[1..] == toks;
  }

  /** Words read in front of `rest` come first among the leading words. */
  lemma {:induction false} LeadingWordsAppend(ws: seq<String>, rest: seq<Token>)
    ensures LeadingWords(WordTokens(ws) + rest) == ws + LeadingWords(rest)
    decreases |ws|
  {
    if ws != [] {
      LeadingWordsAppend(ws[1..], rest);
      LeadingWordsAppendStep(ws, rest);
    } else {
      assert WordTokens(ws) + rest == rest;
    }
  }

  /** The induction step of LeadingWordsAppend. */
  lemma LeadingWordsAppendStep(ws: seq<String>, rest: seq<Token>)
    requires ws != []
    requires LeadingWords(WordTokens(ws[1..]) + rest) == ws[1..] + LeadingWords(rest)
    ensures LeadingWords(WordTokens(ws) + rest) == ws + LeadingWords(rest)
  {
    var tail := WordTokens(ws[1..]) + rest;
    assert WordTokens(ws) + rest == [Word(ws[0])] + tail;
    LeadingWordsCons(ws[0], tail);
    assert ws == [ws[0]] + ws[1..];
  }

  /** A token sequence is its leading words followed by the rest. */
  lemma {:induction false} LeadingWordsSplit(toks: seq<Token>)
    ensures toks == WordTokens(LeadingWords(toks)) + toks[|LeadingWords(toks)|..]
    ensures |LeadingWords(toks)| == |toks| || !toks[|LeadingWords(toks)|].Word?
  {
    if toks != [] && toks[0].Word? {
      LeadingWordsSplit(toks[1..]);
    }
  }

  /** `parseexec`: an exec node holding the leading words, and the tokens
      after them; reading the MAXARGS-th word is the "too many args" error. */
  function ParseExecTokens(toks: seq<Token>): (r: Result<(Cmd, seq<Token>)>)
    ensures r.Err? ==> r.error == TooManyArgs
  {
    var ws := LeadingWords(toks);
    if |ws| >= MAXARGS then Err(TooManyArgs)
    else Ok((ExecCmd().(argv := ArgvOf(ws)), toks[|ws|..]))
  }

  /** What `parseexec` reads: it fails exactly when there are MAXARGS or more
      leading words; otherwise its exec node holds those words, null-terminated,
      and the tokens it leaves start with a separator or are none. */
  lemma ParseExecTokensMeaning(toks: seq<Token>)
    ensures var r := ParseExecTokens(toks);
      && (r.Err? <==> |LeadingWords(toks)| >= MAXARGS)
      && (r.Ok? ==> (|LeadingWords(toks)| < MAXARGS
        && r.value.0 == Exec(ArgvOf(LeadingWords(toks)))
        && toks == WordTokens(LeadingWords(toks)) + r.value.1
        && (r.value.1 == [] || !r.value.1[0].Word?)
        && ArgWords(r.value.0.argv) == LeadingWords(toks)
        && r.value.0.argv[|LeadingWords(toks)|] == None))
  {
    var ws := LeadingWords(toks);
    LeadingWordsSplit(toks);
    if |ws| < MAXARGS {
      ArgWordsOfArgv(ws);
    }
  }

  /** The node `exec sep right` once the right side has been parsed; an
      error on the right side is passed on. */
  function Extend(exec: Cmd, sep: Token, right: Result<(Cmd, seq<Token>)>): Result<(Cmd, seq<Token>)>
  {
    match right
    case Err(e) => Err(e)
    case Ok((c, rest)) => Ok((if sep == Semi then SequentialCmd(exec, c) else ParallelCmd(exec, c), rest))
  }

  /** `parseline`: an exec, then either ';' and a line (a sequential node),
      or '&' and a line (a parallel node), or nothing more. An '&' with no
      token after it, or with ';' right after it, is an error. Returns the
      tree and the tokens left over. */
  function ParseLineTokens(toks: seq<Token>): (r: Result<(Cmd, seq<Token>)>)
    ensures r.Err? ==> r.error == TooManyArgs || r.error == TrailingAmp
    decreases |toks|
  {
    match ParseExecTokens(toks)
    case Err(e) => Err(e)
    case Ok((exec, rest)) =>
      if rest != [] && rest[0] == Semi then Extend(exec, Semi, ParseLineTokens(rest[1..]))
      else if rest != [] && rest[0] == Amp then
        if rest[1..] == [] || rest[1] == Semi then Err(TrailingAmp)
        else Extend(exec, Amp, ParseLineTokens(rest[1..]))
      else Ok((exec, rest))
  }

  /** `parsecmd`: a line, and then nothing may be left over. */
  function ParseCmdTokens(toks: seq<Token>): Result<Cmd>
  {
    match ParseLineTokens(toks)
    case Err(e) => Err(e)
    case Ok((c, rest)) => if rest != [] then Err(Leftovers) else Ok(c)
  }

  /** The tokens a tree stands for. */
  function Unparse(c: Cmd): seq<Token>
  {
    match c
    case Exec(argv) => WordTokens(ArgWords(argv))
    case Sequential(l, r) => Unparse(l) + ([Semi] + Unparse(r))
    case Parallel(l, r) => Unparse(l) + ([Amp] + Unparse(r))
  }

  /** The trees the parser can build: every exec node holds fewer than
      MAXARGS words followed by null slots, every left child is an exec node
      (right associativity), and the right side of '&' is not empty and does
      not start with ';'. */
  predicate Canonical(c: Cmd)
  {
    match c
    case Exec(argv) => |ArgWords(argv)| < MAXARGS && argv == ArgvOf(ArgWords(argv))
    case Sequential(l, r) => l.Exec? && Canonical(l) && Canonical(r)
    case Parallel(l, r) =>
      l.Exec? && Canonical(l) && Canonical(r) && Unparse(r) != [] && Unparse(r)[0] != Semi
  }

  /** The exec node built from fewer than MAXARGS words is canonical and
      stands for exactly those words. */
  lemma ExecOfWords(ws: seq<String>)
    requires |ws| < MAXARGS
    ensures Canonical(Exec(ArgvOf(ws)))
    ensures Unparse(Exec(ArgvOf(ws))) == WordTokens(ws)
  {
    ArgWordsOfArgv(ws);
  }

  /** `parseexec` on fewer than MAXARGS words followed by a separator or
      by nothing reads exactly those words. */
  lemma ParseExecTokensOfWords(ws: seq<String>, rest: seq<Token>)
    requires |ws| < MAXARGS
    requires rest == [] || !rest[0].Word?
    ensures ParseExecTokens(WordTokens(ws) + rest) == Ok((Exec(ArgvOf(ws)), rest))
  {
    var toks := WordTokens(ws) + rest;
    LeadingWordsAppend(ws, rest);
    assert LeadingWords(rest) == [];
    assert LeadingWords(toks) == ws + [] == ws;
    assert toks[|ws|..] == rest;
  }

  /** `parseexec` fails once MAXARGS words have been read. */
  lemma ParseExecTokensTooMany(ws: seq<String>, rest: seq<Token>)
    requires |ws| >= MAXARGS
    ensures ParseExecTokens(WordTokens(ws) + rest) == Err(TooManyArgs)
  {
    LeadingWordsAppend(ws, rest);
  }

  /** `parseline` on an exec alone returns that exec. */
  lemma ParseLineTokensEnd(ws: seq<String>)
    requires |ws| < MAXARGS
    ensures ParseLineTokens(WordTokens(ws)) == Ok((Exec(ArgvOf(ws)), []))
  {
    ParseExecTokensOfWords(ws, []);
    assert WordTokens(ws) + [] == WordTokens(ws);
  }

  /** `parseline` on an exec followed by ';' goes on with the tokens after it. */
  lemma ParseLineTokensSemi(ws: seq<String>, t: seq<Token>)
    requires |ws| < MAXARGS
    ensures ParseLineTokens(WordTokens(ws) + ([Semi] + t))
         == Extend(Exec(ArgvOf(ws)), Semi, ParseLineTokens(t))
  {
    ParseExecTokensOfWords(ws, [Semi] + t);
    assert ([Semi] + t)[1..] == t;
  }

  /** `parseline` on an exec followed by '&': the trailing-'&' error when
      nothing or a ';' follows, and otherwise it goes on with the tokens
      after the '&'. */
  lemma ParseLineTokensAmp(ws: seq<String>, t: seq<Token>)
    requires |ws| < MAXARGS
    ensures ParseLineTokens(WordTokens(ws) + ([Amp] + t))
         == if t == [] || t[0] == Semi then Err(TrailingAmp)
            else Extend(Exec(ArgvOf(ws)), Amp, ParseLineTokens(t))
  {
    ParseExecTokensOfWords(ws, [Amp] + t);
    assert ([Amp] + t)[1..] == t;
  }

  /** Joining an exec of fewer than MAXARGS words to a canonical tree with
      ';', or with '&' when that tree's tokens do not start with ';', gives a
      canonical tree that stands for the joined tokens. */
  lemma JoinCanonical(ws: seq<String>, sep: Token, c: Cmd)
    requires |ws| < MAXARGS && (sep == Semi || sep == Amp) && Canonical(c)
    requires sep == Amp ==> Unparse(c) != [] && Unparse(c)[0] != Semi
    ensures var n := if sep == Semi then Sequential(Exec(ArgvOf(ws)), c) else Parallel(Exec(ArgvOf(ws)), c);
      Canonical(n) && Unparse(n) == WordTokens(ws) + ([sep] + Unparse(c))
  {
    ExecOfWords(ws);
  }

  /** Whatever `parseline` accepts it consumes to the end; the tree it
      builds is canonical and stands for exactly the tokens it read. */
  lemma {:induction false} ParseLineTokensSound(toks: seq<Token>)
    requires ParseLineTokens(toks).Ok?
    ensures ParseLineTokens(toks).value.1 == []
    ensures Canonical(ParseLineTokens(toks).value.0)
    ensures Unparse(ParseLineTokens(toks).value.0) == toks
    decreases |toks|
  {
    ParseExecTokensMeaning(toks);
    var ws := LeadingWords(toks);
    var rest := ParseExecTokens(toks).value.1;
    if rest == [] {
      ExecOfWords(ws);
      ParseLineTokensEnd(ws);
      assert toks == WordTokens(ws) + [] == WordTokens(ws);
    } else {
      var t := rest[1..];
      assert rest == [rest[0]] + t;
      if rest[0] == Semi {
        ParseLineTokensSemi(ws, t);
      } else {
        ParseLineTokensAmp(ws, t);
      }
      ParseLineTokensSound(t);
      JoinCanonical(ws, rest[0], ParseLineTokens(t).value.0);
    }
  }

  /** Every canonical tree is what the parser builds from its own tokens. */
  lemma {:induction false} ParseLineTokensComplete(c: Cmd)
    requires Canonical(c)
    ensures ParseLineTokens(Unparse(c)) == Ok((c, []))
  {
    match c
    case Exec(argv) =>
      var ws := ArgWords(argv);
      assert c == Exec(ArgvOf(ws));
      ParseLineTokensEnd(ws);
    case Sequential(l, r) =>
      var ws := ArgWords(l.argv);
      assert l == Exec(ArgvOf(ws));
      assert Unparse(c) == WordTokens(ws) + ([Semi] + Unparse(r));
      ParseLineTokensComplete(r);
      ParseLineTokensSemi(ws, Unparse(r));
    case Parallel(l, r) =>
      var ws := ArgWords(l.argv);
      assert l == Exec(ArgvOf(ws));
      assert Unparse(c) == WordTokens(ws) + ([Amp] + Unparse(r));
      ParseLineTokensComplete(r);
      ParseLineTokensAmp(ws, Unparse(r));
  }

  /** `parsecmd` succeeds exactly on the token sequences of canonical trees,
      and then returns that tree: parsing and `Unparse` are inverse. */
  lemma ParseCmdTokensRoundTrip(toks: seq<Token>, c: Cmd)
    ensures ParseCmdTokens(toks) == Ok(c) <==> Canonical(c) && Unparse(c) == toks
  {
    if ParseCmdTokens(toks) == Ok(c) {
      ParseLineTokensSound(toks);
    }
    if Canonical(c) && Unparse(c) == toks {
      ParseLineTokensComplete(c);
    }
  }

  /** The trees `parsecmd` returns on a token sequence: exactly the one
      canonical tree that stands for it, and none when there is none. */
  lemma ParseCmdTokensExactly(toks: seq<Token>)
    ensures forall c :: ParseCmdTokens(toks) == Ok(c) <==> Canonical(c) && Unparse(c) == toks
  {
    forall c
      ensures ParseCmdTokens(toks) == Ok(c) <==> Canonical(c) && Unparse(c) == toks
    {
      ParseCmdTokensRoundTrip(toks, c);
    }
  }

  /** A command of MAXARGS words or more is refused, whatever follows it. */
  lemma ParseCmdTokensTooMany(ws: seq<String>, rest: seq<Token>)
    requires |ws| >= MAXARGS
    ensures ParseCmdTokens(WordTokens(ws) + rest) == Err(TooManyArgs)
  {
    ParseExecTokensTooMany(ws, rest);
  }

  /** A line of words alone is accepted exactly when it has fewer than
      MAXARGS of them, and is then the one exec node holding them. */
  lemma CommandOfWords(ws: seq<String>)
    ensures ParseCmdTokens(WordTokens(ws))
         == if |ws| < MAXARGS then Ok(Exec(ArgvOf(ws))) else Err(TooManyArgs)
  {
    if |ws| < MAXARGS {
      ParseLineTokensEnd(ws);
    } else {
      assert WordTokens(ws) + [] == WordTokens(ws);
      ParseCmdTokensTooMany(ws, []);
    }
  }

  /** An '&' after the first command, followed by nothing or by ';', is
      refused. */
  lemma ParseCmdTokensTrailingAmp(ws: seq<String>, t: seq<Token>)
    requires |ws| < MAXARGS && (t == [] || t[0] == Semi)
    ensures ParseCmdTokens(WordTokens(ws) + ([Amp] + t)) == Err(TrailingAmp)
  {
    ParseLineTokensAmp(ws, t);
  }

  /** The "leftovers" check of `parsecmd` never fires. */
  lemma ParseCmdTokensNoLeftovers(toks: seq<Token>)
    ensures ParseCmdTokens(toks) != Err(Leftovers)
  {
    if ParseLineTokens(toks).Ok? {
      ParseLineTokensSound(toks);
    }
  }
}
