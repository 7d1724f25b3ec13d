/** The tokenizer of the shell (lab.c:186-251): the character classes, a
    functional reference tokenizer, and the pointer-walking routines
    `gettoken`, `peek` and `mkcopy`. A line is the text from the start of the
    buffer up to `es`; a position in it plays the part of the cursor `*ps`,
    and reading at `es` yields the terminating NUL. */
module Lexer {
  import opened CmdTree

  /** `strchr(whitespace, c)` for a character `c` other than NUL. */
  predicate IsWhitespace(c: char)
  {
    c == ' ' || c == '\t' || c == '\r' || c == '\n' || c == '\U{B}'
  }

  /** `strchr(symbols, c)` for a character `c` other than NUL. */
  predicate IsSymbol(c: char)
  {
    c == '&' || c == ';'
  }

  /** The whitespace class is exactly the characters of `whitespace[]`
      (lab.c:188), and the symbol class exactly those of `symbols[]`
      (lab.c:189); the two are disjoint. */
  lemma CharClasses(c: char)
    ensures IsWhitespace(c) <==> c in " \t\r\n\U{B}"
    ensures IsSymbol(c) <==> c in "&;"
    ensures !(IsWhitespace(c) && IsSymbol(c))
  {
  }

  /** A character that may appear inside a word token. */
  predicate IsWordChar(c: char)
  {
    !IsWhitespace(c) && !IsSymbol(c)
  }

  /** A C string's contents: no NUL before its end. */
  predicate NoNul(line: String)
  {
    forall k | 0 <= k < |line| :: line[k] != '\0'
  }

  /** `*s` for a cursor inside the line or at its terminator. */
  function CharAt(line: String, i: nat): (c: char)
    requires i <= |line|
    ensures i < |line| ==> c == line[i]
    ensures NoNul(line) ==> (c == '\0' <==> i == |line|)
  {
    if i < |line| then line[i] else '\0'
  }

  /** The first position at or after `i` that is the end or not whitespace. */
  function SkipWhitespace(line: String, i: nat): (j: nat)
    requires i <= |line|
    ensures i <= j <= |line|
    ensures forall k | i <= k < j :: IsWhitespace(line[k])
    ensures j == |line| || !IsWhitespace(line[j])
    decreases |line| - i
  {
    if i < |line| && IsWhitespace(line[i]) then SkipWhitespace(line, i + 1) else i
  }

  /** The end of the maximal run of word characters starting at `i`. */
  function WordEnd(line: String, i: nat): (j: nat)
    requires i <= |line|
    ensures i <= j <= |line|
    ensures forall k | i <= k < j :: IsWordChar(line[k])
    ensures j == |line| || !IsWordChar(line[j])
    decreases |line| - i
  {
    if i < |line| && IsWordChar(line[i]) then WordEnd(line, i + 1) else i
  }

  datatype Token = Word(text: String) | Semi | Amp

  /** A word as the tokenizer produces it: non-empty, word characters only. */
  predicate IsWord(w: String)
  {
    |w| > 0 && forall k | 0 <= k < |w| :: IsWordChar(w[k])
  }

  /** Every word token in `toks` is a non-empty run of word characters. */
  predicate WordsAreWords(toks: seq<Token>)
  {
    toks != [] ==> (toks[0].Word? ==> IsWord(toks[0].text)) && WordsAreWords(toks[1..])
  }

  /** Reference tokenizer: the tokens of the line from position `i` on.
      Whitespace separates tokens, ';' and '&' are tokens by themselves and
      every maximal run of other characters is a word. */
  function Tokens(line: String, i: nat): seq<Token>
    requires i <= |line|
    decreases |line| - i
  {
    if i == |line| then []
    else if IsWhitespace(line[i]) then Tokens(line, i + 1)
    else if line[i] == ';' then [Semi] + Tokens(line, i + 1)
    else if line[i] == '&' then [Amp] + Tokens(line, i + 1)
    else
      var e := WordEnd(line, i);
      [Word(line[i..e])] + Tokens(line, e)
  }

  /** Each token takes at least one character of the line, so there are at
      most as many tokens as characters. */
  lemma {:induction false} TokensLength(line: String, i: nat)
    requires i <= |line|
    ensures |Tokens(line, i)| <= |line| - i
    decreases |line| - i
  {
    if i < |line| {
      var e := if IsWhitespace(line[i]) || IsSymbol(line[i]) then i + 1 else WordEnd(line, i);
      TokensLength(line, e);
    }
  }

  /** Every word token is a non-empty run of word characters. */
  lemma {:induction false} TokensAreWords(line: String, i: nat)
    requires i <= |line|
    ensures WordsAreWords(Tokens(line, i))
    decreases |line| - i
  {
    if i < |line| {
      var e := if IsWhitespace(line[i]) || IsSymbol(line[i]) then i + 1 else WordEnd(line, i);
      TokensAreWords(line, e);
      if !IsWhitespace(line[i]) {
        var t := Tokens(line, i);
        assert t[1..] == Tokens(line, e);
      }
    }
  }

  /** Skipping whitespace does not change the tokens still to come. */
  lemma {:induction false} TokensAfterSkip(line: String, i: nat)
    requires i <= |line|
    ensures Tokens(line, SkipWhitespace(line, i)) == Tokens(line, i)
    decreases |line| - i
  {
    if i < |line| && IsWhitespace(line[i]) {
      TokensAfterSkip(line, i + 1);
    }
  }

  /** The text of a token. */
  function TokenText(t: Token): String
  {
    match t
    case Word(w) => w
    case Semi => ";"
    case Amp => "&"
  }

  /** A line that spells out `toks`, each token followed by one space. */
  function Render(toks: seq<Token>): (line: String)
    ensures |line| >= |toks|
  {
    if toks == [] then [] else TokenText(toks[0]) + ([' '] + Render(toks[1..]))
  }

  /** A word followed by a non-word character ends where the word does. */
  lemma {:induction false} WordEndOfWord(line: String, i: nat, n: nat)
    requires i + n <= |line|
    requires forall k | i <= k < i + n :: IsWordChar(line[k])
    requires i + n == |line| || !IsWordChar(line[i + n])
    ensures WordEnd(line, i) == i + n
    decreases n
  {
    if n > 0 {
      WordEndOfWord(line, i + 1, n - 1);
    }
  }

  /** Tokenizing a rendered line gives the tokens back, provided every word
      is one the tokenizer reads as a single word. */
  lemma TokensOfRender(toks: seq<Token>)
    requires WordsAreWords(toks)
    ensures Tokens(Render(toks), 0) == toks
  {
    TokensOfRenderAt(Render(toks), 0, toks);
  }

  /** Rendering the tokens of a line gives a line with the same tokens:
      only the whitespace between them may differ. */
  lemma RenderNormalizes(line: String, i: nat)
    requires i <= |line|
    ensures Tokens(Render(Tokens(line, i)), 0) == Tokens(line, i)
  {
    TokensAreWords(line, i);
    TokensOfRender(Tokens(line, i));
  }

  /** TokensOfRender for a rendering that starts at position `i` of a line. */
  lemma {:induction false} TokensOfRenderAt(line: String, i: nat, toks: seq<Token>)
    requires i <= |line| && line[i..] == Render(toks)
    requires WordsAreWords(toks)
    ensures Tokens(line, i) == toks
    decreases toks
  {
    if toks == [] {
      TokensOfRenderNil(line, i);
    } else {
      var j := RenderStep(line, i, toks);
      TokensOfRenderAt(line, j, toks[1..]);
      ConsSplit(toks);
    }
  }

  /** A rendering of no tokens is the end of the line. */
  lemma TokensOfRenderNil(line: String, i: nat)
    requires i <= |line| && line[i..] == Render([])
    ensures Tokens(line, i) == []
  {
    assert |line[i..]| == 0;
  }

  /** A non-empty sequence is its head in front of its tail. */
  lemma ConsSplit<T>(s: seq<T>)
    requires s != []
    ensures s == [s[0]] + s[1..]
  {
  }

  /** One step of TokensOfRenderAt: the first token is read back, and the
      rest of the line, from `j` on, renders the rest of the tokens. */
  lemma RenderStep(line: String, i: nat, toks: seq<Token>) returns (j: nat)
    requires toks != [] && i <= |line| && line[i..] == Render(toks)
    requires WordsAreWords(toks)
    ensures j <= |line|
    ensures Tokens(line, i) == [toks[0]] + Tokens(line, j)
    ensures line[j..] == Render(toks[1..])
    ensures WordsAreWords(toks[1..])
  {
    RenderSplit(line, i, toks);
    j := TokenAt(line, i, toks[0]);
  }

  /** A rendering is the first token's text, a space, and the rendering of
      the rest. */
  lemma RenderSplit(line: String, i: nat, toks: seq<Token>)
    requires toks != [] && i <= |line| && line[i..] == Render(toks)
    ensures var n := |TokenText(toks[0])|;
      && i + n + 1 <= |line|
      && line[i..i + n] == TokenText(toks[0])
      && line[i + n] == ' '
      && line[i + n + 1..] == Render(toks[1..])
  {
    SpaceAfter(line, i, TokenText(toks[0]), Render(toks[1..]));
  }

  /** The parts of a line that reads `w`, a space and `rest` from `i` on. */
  lemma SpaceAfter(line: String, i: nat, w: String, rest: String)
    requires i <= |line| && line[i..] == w + ([' '] + rest)
    ensures i + |w| + 1 <= |line|
    ensures line[i..i + |w|] == w && line[i + |w|] == ' ' && line[i + |w| + 1..] == rest
  {
    var r := line[i..];
    assert line[i..i + |w|] == r[..|w|];
    assert line[i + |w|] == r[|w|];
    assert line[i + |w| + 1..] == r[|w| + 1..];
  }

  /** A token's text followed by a space, read at position `i`, is that
      token, and tokenizing goes on after the space. */
  lemma TokenAt(line: String, i: nat, t: Token) returns (j: nat)
    requires i + |TokenText(t)| < |line|
    requires line[i..i + |TokenText(t)|] == TokenText(t)
    requires line[i + |TokenText(t)|] == ' '
    requires t.Word? ==> IsWord(t.text)
    ensures j == i + |TokenText(t)| + 1
    ensures Tokens(line, i) == [t] + Tokens(line, j)
  {
    var n := |TokenText(t)|;
    j := i + n + 1;
    assert line[i] == TokenText(t)[0];
    if t.Word? {
      assert forall k | i <= k < i + n :: line[k] == t.text[k - i];
      WordEndOfWord(line, i, n);
    }
  }

  /** The token that `gettoken`'s result `ret` and its text stand for. */
  function TokenOf(ret: char, text: String): Token
  {
    if ret == ';' then Semi else if ret == '&' then Amp else Word(text)
  }

  /** The loop `while(s < es && strchr(whitespace, *s)) s++;` that both
      `gettoken` and `peek` run: it stops at the end of the line or at the
      first character that is not whitespace, and the tokens from there on
      are the tokens from `s` on. */
  method SkipSpaces(line: String, s: nat) returns (t: nat)
    requires NoNul(line) && s <= |line|
    ensures t == SkipWhitespace(line, s)
    ensures Tokens(line, t) == Tokens(line, s)
  {
    t := s;
    while t < |line| && IsWhitespace(line[t])
      invariant s <= t <= |line|
      invariant SkipWhitespace(line, t) == SkipWhitespace(line, s)
      invariant Tokens(line, t) == Tokens(line, s)
    {
      t := t + 1;
    }
  }

  /** `gettoken`: skip whitespace, classify the next token, skip the
      whitespace after it. `q`, `eq` delimit the token, `next` is the new `*ps`. */
  method GetToken(line: String, ps: nat) returns (ret: char, q: nat, eq: nat, next: nat)
    requires NoNul(line) && ps <= |line|
    ensures ret == '\0' || ret == ';' || ret == '&' || ret == 'a'
    ensures q == SkipWhitespace(line, ps)
    ensures ret == '\0' <==> q == |line|
    ensures ret == ';' <==> q < |line| && line[q] == ';'
    ensures ret == '&' <==> q < |line| && line[q] == '&'
    ensures ret == '\0' ==> eq == q
    ensures ret == ';' || ret == '&' ==> eq == q + 1
    ensures ret == 'a' ==> q < eq <= |line| && IsWord(line[q..eq])
    ensures ret == 'a' ==> eq == |line| || !IsWordChar(line[eq])
    ensures ps <= next <= |line| && next == SkipWhitespace(line, eq)
    ensures next == |line| || !IsWhitespace(line[next])
    ensures Tokens(line, ps) == if ret == '\0' then [] else [TokenOf(ret, line[q..eq])] + Tokens(line, next)
  {
    var s := SkipSpaces(line, ps);
    q := s;
    ret := CharAt(line, s);
    if ret == '\0' {
    } else if ret == ';' || ret == '&' {
      s := s + 1;
    } else {
      ret := 'a';
      while s < |line| && !IsWhitespace(line[s]) && !IsSymbol(line[s])
        invariant q <= s <= |line|
        invariant WordEnd(line, s) == WordEnd(line, q)
      {
        s := s + 1;
      }
    }
    eq := s;
    next := SkipSpaces(line, eq);
  }

  /** `peek`: skip whitespace and report whether the next character is one
      of `toks`. It consumes whitespace only, so peeking again at `next`
      moves nowhere and gives the same answer. */
  method Peek(line: String, ps: nat, toks: String) returns (found: bool, next: nat)
    requires NoNul(line) && ps <= |line|
    ensures next == SkipWhitespace(line, ps)
    ensures ps <= next <= |line|
    ensures next == |line| || !IsWhitespace(line[next])
    ensures SkipWhitespace(line, next) == next
    ensures Tokens(line, next) == Tokens(line, ps)
    ensures found <==> next < |line| && line[next] in toks
  {
    next := SkipSpaces(line, ps);
    found := CharAt(line, next) != '\0' && CharAt(line, next) in toks;
  }

  /** `mkcopy`: a new string holding the characters from `s` up to `es`. */
  method MkCopy(line: String, s: nat, es: nat) returns (c: String)
    requires NoNul(line) && s <= es <= |line|
    ensures |c| == es - s
    ensures c == line[s..es]
  {
    var n := es - s;
    var buf := new char[n + 1];
    forall k | 0 <= k < n {
      buf[k] := line[s + k];
    }
    buf[n] := '\0';
    c := buf[..n];
    assert c == line[s..es];
  }
}
