# A verified model of the parser of a small xv6-style shell

`lab.c` is a simplified xv6 shell. It reads a line, turns it into a tree of
commands and runs the tree. This project models the part that turns a line
into a tree:

- the tokenizer `gettoken`, `peek` and `mkcopy`, with its whitespace and
  symbol sets;
- the recursive-descent parser `parseexec`, `parseline` and `parsecmd`;
- the node constructors `execcmd`, `sequential_cmd` and `parallel_cmd`.

The model then proves what language that parser accepts and what tree it
builds.

A node is either an exec node or a ';' or '&' node:

- An exec node holds `MAXARGS` = 10 argv slots, so a command can have at
  most nine words. The slots are modelled as `seq<Option<String>>`, and
  `None` is the null pointer.
- A ';' node runs its left side, then its right side. A '&' node runs both
  sides at once.

The model is organised in five modules:

- `CmdTree` holds the node type, the constructors and the parse errors. For
  each error it also gives the exit status and the output stream of its
  diagnostic.
- `Lexer` holds the two character classes and a reference tokenizer
  `Tokens`, written as a function. Beside it are the imperative routines
  `SkipSpaces`, `GetToken`, `Peek` and `MkCopy`.
  - Each routine works on the line and a cursor position. The position plays
    the part of `*ps`, and reading at the end of the line gives the
    terminating NUL.
  - `SkipSpaces`, `GetToken` and `Peek` are proved to agree with `Tokens`:
    the tokens they read or skip, followed by the tokens from the new
    cursor, are the tokens from the old one. `MkCopy` is proved to return
    exactly the characters between its two positions.
- `Grammar` restates the three parse routines as functions on token
  sequences. They compute the same result as the routines: the same tree,
  and the same first error. `ParseExecTokens` counts the leading words at
  once rather than one by one. It has no syntax-error case, because that
  check of `parseexec` can never fail. The module proves that parsing is
  the inverse of `Unparse` (the tokens a tree stands for) on exactly the
  trees the parser can build (`Canonical`).
- `Parser` holds the three parse routines as methods that walk the line
  with a cursor, as the C code does. Each method is proved to compute the
  corresponding `Grammar` function of the tokens from its starting position.
  So everything proved in `Grammar` also holds for the methods.
- `Scenarios` works out concrete lines:
  - `a;b;c` groups to the right;
  - a trailing '&' is refused;
  - '&' followed by ';' is refused;
  - `a & b` is a parallel node;
  - ten words are too many;
  - the `Parser.ParseCmd` method itself, given the buffer "a &\n", returns
    the trailing-'&' error.

What the proofs establish:

- `parseexec` refuses the tenth word (too many args).
- `parseline` refuses an '&' that is last on the line or comes right before
  ';'. It builds right-nested trees whose left sides are exec nodes.
- The two other error checks can never fire:
  - the "syntax error" check of `parseexec`;
  - the "leftovers" check of `parsecmd`.

  Both are kept in the methods as in the source, and proved unreachable.
- `parsecmd` accepts a line exactly when its tokens are the tokens of a
  canonical tree, and it then returns that tree.
- Printing such a tree with one space after each token gives a line that
  parses back to the same tree.

## Model

| member | source | states |
|---|---|---|
| CmdTree.ExecCmd | lab.c:149-158 | a new exec node has type ' ' and MAXARGS argv slots, every one the null pointer (the memset) |
| CmdTree.SequentialCmd | lab.c:173-184 | a new ';' node has type ';' and holds exactly the given left and right children |
| CmdTree.ParallelCmd | lab.c:160-171 | a new '&' node has type '&' and holds exactly the given left and right children |
| CmdTree.ArgvOf | lab.c:309-316 | the argv of an exec node that read the words ws: MAXARGS slots, ws in order in the first ones and null pointers after them |
| CmdTree.ArgvOfSnoc | lab.c:309-310 | storing a word in the first null slot gives the argv of the words with that word appended |
| CmdTree.ArgvOfTerminated | lab.c:316 | writing the null terminator after fewer than MAXARGS words leaves the argv unchanged, because that slot was already null |
| CmdTree.ArgWordsMeaning | lab.c:316 | the words a consumer of argv sees are the slots in front of the first null pointer, or all slots when there is none |
| CmdTree.ArgWordsOfArgv | lab.c:309-316 | an exec node built from fewer than MAXARGS words hands exactly those words on |
| CmdTree.ExitStatus | lab.c:262-314 | a record of the exit paths: the trailing-'&' error exits with status 0 (lines 281-282); leftovers, syntax error and too many args exit with -1 (lines 263-264, 306-307, 312-313) |
| CmdTree.DiagnosticStream | lab.c:262-314 | a record of where each diagnostic goes: stdout for the trailing '&' (printf, line 281), stderr for the other three (fprintf, lines 263, 306, 312); stdout goes with exit status 0 |
| CmdTree.Tag | lab.c:17-18 | the `type` field tells the three kinds apart: ' ' exactly for exec nodes, ';' exactly for sequential nodes, '&' exactly for parallel nodes (set at lines 156, 167, 180) |
| Lexer.CharClasses | lab.c:188-189 | the whitespace class is exactly the characters of `whitespace[]` (space, tab, CR, LF, VT), the symbol class exactly those of `symbols[]` ('&', ';'), and no character is in both |
| Lexer.CharAt | lab.c:202-204 | `*s` is the character at the cursor inside the line; on a line without NUL it is NUL exactly at the end `es` |
| Lexer.TokensLength | lab.c:191-223 | every token that repeated `gettoken` calls produce takes at least one character, so a line has at most as many tokens as characters |
| Lexer.SkipWhitespace | lab.c:198-199 | the first position from i on that is the end of the line or not whitespace; everything skipped is whitespace |
| Lexer.WordEnd | lab.c:212-213 | the end of the maximal run of characters that are neither whitespace nor symbols, starting at i |
| Lexer.TokensAreWords | lab.c:210-214 | every word token of a line is non-empty and holds only word characters |
| Lexer.TokensAfterSkip | lab.c:219-221 | skipping whitespace does not change the tokens still to come |
| Lexer.TokensOfRender | lab.c:191-223 | a token sequence whose words are real words, printed with one space after each token, tokenizes back to itself |
| Lexer.RenderNormalizes | lab.c:191-223 | printing the tokens of any line gives a line with the same tokens |
| Lexer.SkipSpaces | lab.c:231-232 | the whitespace loop stops where SkipWhitespace says, and the tokens from there on are the tokens from the start |
| Lexer.GetToken | lab.c:191-223 | returns 0 at the end, ';' or '&' for a symbol (one character long), or 'a' for a maximal word; q and eq delimit the token; the new cursor is past the following whitespace; the token and the tokens after the new cursor are exactly the tokens from the old cursor |
| Lexer.Peek | lab.c:225-235 | moves the cursor over whitespace only, keeping the tokens to come; returns true exactly when the next character exists and is one of toks |
| Lexer.MkCopy | lab.c:242-251 | the copy has length es - s and holds exactly the characters from s to es |
| Grammar.ParseExecTokens | lab.c:290-318 | the only error parseexec can return is too many args |
| Grammar.ParseExecTokensMeaning | lab.c:290-318 | parseexec fails exactly when there are MAXARGS or more leading words; otherwise its node holds those words null-terminated, hands them on as argv, and the tokens left start with ';' or '&' or are none |
| Grammar.ParseExecTokensOfWords | lab.c:302-316 | fewer than MAXARGS words before a separator or the end are read as exactly one exec node, and the separator is left |
| Grammar.CommandOfWords | lab.c:13 | with MAXARGS = 10, a line of words alone is accepted exactly when it has fewer than MAXARGS words, and is then the one exec node holding them; otherwise it is too many args |
| Grammar.ParseExecTokensTooMany | lab.c:311-314 | MAXARGS or more words are the too-many-args error, whatever follows |
| Grammar.ParseLineTokens | lab.c:269-287 | the only errors parseline can return are too many args and the trailing '&' |
| Grammar.ParseLineTokensSemi | lab.c:274-277 | an exec followed by ';' is a sequential node whose right side is the rest of the line, and errors on the right are passed on |
| Grammar.ParseLineTokensAmp | lab.c:278-285 | an exec followed by '&' is the trailing-'&' error when nothing or ';' follows, and otherwise a parallel node whose right side is the rest of the line |
| Grammar.ParseLineTokensSound | lab.c:269-287 | whatever parseline accepts it reads to the end, and the tree is canonical and unparses to exactly the tokens read |
| Grammar.ParseLineTokensComplete | lab.c:269-287 | every canonical tree is what parseline builds from its tokens, with nothing left over |
| Grammar.ParseCmdTokensRoundTrip | lab.c:253-267 | parsecmd returns the tree c exactly when c is canonical and its tokens are the input (both directions) |
| Grammar.ParseCmdTokensExactly | lab.c:253-267 | the same for all trees at once: the parse result is the one canonical tree standing for the tokens, if there is one |
| Grammar.ParseCmdTokensTooMany | lab.c:311-314 | a line whose first command has MAXARGS or more words is refused with too many args |
| Grammar.ParseCmdTokensTrailingAmp | lab.c:280-283 | an '&' after the first command that is followed by nothing or by ';' is refused with the trailing-'&' error |
| Grammar.ParseCmdTokensNoLeftovers | lab.c:261-265 | the leftovers error never happens |
| Parser.ParseExec | lab.c:290-318 | the peek/gettoken/mkcopy loop computes ParseExecTokens of the tokens from the cursor; on success the new cursor is at the end or at ';' or '&', past whitespace; the syntax-error branch is unreachable |
| Parser.ParseLine | lab.c:269-287 | the recursive parseline computes ParseLineTokens of the tokens from the cursor; a line it accepts is read to its end |
| Parser.Strlen | lab.c:259 | the length of the C string in the buffer: no NUL before it, and a NUL at it unless it is the buffer's end |
| Parser.StrlenOfNoNul | lab.c:259 | a buffer without NUL is a C string of its full length |
| Parser.ParseCmd | lab.c:253-267 | parsecmd computes ParseCmdTokens of the tokens of the C string; it fails with too many args or the trailing '&' only, and succeeds with c exactly when c is canonical and stands for the line's tokens |
| Parser.ParseCmdOfRender | lab.c:253-267 | printing a canonical tree whose words are real words gives a line that parsecmd parses back to that tree |
| Scenarios.SequenceGroupsRight | lab.c:274-277 | `a;b;c` is a ';' node holding `a` and the ';' node of `b` and `c` |
| Scenarios.ParallelAccepted | lab.c:278-285 | `a & b` is a '&' node holding `a` and `b` |
| Scenarios.TrailingAmpRefused | lab.c:280-283 | `ls -l &` is the trailing-'&' error |
| Scenarios.AmpSemiRefused | lab.c:280-283 | `a & ; b` is the trailing-'&' error |
| Scenarios.TenWordsRefused | lab.c:311-314 | a line of ten words is the too-many-args error |
| Scenarios.TrailingAmpBuffer | lab.c:253-267 | the imperative parsecmd, run on the buffer "a &\n" as `fgets` leaves it, returns the trailing-'&' error |

## Left out

- `runcmd`, `fork1`, `getcmd` and `main` (lab.c:43-147) are left out. They fork, wait, exec and read the terminal; this model is about parsing only.
- The built-in `cd` of `main` is left out, because it is handled before the parser is called.
- `ArgWords` stands for the words `execvp` would receive; the exec itself is not modelled.
- Printing a diagnostic and exiting become an `Err` result. `ExitStatus` and `DiagnosticStream` are records of each error's exit status and output stream. They are tables beside the parser and are not called by it. The message text is not modelled.
- The status -1 is the value passed to `exit`; the operating system's reduction of it to 255 is not modelled.
- `malloc` and `memset` in the node constructors become building a node value. The zeroing that `memset` does is kept: `ExecCmd` starts with every argv slot null.
- `assert(c)` in `mkcopy` and the pointer casts have no counterpart, because allocation cannot fail in the model.
- C's `char` is a byte, while the model uses Dafny's Unicode `char`. No behaviour is lost, because the shell classifies only ASCII characters and treats every other character as part of a word.
- Lexer.MkCopy: builds its copy in a fresh array of n + 1 characters with a NUL at the end, as `mkcopy` does. It returns the first n characters as a string value, not the pointer.
- Every routine below `parsecmd` requires the line to contain no NUL. That holds because `parsecmd` cuts the buffer at `strlen`. Inside the line `strchr` is therefore never asked for the NUL character, and its match on the string terminator does not arise.
- The null checks `if(q)` and `if(eq)` in `gettoken` are left out. The model always returns both positions and lets callers ignore them, as `parseline` does.
- The syntax-error branch of `parseexec` and the leftovers check of `parsecmd` are kept but cannot be reached: `peek` has already excluded ';' and '&', and `parseline` always reads to the end. Both are proved unreachable, not reported as defects.
- The 100-byte buffer of `main`, and the truncation `fgets` applies to longer lines, are not modelled: `ParseCmd` accepts a buffer of any length.
