/** The command tree built by the shell's parser (lab.c:13-37) and its node
    constructors (lab.c:149-184), together with the parse errors that end the
    shell process (lab.c:263-264, 281-282, 306-307, 312-313). */
module CmdTree {

  /** Number of argv slots in an exec node; the last usable one holds the
      terminating null pointer, so a command has at most MAXARGS - 1 words. */
  const MAXARGS: nat := 10

  type String = seq<char>

  datatype Option<T> = None | Some(value: T)

  /** One node of the tree. An `Exec` keeps all MAXARGS slots of the C
      struct's `argv` array; `None` stands for the null pointer. */
  datatype Cmd =
    | Exec(argv: seq<Option<String>>)
    | Sequential(left: Cmd, right: Cmd)
    | Parallel(left: Cmd, right: Cmd)

  /** The `type` field every node starts with. */
  function Tag(c: Cmd): (t: char)
    ensures t == ' ' <==> c.Exec?
    ensures t == ';' <==> c.Sequential?
    ensures t == '&' <==> c.Parallel?
  {
    match c
    case Exec(_) => ' '
    case Sequential(_, _) => ';'
    case Parallel(_, _) => '&'
  }

  /** `execcmd`: a fresh exec node whose argv slots are all zeroed. */
  function ExecCmd(): (c: Cmd)
    ensures Tag(c) == ' ' && c.Exec? && |c.argv| == MAXARGS
    ensures forall i | 0 <= i < MAXARGS :: c.argv[i] == None
  {
    Exec(seq(MAXARGS, _ => None))
  }

  /** `sequential_cmd`: a ';' node holding exactly the given children. */
  function SequentialCmd(left: Cmd, right: Cmd): (c: Cmd)
    ensures Tag(c) == ';' && c.Sequential?
    ensures c.left == left && c.right == right
  {
    Sequential(left, right)
  }

  /** `parallel_cmd`: an '&' node holding exactly the given children. */
  function ParallelCmd(left: Cmd, right: Cmd): (c: Cmd)
    ensures Tag(c) == '&' && c.Parallel?
    ensures c.left == left && c.right == right
  {
    Parallel(left, right)
  }

  /** The argv slots of an exec node that holds the words `ws`: the words in
      order, then null pointers up to MAXARGS. */
  function ArgvOf(ws: seq<String>): (argv: seq<Option<String>>)
    requires |ws| <= MAXARGS
    ensures |argv| == MAXARGS
    ensures forall i | 0 <= i < |ws| :: argv[i] == Some(ws[i])
    ensures forall i | |ws| <= i < MAXARGS :: argv[i] == None
  {
    seq(MAXARGS, i requires 0 <= i < MAXARGS => if i < |ws| then Some(ws[i]) else None)
  }

  /** Storing one more word into the first null slot. */
  lemma ArgvOfSnoc(ws: seq<String>, w: String)
    requires |ws| < MAXARGS
    ensures ArgvOf(ws)[|ws| := Some(w)] == ArgvOf(ws + [w])
  {
  }

  /** The slot after the words already holds the null pointer. */
  lemma ArgvOfTerminated(ws: seq<String>)
    requires |ws| < MAXARGS
    ensures ArgvOf(ws)[|ws| := None] == ArgvOf(ws)
  {
  }

  /** What `execvp` receives: the words in front of the first null pointer. */
  function ArgWords(argv: seq<Option<String>>): (ws: seq<String>)
    ensures |ws| <= |argv|
  {
    if argv == [] || argv[0].None? then [] else [argv[0].value] + ArgWords(argv[1..])
  }

  /** The words `execvp` receives are the slots up to the first null pointer,
      or up to the end when there is none. */
  lemma {:induction false} ArgWordsMeaning(argv: seq<Option<String>>)
    ensures var ws := ArgWords(argv);
      && (forall i | 0 <= i < |ws| :: argv[i] == Some(ws[i]))
      && (|ws| == |argv| || argv[|ws|] == None)
  {
    if argv != [] && argv[0].Some? {
      ArgWordsMeaning(argv[1..]);
    }
  }

  /** Slots holding `ws` and then a null pointer give `ws` to `execvp`. */
  lemma {:induction false} ArgWordsOfSlots(argv: seq<Option<String>>, ws: seq<String>)
    requires |ws| < |argv| && argv[|ws|] == None
    requires forall i | 0 <= i < |ws| :: argv[i] == Some(ws[i])
    ensures ArgWords(argv) == ws
  {
    if ws != [] {
      ArgWordsOfSlots(argv[1..], ws[1..]);
    }
  }

  /** The words of an exec node built from `ws` are `ws` again, terminator included. */
  lemma ArgWordsOfArgv(ws: seq<String>)
    requires |ws| < MAXARGS
    ensures ArgWords(ArgvOf(ws)) == ws
  {
    ArgWordsOfSlots(ArgvOf(ws), ws);
  }

  /** Errors on which the parser ends the process. */
  datatype ParseError =
    | TooManyArgs   // "too many args", lab.c:311-314
    | SyntaxError   // "syntax error", lab.c:305-308
    | TrailingAmp   // "Cannot terminate command with \"&\"", lab.c:280-283
    | Leftovers     // "leftovers: ...", lab.c:262-265

  datatype Result<T> = Ok(value: T) | Err(error: ParseError)

  datatype Stream = Stdout | Stderr

  /** The status the process exits with on each error: the trailing-'&'
      diagnostic exits with 0, every other parse error with -1. */
  function ExitStatus(e: ParseError): (status: int)
    ensures status == 0 <==> e == TrailingAmp
    ensures status != 0 ==> status == -1
  {
    if e == TrailingAmp then 0 else -1
  }

  /** The stream the diagnostic goes to: stdout for the trailing '&' only. */
  function DiagnosticStream(e: ParseError): (s: Stream)
    ensures s == Stdout <==> ExitStatus(e) == 0
  {
    if e == TrailingAmp then Stdout else Stderr
  }
}
