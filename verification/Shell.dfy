/** What the shell's parser gives for a line of text, as functions of the text. */
module ShellGrammar {
  const NUL: char := '\0'
  const MAXARGS: nat := 10

  const O_RDONLY: nat := 0
  const O_WRONLY_CREATE: nat := 0x201

  predicate IsSpace(c: char) {
    c == ' ' || c == '\t' || c == '\r' || c == '\n' || c == '\U{0B}'
  }

  predicate IsSymbol(c: char) {
    c == '<' || c == '|' || c == '>' || c == '&' || c == ';' || c == '(' || c == ')'
  }

  /** A character of an argument. */
  predicate IsPlain(c: char) {
    !IsSpace(c) && !IsSymbol(c) && c != NUL
  }

  /** A C string up to its NUL. */
  predicate IsText(t: string) {
    forall i :: 0 <= i < |t| ==> t[i] != NUL
  }

  /** Commands over names of type `T`: places in the buffer, or strings. */
  datatype Cmd<T> =
    | Exec(argv: seq<T>)
    | Redir(cmd: Cmd<T>, file: T, mode: nat, fd: nat)
    | Pipe(left: Cmd<T>, right: Cmd<T>)
    | List(first: Cmd<T>, second: Cmd<T>)
    | Back(job: Cmd<T>)

  /** The pointers `q` and `eq`. */
  datatype Span = Span(q: nat, eq: nat)

  datatype Redirection = Redirection(file: Span, mode: nat, fd: nat)

  // ---------------------------------------------------------------------------
  // Tokens

  /** The next place from `i` that is not white space. */
  function Skip(t: string, i: nat): (r: nat)
    requires i <= |t|
    ensures i <= r <= |t| && (r < |t| ==> !IsSpace(t[r])) && forall k :: i <= k < r ==> IsSpace(t[k])
    decreases |t| - i
  {
    if i < |t| && IsSpace(t[i]) then Skip(t, i + 1) else i
  }

  /** The end of the argument that starts at `i`. */
  function WordEnd(t: string, i: nat): (r: nat)
    requires i <= |t|
    ensures i <= r <= |t| && (r < |t| ==> IsSpace(t[r]) || IsSymbol(t[r]))
    ensures forall k :: i <= k < r ==> !IsSpace(t[k]) && !IsSymbol(t[k])
    decreases |t| - i
  {
    if i < |t| && !IsSpace(t[i]) && !IsSymbol(t[i]) then WordEnd(t, i + 1) else i
  }

  /** What gettoken finds, where, and where it leaves the cursor. `'a'` is an argument, `'+'` is `>>`. */
  datatype Token = Token(kind: char, span: Span, next: nat)

  function TokenAt(t: string, s: nat): (r: Token)
    requires s <= |t| && (s < |t| ==> !IsSpace(t[s]))
    ensures r.span.q == s <= r.span.eq <= r.next <= |t| && (s < |t| ==> s < r.next)
    ensures r.kind == 'a' ==> TokenOk(t, r.span)
  {
    if s == |t| then Token(NUL, Span(s, s), s)
    else if t[s] == '>' then
      if s + 1 < |t| && t[s + 1] == '>' then Token('+', Span(s, s + 2), Skip(t, s + 2))
      else Token('>', Span(s, s + 1), Skip(t, s + 1))
    else if IsSymbol(t[s]) then Token(t[s], Span(s, s + 1), Skip(t, s + 1))
    else Token('a', Span(s, WordEnd(t, s)), Skip(t, WordEnd(t, s)))
  }

  /** An argument: not empty, no white space and no symbols in it, and one of them or the end right after it. */
  ghost predicate TokenOk(t: string, x: Span) {
    && x.q < x.eq <= |t| && (x.eq < |t| ==> IsSpace(t[x.eq]) || IsSymbol(t[x.eq]))
    && forall k :: x.q <= k < x.eq ==> !IsSpace(t[k]) && !IsSymbol(t[k])
  }

  /** peek: the next character, after white space, is one of `toks`. */
  predicate At(t: string, s: nat, toks: string)
    requires s <= |t|
  {
    s < |t| && t[s] in toks
  }

  // ---------------------------------------------------------------------------
  // The grammar

  /** What a parsing function gives: a value and the new place of the cursor, or a panic. */
  datatype Parse<+T> = Syntax | Ok(value: T, next: nat)

  ghost predicate RedirsOk(t: string, rs: seq<Redirection>) {
    forall i :: 0 <= i < |rs| ==> RedirOk(t, rs[i].file, rs[i].mode, rs[i].fd)
  }

  ghost predicate RedirOk(t: string, file: Span, mode: nat, fd: nat) {
    TokenOk(t, file) && ((mode == O_RDONLY && fd == 0) || (mode == O_WRONLY_CREATE && fd == 1))
  }

  ghost predicate WordsOk(t: string, argv: seq<Span>) {
    |argv| < MAXARGS && forall i :: 0 <= i < |argv| ==> TokenOk(t, argv[i])
  }

  /** All names in the command are arguments of the text, and there are few enough of them. */
  ghost predicate CmdOk(t: string, c: Cmd<Span>) {
    match c
    case Exec(argv) => WordsOk(t, argv)
    case Redir(cmd, file, mode, fd) => RedirOk(t, file, mode, fd) && CmdOk(t, cmd)
    case Pipe(left, right) => CmdOk(t, left) && CmdOk(t, right)
    case List(first, second) => CmdOk(t, first) && CmdOk(t, second)
    case Back(job) => CmdOk(t, job)
  }

  function RedirectionFor(kind: char, file: Span): Redirection {
    if kind == '<' then Redirection(file, O_RDONLY, 0) else Redirection(file, O_WRONLY_CREATE, 1)
  }

  function ParseRedirs(t: string, i: nat, rs: seq<Redirection>): (r: Parse<seq<Redirection>>)
    requires i <= |t|
    ensures r.Ok? ==> i <= r.next <= |t| && (RedirsOk(t, rs) ==> RedirsOk(t, r.value))
    decreases |t| - i
  {
    var s := Skip(t, i);
    if !At(t, s, "<>") then Ok(rs, s)
    else
      var tok := TokenAt(t, s);
      var file := TokenAt(t, Skip(t, tok.next));
      if file.kind != 'a' then Syntax
      else ParseRedirs(t, file.next, rs + [RedirectionFor(tok.kind, file.span)])
  }

  function ParseWords(t: string, i: nat, argv: seq<Span>, rs: seq<Redirection>):
    (r: Parse<(seq<Span>, seq<Redirection>)>)
    requires i <= |t|
    ensures r.Ok? ==> i <= r.next <= |t|
    ensures r.Ok? && WordsOk(t, argv) && RedirsOk(t, rs) ==> WordsOk(t, r.value.0) && RedirsOk(t, r.value.1)
    decreases |t| - i
  {
    var s := Skip(t, i);
    if At(t, s, "|)&;") then Ok((argv, rs), s)
    else
      var tok := TokenAt(t, s);
      if tok.kind == NUL then Ok((argv, rs), tok.next)
      else if tok.kind != 'a' || |argv| + 1 >= MAXARGS then Syntax
      else
        match ParseRedirs(t, tok.next, rs)
        case Syntax => Syntax
        case Ok(rs', next) => ParseWords(t, next, argv + [tok.span], rs')
  }

  /** `cmd` with its redirections, the last one outermost. */
  function WrapAll(cmd: Cmd<Span>, rs: seq<Redirection>): Cmd<Span> {
    if rs == [] then cmd
    else var r := rs[|rs| - 1]; Redir(WrapAll(cmd, rs[..|rs| - 1]), r.file, r.mode, r.fd)
  }

  lemma {:induction false} WrapOk(t: string, cmd: Cmd<Span>, rs: seq<Redirection>)
    requires CmdOk(t, cmd) && RedirsOk(t, rs)
    ensures CmdOk(t, WrapAll(cmd, rs))
  {
    if rs != [] {
      WrapOk(t, cmd, rs[..|rs| - 1]);
    }
  }

  function ParseExec(t: string, i: nat): (r: Parse<Cmd<Span>>)
    requires i <= |t|
    ensures r.Ok? ==> i <= r.next <= |t| && CmdOk(t, r.value)
    decreases |t| - i, 2
  {
    var s := Skip(t, i);
    if At(t, s, "(") then ParseBlock(t, s)
    else
      match ParseRedirs(t, s, [])
      case Syntax => Syntax
      case Ok(rs, m) =>
        match ParseWords(t, m, [], rs)
        case Syntax => Syntax
        case Ok(words, next) => WrapOk(t, Exec(words.0), words.1); Ok(WrapAll(Exec(words.0), words.1), next)
  }

  function ParseBlock(t: string, i: nat): (r: Parse<Cmd<Span>>)
    requires i <= |t|
    ensures r.Ok? ==> i <= r.next <= |t| && CmdOk(t, r.value)
    decreases |t| - i, 1
  {
    var s := Skip(t, i);
    if !At(t, s, "(") then Syntax
    else
      match ParseLine(t, TokenAt(t, s).next)
      case Syntax => Syntax
      case Ok(cmd, m) =>
        var s' := Skip(t, m);
        if !At(t, s', ")") then Syntax
        else
          match ParseRedirs(t, TokenAt(t, s').next, [])
          case Syntax => Syntax
          case Ok(rs, next) => WrapOk(t, cmd, rs); Ok(WrapAll(cmd, rs), next)
  }

  function ParsePipe(t: string, i: nat): (r: Parse<Cmd<Span>>)
    requires i <= |t|
    ensures r.Ok? ==> i <= r.next <= |t| && CmdOk(t, r.value)
    decreases |t| - i, 3
  {
    match ParseExec(t, i)
    case Syntax => Syntax
    case Ok(left, m) =>
      var s := Skip(t, m);
      if !At(t, s, "|") then Ok(left, s)
      else
        match ParsePipe(t, TokenAt(t, s).next)
        case Syntax => Syntax
        case Ok(right, next) => Ok(Pipe(left, right), next)
  }

  /** The loop of parseline: one `Back` for every `&`. */
  function ParseBacks(t: string, i: nat, cmd: Cmd<Span>): (r: (Cmd<Span>, nat))
    requires i <= |t|
    ensures i <= r.1 <= |t| && (CmdOk(t, cmd) ==> CmdOk(t, r.0))
    decreases |t| - i
  {
    var s := Skip(t, i);
    if At(t, s, "&") then ParseBacks(t, TokenAt(t, s).next, Back(cmd)) else (cmd, s)
  }

  function ParseLine(t: string, i: nat): (r: Parse<Cmd<Span>>)
    requires i <= |t|
    ensures r.Ok? ==> i <= r.next <= |t| && CmdOk(t, r.value)
    decreases |t| - i, 4
  {
    match ParsePipe(t, i)
    case Syntax => Syntax
    case Ok(pipe, m) =>
      var (first, n) := ParseBacks(t, m, pipe);
      var s := Skip(t, n);
      if !At(t, s, ";") then Ok(first, s)
      else
        match ParseLine(t, TokenAt(t, s).next)
        case Syntax => Syntax
        case Ok(second, next) => Ok(List(first, second), next)
  }

  /** The whole text is one command line. */
  function ParseText(t: string): (r: Parse<Cmd<Span>>)
    ensures r.Ok? ==> CmdOk(t, r.value)
  {
    match ParseLine(t, 0)
    case Syntax => Syntax
    case Ok(cmd, n) => if Skip(t, n) == |t| then Ok(cmd, |t|) else Syntax
  }
}

/** Printing a command and parsing the print gives the command back. */
module ShellRoundTrip {
  import opened ShellGrammar

  // ---------------------------------------------------------------------------
  // Commands over strings

  predicate IsWord(w: string) {
    w != [] && forall i :: 0 <= i < |w| ==> IsPlain(w[i])
  }

  /** The commands that can be typed: at most nine arguments, and the two kinds of redirection. */
  ghost predicate WellFormed(c: Cmd<string>) {
    match c
    case Exec(argv) => |argv| < MAXARGS && forall i :: 0 <= i < |argv| ==> IsWord(argv[i])
    case Redir(cmd, file, mode, fd) =>
      && IsWord(file) && WellFormed(cmd)
      && ((mode == O_RDONLY && fd == 0) || (mode == O_WRONLY_CREATE && fd == 1))
    case Pipe(left, right) => WellFormed(left) && WellFormed(right)
    case List(first, second) => WellFormed(first) && WellFormed(second)
    case Back(job) => WellFormed(job)
  }

  function Join(words: seq<string>): string {
    if words == [] then "" else if |words| == 1 then words[0] else words[0] + " " + Join(words[1..])
  }

  function Block(c: Cmd<string>): string
    decreases c, 1
  {
    "(" + Print(c) + ")"
  }

  function Print(c: Cmd<string>): string
    decreases c, 0
  {
    match c
    case Exec(argv) => Join(argv)
    case Redir(cmd, file, mode, _) => Block(cmd) + (if mode == O_RDONLY then "<" else ">") + file
    case Pipe(left, right) => Block(left) + "|" + Block(right)
    case List(first, second) => Block(first) + ";" + Block(second)
    case Back(job) => Block(job) + "&"
  }

  function Name(t: string, x: Span): string {
    if x.q <= x.eq <= |t| then t[x.q..x.eq] else ""
  }

  function Names(t: string, xs: seq<Span>): (r: seq<string>)
    ensures |r| == |xs| && forall i :: 0 <= i < |xs| ==> r[i] == Name(t, xs[i])
  {
    if xs == [] then [] else Names(t, xs[..|xs| - 1]) + [Name(t, xs[|xs| - 1])]
  }

  /** A parsed command with its names as strings. */
  function Read(t: string, c: Cmd<Span>): Cmd<string> {
    match c
    case Exec(argv) => Exec(Names(t, argv))
    case Redir(cmd, file, mode, fd) => Redir(Read(t, cmd), Name(t, file), mode, fd)
    case Pipe(left, right) => Pipe(Read(t, left), Read(t, right))
    case List(first, second) => List(Read(t, first), Read(t, second))
    case Back(job) => Back(Read(t, job))
  }

  // ---------------------------------------------------------------------------
  // Pieces of the text

  predicate Occurs(t: string, i: nat, p: string) {
    i + |p| <= |t| && t[i..i + |p|] == p
  }

  lemma OccursParts(t: string, i: nat, a: string, b: string)
    requires Occurs(t, i, a + b)
    ensures Occurs(t, i, a) && Occurs(t, i + |a|, b)
  {
    assert t[i..i + |a|] == (a + b)[..|a|];
    assert t[i + |a|..i + |a| + |b|] == (a + b)[|a|..];
  }

  lemma OccursAt(t: string, i: nat, p: string, k: nat)
    requires Occurs(t, i, p) && k < |p|
    ensures t[i + k] == p[k]
  {
    assert t[i..i + |p|][k] == p[k];
  }

  /** After a line comes the end of the text or of a block. */
  predicate Stop(t: string, e: nat) {
    e <= |t| && (e < |t| ==> t[e] == ')')
  }

  lemma {:induction false} WordEndIs(t: string, i: nat, e: nat)
    requires i <= e <= |t| && (e < |t| ==> IsSpace(t[e]) || IsSymbol(t[e]))
    requires forall k :: i <= k < e ==> IsPlain(t[k])
    ensures WordEnd(t, i) == e
    decreases e - i
  {
    if i < e {
      WordEndIs(t, i + 1, e);
    }
  }

  /** A word is one token. */
  lemma WordToken(t: string, i: nat, w: string)
    requires IsWord(w) && Occurs(t, i, w)
    requires var e := i + |w|; e < |t| ==> IsSpace(t[e]) || IsSymbol(t[e])
    ensures i < |t| && IsPlain(t[i]) && Skip(t, i) == i
    ensures TokenAt(t, i) == Token('a', Span(i, i + |w|), Skip(t, i + |w|)) && Name(t, Span(i, i + |w|)) == w
  {
    forall k | i <= k < i + |w|
      ensures IsPlain(t[k])
    {
      OccursAt(t, i, w, k - i);
    }
    WordEndIs(t, i, i + |w|);
  }

  // ---------------------------------------------------------------------------
  // Arguments

  /** One argument, and the cursor is at the next one. */
  lemma WordStep(t: string, i: nat, w: string, next: nat, argv: seq<Span>, rs: seq<Redirection>)
    requires IsWord(w) && Occurs(t, i, w) && |argv| + 1 < MAXARGS
    requires i + |w| < |t| ==> IsSpace(t[i + |w|]) || IsSymbol(t[i + |w|])
    requires next == Skip(t, i + |w|) && (next < |t| ==> t[next] != '<' && t[next] != '>')
    ensures ParseWords(t, i, argv, rs) == ParseWords(t, next, argv + [Span(i, i + |w|)], rs)
    ensures Name(t, Span(i, i + |w|)) == w
  {
    hide TokenAt, WordEnd;
    WordToken(t, i, w);
    assert Skip(t, next) == next;
    assert !At(t, next, "<>");
    assert ParseRedirs(t, next, rs) == Ok(rs, next);
    assert !At(t, i, "|)&;");
  }

  lemma SkipNone(t: string, i: nat)
    requires i <= |t| && (i < |t| ==> !IsSpace(t[i]))
    ensures Skip(t, i) == i
  {
  }

  lemma SkipOne(t: string, i: nat)
    requires i + 1 < |t| && t[i] == ' ' && !IsSpace(t[i + 1])
    ensures Skip(t, i) == i + 1
  {
    assert Skip(t, i + 1) == i + 1;
  }

  lemma {:induction false} WordsBack(t: string, i: nat, words: seq<string>, argv: seq<Span>, rs: seq<Redirection>)
    returns (xs: seq<Span>)
    requires (forall k :: 0 <= k < |words| ==> IsWord(words[k])) && |argv| + |words| < MAXARGS
    requires Occurs(t, i, Join(words)) && Stop(t, i + |Join(words)|)
    ensures ParseWords(t, i, argv, rs) == Ok((argv + xs, rs), i + |Join(words)|)
    ensures |xs| == |words| && forall k :: 0 <= k < |xs| ==> Name(t, xs[k]) == words[k]
    decreases |words|
  {
    hide ParseWords, TokenAt, Skip, Name;
    if words == [] {
      xs := [];
      assert argv + xs == argv;
      WordsEnd(t, i, argv, rs);
    } else {
      var w, x := words[0], Span(i, i + |words[0]|);
      var next := BetweenWords(t, i, words);
      WordStep(t, i, w, next, argv, rs);
      var ys := WordsBack(t, next, words[1..], argv + [x], rs);
      xs := [x] + ys;
      assert argv + [x] + ys == argv + xs;
    }
  }

  lemma WordsEnd(t: string, i: nat, argv: seq<Span>, rs: seq<Redirection>)
    requires Stop(t, i)
    ensures ParseWords(t, i, argv, rs) == Ok((argv, rs), i)
  {
    assert Skip(t, i) == i;
  }

  /** After the first word comes a blank and the next one, or the end. */
  lemma BetweenWords(t: string, i: nat, words: seq<string>) returns (next: nat)
    requires words != [] && forall k :: 0 <= k < |words| ==> IsWord(words[k])
    requires Occurs(t, i, Join(words)) && Stop(t, i + |Join(words)|)
    ensures var e := i + |words[0]|;
            && Occurs(t, i, words[0]) && (e < |t| ==> IsSpace(t[e]) || IsSymbol(t[e]))
            && next == Skip(t, e) && (next < |t| ==> t[next] != '<' && t[next] != '>')
    ensures Occurs(t, next, Join(words[1..])) && next + |Join(words[1..])| == i + |Join(words)|
  {
    hide Skip, IsWord;
    var w, rest := words[0], Join(words[1..]);
    if |words| == 1 {
      next := i + |w|;
      SkipNone(t, next);
    } else {
      assert Join(words) == w + (" " + rest);
      OccursParts(t, i, w, " " + rest);
      OccursParts(t, i + |w|, " ", rest);
      OccursAt(t, i + |w|, " ", 0);
      next := i + |w| + 1;
      FirstPlain(t, next, words[1..]);
      SkipOne(t, i + |w|);
    }
  }

  lemma FirstPlain(t: string, i: nat, words: seq<string>)
    requires words != [] && (forall k :: 0 <= k < |words| ==> IsWord(words[k])) && Occurs(t, i, Join(words))
    ensures i < |t| && IsPlain(t[i])
  {
    var w := words[0];
    assert Join(words)[0] == w[0];
    OccursAt(t, i, Join(words), 0);
  }

  // ---------------------------------------------------------------------------
  // Commands

  /** A character that is a token of its own, with no white space after it. */
  lemma OneChar(t: string, i: nat, p: string, k: nat)
    requires Occurs(t, i, p) && k < |p| && IsSymbol(p[k]) && p[k] != '>'
    requires i + k + 1 < |t| ==> !IsSpace(t[i + k + 1])
    ensures t[i + k] == p[k] && Skip(t, i + k) == i + k &&
            TokenAt(t, i + k) == Token(p[k], Span(i + k, i + k + 1), i + k + 1)
  {
    OccursAt(t, i, p, k);
  }

  /** What the print of a command begins with is no white space. */
  lemma PrintFirst(t: string, i: nat, c: Cmd<string>)
    requires WellFormed(c) && Occurs(t, i, Print(c)) && Stop(t, i + |Print(c)|)
    ensures i < |t| ==> !IsSpace(t[i]) && t[i] != '<' && t[i] != '>'
    ensures c.Exec? && i < |t| ==> t[i] != '('
  {
    if c.Exec? {
      if c.argv != [] {
        FirstPlain(t, i, c.argv);
      }
    } else {
      assert Print(c)[0] == '(';
      OccursAt(t, i, Print(c), 0);
    }
  }

  /** A simple command. */
  lemma ExecBack(t: string, i: nat, c: Cmd<string>) returns (r: Cmd<Span>)
    requires c.Exec? && WellFormed(c) && Occurs(t, i, Print(c)) && Stop(t, i + |Print(c)|)
    ensures ParseExec(t, i) == Ok(r, i + |Print(c)|) && Read(t, r) == c
  {
    hide ParseWords, ParseExec, ParseRedirs, Skip, TokenAt, Occurs;
    PrintFirst(t, i, c);
    SkipNone(t, i);
    var xs := WordsBack(t, i, c.argv, [], []);
    assert [] + xs == xs;
    r := Exec(xs);
    ExecOfWords(t, i, xs, i + |Print(c)|);
    assert Names(t, xs) == c.argv;
  }

  lemma ExecOfWords(t: string, i: nat, xs: seq<Span>, e: nat)
    requires i <= |t| && Skip(t, i) == i && !At(t, i, "(") && !At(t, i, "<>")
    requires ParseWords(t, i, [], []) == Ok((xs, []), e)
    ensures ParseExec(t, i) == Ok(Exec(xs), e)
  {
    hide ParseWords, Skip, TokenAt;
    assert ParseRedirs(t, i, []) == Ok([], i);
  }

  /** A line is parsed as one pipe with nothing after it. */
  lemma LineOfPipe(t: string, i: nat, r: Cmd<Span>, e: nat)
    requires i <= |t| && ParsePipe(t, i) == Ok(r, e) && Stop(t, e)
    ensures ParseLine(t, i) == Ok(r, e)
  {
    assert Skip(t, e) == e && !At(t, e, "&") && !At(t, e, ";");
  }

  lemma PipeOfExec(t: string, i: nat, r: Cmd<Span>, e: nat)
    requires i <= |t| && ParseExec(t, i) == Ok(r, e) && e <= |t| && (e < |t| ==> !IsSpace(t[e]) && t[e] != '|')
    ensures ParsePipe(t, i) == Ok(r, e)
  {
    assert Skip(t, e) == e && !At(t, e, "|");
  }

  /** A command with the redirections that were parsed after it. */
  function Redirected(cmd: Cmd<Span>, redirs: Parse<seq<Redirection>>): Parse<Cmd<Span>> {
    match redirs
    case Syntax => Syntax
    case Ok(rs, next) => Ok(WrapAll(cmd, rs), next)
  }

  /** A command in parentheses, with what comes after it. */
  lemma {:induction false} BlockBack(t: string, i: nat, c: Cmd<string>) returns (r: Cmd<Span>)
    requires WellFormed(c) && Occurs(t, i, Block(c))
    requires var e := i + |Block(c)|; e < |t| ==> !IsSpace(t[e])
    ensures Read(t, r) == c
    ensures ParseExec(t, i) == Redirected(r, ParseRedirs(t, i + |Block(c)|, []))
    decreases c, 2
  {
    hide ParseRedirs, Print, ParseLine, ParseExec, Occurs, Skip, TokenAt;
    var p := Print(c);
    OccursParts(t, i, "(" + p, ")");
    OccursParts(t, i, "(", p);
    OccursAt(t, i + 1 + |p|, ")", 0);
    PrintFirst(t, i + 1, c);
    OneChar(t, i, "(", 0);
    OneChar(t, i + 1 + |p|, ")", 0);
    r := LineBack(t, i + 1, c);
    ExecOfBlock(t, i, i + 1 + |p|, r);
  }

  lemma ExecOfBlock(t: string, i: nat, m: nat, cmd: Cmd<Span>)
    requires i < m < |t| && t[i] == '(' && t[m] == ')' && ParseLine(t, i + 1) == Ok(cmd, m)
    requires Skip(t, i) == i && TokenAt(t, i).next == i + 1 && Skip(t, m) == m && TokenAt(t, m).next == m + 1
    ensures ParseExec(t, i) == Redirected(cmd, ParseRedirs(t, m + 1, []))
  {
    hide ParseRedirs, ParseLine, Skip, TokenAt;
    assert At(t, i, "(") && At(t, m, ")");
  }

  /** The same with something after it that is no redirection. */
  lemma {:induction false} PlainBlockBack(t: string, i: nat, c: Cmd<string>) returns (r: Cmd<Span>)
    requires WellFormed(c) && Occurs(t, i, Block(c))
    requires var e := i + |Block(c)|; e < |t| ==> !IsSpace(t[e]) && t[e] != '<' && t[e] != '>'
    ensures Read(t, r) == c && ParseExec(t, i) == Ok(r, i + |Block(c)|)
    decreases c, 3
  {
    hide ParseExec, Block;
    r := BlockBack(t, i, c);
    var e := i + |Block(c)|;
    assert Skip(t, e) == e && !At(t, e, "<>");
    assert ParseRedirs(t, e, []) == Ok([], e);
  }

  /** The round trip for a line that ends at the end of the text or at a closing parenthesis. */
  lemma {:induction false} LineBack(t: string, i: nat, c: Cmd<string>) returns (r: Cmd<Span>)
    requires WellFormed(c) && Occurs(t, i, Print(c)) && Stop(t, i + |Print(c)|)
    ensures ParseLine(t, i) == Ok(r, i + |Print(c)|) && Read(t, r) == c
    decreases c, 1
  {
    hide ParseLine, ParsePipe, ParseExec;
    var e := i + |Print(c)|;
    match c {
      case Exec(_) =>
        r := ExecBack(t, i, c);
        PipeOfExec(t, i, r, e);
        LineOfPipe(t, i, r, e);
      case Redir(_, _, _, _) =>
        r := RedirBack(t, i, c);
        PipeOfExec(t, i, r, e);
        LineOfPipe(t, i, r, e);
      case Pipe(_, _) =>
        r := PipeBack(t, i, c);
        LineOfPipe(t, i, r, e);
      case List(_, _) =>
        r := ListBack(t, i, c);
      case Back(_) =>
        r := BackBack(t, i, c);
    }
  }

  lemma {:induction false} RedirBack(t: string, i: nat, c: Cmd<string>) returns (r: Cmd<Span>)
    requires c.Redir? && WellFormed(c) && Occurs(t, i, Print(c)) && Stop(t, i + |Print(c)|)
    ensures ParseExec(t, i) == Ok(r, i + |Print(c)|) && Read(t, r) == c
    decreases c, 0
  {
    hide ParseExec, Block, ParseRedirs, Occurs, Skip, TokenAt, WrapAll;
    var op := if c.mode == O_RDONLY then "<" else ">";
    var m := i + |Block(c.cmd)|;
    OccursParts(t, i, Block(c.cmd) + op, c.file);
    OccursParts(t, i, Block(c.cmd), op);
    OccursAt(t, m, op, 0);
    var inner := BlockBack(t, i, c.cmd);
    var rs := OneRedir(t, m, op, c.file, c.mode, c.fd);
    OneWrap(inner, rs);
    r := Redir(inner, rs[0].file, c.mode, c.fd);
  }

  lemma OneWrap(cmd: Cmd<Span>, rs: seq<Redirection>)
    requires |rs| == 1
    ensures WrapAll(cmd, rs) == Redir(cmd, rs[0].file, rs[0].mode, rs[0].fd)
  {
    assert rs[..0] == [];
    assert WrapAll(cmd, rs[..0]) == cmd;
  }

  lemma OneRedir(t: string, m: nat, op: string, file: string, mode: nat, fd: nat) returns (rs: seq<Redirection>)
    requires IsWord(file) && Occurs(t, m, op) && Occurs(t, m + 1, file) && Stop(t, m + 1 + |file|)
    requires (op == "<" && mode == O_RDONLY && fd == 0) || (op == ">" && mode == O_WRONLY_CREATE && fd == 1)
    ensures |rs| == 1 && Name(t, rs[0].file) == file && rs[0].mode == mode && rs[0].fd == fd
    ensures ParseRedirs(t, m, []) == Ok(rs, m + 1 + |file|)
  {
    var e := m + 1 + |file|;
    hide Skip, WordEnd, ParseRedirs;
    OccursAt(t, m, op, 0);
    WordToken(t, m + 1, file);
    SkipNone(t, e);
    SkipNone(t, m);
    rs := [RedirectionFor(op[0], Span(m + 1, e))];
    assert TokenAt(t, m) == Token(op[0], Span(m, m + 1), m + 1);
    RedirStep(t, m, m + 1, op[0], e);
  }

  lemma RedirStep(t: string, m: nat, n: nat, kind: char, e: nat)
    requires m < n < e <= |t| && At(t, m, "<>") && Skip(t, m) == m && Stop(t, e) && Skip(t, e) == e
    requires TokenAt(t, m) == Token(kind, Span(m, n), n)
    requires !IsSpace(t[n]) && Skip(t, n) == n && TokenAt(t, n) == Token('a', Span(n, e), e)
    ensures ParseRedirs(t, m, []) == Ok([RedirectionFor(kind, Span(n, e))], e)
  {
    hide TokenAt, Skip, RedirectionFor;
    var rs := [RedirectionFor(kind, Span(n, e))];
    assert [] + [RedirectionFor(kind, Span(n, e))] == rs;
    assert !At(t, e, "<>");
    assert ParseRedirs(t, e, rs) == Ok(rs, e);
  }

  lemma {:induction false} PipeBack(t: string, i: nat, c: Cmd<string>) returns (r: Cmd<Span>)
    requires c.Pipe? && WellFormed(c) && Occurs(t, i, Print(c)) && Stop(t, i + |Print(c)|)
    ensures ParsePipe(t, i) == Ok(r, i + |Print(c)|) && Read(t, r) == c
    decreases c, 0
  {
    hide ParseExec, ParsePipe, Block, Occurs, Skip, TokenAt;
    var m, e := i + |Block(c.left)|, i + |Print(c)|;
    TwoBlocks(t, i, c.left, "|", c.right);
    var left := PlainBlockBack(t, i, c.left);
    var right := PlainBlockBack(t, m + 1, c.right);
    PipeOfExec(t, m + 1, right, e);
    PipeOfTwo(t, i, left, m, right, e);
    r := Pipe(left, right);
  }

  lemma PipeOfTwo(t: string, i: nat, left: Cmd<Span>, m: nat, right: Cmd<Span>, e: nat)
    requires i <= m < |t| && ParseExec(t, i) == Ok(left, m) && t[m] == '|' && Skip(t, m) == m
    requires TokenAt(t, m).next == m + 1
    requires ParsePipe(t, m + 1) == Ok(right, e)
    ensures ParsePipe(t, i) == Ok(Pipe(left, right), e)
  {
    hide ParseExec, Skip, TokenAt;
    assert At(t, m, "|");
  }

  /** Two blocks with a symbol in between. */
  lemma TwoBlocks(t: string, i: nat, a: Cmd<string>, op: string, b: Cmd<string>)
    requires |op| == 1 && IsSymbol(op[0]) && op[0] != '>' && Occurs(t, i, Block(a) + op + Block(b))
    ensures var m := i + |Block(a)|;
            && Occurs(t, i, Block(a)) && Occurs(t, m + 1, Block(b)) && t[m] == op[0]
            && Skip(t, m) == m && TokenAt(t, m).next == m + 1
  {
    var m := i + |Block(a)|;
    OccursParts(t, i, Block(a) + op, Block(b));
    OccursParts(t, i, Block(a), op);
    OccursAt(t, m + 1, Block(b), 0);
    OneChar(t, m, op, 0);
  }

  lemma {:induction false} ListBack(t: string, i: nat, c: Cmd<string>) returns (r: Cmd<Span>)
    requires c.List? && WellFormed(c) && Occurs(t, i, Print(c)) && Stop(t, i + |Print(c)|)
    ensures ParseLine(t, i) == Ok(r, i + |Print(c)|) && Read(t, r) == c
    decreases c, 0
  {
    hide ParseExec, ParsePipe, ParseLine, Block, Occurs, Skip, TokenAt;
    var m, e := i + |Block(c.first)|, i + |Print(c)|;
    TwoBlocks(t, i, c.first, ";", c.second);
    var first := PlainBlockBack(t, i, c.first);
    PipeOfExec(t, i, first, m);
    var second := PlainBlockBack(t, m + 1, c.second);
    PipeOfExec(t, m + 1, second, e);
    LineOfPipe(t, m + 1, second, e);
    LineOfTwo(t, i, first, m, second, e);
    r := List(first, second);
  }

  lemma LineOfTwo(t: string, i: nat, first: Cmd<Span>, m: nat, second: Cmd<Span>, e: nat)
    requires i <= |t| && ParsePipe(t, i) == Ok(first, m) && i <= m < |t| && t[m] == ';' && TokenAt(t, m).next == m + 1
    requires ParseLine(t, m + 1) == Ok(second, e)
    ensures ParseLine(t, i) == Ok(List(first, second), e)
  {
    hide ParsePipe, TokenAt;
    assert Skip(t, m) == m && At(t, m, ";") && !At(t, m, "&");
    assert ParseBacks(t, m, first) == (first, m);
  }

  lemma {:induction false} BackBack(t: string, i: nat, c: Cmd<string>) returns (r: Cmd<Span>)
    requires c.Back? && WellFormed(c) && Occurs(t, i, Print(c)) && Stop(t, i + |Print(c)|)
    ensures ParseLine(t, i) == Ok(r, i + |Print(c)|) && Read(t, r) == c
    decreases c, 0
  {
    hide ParseExec, ParsePipe, ParseLine, Block, Occurs, Skip, TokenAt;
    var m, e := i + |Block(c.job)|, i + |Print(c)|;
    OccursParts(t, i, Block(c.job), "&");
    OneChar(t, m, "&", 0);
    var job := PlainBlockBack(t, i, c.job);
    PipeOfExec(t, i, job, m);
    LineOfBack(t, i, job, m);
    r := Back(job);
  }

  lemma LineOfBack(t: string, i: nat, job: Cmd<Span>, m: nat)
    requires i <= |t| && ParsePipe(t, i) == Ok(job, m)
    requires i <= m < |t| && t[m] == '&' && TokenAt(t, m).next == m + 1 && Stop(t, m + 1)
    ensures ParseLine(t, i) == Ok(Back(job), m + 1)
  {
    hide ParsePipe, TokenAt;
    assert Skip(t, m) == m && At(t, m, "&");
    assert Skip(t, m + 1) == m + 1 && !At(t, m + 1, "&") && !At(t, m + 1, ";");
    assert ParseBacks(t, m + 1, Back(job)) == (Back(job), m + 1);
  }

  /** Every command that can be typed comes back from its print. */
  lemma RoundTrip(c: Cmd<string>) returns (r: Cmd<Span>)
    requires WellFormed(c)
    ensures ParseText(Print(c)) == Ok(r, |Print(c)|) && Read(Print(c), r) == c
  {
    var t := Print(c);
    assert t[0..0 + |t|] == t;
    r := LineBack(t, 0, c);
  }

  /** `>>` is parsed as what `>` gives: no command ever appends. */
  lemma AppendOverwrites(c: Cmd<string>, file: string) returns (r: Cmd<Span>)
    requires WellFormed(c) && IsWord(file)
    ensures var t := Block(c) + ">>" + file;
            ParseText(t) == Ok(r, |t|) && Read(t, r) == Redir(c, file, O_WRONLY_CREATE, 1)
  {
    hide Block, ParseExec, ParseRedirs, ParsePipe, ParseLine, Read;
    var t, m := Block(c) + ">>" + file, |Block(c)|;
    assert Occurs(t, 0, Block(c)) && Occurs(t, m + 2, file);
    var inner := BlockBack(t, 0, c);
    WordToken(t, m + 2, file);
    AppendToken(t, m);
    RedirStep(t, m, m + 2, '+', |t|);
    r := AppendRead(t, c, inner, Span(m + 2, |t|), m);
    PipeOfExec(t, 0, r, |t|);
    LineOfPipe(t, 0, r, |t|);
  }

  lemma AppendToken(t: string, m: nat)
    requires m + 2 < |t| && t[m] == t[m + 1] == '>' && !IsSpace(t[m + 2])
    ensures Skip(t, m) == m && Skip(t, m + 2) == m + 2 && TokenAt(t, m) == Token('+', Span(m, m + 2), m + 2)
  {
  }

  lemma AppendRead(t: string, c: Cmd<string>, inner: Cmd<Span>, file: Span, m: nat) returns (r: Cmd<Span>)
    requires Read(t, inner) == c && m <= |t| && ParseRedirs(t, m, []) == Ok([RedirectionFor('+', file)], |t|)
    requires ParseExec(t, 0) == Redirected(inner, ParseRedirs(t, m, []))
    ensures ParseExec(t, 0) == Ok(r, |t|) && Read(t, r) == Redir(c, Name(t, file), O_WRONLY_CREATE, 1)
  {
    hide ParseExec, ParseRedirs, WrapAll;
    var rs := [RedirectionFor('+', file)];
    OneWrap(inner, rs);
    r := Redir(inner, file, O_WRONLY_CREATE, 1);
  }

  /** What the parser gives can be typed again, whatever the text was. */
  lemma {:induction false} ReadWellFormed(t: string, c: Cmd<Span>)
    requires IsText(t) && CmdOk(t, c)
    ensures WellFormed(Read(t, c))
  {
    match c {
      case Exec(argv) =>
        forall k | 0 <= k < |argv|
          ensures IsWord(Names(t, argv)[k])
        {
          NameIsWord(t, argv[k]);
        }
      case Redir(cmd, file, _, _) =>
        ReadWellFormed(t, cmd);
        NameIsWord(t, file);
      case Pipe(left, right) =>
        ReadWellFormed(t, left);
        ReadWellFormed(t, right);
      case List(first, second) =>
        ReadWellFormed(t, first);
        ReadWellFormed(t, second);
      case Back(job) =>
        ReadWellFormed(t, job);
    }
  }

  lemma NameIsWord(t: string, x: Span)
    requires IsText(t) && TokenOk(t, x)
    ensures IsWord(Name(t, x))
  {
  }

  /** Parsing, printing and parsing again changes nothing. */
  lemma ParsePrintParse(t: string) returns (r: Cmd<Span>)
    requires IsText(t) && ParseText(t).Ok?
    ensures var c := Read(t, ParseText(t).value); ParseText(Print(c)) == Ok(r, |Print(c)|) && Read(Print(c), r) == c
  {
    ReadWellFormed(t, ParseText(t).value);
    r := RoundTrip(Read(t, ParseText(t).value));
  }
}
