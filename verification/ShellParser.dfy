/** The parser itself: recursive methods that move one cursor, and `nulterminate` in the shared buffer. */
module ShellParser {
  import opened Wrappers
  import opened ShellGrammar
  import opened ShellRoundTrip

  // ---------------------------------------------------------------------------
  // C strings

  /** The C string that starts at `i`. */
  function CString(b: string, i: nat): string
    requires i <= |b|
    decreases |b| - i
  {
    if i == |b| || b[i] == NUL then "" else [b[i]] + CString(b, i + 1)
  }

  lemma {:induction false} CStringIs(b: string, i: nat, e: nat)
    requires i <= e < |b| && b[e] == NUL && forall k :: i <= k < e ==> b[k] != NUL
    ensures CString(b, i) == b[i..e]
    decreases e - i
  {
    if i < e {
      CStringIs(b, i + 1, e);
      assert b[i..e] == [b[i]] + b[i + 1..e];
    }
  }

  /** All names in a command. */
  function Spans(c: Cmd<Span>): set<Span> {
    match c
    case Exec(argv) => set i | 0 <= i < |argv| :: argv[i]
    case Redir(cmd, file, _, _) => Spans(cmd) + {file}
    case Pipe(left, right) => Spans(left) + Spans(right)
    case List(first, second) => Spans(first) + Spans(second)
    case Back(job) => Spans(job)
  }

  ghost predicate EndsAt(xs: set<Span>, i: nat) {
    exists x :: x in xs && x.eq == i
  }

  ghost predicate IsEnd(c: Cmd<Span>, i: nat) {
    EndsAt(Spans(c), i)
  }

  /** `b'` is `b` with a NUL after every name of the command. */
  ghost predicate Terminated(b: string, c: Cmd<Span>, b': string) {
    |b'| == |b| && forall i: nat :: i < |b| ==> b'[i] == if IsEnd(c, i) then NUL else b[i]
  }

  lemma {:induction false} SpansOk(t: string, c: Cmd<Span>, x: Span)
    requires CmdOk(t, c) && x in Spans(c)
    ensures TokenOk(t, x)
  {
    match c {
      case Exec(argv) =>
      case Redir(cmd, file, _, _) => if x != file { SpansOk(t, cmd, x); }
      case Pipe(left, right) => if x in Spans(left) { SpansOk(t, left, x); } else { SpansOk(t, right, x); }
      case List(first, second) => if x in Spans(first) { SpansOk(t, first, x); } else { SpansOk(t, second, x); }
      case Back(job) => SpansOk(t, job, x);
    }
  }

  /** After nulterminate every name, as a C string in the buffer, is its token: no NUL cuts another name short. */
  lemma NamesTerminated(t: string, b: string, c: Cmd<Span>, b': string, x: Span)
    requires IsText(t) && |b| > |t| && b[..|t|] == t && b[|t|] == NUL && CmdOk(t, c) && Terminated(b, c, b') &&
             x in Spans(c)
    ensures x.q < |b'| && CString(b', x.q) == Name(t, x) != ""
  {
    SpansOk(t, c, x);
    assert IsEnd(c, x.eq);
    forall k | x.q <= k < x.eq
      ensures b'[k] == t[k] == b[k] != NUL
    {
      if IsEnd(c, k) {
        var y :| y in Spans(c) && y.eq == k;
        SpansOk(t, c, y);
      }
      assert b[..|t|][k] == b[k];
    }
    CStringIs(b', x.q, x.eq);
    assert b'[x.q..x.eq] == t[x.q..x.eq];
  }

  // ---------------------------------------------------------------------------
  // The cursor

  /** A parsing method has done what the grammar says. */
  ghost predicate Agrees<T>(p: Parse<T>, r: Option<T>, s: nat) {
    match p
    case Syntax => r.None?
    case Ok(value, next) => r == Some(value) && s == next
  }

  lemma SkipTwice(t: string, i: nat)
    requires i <= |t|
    ensures Skip(t, Skip(t, i)) == Skip(t, i)
  {
  }

  lemma WordsFromHere(t: string, i: nat, argv: seq<Span>, rs: seq<Redirection>)
    requires i <= |t|
    ensures ParseWords(t, Skip(t, i), argv, rs) == ParseWords(t, i, argv, rs)
  {
    SkipTwice(t, i);
  }

  /** What one turn of the loop of parseexec does. */
  lemma WordsTurn(t: string, s: nat, argv: seq<Span>, rs: seq<Redirection>)
    requires s <= |t| && s == Skip(t, s)
    ensures var tok, r := TokenAt(t, s), ParseWords(t, s, argv, rs);
            if At(t, s, "|)&;") then r == Ok((argv, rs), s)
            else if tok.kind == NUL then r == Ok((argv, rs), tok.next)
            else if tok.kind != 'a' || |argv| + 1 >= MAXARGS then r == Syntax
            else
              match ParseRedirs(t, tok.next, rs)
              case Syntax => r == Syntax
              case Ok(rs', next) => r == ParseWords(t, next, argv + [tok.span], rs')
  {
    hide TokenAt, Skip, ParseRedirs;
  }

  lemma BacksFromHere(t: string, i: nat, cmd: Cmd<Span>)
    requires i <= |t|
    ensures ParseBacks(t, Skip(t, i), cmd) == ParseBacks(t, i, cmd)
  {
    SkipTwice(t, i);
  }

  ghost predicate EndsBefore(argv: seq<Span>, i: nat, k: nat)
    requires i <= |argv|
  {
    exists j :: 0 <= j < i && argv[j].eq == k
  }

  lemma EndsOf(c: Cmd<Span>, a: Cmd<Span>, b: Cmd<Span>, more: set<Span>)
    requires Spans(c) == Spans(a) + Spans(b) + more
    ensures forall k: nat :: IsEnd(c, k) <==> IsEnd(a, k) || IsEnd(b, k) || EndsAt(more, k)
  {
    hide Spans, EndsAt;
    forall k: nat
      ensures IsEnd(c, k) <==> IsEnd(a, k) || IsEnd(b, k) || EndsAt(more, k)
    {
      EndsUnion(Spans(a), Spans(b), k);
      EndsUnion(Spans(a) + Spans(b), more, k);
    }
  }

  lemma EndsUnion(a: set<Span>, b: set<Span>, k: nat)
    ensures EndsAt(a + b, k) <==> EndsAt(a, k) || EndsAt(b, k)
  {
    if EndsAt(a, k) {
      var x :| x in a && x.eq == k;
      assert x in a + b;
    }
    if EndsAt(b, k) {
      var x :| x in b && x.eq == k;
      assert x in a + b;
    }
  }

  class Parser {
    const buf: array<char>
    const es: nat
    var s: nat

    ghost predicate Valid()
      reads this, buf
    {
      es < buf.Length && buf[es] == NUL && s <= es && IsText(buf[..es])
    }

    ghost function Text(): string
      reads this, buf
      requires es <= buf.Length
    {
      buf[..es]
    }

    constructor (buf: array<char>, es: nat)
      requires es < buf.Length && buf[es] == NUL && IsText(buf[..es])
      ensures Valid() && this.buf == buf && this.es == es && s == 0
    {
      this.buf, this.es, s := buf, es, 0;
    }

    /** The loop over white space. */
    method SkipSpace(i: nat) returns (r: nat)
      requires Valid() && i <= es
      ensures r == Skip(Text(), i)
    {
      r := i;
      while r < es && IsSpace(buf[r])
        invariant i <= r <= es && Skip(Text(), r) == Skip(Text(), i)
      {
        assert Text()[r] == buf[r];
        r := r + 1;
      }
      assert r < es ==> Text()[r] == buf[r];
    }

    /** gettoken. */
    method GetToken() returns (tok: char, q: nat, eq: nat)
      requires Valid()
      modifies this`s
      ensures Valid() && Token(tok, Span(q, eq), s) == TokenAt(Text(), Skip(Text(), old(s)))
      ensures old(s) <= s && (Skip(Text(), old(s)) < es ==> old(s) < s)
    {
      hide Skip;
      var i := SkipSpace(s);
      q := i;
      tok := buf[i];
      assert i < es ==> Text()[i] == buf[i];
      if buf[i] == NUL {
      } else if buf[i] == '>' {
        i := i + 1;
        assert i < es ==> Text()[i] == buf[i];
        if buf[i] == '>' {
          tok := '+';
          i := i + 1;
        }
      } else if IsSymbol(buf[i]) {
        i := i + 1;
      } else {
        tok := 'a';
        i := SkipWord(i);
      }
      eq := i;
      s := SkipSpace(i);
    }

    /** The loop over the characters of an argument. */
    method SkipWord(i: nat) returns (r: nat)
      requires Valid() && i <= es
      ensures r == WordEnd(Text(), i)
    {
      r := i;
      while r < es && !IsSpace(buf[r]) && !IsSymbol(buf[r])
        invariant i <= r <= es && WordEnd(Text(), r) == WordEnd(Text(), i)
      {
        assert Text()[r] == buf[r];
        r := r + 1;
      }
      assert r < es ==> Text()[r] == buf[r];
    }

    /** peek. */
    method Peek(toks: string) returns (found: bool)
      requires Valid() && NUL !in toks
      modifies this`s
      ensures Valid() && old(s) <= s == Skip(Text(), old(s)) && found == At(Text(), s, toks)
    {
      s := SkipSpace(s);
      assert s < es ==> Text()[s] == buf[s];
      found := buf[s] != NUL && buf[s] in toks;
    }

    // -------------------------------------------------------------------------
    // The grammar

    method ParseRedirections(rs0: seq<Redirection>) returns (r: Option<seq<Redirection>>)
      requires Valid()
      modifies this`s
      ensures Valid() && old(s) <= s && Agrees(ParseRedirs(Text(), old(s), rs0), r, s)
    {
      hide Skip, TokenAt;
      var rs := rs0;
      ghost var start := s;
      var more := Peek("<>");
      while more
        invariant Valid() && start <= s == Skip(Text(), s) && more == At(Text(), s, "<>")
        invariant ParseRedirs(Text(), s, rs) == ParseRedirs(Text(), start, rs0)
        decreases es - s
      {
        SkipTwice(Text(), s);
        var tok, _, _ := GetToken();
        var kind, q, eq := GetToken();
        if kind != 'a' {
          return None;
        }
        rs := rs + [RedirectionFor(tok, Span(q, eq))];
        more := Peek("<>");
      }
      return Some(rs);
    }

    /** `ret` in parseexec and parseblock: the command with its redirections around it. */
    method Wrapped(cmd: Cmd<Span>, rs: seq<Redirection>) returns (r: Cmd<Span>)
      ensures r == WrapAll(cmd, rs)
    {
      r := cmd;
      var i := 0;
      while i < |rs|
        invariant 0 <= i <= |rs| && r == WrapAll(cmd, rs[..i])
      {
        assert rs[..i + 1][..i] == rs[..i];
        r := Redir(r, rs[i].file, rs[i].mode, rs[i].fd);
        i := i + 1;
      }
      assert rs[..i] == rs;
    }

    method ParseExecCmd() returns (r: Option<Cmd<Span>>)
      requires Valid()
      modifies this`s
      ensures Valid() && old(s) <= s && Agrees(ParseExec(Text(), old(s)), r, s)
      decreases es - s, 2
    {
      hide Skip, TokenAt, ParseWords, ParseRedirs, ParseBlock;
      var block := Peek("(");
      if block {
        r := ParseBlockCmd();
        return;
      }
      var argv := new Span[MAXARGS];
      var argc := 0;
      var first := ParseRedirections([]);
      if first.None? {
        return None;
      }
      ghost var start := s;
      var rs := first.value;
      var words := ParseArguments(argv, rs);
      if words.None? {
        return None;
      }
      argc, rs := words.value.0, words.value.1;
      var cmd := Wrapped(Exec(argv[..argc]), rs);
      return Some(cmd);
    }

    /** The loop of parseexec: arguments go into `argv`, redirections in between around the command. */
    method ParseArguments(argv: array<Span>, rs0: seq<Redirection>) returns (r: Option<(nat, seq<Redirection>)>)
      requires Valid() && argv.Length == MAXARGS
      modifies this`s, argv
      ensures Valid() && old(s) <= s
      ensures match ParseWords(Text(), old(s), [], rs0)
              case Syntax => r.None?
              case Ok(words, next) =>
                s == next && r.Some? && r.value.0 < MAXARGS && argv[..r.value.0] == words.0 && r.value.1 == words.1
    {
      hide Skip, TokenAt, ParseRedirs, ParseWords, At, WordsOk, RedirsOk;
      var argc, rs := 0, rs0;
      ghost var start := s;
      assert argv[..0] == [];
      WordsFromHere(Text(), s, [], rs);
      var done := Peek("|)&;");
      while !done
        invariant Valid() && start <= s == Skip(Text(), s) && done == At(Text(), s, "|)&;")
        invariant 0 <= argc < MAXARGS
        invariant ParseWords(Text(), s, argv[..argc], rs) == ParseWords(Text(), start, [], rs0)
        decreases es - s, !done
      {
        WordsTurn(Text(), s, argv[..argc], rs);
        var tok, q, eq := GetToken();
        if tok == NUL {
          break;
        }
        if tok != 'a' {
          return None;
        }
        ghost var words := argv[..argc];
        argv[argc] := Span(q, eq);
        argc := argc + 1;
        assert argv[..argc] == words + [Span(q, eq)];
        if argc >= MAXARGS {
          return None;
        }
        var more := ParseRedirections(rs);
        if more.None? {
          return None;
        }
        rs := more.value;
        ghost var n := s;
        done := Peek("|)&;");
        WordsFromHere(Text(), n, argv[..argc], rs);
      }
      if done {
        WordsTurn(Text(), s, argv[..argc], rs);
      }
      return Some((argc, rs));
    }

    method ParseBlockCmd() returns (r: Option<Cmd<Span>>)
      requires Valid()
      modifies this`s
      ensures Valid() && old(s) <= s && Agrees(ParseBlock(Text(), old(s)), r, s)
      decreases es - s, 1
    {
      hide Skip, ParseRedirs, ParseLine, TokenAt;
      var open := Peek("(");
      if !open {
        return None;
      }
      SkipTwice(Text(), old(s));
      var tok, _, _ := GetToken();
      var cmd := ParseLineCmd();
      if cmd.None? {
        return None;
      }
      ghost var m := s;
      var close := Peek(")");
      if !close {
        return None;
      }
      SkipTwice(Text(), m);
      var tok2, _, _ := GetToken();
      var rs := ParseRedirections([]);
      if rs.None? {
        return None;
      }
      var w := Wrapped(cmd.value, rs.value);
      return Some(w);
    }

    method ParsePipeCmd() returns (r: Option<Cmd<Span>>)
      requires Valid()
      modifies this`s
      ensures Valid() && old(s) <= s && Agrees(ParsePipe(Text(), old(s)), r, s)
      decreases es - s, 3
    {
      hide Skip, ParseExec, TokenAt;
      var left := ParseExecCmd();
      if left.None? {
        return None;
      }
      ghost var m := s;
      var more := Peek("|");
      if more {
        SkipTwice(Text(), m);
        var tok, _, _ := GetToken();
        var right := ParsePipeCmd();
        if right.None? {
          return None;
        }
        return Some(Pipe(left.value, right.value));
      }
      return left;
    }

    /** The loop of parseline over `&`. */
    method ParseBackground(cmd0: Cmd<Span>) returns (cmd: Cmd<Span>)
      requires Valid()
      modifies this`s
      ensures Valid() && old(s) <= s && (cmd, s) == ParseBacks(Text(), old(s), cmd0)
    {
      hide Skip, TokenAt;
      cmd := cmd0;
      ghost var start := s;
      BacksFromHere(Text(), s, cmd);
      var more := Peek("&");
      while more
        invariant Valid() && start <= s == Skip(Text(), s) && more == At(Text(), s, "&")
        invariant ParseBacks(Text(), s, cmd) == ParseBacks(Text(), start, cmd0)
        decreases es - s
      {
        var tok, _, _ := GetToken();
        cmd := Back(cmd);
        BacksFromHere(Text(), s, cmd);
        more := Peek("&");
      }
    }

    method ParseLineCmd() returns (r: Option<Cmd<Span>>)
      requires Valid()
      modifies this`s
      ensures Valid() && old(s) <= s && Agrees(ParseLine(Text(), old(s)), r, s)
      decreases es - s, 4
    {
      hide Skip, ParsePipe, TokenAt, ParseBacks;
      var pipe := ParsePipeCmd();
      if pipe.None? {
        return None;
      }
      var cmd := ParseBackground(pipe.value);
      ghost var n := s;
      var second := Peek(";");
      if second {
        var tok, _, _ := GetToken();
        var rest := ParseLineCmd();
        if rest.None? {
          return None;
        }
        return Some(List(cmd, rest.value));
      }
      return Some(cmd);
    }
  }

  // ---------------------------------------------------------------------------
  // nulterminate

  /** nulterminate: a NUL after every name. */
  method NulTerminate(buf: array<char>, c: Cmd<Span>)
    requires forall x :: x in Spans(c) ==> x.eq < buf.Length
    modifies buf
    ensures Terminated(old(buf[..]), c, buf[..])
    decreases c
  {
    match c {
      case Exec(argv) =>
        var i := 0;
        while i < |argv|
          invariant 0 <= i <= |argv|
          invariant forall k: nat :: k < buf.Length ==> buf[k] == if EndsBefore(argv, i, k) then NUL else old(buf[k])
        {
          assert argv[i] in Spans(c);
          buf[argv[i].eq] := NUL;
          i := i + 1;
        }
        forall k: nat
          ensures IsEnd(c, k) <==> EndsBefore(argv, |argv|, k)
        {
          if EndsBefore(argv, |argv|, k) {
            var j :| 0 <= j < |argv| && argv[j].eq == k;
            assert argv[j] in Spans(c);
          }
        }
      case Redir(cmd, file, _, _) =>
        NulTerminate(buf, cmd);
        assert file in Spans(c);
        ghost var b := buf[..];
        buf[file.eq] := NUL;
        EndsOf(c, cmd, cmd, {file});
      case Pipe(left, right) =>
        NulTerminate(buf, left);
        ghost var b := buf[..];
        NulTerminate(buf, right);
        EndsOf(c, left, right, {});
      case List(first, second) =>
        NulTerminate(buf, first);
        ghost var b := buf[..];
        NulTerminate(buf, second);
        EndsOf(c, first, second, {});
      case Back(job) =>
        NulTerminate(buf, job);
        EndsOf(c, job, job, {});
    }
  }

  // ---------------------------------------------------------------------------
  // parsecmd

  /** strlen. */
  method Strlen(buf: array<char>) returns (n: nat)
    requires exists k :: 0 <= k < buf.Length && buf[k] == NUL
    ensures n < buf.Length && buf[n] == NUL && IsText(buf[..n])
  {
    n := 0;
    while buf[n] != NUL
      invariant n < buf.Length && forall k :: 0 <= k < n ==> buf[k] != NUL
      invariant exists k :: n <= k < buf.Length && buf[k] == NUL
      decreases buf.Length - n
    {
      n := n + 1;
    }
  }

  /**
   parsecmd: the command, with all its names NUL-terminated in the buffer; or a panic. Every name, as
   a C string, is then the token that was read, and together they are what the grammar says.
   */
  method ParseCmd(buf: array<char>) returns (r: Option<Cmd<Span>>, ghost t: string)
    requires exists k :: 0 <= k < buf.Length && buf[k] == NUL
    modifies buf
    ensures |t| < buf.Length && t == old(buf[..])[..|t|] && IsText(t) && old(buf[..])[|t|] == NUL
    ensures Agrees(ParseText(t), r, |t|)
    ensures r.None? ==> buf[..] == old(buf[..])
    ensures r.Some? ==> Terminated(old(buf[..]), r.value, buf[..])
    ensures r.Some? ==> forall x :: x in Spans(r.value) ==>
              x.q < buf.Length && CString(buf[..], x.q) == Name(t, x) != ""
  {
    var es := Strlen(buf);
    t := buf[..es];
    assert t == buf[..][..es];
    var p := new Parser(buf, es);
    var cmd := p.ParseLineCmd();
    if cmd.None? {
      return None, t;
    }
    var leftovers := p.Peek("");
    if p.s != es {
      return None, t;
    }
    forall x | x in Spans(cmd.value)
      ensures x.eq < buf.Length
    {
      SpansOk(t, cmd.value, x);
    }
    ghost var b := buf[..];
    NulTerminate(buf, cmd.value);
    forall x | x in Spans(cmd.value)
      ensures x.q < buf.Length && CString(buf[..], x.q) == Name(t, x) != ""
    {
      NamesTerminated(t, b, cmd.value, buf[..], x);
    }
    return cmd, t;
  }
}
