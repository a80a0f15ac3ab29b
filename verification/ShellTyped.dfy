/**
 Command lines as they are typed, and what they mean: which texts the shell's parser takes, and what
 it makes of them. Nothing here is said in terms of the parsing functions.

 A line is written down as a tree with the places of its tokens; `Laid...` says that a text has these
 tokens there, with nothing but white space in between, and `...Means` what the command then is.
 */
module ShellTyped {
  import opened ShellGrammar

  // ---------------------------------------------------------------------------
  // Lines with the places of their tokens

  /** An argument, or a redirection with its file. */
  datatype Item = Word(x: Span) | To(op: Span, file: Span)

  datatype Part = Command(items: seq<Item>) | Group(open: nat, line: Line, close: nat, redirs: seq<Item>)

  datatype Parts = One(part: Part) | Bar(part: Part, bar: nat, rest: Parts)

  datatype Line = Last(parts: Parts, amps: seq<nat>) | Then(parts: Parts, amps: seq<nat>, semi: nat, rest: Line)

  function ItemEnd(it: Item): nat {
    match it
    case Word(x) => x.eq
    case To(_, file) => file.eq
  }

  /** Where the last token ends; `i` if there is none. */
  function ItemsEnd(i: nat, items: seq<Item>): nat
    decreases |items|
  {
    if items == [] then i else ItemsEnd(ItemEnd(items[0]), items[1..])
  }

  function PartEnd(i: nat, p: Part): nat {
    match p
    case Command(items) => ItemsEnd(i, items)
    case Group(_, _, close, redirs) => ItemsEnd(close + 1, redirs)
  }

  function PartsEnd(i: nat, ps: Parts): nat
    decreases ps
  {
    match ps
    case One(p) => PartEnd(i, p)
    case Bar(_, bar, rest) => PartsEnd(bar + 1, rest)
  }

  function AmpsEnd(i: nat, amps: seq<nat>): nat
    decreases |amps|
  {
    if amps == [] then i else AmpsEnd(amps[0] + 1, amps[1..])
  }

  function LineEnd(i: nat, l: Line): nat
    decreases l
  {
    match l
    case Last(ps, amps) => AmpsEnd(PartsEnd(i, ps), amps)
    case Then(_, _, semi, rest) => LineEnd(semi + 1, rest)
  }

  // ---------------------------------------------------------------------------
  // Their texts

  /** Nothing but white space from `i` to `s`. */
  predicate Blank(t: string, i: nat, s: nat) {
    i <= s <= |t| && forall k :: i <= k < s ==> IsSpace(t[k])
  }

  predicate SymbolAt(t: string, i: nat, s: nat, c: char) {
    Blank(t, i, s) && s < |t| && t[s] == c
  }

  /** `<`, `>` or `>>`; two `>` in a row are always one token. */
  predicate OpAt(t: string, x: Span) {
    && x.q < x.eq <= |t|
    && (t[x.q..x.eq] == "<" || (t[x.q..x.eq] == ">" && (x.eq < |t| ==> t[x.eq] != '>')) || t[x.q..x.eq] == ">>")
  }

  ghost predicate ItemAt(t: string, i: nat, it: Item) {
    match it
    case Word(x) => Blank(t, i, x.q) && TokenOk(t, x)
    case To(op, file) => Blank(t, i, op.q) && OpAt(t, op) && Blank(t, op.eq, file.q) && TokenOk(t, file)
  }

  ghost predicate LaidItems(t: string, i: nat, items: seq<Item>)
    decreases |items|
  {
    i <= |t| && (items != [] ==> ItemAt(t, i, items[0]) && LaidItems(t, ItemEnd(items[0]), items[1..]))
  }

  /** The arguments, in order. */
  function Words(items: seq<Item>): seq<Span> {
    if items == [] then [] else (if items[0].Word? then [items[0].x] else []) + Words(items[1..])
  }

  /** The redirections, in order. */
  function Tos(items: seq<Item>): seq<Item> {
    if items == [] then [] else (if items[0].To? then [items[0]] else []) + Tos(items[1..])
  }

  ghost predicate LaidPart(t: string, i: nat, p: Part)
    decreases p, 0
  {
    match p
    case Command(items) => LaidItems(t, i, items) && |Words(items)| < MAXARGS
    case Group(open, line, close, redirs) =>
      && SymbolAt(t, i, open, '(') && LaidLine(t, open + 1, line)
      && SymbolAt(t, LineEnd(open + 1, line), close, ')')
      && LaidItems(t, close + 1, redirs) && forall k :: 0 <= k < |redirs| ==> redirs[k].To?
  }

  ghost predicate LaidParts(t: string, i: nat, ps: Parts)
    decreases ps, 1
  {
    match ps
    case One(p) => LaidPart(t, i, p)
    case Bar(p, bar, rest) => LaidPart(t, i, p) && SymbolAt(t, PartEnd(i, p), bar, '|') && LaidParts(t, bar + 1, rest)
  }

  ghost predicate LaidAmps(t: string, i: nat, amps: seq<nat>)
    decreases |amps|
  {
    i <= |t| && (amps != [] ==> SymbolAt(t, i, amps[0], '&') && LaidAmps(t, amps[0] + 1, amps[1..]))
  }

  ghost predicate LaidLine(t: string, i: nat, l: Line)
    decreases l, 2
  {
    match l
    case Last(ps, amps) => LaidParts(t, i, ps) && LaidAmps(t, PartsEnd(i, ps), amps)
    case Then(ps, amps, semi, rest) =>
      && LaidParts(t, i, ps) && LaidAmps(t, PartsEnd(i, ps), amps)
      && SymbolAt(t, AmpsEnd(PartsEnd(i, ps), amps), semi, ';') && LaidLine(t, semi + 1, rest)
  }

  /** The text is the line, with white space after it. */
  ghost predicate LaidText(t: string, l: Line) {
    LaidLine(t, 0, l) && Blank(t, LineEnd(0, l), |t|)
  }

  // ---------------------------------------------------------------------------
  // Their meaning

  /** The command without its `n` outermost redirections. */
  function Layer(c: Cmd<Span>, n: nat): Cmd<Span> {
    if n > 0 && c.Redir? then Layer(c.cmd, n - 1) else c
  }

  /** The `n`-th layer from outside is the `n`-th redirection from the end. */
  ghost predicate LayerAt(t: string, c: Cmd<Span>, tos: seq<Item>, n: nat)
    requires n < |tos|
  {
    var to := tos[|tos| - 1 - n];
    to.To? && to.op.q < |t| &&
    Layer(c, n) == if t[to.op.q] == '<' then Redir(Layer(c, n + 1), to.file, O_RDONLY, 0)
                   else Redir(Layer(c, n + 1), to.file, O_WRONLY_CREATE, 1)
  }

  /** Around `inner` there are just these redirections, the last one outermost. */
  ghost predicate Layers(t: string, c: Cmd<Span>, tos: seq<Item>, inner: Cmd<Span>) {
    Layer(c, |tos|) == inner && forall n: nat :: n < |tos| ==> LayerAt(t, c, tos, n)
  }

  ghost predicate PartMeans(t: string, p: Part, c: Cmd<Span>)
    decreases p, 0
  {
    match p
    case Command(items) => Layers(t, c, Tos(items), Exec(Words(items)))
    case Group(_, line, _, redirs) =>
      Layers(t, c, redirs, Layer(c, |redirs|)) && LineMeans(t, line, Layer(c, |redirs|))
  }

  /** A pipe goes to the right: `a | (b | c)`. */
  ghost predicate PartsMean(t: string, ps: Parts, c: Cmd<Span>)
    decreases ps, 1
  {
    match ps
    case One(p) => PartMeans(t, p, c)
    case Bar(p, _, rest) => c.Pipe? && PartMeans(t, p, c.left) && PartsMean(t, rest, c.right)
  }

  /** The command in `n` times the background. */
  function Backs(c: Cmd<Span>, n: nat): Cmd<Span> {
    if n == 0 then c else Back(Backs(c, n - 1))
  }

  ghost predicate JobMeans(t: string, ps: Parts, amps: nat, c: Cmd<Span>)
    decreases ps, 2
  {
    exists pipe: Cmd<Span> :: PartsMean(t, ps, pipe) && c == Backs(pipe, amps)
  }

  /** A list goes to the right as well; `&` binds what is before it, back to the last `;`. */
  ghost predicate LineMeans(t: string, l: Line, c: Cmd<Span>)
    decreases l, 3
  {
    match l
    case Last(ps, amps) => JobMeans(t, ps, |amps|, c)
    case Then(ps, amps, _, rest) => c.List? && JobMeans(t, ps, |amps|, c.first) && LineMeans(t, rest, c.second)
  }

  // ---------------------------------------------------------------------------
  // White space and tokens

  lemma SkipBlank(t: string, i: nat, s: nat)
    requires Blank(t, i, s) && (s < |t| ==> !IsSpace(t[s]))
    ensures Skip(t, i) == s && Skip(t, s) == s
  {
  }

  lemma SkipAgain(t: string, i: nat)
    requires i <= |t|
    ensures Skip(t, Skip(t, i)) == Skip(t, i)
  {
  }

  /** What comes next is the end, or one of the characters. */
  predicate Before(t: string, e: nat, toks: string) {
    e <= |t| && var s := Skip(t, e); s < |t| ==> t[s] in toks
  }

  lemma WordAt(t: string, x: Span)
    requires TokenOk(t, x)
    ensures !IsSpace(t[x.q]) && !IsSymbol(t[x.q]) && TokenAt(t, x.q) == Token('a', x, Skip(t, x.eq))
  {
    WordEndIs(t, x.q, x.eq);
  }

  lemma {:induction false} WordEndIs(t: string, i: nat, e: nat)
    requires i <= e <= |t| && (e < |t| ==> IsSpace(t[e]) || IsSymbol(t[e]))
    requires forall k :: i <= k < e ==> !IsSpace(t[k]) && !IsSymbol(t[k])
    ensures WordEnd(t, i) == e
    decreases e - i
  {
    if i < e {
      WordEndIs(t, i + 1, e);
    }
  }

  /** The redirection that a token and its file give. */
  function RedirectionOf(t: string, it: Item): Redirection
    requires it.To? && it.op.q < |t|
  {
    if t[it.op.q] == '<' then Redirection(it.file, O_RDONLY, 0) else Redirection(it.file, O_WRONLY_CREATE, 1)
  }

  lemma OpToken(t: string, x: Span)
    requires OpAt(t, x)
    ensures t[x.q] == '<' || t[x.q] == '>'
    ensures var tok := TokenAt(t, x.q);
            && tok.next == Skip(t, x.eq) && tok.span == x && (tok.kind == '<' <==> t[x.q] == '<')
            && (tok.kind == '<' || tok.kind == '>' || tok.kind == '+')
  {
    assert t[x.q..x.eq][0] == t[x.q];
    if t[x.q..x.eq] == ">>" {
      assert t[x.q..x.eq][1] == t[x.q + 1];
    }
  }

  // ---------------------------------------------------------------------------
  // Arguments and redirections

  /** One redirection, and parseredirs goes on after it. */
  lemma RedirectionBack(t: string, i: nat, it: Item, rs: seq<Redirection>)
    requires it.To? && ItemAt(t, i, it)
    ensures it.op.q < |t| && ParseRedirs(t, i, rs) == ParseRedirs(t, it.file.eq, rs + [RedirectionOf(t, it)])
  {
    OpToken(t, it.op);
    WordAt(t, it.file);
    SkipBlank(t, i, it.op.q);
    SkipBlank(t, it.op.eq, it.file.q);
    SkipAgain(t, it.op.eq);
    hide TokenAt, Skip;
    assert At(t, it.op.q, "<>");
    RedirsSkip(t, it.file.eq, rs + [RedirectionOf(t, it)]);
  }

  lemma RedirsSkip(t: string, i: nat, rs: seq<Redirection>)
    requires i <= |t|
    ensures Skip(t, i) <= |t| && ParseRedirs(t, Skip(t, i), rs) == ParseRedirs(t, i, rs)
  {
    SkipAgain(t, i);
    hide TokenAt, Skip;
  }

  lemma RedirsStop(t: string, i: nat, rs: seq<Redirection>)
    requires i <= |t| && !At(t, Skip(t, i), "<>")
    ensures ParseRedirs(t, i, rs) == Ok(rs, Skip(t, i))
  {
  }

  function RedirectionsOf(t: string, tos: seq<Item>): seq<Redirection>
    requires forall k :: 0 <= k < |tos| ==> tos[k].To? && tos[k].op.q < |t|
  {
    seq(|tos|, k requires 0 <= k < |tos| => RedirectionOf(t, tos[k]))
  }

  /** parseredirs, and then the loop of parseexec. */
  function ParseItems(t: string, i: nat, argv: seq<Span>, rs: seq<Redirection>):
    (r: Parse<(seq<Span>, seq<Redirection>)>)
    requires i <= |t|
  {
    match ParseRedirs(t, i, rs)
    case Syntax => Syntax
    case Ok(rs', m) => ParseWords(t, m, argv, rs')
  }

  lemma WordBack(t: string, i: nat, x: Span, argv: seq<Span>, rs: seq<Redirection>)
    requires ItemAt(t, i, Word(x)) && |argv| + 1 < MAXARGS
    ensures ParseItems(t, i, argv, rs) == ParseItems(t, x.eq, argv + [x], rs)
  {
    WordAt(t, x);
    SkipBlank(t, i, x.q);
    hide TokenAt, Skip;
    RedirsStop(t, i, rs);
    assert !At(t, x.q, "|)&;");
    RedirsSkip(t, x.eq, rs);
  }

  lemma NoMoreItems(t: string, i: nat, argv: seq<Span>, rs: seq<Redirection>)
    requires Before(t, i, "|)&;")
    ensures ParseItems(t, i, argv, rs) == Ok((argv, rs), Skip(t, i))
  {
    SkipAgain(t, i);
    RedirsStop(t, i, rs);
  }

  lemma {:induction false} TosOk(t: string, i: nat, items: seq<Item>)
    requires LaidItems(t, i, items)
    ensures forall k :: 0 <= k < |Tos(items)| ==> Tos(items)[k].To? && Tos(items)[k].op.q < |t|
    ensures i <= ItemsEnd(i, items) <= |t|
    decreases |items|
  {
    if items != [] {
      TosOk(t, ItemEnd(items[0]), items[1..]);
    }
  }

  lemma NoRedirections(t: string, rs: seq<Redirection>)
    ensures rs + RedirectionsOf(t, []) == rs
  {
  }

  lemma OneMoreRedirection(t: string, rs: seq<Redirection>, it: Item, rest: seq<Item>)
    requires it.To? && it.op.q < |t| && forall k :: 0 <= k < |rest| ==> rest[k].To? && rest[k].op.q < |t|
    ensures rs + [RedirectionOf(t, it)] + RedirectionsOf(t, rest) == rs + RedirectionsOf(t, [it] + rest)
  {
    hide RedirectionOf;
    assert RedirectionsOf(t, [it] + rest) == [RedirectionOf(t, it)] + RedirectionsOf(t, rest);
  }

  /** The arguments and redirections of a command, in any order. */
  lemma {:induction false} ItemsBack(t: string, i: nat, items: seq<Item>, argv: seq<Span>, rs: seq<Redirection>)
    requires LaidItems(t, i, items) && Before(t, ItemsEnd(i, items), "|)&;")
    requires |argv| + |Words(items)| < MAXARGS
    requires forall k :: 0 <= k < |Tos(items)| ==> Tos(items)[k].To? && Tos(items)[k].op.q < |t|
    ensures ParseItems(t, i, argv, rs) ==
              Ok((argv + Words(items), rs + RedirectionsOf(t, Tos(items))), Skip(t, ItemsEnd(i, items)))
    decreases |items|
  {
    hide ParseItems, ParseRedirs, Skip, Before, RedirectionOf, RedirectionsOf, ItemAt;
    if items == [] {
      NoMoreItems(t, i, argv, rs);
      NoRedirections(t, rs);
      assert argv + Words(items) == argv;
    } else {
      var it, rest := items[0], items[1..];
      TosOk(t, ItemEnd(it), rest);
      match it {
        case Word(x) =>
          WordBack(t, i, x, argv, rs);
          ItemsBack(t, x.eq, rest, argv + [x], rs);
          assert argv + [x] + Words(rest) == argv + Words(items) && Tos(items) == Tos(rest);
        case To(op, file) =>
          RedirectionBack(t, i, it, rs);
          ItemsOn(t, i, argv, rs, file.eq, rs + [RedirectionOf(t, it)]);
          ItemsBack(t, file.eq, rest, argv, rs + [RedirectionOf(t, it)]);
          assert Tos(items) == [it] + Tos(rest) && Words(items) == Words(rest);
          OneMoreRedirection(t, rs, it, Tos(rest));
      }
    }
  }

  lemma ItemsOn(t: string, i: nat, argv: seq<Span>, rs: seq<Redirection>, i': nat, rs': seq<Redirection>)
    requires i <= |t| && i' <= |t| && ParseRedirs(t, i, rs) == ParseRedirs(t, i', rs')
    ensures ParseItems(t, i, argv, rs) == ParseItems(t, i', argv, rs')
  {
  }

  /** The redirections after a closing parenthesis. */
  lemma {:induction false} RedirsBack(t: string, i: nat, redirs: seq<Item>, rs: seq<Redirection>)
    requires LaidItems(t, i, redirs) && Before(t, ItemsEnd(i, redirs), "|)&;")
    requires forall k :: 0 <= k < |redirs| ==> redirs[k].To? && redirs[k].op.q < |t|
    ensures ParseRedirs(t, i, rs) == Ok(rs + RedirectionsOf(t, redirs), Skip(t, ItemsEnd(i, redirs)))
    decreases |redirs|
  {
    hide ParseRedirs, Skip, RedirectionOf;
    if redirs == [] {
      RedirsStop(t, i, rs);
      assert rs + RedirectionsOf(t, redirs) == rs;
    } else {
      var it, rest := redirs[0], redirs[1..];
      RedirectionBack(t, i, it, rs);
      RedirsBack(t, it.file.eq, rest, rs + [RedirectionOf(t, it)]);
      assert rs + [RedirectionOf(t, it)] + RedirectionsOf(t, rest) == rs + RedirectionsOf(t, redirs);
    }
  }

  /** What wrapping gives, layer by layer. */
  lemma {:induction false} WrapLayers(t: string, cmd: Cmd<Span>, tos: seq<Item>)
    requires forall k :: 0 <= k < |tos| ==> tos[k].To? && tos[k].op.q < |t|
    ensures Layers(t, WrapAll(cmd, RedirectionsOf(t, tos)), tos, cmd)
  {
    var rs := RedirectionsOf(t, tos);
    if tos != [] {
      var init := tos[..|tos| - 1];
      WrapLayers(t, cmd, init);
      assert RedirectionsOf(t, init) == rs[..|rs| - 1];
      var c, c0 := WrapAll(cmd, rs), WrapAll(cmd, RedirectionsOf(t, init));
      assert c.Redir? && c.cmd == c0 && c == Redir(c0, rs[|rs| - 1].file, rs[|rs| - 1].mode, rs[|rs| - 1].fd);
      LayerInside(c, 1);
      LayerInside(c, |tos|);
      hide Layer, WrapAll;
      forall n: nat | n < |tos|
        ensures LayerAt(t, c, tos, n)
      {
        LayerInside(c, n);
        LayerInside(c, 0);
        NoLayer(c0);
        if n > 0 {
          LayerInside(c, n + 1);
          assert LayerAt(t, c0, init, n - 1);
          assert tos[|tos| - 1 - n] == init[|init| - 1 - (n - 1)];
        }
      }
    }
  }

  lemma NoLayer(c: Cmd<Span>)
    ensures Layer(c, 0) == c
  {
  }

  lemma LayerInside(c: Cmd<Span>, n: nat)
    requires c.Redir?
    ensures Layer(c, n) == if n == 0 then c else Layer(c.cmd, n - 1)
  {
  }

  // ---------------------------------------------------------------------------
  // Every line that is typed is parsed, and means what it should

  lemma ExecSkip(t: string, i: nat)
    requires i <= |t|
    ensures ParseExec(t, Skip(t, i)) == ParseExec(t, i)
  {
    SkipAgain(t, i);
    hide Skip, ParseBlock;
  }

  lemma PipeSkip(t: string, i: nat)
    requires i <= |t|
    ensures ParsePipe(t, Skip(t, i)) == ParsePipe(t, i)
  {
    ExecSkip(t, i);
    hide Skip, ParseExec;
  }

  lemma LineSkip(t: string, i: nat)
    requires i <= |t|
    ensures ParseLine(t, Skip(t, i)) == ParseLine(t, i)
  {
    PipeSkip(t, i);
    hide Skip, ParsePipe;
  }

  lemma BacksSkip(t: string, i: nat, c: Cmd<Span>)
    requires i <= |t|
    ensures ParseBacks(t, Skip(t, i), c) == ParseBacks(t, i, c)
  {
    SkipAgain(t, i);
    hide Skip;
  }

  /** A symbol that is a token of its own. */
  lemma SymbolBack(t: string, i: nat, s: nat, c: char)
    requires SymbolAt(t, i, s, c) && IsSymbol(c) && c != '>'
    ensures Skip(t, i) == s == Skip(t, s) && TokenAt(t, s).next == Skip(t, s + 1)
  {
    SkipBlank(t, i, s);
  }

  lemma SymbolPlace(t: string, i: nat, s: nat, c: char)
    requires SymbolAt(t, i, s, c)
    ensures i <= s < |t| && t[s] == c
  {
  }

  /** A command does not begin with a parenthesis. */
  lemma NoParenthesis(t: string, i: nat, items: seq<Item>)
    requires LaidItems(t, i, items) && Before(t, ItemsEnd(i, items), "|)&;")
    ensures !At(t, Skip(t, i), "(")
  {
    if items != [] {
      match items[0] {
        case Word(x) =>
          WordAt(t, x);
          SkipBlank(t, i, x.q);
        case To(op, _) =>
          OpToken(t, op);
          SkipBlank(t, i, op.q);
      }
    }
  }

  lemma CommandBack(t: string, i: nat, items: seq<Item>) returns (c: Cmd<Span>)
    requires LaidItems(t, i, items) && |Words(items)| < MAXARGS && Before(t, ItemsEnd(i, items), "|)&;")
    ensures ParseExec(t, i) == Ok(c, Skip(t, ItemsEnd(i, items)))
    ensures Layers(t, c, Tos(items), Exec(Words(items)))
  {
    hide Layers, ParseWords, ParseRedirs, Skip, Before, WrapAll, RedirectionsOf;
    TosOk(t, i, items);
    NoParenthesis(t, i, items);
    ItemsBack(t, i, items, [], []);
    var rs := RedirectionsOf(t, Tos(items));
    assert [] + Words(items) == Words(items) && [] + rs == rs;
    c := WrapAll(Exec(Words(items)), rs);
    WrapLayers(t, Exec(Words(items)), Tos(items));
    ExecOfItems(t, i, Words(items), rs, Skip(t, ItemsEnd(i, items)));
  }

  lemma ExecOfItems(t: string, i: nat, xs: seq<Span>, rs: seq<Redirection>, e: nat)
    requires i <= |t| && !At(t, Skip(t, i), "(") && ParseItems(t, i, [], []) == Ok((xs, rs), e)
    ensures ParseExec(t, i) == Ok(WrapAll(Exec(xs), rs), e)
  {
    RedirsSkip(t, i, []);
    hide ParseWords, ParseRedirs, Skip, WrapAll;
  }

  lemma {:induction false} PartBack(t: string, i: nat, p: Part) returns (c: Cmd<Span>)
    requires i <= |t| && LaidPart(t, i, p) && Before(t, PartEnd(i, p), "|)&;")
    ensures ParseExec(t, i) == Ok(c, Skip(t, PartEnd(i, p))) && PartMeans(t, p, c)
    decreases p, 0
  {
    hide ParseExec, ParseLine, Layers, LayerAt, Layer, LineMeans, LaidItems, LaidLine, Skip, Before, SymbolAt, Blank,
         ItemsEnd, LineEnd, Words, Tos;
    match p {
      case Command(items) => c := CommandBack(t, i, items);
      case Group(open, line, close, redirs) =>
        SymbolPlace(t, i, open, '(');
        CloseEnds(t, LineEnd(open + 1, line), close);
        var inner := LineBack(t, open + 1, line);
        c := GroupBack(t, i, open, inner, LineEnd(open + 1, line), close, redirs);
        GroupMeans(t, p, c, inner);
    }
  }

  lemma GroupMeans(t: string, p: Part, c: Cmd<Span>, inner: Cmd<Span>)
    requires p.Group? && Layers(t, c, p.redirs, inner) && LineMeans(t, p.line, inner)
    ensures PartMeans(t, p, c)
  {
    hide LineMeans, LayerAt, Layer;
  }

  lemma CloseEnds(t: string, e: nat, close: nat)
    requires SymbolAt(t, e, close, ')')
    ensures Before(t, e, ")")
  {
    SkipBlank(t, e, close);
  }

  lemma GroupBack(t: string, i: nat, open: nat, inner: Cmd<Span>, e: nat, close: nat, redirs: seq<Item>)
    returns (c: Cmd<Span>)
    requires SymbolAt(t, i, open, '(') && SymbolAt(t, e, close, ')') && ParseLine(t, open + 1) == Ok(inner, Skip(t, e))
    requires LaidItems(t, close + 1, redirs) && forall k :: 0 <= k < |redirs| ==> redirs[k].To?
    requires Before(t, ItemsEnd(close + 1, redirs), "|)&;")
    ensures ParseExec(t, i) == Ok(c, Skip(t, ItemsEnd(close + 1, redirs))) && Layers(t, c, redirs, inner)
  {
    hide Layers, WrapAll, RedirectionsOf, ParseLine, ParseRedirs, LaidItems, ParseExec, Skip, SymbolAt, Before;
    AllTos(redirs);
    TosOk(t, close + 1, redirs);
    RedirsBack(t, close + 1, redirs, []);
    WrapLayers(t, inner, redirs);
    var rs := RedirectionsOf(t, redirs);
    c := WrapAll(inner, rs);
    assert [] + rs == rs;
    BlockOf(t, i, open, inner, e, close, rs, Skip(t, ItemsEnd(close + 1, redirs)));
  }

  lemma BlockOf(t: string, i: nat, open: nat, inner: Cmd<Span>, e: nat, close: nat, rs: seq<Redirection>, next: nat)
    requires SymbolAt(t, i, open, '(') && SymbolAt(t, e, close, ')') && ParseLine(t, open + 1) == Ok(inner, Skip(t, e))
    requires ParseRedirs(t, close + 1, []) == Ok(rs, next)
    ensures ParseExec(t, i) == Ok(WrapAll(inner, rs), next)
  {
    hide WrapAll, ParseLine, ParseRedirs;
    SymbolBack(t, i, open, '(');
    SymbolBack(t, e, close, ')');
    SkipAgain(t, e);
    LineSkip(t, open + 1);
    RedirsSkip(t, close + 1, []);
    hide Skip, TokenAt;
    assert At(t, open, "(") && At(t, close, ")");
  }

  lemma {:induction false} AllTos(redirs: seq<Item>)
    requires forall k :: 0 <= k < |redirs| ==> redirs[k].To?
    ensures Tos(redirs) == redirs && Words(redirs) == []
  {
    if redirs != [] {
      AllTos(redirs[1..]);
    }
  }

  lemma {:induction false} PartsBack(t: string, i: nat, ps: Parts) returns (c: Cmd<Span>)
    requires i <= |t| && LaidParts(t, i, ps) && Before(t, PartsEnd(i, ps), ")&;")
    ensures ParsePipe(t, i) == Ok(c, Skip(t, PartsEnd(i, ps))) && PartsMean(t, ps, c)
    decreases ps, 1
  {
    hide LaidPart, PartMeans, ParseExec;
    match ps {
      case One(p) =>
        c := PartBack(t, i, p);
        SkipAgain(t, PartEnd(i, p));
      case Bar(p, bar, rest) =>
        SkipBlank(t, PartEnd(i, p), bar);
        var left := PartBack(t, i, p);
        var right := PartsBack(t, bar + 1, rest);
        c := Pipe(left, right);
        PipeOfTwo(t, i, left, PartEnd(i, p), bar, right, Skip(t, PartsEnd(i, ps)));
    }
  }

  lemma PipeOfTwo(t: string, i: nat, left: Cmd<Span>, e: nat, bar: nat, right: Cmd<Span>, next: nat)
    requires i <= |t| && SymbolAt(t, e, bar, '|') && ParseExec(t, i) == Ok(left, Skip(t, e))
    requires ParsePipe(t, bar + 1) == Ok(right, next)
    ensures ParsePipe(t, i) == Ok(Pipe(left, right), next)
  {
    hide ParseExec, ParsePipe, Skip, TokenAt, PipeRest, SymbolAt;
    SymbolBack(t, e, bar, '|');
    SymbolPlace(t, e, bar, '|');
    PipeSkip(t, bar + 1);
    PipeIs(t, i, left, Skip(t, e));
    RestOfBar(t, left, bar, right, next);
  }

  /** What parsepipe does after its first command. */
  function PipeRest(t: string, left: Cmd<Span>, s: nat): Parse<Cmd<Span>>
    requires s <= |t| && (s < |t| ==> !IsSpace(t[s]))
  {
    if !At(t, s, "|") then Ok(left, s)
    else
      match ParsePipe(t, TokenAt(t, s).next)
      case Syntax => Syntax
      case Ok(right, next) => Ok(Pipe(left, right), next)
  }

  lemma PipeIs(t: string, i: nat, left: Cmd<Span>, m: nat)
    requires i <= |t| && ParseExec(t, i) == Ok(left, m)
    ensures m <= |t| && ParsePipe(t, i) == PipeRest(t, left, Skip(t, m))
  {
    hide ParseExec, Skip, TokenAt;
  }

  lemma RestOfBar(t: string, left: Cmd<Span>, bar: nat, right: Cmd<Span>, next: nat)
    requires bar < |t| && t[bar] == '|' && ParsePipe(t, TokenAt(t, bar).next) == Ok(right, next)
    ensures PipeRest(t, left, bar) == Ok(Pipe(left, right), next)
  {
    hide ParsePipe, TokenAt;
  }

  lemma {:induction false} BacksOn(c: Cmd<Span>, n: nat)
    ensures Backs(Back(c), n) == Backs(c, n + 1)
  {
    if n > 0 {
      BacksOn(c, n - 1);
    }
  }

  lemma {:induction false} AmpsBack(t: string, i: nat, amps: seq<nat>, c: Cmd<Span>)
    requires LaidAmps(t, i, amps) && Before(t, AmpsEnd(i, amps), ");")
    ensures ParseBacks(t, i, c) == (Backs(c, |amps|), Skip(t, AmpsEnd(i, amps)))
    decreases |amps|
  {
    hide ParseBacks, Backs, Skip, Before, SymbolAt;
    if amps == [] {
      NoAmp(t, i, c);
    } else {
      OneAmp(t, i, amps[0], c);
      AmpsBack(t, amps[0] + 1, amps[1..], Back(c));
      BacksOn(c, |amps| - 1);
    }
  }

  lemma NoAmp(t: string, i: nat, c: Cmd<Span>)
    requires Before(t, i, ");")
    ensures ParseBacks(t, i, c) == (Backs(c, 0), Skip(t, i))
  {
  }

  lemma OneAmp(t: string, i: nat, amp: nat, c: Cmd<Span>)
    requires SymbolAt(t, i, amp, '&')
    ensures i <= |t| && ParseBacks(t, i, c) == ParseBacks(t, amp + 1, Back(c))
  {
    SymbolBack(t, i, amp, '&');
    BacksSkip(t, amp + 1, Back(c));
    hide TokenAt, Skip;
    assert At(t, amp, "&");
  }

  /** After the parts of a job comes no bar. */
  lemma JobEnds(t: string, i: nat, amps: seq<nat>)
    requires LaidAmps(t, i, amps) && Before(t, AmpsEnd(i, amps), ");")
    ensures Before(t, i, ")&;")
  {
    if amps != [] {
      SkipBlank(t, i, amps[0]);
    }
  }

  lemma JobBack(t: string, i: nat, ps: Parts, amps: seq<nat>, pipe: Cmd<Span>) returns (c: Cmd<Span>)
    requires LaidAmps(t, PartsEnd(i, ps), amps) && Before(t, AmpsEnd(PartsEnd(i, ps), amps), ");")
    requires PartsMean(t, ps, pipe)
    ensures JobMeans(t, ps, |amps|, c)
    ensures ParseBacks(t, Skip(t, PartsEnd(i, ps)), pipe) == (c, Skip(t, AmpsEnd(PartsEnd(i, ps), amps)))
  {
    c := Backs(pipe, |amps|);
    AmpsBack(t, PartsEnd(i, ps), amps, pipe);
    BacksSkip(t, PartsEnd(i, ps), pipe);
  }

  lemma {:induction false} LineBack(t: string, i: nat, l: Line) returns (c: Cmd<Span>)
    requires i <= |t| && LaidLine(t, i, l) && Before(t, LineEnd(i, l), ")")
    ensures ParseLine(t, i) == Ok(c, Skip(t, LineEnd(i, l))) && LineMeans(t, l, c)
    decreases l, 2
  {
    hide LaidParts, PartsMean, JobMeans, ParsePipe, ParseBacks, ParseLine, LaidAmps, AmpsEnd, PartsEnd, Before,
         SymbolAt,
         Skip, Blank;
    var e := AmpsEnd(PartsEnd(i, l.parts), l.amps);
    match l {
      case Last(ps, amps) =>
        BeforeMore(t, e, ")", ");");
        JobEnds(t, PartsEnd(i, ps), amps);
        var pipe := PartsBack(t, i, ps);
        c := JobBack(t, i, ps, amps, pipe);
        LineOfLast(t, i, pipe, Skip(t, PartsEnd(i, ps)), c, e);
      case Then(ps, amps, semi, rest) =>
        BeforeSymbol(t, e, semi, ';', ");");
        JobEnds(t, PartsEnd(i, ps), amps);
        var pipe := PartsBack(t, i, ps);
        var first := JobBack(t, i, ps, amps, pipe);
        SymbolPlace(t, e, semi, ';');
        var second := LineBack(t, semi + 1, rest);
        c := List(first, second);
        LineOfThen(t, i, pipe, Skip(t, PartsEnd(i, ps)), first, e, semi, second, Skip(t, LineEnd(i, l)));
    }
  }

  lemma BeforeMore(t: string, e: nat, toks: string, more: string)
    requires Before(t, e, toks) && forall c :: c in toks ==> c in more
    ensures Before(t, e, more)
  {
  }

  lemma BeforeSymbol(t: string, e: nat, s: nat, c: char, toks: string)
    requires SymbolAt(t, e, s, c) && c in toks && !IsSpace(c)
    ensures Before(t, e, toks)
  {
    SkipBlank(t, e, s);
  }

  /** What parseline does after the background symbols. */
  function LineRest(t: string, first: Cmd<Span>, s: nat): Parse<Cmd<Span>>
    requires s <= |t| && (s < |t| ==> !IsSpace(t[s]))
  {
    if !At(t, s, ";") then Ok(first, s)
    else
      match ParseLine(t, TokenAt(t, s).next)
      case Syntax => Syntax
      case Ok(second, next) => Ok(List(first, second), next)
  }

  lemma LineIs(t: string, i: nat, pipe: Cmd<Span>, m: nat, first: Cmd<Span>, n: nat)
    requires i <= |t| && ParsePipe(t, i) == Ok(pipe, m) && m <= |t| && ParseBacks(t, m, pipe) == (first, n)
    ensures n <= |t| && ParseLine(t, i) == LineRest(t, first, Skip(t, n))
  {
    hide ParsePipe, ParseBacks, Skip, TokenAt;
  }

  lemma LineOfLast(t: string, i: nat, pipe: Cmd<Span>, m: nat, c: Cmd<Span>, e: nat)
    requires i <= |t| && ParsePipe(t, i) == Ok(pipe, m)
    requires Before(t, e, ")") && ParseBacks(t, m, pipe) == (c, Skip(t, e))
    ensures ParseLine(t, i) == Ok(c, Skip(t, e))
  {
    SkipAgain(t, e);
    hide ParsePipe, ParseBacks, ParseLine, Skip;
    LineIs(t, i, pipe, m, c, Skip(t, e));
  }

  lemma LineOfThen(t: string, i: nat, pipe: Cmd<Span>, m: nat, first: Cmd<Span>, e: nat, semi: nat, second: Cmd<Span>,
                   next: nat)
    requires i <= |t| && ParsePipe(t, i) == Ok(pipe, m) && SymbolAt(t, e, semi, ';')
    requires ParseBacks(t, m, pipe) == (first, Skip(t, e)) && ParseLine(t, semi + 1) == Ok(second, next)
    ensures ParseLine(t, i) == Ok(List(first, second), next)
  {
    hide ParsePipe, ParseBacks, ParseLine, Skip, TokenAt, LineRest, SymbolAt;
    SymbolBack(t, e, semi, ';');
    SymbolPlace(t, e, semi, ';');
    LineSkip(t, semi + 1);
    LineIs(t, i, pipe, m, first, Skip(t, e));
    RestOfThen(t, first, semi, second, next);
  }

  lemma RestOfThen(t: string, first: Cmd<Span>, semi: nat, second: Cmd<Span>, next: nat)
    requires semi < |t| && t[semi] == ';' && ParseLine(t, TokenAt(t, semi).next) == Ok(second, next)
    ensures LineRest(t, first, semi) == Ok(List(first, second), next)
  {
    hide ParseLine, TokenAt;
  }

  /** A line that is typed is parsed, and the command is what it means. */
  lemma TypedLine(t: string, l: Line) returns (c: Cmd<Span>)
    requires LaidText(t, l)
    ensures ParseText(t) == Ok(c, |t|) && LineMeans(t, l, c)
  {
    SkipBlank(t, LineEnd(0, l), |t|);
    c := LineBack(t, 0, l);
    SkipAgain(t, LineEnd(0, l));
  }

  // ---------------------------------------------------------------------------
  // Nothing else is parsed

  lemma SkipIsBlank(t: string, i: nat)
    requires i <= |t|
    ensures Blank(t, i, Skip(t, i))
  {
  }

  /** A symbol that was found is there. */
  lemma SymbolFound(t: string, i: nat, c: char)
    requires i <= |t| && At(t, Skip(t, i), [c]) && IsSymbol(c) && c != '>'
    ensures SymbolAt(t, i, Skip(t, i), c) && TokenAt(t, Skip(t, i)).next == Skip(t, Skip(t, i) + 1)
  {
    SkipIsBlank(t, i);
    SymbolBack(t, i, Skip(t, i), c);
  }

  /** So is the token of a redirection, with its file. */
  lemma RedirectionFound(t: string, i: nat) returns (it: Item)
    requires i <= |t| && At(t, Skip(t, i), "<>")
    requires var tok := TokenAt(t, Skip(t, i)); TokenAt(t, Skip(t, tok.next)).kind == 'a'
    ensures it.To? && ItemAt(t, i, it) && i < it.file.eq
    ensures var tok := TokenAt(t, Skip(t, i)); TokenAt(t, Skip(t, tok.next)).next == Skip(t, it.file.eq)
  {
    var s := Skip(t, i);
    var op := TokenAt(t, s);
    OpFound(t, s);
    SkipAgain(t, op.span.eq);
    SkipIsBlank(t, i);
    SkipIsBlank(t, op.span.eq);
    it := To(op.span, TokenAt(t, op.next).span);
    WordAt(t, it.file);
    hide TokenAt, Skip, Blank, TokenOk, OpAt;
  }

  lemma OpFound(t: string, s: nat)
    requires s <= |t| && At(t, s, "<>")
    ensures !IsSpace(t[s])
    ensures var op := TokenAt(t, s); op.span.q == s && OpAt(t, op.span) && op.next == Skip(t, op.span.eq)
  {
    hide Skip;
    var op := TokenAt(t, s);
    if op.kind == '+' {
      assert t[s..s + 2] == ">>";
    } else {
      assert t[s..s + 1] == [t[s]];
    }
  }

  lemma {:induction false} RedirsTyped(t: string, i: nat, rs: seq<Redirection>) returns (redirs: seq<Item>)
    requires i <= |t| && ParseRedirs(t, i, rs).Ok?
    ensures LaidItems(t, i, redirs) && forall k :: 0 <= k < |redirs| ==> redirs[k].To?
    ensures i <= ItemsEnd(i, redirs) <= |t| && ParseRedirs(t, i, rs).next == Skip(t, ItemsEnd(i, redirs))
    decreases |t| - i
  {
    hide TokenAt, Skip;
    if !At(t, Skip(t, i), "<>") {
      redirs := [];
    } else {
      var it := RedirectionFound(t, i);
      RedirectionBack(t, i, it, rs);
      hide ParseRedirs, ItemAt;
      var rest := RedirsTyped(t, it.file.eq, rs + [RedirectionOf(t, it)]);
      redirs := [it] + rest;
      assert redirs[1..] == rest;
    }
  }

  /** The next item, if there is one. */
  lemma ItemFound(t: string, i: nat, argv: seq<Span>, rs: seq<Redirection>) returns (items: seq<Item>)
    requires i <= |t| && ParseItems(t, i, argv, rs).Ok?
    ensures |items| <= 1 && (items != [] ==> ItemAt(t, i, items[0]) && i < ItemEnd(items[0]) <= |t|)
    ensures items == [] ==> Before(t, i, "|)&;") && ParseItems(t, i, argv, rs).next == Skip(t, i)
    ensures items != [] && items[0].Word? ==> |argv| + 1 < MAXARGS
  {
    var s := Skip(t, i);
    SkipAgain(t, i);
    SkipIsBlank(t, i);
    items := [];
    if At(t, s, "<>") {
      var it := RedirectionFound(t, i);
      items := [it];
    } else if s < |t| && !At(t, s, "|)&;") {
      RedirsStop(t, i, rs);
      items := [Word(TokenAt(t, s).span)];
    } else {
      RedirsStop(t, i, rs);
    }
  }

  lemma {:induction false} ItemsTyped(t: string, i: nat, argv: seq<Span>, rs: seq<Redirection>)
    returns (items: seq<Item>)
    requires i <= |t| && ParseItems(t, i, argv, rs).Ok? && |argv| < MAXARGS
    ensures LaidItems(t, i, items) && |argv| + |Words(items)| < MAXARGS
    ensures i <= ItemsEnd(i, items) <= |t| && ParseItems(t, i, argv, rs).next == Skip(t, ItemsEnd(i, items))
    decreases |t| - i
  {
    hide ParseItems, ParseRedirs, Skip, ItemAt;
    items := ItemFound(t, i, argv, rs);
    if items != [] {
      var it := items[0];
      var rest;
      match it {
        case Word(x) =>
          WordBack(t, i, x, argv, rs);
          rest := ItemsTyped(t, x.eq, argv + [x], rs);
        case To(_, file) =>
          RedirectionBack(t, i, it, rs);
          ItemsOn(t, i, argv, rs, file.eq, rs + [RedirectionOf(t, it)]);
          rest := ItemsTyped(t, file.eq, argv, rs + [RedirectionOf(t, it)]);
      }
      items := [it] + rest;
      assert items[1..] == rest;
    }
  }

  lemma {:induction false} PartTyped(t: string, i: nat) returns (p: Part)
    requires i <= |t| && ParseExec(t, i).Ok?
    ensures LaidPart(t, i, p) && i <= PartEnd(i, p) <= |t| && ParseExec(t, i).next == Skip(t, PartEnd(i, p))
    decreases |t| - i, 1
  {
    var s := Skip(t, i);
    if At(t, s, "(") {
      p := GroupTyped(t, i);
    } else {
      RedirsSkip(t, i, []);
      hide ParseWords, ParseRedirs, Skip, LaidItems;
      var items := ItemsTyped(t, i, [], []);
      p := Command(items);
    }
  }

  lemma {:induction false} GroupTyped(t: string, i: nat) returns (p: Part)
    requires i <= |t| && At(t, Skip(t, i), "(") && ParseExec(t, i).Ok?
    ensures LaidPart(t, i, p) && i <= PartEnd(i, p) <= |t| && ParseExec(t, i).next == Skip(t, PartEnd(i, p))
    decreases |t| - i, 0
  {
    hide ParseLine, ParseRedirs, Skip, TokenAt, LaidItems, LaidLine, ItemsEnd, LineEnd;
    var open := Skip(t, i);
    SymbolFound(t, i, '(');
    SymbolPlace(t, i, open, '(');
    SkipAgain(t, i);
    LineSkip(t, open + 1);
    var line := LineTyped(t, open + 1);
    var e := LineEnd(open + 1, line);
    SkipAgain(t, e);
    SymbolFound(t, e, ')');
    var close := Skip(t, e);
    SymbolPlace(t, e, close, ')');
    RedirsSkip(t, close + 1, []);
    var redirs := RedirsTyped(t, close + 1, []);
    p := Group(open, line, close, redirs);
  }

  lemma {:induction false} PartsTyped(t: string, i: nat) returns (ps: Parts)
    requires i <= |t| && ParsePipe(t, i).Ok?
    ensures LaidParts(t, i, ps) && i <= PartsEnd(i, ps) <= |t| && ParsePipe(t, i).next == Skip(t, PartsEnd(i, ps))
    decreases |t| - i, 2
  {
    hide ParseExec, Skip, TokenAt, LaidPart, PartEnd;
    var p := PartTyped(t, i);
    var e := PartEnd(i, p);
    SkipAgain(t, e);
    if !At(t, Skip(t, e), "|") {
      ps := One(p);
    } else {
      SymbolFound(t, e, '|');
      var bar := Skip(t, e);
      SymbolPlace(t, e, bar, '|');
      PipeSkip(t, bar + 1);
      var rest := PartsTyped(t, bar + 1);
      ps := Bar(p, bar, rest);
    }
  }

  lemma {:induction false} AmpsTyped(t: string, i: nat, c: Cmd<Span>) returns (amps: seq<nat>)
    requires i <= |t|
    ensures LaidAmps(t, i, amps) && i <= AmpsEnd(i, amps) <= |t| && ParseBacks(t, i, c).1 == Skip(t, AmpsEnd(i, amps))
    decreases |t| - i
  {
    hide Skip, TokenAt;
    if !At(t, Skip(t, i), "&") {
      amps := [];
    } else {
      SymbolFound(t, i, '&');
      var amp := Skip(t, i);
      SymbolPlace(t, i, amp, '&');
      OneAmp(t, i, amp, c);
      hide ParseBacks, SymbolAt;
      var rest := AmpsTyped(t, amp + 1, Back(c));
      amps := [amp] + rest;
      assert amps[1..] == rest;
    }
  }

  lemma LineNeedsPipe(t: string, i: nat)
    requires i <= |t| && ParseLine(t, i).Ok?
    ensures ParsePipe(t, i).Ok?
  {
    hide ParsePipe, ParseBacks, Skip, TokenAt;
  }

  lemma {:induction false} JobTyped(t: string, i: nat) returns (ps: Parts, amps: seq<nat>, first: Cmd<Span>)
    requires i <= |t| && ParseLine(t, i).Ok?
    ensures LaidParts(t, i, ps) && LaidAmps(t, PartsEnd(i, ps), amps)
    ensures i <= AmpsEnd(PartsEnd(i, ps), amps) <= |t|
    ensures ParseLine(t, i) == LineRest(t, first, Skip(t, AmpsEnd(PartsEnd(i, ps), amps)))
    decreases |t| - i, 3
  {
    hide ParseBacks, ParseLine, Skip, TokenAt, LaidParts, LaidAmps, PartsEnd, AmpsEnd, ParsePipe, LineRest;
    LineNeedsPipe(t, i);
    ps := PartsTyped(t, i);
    var pipe, m := ParsePipe(t, i).value, PartsEnd(i, ps);
    BacksSkip(t, m, pipe);
    amps := AmpsTyped(t, m, pipe);
    first := ParseBacks(t, m, pipe).0;
    LineIs(t, i, pipe, Skip(t, m), first, Skip(t, AmpsEnd(m, amps)));
    SkipAgain(t, AmpsEnd(m, amps));
  }

  lemma {:induction false} LineTyped(t: string, i: nat) returns (l: Line)
    requires i <= |t| && ParseLine(t, i).Ok?
    ensures LaidLine(t, i, l) && i <= LineEnd(i, l) <= |t| && ParseLine(t, i).next == Skip(t, LineEnd(i, l))
    decreases |t| - i, 4
  {
    hide ParseLine, Skip, TokenAt, LaidParts, LaidAmps, PartsEnd, AmpsEnd;
    var ps, amps, first := JobTyped(t, i);
    var e := AmpsEnd(PartsEnd(i, ps), amps);
    if !At(t, Skip(t, e), ";") {
      l := Last(ps, amps);
    } else {
      SymbolFound(t, e, ';');
      var semi := Skip(t, e);
      SymbolPlace(t, e, semi, ';');
      hide SymbolAt;
      LineSkip(t, semi + 1);
      var rest := LineTyped(t, semi + 1);
      l := Then(ps, amps, semi, rest);
    }
  }

  /** A text that is parsed is a line, and the command is what that means. */
  lemma ParsedLine(t: string) returns (l: Line)
    requires ParseText(t).Ok?
    ensures LaidText(t, l) && LineMeans(t, l, ParseText(t).value)
  {
    l := LineTyped(t, 0);
    var e := LineEnd(0, l);
    SkipAgain(t, e);
    SkipIsBlank(t, e);
    var c := TypedLine(t, l);
  }

  /** The texts that the parser takes are just those of lines. */
  lemma ParsedJustLines(t: string)
    ensures ParseText(t).Ok? <==> exists l: Line :: LaidText(t, l)
  {
    if ParseText(t).Ok? {
      var l := ParsedLine(t);
    }
    if exists l: Line :: LaidText(t, l) {
      var l: Line :| LaidText(t, l);
      var c := TypedLine(t, l);
    }
  }
}
