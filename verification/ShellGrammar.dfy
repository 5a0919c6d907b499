/** What the shell's parser (user/sh.c) accepts and what it makes of it: a grammar over tokens,
    for lines written in any way, and the command each sentence of it means. */
module ShellGrammar {
  import opened ShellParser

  // ----- tokens

  /** A word, or a symbol; + stands for >>. */
  datatype Tok = W(text: string) | S(c: char)

  /** The tokens of the line from i on, as gettoken finds them. */
  function Lex(s: string, i: nat): seq<Tok>
    requires i <= |s|
    decreases |s| - i
  {
    var t := GetToken(s, i);
    if t.kind == NUL then [] else [if t.kind == 'a' then W(s[t.q..t.eq]) else S(t.kind)] + Lex(s, t.next)
  }

  predicate Word(w: string) {
    w != [] && forall k :: 0 <= k < |w| ==> Letter(w[k])
  }

  /** The first token starts with one of these characters. */
  predicate Begins(ts: seq<Tok>, cs: string) {
    ts != [] && ts[0].S? && (if ts[0].c == '+' then '>' else ts[0].c) in cs
  }

  lemma {:induction false} LexSkip(s: string, i: nat)
    requires i <= |s|
    ensures GetToken(s, Skip(s, i)) == GetToken(s, i) && Lex(s, Skip(s, i)) == Lex(s, i)
  {
    SkipNone(s, Skip(s, i));
  }

  /** peek looks at the first token. */
  lemma {:induction false} PeekIs(s: string, i: nat, cs: string)
    requires Line(s) && i <= |s| && forall k :: 0 <= k < |cs| ==> Sym(cs[k])
    ensures Peek(s, i, cs) <==> Begins(Lex(s, i), cs)
  {
  }

  /** gettoken takes the first token. */
  lemma {:induction false} TokenIs(s: string, i: nat)
    requires Line(s) && i <= |s| && Lex(s, i) != []
    ensures var t := GetToken(s, i);
            && t.kind != NUL && Lex(s, t.next) == Lex(s, i)[1..]
            && t.kind == (if Lex(s, i)[0].W? then 'a' else Lex(s, i)[0].c)
            && (Lex(s, i)[0].W? ==> Text(s, Span(t.q, t.eq)) == Lex(s, i)[0].text && Word(Lex(s, i)[0].text))
  {
    WordLetters(s, Skip(s, i));
  }

  lemma {:induction false} LexEnd(s: string, i: nat)
    requires Line(s) && i <= |s| && Lex(s, i) == []
    ensures Skip(s, i) == |s|
  {
  }

  // ----- sequences

  lemma {:induction false} Assoc<T>(a: seq<T>, b: seq<T>, c: seq<T>)
    ensures a + b + c == a + (b + c)
  {
  }

  lemma {:induction false} Moved<T>(a: seq<T>, b: seq<T>)
    requires b != []
    ensures a + [b[0]] + b[1..] == a + b
  {
  }

  // ----- sentences

  /** A redirection. */
  datatype Into = Into(mode: Redirection, file: string)

  datatype Item = Arg(word: string) | To(into: Into)

  /** A line: simple commands, with words and redirections in any order; lines in parentheses,
      with redirections; pipelines of these; and pipelines with any number of &, in a list. */
  datatype Syn =
    | Simple(items: seq<Item>)
    | Block(body: Syn, tos: seq<Into>)
    | Piped(first: Syn, rest: Syn)
    | Last(pipe: Syn, backs: nat)
    | Then(pipe: Syn, backs: nat, rest: Syn)

  predicate IsExec(x: Syn)
    decreases x, 0
  {
    x.Simple? || (x.Block? && IsLine(x.body))
  }

  predicate IsPipe(x: Syn)
    decreases x, 1
  {
    IsExec(x) || (x.Piped? && IsExec(x.first) && IsPipe(x.rest))
  }

  predicate IsLine(x: Syn)
    decreases x, 2
  {
    (x.Last? && IsPipe(x.pipe)) || (x.Then? && IsPipe(x.pipe) && IsLine(x.rest))
  }

  function Words(items: seq<Item>): seq<string> {
    if items == [] then [] else (if items[0].Arg? then [items[0].word] else []) + Words(items[1..])
  }

  function Tos(items: seq<Item>): seq<Into> {
    if items == [] then [] else (if items[0].To? then [items[0].into] else []) + Tos(items[1..])
  }

  predicate LegalTos(tos: seq<Into>) {
    forall k :: 0 <= k < |tos| ==> Word(tos[k].file)
  }

  predicate LegalItems(items: seq<Item>) {
    forall k :: 0 <= k < |items| ==> Word(if items[k].Arg? then items[k].word else items[k].into.file)
  }

  predicate Legal(x: Syn) {
    match x
    case Simple(items) => |Words(items)| < MAXARGS && LegalItems(items)
    case Block(body, tos) => Legal(body) && LegalTos(tos)
    case Piped(first, rest) => Legal(first) && Legal(rest)
    case Last(pipe, _) => Legal(pipe)
    case Then(pipe, _, rest) => Legal(pipe) && Legal(rest)
  }

  /** How it is written. */
  function Symbol(mode: Redirection): char {
    match mode
    case Read => '<'
    case Write => '>'
    case Append => '+'
  }

  function IntoToks(t: Into): seq<Tok> {
    [S(Symbol(t.mode)), W(t.file)]
  }

  function ItemToks(x: Item): seq<Tok> {
    if x.Arg? then [W(x.word)] else IntoToks(x.into)
  }

  function TosToks(tos: seq<Into>): seq<Tok> {
    if tos == [] then [] else IntoToks(tos[0]) + TosToks(tos[1..])
  }

  function ItemsToks(items: seq<Item>): seq<Tok> {
    if items == [] then [] else ItemToks(items[0]) + ItemsToks(items[1..])
  }

  function Amps(n: nat): seq<Tok> {
    if n == 0 then [] else [S('&')] + Amps(n - 1)
  }

  function Toks(x: Syn): seq<Tok> {
    match x
    case Simple(items) => ItemsToks(items)
    case Block(body, tos) => [S('(')] + (Toks(body) + ([S(')')] + TosToks(tos)))
    case Piped(first, rest) => Toks(first) + ([S('|')] + Toks(rest))
    case Last(pipe, n) => Toks(pipe) + Amps(n)
    case Then(pipe, n, rest) => Toks(pipe) + (Amps(n) + ([S(';')] + Toks(rest)))
  }

  /** What it means: the first redirection is innermost. */
  function Into1(t: Tree, tos: seq<Into>): Tree
    decreases |tos|
  {
    if tos == [] then t else Into1(TRedir(t, tos[0].file, tos[0].mode), tos[1..])
  }

  function Backs1(t: Tree, n: nat): Tree
    decreases n
  {
    if n == 0 then t else Backs1(TBack(t), n - 1)
  }

  function TreeOf(x: Syn): Tree {
    match x
    case Simple(items) => Into1(TExec(Words(items)), Tos(items))
    case Block(body, tos) => Into1(TreeOf(body), tos)
    case Piped(first, rest) => TPipe(TreeOf(first), TreeOf(rest))
    case Last(pipe, n) => Backs1(TreeOf(pipe), n)
    case Then(pipe, n, rest) => TList(Backs1(TreeOf(pipe), n), TreeOf(rest))
  }

  // ----- redirections

  function IntoOf(s: string, ts: seq<Target>): seq<Into> {
    seq(|ts|, k requires 0 <= k < |ts| => Into(ts[k].mode, Text(s, ts[k].file)))
  }

  lemma {:induction false} Into1Last(t: Tree, tos: seq<Into>, x: Into)
    ensures Into1(t, tos + [x]) == TRedir(Into1(t, tos), x.file, x.mode)
    decreases |tos|
  {
    if tos == [] {
      assert (tos + [x])[1..] == [];
    } else {
      assert (tos + [x])[1..] == tos[1..] + [x];
      Into1Last(TRedir(t, tos[0].file, tos[0].mode), tos[1..], x);
    }
  }

  lemma {:induction false} WrapMeans(s: string, c: Cmd, ts: seq<Target>)
    ensures Meaning(s, Wrap(c, ts)) == Into1(Meaning(s, c), IntoOf(s, ts))
  {
    if ts != [] {
      var n := |ts| - 1;
      WrapMeans(s, c, ts[..n]);
      assert IntoOf(s, ts) == IntoOf(s, ts[..n]) + [Into(ts[n].mode, Text(s, ts[n].file))];
      Into1Last(Meaning(s, c), IntoOf(s, ts[..n]), Into(ts[n].mode, Text(s, ts[n].file)));
    }
  }

  lemma {:induction false} TextsLast(s: string, argv: seq<Span>, p: Span)
    ensures Texts(s, argv + [p]) == Texts(s, argv) + [Text(s, p)]
  {
    assert (argv + [p])[..|argv|] == argv;
  }

  lemma {:induction false} IntoOfLast(s: string, ts: seq<Target>, t: Target)
    ensures IntoOf(s, ts + [t]) == IntoOf(s, ts) + [Into(t.mode, Text(s, t.file))]
  {
  }

  /** One redirection is read. */
  lemma {:induction false} RedirStep(s: string, i: nat, ts: seq<Target>, x: Into, more: seq<Tok>)
    returns (j: nat, t: Target)
    requires Line(s) && i <= |s| && Lex(s, i) == IntoToks(x) + more
    ensures i < j <= |s| && Lex(s, j) == more && t.mode == x.mode && Text(s, t.file) == x.file
    ensures Redirs(s, i, ts) == Redirs(s, j, ts + [t])
  {
    PeekIs(s, i, "<>");
    LexSkip(s, i);
    TokenIs(s, i);
    var op := GetToken(s, i);
    assert Lex(s, op.next) == [W(x.file)] + more;
    TokenIs(s, op.next);
    var file := GetToken(s, op.next);
    j, t := file.next, Target(Span(file.q, file.eq), ModeOf(op.kind));
    assert Lex(s, j) == more;
  }

  lemma {:induction false} RedirsStop(s: string, i: nat, ts: seq<Target>)
    requires Line(s) && i <= |s| && !Begins(Lex(s, i), "<>")
    ensures Redirs(s, i, ts) == Ok(ts, Skip(s, i)) && Lex(s, Skip(s, i)) == Lex(s, i)
  {
    PeekIs(s, i, "<>");
    LexSkip(s, i);
  }

  lemma {:induction false} RedirsParsed(s: string, i: nat, ts: seq<Target>, tos: seq<Into>, rest: seq<Tok>)
    returns (ts': seq<Target>, at: nat)
    requires Line(s) && i <= |s| && Lex(s, i) == TosToks(tos) + rest && !Begins(rest, "<>")
    ensures at <= |s| && Redirs(s, i, ts) == Ok(ts', at) && Lex(s, at) == rest
    ensures IntoOf(s, ts') == IntoOf(s, ts) + tos
    decreases |tos|
  {
    if tos == [] {
      assert Lex(s, i) == rest;
      RedirsStop(s, i, ts);
      ts', at := ts, Skip(s, i);
    } else {
      var more := TosToks(tos[1..]) + rest;
      Assoc(IntoToks(tos[0]), TosToks(tos[1..]), rest);
      var j, t := RedirStep(s, i, ts, tos[0], more);
      ts', at := RedirsParsed(s, j, ts + [t], tos[1..], rest);
      IntoOfLast(s, ts, t);
      Moved(IntoOf(s, ts), tos);
    }
  }

  // ----- simple commands

  /** What parseexec does after a word, and at the start. */
  function Items(s: string, i: nat, argv: seq<Span>, ts: seq<Target>): Parsed<ShellParser.Words>
    requires i <= |s|
  {
    match Redirs(s, i, ts)
    case Panic => Panic
    case Ok(ts', at) => Args(s, at, argv, ts')
  }

  /** The tokens that can follow a simple command or a block. */
  predicate Ends1(rest: seq<Tok>) {
    rest == [] || Begins(rest, "|)&;")
  }

  lemma {:induction false} ItemsEnd(s: string, i: nat, argv: seq<Span>, ts: seq<Target>)
    requires Line(s) && i <= |s| && Ends1(Lex(s, i))
    ensures Items(s, i, argv, ts) == Ok(ShellParser.Words(argv, ts), Skip(s, i)) && Lex(s, Skip(s, i)) == Lex(s, i)
  {
    RedirsStop(s, i, ts);
    PeekIs(s, Skip(s, i), "|)&;");
    SkipNone(s, Skip(s, i));
  }

  lemma {:induction false} ItemsTo(s: string, i: nat, argv: seq<Span>, ts: seq<Target>, x: Into, more: seq<Tok>)
    returns (j: nat, t: Target)
    requires Line(s) && i <= |s| && Lex(s, i) == IntoToks(x) + more
    ensures i < j <= |s| && Lex(s, j) == more && t.mode == x.mode && Text(s, t.file) == x.file
    ensures Items(s, i, argv, ts) == Items(s, j, argv, ts + [t])
  {
    j, t := RedirStep(s, i, ts, x, more);
  }

  lemma {:induction false} ItemsArg(s: string, i: nat, argv: seq<Span>, ts: seq<Target>, w: string, more: seq<Tok>)
    returns (j: nat, p: Span)
    requires Line(s) && i <= |s| && Lex(s, i) == [W(w)] + more && |argv| + 1 < MAXARGS
    ensures i < j <= |s| && Lex(s, j) == more && Text(s, p) == w
    ensures Items(s, i, argv, ts) == Items(s, j, argv + [p], ts)
  {
    RedirsStop(s, i, ts);
    PeekIs(s, Skip(s, i), "|)&;");
    SkipNone(s, Skip(s, i));
    LexSkip(s, i);
    TokenIs(s, i);
    var t := GetToken(s, i);
    j, p := t.next, Span(t.q, t.eq);
  }

  /** From i on, parseexec reads these items, and then `rest` is left. */
  ghost predicate ReadsItems(s: string, i: nat, argv: seq<Span>, ts: seq<Target>, items: seq<Item>, rest: seq<Tok>,
                             argv': seq<Span>, ts': seq<Target>, at: nat) {
    && i <= |s| && at <= |s| && Items(s, i, argv, ts) == Ok(ShellParser.Words(argv', ts'), at) && Lex(s, at) == rest
    && Texts(s, argv') == Texts(s, argv) + Words(items) && IntoOf(s, ts') == IntoOf(s, ts) + Tos(items)
  }

  lemma {:induction false} ItemsParsed(s: string, i: nat, argv: seq<Span>, ts: seq<Target>, items: seq<Item>,
                                       rest: seq<Tok>)
    returns (argv': seq<Span>, ts': seq<Target>, at: nat)
    requires Line(s) && i <= |s| && Lex(s, i) == ItemsToks(items) + rest && Ends1(rest)
    requires |argv| + |Words(items)| < MAXARGS
    ensures ReadsItems(s, i, argv, ts, items, rest, argv', ts', at)
    decreases |items|
  {
    if items == [] {
      assert Lex(s, i) == rest;
      ItemsEnd(s, i, argv, ts);
      argv', ts', at := argv, ts, Skip(s, i);
    } else {
      var more := ItemsToks(items[1..]) + rest;
      Assoc(ItemToks(items[0]), ItemsToks(items[1..]), rest);
      if items[0].Arg? {
        var j, p := ItemsArg(s, i, argv, ts, items[0].word, more);
        argv', ts', at := ItemsParsed(s, j, argv + [p], ts, items[1..], rest);
        ArgFirst(s, i, j, p, argv, ts, items, rest, argv', ts', at);
      } else {
        var j, t := ItemsTo(s, i, argv, ts, items[0].into, more);
        argv', ts', at := ItemsParsed(s, j, argv, ts + [t], items[1..], rest);
        ToFirst(s, i, j, t, argv, ts, items, rest, argv', ts', at);
      }
    }
  }

  lemma {:induction false} ArgFirst(s: string, i: nat, j: nat, p: Span, argv: seq<Span>, ts: seq<Target>,
                                    items: seq<Item>, rest: seq<Tok>, argv': seq<Span>, ts': seq<Target>, at: nat)
    requires items != [] && items[0].Arg? && i <= |s| &&
             ReadsItems(s, j, argv + [p], ts, items[1..], rest, argv', ts', at)
    requires Items(s, i, argv, ts) == Items(s, j, argv + [p], ts) && Text(s, p) == items[0].word
    ensures ReadsItems(s, i, argv, ts, items, rest, argv', ts', at)
  {
    TextsLast(s, argv, p);
    ArgItem(items);
    Assoc(Texts(s, argv), [items[0].word], Words(items[1..]));
  }

  lemma {:induction false} ArgItem(items: seq<Item>)
    requires items != [] && items[0].Arg?
    ensures Words(items) == [items[0].word] + Words(items[1..]) && Tos(items) == Tos(items[1..])
  {
  }

  lemma {:induction false} ToItem(items: seq<Item>)
    requires items != [] && items[0].To?
    ensures Tos(items) == [items[0].into] + Tos(items[1..]) && Words(items) == Words(items[1..])
  {
  }

  lemma {:induction false} ToFirst(s: string, i: nat, j: nat, t: Target, argv: seq<Span>, ts: seq<Target>,
                                   items: seq<Item>, rest: seq<Tok>, argv': seq<Span>, ts': seq<Target>, at: nat)
    requires items != [] && items[0].To? && i <= |s| &&
             ReadsItems(s, j, argv, ts + [t], items[1..], rest, argv', ts', at)
    requires Items(s, i, argv, ts) == Items(s, j, argv, ts + [t])
    requires t.mode == items[0].into.mode && Text(s, t.file) == items[0].into.file
    ensures ReadsItems(s, i, argv, ts, items, rest, argv', ts', at)
  {
    IntoOfLast(s, ts, t);
    ToItem(items);
    Assoc(IntoOf(s, ts), [items[0].into], Tos(items[1..]));
  }

  // ----- every sentence is parsed, and means what it says

  lemma {:induction false} NoParen(items: seq<Item>, rest: seq<Tok>)
    requires Ends1(rest)
    ensures !Begins(ItemsToks(items) + rest, "(")
  {
  }

  lemma {:induction false} ExecParsed(s: string, i: nat, x: Syn, rest: seq<Tok>) returns (c: Cmd, at: nat)
    requires Line(s) && i <= |s| && IsExec(x) && Legal(x) && Lex(s, i) == Toks(x) + rest && Ends1(rest)
    ensures at <= |s| && ParseExec(s, i) == Ok(c, at) && Lex(s, at) == rest && Meaning(s, c) == TreeOf(x)
    decreases x, 1
  {
    PeekIs(s, i, "(");
    if x.Simple? {
      NoParen(x.items, rest);
      LexSkip(s, i);
      var argv, ts;
      argv, ts, at := ItemsParsed(s, Skip(s, i), [], [], x.items, rest);
      c := Wrap(Exec(argv), ts);
      WrapMeans(s, Exec(argv), ts);
      assert [] + Words(x.items) == Words(x.items) && [] + Tos(x.items) == Tos(x.items);
    } else {
      c, at := BlockParsed(s, i, x, rest);
    }
  }

  lemma {:induction false} BlockParsed(s: string, i: nat, x: Syn, rest: seq<Tok>) returns (c: Cmd, at: nat)
    requires Line(s) && i <= |s| && x.Block? && IsExec(x) && Legal(x) && Lex(s, i) == Toks(x) + rest && Ends1(rest)
    ensures at <= |s| && ParseExec(s, i) == Ok(c, at) && Lex(s, at) == rest && Meaning(s, c) == TreeOf(x)
    decreases x, 0
  {
    var after := TosToks(x.tos) + rest;
    BlockToks(x, rest, after);
    Opened(s, i);
    var d, b := LineParsed(s, GetToken(s, i).next, x.body, [S(')')] + after);
    c, at := BlockClosed(s, i, b, d, x, rest, after);
  }

  lemma {:induction false} BlockToks(x: Syn, rest: seq<Tok>, after: seq<Tok>)
    requires x.Block? && after == TosToks(x.tos) + rest
    ensures Toks(x) + rest == [S('(')] + (Toks(x.body) + ([S(')')] + after))
    ensures (Toks(x) + rest)[1..] == Toks(x.body) + ([S(')')] + after)
  {
    Assoc([S('(')], Toks(x.body) + ([S(')')] + TosToks(x.tos)), rest);
    Assoc(Toks(x.body), [S(')')] + TosToks(x.tos), rest);
    Assoc([S(')')], TosToks(x.tos), rest);
  }

  /** The rest of parseblock, when the line in the block has been parsed. */
  lemma {:induction false} BlockClosed(s: string, i: nat, b: nat, d: Cmd, x: Syn, rest: seq<Tok>, after: seq<Tok>)
    returns (c: Cmd, at: nat)
    requires Line(s) && i <= |s| && b <= |s| && x.Block? && Begins(Lex(s, i), "(") && Ends1(rest)
    requires GetToken(s, i).next <= |s| && ParseLine(s, GetToken(s, i).next) == Ok(d, b)
    requires Lex(s, b) == [S(')')] + after && after == TosToks(x.tos) + rest && Meaning(s, d) == TreeOf(x.body)
    ensures at <= |s| && ParseExec(s, i) == Ok(c, at) && Lex(s, at) == rest && Meaning(s, c) == TreeOf(x)
  {
    Next(s, b, ')', after, ")");
    var ts;
    ts, at := RedirsParsed(s, GetToken(s, b).next, [], x.tos, rest);
    c := Wrap(d, ts);
    WrapMeans(s, d, ts);
    assert IntoOf(s, []) + x.tos == x.tos;
    BlockIs(s, i, b, d, ts, at);
  }

  lemma {:induction false} BlockIs(s: string, i: nat, b: nat, d: Cmd, ts: seq<Target>, at: nat)
    requires Line(s) && i <= |s| && b <= |s| && Begins(Lex(s, i), "(") && Peek(s, b, ")")
    requires GetToken(s, i).next <= |s| && ParseLine(s, GetToken(s, i).next) == Ok(d, b)
    requires GetToken(s, Skip(s, b)) == GetToken(s, b) && Redirs(s, GetToken(s, b).next, []) == Ok(ts, at)
    ensures ParseExec(s, i) == Ok(Wrap(d, ts), at)
  {
    Opened(s, i);
  }

  /** parseexec finds a parenthesis and leaves the rest to parseblock. */
  lemma {:induction false} Opened(s: string, i: nat)
    requires Line(s) && i <= |s| && Begins(Lex(s, i), "(")
    ensures ParseExec(s, i) == ParseBlock(s, Skip(s, i)) && GetToken(s, i).kind != NUL
    ensures Lex(s, GetToken(s, i).next) == Lex(s, i)[1..] && GetToken(s, Skip(s, Skip(s, i))) == GetToken(s, i)
    ensures Peek(s, Skip(s, i), "(")
  {
    PeekIs(s, i, "(");
    LexSkip(s, i);
    LexSkip(s, Skip(s, i));
    PeekIs(s, Skip(s, i), "(");
    TokenIs(s, i);
  }

  lemma {:induction false} PipeParsed(s: string, i: nat, x: Syn, rest: seq<Tok>) returns (c: Cmd, at: nat)
    requires Line(s) && i <= |s| && IsPipe(x) && Legal(x) && Lex(s, i) == Toks(x) + rest
    requires rest == [] || Begins(rest, ")&;")
    ensures at <= |s| && ParsePipe(s, i) == Ok(c, at) && Lex(s, at) == rest && Meaning(s, c) == TreeOf(x)
    decreases x, 2
  {
    if IsExec(x) {
      var k;
      c, k := ExecParsed(s, i, x, rest);
      PeekIs(s, k, "|");
      LexSkip(s, k);
      at := Skip(s, k);
    } else {
      c, at := PipedParsed(s, i, x, rest);
    }
  }

  lemma {:induction false} PipedParsed(s: string, i: nat, x: Syn, rest: seq<Tok>) returns (c: Cmd, at: nat)
    requires Line(s) && i <= |s| && x.Piped? && IsPipe(x) && Legal(x) && Lex(s, i) == Toks(x) + rest
    requires rest == [] || Begins(rest, ")&;")
    ensures at <= |s| && ParsePipe(s, i) == Ok(c, at) && Lex(s, at) == rest && Meaning(s, c) == TreeOf(x)
    decreases x, 1
  {
    var after := Toks(x.rest) + rest;
    PipedToks(x.first, x.rest, rest);
    var l, k := ExecParsed(s, i, x.first, [S('|')] + after);
    var j := NextAt(s, k, '|', after, "|");
    var r;
    r, at := PipeParsed(s, j, x.rest, rest);
    c := Pipe(l, r);
    PipedIs(s, i, l, k, r, at, x);
  }

  lemma {:induction false} PipedIs(s: string, i: nat, l: Cmd, k: nat, r: Cmd, at: nat, x: Syn)
    requires i <= |s| && k <= |s| && ParseExec(s, i) == Ok(l, k) && Peek(s, k, "|")
    requires ParsePipe(s, GetToken(s, Skip(s, k)).next) == Ok(r, at)
    requires x.Piped? && Meaning(s, l) == TreeOf(x.first) && Meaning(s, r) == TreeOf(x.rest)
    ensures ParsePipe(s, i) == Ok(Pipe(l, r), at) && Meaning(s, Pipe(l, r)) == TreeOf(x)
  {
  }

  /** peek finds a symbol and gettoken takes it. */
  lemma {:induction false} Next(s: string, k: nat, c: char, after: seq<Tok>, cs: string)
    requires Line(s) && k <= |s| && Lex(s, k) == [S(c)] + after && cs == [c] && Sym(c) && c != '>'
    ensures Peek(s, k, cs) && GetToken(s, Skip(s, k)) == GetToken(s, k) && Lex(s, GetToken(s, k).next) == after
    ensures k < GetToken(s, k).next
  {
    PeekIs(s, k, cs);
    LexSkip(s, k);
    TokenIs(s, k);
  }

  lemma {:induction false} BacksParsed(s: string, i: nat, c: Cmd, n: nat, rest: seq<Tok>) returns (d: Cmd, at: nat)
    requires Line(s) && i <= |s| && Lex(s, i) == Amps(n) + rest && !Begins(rest, "&")
    ensures at <= |s| && Backs(s, i, c) == Ok(d, at) && Lex(s, at) == rest
    ensures Meaning(s, d) == Backs1(Meaning(s, c), n)
    decreases n
  {
    if n == 0 {
      assert Lex(s, i) == rest;
      PeekIs(s, i, "&");
      LexSkip(s, i);
      d, at := c, Skip(s, i);
    } else {
      Assoc([S('&')], Amps(n - 1), rest);
      Next(s, i, '&', Amps(n - 1) + rest, "&");
      d, at := BacksParsed(s, GetToken(s, i).next, Back(c), n - 1, rest);
    }
  }

  lemma {:induction false} LineParsed(s: string, i: nat, x: Syn, rest: seq<Tok>) returns (c: Cmd, at: nat)
    requires Line(s) && i <= |s| && IsLine(x) && Legal(x) && Lex(s, i) == Toks(x) + rest
    requires rest == [] || Begins(rest, ")")
    ensures at <= |s| && ParseLine(s, i) == Ok(c, at) && Lex(s, at) == rest && Meaning(s, c) == TreeOf(x)
    decreases x, 4
  {
    if x.Last? {
      Assoc(Toks(x.pipe), Amps(x.backs), rest);
      var b, m := PipeBacks(s, i, x.pipe, x.backs, rest);
      c, at := LastLine(s, i, b, m, rest);
    } else {
      c, at := ThenParsed(s, i, x, rest);
    }
  }

  lemma {:induction false} ThenParsed(s: string, i: nat, x: Syn, rest: seq<Tok>) returns (c: Cmd, at: nat)
    requires Line(s) && i <= |s| && x.Then? && IsLine(x) && Legal(x) && Lex(s, i) == Toks(x) + rest
    requires rest == [] || Begins(rest, ")")
    ensures at <= |s| && ParseLine(s, i) == Ok(c, at) && Lex(s, at) == rest && Meaning(s, c) == TreeOf(x)
    decreases x, 3
  {
    var after := Toks(x.rest) + rest;
    ThenToks(x, rest, after);
    var b, m := PipeBacks(s, i, x.pipe, x.backs, [S(';')] + after);
    var j := NextAt(s, m, ';', after, ";");
    var r;
    r, at := LineParsed(s, j, x.rest, rest);
    c := List(b, r);
    ThenLine(s, i, b, m, r, at);
    ThenMeans(s, b, r, x);
  }

  lemma {:induction false} ThenMeans(s: string, b: Cmd, r: Cmd, x: Syn)
    requires x.Then? && Meaning(s, b) == Backs1(TreeOf(x.pipe), x.backs) && Meaning(s, r) == TreeOf(x.rest)
    ensures Meaning(s, List(b, r)) == TreeOf(x)
  {
  }

  lemma {:induction false} NextAt(s: string, k: nat, c: char, after: seq<Tok>, cs: string) returns (j: nat)
    requires Line(s) && k <= |s| && Lex(s, k) == [S(c)] + after && cs == [c] && Sym(c) && c != '>'
    ensures Peek(s, k, cs) && j <= |s| && j == GetToken(s, Skip(s, k)).next == GetToken(s, k).next && Lex(s, j) == after
  {
    Next(s, k, c, after, cs);
    j := GetToken(s, k).next;
  }

  /** parseline, when the pipeline and the & after it have been read. */
  lemma {:induction false} LastLine(s: string, i: nat, b: Cmd, m: nat, rest: seq<Tok>) returns (c: Cmd, at: nat)
    requires Line(s) && i <= |s| && m <= |s| && Lex(s, m) == rest && !Begins(rest, ";")
    requires ParsePipe(s, i).Ok? && Backs(s, ParsePipe(s, i).at, ParsePipe(s, i).value) == Ok(b, m)
    ensures c == b && at <= |s| && ParseLine(s, i) == Ok(c, at) && Lex(s, at) == rest
  {
    PeekIs(s, m, ";");
    LexSkip(s, m);
    c, at := b, Skip(s, m);
  }

  lemma {:induction false} ThenLine(s: string, i: nat, b: Cmd, m: nat, r: Cmd, at: nat)
    requires i <= |s| && m <= |s| && Peek(s, m, ";")
    requires ParsePipe(s, i).Ok? && Backs(s, ParsePipe(s, i).at, ParsePipe(s, i).value) == Ok(b, m)
    requires ParseLine(s, GetToken(s, Skip(s, m)).next) == Ok(r, at)
    ensures ParseLine(s, i) == Ok(List(b, r), at)
  {
  }

  lemma {:induction false} ThenToks(x: Syn, rest: seq<Tok>, after: seq<Tok>)
    requires x.Then? && after == Toks(x.rest) + rest
    ensures Toks(x) + rest == Toks(x.pipe) + (Amps(x.backs) + ([S(';')] + after))
  {
    Assoc(Toks(x.pipe), Amps(x.backs) + ([S(';')] + Toks(x.rest)), rest);
    Assoc(Amps(x.backs), [S(';')] + Toks(x.rest), rest);
    Assoc([S(';')], Toks(x.rest), rest);
  }

  /** A pipeline and the & after it. */
  lemma {:induction false} PipeBacks(s: string, i: nat, x: Syn, n: nat, rest: seq<Tok>) returns (c: Cmd, at: nat)
    requires Line(s) && i <= |s| && IsPipe(x) && Legal(x) && Lex(s, i) == Toks(x) + (Amps(n) + rest)
    requires rest == [] || Begins(rest, ");")
    ensures at <= |s| && ParsePipe(s, i).Ok? && Backs(s, ParsePipe(s, i).at, ParsePipe(s, i).value) == Ok(c, at)
    ensures Lex(s, at) == rest && Meaning(s, c) == Backs1(TreeOf(x), n)
    decreases x, 3
  {
    var l, k := PipeParsed(s, i, x, Amps(n) + rest);
    c, at := BacksParsed(s, k, l, n, rest);
  }

  /** Whatever the blanks in it, a line whose tokens are a sentence is parsed into the command
      that the sentence means. */
  lemma {:induction false} SentenceParsed(x: Syn, s: string) returns (c: Cmd)
    requires IsLine(x) && Legal(x) && Line(s) && Lex(s, 0) == Toks(x)
    ensures ParseCmd(s) == Ok(c, |s|) && Meaning(s, c) == TreeOf(x)
  {
    assert Lex(s, 0) == Toks(x) + [];
    var at;
    c, at := LineParsed(s, 0, x, []);
    LexEnd(s, at);
  }

  // ----- nothing else is parsed

  lemma {:induction false} RedirOk(s: string, i: nat, ts: seq<Target>) returns (x: Into, more: seq<Tok>)
    requires Line(s) && i <= |s| && Redirs(s, i, ts).Ok? && Begins(Lex(s, i), "<>")
    ensures Lex(s, i) == IntoToks(x) + more && Word(x.file)
  {
    PeekIs(s, i, "<>");
    LexSkip(s, i);
    TokenIs(s, i);
    var op := GetToken(s, i);
    var file := GetToken(s, op.next);
    assert file.kind == 'a';
    TokenIs(s, op.next);
    x, more := Into(ModeOf(op.kind), Lex(s, op.next)[0].text), Lex(s, op.next)[1..];
    assert Lex(s, i) == [Lex(s, i)[0]] + ([Lex(s, op.next)[0]] + more);
  }

  lemma {:induction false} RedirsOf(s: string, i: nat, ts: seq<Target>) returns (tos: seq<Into>)
    requires Line(s) && i <= |s| && Redirs(s, i, ts).Ok?
    ensures LegalTos(tos) && Lex(s, i) == TosToks(tos) + Lex(s, Redirs(s, i, ts).at)
    decreases |s| - i
  {
    if Begins(Lex(s, i), "<>") {
      var x, more := RedirOk(s, i, ts);
      var j, t := RedirStep(s, i, ts, x, more);
      var rest := RedirsOf(s, j, ts + [t]);
      tos := [x] + rest;
      assert tos[1..] == rest;
      Assoc(IntoToks(x), TosToks(rest), Lex(s, Redirs(s, i, ts).at));
    } else {
      RedirsStop(s, i, ts);
      tos := [];
    }
  }

  lemma {:induction false} ArgOk(s: string, i: nat, argv: seq<Span>, ts: seq<Target>)
    returns (w: string, more: seq<Tok>)
    requires Line(s) && i <= |s| && Items(s, i, argv, ts).Ok? && !Begins(Lex(s, i), "<>") && !Ends1(Lex(s, i))
    ensures Lex(s, i) == [W(w)] + more && Word(w) && |argv| + 1 < MAXARGS
  {
    RedirsStop(s, i, ts);
    PeekIs(s, Skip(s, i), "|)&;");
    SkipNone(s, Skip(s, i));
    LexSkip(s, i);
    TokenIs(s, i);
    w, more := Lex(s, i)[0].text, Lex(s, i)[1..];
  }

  lemma {:induction false} ItemsOf(s: string, i: nat, argv: seq<Span>, ts: seq<Target>) returns (items: seq<Item>)
    requires Line(s) && i <= |s| && Items(s, i, argv, ts).Ok? && |argv| < MAXARGS
    ensures LegalItems(items) && |argv| + |Words(items)| < MAXARGS
    ensures Lex(s, i) == ItemsToks(items) + Lex(s, Items(s, i, argv, ts).at)
    decreases |s| - i
  {
    var end := Items(s, i, argv, ts).at;
    if Begins(Lex(s, i), "<>") {
      var x, more := RedirOk(s, i, ts);
      var j, t := ItemsTo(s, i, argv, ts, x, more);
      var rest := ItemsOf(s, j, argv, ts + [t]);
      items := ConsItem(To(x), rest, Lex(s, end));
    } else if Ends1(Lex(s, i)) {
      ItemsEnd(s, i, argv, ts);
      items := [];
    } else {
      var w, more := ArgOk(s, i, argv, ts);
      var j, p := ItemsArg(s, i, argv, ts, w, more);
      var rest := ItemsOf(s, j, argv + [p], ts);
      items := ConsItem(Arg(w), rest, Lex(s, end));
    }
  }

  lemma {:induction false} ConsItem(x: Item, items: seq<Item>, tail: seq<Tok>) returns (all: seq<Item>)
    requires LegalItems(items) && Word(if x.Arg? then x.word else x.into.file)
    ensures LegalItems(all) && |Words(all)| == |Words(items)| + (if x.Arg? then 1 else 0)
    ensures ItemsToks(all) + tail == ItemToks(x) + (ItemsToks(items) + tail)
  {
    all := [x] + items;
    assert all[1..] == items;
    Assoc(ItemToks(x), ItemsToks(items), tail);
  }

  lemma {:induction false} ExecOf(s: string, i: nat) returns (x: Syn)
    requires Line(s) && i <= |s| && ParseExec(s, i).Ok?
    ensures IsExec(x) && Legal(x) && Lex(s, i) == Toks(x) + Lex(s, ParseExec(s, i).at)
    decreases |s| - i, 1
  {
    PeekIs(s, i, "(");
    if Begins(Lex(s, i), "(") {
      x := BlockOf(s, i);
    } else {
      LexSkip(s, i);
      var items := ItemsOf(s, Skip(s, i), [], []);
      x := Simple(items);
    }
  }

  lemma {:induction false} BlockOf(s: string, i: nat) returns (x: Syn)
    requires Line(s) && i <= |s| && ParseExec(s, i).Ok? && Begins(Lex(s, i), "(")
    ensures IsExec(x) && Legal(x) && Lex(s, i) == Toks(x) + Lex(s, ParseExec(s, i).at)
    decreases |s| - i, 0
  {
    Opened(s, i);
    var a := GetToken(s, i).next;
    var b := ParseLine(s, a).at;
    var body := LineOf(s, a);
    PeekIs(s, b, ")");
    var after := Lex(s, b)[1..];
    assert Lex(s, b) == [S(')')] + after;
    Next(s, b, ')', after, ")");
    var tos := RedirsOf(s, GetToken(s, b).next, []);
    x := Block(body, tos);
    BlockToks(x, Lex(s, ParseExec(s, i).at), after);
    assert Lex(s, i) == [S('(')] + Lex(s, a);
  }

  lemma {:induction false} PipeOf(s: string, i: nat) returns (x: Syn)
    requires Line(s) && i <= |s| && ParsePipe(s, i).Ok?
    ensures IsPipe(x) && Legal(x) && Lex(s, i) == Toks(x) + Lex(s, ParsePipe(s, i).at)
    decreases |s| - i, 2
  {
    var l := ExecOf(s, i);
    var k := ParseExec(s, i).at;
    PeekIs(s, k, "|");
    LexSkip(s, k);
    if Begins(Lex(s, k), "|") {
      var after := Lex(s, k)[1..];
      assert Lex(s, k) == [S('|')] + after;
      Next(s, k, '|', after, "|");
      var r := PipeOf(s, GetToken(s, k).next);
      x := Piped(l, r);
      PipedToks(l, r, Lex(s, ParsePipe(s, i).at));
    } else {
      x := l;
    }
  }

  lemma {:induction false} PipedToks(l: Syn, r: Syn, rest: seq<Tok>)
    ensures Toks(Piped(l, r)) + rest == Toks(l) + ([S('|')] + (Toks(r) + rest))
  {
    Assoc(Toks(l), [S('|')] + Toks(r), rest);
    Assoc([S('|')], Toks(r), rest);
  }

  lemma {:induction false} BacksOf(s: string, i: nat, c: Cmd) returns (n: nat)
    requires Line(s) && i <= |s|
    ensures Lex(s, i) == Amps(n) + Lex(s, Backs(s, i, c).at)
    decreases |s| - i
  {
    PeekIs(s, i, "&");
    LexSkip(s, i);
    if Begins(Lex(s, i), "&") {
      var after := Lex(s, i)[1..];
      assert Lex(s, i) == [S('&')] + after;
      Next(s, i, '&', after, "&");
      var m := BacksOf(s, GetToken(s, i).next, Back(c));
      n := m + 1;
      Assoc([S('&')], Amps(m), Lex(s, Backs(s, i, c).at));
    } else {
      n := 0;
    }
  }

  lemma {:induction false} LineOf(s: string, i: nat) returns (x: Syn)
    requires Line(s) && i <= |s| && ParseLine(s, i).Ok?
    ensures IsLine(x) && Legal(x) && Lex(s, i) == Toks(x) + Lex(s, ParseLine(s, i).at)
    decreases |s| - i, 3
  {
    var l := PipeOf(s, i);
    var p := ParsePipe(s, i);
    var n := BacksOf(s, p.at, p.value);
    var m := Backs(s, p.at, p.value).at;
    PeekIs(s, m, ";");
    LexSkip(s, m);
    if Begins(Lex(s, m), ";") {
      var after := Lex(s, m)[1..];
      assert Lex(s, m) == [S(';')] + after;
      Next(s, m, ';', after, ";");
      var r := LineOf(s, GetToken(s, m).next);
      x := Then(l, n, r);
      ThenToks(x, Lex(s, ParseLine(s, i).at), after);
    } else {
      x := Last(l, n);
      Assoc(Toks(l), Amps(n), Lex(s, m));
    }
  }

  /** parsecmd accepts exactly the lines whose tokens are a sentence. */
  lemma {:induction false} Accepts(s: string)
    requires Line(s)
    ensures ParseCmd(s).Ok? <==> exists x :: IsLine(x) && Legal(x) && Toks(x) == Lex(s, 0)
  {
    if ParseCmd(s).Ok? {
      var x := LineOf(s, 0);
      var at := ParseLine(s, 0).at;
      LexSkip(s, at);
      assert Lex(s, |s|) == [];
      assert Toks(x) + [] == Toks(x);
    }
    if x :| IsLine(x) && Legal(x) && Toks(x) == Lex(s, 0) {
      var c := SentenceParsed(x, s);
    }
  }

  // ----- how a line is written

  function Spell(t: Tok): string {
    if t.W? then t.text else if t.c == '+' then ">>" else [t.c]
  }

  predicate Blank(g: string) {
    forall k :: 0 <= k < |g| ==> Ws(g[k])
  }

  /** The tokens spelt out, with a gap before each and one at the end. */
  function Join(ts: seq<Tok>, gaps: seq<string>, end: string): string
    requires |gaps| == |ts|
  {
    if ts == [] then end else gaps[0] + (Spell(ts[0]) + Join(ts[1..], gaps[1..], end))
  }

  predicate LegalTok(t: Tok) {
    if t.W? then Word(t.text) else t.c == '+' || Sym(t.c)
  }

  predicate LegalToks(ts: seq<Tok>) {
    forall k {:trigger ts[k]} :: 0 <= k < |ts| ==> LegalTok(ts[k])
  }

  /** c, coming right after t, does not become part of it. */
  predicate Apart(t: Tok, c: char) {
    if t.W? then !Letter(c) else t.c == '>' ==> c != '>'
  }

  /** Gaps are blank, and are only left out where the tokens stay apart. */
  predicate GapsOk(ts: seq<Tok>, gaps: seq<string>) {
    && |gaps| == |ts| && (forall k {:trigger gaps[k]} :: 0 <= k < |gaps| ==> Blank(gaps[k]))
    && (|ts| > 1 ==> (gaps[1] == "" ==> Apart(ts[0], At(Spell(ts[1]), 0))) && GapsOk(ts[1..], gaps[1..]))
  }

  lemma {:induction false} WordEnds(s: string, i: nat, e: nat)
    requires i <= e <= |s| && (forall k :: i <= k < e ==> Letter(s[k])) && (e == |s| || !Letter(s[e])) && Line(s)
    ensures WordEnd(s, i) == e
    decreases e - i
  {
    if i < e {
      WordEnds(s, i + 1, e);
    }
  }

  lemma {:induction false} SkipGap(s: string, i: nat, q: nat)
    requires i <= q <= |s| && (forall k :: i <= k < q ==> Ws(s[k])) && !Ws(At(s, q))
    ensures Skip(s, i) == q
    decreases q - i
  {
    if i < q {
      SkipGap(s, i + 1, q);
    }
  }

  lemma {:induction false} JoinParts(s: string, i: nat, g: string, w: string, rest: string, q: nat, e: nat)
    requires i <= |s| && s[i..] == g + (w + rest) && q == i + |g| && e == q + |w|
    ensures e <= |s| && s[i..q] == g && s[q..e] == w && s[e..] == rest
  {
    var t := s[i..];
    assert t[..|g|] == g && t[|g|..|g| + |w|] == w && t[|g| + |w|..] == rest;
    assert s[i..q] == t[..|g|] && s[q..e] == t[|g|..|g| + |w|] && s[e..] == t[|g| + |w|..];
  }

  lemma {:induction false} TokenSpelt(s: string, i: nat, t: Tok, q: nat, e: nat)
    requires Line(s) && LegalTok(t) && i <= q < e <= |s| && Blank(s[i..q]) && s[q..e] == Spell(t)
    requires e < |s| ==> Apart(t, s[e])
    ensures GetToken(s, i) == Token(if t.W? then 'a' else t.c, q, e, Skip(s, e))
  {
    var w := Spell(t);
    forall k | q <= k < e ensures s[k] == w[k - q] {
      assert s[q..e][k - q] == s[k];
    }
    forall k | i <= k < q ensures Ws(s[k]) {
      assert s[i..q][k - i] == s[k];
    }
    assert s[q] == w[0] && (|w| > 1 ==> s[q + 1] == w[1]);
    SkipGap(s, i, q);
    if t.W? {
      WordEnds(s, q, e);
    }
  }

  /** What comes after the first token stays apart from it. */
  lemma {:induction false} RestApart(ts: seq<Tok>, gaps: seq<string>, end: string)
    requires ts != [] && GapsOk(ts, gaps) && LegalToks(ts) && Blank(end)
    ensures var rest := Join(ts[1..], gaps[1..], end); rest != "" ==> Apart(ts[0], rest[0])
  {
    assert LegalTok(ts[0]);
    if |ts| > 1 {
      assert Blank(gaps[1]) && LegalTok(ts[1]) && ts[1..][0] == ts[1] && gaps[1..][0] == gaps[1];
    }
  }

  lemma {:induction false} LexFirst(s: string, i: nat, t: Tok, q: nat, e: nat)
    requires i <= q < e <= |s| && LegalTok(t) && s[q..e] == Spell(t)
    requires GetToken(s, i) == Token(if t.W? then 'a' else t.c, q, e, Skip(s, e))
    ensures Lex(s, i) == [t] + Lex(s, e)
  {
    LexSkip(s, e);
    assert t.W? ==> t == W(s[q..e]);
  }

  /** The tokens are found again, whatever the gaps. */
  lemma {:induction false} LexJoin(s: string, i: nat, ts: seq<Tok>, gaps: seq<string>, end: string)
    requires Line(s) && i <= |s| && LegalToks(ts) && GapsOk(ts, gaps) && Blank(end) && s[i..] == Join(ts, gaps, end)
    ensures Lex(s, i) == ts
    decreases |ts|
  {
    if ts == [] {
      LexBlank(s, i);
    } else {
      var w, rest := Spell(ts[0]), Join(ts[1..], gaps[1..], end);
      var q := i + |gaps[0]|;
      var e := q + |w|;
      assert LegalTok(ts[0]) && Blank(gaps[0]);
      JoinParts(s, i, gaps[0], w, rest, q, e);
      RestApart(ts, gaps, end);
      assert e < |s| ==> s[e] == s[e..][0];
      TokenSpelt(s, i, ts[0], q, e);
      GapsRest(ts, gaps);
      LexJoin(s, e, ts[1..], gaps[1..], end);
      LexFirst(s, i, ts[0], q, e);
    }
  }

  lemma {:induction false} LexBlank(s: string, i: nat)
    requires i <= |s| && Blank(s[i..])
    ensures Lex(s, i) == []
  {
    forall k | i <= k < |s| ensures Ws(s[k]) {
      assert s[i..][k - i] == s[k];
    }
    SkipGap(s, i, |s|);
  }

  lemma {:induction false} GapsRest(ts: seq<Tok>, gaps: seq<string>)
    requires ts != [] && GapsOk(ts, gaps) && LegalToks(ts)
    ensures GapsOk(ts[1..], gaps[1..]) && LegalToks(ts[1..])
  {
  }

  lemma {:induction false} JoinIsLine(ts: seq<Tok>, gaps: seq<string>, end: string)
    requires LegalToks(ts) && GapsOk(ts, gaps) && Blank(end)
    ensures Line(Join(ts, gaps, end))
  {
    if ts != [] {
      assert LegalTok(ts[0]) && Blank(gaps[0]);
      GapsRest(ts, gaps);
      JoinIsLine(ts[1..], gaps[1..], end);
    }
  }

  /** Every command can be written: with parentheses round every part. */
  function SynOf(t: Tree): Syn {
    match t
    case TExec(args) => Last(Simple(ArgItems(args)), 0)
    case TRedir(c, file, mode) => Last(Block(SynOf(c), [Into(mode, file)]), 0)
    case TPipe(l, r) => Last(Piped(Block(SynOf(l), []), Block(SynOf(r), [])), 0)
    case TList(l, r) => Then(Block(SynOf(l), []), 0, Last(Block(SynOf(r), []), 0))
    case TBack(c) => Last(Block(SynOf(c), []), 1)
  }

  function ArgItems(args: seq<string>): seq<Item> {
    if args == [] then [] else [Arg(args[0])] + ArgItems(args[1..])
  }

  predicate LegalTree(t: Tree) {
    match t
    case TExec(args) => |args| < MAXARGS && forall k {:trigger args[k]} :: 0 <= k < |args| ==> Word(args[k])
    case TRedir(c, file, _) => LegalTree(c) && Word(file)
    case TPipe(l, r) => LegalTree(l) && LegalTree(r)
    case TList(l, r) => LegalTree(l) && LegalTree(r)
    case TBack(c) => LegalTree(c)
  }

  lemma {:induction false} ArgItemsOk(args: seq<string>)
    requires forall k {:trigger args[k]} :: 0 <= k < |args| ==> Word(args[k])
    ensures LegalItems(ArgItems(args)) && Words(ArgItems(args)) == args && Tos(ArgItems(args)) == []
  {
    if args != [] {
      ArgItemsOk(args[1..]);
      assert ArgItems(args)[1..] == ArgItems(args[1..]);
    }
  }

  lemma {:induction false} SynOfOk(t: Tree)
    requires LegalTree(t)
    ensures IsLine(SynOf(t)) && Legal(SynOf(t)) && TreeOf(SynOf(t)) == t
  {
    match t
    case TExec(args) =>
      ArgItemsOk(args);
      LastOk(Simple(ArgItems(args)));
    case TRedir(c, file, mode) =>
      SynOfOk(c);
      BlockOk(SynOf(c), [Into(mode, file)]);
      LastOk(Block(SynOf(c), [Into(mode, file)]));
      Into1Last(TreeOf(SynOf(c)), [], Into(mode, file));
      assert [] + [Into(mode, file)] == [Into(mode, file)];
    case TPipe(l, r) =>
      SynOfOk(l);
      SynOfOk(r);
      BlockOk(SynOf(l), []);
      BlockOk(SynOf(r), []);
      LastOk(Piped(Block(SynOf(l), []), Block(SynOf(r), [])));
    case TList(l, r) =>
      SynOfOk(l);
      SynOfOk(r);
      BlockOk(SynOf(l), []);
      BlockOk(SynOf(r), []);
      LastOk(Block(SynOf(r), []));
    case TBack(c) =>
      SynOfOk(c);
      BlockOk(SynOf(c), []);
      assert Backs1(TreeOf(Block(SynOf(c), [])), 1) == Backs1(t, 0);
  }

  lemma {:induction false} BlockOk(x: Syn, tos: seq<Into>)
    requires IsLine(x) && Legal(x) && LegalTos(tos)
    ensures IsPipe(Block(x, tos)) && IsExec(Block(x, tos)) && Legal(Block(x, tos))
    ensures TreeOf(Block(x, tos)) == Into1(TreeOf(x), tos) && Into1(TreeOf(x), []) == TreeOf(x)
  {
  }

  lemma {:induction false} LastOk(x: Syn)
    requires IsPipe(x) && Legal(x)
    ensures IsLine(Last(x, 0)) && Legal(Last(x, 0)) && TreeOf(Last(x, 0)) == TreeOf(x)
  {
  }

  lemma {:induction false} ItemsToksLegal(items: seq<Item>)
    requires LegalItems(items)
    ensures LegalToks(ItemsToks(items))
  {
    if items != [] {
      assert Word(if items[0].Arg? then items[0].word else items[0].into.file);
      assert LegalItems(items[1..]);
      ItemsToksLegal(items[1..]);
    }
  }

  lemma {:induction false} TosToksLegal(tos: seq<Into>)
    requires LegalTos(tos)
    ensures LegalToks(TosToks(tos))
  {
    if tos != [] {
      assert Word(tos[0].file);
      TosToksLegal(tos[1..]);
    }
  }

  lemma {:induction false} AmpsLegal(n: nat)
    ensures LegalToks(Amps(n))
  {
    if n > 0 {
      AmpsLegal(n - 1);
    }
  }

  lemma {:induction false} ToksLegal(x: Syn)
    requires Legal(x)
    ensures LegalToks(Toks(x))
  {
    match x
    case Simple(items) => ItemsToksLegal(items);
    case Block(body, tos) =>
      ToksLegal(body);
      TosToksLegal(tos);
    case Piped(first, rest) =>
      ToksLegal(first);
      ToksLegal(rest);
    case Last(pipe, n) =>
      ToksLegal(pipe);
      AmpsLegal(n);
    case Then(pipe, n, rest) =>
      ToksLegal(pipe);
      AmpsLegal(n);
      ToksLegal(rest);
  }

  /** Writing a sentence down, in whatever way, and parsing it gives what it means. */
  lemma {:induction false} ParseJoin(x: Syn, gaps: seq<string>, end: string) returns (c: Cmd)
    requires IsLine(x) && Legal(x) && GapsOk(Toks(x), gaps) && Blank(end)
    ensures var s := Join(Toks(x), gaps, end); Line(s) && ParseCmd(s) == Ok(c, |s|) && Meaning(s, c) == TreeOf(x)
  {
    var s := Join(Toks(x), gaps, end);
    ToksLegal(x);
    JoinIsLine(Toks(x), gaps, end);
    assert s[0..] == s;
    LexJoin(s, 0, Toks(x), gaps, end);
    c := SentenceParsed(x, s);
  }

  function Spaces(n: nat): (gaps: seq<string>)
    ensures |gaps| == n
  {
    if n == 0 then [] else [" "] + Spaces(n - 1)
  }

  lemma {:induction false} SpacesOk(ts: seq<Tok>)
    ensures GapsOk(ts, Spaces(|ts|))
  {
    var gaps := Spaces(|ts|);
    if ts != [] {
      SpacesOk(ts[1..]);
      assert gaps[1..] == Spaces(|ts| - 1);
      forall k | 0 <= k < |gaps| ensures Blank(gaps[k]) {
        assert k > 0 ==> gaps[k] == gaps[1..][k - 1];
      }
    }
  }

  function Print(t: Tree): string {
    Join(Toks(SynOf(t)), Spaces(|Toks(SynOf(t))|), "")
  }

  /** Printing a command and parsing it gives the command back. */
  lemma {:induction false} ParsePrint(t: Tree) returns (c: Cmd)
    requires LegalTree(t)
    ensures ParseCmd(Print(t)) == Ok(c, |Print(t)|) && Meaning(Print(t), c) == t
  {
    SynOfOk(t);
    SpacesOk(Toks(SynOf(t)));
    c := ParseJoin(SynOf(t), Spaces(|Toks(SynOf(t))|), "");
  }

  /** After nulterminate, the C strings of a parsed sentence spell what it means. */
  lemma {:induction false} SentenceMeans(x: Syn, s: string, c: Cmd, b: string)
    requires IsLine(x) && Legal(x) && Line(s) && Lex(s, 0) == Toks(x) && ParseCmd(s) == Ok(c, |s|) &&
             Terminated(s, b, c)
    ensures CMeaning(b, c) == TreeOf(x)
  {
    var d := SentenceParsed(x, s);
    LineOk(s, 0);
    PartMeans(s, b, c, c);
  }
}
