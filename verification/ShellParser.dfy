/** The parser of user/sh.c: recursive descent over a cursor into the command line, and
    the zero bytes that nulterminate writes into it.  A position is an index into the
    line; the character at the end of the line is the terminating NUL. */
module ShellParser {
  const NUL: char := '\0'
  const MAXARGS: nat := 10

  // ----- tokens

  predicate Ws(c: char) {
    c == ' ' || c == '\t' || c == '\r' || c == '\n' || c == 11 as char
  }

  predicate Sym(c: char) {
    c == '<' || c == '|' || c == '>' || c == '&' || c == ';' || c == '(' || c == ')'
  }

  predicate Letter(c: char) {
    !Ws(c) && !Sym(c) && c != NUL
  }

  function At(s: string, i: nat): char {
    if i < |s| then s[i] else NUL
  }

  function Skip(s: string, i: nat): (j: nat)
    requires i <= |s|
    ensures i <= j <= |s| && !Ws(At(s, j))
    decreases |s| - i
  {
    if i < |s| && Ws(s[i]) then Skip(s, i + 1) else i
  }

  function WordEnd(s: string, i: nat): (j: nat)
    requires i <= |s|
    ensures i <= j <= |s|
    decreases |s| - i
  {
    if i < |s| && !Ws(s[i]) && !Sym(s[i]) then WordEnd(s, i + 1) else i
  }

  /** What gettoken returns: the kind, where the token is, and where the cursor is then. */
  datatype Token = Token(kind: char, q: nat, eq: nat, next: nat)

  function GetToken(s: string, i: nat): (t: Token)
    requires i <= |s|
    ensures i <= t.q <= t.eq <= t.next <= |s|
    ensures t.kind != NUL ==> i < t.next
  {
    var q := Skip(s, i);
    var c := At(s, q);
    var kind := if c == NUL then NUL else if c == '>' && At(s, q + 1) == '>' then '+' else if Sym(c) then c else 'a';
    var eq := if c == NUL then q else if kind == '+' then q + 2 else if Sym(c) then q + 1 else WordEnd(s, q);
    Token(kind, q, eq, Skip(s, eq))
  }

  predicate Peek(s: string, i: nat, toks: string)
    requires i <= |s|
  {
    At(s, Skip(s, i)) != NUL && At(s, Skip(s, i)) in toks
  }

  /** The line as gettoken and peek walk over it. */
  class Cursor {
    const s: string
    var i: nat

    constructor (s: string)
      ensures this.s == s && i == 0
    {
      this.s, i := s, 0;
    }

    /** while(s < es && strchr(whitespace, *s)) s++ */
    method SkipBlanks()
      requires i <= |s|
      modifies this
      ensures i == Skip(s, old(i))
    {
      while i < |s| && Ws(s[i])
        invariant i <= |s| && Skip(s, i) == Skip(s, old(i))
      {
        i := i + 1;
      }
    }

    method Gettoken() returns (kind: char, q: nat, eq: nat)
      requires i <= |s|
      modifies this
      ensures i <= |s| && Token(kind, q, eq, i) == GetToken(s, old(i))
    {
      SkipBlanks();
      q := i;
      var c := At(s, i);
      kind := c;
      if c == NUL {
      } else if c == '>' {
        i := i + 1;
        if At(s, i) == '>' {
          kind := '+';
          i := i + 1;
        }
      } else if Sym(c) {
        i := i + 1;
      } else {
        kind := 'a';
        while i < |s| && !Ws(s[i]) && !Sym(s[i])
          invariant q <= i <= |s| && WordEnd(s, i) == WordEnd(s, q)
        {
          i := i + 1;
        }
      }
      eq := i;
      SkipBlanks();
    }

    method PeekAt(toks: string) returns (yes: bool)
      requires i <= |s|
      modifies this
      ensures i == Skip(s, old(i)) && yes == Peek(s, old(i), toks)
    {
      SkipBlanks();
      yes := At(s, i) != NUL && At(s, i) in toks;
    }

    /** parseredirs, collecting what is to be wrapped round the command. */
    method Parseredirs(ts0: seq<Target>) returns (ok: bool, ts: seq<Target>)
      requires i <= |s|
      modifies this
      ensures i <= |s| && (if ok then Redirs(s, old(i), ts0) == Ok(ts, i) else Redirs(s, old(i), ts0) == Panic)
    {
      ts := ts0;
      var more := PeekAt("<>");
      SkipNone(s, i);
      while more
        invariant i <= |s| && Skip(s, i) == i && Redirs(s, i, ts) == Redirs(s, old(i), ts0) && more == Peek(s, i, "<>")
        decreases |s| - i
      {
        var op, _, _ := Gettoken();
        var kind, q, eq := Gettoken();
        if kind != 'a' {
          return false, ts;
        }
        ts := ts + [Target(Span(q, eq), ModeOf(op))];
        more := PeekAt("<>");
        SkipNone(s, i);
      }
      ok := true;
    }

    method Parseexec() returns (ok: bool, c: Cmd)
      requires i <= |s|
      modifies this
      ensures i <= |s| && (if ok then ParseExec(s, old(i)) == Ok(c, i) else ParseExec(s, old(i)) == Panic)
      decreases |s| - i, 1
    {
      c := Exec([]);
      var block := PeekAt("(");
      SkipNone(s, i);
      if block {
        ok, c := Parseblock();
        return;
      }
      var ts;
      ok, ts := Parseredirs([]);
      if !ok {
        return;
      }
      var argv;
      ok, argv, ts := Parseargs(ts);
      c := Wrap(Exec(argv), ts);
    }

    /** The loop of parseexec. */
    method Parseargs(ts0: seq<Target>) returns (ok: bool, argv: seq<Span>, ts: seq<Target>)
      requires i <= |s|
      modifies this
      ensures i <= |s| && (if ok then Args(s, old(i), [], ts0) == Ok(Words(argv, ts), i)
              else Args(s, old(i), [], ts0) == Panic)
    {
      argv, ts := [], ts0;
      var stop := PeekAt("|)&;");
      SkipNone(s, i);
      while !stop
        invariant i <= |s| && Skip(s, i) == i && Args(s, i, argv, ts) == Args(s, old(i), [], ts0) &&
                  stop == Peek(s, i, "|)&;")
        decreases |s| - i
      {
        var kind, q, eq := Gettoken();
        if kind == NUL {
          break;
        }
        if kind != 'a' {
          return false, argv, ts;
        }
        argv := argv + [Span(q, eq)];
        if |argv| >= MAXARGS {
          return false, argv, ts;
        }
        ok, ts := Parseredirs(ts);
        if !ok {
          return;
        }
        stop := PeekAt("|)&;");
        SkipNone(s, i);
      }
      ok := true;
    }

    method Parseblock() returns (ok: bool, c: Cmd)
      requires i <= |s|
      modifies this
      ensures i <= |s| && (if ok then ParseBlock(s, old(i)) == Ok(c, i) else ParseBlock(s, old(i)) == Panic)
      decreases |s| - i, 0
    {
      c := Exec([]);
      var yes := PeekAt("(");
      if !yes {
        return false, c;
      }
      var kind, _, _ := Gettoken();
      ok, c := Parseline();
      if !ok {
        return;
      }
      yes := PeekAt(")");
      if !yes {
        return false, c;
      }
      var close, _, _ := Gettoken();
      var ts;
      ok, ts := Parseredirs([]);
      c := Wrap(c, ts);
    }

    method Parsepipe() returns (ok: bool, c: Cmd)
      requires i <= |s|
      modifies this
      ensures i <= |s| && (if ok then ParsePipe(s, old(i)) == Ok(c, i) else ParsePipe(s, old(i)) == Panic)
      decreases |s| - i, 2
    {
      ok, c := Parseexec();
      if !ok {
        return;
      }
      var more := PeekAt("|");
      if more {
        var kind, _, _ := Gettoken();
        var d;
        ok, d := Parsepipe();
        c := Pipe(c, d);
      }
    }

    method Parseline() returns (ok: bool, c: Cmd)
      requires i <= |s|
      modifies this
      ensures i <= |s| && (if ok then ParseLine(s, old(i)) == Ok(c, i) else ParseLine(s, old(i)) == Panic)
      decreases |s| - i, 3
    {
      ok, c := Parsepipe();
      if !ok {
        return;
      }
      c := Parsebacks(c);
      var more := PeekAt(";");
      SkipNone(s, i);
      if more {
        var kind, _, _ := Gettoken();
        var d;
        ok, d := Parseline();
        c := List(c, d);
      }
    }

    /** while(peek(ps, es, "&")) ... */
    method Parsebacks(c0: Cmd) returns (c: Cmd)
      requires i <= |s|
      modifies this
      ensures old(i) <= i <= |s| && Backs(s, old(i), c0) == Ok(c, i)
    {
      c := c0;
      var more := PeekAt("&");
      SkipNone(s, i);
      while more
        invariant old(i) <= i <= |s| && Skip(s, i) == i && Backs(s, i, c) == Backs(s, old(i), c0) &&
                  more == Peek(s, i, "&")
        decreases |s| - i
      {
        var kind, _, _ := Gettoken();
        c := Back(c);
        more := PeekAt("&");
        SkipNone(s, i);
      }
    }
  }

  // ----- commands

  /** A token in the line: [q, eq). */
  datatype Span = Span(q: nat, eq: nat)

  datatype Redirection = Read | Write | Append

  /** The command structures, with their pointers into the line. */
  datatype Cmd =
    | Exec(argv: seq<Span>)
    | Redir(cmd: Cmd, file: Span, mode: Redirection)
    | Pipe(left: Cmd, right: Cmd)
    | List(left: Cmd, right: Cmd)
    | Back(cmd: Cmd)

  /** A file to redirect to, before it is wrapped round a command. */
  datatype Target = Target(file: Span, mode: Redirection)

  datatype Parsed<T> = Ok(value: T, at: nat) | Panic

  function Wrap(c: Cmd, ts: seq<Target>): Cmd {
    if ts == [] then c else Redir(Wrap(c, ts[..|ts| - 1]), ts[|ts| - 1].file, ts[|ts| - 1].mode)
  }

  function ModeOf(kind: char): Redirection {
    if kind == '<' then Read else if kind == '>' then Write else Append
  }

  /** parseredirs: the targets it adds to those there are. */
  function Redirs(s: string, i: nat, ts: seq<Target>): (r: Parsed<seq<Target>>)
    requires i <= |s|
    ensures r.Ok? ==> i <= r.at <= |s|
    decreases |s| - i
  {
    if !Peek(s, i, "<>") then Ok(ts, Skip(s, i))
    else
      var op := GetToken(s, Skip(s, i));
      var file := GetToken(s, op.next);
      if file.kind != 'a' then Panic else Redirs(s, file.next, ts + [Target(Span(file.q, file.eq), ModeOf(op.kind))])
  }

  datatype Words = Words(argv: seq<Span>, targets: seq<Target>)

  /** The loop of parseexec. */
  function Args(s: string, i: nat, argv: seq<Span>, ts: seq<Target>): (r: Parsed<Words>)
    requires i <= |s|
    ensures r.Ok? ==> i <= r.at <= |s|
    decreases |s| - i
  {
    if Peek(s, i, "|)&;") then Ok(Words(argv, ts), Skip(s, i))
    else
      var t := GetToken(s, Skip(s, i));
      if t.kind == NUL then Ok(Words(argv, ts), t.next)
      else if t.kind != 'a' || |argv| + 1 >= MAXARGS then Panic
      else
        match Redirs(s, t.next, ts)
        case Panic => Panic
        case Ok(ts', at) => Args(s, at, argv + [Span(t.q, t.eq)], ts')
  }

  function ParseExec(s: string, i: nat): (r: Parsed<Cmd>)
    requires i <= |s|
    ensures r.Ok? ==> i <= r.at <= |s|
    decreases |s| - i, 1
  {
    if Peek(s, i, "(") then ParseBlock(s, Skip(s, i))
    else
      match Redirs(s, Skip(s, i), [])
      case Panic => Panic
      case Ok(ts, at) =>
        match Args(s, at, [], ts)
        case Panic => Panic
        case Ok(w, end) => Ok(Wrap(Exec(w.argv), w.targets), end)
  }

  function ParseBlock(s: string, i: nat): (r: Parsed<Cmd>)
    requires i <= |s|
    ensures r.Ok? ==> i <= r.at <= |s|
    decreases |s| - i, 0
  {
    if !Peek(s, i, "(") then Panic
    else
      match ParseLine(s, GetToken(s, Skip(s, i)).next)
      case Panic => Panic
      case Ok(c, at) =>
        if !Peek(s, at, ")") then Panic
        else
          match Redirs(s, GetToken(s, Skip(s, at)).next, [])
          case Panic => Panic
          case Ok(ts, end) => Ok(Wrap(c, ts), end)
  }

  function ParsePipe(s: string, i: nat): (r: Parsed<Cmd>)
    requires i <= |s|
    ensures r.Ok? ==> i <= r.at <= |s|
    decreases |s| - i, 2
  {
    match ParseExec(s, i)
    case Panic => Panic
    case Ok(c, at) =>
      if !Peek(s, at, "|") then Ok(c, Skip(s, at))
      else
        match ParsePipe(s, GetToken(s, Skip(s, at)).next)
        case Panic => Panic
        case Ok(d, end) => Ok(Pipe(c, d), end)
  }

  /** The & of parseline. */
  function Backs(s: string, i: nat, c: Cmd): (r: Parsed<Cmd>)
    requires i <= |s|
    ensures r.Ok? && i <= r.at <= |s|
    decreases |s| - i
  {
    if Peek(s, i, "&") then Backs(s, GetToken(s, Skip(s, i)).next, Back(c)) else Ok(c, Skip(s, i))
  }

  function ParseLine(s: string, i: nat): (r: Parsed<Cmd>)
    requires i <= |s|
    ensures r.Ok? ==> i <= r.at <= |s|
    decreases |s| - i, 3
  {
    match ParsePipe(s, i)
    case Panic => Panic
    case Ok(c, at) =>
      var b := Backs(s, at, c);
      if !Peek(s, b.at, ";") then Ok(b.value, Skip(s, b.at))
      else
        match ParseLine(s, GetToken(s, Skip(s, b.at)).next)
        case Panic => Panic
        case Ok(d, end) => Ok(List(b.value, d), end)
  }

  /** parsecmd, up to nulterminate. */
  function ParseCmd(s: string): Parsed<Cmd> {
    match ParseLine(s, 0)
    case Panic => Panic
    case Ok(c, at) => if Skip(s, at) != |s| then Panic else Ok(c, |s|)
  }

  // ----- what the structures say

  /** A command as the user means it. */
  datatype Tree =
    | TExec(args: seq<string>)
    | TRedir(cmd: Tree, file: string, mode: Redirection)
    | TPipe(left: Tree, right: Tree)
    | TList(left: Tree, right: Tree)
    | TBack(cmd: Tree)

  function Text(s: string, p: Span): string {
    if p.q <= p.eq <= |s| then s[p.q..p.eq] else ""
  }

  function Texts(s: string, ps: seq<Span>): (ws: seq<string>)
    ensures |ws| == |ps|
  {
    if ps == [] then [] else Texts(s, ps[..|ps| - 1]) + [Text(s, ps[|ps| - 1])]
  }

  function Meaning(s: string, c: Cmd): Tree {
    match c
    case Exec(argv) => TExec(Texts(s, argv))
    case Redir(d, file, mode) => TRedir(Meaning(s, d), Text(s, file), mode)
    case Pipe(l, r) => TPipe(Meaning(s, l), Meaning(s, r))
    case List(l, r) => TList(Meaning(s, l), Meaning(s, r))
    case Back(d) => TBack(Meaning(s, d))
  }

  // ----- lines

  /** A line has no zero byte in it. */
  predicate Line(s: string) {
    forall j {:trigger s[j]} :: 0 <= j < |s| ==> s[j] != NUL
  }

  lemma {:induction false} SkipNone(s: string, i: nat)
    requires i <= |s| && !Ws(At(s, i))
    ensures Skip(s, i) == i
  {
  }


  // ----- nulterminate

  /** A token is a run of letters, and what follows it is no letter. */
  ghost predicate SpanOk(s: string, p: Span) {
    && p.q < p.eq <= |s| && (forall k {:trigger s[k]} :: p.q <= k < p.eq ==> !Ws(s[k]) && !Sym(s[k]))
    && (p.eq < |s| ==> Ws(s[p.eq]) || Sym(s[p.eq]))
  }

  ghost predicate CmdOk(s: string, c: Cmd) {
    match c
    case Exec(argv) => forall k {:trigger argv[k]} :: 0 <= k < |argv| ==> SpanOk(s, argv[k])
    case Redir(d, file, _) => CmdOk(s, d) && SpanOk(s, file)
    case Pipe(l, r) => CmdOk(s, l) && CmdOk(s, r)
    case List(l, r) => CmdOk(s, l) && CmdOk(s, r)
    case Back(d) => CmdOk(s, d)
  }

  ghost predicate TargetsOk(s: string, ts: seq<Target>) {
    forall k {:trigger ts[k]} :: 0 <= k < |ts| ==> SpanOk(s, ts[k].file)
  }

  lemma {:induction false} WordLetters(s: string, i: nat)
    requires i <= |s|
    ensures forall k {:trigger s[k]} :: i <= k < WordEnd(s, i) ==> !Ws(s[k]) && !Sym(s[k])
    ensures WordEnd(s, i) < |s| ==> Ws(s[WordEnd(s, i)]) || Sym(s[WordEnd(s, i)])
    decreases |s| - i
  {
    if i < |s| && !Ws(s[i]) && !Sym(s[i]) {
      WordLetters(s, i + 1);
    }
  }

  lemma {:induction false} TokenOk(s: string, i: nat)
    requires i <= |s|
    ensures var t := GetToken(s, i); t.kind == 'a' ==> SpanOk(s, Span(t.q, t.eq))
  {
    WordLetters(s, Skip(s, i));
  }

  lemma {:induction false} RedirsOk(s: string, i: nat, ts: seq<Target>)
    requires i <= |s| && TargetsOk(s, ts)
    ensures Redirs(s, i, ts).Ok? ==> TargetsOk(s, Redirs(s, i, ts).value)
    decreases |s| - i
  {
    if Peek(s, i, "<>") {
      var op := GetToken(s, Skip(s, i));
      var file := GetToken(s, op.next);
      if file.kind == 'a' {
        TokenOk(s, op.next);
        RedirsOk(s, file.next, ts + [Target(Span(file.q, file.eq), ModeOf(op.kind))]);
      }
    }
  }

  lemma {:induction false} ArgsOk(s: string, i: nat, argv: seq<Span>, ts: seq<Target>)
    requires i <= |s| && CmdOk(s, Exec(argv)) && TargetsOk(s, ts)
    ensures var r := Args(s, i, argv, ts); r.Ok? ==> CmdOk(s, Exec(r.value.argv)) && TargetsOk(s, r.value.targets)
    decreases |s| - i
  {
    if !Peek(s, i, "|)&;") {
      var t := GetToken(s, Skip(s, i));
      if t.kind == 'a' && |argv| + 1 < MAXARGS {
        TokenOk(s, Skip(s, i));
        RedirsOk(s, t.next, ts);
        var r := Redirs(s, t.next, ts);
        if r.Ok? {
          ArgsOk(s, r.at, argv + [Span(t.q, t.eq)], r.value);
        }
      }
    }
  }

  lemma {:induction false} WrapOk(s: string, c: Cmd, ts: seq<Target>)
    requires CmdOk(s, c) && TargetsOk(s, ts)
    ensures CmdOk(s, Wrap(c, ts))
  {
    if ts != [] {
      WrapOk(s, c, ts[..|ts| - 1]);
    }
  }

  lemma {:induction false} ExecOk(s: string, i: nat)
    requires i <= |s|
    ensures ParseExec(s, i).Ok? ==> CmdOk(s, ParseExec(s, i).value)
    decreases |s| - i, 1
  {
    if Peek(s, i, "(") {
      BlockOk(s, Skip(s, i));
    } else {
      RedirsOk(s, Skip(s, i), []);
      var r := Redirs(s, Skip(s, i), []);
      if r.Ok? {
        ArgsOk(s, r.at, [], r.value);
        var w := Args(s, r.at, [], r.value);
        if w.Ok? {
          WrapOk(s, Exec(w.value.argv), w.value.targets);
        }
      }
    }
  }

  lemma {:induction false} BlockOk(s: string, i: nat)
    requires i <= |s|
    ensures ParseBlock(s, i).Ok? ==> CmdOk(s, ParseBlock(s, i).value)
    decreases |s| - i, 0
  {
    if Peek(s, i, "(") {
      var a := GetToken(s, Skip(s, i)).next;
      LineOk(s, a);
      var c := ParseLine(s, a);
      if c.Ok? && Peek(s, c.at, ")") {
        var b := GetToken(s, Skip(s, c.at)).next;
        RedirsOk(s, b, []);
        if Redirs(s, b, []).Ok? {
          WrapOk(s, c.value, Redirs(s, b, []).value);
        }
      }
    }
  }

  lemma {:induction false} PipeOk(s: string, i: nat)
    requires i <= |s|
    ensures ParsePipe(s, i).Ok? ==> CmdOk(s, ParsePipe(s, i).value)
    decreases |s| - i, 2
  {
    ExecOk(s, i);
    var r := ParseExec(s, i);
    if r.Ok? && Peek(s, r.at, "|") {
      PipeOk(s, GetToken(s, Skip(s, r.at)).next);
    }
  }

  lemma {:induction false} BacksOk(s: string, i: nat, c: Cmd)
    requires i <= |s| && CmdOk(s, c)
    ensures CmdOk(s, Backs(s, i, c).value)
    decreases |s| - i
  {
    if Peek(s, i, "&") {
      BacksOk(s, GetToken(s, Skip(s, i)).next, Back(c));
    }
  }

  /** Whatever the line is, the pointers of the parsed command are at its tokens. */
  lemma {:induction false} LineOk(s: string, i: nat)
    requires i <= |s|
    ensures ParseLine(s, i).Ok? ==> CmdOk(s, ParseLine(s, i).value)
    decreases |s| - i, 3
  {
    PipeOk(s, i);
    var r := ParsePipe(s, i);
    if r.Ok? {
      BacksOk(s, r.at, r.value);
      var b := Backs(s, r.at, r.value);
      if Peek(s, b.at, ";") {
        LineOk(s, GetToken(s, Skip(s, b.at)).next);
      }
    }
  }

  /** j is where a token of the command ends. */
  predicate Ends(c: Cmd, j: nat) {
    match c
    case Exec(argv) => exists k :: 0 <= k < |argv| && argv[k].eq == j
    case Redir(d, file, _) => Ends(d, j) || file.eq == j
    case Pipe(l, r) => Ends(l, j) || Ends(r, j)
    case List(l, r) => Ends(l, j) || Ends(r, j)
    case Back(d) => Ends(d, j)
  }

  predicate EndsIn(c: Cmd, n: nat) {
    match c
    case Exec(argv) => forall k {:trigger argv[k]} :: 0 <= k < |argv| ==> argv[k].eq < n
    case Redir(d, file, _) => EndsIn(d, n) && file.eq < n
    case Pipe(l, r) => EndsIn(l, n) && EndsIn(r, n)
    case List(l, r) => EndsIn(l, n) && EndsIn(r, n)
    case Back(d) => EndsIn(d, n)
  }

  lemma {:induction false} OkEnds(s: string, c: Cmd)
    requires CmdOk(s, c)
    ensures EndsIn(c, |s| + 1)
    ensures forall j: nat {:trigger Ends(c, j)} :: Ends(c, j) ==> j <= |s| && (j < |s| ==> Ws(s[j]) || Sym(s[j]))
  {
    match c
    case Exec(argv) =>
    case Redir(d, _, _) =>
      OkEnds(s, d);
    case Pipe(l, r) =>
      OkEnds(s, l);
      OkEnds(s, r);
    case List(l, r) =>
      OkEnds(s, l);
      OkEnds(s, r);
    case Back(d) =>
      OkEnds(s, d);
  }

  /** The string that starts at q in memory. */
  function CStr(b: string, q: nat): string
    decreases |b| - q
  {
    if q >= |b| || b[q] == NUL then "" else [b[q]] + CStr(b, q + 1)
  }

  function CStrs(b: string, ps: seq<Span>): (ws: seq<string>)
    ensures |ws| == |ps|
  {
    if ps == [] then [] else CStrs(b, ps[..|ps| - 1]) + [CStr(b, ps[|ps| - 1].q)]
  }

  /** The command as runcmd sees it: every argument and file name is a C string. */
  function CMeaning(b: string, c: Cmd): Tree {
    match c
    case Exec(argv) => TExec(CStrs(b, argv))
    case Redir(d, file, mode) => TRedir(CMeaning(b, d), CStr(b, file.q), mode)
    case Pipe(l, r) => TPipe(CMeaning(b, l), CMeaning(b, r))
    case List(l, r) => TList(CMeaning(b, l), CMeaning(b, r))
    case Back(d) => TBack(CMeaning(b, d))
  }

  /** b is the line with zero bytes where the tokens of `all` end. */
  ghost predicate Terminated(s: string, b: string, all: Cmd) {
    |b| == |s| + 1 && forall j: nat {:trigger b[j]} :: j < |b| ==>
        b[j] == if Ends(all, j) || j == |s| then NUL else s[j]
  }

  lemma {:induction false} CStrIs(s: string, b: string, all: Cmd, p: Span, q: nat)
    requires Line(s) && CmdOk(s, all) && Terminated(s, b, all) && SpanOk(s, p) && Ends(all, p.eq) && p.q <= q <= p.eq
    ensures CStr(b, q) == s[q..p.eq]
    decreases p.eq - q
  {
    OkEnds(s, all);
    if q < p.eq {
      assert s[q] != NUL;
      CStrIs(s, b, all, p, q + 1);
      assert s[q..p.eq] == [s[q]] + s[q + 1..p.eq];
    }
  }

  lemma {:induction false} CStrsAre(s: string, b: string, all: Cmd, argv: seq<Span>)
    requires Line(s) && CmdOk(s, all) && Terminated(s, b, all) && CmdOk(s, Exec(argv)) && forall k {:trigger argv[k]} ::
             0 <= k < |argv| ==> Ends(all, argv[k].eq)
    ensures CStrs(b, argv) == Texts(s, argv)
  {
    if argv != [] {
      var p := argv[|argv| - 1];
      CStrsAre(s, b, all, argv[..|argv| - 1]);
      CStrIs(s, b, all, p, p.q);
    }
  }

  lemma {:induction false} PartMeans(s: string, b: string, all: Cmd, c: Cmd)
    requires Line(s) && CmdOk(s, all) && Terminated(s, b, all) && CmdOk(s, c) && forall j: nat {:trigger Ends(c, j)} ::
             Ends(c, j) ==> Ends(all, j)
    ensures CMeaning(b, c) == Meaning(s, c)
    decreases c
  {
    match c
    case Exec(argv) =>
      forall k | 0 <= k < |argv| ensures Ends(all, argv[k].eq) {
        assert Ends(c, argv[k].eq);
      }
      CStrsAre(s, b, all, argv);
    case Redir(d, file, _) =>
      assert Ends(c, file.eq);
      EndsUp(c, d);
      PartMeans(s, b, all, d);
      CStrIs(s, b, all, file, file.q);
    case Pipe(l, r) =>
      EndsUp(c, l);
      EndsUp(c, r);
      PartMeans(s, b, all, l);
      PartMeans(s, b, all, r);
    case List(l, r) =>
      EndsUp(c, l);
      EndsUp(c, r);
      PartMeans(s, b, all, l);
      PartMeans(s, b, all, r);
    case Back(d) =>
      EndsUp(c, d);
      PartMeans(s, b, all, d);
  }

  lemma {:induction false} EndsUp(c: Cmd, d: Cmd)
    requires (c.Redir? && d == c.cmd) || (c.Pipe? && (d == c.left || d == c.right)) ||
             (c.List? && (d == c.left || d == c.right)) || (c.Back? && d == c.cmd)
    ensures forall j: nat {:trigger Ends(d, j)} :: Ends(d, j) ==> Ends(c, j)
  {
  }

  /** The line in memory. */
  class Buffer {
    var b: string

    constructor (s: string)
      ensures b == s + [NUL]
    {
      b := s + [NUL];
    }

    method Nulterminate(c: Cmd)
      requires EndsIn(c, |b|)
      modifies this
      ensures |b| == |old(b)| && forall j: nat {:trigger b[j]} :: j < |b| ==>
              b[j] == if Ends(c, j) then NUL else old(b)[j]
      decreases c
    {
      match c
      case Exec(argv) =>
        var i := 0;
        while i < |argv|
          invariant 0 <= i <= |argv| && |b| == |old(b)|
          invariant forall j: nat {:trigger b[j]} :: j < |b| ==>
                    b[j] == if exists k :: 0 <= k < i && argv[k].eq == j then NUL else old(b)[j]
        {
          b := b[argv[i].eq := NUL];
          i := i + 1;
        }
      case Redir(d, file, _) =>
        Nulterminate(d);
        b := b[file.eq := NUL];
      case Pipe(l, r) =>
        Nulterminate(l);
        Nulterminate(r);
      case List(l, r) =>
        Nulterminate(l);
        Nulterminate(r);
      case Back(d) =>
        Nulterminate(d);
    }
  }

  /** parsecmd: after it, the C strings of the command are exactly its tokens. */
  method Parsecmd(s: string) returns (ok: bool, c: Cmd, b: string)
    requires Line(s)
    ensures if ok then ParseCmd(s) == Ok(c, |s|) else ParseCmd(s) == Panic
    ensures ok ==> CMeaning(b, c) == Meaning(s, c)
  {
    var cursor := new Cursor(s);
    b := s + [NUL];
    ok, c := cursor.Parseline();
    if !ok {
      return;
    }
    var _ := cursor.PeekAt("");
    if cursor.i != |s| {
      ok := false;
      return;
    }
    LineOk(s, 0);
    OkEnds(s, c);
    var buffer := new Buffer(s);
    buffer.Nulterminate(c);
    b := buffer.b;
    PartMeans(s, b, c, c);
  }
}
