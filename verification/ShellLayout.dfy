/** What a command line means, said of its characters: which stretch of the line each part of a command
    takes up, and that these are exactly the commands of the grammar. */
module ShellLayout {
  import opened ShellLex
  import opened ShellGrammar
  import opened ShellCmd

  // ----- Stretches of the line

  predicate Blank(b: seq<Ch>, i: nat, j: nat) { i <= j <= |b| && forall k | i <= k < j :: b[k].Space? }

  /** b[i..j) is the word t and white space around it. */
  predicate WordAt(b: seq<Ch>, i: nat, j: nat, t: Tok) {
    t.q < t.eq && Blank(b, i, t.q) && Blank(b, t.eq, j) && Whole(b, t)
  }

  /** The operator is at p: `<` reads the file as descriptor 0, `>` and `>>` write it as descriptor 1. */
  predicate OperatorAt(b: seq<Ch>, p: nat, j: nat, file: Tok, write: bool, fd: nat) {
    && p < j <= |b|
    && if write then fd == 1 && b[p] == Gt && (WordAt(b, p + 1, j, file) || (p + 1 < j && b[p + 1] == Gt && WordAt(b, p + 2, j, file)))
       else fd == 0 && b[p] == Lt && WordAt(b, p + 1, j, file)
  }

  /** b[i..j) is a redirection. */
  ghost predicate RedirAt(b: seq<Ch>, i: nat, j: nat, file: Tok, write: bool, fd: nat) {
    exists p: nat :: Blank(b, i, p) && OperatorAt(b, p, j, file, write, fd)
  }

  /** The arguments of a simple command inside its redirections. */
  function Args(c: Cmd): seq<Tok> {
    match c
    case Exec(argv) => argv
    case Redir(cmd, _, _, _) => Args(cmd)
    case _ => []
  }

  function WithoutLast(c: Cmd): Cmd {
    match c
    case Exec(argv) => if argv == [] then c else Exec(argv[..|argv| - 1])
    case Redir(cmd, file, write, fd) => Redir(WithoutLast(cmd), file, write, fd)
    case _ => c
  }

  /** b[i..j) is a simple command or, if `block`, a line in parentheses, with its redirections. What comes
      last in the stretch is the outermost redirection, the last argument, or the parenthesis. */
  ghost predicate LaidItem(b: seq<Ch>, i: nat, j: nat, c: Cmd, block: bool)
    requires i <= j < |b|
    decreases j - i, 0
  {
    || (c.Redir? && exists k: nat :: i <= k < j && RedirAt(b, k, j, c.file, c.write, c.fd) && LaidItem(b, i, k, c.cmd, block))
    || (!block && c == Exec([]) && Blank(b, i, j))
    || (!block && Args(c) != []
        && exists k: nat :: i <= k < j && WordAt(b, k, j, Args(c)[|Args(c)| - 1]) && LaidItem(b, i, k, WithoutLast(c), false))
    || (block
        && exists o: nat, e: nat ::
             i <= o < e < j && Blank(b, i, o) && b[o] == LParen && LaidLine(b, o + 1, e, c) && b[e] == RParen && Blank(b, e + 1, j))
  }

  ghost predicate LaidExec(b: seq<Ch>, i: nat, j: nat, c: Cmd)
    requires i <= j < |b|
    decreases j - i, 1
  {
    (|Args(c)| < MAXARGS && LaidItem(b, i, j, c, false)) || LaidItem(b, i, j, c, true)
  }

  /** left | right */
  ghost predicate LaidPipe(b: seq<Ch>, i: nat, j: nat, c: Cmd)
    requires i <= j < |b|
    decreases j - i, 2
  {
    || LaidExec(b, i, j, c)
    || (c.Pipe? && exists k: nat :: i <= k < j && b[k] == Bar && LaidExec(b, i, k, c.left) && LaidPipe(b, k + 1, j, c.right))
  }

  /** cmd & */
  ghost predicate LaidBack(b: seq<Ch>, i: nat, j: nat, c: Cmd)
    requires i <= j < |b|
    decreases j - i, 3
  {
    || LaidPipe(b, i, j, c)
    || (c.Back? && exists k: nat :: i <= k < j && b[k] == Amp && LaidBack(b, i, k, c.cmd) && Blank(b, k + 1, j))
  }

  /** left ; right */
  ghost predicate LaidLine(b: seq<Ch>, i: nat, j: nat, c: Cmd)
    requires i <= j < |b|
    decreases j - i, 4
  {
    || LaidBack(b, i, j, c)
    || (c.List? && exists k: nat :: i <= k < j && b[k] == Semi && LaidBack(b, i, k, c.left) && LaidLine(b, k + 1, j, c.right))
  }

  // ----- Tokens and stretches

  lemma {:induction false} SkipIs(b: seq<Ch>, i: nat, q: nat)
    requires |b| > 0 && q <= Len(b) && Blank(b, i, q) && (q == Len(b) || !b[q].Space?)
    ensures Skip(b, i) == q
    decreases q - i
  {
    if i < q {
      SkipIs(b, i + 1, q);
    }
  }

  lemma {:induction false} WordEndIs(b: seq<Ch>, i: nat, e: nat)
    requires i <= e < |b| && !b[e].Letter? && forall k | i <= k < e :: b[k].Letter?
    ensures WordEnd(b, i) == e
    decreases e - i
  {
    if i < e {
      WordEndIs(b, i + 1, e);
    }
  }

  lemma LexBlank(b: seq<Ch>, i: nat, j: nat)
    requires Line(b) && j <= Len(b) && Blank(b, i, j)
    ensures Lex(b, i) == Lex(b, j)
  {
    SkipIs(b, i, Skip(b, j));
    LexSkips(b, i);
    LexSkips(b, j);
  }

  /** A token read off the line at q. */
  lemma LexAt(b: seq<Ch>, i: nat, q: nat, j: nat)
    requires Line(b) && q < Len(b) && Blank(b, i, q) && !b[q].Space? && j <= Len(b) && q <= TokEnd(b, q) && Blank(b, TokEnd(b, q), j)
    ensures Lex(b, i) == [Lx(Kind(b, q), Tok(q, TokEnd(b, q)))] + Lex(b, j)
  {
    SkipIs(b, i, q);
    TokenSpan(b, q);
    LexBlank(b, TokEnd(b, q), j);
  }

  lemma LexWord(b: seq<Ch>, i: nat, j: nat, t: Tok)
    requires Line(b) && j <= Len(b) && WordAt(b, i, j, t)
    ensures Lex(b, i) == [Lx(Arg, t)] + Lex(b, j)
  {
    WordEndIs(b, t.q, t.eq);
    LexAt(b, i, t.q, j);
  }

  lemma LexSymbol(b: seq<Ch>, i: nat, q: nat, j: nat)
    requires Line(b) && q < Len(b) && Blank(b, i, q) && IsSymbol(b[q]) && b[q] != Gt && Blank(b, q + 1, j) && j <= Len(b)
    ensures Lex(b, i) == [Lx(Sym(b[q]), Tok(q, q + 1))] + Lex(b, j)
  {
    LexAt(b, i, q, j);
  }

  /** The first token of the rest of the line, where it is, and the cursor behind it. */
  lemma FirstToken(b: seq<Ch>, i: nat) returns (q: nat, eq: nat, j: nat)
    requires Line(b) && i <= Len(b) && Lex(b, i) != []
    ensures i <= q < eq <= j <= Len(b) && Blank(b, i, q) && !b[q].Space? && Blank(b, eq, j) && Skip(b, j) == j
    ensures eq == TokEnd(b, q) && Lex(b, i) == [Lx(Kind(b, q), Tok(q, eq))] + Lex(b, j)
    ensures Kind(b, q) == Arg ==> WordAt(b, i, j, Tok(q, eq))
  {
    q := Skip(b, i);
    eq := TokEnd(b, q);
    TokenSpan(b, q);
    j := Skip(b, eq);
    SkipTwice(b, eq);
    LexSkips(b, eq);
  }

  // ----- Putting stretches together

  lemma ItemRedir(b: seq<Ch>, i: nat, k: nat, j: nat, c: Cmd, t: Target, block: bool)
    requires i <= k < j < |b| && LaidItem(b, i, k, c, block) && RedirAt(b, k, j, t.file, t.write, t.fd)
    ensures LaidItem(b, i, j, Redir(c, t.file, t.write, t.fd), block)
  {}

  lemma ItemArg(b: seq<Ch>, i: nat, k: nat, j: nat, c: Cmd)
    requires i <= k < j < |b| && Args(c) != [] && LaidItem(b, i, k, WithoutLast(c), false) && WordAt(b, k, j, Args(c)[|Args(c)| - 1])
    ensures LaidItem(b, i, j, c, false)
  {}

  lemma ItemBlock(b: seq<Ch>, i: nat, o: nat, e: nat, j: nat, c: Cmd)
    requires i <= o < e < j < |b| && Blank(b, i, o) && b[o] == LParen && LaidLine(b, o + 1, e, c) && b[e] == RParen && Blank(b, e + 1, j)
    ensures LaidItem(b, i, j, c, true)
  {}

  lemma PipeOf(b: seq<Ch>, i: nat, k: nat, j: nat, l: Cmd, r: Cmd)
    requires i <= k < j < |b| && b[k] == Bar && LaidExec(b, i, k, l) && LaidPipe(b, k + 1, j, r)
    ensures LaidPipe(b, i, j, Pipe(l, r))
  {}

  lemma BackOf(b: seq<Ch>, i: nat, k: nat, j: nat, c: Cmd)
    requires i <= k < j < |b| && b[k] == Amp && LaidBack(b, i, k, c) && Blank(b, k + 1, j)
    ensures LaidBack(b, i, j, Back(c))
  {}

  lemma ListOf(b: seq<Ch>, i: nat, k: nat, j: nat, l: Cmd, r: Cmd)
    requires i <= k < j < |b| && b[k] == Semi && LaidBack(b, i, k, l) && LaidLine(b, k + 1, j, r)
    ensures LaidLine(b, i, j, List(l, r))
  {}

  // ----- From a syntax tree to the line

  /** The tokens from i on are ts, kept closed. */
  ghost predicate Left(b: seq<Ch>, i: nat, ts: seq<Lexeme>) { LeftBehind(b, i, ts, 2) }

  ghost predicate LeftBehind(b: seq<Ch>, i: nat, ts: seq<Lexeme>, turns: nat) {
    if turns == 0 then Line(b) && i <= Len(b) && Lex(b, i) == ts else LeftBehind(b, i, ts, turns - 1)
  }

  lemma LeftIs(b: seq<Ch>, i: nat, ts: seq<Lexeme>)
    ensures Left(b, i, ts) <==> Line(b) && i <= Len(b) && Lex(b, i) == ts
  {
    assert LeftBehind(b, i, ts, 2) == LeftBehind(b, i, ts, 1) == LeftBehind(b, i, ts, 0);
  }

  lemma LeftSkip(b: seq<Ch>, i: nat, ts: seq<Lexeme>) returns (j: nat)
    requires Line(b) && i <= Len(b) && Left(b, i, ts)
    ensures i <= j <= Len(b) && Blank(b, i, j) && Skip(b, j) == j && Left(b, j, ts)
  {
    j := Skip(b, i);
    LexSkips(b, i);
    SkipTwice(b, i);
    LeftIs(b, i, ts);
    LeftIs(b, j, ts);
  }

  lemma {:induction false} WrapArgs(argv: seq<Tok>, ts: seq<Target>)
    ensures Args(Wrap(Exec(argv), ts)) == argv
    ensures argv != [] ==> WithoutLast(Wrap(Exec(argv), ts)) == Wrap(Exec(argv[..|argv| - 1]), ts)
  {
    if ts != [] {
      WrapArgs(argv, ts[..|ts| - 1]);
    }
  }

  lemma WrapMore(c: Cmd, ts: seq<Target>, t: Target)
    ensures Wrap(c, ts + [t]) == Redir(Wrap(c, ts), t.file, t.write, t.fd)
  {
    assert (ts + [t])[..|ts|] == ts;
  }

  /** An operator and its file, as the tokens give them. */
  lemma RedirLaid(b: seq<Ch>, k: nat, r: RedirT, rest: seq<Lexeme>) returns (j: nat)
    requires Line(b) && k <= Len(b) && IsRedirOp(r.op.kind) && r.file.kind == Arg && Left(b, k, [r.op, r.file] + rest)
    ensures k < j <= Len(b) && Left(b, j, rest) && Skip(b, j) == j
    ensures RedirAt(b, k, j, TargetOf(r).file, TargetOf(r).write, TargetOf(r).fd)
  {
    assert [r.op, r.file] + rest == [r.op] + ([r.file] + rest);
    var q, eq, m := NextIs(b, k, r.op, [r.file] + rest);
    var q', eq', n := NextIs(b, m, r.file, rest);
    j := n;
    BlankJoins(b, eq, m, q');
    RedirIs(b, k, q, j, r);
  }

  lemma NextIs(b: seq<Ch>, i: nat, t: Lexeme, rest: seq<Lexeme>) returns (q: nat, eq: nat, j: nat)
    requires Line(b) && i <= Len(b) && Left(b, i, [t] + rest)
    ensures i <= q < eq <= j <= Len(b) && Blank(b, i, q) && !b[q].Space? && Blank(b, eq, j) && Skip(b, j) == j && Left(b, j, rest)
    ensures t.kind == Kind(b, q) && t.tok == Tok(q, eq) && eq == TokEnd(b, q) && (t.kind == Arg ==> WordAt(b, i, j, t.tok))
  {
    LeftIs(b, i, [t] + rest);
    q, eq, j := FirstToken(b, i);
    assert Lex(b, i)[0] == t && Lex(b, i)[1..] == rest;
    LeftIs(b, j, rest);
  }

  lemma RedirIs(b: seq<Ch>, k: nat, q: nat, j: nat, r: RedirT)
    requires Line(b) && k <= q < j <= Len(b) && Blank(b, k, q) && IsRedirOp(r.op.kind) && r.op.kind == Kind(b, q)
    requires TokEnd(b, q) < j && WordAt(b, TokEnd(b, q), j, r.file.tok)
    ensures RedirAt(b, k, j, TargetOf(r).file, TargetOf(r).write, TargetOf(r).fd)
  {
    assert OperatorAt(b, q, j, TargetOf(r).file, TargetOf(r).write, TargetOf(r).fd);
  }

  lemma BlankJoins(b: seq<Ch>, i: nat, j: nat, k: nat)
    requires Blank(b, i, j) && Blank(b, j, k)
    ensures Blank(b, i, k)
  {}

  lemma FirstRedirLaid(b: seq<Ch>, i: nat, k: nat, c: Cmd, ts: seq<Target>, rs: seq<RedirT>, rest: seq<Lexeme>, block: bool)
    returns (j: nat)
    requires Line(b) && i <= k <= Len(b) && rs != [] && RedirsOk(rs) && Left(b, k, YieldRs(rs) + rest)
    requires LaidItem(b, i, k, Wrap(c, ts), block)
    ensures k < j <= Len(b) && Left(b, j, YieldRs(rs[1..]) + rest) && Skip(b, j) == j
    ensures LaidItem(b, i, j, Wrap(c, ts + [TargetOf(rs[0])]), block)
  {
    YieldRsFirst(rs, rest);
    j := RedirLaid(b, k, rs[0], YieldRs(rs[1..]) + rest);
    WrapMore(c, ts, TargetOf(rs[0]));
    ItemRedir(b, i, k, j, Wrap(c, ts), TargetOf(rs[0]), block);
  }

  lemma {:induction false} RedirsLaid(b: seq<Ch>, i: nat, k: nat, c: Cmd, ts: seq<Target>, rs: seq<RedirT>, rest: seq<Lexeme>, block: bool)
    returns (j: nat)
    requires Line(b) && i <= k <= Len(b) && RedirsOk(rs) && Left(b, k, YieldRs(rs) + rest) && Skip(b, k) == k
    requires LaidItem(b, i, k, Wrap(c, ts), block)
    ensures k <= j <= Len(b) && Left(b, j, rest) && Skip(b, j) == j && LaidItem(b, i, j, Wrap(c, ts + Targets(rs)), block)
    decreases |rs|
  {
    TargetsSplit(ts, rs);
    if rs == [] {
      j := k;
      assert [] + rest == rest;
    } else {
      var m := FirstRedirLaid(b, i, k, c, ts, rs, rest, block);
      j := RedirsLaid(b, i, m, c, ts + [TargetOf(rs[0])], rs[1..], rest, block);
    }
  }

  lemma TargetsSplit(ts: seq<Target>, rs: seq<RedirT>)
    ensures ts + Targets(rs) == if rs == [] then ts else ts + [TargetOf(rs[0])] + Targets(rs[1..])
  {
    if rs != [] {
      TargetsFirst(rs);
    }
  }

  lemma YieldRsFirst(rs: seq<RedirT>, rest: seq<Lexeme>)
    requires rs != []
    ensures YieldRs(rs) + rest == [rs[0].op, rs[0].file] + (YieldRs(rs[1..]) + rest)
  {}

  lemma YieldXsFirst(xs: seq<ArgT>, rest: seq<Lexeme>)
    requires xs != []
    ensures YieldXs(xs) + rest == [xs[0].arg] + (YieldRs(xs[0].redirs) + (YieldXs(xs[1..]) + rest))
  {}

  lemma {:induction false} TargetsFirst(rs: seq<RedirT>)
    requires rs != []
    ensures Targets(rs) == [TargetOf(rs[0])] + Targets(rs[1..])
  {
    var n := |rs| - 1;
    if n > 0 {
      TargetsFirst(rs[..n]);
      assert rs[..n][1..] == rs[1..][..n - 1];
    }
  }

  lemma {:induction false} ArgsFirst(xs: seq<ArgT>)
    requires xs != []
    ensures ArgToks(xs) == [xs[0].arg.tok] + ArgToks(xs[1..])
    ensures ArgTargets(xs) == Targets(xs[0].redirs) + ArgTargets(xs[1..])
  {
    var n := |xs| - 1;
    if n > 0 {
      ArgsFirst(xs[..n]);
      assert xs[..n][1..] == xs[1..][..n - 1] && xs[1..][n - 1] == xs[n];
      ThreeTargets(Targets(xs[0].redirs), ArgTargets(xs[1..][..n - 1]), Targets(xs[n].redirs));
    } else {
      assert xs[..0] == [] && xs[1..] == [];
      ThreeTargets([], Targets(xs[0].redirs), []);
    }
  }

  lemma ThreeTargets(a: seq<Target>, b: seq<Target>, c: seq<Target>)
    ensures a + (b + c) == a + b + c && b + [] == [] + b == b
  {}

  lemma ArgLaid(b: seq<Ch>, i: nat, k: nat, argv: seq<Tok>, ts: seq<Target>, a: Lexeme, rest: seq<Lexeme>) returns (j: nat)
    requires Line(b) && i <= k <= Len(b) && a.kind == Arg && Left(b, k, [a] + rest) && LaidItem(b, i, k, Wrap(Exec(argv), ts), false)
    ensures k < j <= Len(b) && Left(b, j, rest) && Skip(b, j) == j && LaidItem(b, i, j, Wrap(Exec(argv + [a.tok]), ts), false)
  {
    var q, eq, m := NextIs(b, k, a, rest);
    j := m;
    WrapArgs(argv + [a.tok], ts);
    assert (argv + [a.tok])[..|argv|] == argv;
    ItemArg(b, i, k, j, Wrap(Exec(argv + [a.tok]), ts));
  }

  lemma FirstArgLaid(b: seq<Ch>, i: nat, k: nat, argv: seq<Tok>, ts: seq<Target>, xs: seq<ArgT>, rest: seq<Lexeme>)
    returns (j: nat)
    requires Line(b) && i <= k <= Len(b) && xs != [] && ArgsOk(xs) && Left(b, k, YieldXs(xs) + rest)
    requires LaidItem(b, i, k, Wrap(Exec(argv), ts), false)
    ensures k < j <= Len(b) && Left(b, j, YieldXs(xs[1..]) + rest) && Skip(b, j) == j
    ensures LaidItem(b, i, j, Wrap(Exec(argv + [xs[0].arg.tok]), ts + Targets(xs[0].redirs)), false)
  {
    var x, more := xs[0], YieldXs(xs[1..]) + rest;
    YieldXsFirst(xs, rest);
    var m := ArgLaid(b, i, k, argv, ts, x.arg, YieldRs(x.redirs) + more);
    j := RedirsLaid(b, i, m, Exec(argv + [x.arg.tok]), ts, x.redirs, more, false);
  }

  lemma {:induction false} ArgsLaid(b: seq<Ch>, i: nat, k: nat, argv: seq<Tok>, ts: seq<Target>, xs: seq<ArgT>, rest: seq<Lexeme>)
    returns (j: nat)
    requires Line(b) && i <= k <= Len(b) && ArgsOk(xs) && Left(b, k, YieldXs(xs) + rest) && Skip(b, k) == k
    requires LaidItem(b, i, k, Wrap(Exec(argv), ts), false)
    ensures k <= j <= Len(b) && Left(b, j, rest) && Skip(b, j) == j
    ensures LaidItem(b, i, j, Wrap(Exec(argv + ArgToks(xs)), ts + ArgTargets(xs)), false)
    decreases |xs|
  {
    ArgsSplit(argv, ts, xs);
    if xs == [] {
      j := k;
      assert [] + rest == rest;
    } else {
      var m := FirstArgLaid(b, i, k, argv, ts, xs, rest);
      j := ArgsLaid(b, i, m, argv + [xs[0].arg.tok], ts + Targets(xs[0].redirs), xs[1..], rest);
    }
  }

  lemma ArgsSplit(argv: seq<Tok>, ts: seq<Target>, xs: seq<ArgT>)
    ensures argv + ArgToks(xs) == if xs == [] then argv else argv + [xs[0].arg.tok] + ArgToks(xs[1..])
    ensures ts + ArgTargets(xs) == if xs == [] then ts else ts + Targets(xs[0].redirs) + ArgTargets(xs[1..])
  {
    if xs != [] {
      ArgsFirst(xs);
    }
  }

  lemma {:induction false} ArgToksSize(xs: seq<ArgT>)
    ensures |ArgToks(xs)| == |xs|
  {
    if xs != [] {
      ArgToksSize(xs[..|xs| - 1]);
    }
  }

  lemma SimpleLaid(b: seq<Ch>, i: nat, rs: seq<RedirT>, xs: seq<ArgT>, rest: seq<Lexeme>) returns (j: nat)
    requires Line(b) && i <= Len(b) && ExecOk(Simple(rs, xs)) && Left(b, i, YieldE(Simple(rs, xs)) + rest)
    ensures i <= j <= Len(b) && Left(b, j, rest) && Skip(b, j) == j && LaidExec(b, i, j, CmdE(Simple(rs, xs)))
  {
    Glue(YieldRs(rs), YieldXs(xs), rest);
    var k := LeftSkip(b, i, YieldRs(rs) + (YieldXs(xs) + rest));
    assert LaidItem(b, i, k, Wrap(Exec([]), []), false);
    k := RedirsLaid(b, i, k, Exec([]), [], rs, YieldXs(xs) + rest, false);
    assert [] + Targets(rs) == Targets(rs) && [] + ArgToks(xs) == ArgToks(xs);
    j := ArgsLaid(b, i, k, [], Targets(rs), xs, rest);
    WrapArgs(ArgToks(xs), Targets(rs) + ArgTargets(xs));
    ArgToksSize(xs);
  }

  /** A symbol at the cursor. */
  lemma SymbolAt(b: seq<Ch>, i: nat, c: Ch, t: Lexeme, rest: seq<Lexeme>)
    requires Line(b) && i <= Len(b) && Skip(b, i) == i && t.kind == Sym(c) && Left(b, i, [t] + rest) && !c.Gt?
    ensures i < Len(b) && b[i] == c && IsSymbol(c) && Left(b, i + 1, rest)
  {
    var q, eq, j := NextIs(b, i, t, rest);
    SkipIs(b, i, q);
    LexBlank(b, eq, j);
    LeftIs(b, j, rest);
    LeftIs(b, eq, rest);
  }

  lemma {:induction false} ExecLaid(b: seq<Ch>, i: nat, e: ExecT, rest: seq<Lexeme>) returns (j: nat)
    requires Line(b) && i <= Len(b) && ExecOk(e) && Left(b, i, YieldE(e) + rest)
    ensures i <= j <= Len(b) && Left(b, j, rest) && Skip(b, j) == j && LaidExec(b, i, j, CmdE(e))
    decreases e, 0
  {
    match e
    case Simple(rs, xs) => j := SimpleLaid(b, i, rs, xs, rest);
    case Block(o, l, c, rs) =>
      var p := OpenLaid(b, i, e, rest);
      var k := LineLaid(b, p + 1, l, [c] + (YieldRs(rs) + rest));
      j := CloseLaid(b, i, p, k, CmdL(l), c, rs, rest);
  }

  lemma OpenLaid(b: seq<Ch>, i: nat, e: ExecT, rest: seq<Lexeme>) returns (p: nat)
    requires Line(b) && i <= Len(b) && e.Block? && ExecOk(e) && Left(b, i, YieldE(e) + rest)
    ensures i <= p < Len(b) && Blank(b, i, p) && b[p] == LParen
    ensures Left(b, p + 1, YieldL(e.line) + ([e.close] + (YieldRs(e.redirs) + rest)))
  {
    var more := YieldL(e.line) + ([e.close] + (YieldRs(e.redirs) + rest));
    Unglue(e.open, YieldL(e.line), e.close, YieldRs(e.redirs), rest);
    assert YieldE(e) + rest == [e.open] + more;
    p := LeftSkip(b, i, [e.open] + more);
    SymbolAt(b, p, LParen, e.open, more);
  }

  lemma CloseLaid(b: seq<Ch>, i: nat, p: nat, k: nat, c: Cmd, close: Lexeme, rs: seq<RedirT>, rest: seq<Lexeme>) returns (j: nat)
    requires Line(b) && i <= p < k <= Len(b) && Blank(b, i, p) && b[p] == LParen && LaidLine(b, p + 1, k, c)
    requires close.kind == Sym(RParen) && RedirsOk(rs) && Left(b, k, [close] + (YieldRs(rs) + rest)) && Skip(b, k) == k
    ensures k < j <= Len(b) && Left(b, j, rest) && Skip(b, j) == j && LaidExec(b, i, j, Wrap(c, Targets(rs)))
  {
    SymbolAt(b, k, RParen, close, YieldRs(rs) + rest);
    var m := LeftSkip(b, k + 1, YieldRs(rs) + rest);
    ItemBlock(b, i, p, k, m, c);
    assert [] + Targets(rs) == Targets(rs);
    j := RedirsLaid(b, i, m, c, [], rs, rest, true);
  }

  lemma {:induction false} PipeLaid(b: seq<Ch>, i: nat, p: PipeT, rest: seq<Lexeme>) returns (j: nat)
    requires Line(b) && i <= Len(b) && PipeOk(p) && Left(b, i, YieldP(p) + rest)
    ensures i <= j <= Len(b) && Left(b, j, rest) && Skip(b, j) == j && LaidPipe(b, i, j, CmdP(p))
    decreases p, 0
  {
    match p
    case Last(e) => j := ExecLaid(b, i, e, rest);
    case Then(e, bar, more) =>
      Glue3(YieldE(e), [bar], YieldP(more), rest);
      var k := BarLaid(b, i, e, bar, YieldP(more) + rest);
      j := PipeLaid(b, k + 1, more, rest);
      PipeOf(b, i, k, j, CmdE(e), CmdP(more));
  }

  lemma {:induction false} BarLaid(b: seq<Ch>, i: nat, e: ExecT, bar: Lexeme, rest: seq<Lexeme>) returns (k: nat)
    requires Line(b) && i <= Len(b) && ExecOk(e) && bar.kind == Sym(Bar) && Left(b, i, YieldE(e) + ([bar] + rest))
    ensures i <= k < Len(b) && b[k] == Bar && Left(b, k + 1, rest) && LaidExec(b, i, k, CmdE(e))
    decreases e, 1
  {
    k := ExecLaid(b, i, e, [bar] + rest);
    SymbolAt(b, k, Bar, bar, rest);
  }

  lemma FirstBackLaid(b: seq<Ch>, i: nat, k: nat, c: Cmd, amp: Lexeme, rest: seq<Lexeme>) returns (j: nat)
    requires Line(b) && i <= k <= Len(b) && amp.kind == Sym(Amp) && Left(b, k, [amp] + rest) && Skip(b, k) == k && LaidBack(b, i, k, c)
    ensures k < j <= Len(b) && Left(b, j, rest) && Skip(b, j) == j && LaidBack(b, i, j, Back(c))
  {
    SymbolAt(b, k, Amp, amp, rest);
    j := LeftSkip(b, k + 1, rest);
    BackOf(b, i, k, j, c);
  }

  lemma {:induction false} BacksLaid(b: seq<Ch>, i: nat, k: nat, c: Cmd, m: nat, amps: seq<Lexeme>, rest: seq<Lexeme>) returns (j: nat)
    requires Line(b) && i <= k <= Len(b) && AmpsOk(amps) && Left(b, k, amps + rest) && Skip(b, k) == k
    requires LaidBack(b, i, k, Backs(c, m))
    ensures k <= j <= Len(b) && Left(b, j, rest) && Skip(b, j) == j && LaidBack(b, i, j, Backs(c, m + |amps|))
    decreases |amps|
  {
    if amps == [] {
      j := k;
      assert amps + rest == rest;
    } else {
      assert amps + rest == [amps[0]] + (amps[1..] + rest);
      var n := FirstBackLaid(b, i, k, Backs(c, m), amps[0], amps[1..] + rest);
      j := BacksLaid(b, i, n, c, m + 1, amps[1..], rest);
    }
  }

  /** A pipeline and the ampersands behind it. */
  lemma {:induction false} PipeBackLaid(b: seq<Ch>, i: nat, p: PipeT, amps: seq<Lexeme>, rest: seq<Lexeme>) returns (j: nat)
    requires Line(b) && i <= Len(b) && PipeOk(p) && AmpsOk(amps) && Left(b, i, YieldP(p) + (amps + rest))
    ensures i <= j <= Len(b) && Left(b, j, rest) && Skip(b, j) == j && LaidBack(b, i, j, Backs(CmdP(p), |amps|))
    decreases p, 1
  {
    var k := PipeLaid(b, i, p, amps + rest);
    j := BacksLaid(b, i, k, CmdP(p), 0, amps, rest);
  }

  lemma {:induction false} LineLaid(b: seq<Ch>, i: nat, l: LineT, rest: seq<Lexeme>) returns (j: nat)
    requires Line(b) && i <= Len(b) && LineOk(l) && Left(b, i, YieldL(l) + rest)
    ensures i <= j <= Len(b) && Left(b, j, rest) && Skip(b, j) == j && LaidLine(b, i, j, CmdL(l))
    decreases l
  {
    match l
    case End(p, amps) =>
      Glue(YieldP(p), amps, rest);
      j := PipeBackLaid(b, i, p, amps, rest);
    case Seq(p, amps, semi, more) =>
      var tail := [semi] + (YieldL(more) + rest);
      SeqGlue(YieldP(p), amps, semi, YieldL(more), rest);
      var k := PipeBackLaid(b, i, p, amps, tail);
      SymbolAt(b, k, Semi, semi, YieldL(more) + rest);
      j := LineLaid(b, k + 1, more, rest);
      ListOf(b, i, k, j, Backs(CmdP(p), |amps|), CmdL(more));
  }

  lemma SeqGlue(p: seq<Lexeme>, amps: seq<Lexeme>, semi: Lexeme, more: seq<Lexeme>, rest: seq<Lexeme>)
    ensures p + amps + [semi] + more + rest == p + (amps + ([semi] + (more + rest)))
  {}

  // ----- From the line to a syntax tree

  /** The tokens of b[i..j) are ts, kept closed. */
  ghost predicate Spells(b: seq<Ch>, i: nat, j: nat, ts: seq<Lexeme>) { SpellsBehind(b, i, j, ts, 2) }

  ghost predicate SpellsBehind(b: seq<Ch>, i: nat, j: nat, ts: seq<Lexeme>, turns: nat) {
    if turns == 0 then Line(b) && i <= j <= Len(b) && Lex(b, i) == ts + Lex(b, j) else SpellsBehind(b, i, j, ts, turns - 1)
  }

  lemma SpellsIs(b: seq<Ch>, i: nat, j: nat, ts: seq<Lexeme>)
    ensures Spells(b, i, j, ts) <==> Line(b) && i <= j <= Len(b) && Lex(b, i) == ts + Lex(b, j)
  {
    assert SpellsBehind(b, i, j, ts, 2) == SpellsBehind(b, i, j, ts, 1) == SpellsBehind(b, i, j, ts, 0);
  }

  lemma SpellsJoin(b: seq<Ch>, i: nat, k: nat, j: nat, ts: seq<Lexeme>, us: seq<Lexeme>)
    requires Spells(b, i, k, ts) && Spells(b, k, j, us)
    ensures Spells(b, i, j, ts + us)
  {
    SpellsIs(b, i, k, ts);
    SpellsIs(b, k, j, us);
    SpellsIs(b, i, j, ts + us);
    Glue(ts, us, Lex(b, j));
  }

  lemma SpellsSymbol(b: seq<Ch>, i: nat, q: nat, j: nat) returns (t: Lexeme)
    requires Line(b) && q < Len(b) && Blank(b, i, q) && IsSymbol(b[q]) && b[q] != Gt && Blank(b, q + 1, j) && j <= Len(b)
    ensures t.kind == Sym(b[q]) && Spells(b, i, j, [t])
  {
    LexSymbol(b, i, q, j);
    t := Lx(Sym(b[q]), Tok(q, q + 1));
    SpellsIs(b, i, j, [t]);
  }

  lemma SpellsNothing(b: seq<Ch>, i: nat, j: nat)
    requires Line(b) && j <= Len(b) && Blank(b, i, j)
    ensures Spells(b, i, j, [])
  {
    LexBlank(b, i, j);
    SpellsIs(b, i, j, []);
  }

  lemma SpellsWord(b: seq<Ch>, i: nat, j: nat, t: Tok)
    requires Line(b) && j <= Len(b) && WordAt(b, i, j, t)
    ensures Spells(b, i, j, [Lx(Arg, t)])
  {
    LexWord(b, i, j, t);
    SpellsIs(b, i, j, [Lx(Arg, t)]);
  }

  lemma SpellsOperator(b: seq<Ch>, i: nat, p: nat)
    requires Line(b) && p < Len(b) && Blank(b, i, p) && (b[p] == Gt || b[p] == Lt)
    ensures p < TokEnd(b, p) <= Len(b) && Spells(b, i, TokEnd(b, p), [Lx(Kind(b, p), Tok(p, TokEnd(b, p)))])
  {
    TokenSpan(b, p);
    LexAt(b, i, p, TokEnd(b, p));
    SpellsIs(b, i, TokEnd(b, p), [Lx(Kind(b, p), Tok(p, TokEnd(b, p)))]);
  }

  lemma OperatorEnds(b: seq<Ch>, p: nat, j: nat, t: Target)
    requires Line(b) && j <= Len(b) && OperatorAt(b, p, j, t.file, t.write, t.fd)
    ensures (b[p] == Gt || b[p] == Lt) && IsRedirOp(Kind(b, p)) && WordAt(b, TokEnd(b, p), j, t.file)
    ensures TargetOf(RedirT(Lx(Kind(b, p), Tok(p, TokEnd(b, p))), Lx(Arg, t.file))) == t
  {}

  lemma RedirTokens(b: seq<Ch>, k: nat, j: nat, t: Target) returns (r: RedirT)
    requires Line(b) && k < j <= Len(b) && RedirAt(b, k, j, t.file, t.write, t.fd)
    ensures IsRedirOp(r.op.kind) && r.file.kind == Arg && TargetOf(r) == t && Spells(b, k, j, [r.op, r.file])
  {
    var p: nat :| Blank(b, k, p) && OperatorAt(b, p, j, t.file, t.write, t.fd);
    var e := TokEnd(b, p);
    OperatorEnds(b, p, j, t);
    SpellsOperator(b, k, p);
    SpellsWord(b, e, j, t.file);
    r := RedirT(Lx(Kind(b, p), Tok(p, e)), Lx(Arg, t.file));
    SpellsJoin(b, k, e, j, [r.op], [r.file]);
    assert [r.op] + [r.file] == [r.op, r.file];
  }

  lemma {:induction false} YieldRsMore(rs: seq<RedirT>, r: RedirT)
    ensures YieldRs(rs + [r]) == YieldRs(rs) + [r.op, r.file]
  {
    if rs == [] {
      assert [r][1..] == [];
    } else {
      YieldRsMore(rs[1..], r);
      assert (rs + [r])[1..] == rs[1..] + [r];
    }
  }

  lemma {:induction false} YieldXsMore(xs: seq<ArgT>, x: ArgT)
    ensures YieldXs(xs + [x]) == YieldXs(xs) + ([x.arg] + YieldRs(x.redirs))
  {
    var last := [x.arg] + YieldRs(x.redirs);
    if xs == [] {
      assert [x][1..] == [] && last + [] == [] + last;
    } else {
      YieldXsMore(xs[1..], x);
      assert (xs + [x])[1..] == xs[1..] + [x];
      Glue([xs[0].arg] + YieldRs(xs[0].redirs), YieldXs(xs[1..]), last);
    }
  }

  /** The last argument takes a redirection more. */
  function MoreRedir(xs: seq<ArgT>, r: RedirT): seq<ArgT>
    requires xs != []
  {
    var x := xs[|xs| - 1];
    xs[..|xs| - 1] + [ArgT(x.arg, x.redirs + [r])]
  }

  lemma MoreRedirCmd(xs: seq<ArgT>, r: RedirT)
    requires xs != []
    ensures var ys := MoreRedir(xs, r);
            |ys| == |xs| && ArgToks(ys) == ArgToks(xs) && ArgTargets(ys) == ArgTargets(xs) + [TargetOf(r)]
  {
    var n := |xs| - 1;
    assert MoreRedir(xs, r)[..n] == xs[..n];
    TargetsMore(xs[n].redirs, r);
    ThreeTargets(ArgTargets(xs[..n]), Targets(xs[n].redirs), [TargetOf(r)]);
  }

  lemma MoreRedirYield(xs: seq<ArgT>, r: RedirT)
    requires xs != []
    ensures YieldXs(MoreRedir(xs, r)) == YieldXs(xs) + [r.op, r.file]
  {
    var n := |xs| - 1;
    var x := xs[n];
    assert xs == xs[..n] + [x];
    YieldXsMore(xs[..n], x);
    YieldXsMore(xs[..n], ArgT(x.arg, x.redirs + [r]));
    YieldRsMore(x.redirs, r);
    Glue3(YieldXs(xs[..n]), [x.arg], YieldRs(x.redirs), [r.op, r.file]);
  }

  /** A simple command with one redirection more, and with one argument more. */
  lemma SimpleMoreRedir(e: ExecT, r: RedirT) returns (d: ExecT)
    requires e.Simple? && RedirsOk(e.redirs) && ArgsOk(e.args) && IsRedirOp(r.op.kind) && r.file.kind == Arg
    ensures d.Simple? && RedirsOk(d.redirs) && ArgsOk(d.args) && |d.args| == |e.args| && YieldE(d) == YieldE(e) + [r.op, r.file]
    ensures CmdE(d) == (var t := TargetOf(r); Redir(CmdE(e), t.file, t.write, t.fd))
  {
    var rs, xs := e.redirs, e.args;
    if xs == [] {
      d := Simple(rs + [r], []);
      FirstRedirMore(rs, r);
    } else {
      d := Simple(rs, MoreRedir(xs, r));
      LaterRedirMore(rs, xs, r);
    }
    assert RedirsOk(d.redirs) && ArgsOk(d.args);
  }

  lemma FirstRedirMore(rs: seq<RedirT>, r: RedirT)
    ensures YieldE(Simple(rs + [r], [])) == YieldE(Simple(rs, [])) + [r.op, r.file]
    ensures CmdE(Simple(rs + [r], [])) == (var t := TargetOf(r); Redir(CmdE(Simple(rs, [])), t.file, t.write, t.fd))
  {
    YieldRsMore(rs, r);
    TargetsMore(rs, r);
    assert Targets(rs) + ArgTargets([]) == Targets(rs) && Targets(rs + [r]) + ArgTargets([]) == Targets(rs + [r]);
    WrapMore(Exec([]), Targets(rs), TargetOf(r));
  }

  lemma LaterRedirMore(rs: seq<RedirT>, xs: seq<ArgT>, r: RedirT)
    requires xs != []
    ensures var e, d, t := Simple(rs, xs), Simple(rs, MoreRedir(xs, r)), TargetOf(r);
            |d.args| == |e.args| && YieldE(d) == YieldE(e) + [r.op, r.file] && CmdE(d) == Redir(CmdE(e), t.file, t.write, t.fd)
  {
    MoreRedirCmd(xs, r);
    MoreRedirYield(xs, r);
    Glue(YieldRs(rs), YieldXs(xs), [r.op, r.file]);
    ThreeTargets(Targets(rs), ArgTargets(xs), [TargetOf(r)]);
    WrapMore(Exec(ArgToks(xs)), Targets(rs) + ArgTargets(xs), TargetOf(r));
  }

  lemma SimpleMoreArg(e: ExecT, a: Lexeme, c: Cmd) returns (d: ExecT)
    requires e.Simple? && RedirsOk(e.redirs) && ArgsOk(e.args) && a.kind == Arg
    requires Args(c) != [] && Args(c)[|Args(c)| - 1] == a.tok && WithoutLast(c) == CmdE(e)
    ensures d.Simple? && RedirsOk(d.redirs) && ArgsOk(d.args) && |d.args| == |e.args| + 1 && YieldE(d) == YieldE(e) + [a]
    ensures CmdE(d) == c
  {
    d := Simple(e.redirs, e.args + [ArgT(a, [])]);
    ArgMoreYield(e.redirs, e.args, a);
    ArgMoreCmd(e.redirs, e.args, a);
    LastBack(c, ArgToks(e.args), Targets(e.redirs) + ArgTargets(e.args), a.tok);
    assert ArgsOk(d.args);
  }

  lemma ArgMoreYield(rs: seq<RedirT>, xs: seq<ArgT>, a: Lexeme)
    ensures YieldE(Simple(rs, xs + [ArgT(a, [])])) == YieldE(Simple(rs, xs)) + [a]
  {
    YieldXsMore(xs, ArgT(a, []));
    assert [a] + YieldRs([]) == [a];
    Glue(YieldRs(rs), YieldXs(xs), [a]);
  }

  lemma ArgMoreCmd(rs: seq<RedirT>, xs: seq<ArgT>, a: Lexeme)
    ensures CmdE(Simple(rs, xs + [ArgT(a, [])])) == Wrap(Exec(ArgToks(xs) + [a.tok]), Targets(rs) + ArgTargets(xs))
  {
    assert (xs + [ArgT(a, [])])[..|xs|] == xs;
    assert ArgTargets(xs) + Targets([]) == ArgTargets(xs);
  }

  lemma {:induction false} LastBack(c: Cmd, argv: seq<Tok>, ts: seq<Target>, t: Tok)
    requires Args(c) != [] && Args(c)[|Args(c)| - 1] == t && WithoutLast(c) == Wrap(Exec(argv), ts)
    ensures c == Wrap(Exec(argv + [t]), ts)
    decreases c
  {
    if ts == [] {
      assert c.Exec? && c.argv == c.argv[..|c.argv| - 1] + [t];
    } else {
      LastBack(c.cmd, argv, ts[..|ts| - 1], t);
    }
  }

  lemma {:induction false} SimpleTree(b: seq<Ch>, i: nat, j: nat, c: Cmd) returns (e: ExecT)
    requires Line(b) && i <= j <= Len(b) && LaidItem(b, i, j, c, false)
    ensures e.Simple? && RedirsOk(e.redirs) && ArgsOk(e.args) && |e.args| == |Args(c)|
    ensures CmdE(e) == c && Spells(b, i, j, YieldE(e))
    decreases j - i
  {
    if c.Redir? && exists k: nat :: i <= k < j && RedirAt(b, k, j, c.file, c.write, c.fd) && LaidItem(b, i, k, c.cmd, false) {
      var k: nat :| i <= k < j && RedirAt(b, k, j, c.file, c.write, c.fd) && LaidItem(b, i, k, c.cmd, false);
      e := SimpleTree(b, i, k, c.cmd);
      var r := RedirTokens(b, k, j, Target(c.file, c.write, c.fd));
      SpellsJoin(b, i, k, j, YieldE(e), [r.op, r.file]);
      e := SimpleMoreRedir(e, r);
    } else if c == Exec([]) && Blank(b, i, j) {
      e := Simple([], []);
      SpellsNothing(b, i, j);
    } else {
      var t := Args(c)[|Args(c)| - 1];
      var k: nat :| i <= k < j && WordAt(b, k, j, t) && LaidItem(b, i, k, WithoutLast(c), false);
      e := SimpleTree(b, i, k, WithoutLast(c));
      SpellsWord(b, k, j, t);
      SpellsJoin(b, i, k, j, YieldE(e), [Lx(Arg, t)]);
      e := SimpleMoreArg(e, Lx(Arg, t), c);
      WithoutLastArgs(c);
    }
  }

  lemma {:induction false} WithoutLastArgs(c: Cmd)
    ensures Args(WithoutLast(c)) == if Args(c) == [] then [] else Args(c)[..|Args(c)| - 1]
  {
    if c.Redir? {
      WithoutLastArgs(c.cmd);
    }
  }

  lemma {:induction false} BlockTree(b: seq<Ch>, i: nat, j: nat, c: Cmd) returns (e: ExecT)
    requires Line(b) && i <= j <= Len(b) && LaidItem(b, i, j, c, true)
    ensures e.Block? && ExecOk(e) && CmdE(e) == c && Spells(b, i, j, YieldE(e))
    decreases j - i, 0
  {
    if c.Redir? && exists k: nat :: i <= k < j && RedirAt(b, k, j, c.file, c.write, c.fd) && LaidItem(b, i, k, c.cmd, true) {
      var k: nat :| i <= k < j && RedirAt(b, k, j, c.file, c.write, c.fd) && LaidItem(b, i, k, c.cmd, true);
      e := BlockTree(b, i, k, c.cmd);
      var r := RedirTokens(b, k, j, Target(c.file, c.write, c.fd));
      SpellsJoin(b, i, k, j, YieldE(e), [r.op, r.file]);
      e := BlockMoreRedir(e, r);
    } else {
      var o: nat, x: nat :|
        i <= o < x < j && Blank(b, i, o) && b[o] == LParen && LaidLine(b, o + 1, x, c) && b[x] == RParen && Blank(b, x + 1, j);
      var l := LineTree(b, o + 1, x, c);
      e := BlockOf(b, i, o, x, j, l);
    }
  }

  lemma BlockOf(b: seq<Ch>, i: nat, o: nat, x: nat, j: nat, l: LineT) returns (e: ExecT)
    requires Line(b) && i <= o < x < j <= Len(b) && Blank(b, i, o) && b[o] == LParen && b[x] == RParen && Blank(b, x + 1, j)
    requires LineOk(l) && Spells(b, o + 1, x, YieldL(l))
    ensures e.Block? && ExecOk(e) && CmdE(e) == CmdL(l) && Spells(b, i, j, YieldE(e))
  {
    var open := SpellsSymbol(b, i, o, o + 1);
    var close := SpellsSymbol(b, x, x, j);
    SpellsJoin(b, i, o + 1, x, [open], YieldL(l));
    SpellsJoin(b, i, x, j, [open] + YieldL(l), [close]);
    e := Block(open, l, close, []);
    assert YieldE(e) == [open] + YieldL(l) + [close] && Targets([]) == [];
  }

  lemma BlockMoreRedir(e: ExecT, r: RedirT) returns (d: ExecT)
    requires e.Block? && ExecOk(e) && IsRedirOp(r.op.kind) && r.file.kind == Arg
    ensures d.Block? && ExecOk(d) && YieldE(d) == YieldE(e) + [r.op, r.file]
    ensures CmdE(d) == (var t := TargetOf(r); Redir(CmdE(e), t.file, t.write, t.fd))
  {
    d := Block(e.open, e.line, e.close, e.redirs + [r]);
    YieldRsMore(e.redirs, r);
    TargetsMore(e.redirs, r);
    WrapMore(CmdL(e.line), Targets(e.redirs), TargetOf(r));
    Glue([e.open] + YieldL(e.line) + [e.close], YieldRs(e.redirs), [r.op, r.file]);
  }

  lemma {:induction false} ExecTree(b: seq<Ch>, i: nat, j: nat, c: Cmd) returns (e: ExecT)
    requires Line(b) && i <= j <= Len(b) && LaidExec(b, i, j, c)
    ensures ExecOk(e) && CmdE(e) == c && Spells(b, i, j, YieldE(e))
    decreases j - i, 1
  {
    if |Args(c)| < MAXARGS && LaidItem(b, i, j, c, false) {
      e := SimpleTree(b, i, j, c);
    } else {
      e := BlockTree(b, i, j, c);
    }
  }

  lemma {:induction false} PipeTree(b: seq<Ch>, i: nat, j: nat, c: Cmd) returns (p: PipeT)
    requires Line(b) && i <= j <= Len(b) && LaidPipe(b, i, j, c)
    ensures PipeOk(p) && CmdP(p) == c && Spells(b, i, j, YieldP(p))
    decreases j - i, 2
  {
    if LaidExec(b, i, j, c) {
      var e := ExecTree(b, i, j, c);
      p := Last(e);
    } else {
      var k: nat :| i <= k < j && b[k] == Bar && LaidExec(b, i, k, c.left) && LaidPipe(b, k + 1, j, c.right);
      var e := ExecTree(b, i, k, c.left);
      var rest := PipeTree(b, k + 1, j, c.right);
      var bar := SpellsBetween(b, i, k, j, YieldE(e), YieldP(rest));
      p := Then(e, bar, rest);
    }
  }

  /** A symbol between two stretches. */
  lemma SpellsBetween(b: seq<Ch>, i: nat, k: nat, j: nat, ts: seq<Lexeme>, us: seq<Lexeme>) returns (t: Lexeme)
    requires Line(b) && k < Len(b) && IsSymbol(b[k]) && b[k] != Gt && Spells(b, i, k, ts) && Spells(b, k + 1, j, us)
    ensures t.kind == Sym(b[k]) && Spells(b, i, j, ts + [t] + us)
  {
    t := SpellsSymbol(b, k, k, k + 1);
    SpellsJoin(b, i, k, k + 1, ts, [t]);
    SpellsJoin(b, i, k + 1, j, ts + [t], us);
  }

  lemma {:induction false} BackTree(b: seq<Ch>, i: nat, j: nat, c: Cmd) returns (p: PipeT, amps: seq<Lexeme>)
    requires Line(b) && i <= j <= Len(b) && LaidBack(b, i, j, c)
    ensures PipeOk(p) && AmpsOk(amps) && c == Backs(CmdP(p), |amps|) && Spells(b, i, j, YieldP(p) + amps)
    decreases j - i, 3
  {
    if LaidPipe(b, i, j, c) {
      p := PipeTree(b, i, j, c);
      amps := [];
      assert YieldP(p) + amps == YieldP(p);
    } else {
      var k: nat :| i <= k < j && b[k] == Amp && LaidBack(b, i, k, c.cmd) && Blank(b, k + 1, j);
      p, amps := BackTree(b, i, k, c.cmd);
      var t := SpellsSymbol(b, k, k, j);
      SpellsJoin(b, i, k, j, YieldP(p) + amps, [t]);
      Glue(YieldP(p), amps, [t]);
      amps := amps + [t];
    }
  }

  lemma {:induction false} LineTree(b: seq<Ch>, i: nat, j: nat, c: Cmd) returns (l: LineT)
    requires Line(b) && i <= j <= Len(b) && LaidLine(b, i, j, c)
    ensures LineOk(l) && CmdL(l) == c && Spells(b, i, j, YieldL(l))
    decreases j - i, 4
  {
    if LaidBack(b, i, j, c) {
      var p, amps := BackTree(b, i, j, c);
      l := End(p, amps);
    } else {
      var k: nat :| i <= k < j && b[k] == Semi && LaidBack(b, i, k, c.left) && LaidLine(b, k + 1, j, c.right);
      var p, amps := BackTree(b, i, k, c.left);
      var rest := LineTree(b, k + 1, j, c.right);
      var semi := SpellsBetween(b, i, k, j, YieldP(p) + amps, YieldL(rest));
      l := Seq(p, amps, semi, rest);
    }
  }

  // ----- The same commands

  /** The commands of the grammar are exactly those laid out over the whole line. */
  lemma LaidIsDenoted(b: seq<Ch>, c: Cmd)
    requires Line(b)
    ensures Denotes(b, c) <==> LaidLine(b, 0, Len(b), c)
  {
    if Denotes(b, c) {
      var l :| LineOk(l) && YieldL(l) == Lex(b, 0) && c == CmdL(l);
      assert YieldL(l) + [] == YieldL(l);
      LeftIs(b, 0, YieldL(l));
      var j := LineLaid(b, 0, l, []);
      LeftIs(b, j, []);
      TokenSpan(b, j);
    }
    if LaidLine(b, 0, Len(b), c) {
      var l := LineTree(b, 0, Len(b), c);
      SpellsIs(b, 0, Len(b), YieldL(l));
      assert Lex(b, Len(b)) == [] && YieldL(l) + [] == YieldL(l);
    }
  }

  // ----- Redirections

  /** What stands before the file of a redirection says which way it goes, and the way says which descriptor. */
  ghost predicate Directed(b: seq<Ch>, c: Cmd) {
    match c
    case Exec(_) => true
    case Redir(cmd, file, write, fd) => Directed(b, cmd) && Points(b, file, if write then Gt else Lt) && fd == if write then 1 else 0
    case Pipe(l, r) => Directed(b, l) && Directed(b, r)
    case List(l, r) => Directed(b, l) && Directed(b, r)
    case Back(cmd) => Directed(b, cmd)
  }

  /** The last character before t that is no white space is c. */
  ghost predicate Points(b: seq<Ch>, t: Tok, c: Ch) {
    exists p: nat :: Blank(b, p + 1, t.q) && p < |b| && b[p] == c
  }

  lemma RedirPoints(b: seq<Ch>, k: nat, j: nat, c: Cmd)
    requires c.Redir? && RedirAt(b, k, j, c.file, c.write, c.fd) && Directed(b, c.cmd)
    ensures Directed(b, c)
  {
    var p: nat :| Blank(b, k, p) && OperatorAt(b, p, j, c.file, c.write, c.fd);
    var q := if WordAt(b, p + 1, j, c.file) then p else p + 1;
    assert Blank(b, q + 1, c.file.q) && b[q] == b[p];
  }

  lemma {:induction false} DirectedWithout(b: seq<Ch>, c: Cmd)
    ensures Directed(b, WithoutLast(c)) ==> Directed(b, c)
  {
    if c.Redir? {
      DirectedWithout(b, c.cmd);
    }
  }

  lemma {:induction false} DirectedItem(b: seq<Ch>, i: nat, j: nat, c: Cmd, block: bool)
    requires i <= j < |b| && LaidItem(b, i, j, c, block)
    ensures Directed(b, c)
    decreases j - i, 0
  {
    if c.Redir? && exists k: nat :: i <= k < j && RedirAt(b, k, j, c.file, c.write, c.fd) && LaidItem(b, i, k, c.cmd, block) {
      var k: nat :| i <= k < j && RedirAt(b, k, j, c.file, c.write, c.fd) && LaidItem(b, i, k, c.cmd, block);
      DirectedItem(b, i, k, c.cmd, block);
      RedirPoints(b, k, j, c);
    } else if block {
      var o: nat, e: nat :|
        i <= o < e < j && Blank(b, i, o) && b[o] == LParen && LaidLine(b, o + 1, e, c) && b[e] == RParen && Blank(b, e + 1, j);
      DirectedLine(b, o + 1, e, c);
    } else if c != Exec([]) {
      var k: nat :| i <= k < j && WordAt(b, k, j, Args(c)[|Args(c)| - 1]) && LaidItem(b, i, k, WithoutLast(c), false);
      DirectedItem(b, i, k, WithoutLast(c), false);
      DirectedWithout(b, c);
    }
  }

  lemma {:induction false} DirectedPipe(b: seq<Ch>, i: nat, j: nat, c: Cmd)
    requires i <= j < |b| && LaidPipe(b, i, j, c)
    ensures Directed(b, c)
    decreases j - i, 1
  {
    if LaidExec(b, i, j, c) {
      DirectedItem(b, i, j, c, !LaidItem(b, i, j, c, false));
    } else {
      var k: nat :| i <= k < j && b[k] == Bar && LaidExec(b, i, k, c.left) && LaidPipe(b, k + 1, j, c.right);
      DirectedItem(b, i, k, c.left, !LaidItem(b, i, k, c.left, false));
      DirectedPipe(b, k + 1, j, c.right);
    }
  }

  lemma {:induction false} DirectedBack(b: seq<Ch>, i: nat, j: nat, c: Cmd)
    requires i <= j < |b| && LaidBack(b, i, j, c)
    ensures Directed(b, c)
    decreases j - i, 2
  {
    if LaidPipe(b, i, j, c) {
      DirectedPipe(b, i, j, c);
    } else {
      var k: nat :| i <= k < j && b[k] == Amp && LaidBack(b, i, k, c.cmd) && Blank(b, k + 1, j);
      DirectedBack(b, i, k, c.cmd);
    }
  }

  lemma {:induction false} DirectedLine(b: seq<Ch>, i: nat, j: nat, c: Cmd)
    requires i <= j < |b| && LaidLine(b, i, j, c)
    ensures Directed(b, c)
    decreases j - i, 3
  {
    if LaidBack(b, i, j, c) {
      DirectedBack(b, i, j, c);
    } else {
      var k: nat :| i <= k < j && b[k] == Semi && LaidBack(b, i, k, c.left) && LaidLine(b, k + 1, j, c.right);
      DirectedBack(b, i, k, c.left);
      DirectedLine(b, k + 1, j, c.right);
    }
  }
}
