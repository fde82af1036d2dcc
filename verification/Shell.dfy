/** The command-line parser of sh.c: recursive descent over a line in memory, tokens as pointer pairs
    into it, and the pass that ends every token with a NUL in place. */
module Shell {
  import opened ShellLex
  import opened ShellGrammar
  import opened ShellCmd
  import opened ShellLayout

  /** Every token of the command is a whole word. */
  predicate Good(b: seq<Ch>, c: Cmd) {
    match c
    case Exec(argv) => forall k | 0 <= k < |argv| :: Whole(b, argv[k])
    case Redir(cmd, file, _, _) => Good(b, cmd) && Whole(b, file)
    case Pipe(l, r) => Good(b, l) && Good(b, r)
    case List(l, r) => Good(b, l) && Good(b, r)
    case Back(cmd) => Good(b, cmd)
  }

  // ----- What a stretch of the line contains, and what a command accounts for

  datatype Mark = Word(q: nat) | Op(c: Ch) | Nothing

  function MarkAt(b: seq<Ch>, i: nat): Mark
    requires i < |b|
  {
    if b[i].Letter? && (i == 0 || !b[i - 1].Letter?) then Word(i)
    else if b[i].Bar? || b[i].Semi? || b[i].Amp? || b[i].Lt? then Op(b[i])
    else Nothing
  }

  function One(a: Mark, m: Mark): nat { if a == m && !m.Nothing? then 1 else 0 }

  /** How often mark m occurs in b[i..j): a word by where it starts, an operator by its character. */
  function Count(b: seq<Ch>, i: nat, j: nat, m: Mark): nat
    requires i <= j <= |b|
    decreases j - i
  {
    if i == j then 0 else Count(b, i, j - 1, m) + One(MarkAt(b, j - 1), m)
  }

  function ArgCount(argv: seq<Tok>, m: Mark): nat {
    if argv == [] then 0 else ArgCount(argv[..|argv| - 1], m) + One(Word(argv[|argv| - 1].q), m)
  }

  /** How often a command mentions m. */
  function CmdCount(c: Cmd, m: Mark): nat {
    match c
    case Exec(argv) => ArgCount(argv, m)
    case Redir(cmd, file, write, _) => CmdCount(cmd, m) + One(Word(file.q), m) + if write then 0 else One(Op(Lt), m)
    case Pipe(l, r) => CmdCount(l, m) + One(Op(Bar), m) + CmdCount(r, m)
    case List(l, r) => CmdCount(l, m) + One(Op(Semi), m) + CmdCount(r, m)
    case Back(cmd) => CmdCount(cmd, m) + One(Op(Amp), m)
  }

  lemma {:induction false} CountJoins(b: seq<Ch>, i: nat, j: nat, k: nat, m: Mark)
    requires i <= j <= k <= |b|
    ensures Count(b, i, j, m) + Count(b, j, k, m) == Count(b, i, k, m)
    decreases k - j
  {
    if j < k {
      CountJoins(b, i, j, k - 1, m);
    }
  }

  lemma {:induction false} NoMarks(b: seq<Ch>, i: nat, j: nat, m: Mark)
    requires i <= j <= |b| && forall k | i <= k < j :: b[k].Space?
    ensures Count(b, i, j, m) == 0
    decreases j - i
  {
    if i < j {
      NoMarks(b, i, j - 1, m);
    }
  }

  /** The cursor never stops in the middle of a word. */
  predicate Between(b: seq<Ch>, i: nat)
    requires i < |b|
  {
    i == 0 || !b[i - 1].Letter? || !b[i].Letter?
  }

  lemma {:induction false} WordMarks(b: seq<Ch>, q: nat, j: nat, m: Mark)
    requires q < j <= |b| && Between(b, q) && forall k | q <= k < j :: b[k].Letter?
    ensures Count(b, q, j, m) == One(Word(q), m)
    decreases j - q
  {
    if j == q + 1 {
      assert Count(b, q, q, m) == 0;
    } else {
      WordMarks(b, q, j - 1, m);
    }
  }

  // ----- Tokens

  function TokMark(b: seq<Ch>, q: nat): Mark
    requires q < |b|
  {
    match Kind(b, q)
    case Arg => Word(q)
    case Sym(c) => if c.Bar? || c.Semi? || c.Amp? || c.Lt? then Op(c) else Nothing
    case _ => Nothing
  }

  lemma TokenCount(b: seq<Ch>, q: nat, m: Mark)
    requires Line(b) && q <= Len(b) && Between(b, q) && !b[q].Space? && TokEnd(b, q) <= |b| && q <= TokEnd(b, q)
    ensures Count(b, q, TokEnd(b, q), m) == One(TokMark(b, q), m)
  {
    match Kind(b, q)
    case None =>
    case Arg => WordMarks(b, q, WordEnd(b, q), m);
    case More =>
      assert Count(b, q, q + 1, m) == Count(b, q, q, m) + One(MarkAt(b, q), m);
      assert Count(b, q, q + 2, m) == Count(b, q, q + 1, m) + One(MarkAt(b, q + 1), m);
    case Sym(_) => assert Count(b, q, q + 1, m) == Count(b, q, q, m) + One(MarkAt(b, q), m);
  }

  /** The stretch b[i..j) holds the mark a and nothing else. */
  ghost predicate Holds(b: seq<Ch>, i: nat, j: nat, a: Mark)
    requires i <= j <= |b|
  {
    forall m {:trigger Count(b, i, j, m)} :: Count(b, i, j, m) == One(a, m)
  }

  /** One token accounts for what lies between the cursor before and after it. */
  lemma TokenMarks(b: seq<Ch>, ps: nat)
    requires Line(b) && ps <= Len(b) && Between(b, ps)
    ensures var q := Skip(b, ps); var eq := TokEnd(b, q);
            && q <= eq <= Len(b) && (Kind(b, q) != None ==> q < eq) && (Kind(b, q) == Arg ==> Whole(b, Tok(q, eq)))
            && Between(b, Skip(b, eq)) && Holds(b, ps, Skip(b, eq), TokMark(b, q))
  {
    var q := Skip(b, ps);
    TokenSpan(b, q);
    var eq := TokEnd(b, q);
    var e := Skip(b, eq);
    forall m
      ensures Count(b, ps, e, m) == One(TokMark(b, q), m)
    {
      NoMarks(b, ps, q, m);
      NoMarks(b, eq, e, m);
      TokenCount(b, q, m);
      CountJoins(b, ps, q, eq, m);
      CountJoins(b, ps, eq, e, m);
    }
  }

  /** gettoken */
  method GetToken(b: seq<Ch>, ps: nat) returns (tok: Token, q: nat, eq: nat, ps': nat)
    requires Line(b) && ps <= Len(b) && Between(b, ps)
    ensures q == Skip(b, ps) && tok == Kind(b, q) && eq == TokEnd(b, q) && q <= eq <= ps' <= Len(b) && ps' == Skip(b, eq)
    ensures (tok != None ==> q < eq) && (tok == Arg ==> Whole(b, Tok(q, eq)))
    ensures Between(b, ps') && Holds(b, ps, ps', TokMark(b, q))
    ensures if tok == None then Lex(b, ps) == Lex(b, ps') == [] else Lex(b, ps) == [Lx(tok, Tok(q, eq))] + Lex(b, ps')
  {
    TokenMarks(b, ps);
    NextToken(b, ps);
    q := SkipSpace(b, ps);
    tok, eq := ScanToken(b, q);
    ps' := SkipSpace(b, eq);
  }

  /** gettoken's switch. */
  method ScanToken(b: seq<Ch>, q: nat) returns (tok: Token, s: nat)
    requires Line(b) && q <= Len(b) && !b[q].Space?
    ensures tok == Kind(b, q) && s == TokEnd(b, q)
  {
    s := q;
    if b[s] == Nul {
      tok := None;
    } else if b[s] == Gt {
      tok, s := Sym(Gt), s + 1;
      if b[s] == Gt {
        tok, s := More, s + 1;
      }
    } else if IsSymbol(b[s]) {
      tok, s := Sym(b[s]), s + 1;
    } else {
      tok := Arg;
      while s < Len(b) && !b[s].Space? && !IsSymbol(b[s])
        invariant q <= s <= Len(b) && WordEnd(b, s) == WordEnd(b, q)
      {
        s := s + 1;
      }
    }
  }

  method SkipSpace(b: seq<Ch>, ps: nat) returns (s: nat)
    requires |b| > 0 && ps <= Len(b)
    ensures s == Skip(b, ps)
  {
    s := ps;
    while s < Len(b) && b[s].Space?
      invariant ps <= s <= Len(b) && Skip(b, s) == Skip(b, ps)
    {
      s := s + 1;
    }
  }

  /** The first token of ts, as the character at the cursor shows it. */
  ghost predicate Sees(ts: seq<Lexeme>, c: Ch) {
    match c
    case Nul => ts == []
    case Space(_) => false
    case Letter(_) => Is(ts, Arg)
    case Gt => Is(ts, Sym(Gt)) || Is(ts, More)
    case _ => Is(ts, Sym(c))
  }

  lemma CursorSees(b: seq<Ch>, ps: nat)
    requires Line(b) && ps <= Len(b)
    ensures Sees(Lex(b, ps), b[Skip(b, ps)])
  {
    NextToken(b, ps);
  }

  /** peek: is the next character one of toks? The cursor moves over white space. */
  method Peek(b: seq<Ch>, ps: nat, toks: set<Ch>) returns (r: bool, ps': nat)
    requires Line(b) && ps <= Len(b) && Between(b, ps)
    ensures ps <= ps' <= Len(b) && ps' == Skip(b, ps) && r == (b[ps'] != Nul && b[ps'] in toks)
    ensures Between(b, ps') && Holds(b, ps, ps', Nothing) && Skip(b, ps') == ps' && Lex(b, ps') == Lex(b, ps)
    ensures Sees(Lex(b, ps), b[ps'])
  {
    LexSkips(b, ps);
    CursorSees(b, ps);
    forall m
      ensures Count(b, ps, Skip(b, ps), m) == 0
    {
      NoMarks(b, ps, Skip(b, ps), m);
    }
    ps' := SkipSpace(b, ps);
    r := b[ps'] != Nul && b[ps'] in toks;
  }

  // ----- The parser

  /** The source panics on a line it cannot parse. */
  datatype Result = Ok(cmd: Cmd) | Error

  function TargetCount(rs: seq<Target>, m: Mark): nat {
    if rs == [] then 0
    else
      var r := rs[|rs| - 1];
      TargetCount(rs[..|rs| - 1], m) + One(Word(r.file.q), m) + if r.write then 0 else One(Op(Lt), m)
  }

  lemma {:induction false} WrapCount(c: Cmd, rs: seq<Target>, m: Mark)
    ensures CmdCount(Wrap(c, rs), m) == CmdCount(c, m) + TargetCount(rs, m)
  {
    if rs != [] {
      WrapCount(c, rs[..|rs| - 1], m);
    }
  }

  lemma {:induction false} WrapGood(b: seq<Ch>, c: Cmd, rs: seq<Target>)
    requires Good(b, c) && forall k | 0 <= k < |rs| :: Whole(b, rs[k].file)
    ensures Good(b, Wrap(c, rs))
  {
    if rs != [] {
      WrapGood(b, c, rs[..|rs| - 1]);
    }
  }

  /** c is made of whole words, and mentions exactly the words and operators of b[i..j). */
  ghost predicate Parsed(b: seq<Ch>, i: nat, j: nat, c: Cmd) {
    && |b| > 0 && i <= j <= Len(b) && Between(b, j) && Good(b, c)
    && forall m {:trigger CmdCount(c, m)} :: CmdCount(c, m) == Count(b, i, j, m)
  }

  /** The same for redirections. */
  ghost predicate Redirected(b: seq<Ch>, i: nat, j: nat, rs: seq<Target>) {
    && |b| > 0 && i <= j <= Len(b) && Between(b, j) && (forall k | 0 <= k < |rs| :: Whole(b, rs[k].file))
    && forall m {:trigger TargetCount(rs, m)} :: TargetCount(rs, m) == Count(b, i, j, m)
  }

  lemma RedirectMore(b: seq<Ch>, i: nat, j: nat, o: nat, k: nat, rs: seq<Target>, r: Target, a: Mark)
    requires Redirected(b, i, j, rs) && j <= o <= k <= Len(b) && Between(b, k) && Whole(b, r.file)
    requires Holds(b, j, o, a) && Holds(b, o, k, Word(r.file.q)) && a == (if r.write then Nothing else Op(Lt))
    ensures Redirected(b, i, k, rs + [r])
  {
    assert (rs + [r])[..|rs|] == rs;
    forall m
      ensures TargetCount(rs + [r], m) == Count(b, i, k, m)
    {
      CountJoins(b, i, j, o, m);
      CountJoins(b, i, o, k, m);
      assert Count(b, j, o, m) == One(a, m) && Count(b, o, k, m) == One(Word(r.file.q), m);
    }
  }

  lemma RedirectSkip(b: seq<Ch>, i: nat, j: nat, k: nat, rs: seq<Target>)
    requires Redirected(b, i, j, rs) && j <= k <= Len(b) && Between(b, k) && Holds(b, j, k, Nothing)
    ensures Redirected(b, i, k, rs)
  {
    forall m
      ensures TargetCount(rs, m) == Count(b, i, k, m)
    {
      CountJoins(b, i, j, k, m);
      assert Count(b, j, k, m) == 0;
    }
  }

  /** The redirections `done` are read, `ts` is left: the outcome for the whole. */
  function AfterRedirs(done: seq<RedirT>, ts: seq<Lexeme>): Parse<seq<RedirT>> {
    match PRedirs(ts)
    case Fail => Fail
    case Got(rs, rest) => Got(done + rs, rest)
  }

  lemma RedirStep(done: seq<RedirT>, ts: seq<Lexeme>, r: RedirT, rest: seq<Lexeme>)
    requires IsRedirOp(r.op.kind) && r.file.kind == Arg && ts == [r.op] + ([r.file] + rest)
    ensures AfterRedirs(done, ts) == AfterRedirs(done + [r], rest)
  {
    assert ts[2..] == rest;
    if PRedirs(rest).Got? {
      assert done + ([r] + PRedirs(rest).tree) == done + [r] + PRedirs(rest).tree;
    }
  }

  lemma RedirsOver(done: seq<RedirT>, ts: seq<Lexeme>)
    requires ts == [] || !IsRedirOp(ts[0].kind)
    ensures AfterRedirs(done, ts) == Got(done, ts)
  {
    assert done + [] == done;
  }

  /** Outcome and cursor agree with the parser on tokens. */
  ghost predicate RedirsAgree(b: seq<Ch>, start: nat, ok: bool, rs: seq<Target>, ps: nat)
    requires Line(b) && start <= Len(b) && ps <= Len(b)
  {
    match PRedirs(Lex(b, start))
    case Fail => !ok
    case Got(t, rest) => ok && rs == Targets(t) && Lex(b, ps) == rest
  }

  /** parseredirs: the redirections from the cursor on. */
  method ParseRedirs(b: seq<Ch>, start: nat) returns (ok: bool, rs: seq<Target>, ps: nat)
    requires Line(b) && start <= Len(b) && Between(b, start)
    ensures start <= ps <= Len(b) && (ok ==> Redirected(b, start, ps, rs))
    ensures RedirsAgree(b, start, ok, rs, ps)
  {
    rs, ps := [], start;
    ghost var done: seq<RedirT> := [];
    assert Redirected(b, start, ps, rs);
    FirstRedirs(Lex(b, start));
    while true
      invariant start <= ps <= Len(b) && Redirected(b, start, ps, rs)
      invariant rs == Targets(done) && PRedirs(Lex(b, start)) == AfterRedirs(done, Lex(b, ps))
      decreases Len(b) - ps
    {
      ghost var j := ps;
      var r: bool;
      r, ps := Peek(b, ps, {Lt, Gt});
      RedirectSkip(b, start, j, ps, rs);
      if !r {
        RedirsOver(done, Lex(b, ps));
        return true, rs, ps;
      }
      j := ps;
      var target: Target;
      ghost var read: RedirT, o: nat;
      ok, target, ps, read, o := OneRedir(b, ps);
      if !ok {
        return false, rs, ps;
      }
      RedirectMore(b, start, j, o, ps, rs, target, if target.write then Nothing else Op(Lt));
      RedirStep(done, Lex(b, j), read, Lex(b, ps));
      TargetsMore(done, read);
      rs, done := rs + [target], done + [read];
    }
  }

  /** The body of parseredirs' loop: an operator and the file it needs. */
  method OneRedir(b: seq<Ch>, j: nat) returns (ok: bool, target: Target, ps: nat, ghost read: RedirT, ghost o: nat)
    requires Line(b) && j <= Len(b) && Between(b, j) && Skip(b, j) == j && (b[j] == Lt || b[j] == Gt)
    ensures j < ps <= Len(b) && (!ok ==> PRedirs(Lex(b, j)) == Fail)
    ensures ok ==> IsRedirOp(read.op.kind) && read.file.kind == Arg && target == TargetOf(read)
    ensures ok ==> Lex(b, j) == [read.op] + ([read.file] + Lex(b, ps))
    ensures ok ==> j <= o <= ps && Between(b, ps) && Whole(b, target.file) && Holds(b, o, ps, Word(target.file.q))
    ensures ok ==> Holds(b, j, o, if target.write then Nothing else Op(Lt))
  {
    var tok: Token, q: nat, eq: nat, t: Token;
    tok, q, eq, ps := GetToken(b, j);
    ghost var op := Lx(tok, Tok(q, eq));
    o := ps;
    t, q, eq, ps := GetToken(b, ps);
    ok, read := t == Arg, RedirT(op, Lx(t, Tok(q, eq)));
    target := if tok == Sym(Lt) then Target(Tok(q, eq), false, 0) else Target(Tok(q, eq), true, 1);
    if !ok {
      MissingFile(Lex(b, j), op, Lex(b, o));
    }
  }

  lemma FirstRedirs(ts: seq<Lexeme>)
    ensures PRedirs(ts) == AfterRedirs([], ts)
  {
    if PRedirs(ts).Got? {
      assert [] + PRedirs(ts).tree == PRedirs(ts).tree;
    }
  }

  lemma MissingFile(ts: seq<Lexeme>, op: Lexeme, rest: seq<Lexeme>)
    requires ts == [op] + rest && IsRedirOp(op.kind) && (rest == [] || rest[0].kind != Arg)
    ensures PRedirs(ts) == Fail
  {}

  /** Outcome and cursor agree with the parser on tokens: same verdict, same command, same rest. */
  ghost predicate Agrees(b: seq<Ch>, r: Result, ps: nat, p: Parse<Cmd>)
    requires Line(b) && ps <= Len(b)
  {
    match p
    case Fail => r.Error?
    case Got(c, rest) => r == Ok(c) && Lex(b, ps) == rest
  }

  function ToE(p: Parse<ExecT>): Parse<Cmd> { match p case Fail => Fail case Got(t, rest) => Got(CmdE(t), rest) }

  function ToP(p: Parse<PipeT>): Parse<Cmd> { match p case Fail => Fail case Got(t, rest) => Got(CmdP(t), rest) }

  function ToL(p: Parse<LineT>): Parse<Cmd> { match p case Fail => Fail case Got(t, rest) => Got(CmdL(t), rest) }

  /** The arguments `done` are read, `ts` is left: the outcome for the whole. */
  function AfterArgs(done: seq<ArgT>, ts: seq<Lexeme>): Parse<seq<ArgT>> {
    match PArgs(ts, |done|)
    case Fail => Fail
    case Got(xs, rest) => Got(done + xs, rest)
  }

  lemma FirstArgs(ts: seq<Lexeme>)
    ensures PArgs(ts, 0) == AfterArgs([], ts)
  {
    if PArgs(ts, 0).Got? {
      assert [] + PArgs(ts, 0).tree == PArgs(ts, 0).tree;
    }
  }

  lemma ArgsOver(done: seq<ArgT>, ts: seq<Lexeme>)
    requires Stops(ts)
    ensures AfterArgs(done, ts) == Got(done, ts)
  {
    assert done + [] == done;
  }

  lemma ArgStuck(done: seq<ArgT>, ts: seq<Lexeme>)
    requires !Stops(ts) && (ts[0].kind != Arg || |done| + 1 >= MAXARGS || PRedirs(ts[1..]).Fail?)
    ensures AfterArgs(done, ts) == Fail
  {}

  lemma ArgRead(done: seq<ArgT>, ts: seq<Lexeme>, x: ArgT, mid: seq<Lexeme>, rest: seq<Lexeme>)
    requires x.arg.kind == Arg && |done| + 1 < MAXARGS && ts == [x.arg] + mid && PRedirs(mid) == Got(x.redirs, rest)
    ensures AfterArgs(done, ts) == AfterArgs(done + [x], rest)
  {
    assert ts[1..] == mid;
    if PArgs(rest, |done| + 1).Got? {
      var xs := PArgs(rest, |done| + 1).tree;
      assert done + ([x] + xs) == done + [x] + xs;
    }
  }

  lemma ArgMore(done: seq<ArgT>, x: ArgT, first: seq<RedirT>)
    ensures ArgToks(done + [x]) == ArgToks(done) + [x.arg.tok]
    ensures Targets(first) + ArgTargets(done + [x]) == Targets(first) + ArgTargets(done) + Targets(x.redirs)
  {
    assert (done + [x])[..|done|] == done;
    assert Targets(first) + (ArgTargets(done) + Targets(x.redirs)) == Targets(first) + ArgTargets(done) + Targets(x.redirs);
  }

  /** parseexec halfway: arguments and redirections account for b[i..j). */
  ghost predicate Collected(b: seq<Ch>, i: nat, j: nat, argv: seq<Tok>, rs: seq<Target>) {
    && |b| > 0 && i <= j <= Len(b) && Between(b, j)
    && (forall k | 0 <= k < |argv| :: Whole(b, argv[k])) && (forall k | 0 <= k < |rs| :: Whole(b, rs[k].file))
    && forall m {:trigger ArgCount(argv, m)} :: ArgCount(argv, m) + TargetCount(rs, m) == Count(b, i, j, m)
  }

  lemma {:induction false} TargetsJoin(rs: seq<Target>, more: seq<Target>, m: Mark)
    ensures TargetCount(rs + more, m) == TargetCount(rs, m) + TargetCount(more, m)
  {
    if more == [] {
      assert rs + more == rs;
    } else {
      var n := |more| - 1;
      TargetsJoin(rs, more[..n], m);
      assert (rs + more)[..|rs| + n] == rs + more[..n];
    }
  }

  lemma CollectRedirs(b: seq<Ch>, i: nat, j: nat, k: nat, argv: seq<Tok>, rs: seq<Target>, more: seq<Target>)
    requires Collected(b, i, j, argv, rs) && Redirected(b, j, k, more)
    ensures Collected(b, i, k, argv, rs + more)
  {
    forall m
      ensures ArgCount(argv, m) + TargetCount(rs + more, m) == Count(b, i, k, m)
    {
      TargetsJoin(rs, more, m);
      CountJoins(b, i, j, k, m);
      assert TargetCount(more, m) == Count(b, j, k, m);
    }
  }

  lemma CollectArg(b: seq<Ch>, i: nat, j: nat, k: nat, argv: seq<Tok>, rs: seq<Target>, t: Tok)
    requires Collected(b, i, j, argv, rs) && j <= k <= Len(b) && Between(b, k) && Whole(b, t) && Holds(b, j, k, Word(t.q))
    ensures Collected(b, i, k, argv + [t], rs)
  {
    assert (argv + [t])[..|argv|] == argv;
    forall m
      ensures ArgCount(argv + [t], m) + TargetCount(rs, m) == Count(b, i, k, m)
    {
      CountJoins(b, i, j, k, m);
      assert Count(b, j, k, m) == One(Word(t.q), m);
      assert ArgCount(argv, m) + TargetCount(rs, m) == Count(b, i, j, m);
    }
  }

  lemma CollectSkip(b: seq<Ch>, i: nat, j: nat, k: nat, argv: seq<Tok>, rs: seq<Target>)
    requires Collected(b, i, j, argv, rs) && j <= k <= Len(b) && Between(b, k) && Holds(b, j, k, Nothing)
    ensures Collected(b, i, k, argv, rs)
  {
    forall m
      ensures ArgCount(argv, m) + TargetCount(rs, m) == Count(b, i, k, m)
    {
      CountJoins(b, i, j, k, m);
      assert Count(b, j, k, m) == 0;
    }
  }

  lemma CollectDone(b: seq<Ch>, i: nat, j: nat, argv: seq<Tok>, rs: seq<Target>)
    requires Collected(b, i, j, argv, rs)
    ensures Parsed(b, i, j, Wrap(Exec(argv), rs))
  {
    WrapGood(b, Exec(argv), rs);
    forall m
      ensures CmdCount(Wrap(Exec(argv), rs), m) == Count(b, i, j, m)
    {
      WrapCount(Exec(argv), rs, m);
      assert ArgCount(argv, m) + TargetCount(rs, m) == Count(b, i, j, m);
    }
  }

  /** The loop of parseexec: arguments `done` (with their redirections) after the redirections `first`. */
  ghost predicate Reading(b: seq<Ch>, mid: seq<Lexeme>, ps: nat, first: seq<RedirT>, done: seq<ArgT>, argv: seq<Tok>, rs: seq<Target>)
    requires Line(b) && ps <= Len(b)
  {
    && argv == ArgToks(done) && rs == Targets(first) + ArgTargets(done) && |argv| == |done|
    && PArgs(mid, 0) == AfterArgs(done, Lex(b, ps))
  }

  /** One turn of that loop, at an argument. */
  method OneArg(b: seq<Ch>, ghost start: nat, j: nat, ghost mid: seq<Lexeme>, ghost first: seq<RedirT>, ghost done: seq<ArgT>, argv: seq<Tok>, rs: seq<Target>)
    returns (ok: bool, argv': seq<Tok>, rs': seq<Target>, ps: nat, ghost done': seq<ArgT>)
    requires Line(b) && j <= Len(b) && Between(b, j) && Reading(b, mid, j, first, done, argv, rs) && !Stops(Lex(b, j))
    requires |argv| < MAXARGS && Collected(b, start, j, argv, rs)
    ensures j < ps <= Len(b) && (!ok ==> PArgs(mid, 0) == Fail)
    ensures ok ==> |argv'| < MAXARGS && Reading(b, mid, ps, first, done', argv', rs') && Collected(b, start, ps, argv', rs')
  {
    var tok: Token, q: nat, eq: nat, more: seq<Target>;
    argv', rs', done' := argv, rs, done;
    tok, q, eq, ps := GetToken(b, j);
    ghost var o := ps;
    if tok != Arg {
      ArgStuck(done, Lex(b, j));
      return false, argv', rs', ps, done';
    }
    argv' := argv + [Tok(q, eq)];
    if |argv'| >= MAXARGS {
      ArgStuck(done, Lex(b, j));
      return false, argv', rs', ps, done';
    }
    ok, more, ps := ParseRedirs(b, ps);
    assert Lex(b, j)[1..] == Lex(b, o);
    if !ok {
      ArgStuck(done, Lex(b, j));
      return false, argv', rs', ps, done';
    }
    ghost var x := ArgT(Lx(tok, Tok(q, eq)), PRedirs(Lex(b, o)).tree);
    ArgRead(done, Lex(b, j), x, Lex(b, o), Lex(b, ps));
    ArgMore(done, x, first);
    rs', done' := rs + more, done + [x];
    CollectArg(b, start, j, o, argv, rs, Tok(q, eq));
    CollectRedirs(b, start, o, ps, argv', rs, more);
  }

  /** parseexec, once the command does not start with a parenthesis. */
  method ParseArgs(b: seq<Ch>, start: nat) returns (r: Result, ps: nat)
    requires Line(b) && start <= Len(b) && Between(b, start)
    ensures start <= ps <= Len(b) && (r.Ok? ==> Parsed(b, start, ps, r.cmd))
    ensures Agrees(b, r, ps, ToE(PSimple(Lex(b, start))))
  {
    var argv: seq<Tok> := [];
    var ok: bool, rs: seq<Target>;
    ok, rs, ps := ParseRedirs(b, start);
    if !ok {
      return Error, ps;
    }
    ghost var first, done: seq<ArgT>, mid := PRedirs(Lex(b, start)).tree, [], Lex(b, ps);
    ArgsStart(b, start, ps, rs);
    assert PRedirs(Lex(b, start)) == Got(first, mid);
    while true
      invariant start <= ps <= Len(b) && Collected(b, start, ps, argv, rs) && |argv| < MAXARGS
      invariant Reading(b, mid, ps, first, done, argv, rs)
      decreases Len(b) - ps
    {
      ghost var j := ps;
      var stop: bool;
      stop, ps := Peek(b, ps, {Bar, RParen, Amp, Semi});
      CollectSkip(b, start, j, ps, argv, rs);
      assert Reading(b, mid, ps, first, done, argv, rs);
      StopsSeen(Lex(b, ps), b[ps]);
      if stop || b[ps] == Nul {   // gettoken returns 0 at the end of the line
        break;
      }
      ok, argv, rs, ps, done := OneArg(b, start, ps, mid, first, done, argv, rs);
      if !ok {
        return Error, ps;
      }
    }
    ArgsEnd(b, start, ps, first, mid, done, argv, rs);
    r := Ok(Wrap(Exec(argv), rs));
  }

  lemma StopsSeen(ts: seq<Lexeme>, c: Ch)
    requires Sees(ts, c)
    ensures Stops(ts) <==> c == Nul || c in {Bar, RParen, Amp, Semi}
  {}

  lemma ArgsStart(b: seq<Ch>, start: nat, ps: nat, rs: seq<Target>)
    requires Line(b) && start <= ps <= Len(b) && Between(b, start) && Redirected(b, start, ps, rs)
    requires PRedirs(Lex(b, start)).Got? && rs == Targets(PRedirs(Lex(b, start)).tree)
    ensures Reading(b, Lex(b, ps), ps, PRedirs(Lex(b, start)).tree, [], [], rs) && Collected(b, start, ps, [], rs)
  {
    FirstArgs(Lex(b, ps));
    assert rs + [] == rs && [] + rs == rs;
    assert Collected(b, start, start, [], []);
    CollectRedirs(b, start, start, ps, [], [], rs);
  }

  lemma ArgsEnd(b: seq<Ch>, start: nat, ps: nat, first: seq<RedirT>, mid: seq<Lexeme>, done: seq<ArgT>, argv: seq<Tok>, rs: seq<Target>)
    requires Line(b) && start <= Len(b) && ps <= Len(b) && PRedirs(Lex(b, start)) == Got(first, mid) && Stops(Lex(b, ps))
    requires Reading(b, mid, ps, first, done, argv, rs) && Collected(b, start, ps, argv, rs)
    ensures Parsed(b, start, ps, Wrap(Exec(argv), rs))
    ensures Agrees(b, Ok(Wrap(Exec(argv), rs)), ps, ToE(PSimple(Lex(b, start))))
  {
    ArgsOver(done, Lex(b, ps));
    CollectDone(b, start, ps, argv, rs);
  }

  lemma ParsedSkip(b: seq<Ch>, i: nat, j: nat, k: nat, c: Cmd)
    requires Parsed(b, i, j, c) && j <= k <= Len(b) && Between(b, k) && Holds(b, j, k, Nothing)
    ensures Parsed(b, i, k, c)
  {
    forall m
      ensures CmdCount(c, m) == Count(b, i, k, m)
    {
      CountJoins(b, i, j, k, m);
      assert Count(b, j, k, m) == 0;
    }
  }

  lemma ParsedAfter(b: seq<Ch>, i: nat, j: nat, k: nat, c: Cmd)
    requires Parsed(b, j, k, c) && i <= j && Holds(b, i, j, Nothing)
    ensures Parsed(b, i, k, c)
  {
    forall m
      ensures CmdCount(c, m) == Count(b, i, k, m)
    {
      CountJoins(b, i, j, k, m);
      assert Count(b, i, j, m) == 0;
    }
  }

  lemma ParsedWrap(b: seq<Ch>, i: nat, j: nat, k: nat, c: Cmd, rs: seq<Target>)
    requires Parsed(b, i, j, c) && Redirected(b, j, k, rs)
    ensures Parsed(b, i, k, Wrap(c, rs))
  {
    WrapGood(b, c, rs);
    forall m
      ensures CmdCount(Wrap(c, rs), m) == Count(b, i, k, m)
    {
      WrapCount(c, rs, m);
      CountJoins(b, i, j, k, m);
      assert TargetCount(rs, m) == Count(b, j, k, m) && CmdCount(c, m) == Count(b, i, j, m);
    }
  }

  /** left, operator, right */
  lemma ParsedPair(b: seq<Ch>, i: nat, j: nat, o: nat, k: nat, l: Cmd, r: Cmd, op: Ch)
    requires Parsed(b, i, j, l) && Parsed(b, o, k, r) && j <= o && Holds(b, j, o, Op(op))
    ensures op == Bar ==> Parsed(b, i, k, Pipe(l, r))
    ensures op == Semi ==> Parsed(b, i, k, List(l, r))
  {
    forall m
      ensures CmdCount(l, m) + One(Op(op), m) + CmdCount(r, m) == Count(b, i, k, m)
    {
      CountJoins(b, i, j, o, m);
      CountJoins(b, i, o, k, m);
      assert Count(b, j, o, m) == One(Op(op), m);
    }
  }

  lemma ParsedBack(b: seq<Ch>, i: nat, j: nat, o: nat, c: Cmd)
    requires Parsed(b, i, j, c) && j <= o <= Len(b) && Between(b, o) && Holds(b, j, o, Op(Amp))
    ensures Parsed(b, i, o, Back(c))
  {
    forall m
      ensures CmdCount(Back(c), m) == Count(b, i, o, m)
    {
      CountJoins(b, i, j, o, m);
      assert Count(b, j, o, m) == One(Op(Amp), m);
    }
  }

  /** parseexec */
  method ParseExec(b: seq<Ch>, start: nat) returns (r: Result, ps: nat)
    requires Line(b) && start <= Len(b) && Between(b, start)
    ensures start <= ps <= Len(b) && (r.Ok? ==> Parsed(b, start, ps, r.cmd))
    ensures Agrees(b, r, ps, ToE(PExec(Lex(b, start))))
    decreases Len(b) - start, 1
  {
    var paren: bool;
    paren, ps := Peek(b, start, {LParen});
    ghost var j := ps;
    if paren {
      r, ps := ParseBlock(b, ps);
    } else {
      r, ps := ParseArgs(b, ps);
    }
    if r.Ok? {
      ParsedAfter(b, start, j, ps, r.cmd);
    }
  }

  /** parseblock, at an opening parenthesis. */
  method ParseBlock(b: seq<Ch>, start: nat) returns (r: Result, ps: nat)
    requires Line(b) && start <= Len(b) && Between(b, start) && Skip(b, start) == start && b[start] == LParen
    requires Is(Lex(b, start), Sym(LParen))
    ensures start <= ps <= Len(b) && (r.Ok? ==> Parsed(b, start, ps, r.cmd))
    ensures Agrees(b, r, ps, ToE(PBlock(Lex(b, start))))
    decreases Len(b) - start, 0
  {
    var tok: Token, q: nat, eq: nat;
    tok, q, eq, ps := GetToken(b, start);
    ghost var i := ps;
    assert Lex(b, start)[1..] == Lex(b, i);
    r, ps := ParseLine(b, ps);
    if r.Ok? {
      r, ps := CloseBlock(b, i, ps, r.cmd);
      BlockRest(Lex(b, start));
      if r.Ok? {
        ParsedAfter(b, start, i, ps, r.cmd);
      }
    }
  }

  /** parseblock after its line: the closing parenthesis and the redirections behind it. */
  method CloseBlock(b: seq<Ch>, ghost i: nat, at: nat, c: Cmd) returns (r: Result, ps: nat)
    requires Line(b) && Parsed(b, i, at, c)
    ensures at <= ps <= Len(b) && (r.Ok? ==> Parsed(b, i, ps, r.cmd))
    ensures Agrees(b, r, ps, Closed(c, Lex(b, at)))
  {
    var ok: bool, tok: Token, q: nat, eq: nat, rs: seq<Target>;
    ok, ps := Peek(b, at, {RParen});
    if !ok {
      return Error, ps;
    }
    ParsedSkip(b, i, at, ps, c);
    ghost var j := ps;
    tok, q, eq, ps := GetToken(b, ps);
    ParsedSkip(b, i, j, ps, c);
    assert Lex(b, at)[1..] == Lex(b, ps);
    j := ps;
    ok, rs, ps := ParseRedirs(b, ps);
    if !ok {
      return Error, ps;
    }
    ParsedWrap(b, i, j, ps, c, rs);
    r := Ok(Wrap(c, rs));
  }

  /** The outcome once a block's line c is read and `rest` is left. */
  function Closed(c: Cmd, rest: seq<Lexeme>): Parse<Cmd> {
    if !Is(rest, Sym(RParen)) then Fail
    else
      match PRedirs(rest[1..])
      case Fail => Fail
      case Got(rs, end) => Got(Wrap(c, Targets(rs)), end)
  }

  lemma BlockRest(ts: seq<Lexeme>)
    requires Is(ts, Sym(LParen)) && PLine(ts[1..]).Got?
    ensures ToE(PBlock(ts)) == Closed(CmdL(PLine(ts[1..]).tree), PLine(ts[1..]).rest)
  {}

  /** parsepipe */
  method ParsePipe(b: seq<Ch>, start: nat) returns (r: Result, ps: nat)
    requires Line(b) && start <= Len(b) && Between(b, start)
    ensures start <= ps <= Len(b) && (r.Ok? ==> Parsed(b, start, ps, r.cmd))
    ensures Agrees(b, r, ps, ToP(PPipe(Lex(b, start))))
    decreases Len(b) - start, 2
  {
    r, ps := ParseExec(b, start);
    if r.Error? {
      return;
    }
    var c := r.cmd;
    ghost var j := ps;
    var more: bool, tok: Token, q: nat, eq: nat;
    more, ps := Peek(b, ps, {Bar});
    ParsedSkip(b, start, j, ps, c);
    PipeRest(Lex(b, start));
    if more {
      j := ps;
      tok, q, eq, ps := GetToken(b, ps);
      ghost var o := ps;
      assert Lex(b, j)[1..] == Lex(b, o);
      r, ps := ParsePipe(b, ps);
      if r.Ok? {
        ParsedPair(b, start, j, o, ps, c, r.cmd, Bar);
        r := Ok(Pipe(c, r.cmd));
      }
    }
  }

  lemma PipeRest(ts: seq<Lexeme>)
    requires PExec(ts).Got?
    ensures var c, rest := CmdE(PExec(ts).tree), PExec(ts).rest;
            ToP(PPipe(ts)) ==
            if !Is(rest, Sym(Bar)) then Got(c, rest)
            else
              match ToP(PPipe(rest[1..]))
              case Fail => Fail
              case Got(d, end) => Got(Pipe(c, d), end)
  {}

  /** parseline */
  method ParseLine(b: seq<Ch>, start: nat) returns (r: Result, ps: nat)
    requires Line(b) && start <= Len(b) && Between(b, start)
    ensures start <= ps <= Len(b) && (r.Ok? ==> Parsed(b, start, ps, r.cmd))
    ensures Agrees(b, r, ps, ToL(PLine(Lex(b, start))))
    decreases Len(b) - start, 3
  {
    r, ps := ParsePipe(b, start);
    if r.Error? {
      return;
    }
    var c := r.cmd;
    c, ps := ParseBacks(b, start, ps, c);
    ghost var j := ps;
    var more: bool, tok: Token, q: nat, eq: nat;
    more, ps := Peek(b, ps, {Semi});
    ParsedSkip(b, start, j, ps, c);
    LineRest(Lex(b, start));
    r := Ok(c);
    if more {
      j := ps;
      tok, q, eq, ps := GetToken(b, ps);
      ghost var o := ps;
      assert Lex(b, j)[1..] == Lex(b, o);
      r, ps := ParseLine(b, ps);
      if r.Ok? {
        ParsedPair(b, start, j, o, ps, c, r.cmd, Semi);
        r := Ok(List(c, r.cmd));
      }
    }
  }

  lemma LineRest(ts: seq<Lexeme>)
    requires PPipe(ts).Got?
    ensures var after := PAmps(PPipe(ts).rest);
            var c, rest := Backs(CmdP(PPipe(ts).tree), |after.0|), after.1;
            ToL(PLine(ts)) ==
            if !Is(rest, Sym(Semi)) then Got(c, rest)
            else
              match ToL(PLine(rest[1..]))
              case Fail => Fail
              case Got(d, end) => Got(List(c, d), end)
  {}

  /** parseline's loop over ampersands. */
  method ParseBacks(b: seq<Ch>, ghost start: nat, at: nat, cmd: Cmd) returns (c: Cmd, ps: nat)
    requires Line(b) && Parsed(b, start, at, cmd)
    ensures at <= ps && Parsed(b, start, ps, c)
    ensures c == Backs(cmd, |PAmps(Lex(b, at)).0|) && Lex(b, ps) == PAmps(Lex(b, at)).1
  {
    c, ps := cmd, at;
    ghost var n := 0;
    while true
      invariant at <= ps && Parsed(b, start, ps, c) && c == Backs(cmd, n)
      invariant |PAmps(Lex(b, at)).0| == n + |PAmps(Lex(b, ps)).0| && PAmps(Lex(b, at)).1 == PAmps(Lex(b, ps)).1
      decreases Len(b) - ps
    {
      ghost var j := ps;
      var amp: bool;
      amp, ps := Peek(b, ps, {Amp});
      ParsedSkip(b, start, j, ps, c);
      if !amp {
        return;
      }
      ps := TakeAmp(b, start, ps, c);
      c, n := Back(c), n + 1;
    }
  }

  /** The body of that loop, at an ampersand. */
  method TakeAmp(b: seq<Ch>, ghost start: nat, at: nat, ghost c: Cmd) returns (ps: nat)
    requires Line(b) && Parsed(b, start, at, c) && at <= Len(b) && Between(b, at) && Skip(b, at) == at && b[at] == Amp
    ensures at < ps <= Len(b) && Parsed(b, start, ps, Back(c))
    ensures |PAmps(Lex(b, at)).0| == 1 + |PAmps(Lex(b, ps)).0| && PAmps(Lex(b, at)).1 == PAmps(Lex(b, ps)).1
  {
    var tok: Token, q: nat, eq: nat;
    tok, q, eq, ps := GetToken(b, at);
    ParsedBack(b, start, at, ps, c);
    AmpStep(Lex(b, at), Lx(tok, Tok(q, eq)), Lex(b, ps));
  }

  lemma AmpStep(ts: seq<Lexeme>, amp: Lexeme, rest: seq<Lexeme>)
    requires ts == [amp] + rest && amp.kind == Sym(Amp)
    ensures |PAmps(ts).0| == 1 + |PAmps(rest).0| && PAmps(ts).1 == PAmps(rest).1
  {
    assert ts[1..] == rest;
  }

  // ----- NUL termination

  predicate Mentions(c: Cmd, t: Tok) {
    match c
    case Exec(argv) => t in argv
    case Redir(cmd, file, _, _) => Mentions(cmd, t) || t == file
    case Pipe(l, r) => Mentions(l, t) || Mentions(r, t)
    case List(l, r) => Mentions(l, t) || Mentions(r, t)
    case Back(cmd) => Mentions(cmd, t)
  }

  /** Some token of the command ends at x. */
  ghost predicate EndsAt(c: Cmd, x: nat) {
    match c
    case Exec(argv) => exists k :: 0 <= k < |argv| && argv[k].eq == x
    case Redir(cmd, file, _, _) => EndsAt(cmd, x) || x == file.eq
    case Pipe(l, r) => EndsAt(l, x) || EndsAt(r, x)
    case List(l, r) => EndsAt(l, x) || EndsAt(r, x)
    case Back(cmd) => EndsAt(cmd, x)
  }

  /** b with a NUL wherever a token of c ends. */
  ghost predicate Terminated(b: seq<Ch>, b': seq<Ch>, c: Cmd) {
    |b'| == |b| && forall x: nat | x < |b| :: b'[x] == if EndsAt(c, x) then Nul else b[x]
  }

  lemma {:induction false} EndsAreNoLetters(b: seq<Ch>, c: Cmd, x: nat)
    requires Good(b, c) && EndsAt(c, x)
    ensures x < |b| && !b[x].Letter?
  {
    match c
    case Exec(argv) =>
      var k :| 0 <= k < |argv| && argv[k].eq == x;
      assert Whole(b, argv[k]);
    case Redir(cmd, file, _, _) =>
      if EndsAt(cmd, x) {
        EndsAreNoLetters(b, cmd, x);
      }
    case Pipe(l, r) => if EndsAt(l, x) { EndsAreNoLetters(b, l, x); } else { EndsAreNoLetters(b, r, x); }
    case List(l, r) => if EndsAt(l, x) { EndsAreNoLetters(b, l, x); } else { EndsAreNoLetters(b, r, x); }
    case Back(cmd) => EndsAreNoLetters(b, cmd, x);
  }

  lemma {:induction false} MentionedTok(b: seq<Ch>, c: Cmd, t: Tok)
    requires Good(b, c) && Mentions(c, t)
    ensures Whole(b, t) && EndsAt(c, t.eq)
  {
    match c
    case Exec(argv) => {}
    case Redir(cmd, file, _, _) =>
      if t != file {
        MentionedTok(b, cmd, t);
      }
    case Pipe(l, r) => if Mentions(l, t) { MentionedTok(b, l, t); } else { MentionedTok(b, r, t); }
    case List(l, r) => if Mentions(l, t) { MentionedTok(b, l, t); } else { MentionedTok(b, r, t); }
    case Back(cmd) => MentionedTok(b, cmd, t);
  }

  /** The C string at i. */
  function CString(b: seq<Ch>, i: nat): seq<Ch>
    decreases |b| - i
  {
    if i >= |b| || b[i] == Nul then [] else [b[i]] + CString(b, i + 1)
  }

  lemma {:induction false} CStringIs(b: seq<Ch>, b': seq<Ch>, i: nat, eq: nat)
    requires i <= eq < |b| == |b'| && b'[eq] == Nul && forall k | i <= k < eq :: b'[k] == b[k] && b[k] != Nul
    ensures CString(b', i) == b[i..eq]
    decreases eq - i
  {
    if i < eq {
      CStringIs(b, b', i + 1, eq);
      assert b[i..eq] == [b[i]] + b[i + 1..eq];
    }
  }

  /** Once every token is terminated, each one reads as a C string exactly as it stood in the line. */
  lemma TokensReadBack(b: seq<Ch>, b': seq<Ch>, c: Cmd, t: Tok)
    requires Good(b, c) && Terminated(b, b', c) && Mentions(c, t)
    ensures t.q < t.eq < |b| && CString(b', t.q) == b[t.q..t.eq]
  {
    MentionedTok(b, c, t);
    forall k | t.q <= k < t.eq
      ensures b'[k] == b[k] && b[k] != Nul
    {
      if EndsAt(c, k) {
        EndsAreNoLetters(b, c, k);
      }
    }
    CStringIs(b, b', t.q, t.eq);
  }

  /** nulterminate */
  method NulTerminate(c: Cmd, buf: array<Ch>, ghost b: seq<Ch>)
    requires Good(b, c) && buf.Length == |b|
    modifies buf
    ensures Terminated(old(buf[..]), buf[..], c)
    decreases c
  {
    match c
    case Exec(argv) =>
      for i := 0 to |argv|
        invariant forall x: nat | x < buf.Length :: buf[x] == if exists k :: 0 <= k < i && argv[k].eq == x then Nul else old(buf[x])
      {
        assert Whole(b, argv[i]);
        buf[argv[i].eq] := Nul;
      }
    case Redir(cmd, file, _, _) =>
      NulTerminate(cmd, buf, b);
      buf[file.eq] := Nul;
    case Pipe(l, r) =>
      NulTerminate(l, buf, b);
      NulTerminate(r, buf, b);
    case List(l, r) =>
      NulTerminate(l, buf, b);
      NulTerminate(r, buf, b);
    case Back(cmd) => NulTerminate(cmd, buf, b);
  }

  // ----- The whole

  /** A word's mark occurs once where a word starts, and not at all elsewhere. */
  lemma {:induction false} CountWord(b: seq<Ch>, i: nat, j: nat, q: nat)
    requires i <= j <= |b|
    ensures Count(b, i, j, Word(q)) == if i <= q < j && MarkAt(b, q) == Word(q) then 1 else 0
    decreases j - i
  {
    if i < j {
      CountWord(b, i, j - 1, q);
    }
  }

  /** A parsed command mentions every word of the line exactly once, and nothing that is not one. */
  lemma EveryWordOnce(b: seq<Ch>, c: Cmd, q: nat)
    requires Line(b) && Parsed(b, 0, Len(b), c) && q < |b|
    ensures CmdCount(c, Word(q)) == if b[q].Letter? && (q == 0 || !b[q - 1].Letter?) then 1 else 0
  {
    CountWord(b, 0, Len(b), q);
  }

  /** What the parser decides, and what it finds, is what the grammar says. */
  lemma LineDecides(b: seq<Ch>, r: Result, ps: nat)
    requires Line(b) && ps <= Len(b) && Agrees(b, r, ps, ToL(PLine(Lex(b, 0))))
    ensures r.Ok? && Lex(b, ps) == [] ==> Denotes(b, r.cmd)
    ensures r.Error? || Lex(b, ps) != [] ==> forall c :: !Denotes(b, c)
    ensures forall c, d | Denotes(b, c) && Denotes(b, d) :: c == d
  {
    AcceptsExactly(Lex(b, 0));
  }

  /** And that is what the characters of the line say. */
  ghost predicate Meant(b: seq<Ch>, r: Result)
    requires Line(b)
  {
    if r.Ok? then LaidLine(b, 0, Len(b), r.cmd) && Directed(b, r.cmd) else forall c :: !LaidLine(b, 0, Len(b), c)
  }

  lemma LineMeant(b: seq<Ch>, r: Result)
    requires Line(b) && if r.Ok? then Denotes(b, r.cmd) else forall c :: !Denotes(b, c)
    ensures Meant(b, r)
  {
    if r.Ok? {
      LaidIsDenoted(b, r.cmd);
      DirectedLine(b, 0, Len(b), r.cmd);
    } else {
      forall c
        ensures !LaidLine(b, 0, Len(b), c)
      {
        LaidIsDenoted(b, c);
      }
    }
  }

  /** parsecmd. It succeeds exactly on the sentences of the grammar, and returns their command, which is the
      one laid out over the characters of the line, redirections in their direction. Then the command accounts for the whole line, and every token in it reads as a C string as it stood in
      the line. Otherwise the line is left alone. */
  method ParseCmd(buf: array<Ch>) returns (r: Result)
    requires Line(buf[..])
    modifies buf
    ensures r.Ok? ==> Denotes(old(buf[..]), r.cmd)
    ensures r.Error? ==> buf[..] == old(buf[..]) && forall c :: !Denotes(old(buf[..]), c)
    ensures Meant(old(buf[..]), r)
    ensures r.Ok? ==> Parsed(old(buf[..]), 0, buf.Length - 1, r.cmd) && Terminated(old(buf[..]), buf[..], r.cmd)
    ensures r.Ok? ==> forall t | Mentions(r.cmd, t) :: t.q < t.eq < buf.Length && CString(buf[..], t.q) == old(buf[..])[t.q..t.eq]
  {
    var b := buf[..];
    var ps: nat, more: bool;
    r, ps := ParseLine(b, 0);
    LineDecides(b, r, ps);
    if r.Error? {
      LineMeant(b, r);
      return;
    }
    ghost var j := ps;
    more, ps := Peek(b, ps, {});
    ParsedSkip(b, 0, j, ps, r.cmd);
    if ps != Len(b) {
      LineMeant(b, Error);
      return Error;
    }
    LineMeant(b, r);
    NulTerminate(r.cmd, buf, b);
    forall t | Mentions(r.cmd, t)
      ensures t.q < t.eq < buf.Length && CString(buf[..], t.q) == b[t.q..t.eq]
    {
      TokensReadBack(b, buf[..], r.cmd, t);
    }
  }
}
