/** The shell's grammar as syntax trees with their token sequences, a parser on token sequences, and the
    proof that the parser finds exactly the trees of the grammar. */
module ShellGrammar {
  import opened ShellLex

  const MAXARGS := 10

  // ----- Syntax trees

  datatype RedirT = RedirT(op: Lexeme, file: Lexeme)
  datatype ArgT = ArgT(arg: Lexeme, redirs: seq<RedirT>)
  datatype ExecT =
    | Simple(redirs: seq<RedirT>, args: seq<ArgT>)
    | Block(open: Lexeme, line: LineT, close: Lexeme, redirs: seq<RedirT>)
  datatype PipeT = Last(exec: ExecT) | Then(exec: ExecT, bar: Lexeme, rest: PipeT)
  datatype LineT = End(pipe: PipeT, amps: seq<Lexeme>) | Seq(pipe: PipeT, amps: seq<Lexeme>, semi: Lexeme, rest: LineT)

  predicate IsRedirOp(k: Token) { k == Sym(Lt) || k == Sym(Gt) || k == More }

  predicate RedirsOk(rs: seq<RedirT>) { forall i | 0 <= i < |rs| :: IsRedirOp(rs[i].op.kind) && rs[i].file.kind == Arg }

  predicate ArgsOk(xs: seq<ArgT>) { forall i | 0 <= i < |xs| :: xs[i].arg.kind == Arg && RedirsOk(xs[i].redirs) }

  predicate AmpsOk(xs: seq<Lexeme>) { forall i | 0 <= i < |xs| :: xs[i].kind == Sym(Amp) }

  predicate ExecOk(e: ExecT) {
    match e
    case Simple(rs, xs) => RedirsOk(rs) && ArgsOk(xs) && |xs| < MAXARGS
    case Block(o, l, c, rs) => o.kind == Sym(LParen) && LineOk(l) && c.kind == Sym(RParen) && RedirsOk(rs)
  }

  predicate PipeOk(p: PipeT) {
    match p
    case Last(e) => ExecOk(e)
    case Then(e, bar, rest) => ExecOk(e) && bar.kind == Sym(Bar) && PipeOk(rest)
  }

  predicate LineOk(l: LineT) {
    match l
    case End(p, amps) => PipeOk(p) && AmpsOk(amps)
    case Seq(p, amps, semi, rest) => PipeOk(p) && AmpsOk(amps) && semi.kind == Sym(Semi) && LineOk(rest)
  }

  // ----- The tokens of a tree

  function YieldRs(rs: seq<RedirT>): seq<Lexeme> {
    if rs == [] then [] else [rs[0].op, rs[0].file] + YieldRs(rs[1..])
  }

  function YieldXs(xs: seq<ArgT>): seq<Lexeme> {
    if xs == [] then [] else [xs[0].arg] + YieldRs(xs[0].redirs) + YieldXs(xs[1..])
  }

  function YieldE(e: ExecT): seq<Lexeme> {
    match e
    case Simple(rs, xs) => YieldRs(rs) + YieldXs(xs)
    case Block(o, l, c, rs) => [o] + YieldL(l) + [c] + YieldRs(rs)
  }

  function YieldP(p: PipeT): seq<Lexeme> {
    match p
    case Last(e) => YieldE(e)
    case Then(e, bar, rest) => YieldE(e) + [bar] + YieldP(rest)
  }

  function YieldL(l: LineT): seq<Lexeme> {
    match l
    case End(p, amps) => YieldP(p) + amps
    case Seq(p, amps, semi, rest) => YieldP(p) + amps + [semi] + YieldL(rest)
  }

  // ----- A parser on token sequences

  datatype Parse<T> = Fail | Got(tree: T, rest: seq<Lexeme>)

  predicate Is(ts: seq<Lexeme>, k: Token) { ts != [] && ts[0].kind == k }

  function PRedirs(ts: seq<Lexeme>): (r: Parse<seq<RedirT>>)
    ensures r.Got? ==> |r.rest| <= |ts|
  {
    if ts != [] && IsRedirOp(ts[0].kind) then
      if |ts| > 1 && ts[1].kind == Arg then
        match PRedirs(ts[2..])
        case Fail => Fail
        case Got(rs, rest) => Got([RedirT(ts[0], ts[1])] + rs, rest)
      else Fail
    else Got([], ts)
  }

  /** What ends a simple command. */
  predicate Stops(ts: seq<Lexeme>) {
    ts == [] || ts[0].kind == Sym(Bar) || ts[0].kind == Sym(RParen) || ts[0].kind == Sym(Amp) || ts[0].kind == Sym(Semi)
  }

  /** n arguments have been read already. */
  function PArgs(ts: seq<Lexeme>, n: nat): (r: Parse<seq<ArgT>>)
    ensures r.Got? ==> |r.rest| <= |ts|
    decreases |ts|
  {
    if Stops(ts) then Got([], ts)
    else if ts[0].kind != Arg || n + 1 >= MAXARGS then Fail
    else
      match PRedirs(ts[1..])
      case Fail => Fail
      case Got(rs, rest) =>
        match PArgs(rest, n + 1)
        case Fail => Fail
        case Got(xs, end) => Got([ArgT(ts[0], rs)] + xs, end)
  }

  function PSimple(ts: seq<Lexeme>): (r: Parse<ExecT>)
    ensures r.Got? ==> |r.rest| <= |ts|
  {
    match PRedirs(ts)
    case Fail => Fail
    case Got(rs, rest) =>
      match PArgs(rest, 0)
      case Fail => Fail
      case Got(xs, end) => Got(Simple(rs, xs), end)
  }

  function PAmps(ts: seq<Lexeme>): (r: (seq<Lexeme>, seq<Lexeme>))
    ensures |r.1| <= |ts|
  {
    if Is(ts, Sym(Amp)) then
      var (amps, rest) := PAmps(ts[1..]);
      ([ts[0]] + amps, rest)
    else ([], ts)
  }

  function PBlock(ts: seq<Lexeme>): (r: Parse<ExecT>)
    requires Is(ts, Sym(LParen))
    ensures r.Got? ==> |r.rest| <= |ts|
    decreases |ts|, 0
  {
    match PLine(ts[1..])
    case Fail => Fail
    case Got(l, rest) =>
      if !Is(rest, Sym(RParen)) then Fail
      else
        match PRedirs(rest[1..])
        case Fail => Fail
        case Got(rs, end) => Got(Block(ts[0], l, rest[0], rs), end)
  }

  function PExec(ts: seq<Lexeme>): (r: Parse<ExecT>)
    ensures r.Got? ==> |r.rest| <= |ts|
    decreases |ts|, 1
  {
    if Is(ts, Sym(LParen)) then PBlock(ts) else PSimple(ts)
  }

  function PPipe(ts: seq<Lexeme>): (r: Parse<PipeT>)
    ensures r.Got? ==> |r.rest| <= |ts|
    decreases |ts|, 2
  {
    match PExec(ts)
    case Fail => Fail
    case Got(e, rest) =>
      if !Is(rest, Sym(Bar)) then Got(Last(e), rest)
      else
        match PPipe(rest[1..])
        case Fail => Fail
        case Got(p, end) => Got(Then(e, rest[0], p), end)
  }

  function PLine(ts: seq<Lexeme>): (r: Parse<LineT>)
    ensures r.Got? ==> |r.rest| <= |ts|
    decreases |ts|, 3
  {
    match PPipe(ts)
    case Fail => Fail
    case Got(p, rest) =>
      var (amps, end) := PAmps(rest);
      if !Is(end, Sym(Semi)) then Got(End(p, amps), end)
      else
        match PLine(end[1..])
        case Fail => Fail
        case Got(l, end') => Got(Seq(p, amps, end[0], l), end')
  }

  // ----- Soundness: what the parser finds is a tree with these tokens

  lemma Glue(a: seq<Lexeme>, b: seq<Lexeme>, c: seq<Lexeme>)
    ensures a + (b + c) == a + b + c
  {}

  lemma Glue3(a: seq<Lexeme>, b: seq<Lexeme>, c: seq<Lexeme>, d: seq<Lexeme>)
    ensures a + (b + (c + d)) == a + b + c + d
  {}

  lemma {:induction false} SoundRedirs(ts: seq<Lexeme>)
    requires PRedirs(ts).Got?
    ensures RedirsOk(PRedirs(ts).tree) && ts == YieldRs(PRedirs(ts).tree) + PRedirs(ts).rest
    decreases |ts|
  {
    if ts != [] && IsRedirOp(ts[0].kind) {
      SoundRedirs(ts[2..]);
      var r, more := RedirT(ts[0], ts[1]), PRedirs(ts[2..]);
      assert PRedirs(ts) == Got([r] + more.tree, more.rest);
      ConsRedir(r, more.tree);
      Glue([ts[0], ts[1]], YieldRs(more.tree), more.rest);
      assert ts == [ts[0], ts[1]] + ts[2..];
    } else {
      assert ts == [] + ts;
    }
  }

  lemma ConsRedir(r: RedirT, rs: seq<RedirT>)
    requires IsRedirOp(r.op.kind) && r.file.kind == Arg && RedirsOk(rs)
    ensures RedirsOk([r] + rs) && YieldRs([r] + rs) == [r.op, r.file] + YieldRs(rs)
  {
    assert ([r] + rs)[1..] == rs;
  }

  lemma {:induction false} SoundArgs(ts: seq<Lexeme>, n: nat)
    requires PArgs(ts, n).Got? && n < MAXARGS
    ensures ArgsOk(PArgs(ts, n).tree) && ts == YieldXs(PArgs(ts, n).tree) + PArgs(ts, n).rest
    decreases |ts|
  {
    if !Stops(ts) {
      SoundRedirs(ts[1..]);
      var r := PRedirs(ts[1..]);
      SoundArgs(r.rest, n + 1);
      var more := PArgs(r.rest, n + 1);
      assert PArgs(ts, n) == Got([ArgT(ts[0], r.tree)] + more.tree, more.rest);
      ArgStep(ts, r.tree, r.rest, more.tree, more.rest);
    } else {
      assert ts == [] + ts;
    }
  }

  lemma ArgStep(ts: seq<Lexeme>, rs: seq<RedirT>, mid: seq<Lexeme>, xs: seq<ArgT>, rest: seq<Lexeme>)
    requires ts != [] && ts[0].kind == Arg && ts[1..] == YieldRs(rs) + mid && mid == YieldXs(xs) + rest && RedirsOk(rs) && ArgsOk(xs)
    ensures ArgsOk([ArgT(ts[0], rs)] + xs) && ts == YieldXs([ArgT(ts[0], rs)] + xs) + rest
  {
    ConsArg(ArgT(ts[0], rs), xs);
    assert ts == [ts[0]] + ts[1..];
    Glue3([ts[0]], YieldRs(rs), YieldXs(xs), rest);
  }

  lemma {:induction false} ArgsFit(ts: seq<Lexeme>, n: nat)
    requires PArgs(ts, n).Got? && n < MAXARGS
    ensures n + |PArgs(ts, n).tree| < MAXARGS
    decreases |ts|
  {
    if !Stops(ts) {
      var r := PRedirs(ts[1..]);
      ArgsFit(r.rest, n + 1);
      assert |PArgs(ts, n).tree| == 1 + |PArgs(r.rest, n + 1).tree|;
    }
  }

  lemma ConsArg(a: ArgT, xs: seq<ArgT>)
    requires a.arg.kind == Arg && RedirsOk(a.redirs) && ArgsOk(xs)
    ensures ArgsOk([a] + xs) && YieldXs([a] + xs) == [a.arg] + YieldRs(a.redirs) + YieldXs(xs)
  {
    assert ([a] + xs)[1..] == xs;
  }

  lemma {:induction false} SoundAmps(ts: seq<Lexeme>)
    ensures AmpsOk(PAmps(ts).0) && ts == PAmps(ts).0 + PAmps(ts).1
    decreases |ts|
  {
    if Is(ts, Sym(Amp)) {
      SoundAmps(ts[1..]);
      assert ts == [ts[0]] + ts[1..];
      Glue([ts[0]], PAmps(ts[1..]).0, PAmps(ts[1..]).1);
    }
  }

  lemma {:induction false} SoundExec(ts: seq<Lexeme>)
    requires PExec(ts).Got?
    ensures ExecOk(PExec(ts).tree) && ts == YieldE(PExec(ts).tree) + PExec(ts).rest
    decreases |ts|, 1
  {
    if Is(ts, Sym(LParen)) {
      SoundLine(ts[1..]);
      SoundBlock(ts);
    } else {
      SoundSimple(ts);
    }
  }

  lemma SoundBlock(ts: seq<Lexeme>)
    requires PExec(ts).Got? && Is(ts, Sym(LParen)) && PLine(ts[1..]).Got?
    requires LineOk(PLine(ts[1..]).tree) && ts[1..] == YieldL(PLine(ts[1..]).tree) + PLine(ts[1..]).rest
    ensures ExecOk(PExec(ts).tree) && ts == YieldE(PExec(ts).tree) + PExec(ts).rest
  {
    var r := PLine(ts[1..]);
    SoundRedirs(r.rest[1..]);
    var u := PRedirs(r.rest[1..]);
    BlockGlue(ts, YieldL(r.tree), r.rest, YieldRs(u.tree), u.rest);
  }

  lemma BlockGlue(ts: seq<Lexeme>, l: seq<Lexeme>, after: seq<Lexeme>, rs: seq<Lexeme>, rest: seq<Lexeme>)
    requires ts != [] && ts[1..] == l + after && after != [] && after[1..] == rs + rest
    ensures ts == [ts[0]] + l + [after[0]] + rs + rest
  {
    assert ts == [ts[0]] + ts[1..] && after == [after[0]] + after[1..];
  }

  lemma SoundSimple(ts: seq<Lexeme>)
    requires PExec(ts).Got? && !Is(ts, Sym(LParen))
    ensures ExecOk(PExec(ts).tree) && ts == YieldE(PExec(ts).tree) + PExec(ts).rest
  {
    SoundRedirs(ts);
    SoundArgs(PRedirs(ts).rest, 0);
    ArgsFit(PRedirs(ts).rest, 0);
    Glue(YieldRs(PRedirs(ts).tree), YieldXs(PArgs(PRedirs(ts).rest, 0).tree), PExec(ts).rest);
  }

  lemma {:induction false} SoundPipe(ts: seq<Lexeme>)
    requires PPipe(ts).Got?
    ensures PipeOk(PPipe(ts).tree) && ts == YieldP(PPipe(ts).tree) + PPipe(ts).rest
    decreases |ts|, 2
  {
    SoundExec(ts);
    var r := PExec(ts);
    if Is(r.rest, Sym(Bar)) {
      SoundPipe(r.rest[1..]);
      assert r.rest == [r.rest[0]] + r.rest[1..];
      Glue3(YieldE(r.tree), [r.rest[0]], YieldP(PPipe(r.rest[1..]).tree), PPipe(ts).rest);
    }
  }

  lemma {:induction false} SoundLine(ts: seq<Lexeme>)
    requires PLine(ts).Got?
    ensures LineOk(PLine(ts).tree) && ts == YieldL(PLine(ts).tree) + PLine(ts).rest
    decreases |ts|, 3
  {
    SoundPipe(ts);
    SoundAmps(PPipe(ts).rest);
    var y, amps, end := YieldP(PPipe(ts).tree), PAmps(PPipe(ts).rest).0, PAmps(PPipe(ts).rest).1;
    if Is(end, Sym(Semi)) {
      SoundLine(end[1..]);
      assert end == [end[0]] + end[1..];
      Glue3(y, amps, [end[0]], end[1..]);
      Glue(y + amps + [end[0]], YieldL(PLine(end[1..]).tree), PLine(ts).rest);
    } else {
      Glue(y, amps, end);
    }
  }

  // ----- Completeness: every tree is found

  /** What may follow a line, a pipeline, a command. */
  predicate EndsLine(ts: seq<Lexeme>) { ts == [] || ts[0].kind == Sym(RParen) }

  predicate EndsPipe(ts: seq<Lexeme>) { EndsLine(ts) || Is(ts, Sym(Amp)) || Is(ts, Sym(Semi)) }

  predicate EndsExec(ts: seq<Lexeme>) { EndsPipe(ts) || Is(ts, Sym(Bar)) }

  lemma {:induction false} CompleteRedirs(rs: seq<RedirT>, rest: seq<Lexeme>)
    requires RedirsOk(rs) && (rest != [] ==> !IsRedirOp(rest[0].kind))
    ensures PRedirs(YieldRs(rs) + rest) == Got(rs, rest)
    decreases |rs|
  {
    var ts := YieldRs(rs) + rest;
    if rs == [] {
      assert ts == rest;
    } else {
      CompleteRedirs(rs[1..], rest);
      assert ts[2..] == YieldRs(rs[1..]) + rest;
      assert [RedirT(ts[0], ts[1])] + rs[1..] == rs;
    }
  }

  /** After the redirections comes an argument, or the command is over. */
  lemma ArgsFirst(xs: seq<ArgT>, rest: seq<Lexeme>)
    requires ArgsOk(xs) && EndsExec(rest)
    ensures var more := YieldXs(xs) + rest; more != [] ==> !IsRedirOp(more[0].kind) && more[0].kind != Sym(LParen)
  {
    var more := YieldXs(xs) + rest;
    if xs == [] {
      assert more == rest;
    } else {
      assert more[0] == xs[0].arg;
    }
  }

  lemma {:induction false} CompleteArgs(xs: seq<ArgT>, n: nat, rest: seq<Lexeme>)
    requires ArgsOk(xs) && n + |xs| < MAXARGS && EndsExec(rest)
    ensures PArgs(YieldXs(xs) + rest, n) == Got(xs, rest)
    decreases |xs|
  {
    if xs == [] {
      assert YieldXs(xs) + rest == rest;
    } else {
      var x, more := xs[0], YieldXs(xs[1..]) + rest;
      assert x.arg.kind == Arg && RedirsOk(x.redirs);
      ArgsFirst(xs[1..], rest);
      CompleteRedirs(x.redirs, more);
      CompleteArgs(xs[1..], n + 1, rest);
      ReadArg(x, n, more, xs[1..], rest);
      FirstArg(xs, rest);
    }
  }

  lemma FirstArg(xs: seq<ArgT>, rest: seq<Lexeme>)
    requires xs != []
    ensures YieldXs(xs) + rest == [xs[0].arg] + (YieldRs(xs[0].redirs) + (YieldXs(xs[1..]) + rest))
    ensures [xs[0]] + xs[1..] == xs
  {
    Glue3([xs[0].arg], YieldRs(xs[0].redirs), YieldXs(xs[1..]), rest);
  }

  lemma ReadArg(x: ArgT, n: nat, more: seq<Lexeme>, xs: seq<ArgT>, rest: seq<Lexeme>)
    requires x.arg.kind == Arg && n + 1 < MAXARGS
    requires PRedirs(YieldRs(x.redirs) + more) == Got(x.redirs, more) && PArgs(more, n + 1) == Got(xs, rest)
    ensures PArgs([x.arg] + (YieldRs(x.redirs) + more), n) == Got([x] + xs, rest)
  {
    var ts := [x.arg] + (YieldRs(x.redirs) + more);
    assert ts[1..] == YieldRs(x.redirs) + more;
  }

  lemma {:induction false} CompleteAmps(amps: seq<Lexeme>, rest: seq<Lexeme>)
    requires AmpsOk(amps) && !Is(rest, Sym(Amp))
    ensures PAmps(amps + rest) == (amps, rest)
    decreases |amps|
  {
    var ts := amps + rest;
    if amps == [] {
      assert ts == rest;
    } else {
      CompleteAmps(amps[1..], rest);
      assert ts[1..] == amps[1..] + rest;
      assert [ts[0]] + amps[1..] == amps;
    }
  }

  lemma {:induction false} CompleteExec(e: ExecT, rest: seq<Lexeme>)
    requires ExecOk(e) && EndsExec(rest)
    ensures PExec(YieldE(e) + rest) == Got(e, rest)
    decreases e, 1
  {
    match e
    case Block(o, l, c, rs) =>
      CompleteLine(l, [c] + (YieldRs(rs) + rest));
      CompleteBlock(o, l, c, rs, rest);
    case Simple(rs, xs) =>
      assert YieldE(e) + rest == YieldRs(rs) + (YieldXs(xs) + rest);
      CompleteSimple(rs, xs, rest);
  }

  lemma CompleteBlock(o: Lexeme, l: LineT, c: Lexeme, rs: seq<RedirT>, rest: seq<Lexeme>)
    requires ExecOk(Block(o, l, c, rs)) && EndsExec(rest)
    requires PLine(YieldL(l) + ([c] + (YieldRs(rs) + rest))) == Got(l, [c] + (YieldRs(rs) + rest))
    ensures PExec(YieldE(Block(o, l, c, rs)) + rest) == Got(Block(o, l, c, rs), rest)
  {
    var after := YieldRs(rs) + rest;
    Unglue(o, YieldL(l), c, YieldRs(rs), rest);
    CompleteRedirs(rs, rest);
    BlockStep(YieldE(Block(o, l, c, rs)) + rest, l, [c] + after, rs, rest);
  }

  lemma Unglue(o: Lexeme, l: seq<Lexeme>, c: Lexeme, rs: seq<Lexeme>, rest: seq<Lexeme>)
    ensures var ts := [o] + l + [c] + rs + rest; ts != [] && ts[0] == o && ts[1..] == l + ([c] + (rs + rest))
    ensures ([c] + (rs + rest))[1..] == rs + rest
  {}

  lemma BlockStep(ts: seq<Lexeme>, l: LineT, after: seq<Lexeme>, rs: seq<RedirT>, rest: seq<Lexeme>)
    requires Is(ts, Sym(LParen)) && PLine(ts[1..]) == Got(l, after) && Is(after, Sym(RParen)) && PRedirs(after[1..]) == Got(rs, rest)
    ensures PExec(ts) == Got(Block(ts[0], l, after[0], rs), rest)
  {}

  lemma CompleteSimple(rs: seq<RedirT>, xs: seq<ArgT>, rest: seq<Lexeme>)
    requires RedirsOk(rs) && ArgsOk(xs) && |xs| < MAXARGS && EndsExec(rest)
    ensures PExec(YieldRs(rs) + (YieldXs(xs) + rest)) == Got(Simple(rs, xs), rest)
  {
    var more := YieldXs(xs) + rest;
    ArgsFirst(xs, rest);
    CompleteRedirs(rs, more);
    CompleteArgs(xs, 0, rest);
    var ts := YieldRs(rs) + more;
    if rs == [] {
      assert ts == more;
    } else {
      assert ts[0] == rs[0].op && IsRedirOp(rs[0].op.kind);
    }
  }

  lemma {:induction false} CompletePipe(p: PipeT, rest: seq<Lexeme>)
    requires PipeOk(p) && EndsPipe(rest)
    ensures PPipe(YieldP(p) + rest) == Got(p, rest)
    decreases p, 2
  {
    var ts := YieldP(p) + rest;
    match p
    case Last(e) => CompleteExec(e, rest);
    case Then(e, bar, p') =>
      var more := [bar] + (YieldP(p') + rest);
      assert ts == YieldE(e) + more;
      CompleteExec(e, more);
      assert more[1..] == YieldP(p') + rest;
      CompletePipe(p', rest);
  }

  lemma {:induction false} CompleteLine(l: LineT, rest: seq<Lexeme>)
    requires LineOk(l) && EndsLine(rest)
    ensures PLine(YieldL(l) + rest) == Got(l, rest)
    decreases l, 3
  {
    match l
    case End(p, amps) =>
      Glue(YieldP(p), amps, rest);
      CompletePipe(p, amps + rest);
      CompleteAmps(amps, rest);
      EndStep(YieldL(l) + rest, p, amps + rest, amps, rest);
    case Seq(p, amps, semi, l') =>
      var more := [semi] + (YieldL(l') + rest);
      Glue3(YieldP(p), amps, [semi], YieldL(l') + rest);
      Glue(YieldP(p) + amps + [semi], YieldL(l'), rest);
      CompletePipe(p, amps + more);
      CompleteAmps(amps, more);
      CompleteLine(l', rest);
      SeqStep(YieldL(l) + rest, p, amps + more, amps, semi, YieldL(l') + rest, l', rest);
  }

  lemma EndStep(ts: seq<Lexeme>, p: PipeT, after: seq<Lexeme>, amps: seq<Lexeme>, rest: seq<Lexeme>)
    requires PPipe(ts) == Got(p, after) && PAmps(after) == (amps, rest) && !Is(rest, Sym(Semi))
    ensures PLine(ts) == Got(End(p, amps), rest)
  {}

  lemma SeqStep(ts: seq<Lexeme>, p: PipeT, after: seq<Lexeme>, amps: seq<Lexeme>, semi: Lexeme, more: seq<Lexeme>, l: LineT, rest: seq<Lexeme>)
    requires PPipe(ts) == Got(p, after) && PAmps(after) == (amps, [semi] + more) && Is([semi] + more, Sym(Semi)) && PLine(more) == Got(l, rest)
    ensures PLine(ts) == Got(Seq(p, amps, semi, l), rest)
  {
    assert ([semi] + more)[1..] == more;
  }

  /** The parser accepts exactly the token sequences of the grammar, and finds their only tree. */
  lemma AcceptsExactly(ts: seq<Lexeme>)
    ensures PLine(ts).Got? && PLine(ts).rest == [] <==> exists l :: LineOk(l) && YieldL(l) == ts
    ensures forall l | LineOk(l) && YieldL(l) == ts :: PLine(ts) == Got(l, [])
  {
    forall l | LineOk(l) && YieldL(l) == ts
      ensures PLine(ts) == Got(l, [])
    {
      CompleteLine(l, []);
      assert ts + [] == ts;
    }
    if PLine(ts).Got? && PLine(ts).rest == [] {
      SoundLine(ts);
      assert YieldL(PLine(ts).tree) + [] == YieldL(PLine(ts).tree);
    }
  }
}
