/** Commands as sh.c builds them, and the command that a syntax tree of the grammar stands for. */
module ShellCmd {
  import opened ShellLex
  import opened ShellGrammar

  // ----- Commands

  datatype Cmd =
    | Exec(argv: seq<Tok>)
    | Redir(cmd: Cmd, file: Tok, write: bool, fd: nat)
    | Pipe(left: Cmd, right: Cmd)
    | List(left: Cmd, right: Cmd)
    | Back(cmd: Cmd)

  datatype Target = Target(file: Tok, write: bool, fd: nat)

  /** Redirections, the first one innermost. */
  function Wrap(c: Cmd, rs: seq<Target>): Cmd {
    if rs == [] then c
    else
      var r := rs[|rs| - 1];
      Redir(Wrap(c, rs[..|rs| - 1]), r.file, r.write, r.fd)
  }

  function TargetOf(r: RedirT): Target {
    if r.op.kind == Sym(Lt) then Target(r.file.tok, false, 0) else Target(r.file.tok, true, 1)
  }

  function Targets(rs: seq<RedirT>): seq<Target> {
    if rs == [] then [] else Targets(rs[..|rs| - 1]) + [TargetOf(rs[|rs| - 1])]
  }

  lemma TargetsMore(rs: seq<RedirT>, r: RedirT)
    ensures Targets(rs + [r]) == Targets(rs) + [TargetOf(r)]
  {
    assert (rs + [r])[..|rs|] == rs;
  }

  // ----- The command a syntax tree stands for

  function ArgToks(xs: seq<ArgT>): seq<Tok> {
    if xs == [] then [] else ArgToks(xs[..|xs| - 1]) + [xs[|xs| - 1].arg.tok]
  }

  function ArgTargets(xs: seq<ArgT>): seq<Target> {
    if xs == [] then [] else ArgTargets(xs[..|xs| - 1]) + Targets(xs[|xs| - 1].redirs)
  }

  function Backs(c: Cmd, n: nat): Cmd { if n == 0 then c else Back(Backs(c, n - 1)) }

  function CmdE(e: ExecT): Cmd {
    match e
    case Simple(rs, xs) => Wrap(Exec(ArgToks(xs)), Targets(rs) + ArgTargets(xs))
    case Block(_, l, _, rs) => Wrap(CmdL(l), Targets(rs))
  }

  function CmdP(p: PipeT): Cmd {
    match p
    case Last(e) => CmdE(e)
    case Then(e, _, rest) => Pipe(CmdE(e), CmdP(rest))
  }

  function CmdL(l: LineT): Cmd {
    match l
    case End(p, amps) => Backs(CmdP(p), |amps|)
    case Seq(p, amps, _, rest) => List(Backs(CmdP(p), |amps|), CmdL(rest))
  }

  /** The line is a sentence of the shell's grammar, and c is the command its syntax tree stands for. */
  ghost predicate Denotes(b: seq<Ch>, c: Cmd)
    requires Line(b)
  {
    exists l :: LineOk(l) && YieldL(l) == Lex(b, 0) && c == CmdL(l)
  }
}
