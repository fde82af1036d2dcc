/** Characters and tokens of a command line, as sh.c's gettoken tells them apart. */
module ShellLex {

  // ----- The line

  /** A character, by the classes the lexer tells apart. */
  datatype Ch = Nul | Space(c: char) | Lt | Bar | Gt | Amp | Semi | LParen | RParen | Letter(c: char)

  predicate IsSymbol(c: Ch) { !c.Nul? && !c.Space? && !c.Letter? }

  function Classify(c: char): Ch {
    if c == '\0' then Nul
    else if c in [' ', '\t', '\r', '\n', 11 as char] then Space(c)
    else if c == '<' then Lt
    else if c == '|' then Bar
    else if c == '>' then Gt
    else if c == '&' then Amp
    else if c == ';' then Semi
    else if c == '(' then LParen
    else if c == ')' then RParen
    else Letter(c)
  }

  /** What each character is to the lexer: one of five kinds of white space, one of seven symbols, the end
      of the line, or part of a word. Nothing is lost. */
  lemma ClassifyIs(c: char, d: char)
    ensures Classify('<') == Lt && Classify('>') == Gt && Classify('|') == Bar && Classify('&') == Amp
    ensures Classify(';') == Semi && Classify('(') == LParen && Classify(')') == RParen && Classify('\0') == Nul
    ensures Classify(c).Space? <==> c in {' ', '\t', '\r', '\n', 11 as char}
    ensures IsSymbol(Classify(c)) <==> c in {'<', '|', '>', '&', ';', '(', ')'}
    ensures Classify(c) == Classify(d) ==> c == d
  {}

  /** A C string with its terminator. */
  predicate Line(b: seq<Ch>) {
    |b| > 0 && b[|b| - 1] == Nul && forall i | 0 <= i < |b| - 1 :: b[i] != Nul
  }

  /** es - s */
  function Len(b: seq<Ch>): nat
    requires |b| > 0
  {
    |b| - 1
  }

  function Skip(b: seq<Ch>, i: nat): (j: nat)
    requires |b| > 0 && i <= Len(b)
    ensures i <= j <= Len(b) && (j < Len(b) ==> !b[j].Space?) && forall k | i <= k < j :: b[k].Space?
    decreases |b| - i
  {
    if i < Len(b) && b[i].Space? then Skip(b, i + 1) else i
  }

  function WordEnd(b: seq<Ch>, i: nat): (j: nat)
    requires |b| > 0 && i <= Len(b)
    ensures i <= j <= Len(b) && (j < Len(b) ==> !b[j].Letter?) && forall k | i <= k < j :: b[k].Letter?
    decreases |b| - i
  {
    if i < Len(b) && b[i].Letter? then WordEnd(b, i + 1) else i
  }

  /** A token as two pointers into the line. */
  datatype Tok = Tok(q: nat, eq: nat)

  /** t is a whole word: letters from q on, and none at its end. */
  predicate Whole(b: seq<Ch>, t: Tok) {
    && t.q < t.eq < |b| && !b[t.eq].Letter?
    && (forall k | t.q <= k < t.eq :: b[k].Letter?)
  }

  // ----- Tokens

  /** What gettoken returns: the symbol, `More` for >>, `Arg` for a word, `None` at the end. */
  datatype Token = None | Sym(c: Ch) | More | Arg

  function Kind(b: seq<Ch>, q: nat): Token
    requires q < |b|
  {
    match b[q]
    case Nul => None
    case Space(_) => Arg
    case Letter(_) => Arg
    case Gt => if q + 1 < |b| && b[q + 1].Gt? then More else Sym(Gt)
    case _ => Sym(b[q])
  }

  function TokEnd(b: seq<Ch>, q: nat): (eq: nat)
    requires |b| > 0 && q <= Len(b)
  {
    match Kind(b, q)
    case None => q
    case More => q + 2
    case Arg => WordEnd(b, q)
    case Sym(_) => q + 1
  }

  /** A token with its place in the line. */
  datatype Lexeme = Lx(kind: Token, tok: Tok)

  lemma TokenSpan(b: seq<Ch>, q: nat)
    requires Line(b) && q <= Len(b) && !b[q].Space?
    ensures var eq := TokEnd(b, q);
            && q <= eq <= Len(b) && (Kind(b, q) != None ==> q < eq) && (Kind(b, q) == Arg ==> Whole(b, Tok(q, eq)))
            && (Kind(b, q) != Arg && eq > q ==> !b[eq - 1].Letter?)
  {}

  /** The tokens from position i on, one call of gettoken after the other. */
  function Lex(b: seq<Ch>, i: nat): seq<Lexeme>
    requires Line(b) && i <= Len(b)
    decreases |b| - i
  {
    var q := Skip(b, i);
    if Kind(b, q) == None then []
    else
      TokenSpan(b, q);
      [Lx(Kind(b, q), Tok(q, TokEnd(b, q)))] + Lex(b, TokEnd(b, q))
  }

  lemma {:induction false} SkipTwice(b: seq<Ch>, i: nat)
    requires |b| > 0 && i <= Len(b)
    ensures Skip(b, Skip(b, i)) == Skip(b, i)
    decreases |b| - i
  {
    if i < Len(b) && b[i].Space? {
      SkipTwice(b, i + 1);
    }
  }

  /** White space between tokens does not matter. */
  lemma LexSkips(b: seq<Ch>, i: nat)
    requires Line(b) && i <= Len(b)
    ensures Lex(b, Skip(b, i)) == Lex(b, i)
  {
    SkipTwice(b, i);
  }

  /** What the lexer sees from the cursor on. */
  lemma NextToken(b: seq<Ch>, ps: nat)
    requires Line(b) && ps <= Len(b)
    ensures var q := Skip(b, ps); var eq := TokEnd(b, q);
            && q <= eq <= Len(b)
            && Lex(b, ps) == (if Kind(b, q) == None then [] else [Lx(Kind(b, q), Tok(q, eq))] + Lex(b, Skip(b, eq)))
            && (Kind(b, q) == None ==> Lex(b, Skip(b, eq)) == [])
  {
    var q := Skip(b, ps);
    TokenSpan(b, q);
    LexSkips(b, TokEnd(b, q));
    LexSkips(b, ps);
  }
}
