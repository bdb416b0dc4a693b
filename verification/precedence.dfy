/** Operator precedence: an expression is parsed back from its text exactly when
    it has parentheses wherever the priority table asks for them. */
module Precedence {
  import opened Values

  datatype Opr =
    | ADD | SUB | MUL | DIV | MOD | POW | CONCAT | EQ | NE | LT | GE | GT | LE | AND | OR

  /** Tokens; `-` is SUB also where it is a sign. Operands are opaque. */
  datatype Tok = Atom(id: nat) | Op(op: Opr) | NotTok | LPar | RPar | Other

  datatype Uop = UNot | UMinus

  /** Expressions; Par is a pair of parentheses in the text. */
  datatype Tree = Leaf(id: nat) | Par(x: Tree) | Un(u: Uop, x: Tree) | Bin(op: Opr, l: Tree, r: Tree)

  const UNARY_PRIORITY: nat := 8
  const MAX_XLEVEL: nat := 200

  function Left(op: Opr): nat {
    match op
    case ADD => 6 case SUB => 6
    case MUL => 7 case DIV => 7 case MOD => 7
    case POW => 10 case CONCAT => 5
    case EQ => 3 case NE => 3 case LT => 3 case GE => 3 case GT => 3 case LE => 3
    case AND => 2 case OR => 1
  }

  /** POW and CONCAT associate to the right. */
  function Right(op: Opr): nat {
    match op
    case POW => 9
    case CONCAT => 4
    case _ => Left(op)
  }

  /** Left priority of the operator at the front, 0 if there is none. */
  function NextPri(ts: seq<Tok>): nat {
    if ts != [] && ts[0].Op? then Left(ts[0].op) else 0
  }

  // -- The parser ------------------------------------------------------------------------------

  /** expr_unop: a prefix operator with its operand, or a simple expression. */
  function ParseUnop(ts: seq<Tok>, level: nat): (r: Option<(Tree, seq<Tok>)>)
    ensures r.Some? ==> |r.value.1| < |ts|
    decreases |ts|, 0
  {
    if ts == [] then None
    else match ts[0]
      case Atom(id) => Some((Leaf(id), ts[1..]))
      case NotTok =>
        var (x, rest) :- ParseBinop(ts[1..], UNARY_PRIORITY, level);
        Some((Un(UNot, x), rest))
      case Op(op) =>
        if op != SUB then None
        else
          var (x, rest) :- ParseBinop(ts[1..], UNARY_PRIORITY, level);
          Some((Un(UMinus, x), rest))
      case LPar =>
        var (x, rest) :- ParseBinop(ts[1..], 0, level);
        if rest != [] && rest[0] == RPar then Some((Par(x), rest[1..])) else None
      case _ => None
  }

  /** expr_binop: an expression of operators with priority above the limit. */
  function ParseBinop(ts: seq<Tok>, limit: nat, level: nat): (r: Option<(Tree, seq<Tok>)>)
    ensures r.Some? ==> |r.value.1| < |ts|
    decreases |ts|, 2
  {
    if level + 1 >= MAX_XLEVEL then None
    else
      var (v, rest) :- ParseUnop(ts, level + 1);
      ParseLoop(v, rest, limit, level + 1)
  }

  /** The loop of expr_binop. */
  function ParseLoop(v: Tree, ts: seq<Tok>, limit: nat, level: nat): (r: Option<(Tree, seq<Tok>)>)
    ensures r.Some? ==> |r.value.1| <= |ts|
    decreases |ts|, 1
  {
    if ts != [] && ts[0].Op? && Left(ts[0].op) > limit then
      var (v2, rest) :- ParseBinop(ts[1..], Right(ts[0].op), level);
      ParseLoop(Bin(ts[0].op, v, v2), rest, limit, level)
    else Some((v, ts))
  }

  // -- The printer ------------------------------------------------------------------------------

  function UTok(u: Uop): Tok {
    match u case UNot => NotTok case UMinus => Op(SUB)
  }

  function Print(t: Tree): seq<Tok> {
    match t
    case Leaf(id) => [Atom(id)]
    case Par(x) => [LPar] + Print(x) + [RPar]
    case Un(u, x) => [UTok(u)] + Print(x)
    case Bin(op, l, r) => Print(l) + [Op(op)] + Print(r)
  }

  /** The top of t may stand without parentheses behind a limit and before an
      operator of left priority `next`. */
  predicate Bare(t: Tree, limit: nat, next: nat) {
    match t
    case Un(_, _) => next <= UNARY_PRIORITY
    case Bin(op, _, _) => Left(op) > limit && next <= Right(op)
    case _ => true
  }

  /** All parentheses that are needed are there. */
  predicate Enough(t: Tree, limit: nat, next: nat) {
    && Bare(t, limit, next)
    && match t
       case Leaf(_) => true
       case Par(x) => Enough(x, 0, 0)
       case Un(_, x) => Enough(x, UNARY_PRIORITY, next)
       case Bin(op, l, r) => Enough(l, limit, Left(op)) && Enough(r, Right(op), next)
  }

  /** How many nested calls of expr_binop a tree needs below the first. */
  function Need(t: Tree): nat {
    match t
    case Leaf(_) => 0
    case Par(x) => 1 + Need(x)
    case Un(_, x) => 1 + Need(x)
    case Bin(op, l, r) => Max(Need(l), 1 + Need(r))
  }

  function Max(a: nat, b: nat): nat {
    if a > b then a else b
  }

  // -- Text to tree -----------------------------------------------------------------------------------

  /** What a call of the parser comes to, if its level is allowed. */
  function Guarded(ok: bool, r: Option<(Tree, seq<Tok>)>): Option<(Tree, seq<Tok>)> {
    if ok then r else None
  }

  /** The parser on ts ends up in its loop with t in front of rest. */
  predicate Reaches(ts: seq<Tok>, t: Tree, limit: nat, rest: seq<Tok>, level: nat) {
    ParseBinop(ts, limit, level) ==
    Guarded(level + 1 + Need(t) < MAX_XLEVEL, ParseLoop(t, rest, limit, level + 1))
  }

  lemma LeafReaches(id: nat, limit: nat, rest: seq<Tok>, level: nat)
    ensures Reaches(Print(Leaf(id)) + rest, Leaf(id), limit, rest, level)
  {
    assert (Print(Leaf(id)) + rest)[1..] == rest;
  }

  lemma ParReaches(x: Tree, limit: nat, rest: seq<Tok>, level: nat)
    requires Reaches(Print(x) + ([RPar] + rest), x, 0, [RPar] + rest, level + 1)
    ensures Reaches(Print(Par(x)) + rest, Par(x), limit, rest, level)
  {
    var ts := Print(x) + ([RPar] + rest);
    assert Print(Par(x)) + rest == [LPar] + ts;
    assert ([LPar] + ts)[1..] == ts && ([RPar] + rest)[1..] == rest;
  }

  lemma UnReaches(u: Uop, x: Tree, limit: nat, rest: seq<Tok>, level: nat)
    requires NextPri(rest) <= UNARY_PRIORITY && Reaches(Print(x) + rest, x, UNARY_PRIORITY, rest, level + 1)
    ensures Reaches(Print(Un(u, x)) + rest, Un(u, x), limit, rest, level)
  {
    var ts := Print(x) + rest;
    assert Print(Un(u, x)) + rest == [UTok(u)] + ts;
    assert ([UTok(u)] + ts)[1..] == ts;
  }

  lemma BinReaches(op: Opr, l: Tree, r: Tree, limit: nat, rest: seq<Tok>, level: nat)
    requires Left(op) > limit && NextPri(rest) <= Right(op)
    requires Reaches(Print(l) + ([Op(op)] + (Print(r) + rest)), l, limit, [Op(op)] + (Print(r) + rest), level)
    requires Reaches(Print(r) + rest, r, Right(op), rest, level + 1)
    ensures Reaches(Print(Bin(op, l, r)) + rest, Bin(op, l, r), limit, rest, level)
  {
    hide ParseUnop;
    var mid := [Op(op)] + (Print(r) + rest);
    assert Print(Bin(op, l, r)) + rest == Print(l) + mid;
    assert mid[1..] == Print(r) + rest;
    assert ParseLoop(r, rest, Right(op), level + 2) == Some((r, rest));
  }

  /** After the tokens of t, the parser is in its loop with t. */
  lemma {:induction false} PrintedParses(t: Tree, limit: nat, rest: seq<Tok>, level: nat)
    requires Enough(t, limit, NextPri(rest))
    ensures Reaches(Print(t) + rest, t, limit, rest, level)
    decreases t
  {
    hide Reaches;
    match t
    case Leaf(id) =>
      LeafReaches(id, limit, rest, level);
    case Par(x) =>
      PrintedParses(x, 0, [RPar] + rest, level + 1);
      ParReaches(x, limit, rest, level);
    case Un(u, x) =>
      PrintedParses(x, UNARY_PRIORITY, rest, level + 1);
      UnReaches(u, x, limit, rest, level);
    case Bin(op, l, r) =>
      PrintedParses(l, limit, [Op(op)] + (Print(r) + rest), level);
      PrintedParses(r, Right(op), rest, level + 1);
      BinReaches(op, l, r, limit, rest, level);
  }

  // -- Parsed trees ---------------------------------------------------------------------------------

  /** Whatever the parser returns has enough parentheses, and it stops at an
      operator of no more than its limit. */
  lemma {:induction false} ParsedEnough(ts: seq<Tok>, limit: nat, level: nat)
    ensures var r := ParseBinop(ts, limit, level);
            r.Some? ==> NextPri(r.value.1) <= limit && Enough(r.value.0, limit, NextPri(r.value.1))
    decreases |ts|, 2
  {
    if level + 1 < MAX_XLEVEL && ParseUnop(ts, level + 1).Some? {
      UnopEnough(ts, limit, level + 1);
      var (v, rest) := ParseUnop(ts, level + 1).value;
      LoopEnough(v, rest, limit, level + 1);
    }
  }

  lemma {:induction false} UnopEnough(ts: seq<Tok>, limit: nat, level: nat)
    ensures var r := ParseUnop(ts, level); r.Some? ==> Enough(r.value.0, limit, NextPri(r.value.1))
    decreases |ts|, 0
  {
    if ts != [] {
      ParsedEnough(ts[1..], if ts[0] == LPar then 0 else UNARY_PRIORITY, level);
    }
  }

  lemma {:induction false} LoopEnough(v: Tree, ts: seq<Tok>, limit: nat, level: nat)
    requires Enough(v, limit, NextPri(ts))
    ensures var r := ParseLoop(v, ts, limit, level);
            r.Some? ==> NextPri(r.value.1) <= limit && Enough(r.value.0, limit, NextPri(r.value.1))
    decreases |ts|, 1
  {
    if ts != [] && ts[0].Op? && Left(ts[0].op) > limit {
      var op := ts[0].op;
      ParsedEnough(ts[1..], Right(op), level);
      if ParseBinop(ts[1..], Right(op), level).Some? {
        var (v2, rest) := ParseBinop(ts[1..], Right(op), level).value;
        LoopEnough(Bin(op, v, v2), rest, limit, level);
      }
    }
  }

  /** The text of a tree is parsed back to the tree, all of it, if and only if it
      has enough parentheses and its nesting stays below the limit. */
  lemma ParsedBack(t: Tree, level: nat)
    ensures ParseBinop(Print(t), 0, level) == Some((t, [])) <==> Enough(t, 0, 0) && level + 1 + Need(t) < MAX_XLEVEL
  {
    hide ParseBinop, Print, Need;
    assert Print(t) + [] == Print(t);
    if Enough(t, 0, 0) {
      PrintedParses(t, 0, [], level);
    }
    ParsedEnough(Print(t), 0, level);
  }

  // -- Adding parentheses -----------------------------------------------------------------------------

  /** Parentheses where they are missing, and nowhere else. */
  function Parens(t: Tree, limit: nat, next: nat): Tree
    decreases t, 1
  {
    if Bare(t, limit, next) then Inside(t, limit, next) else Par(Inside(t, 0, 0))
  }

  function Inside(t: Tree, limit: nat, next: nat): Tree
    decreases t, 0
  {
    match t
    case Leaf(_) => t
    case Par(x) => Par(Parens(x, 0, 0))
    case Un(u, x) => Un(u, Parens(x, UNARY_PRIORITY, next))
    case Bin(op, l, r) => Bin(op, Parens(l, limit, Left(op)), Parens(r, Right(op), next))
  }

  /** A tree without its parentheses. */
  function Strip(t: Tree): Tree {
    match t
    case Leaf(_) => t
    case Par(x) => Strip(x)
    case Un(u, x) => Un(u, Strip(x))
    case Bin(op, l, r) => Bin(op, Strip(l), Strip(r))
  }

  lemma {:induction false} ParensEnough(t: Tree, limit: nat, next: nat)
    ensures Enough(Parens(t, limit, next), limit, next) && Strip(Parens(t, limit, next)) == Strip(t)
    ensures Enough(t, limit, next) ==> Parens(t, limit, next) == t
    decreases t, 1
  {
    if Bare(t, limit, next) { InsideEnough(t, limit, next); } else { InsideEnough(t, 0, 0); }
  }

  lemma {:induction false} InsideEnough(t: Tree, limit: nat, next: nat)
    requires Bare(t, limit, next)
    ensures Enough(Inside(t, limit, next), limit, next) && Strip(Inside(t, limit, next)) == Strip(t)
    ensures Enough(t, limit, next) ==> Inside(t, limit, next) == t
    decreases t, 0
  {
    match t
    case Leaf(_) =>
    case Par(x) => ParensEnough(x, 0, 0);
    case Un(u, x) => ParensEnough(x, UNARY_PRIORITY, next);
    case Bin(op, l, r) =>
      ParensEnough(l, limit, Left(op));
      ParensEnough(r, Right(op), next);
  }

  /** Any tree survives printing with added parentheses and parsing. */
  lemma ParseUndoesPrint(t: Tree, level: nat)
    requires level + 1 + Need(Parens(t, 0, 0)) < MAX_XLEVEL
    ensures ParseBinop(Print(Parens(t, 0, 0)), 0, level) == Some((Parens(t, 0, 0), []))
    ensures Strip(Parens(t, 0, 0)) == Strip(t)
  {
    hide ParseBinop, Print, Need, Parens, Enough;
    ParensEnough(t, 0, 0);
    ParsedBack(Parens(t, 0, 0), level);
  }
}
