/** How operators group, as the language defines it: seven groups, from `or` to `^`,
    each of them binding to one side. The priority table gives the same grouping. */
module Grouping {
  import opened Values
  import opened Precedence

  // -- The groups --------------------------------------------------------------------------

  /** The groups from the loosest to the tightest: or; and; comparisons; ..; + -;
      * / %; ^. */
  function Group(op: Opr): nat {
    if op == OR then 0
    else if op == AND then 1
    else if op in {EQ, NE, LT, GE, GT, LE} then 2
    else if op == CONCAT then 3
    else if op in {ADD, SUB} then 4
    else if op in {MUL, DIV, MOD} then 5
    else 6
  }

  /** Whether `a p b q c` means `(a p b) q c`: p is of the tighter group, or both are
      of one group that binds to the left. Otherwise it means `a p (b q c)`. */
  predicate LeftFirst(p: Opr, q: Opr) {
    Group(p) > Group(q) || (Group(p) == Group(q) && p != CONCAT && p != POW)
  }

  // -- Trees that need no further parentheses ------------------------------------------------

  /** Operators whose left operand begins the text of t. */
  function Opens(t: Tree): set<Opr> {
    match t
    case Bin(op, l, _) => {op} + Opens(l)
    case _ => {}
  }

  /** Operators whose right operand ends the text of t. */
  function Closes(t: Tree): set<Opr> {
    match t
    case Bin(op, _, r) => {op} + Closes(r)
    case Un(_, x) => Closes(x)
    case _ => {}
  }

  /** The text of t ends with the operand of a prefix operator. */
  predicate ClosesPrefix(t: Tree) {
    match t
    case Bin(_, _, r) => ClosesPrefix(r)
    case Un(_, _) => true
    case _ => false
  }

  /** Wherever two operators meet without a parenthesis between them, the one that
      goes first takes the operand. A prefix operator goes before all but ^. */
  predicate Grouped(t: Tree) {
    match t
    case Leaf(_) => true
    case Par(x) => Grouped(x)
    case Un(_, x) => Grouped(x) && forall q :: q in Opens(x) ==> q == POW
    case Bin(op, l, r) =>
      && Grouped(l) && Grouped(r)
      && (forall p :: p in Closes(l) ==> LeftFirst(p, op))
      && (ClosesPrefix(l) ==> op != POW)
      && (forall q :: q in Opens(r) ==> !LeftFirst(op, q))
  }

  // -- The priority table -----------------------------------------------------------------------

  lemma TableGroups(p: Opr, q: Opr)
    ensures LeftFirst(p, q) <==> Left(q) <= Right(p)
    ensures q == POW <==> Left(q) > UNARY_PRIORITY
    ensures Left(p) > 0
  {
  }

  /** Enough parentheses for a limit and a following priority. */
  predicate Fitting(t: Tree, limit: nat, next: nat) {
    && Grouped(t)
    && (forall q :: q in Opens(t) ==> Left(q) > limit)
    && (forall p :: p in Closes(t) ==> next <= Right(p))
    && (ClosesPrefix(t) ==> next <= UNARY_PRIORITY)
  }

  lemma {:induction false} EnoughIsFitting(t: Tree, limit: nat, next: nat)
    ensures Enough(t, limit, next) <==> Fitting(t, limit, next)
  {
    match t
    case Leaf(_) =>
    case Par(x) =>
      EnoughIsFitting(x, 0, 0);
      AnyLimit(x);
    case Un(_, x) =>
      EnoughIsFitting(x, UNARY_PRIORITY, next);
      forall q | q in Opens(x) ensures q == POW <==> Left(q) > UNARY_PRIORITY { TableGroups(q, q); }
    case Bin(op, l, r) =>
      EnoughIsFitting(l, limit, Left(op));
      EnoughIsFitting(r, Right(op), next);
      BinFitting(op, l, r, limit, next);
  }

  lemma AnyLimit(t: Tree)
    ensures Fitting(t, 0, 0) <==> Grouped(t)
  {
    forall q | q in Opens(t) ensures Left(q) > 0 { TableGroups(q, q); }
  }

  lemma BinFitting(op: Opr, l: Tree, r: Tree, limit: nat, next: nat)
    ensures Fitting(Bin(op, l, r), limit, next) <==>
              && Left(op) > limit && next <= Right(op)
              && Fitting(l, limit, Left(op)) && Fitting(r, Right(op), next)
  {
    hide LeftFirst, Left, Right, Grouped;
    forall p | p in Closes(l) ensures LeftFirst(p, op) <==> Left(op) <= Right(p) { TableGroups(p, op); }
    forall q | q in Opens(r) ensures LeftFirst(op, q) <==> Left(q) <= Right(op) { TableGroups(op, q); }
    TableGroups(op, op);
    GroupedBin(op, l, r);
  }

  lemma GroupedBin(op: Opr, l: Tree, r: Tree)
    ensures Grouped(Bin(op, l, r)) <==>
              && Grouped(l) && Grouped(r)
              && (forall p :: p in Closes(l) ==> LeftFirst(p, op))
              && (ClosesPrefix(l) ==> op != POW)
              && (forall q :: q in Opens(r) ==> !LeftFirst(op, q))
  {
  }

  // -- The parser ----------------------------------------------------------------------------------

  lemma OneOperator(a: nat, p: Opr, b: nat)
    ensures var t := Bin(p, Leaf(a), Leaf(b));
            && Print(t) == [Atom(a), Op(p), Atom(b)] && Need(t) == 1
            && Grouped(t) && Opens(t) == {p} && Closes(t) == {p} && !ClosesPrefix(t)
  {
    assert Print(Leaf(a)) == [Atom(a)] && Print(Leaf(b)) == [Atom(b)];
  }

  lemma OnePrefix(u: Uop, a: nat)
    ensures var t := Un(u, Leaf(a));
            && Print(t) == [if u == UNot then NotTok else Op(SUB), Atom(a)] && Need(t) == 1
            && Grouped(t) && Opens(t) == {} && Closes(t) == {} && ClosesPrefix(t)
  {
    assert Print(Leaf(a)) == [Atom(a)];
  }

  /** The text of a tree is parsed back to the tree if and only if its operators are
      grouped as the language says and its nesting stays below the limit. */
  lemma ParserGroups(t: Tree, level: nat)
    ensures ParseBinop(Print(t), 0, level) == Some((t, [])) <==> Grouped(t) && level + 1 + Need(t) < 200
  {
    hide ParseBinop, Print, Need, Grouped, Enough, Fitting;
    ParsedBack(t, level);
    EnoughIsFitting(t, 0, 0);
    AnyLimit(t);
  }

  /** A single token, or anything in parentheses that is grouped itself. */
  predicate IsOperand(t: Tree) {
    t.Leaf? || (t.Par? && Grouped(t.x))
  }

  /** Two operators between three operands: the tree the groups ask for. */
  function ByGroups(a: Tree, p: Opr, b: Tree, q: Opr, c: Tree): Tree {
    if LeftFirst(p, q) then Bin(q, Bin(p, a, b), c) else Bin(p, a, Bin(q, b, c))
  }

  lemma TwoOperators(a: Tree, p: Opr, b: Tree, q: Opr, c: Tree, level: nat)
    requires IsOperand(a) && IsOperand(b) && IsOperand(c)
    ensures ParseBinop(Print(a) + [Op(p)] + Print(b) + [Op(q)] + Print(c), 0, level) ==
            Some((ByGroups(a, p, b, q, c), [])) <==>
              level + 1 + Need(ByGroups(a, p, b, q, c)) < 200
  {
    hide ParseBinop, LeftFirst, Need;
    var t := ByGroups(a, p, b, q, c);
    OperandGroups(a);
    OperandGroups(b);
    OperandGroups(c);
    GroupedBin(p, a, b);
    GroupedBin(q, b, c);
    ParserGroups(t, level);
    if LeftFirst(p, q) {
      GroupedBin(q, Bin(p, a, b), c);
      assert Print(t) == Print(a) + [Op(p)] + Print(b) + [Op(q)] + Print(c);
    } else {
      GroupedBin(p, a, Bin(q, b, c));
      assert Print(t) == Print(a) + [Op(p)] + (Print(b) + [Op(q)] + Print(c));
      assert Print(t) == Print(a) + [Op(p)] + Print(b) + [Op(q)] + Print(c);
    }
  }

  lemma OperandGroups(t: Tree)
    requires IsOperand(t)
    ensures Grouped(t) && Opens(t) == {} && Closes(t) == {} && !ClosesPrefix(t)
  {
  }

  /** Between single tokens. */
  lemma TwoOperatorTokens(a: nat, p: Opr, b: nat, q: Opr, c: nat, level: nat)
    requires level + 3 < 200
    ensures ParseBinop([Atom(a), Op(p), Atom(b), Op(q), Atom(c)], 0, level) ==
            Some((if LeftFirst(p, q) then Bin(q, Bin(p, Leaf(a), Leaf(b)), Leaf(c))
                  else Bin(p, Leaf(a), Bin(q, Leaf(b), Leaf(c))), []))
  {
    hide ParseBinop, LeftFirst;
    TwoOperators(Leaf(a), p, Leaf(b), q, Leaf(c), level);
    OneOperator(a, p, b);
    OneOperator(b, q, c);
    assert Print(Leaf(a)) + [Op(p)] + Print(Leaf(b)) + [Op(q)] + Print(Leaf(c)) ==
           [Atom(a), Op(p), Atom(b), Op(q), Atom(c)];
  }

  /** A prefix operator takes what ^ makes of its operand, and only the operand before
      any other operator; behind an operator it belongs to the right operand. */
  lemma PrefixOperators(u: Uop, a: nat, p: Opr, b: nat, level: nat)
    requires level + 3 < 200
    ensures var ut := if u == UNot then NotTok else Op(SUB);
            && ParseBinop([ut, Atom(a), Op(p), Atom(b)], 0, level) ==
               Some((if p == POW then Un(u, Bin(p, Leaf(a), Leaf(b))) else Bin(p, Un(u, Leaf(a)), Leaf(b)), []))
            && ParseBinop([Atom(a), Op(p), ut, Atom(b)], 0, level) == Some((Bin(p, Leaf(a), Un(u, Leaf(b))), []))
  {
    hide ParseBinop, LeftFirst;
    OneOperator(a, p, b);
    OnePrefix(u, a);
    OnePrefix(u, b);
    var ut := if u == UNot then NotTok else Op(SUB);
    var t := if p == POW then Un(u, Bin(p, Leaf(a), Leaf(b))) else Bin(p, Un(u, Leaf(a)), Leaf(b));
    var s := Bin(p, Leaf(a), Un(u, Leaf(b)));
    assert Print(t) == [ut, Atom(a), Op(p), Atom(b)];
    assert Print(s) == [Atom(a), Op(p), ut, Atom(b)];
    ParserGroups(t, level);
    ParserGroups(s, level);
  }
}
