/** What the operators of the language mean, in plain terms: integers with their
    usual operations cut to 64 bits, and nil and false as the only false values. */
module Meaning {
  import opened Values
  import opened ExprCode
  import opened Emitter
  import opened EmitOps
  import opened ExprTheorem
  import P = Precedence
  import OnePass
  import Grouping

  // -- Expressions -------------------------------------------------------------------------

  /** r is the number n cut to 64 bits. */
  predicate IsNum(r: Option<Val>, n: int) {
    r.Some? && r.value.Num? && Fits64(r.value.n, n)
  }

  predicate IsBool(r: Option<Val>, b: bool) {
    r == Some(if b then True else False)
  }

  /** r is what + - * and the comparisons make of v and w: numbers are added,
      subtracted, multiplied and ordered, anything else is an error; all values can be
      compared for equality. */
  predicate Makes(op: BinOp, v: Val, w: Val, r: Option<Val>) {
    if op.OpEq? then IsBool(r, if op.ne then v != w else v == w)
    else if !v.Num? || !w.Num? then r == None
    else match op
      case OpArith(Add) => IsNum(r, v.n + w.n)
      case OpArith(Sub) => IsNum(r, v.n - w.n)
      case OpArith(Mul) => IsNum(r, v.n * w.n)
      case OpOrd(LT) => IsBool(r, v.n < w.n)
      case OpOrd(GE) => IsBool(r, v.n >= w.n)
      case OpOrd(LE) => IsBool(r, v.n <= w.n)
      case OpOrd(GT) => IsBool(r, v.n > w.n)
      case _ => true
  }

  lemma ArithMakes(op: ArithOp, v: Val, w: Val)
    ensures Makes(OpArith(op), v, w, BinVal(OpArith(op), v, w))
  {
    if v.Num? && w.Num? {
      var n := match op case Add => v.n + w.n case Sub => v.n - w.n case Mul => v.n * w.n;
      WrapFits(n);
    }
  }

  lemma ValuesMake(op: BinOp, v: Val, w: Val)
    requires !op.OpAnd? && !op.OpOr?
    ensures Makes(op, v, w, BinVal(op, v, w))
  {
    if op.OpArith? { ArithMakes(op.aop, v, w); }
  }

  lemma NegationMakes(v: Val)
    ensures if v.Num? then IsNum(NegVal(v), -v.n) else NegVal(v) == None
  {
    if v.Num? { WrapFits(-v.n); }
  }

  /** Arithmetic and comparisons. */
  lemma BinaryMeans(op: BinOp, l: Expr, r: Expr, R: Regs)
    requires !op.OpAnd? && !op.OpOr? && Eval(l, R).Some? && Eval(r, R).Some?
    ensures Makes(op, Eval(l, R).value, Eval(r, R).value, Eval(EBin(op, l, r), R))
  {
    hide Makes, BinVal;
    ValuesMake(op, Eval(l, R).value, Eval(r, R).value);
  }

  /** `and` and `or` give one of their operands; the right one is not looked at, nor
      may it fail, where the left one decides. */
  lemma LogicMeans(l: Expr, r: Expr, R: Regs)
    requires Eval(l, R).Some?
    ensures var v := Eval(l, R).value;
            if v == Nil || v == False then
              Eval(EBin(OpAnd, l, r), R) == Some(v) && Eval(EBin(OpOr, l, r), R) == Eval(r, R)
            else
              Eval(EBin(OpAnd, l, r), R) == Eval(r, R) && Eval(EBin(OpOr, l, r), R) == Some(v)
  {
  }

  /** Prefix operators, parentheses and operands. */
  lemma UnaryMeans(x: Expr, R: Regs)
    requires Eval(x, R).Some?
    ensures var v := Eval(x, R).value;
            && IsBool(Eval(ENot(x), R), v == Nil || v == False)
            && (if v.Num? then IsNum(Eval(ENeg(x), R), -v.n) else Eval(ENeg(x), R) == None)
            && Eval(EParen(x), R) == Some(v)
  {
    hide IsNum, NegVal;
    NegationMakes(Eval(x, R).value);
  }

  /** An error in an operand that is looked at is an error. */
  lemma ErrorMeans(l: Expr, r: Expr, R: Regs, op: BinOp)
    ensures Eval(l, R) == None ==>
              && Eval(EBin(op, l, r), R) == None
              && Eval(ENot(l), R) == None && Eval(ENeg(l), R) == None && Eval(EParen(l), R) == None
    ensures Eval(r, R) == None && !op.OpAnd? && !op.OpOr? ==> Eval(EBin(op, l, r), R) == None
  {
  }

  // -- Operators as they are written ------------------------------------------------------------

  /** The value of a parsed expression. */
  function Value(leaf: nat -> Expr, t: P.Tree, R: Regs): Option<Val>
    requires OnePass.Supported(t)
  {
    Eval(OnePass.ToExpr(leaf, t), R)
  }

  /** r is what the operator written p makes of v and w. */
  predicate WrittenMakes(p: P.Opr, v: Val, w: Val, r: Option<Val>) {
    if p == P.EQ then IsBool(r, v == w)
    else if p == P.NE then IsBool(r, v != w)
    else if p == P.AND then r == Some(if v == Nil || v == False then v else w)
    else if p == P.OR then r == Some(if v == Nil || v == False then w else v)
    else if !v.Num? || !w.Num? then r == None
    else if p == P.ADD then IsNum(r, v.n + w.n)
    else if p == P.SUB then IsNum(r, v.n - w.n)
    else if p == P.MUL then IsNum(r, v.n * w.n)
    else if p == P.LT then IsBool(r, v.n < w.n)
    else if p == P.GE then IsBool(r, v.n >= w.n)
    else if p == P.GT then IsBool(r, v.n > w.n)
    else p == P.LE && IsBool(r, v.n <= w.n)
  }

  /** Each binary operator token stands for its operation; DIV, MOD, POW and CONCAT are
      the ones no code is emitted for. */
  lemma WrittenMeans(leaf: nat -> Expr, p: P.Opr, l: P.Tree, r: P.Tree, R: Regs)
    requires OnePass.Supported(l) && OnePass.Supported(r)
    ensures OnePass.Supported(P.Bin(p, l, r)) <==> p !in {P.DIV, P.MOD, P.POW, P.CONCAT}
    ensures OnePass.Supported(P.Bin(p, l, r)) && Value(leaf, l, R).Some? && Value(leaf, r, R).Some? ==>
              WrittenMakes(p, Value(leaf, l, R).value, Value(leaf, r, R).value, Value(leaf, P.Bin(p, l, r), R))
  {
    hide Eval, IsNum;
    if p !in {P.DIV, P.MOD, P.POW, P.CONCAT} && Value(leaf, l, R).Some? && Value(leaf, r, R).Some? {
      var (x, y) := (OnePass.ToExpr(leaf, l), OnePass.ToExpr(leaf, r));
      if p == P.AND || p == P.OR {
        LogicMeans(x, y, R);
      } else {
        BinaryMeans(OnePass.OpOf(p).value, x, y, R);
      }
    }
  }

  /** So do `not` and the sign; parentheses change nothing. */
  lemma PrefixMeans(leaf: nat -> Expr, x: P.Tree, R: Regs)
    requires OnePass.Supported(x) && Value(leaf, x, R).Some?
    ensures var v := Value(leaf, x, R).value;
            && IsBool(Value(leaf, P.Un(P.UNot, x), R), v == Nil || v == False)
            && (if v.Num? then IsNum(Value(leaf, P.Un(P.UMinus, x), R), -v.n)
                else Value(leaf, P.Un(P.UMinus, x), R) == None)
            && Value(leaf, P.Par(x), R) == Some(v)
  {
    hide Eval, IsNum;
    UnaryMeans(OnePass.ToExpr(leaf, x), R);
  }

  /** An operator token between two operands: what the parser makes of it, and what
      that means. */
  lemma TextMeans(leaf: nat -> Expr, i: nat, p: P.Opr, j: nat, level: nat, R: Regs)
    requires level + 2 < 200 && p !in {P.DIV, P.MOD, P.POW, P.CONCAT}
    requires Eval(leaf(i), R).Some? && Eval(leaf(j), R).Some?
    ensures var t := P.Bin(p, P.Leaf(i), P.Leaf(j));
            && P.ParseBinop([P.Atom(i), P.Op(p), P.Atom(j)], 0, level) == Some((t, [])) && OnePass.Supported(t)
            && WrittenMakes(p, Eval(leaf(i), R).value, Eval(leaf(j), R).value, Value(leaf, t, R))
  {
    hide Eval, IsNum, P.ParseBinop;
    var t := P.Bin(p, P.Leaf(i), P.Leaf(j));
    Grouping.OneOperator(i, p, j);
    Grouping.ParserGroups(t, level);
    assert OnePass.ToExpr(leaf, P.Leaf(i)) == leaf(i) && OnePass.ToExpr(leaf, P.Leaf(j)) == leaf(j);
    WrittenMeans(leaf, p, P.Leaf(i), P.Leaf(j), R);
  }
}
