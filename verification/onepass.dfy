/** The expression parser as it runs: one pass over the tokens that emits code
    while it climbs through the operator priorities. */
module OnePass {
  import opened Values
  import opened ExprCode
  import opened Emitter
  import opened EmitProof
  import opened ExprTheorem
  import opened JumpList
  import opened FuncStates
  import CompiledCode
  import P = Precedence

  /** The operators code is emitted for. */
  function OpOf(op: P.Opr): Option<BinOp> {
    match op
    case ADD => Some(OpArith(Add)) case SUB => Some(OpArith(Sub)) case MUL => Some(OpArith(Mul))
    case EQ => Some(OpEq(false)) case NE => Some(OpEq(true))
    case LT => Some(OpOrd(CmpOp.LT)) case GE => Some(OpOrd(CmpOp.GE))
    case GT => Some(OpOrd(CmpOp.GT)) case LE => Some(OpOrd(CmpOp.LE))
    case AND => Some(OpAnd) case OR => Some(OpOr)
    case DIV => None case MOD => None case POW => None case CONCAT => None
  }

  predicate Supported(t: P.Tree) {
    match t
    case Leaf(_) => true
    case Par(x) => Supported(x)
    case Un(_, x) => Supported(x)
    case Bin(op, l, r) => OpOf(op).Some? && Supported(l) && Supported(r)
  }

  /** The expression a tree stands for. */
  function ToExpr(leaf: nat -> Expr, t: P.Tree): Expr
    requires Supported(t)
  {
    match t
    case Leaf(id) => leaf(id)
    case Par(x) => EParen(ToExpr(leaf, x))
    case Un(u, x) => if u.UNot? then ENot(ToExpr(leaf, x)) else ENeg(ToExpr(leaf, x))
    case Bin(op, l, r) => EBin(OpOf(op).value, ToExpr(leaf, l), ToExpr(leaf, r))
  }

  /** Operands are constants and locals. */
  predicate IsLeaf(x: Expr) {
    (x.EConst? && !x.k.Obj?) || (x.ELocal? && x.r < MAX_SLOTS)
  }

  ghost predicate LeavesOk(leaf: nat -> Expr) {
    forall id :: IsLeaf(leaf(id))
  }

  // -- Input that is not accepted ---------------------------------------------------------------

  /** A syntax error, or an operator no code is emitted for. */
  predicate Refused(r: Option<(P.Tree, seq<P.Tok>)>) {
    r.None? || !Supported(r.value.0)
  }

  predicate Unclosed(r: Option<(P.Tree, seq<P.Tok>)>) {
    Refused(r) || r.value.1 == [] || r.value.1[0] != P.RPar
  }

  /** The operator in front, or its right operand, is not accepted. */
  predicate StopsAt(ts: seq<P.Tok>, level: nat) {
    ts != [] && ts[0].Op? && (OpOf(ts[0].op).None? || Refused(P.ParseBinop(ts[1..], P.Right(ts[0].op), level)))
  }

  /** What is refused inside an expression is refused for the whole of it. */
  lemma {:induction false} LoopRefuses(v: P.Tree, ts: seq<P.Tok>, limit: nat, level: nat)
    requires !Supported(v)
    ensures Refused(P.ParseLoop(v, ts, limit, level))
    decreases |ts|
  {
    if ts != [] && ts[0].Op? && P.Left(ts[0].op) > limit {
      var r := P.ParseBinop(ts[1..], P.Right(ts[0].op), level);
      if r.Some? {
        LoopRefuses(P.Bin(ts[0].op, v, r.value.0), r.value.1, limit, level);
      }
    }
  }

  lemma FirstRefuses(ts: seq<P.Tok>, limit: nat, level: nat)
    requires level + 1 >= P.MAX_XLEVEL || Refused(P.ParseUnop(ts, level + 1))
    ensures Refused(P.ParseBinop(ts, limit, level))
  {
    hide P.ParseUnop;
    var r := P.ParseUnop(ts, level + 1);
    if level + 1 < P.MAX_XLEVEL && r.Some? { LoopRefuses(r.value.0, r.value.1, limit, level + 1); }
  }

  lemma StepRefuses(v: P.Tree, ts: seq<P.Tok>, limit: nat, level: nat)
    requires StopsAt(ts, level) && P.Left(ts[0].op) > limit
    ensures Refused(P.ParseLoop(v, ts, limit, level))
  {
    var r := P.ParseBinop(ts[1..], P.Right(ts[0].op), level);
    if r.Some? {
      LoopRefuses(P.Bin(ts[0].op, v, r.value.0), r.value.1, limit, level);
    }
  }

  // -- The parser ----------------------------------------------------------------------------------

  class Parser {
    const toks: seq<P.Tok>
    var pos: nat
    var level: nat

    predicate Valid()
      reads this
    {
      pos <= |toks|
    }

    ghost function Rest(): seq<P.Tok>
      reads this
      requires Valid()
    {
      toks[pos..]
    }

    constructor (toks: seq<P.Tok>)
      ensures Valid() && this.toks == toks && Rest() == toks && level == 0
    {
      this.toks := toks;
      pos, level := 0, 0;
    }

    /** kp_lex_next. */
    method Next()
      requires Valid() && pos < |toks|
      modifies this`pos
      ensures Valid() && pos == old(pos) + 1 && old(Rest()) != [] && Rest() == old(Rest())[1..]
    {
      pos := pos + 1;
    }
  }

  /** An operand. */
  method ExprSimple(fs: FuncState, x: Expr) returns (e: ExpDesc)
    requires fs.Valid() && IsLeaf(x)
    ensures fs.ExpOk(e) && fs.Mine(e) == Elems(fs.bc, fs.jpc) && Compile(fs.Abs(), x) == Some((fs.Abs(), fs.AbsExp(e)))
  {
    hide Elems, WfList, ListOf, IsList, Follow, DecodeAll, InsOk;
    e := ExpDesc(if x.EConst? then KConst(x.k) else KLocal(x.r), NO_JMP, NO_JMP);
    fs.LeafOk(e.k);
  }

  /** What one parse has emitted: the code of the tree t, with result e. */
  twostate predicate Emitted(fs: FuncState, leaf: nat -> Expr, t: P.Tree, e: ExpDesc)
    reads fs
  {
    && fs.Valid() && fs.ExpOk(e) && fs.Within(old(Elems(fs.bc, fs.jpc)), e) && |old(fs.bc)| <= |fs.bc|
    && Supported(t) && Compile(old(fs.Abs()), ToExpr(leaf, t)) == Some((fs.Abs(), fs.AbsExp(e)))
  }

  /** expr_unop. */
  method ExprUnop(ps: Parser, fs: FuncState, leaf: nat -> Expr) returns (st: Status, e: ExpDesc, ghost t: P.Tree)
    requires ps.Valid() && fs.Valid() && fs.bc != [] && LeavesOk(leaf)
    modifies ps, fs
    ensures st.Err? ==> fs.AtLimit() || Refused(P.ParseUnop(old(ps.Rest()), old(ps.level)))
    ensures st.Ok? ==>
              && ps.Valid() && ps.level == old(ps.level) && Emitted(fs, leaf, t, e)
              && P.ParseUnop(old(ps.Rest()), old(ps.level)) == Some((t, ps.Rest()))
    decreases |ps.toks| - ps.pos, 0
  {
    hide Elems, WfList, ListOf, IsList, Follow, DecodeAll, InsOk, Compile, P.ParseBinop;
    st, e, t := Err, ExpDesc(KConst(Nil), NO_JMP, NO_JMP), P.Leaf(0);
    if ps.pos == |ps.toks| { return; }
    var tok := ps.toks[ps.pos];
    if tok.Atom? {
      ps.Next();
      assert IsLeaf(leaf(tok.id));
      e := ExprSimple(fs, leaf(tok.id));
      return Ok, e, P.Leaf(tok.id);
    } else if tok.LPar? {
      ps.Next();
      st, e, t := ExprParen(ps, fs, leaf);
    } else if tok.NotTok? || tok == P.Op(P.SUB) {
      ps.Next();
      st, e, t := ExprPrefix(ps, fs, leaf, if tok.NotTok? then P.UNot else P.UMinus);
    }
  }

  /** An expression in parentheses, behind the opening one. */
  method ExprParen(ps: Parser, fs: FuncState, leaf: nat -> Expr) returns (st: Status, e: ExpDesc, ghost t: P.Tree)
    requires ps.Valid() && fs.Valid() && fs.bc != [] && LeavesOk(leaf)
    modifies ps, fs
    ensures st.Err? ==> fs.AtLimit() || Unclosed(P.ParseBinop(old(ps.Rest()), 0, old(ps.level)))
    ensures st.Ok? ==>
              && ps.Valid() && ps.level == old(ps.level) && Emitted(fs, leaf, t, e)
              && P.ParseBinop(old(ps.Rest()), 0, old(ps.level)).Some?
              && (var (x, rest) := P.ParseBinop(old(ps.Rest()), 0, old(ps.level)).value;
                  t == P.Par(x) && rest != [] && rest[0] == P.RPar && rest[1..] == ps.Rest())
    decreases |ps.toks| - ps.pos, 3
  {
    hide Elems, WfList, ListOf, IsList, Follow, DecodeAll, InsOk, P.ParseBinop;
    st, e, t := ExprBinop(ps, fs, leaf, 0);
    if st.Err? { return; }
    if ps.pos == |ps.toks| || ps.toks[ps.pos] != P.RPar { return Err, e, t; }
    ps.Next();
    e := FuncState.Discharged(e);
    t := P.Par(t);
  }

  /** The operand of a prefix operator, and its code. */
  method ExprPrefix(ps: Parser, fs: FuncState, leaf: nat -> Expr, u: P.Uop)
                    returns (st: Status, e: ExpDesc, ghost t: P.Tree)
    requires ps.Valid() && fs.Valid() && fs.bc != [] && LeavesOk(leaf)
    modifies ps, fs
    ensures st.Err? ==> fs.AtLimit() || Refused(P.ParseBinop(old(ps.Rest()), P.UNARY_PRIORITY, old(ps.level)))
    ensures st.Ok? ==>
              && ps.Valid() && ps.level == old(ps.level) && Emitted(fs, leaf, t, e)
              && P.ParseBinop(old(ps.Rest()), P.UNARY_PRIORITY, old(ps.level)).Some?
              && (var (x, rest) := P.ParseBinop(old(ps.Rest()), P.UNARY_PRIORITY, old(ps.level)).value;
                  t == P.Un(u, x) && rest == ps.Rest())
    decreases |ps.toks| - ps.pos, 3
  {
    hide Elems, WfList, ListOf, IsList, Follow, DecodeAll, InsOk, EmitNot, EmitNeg, P.ParseBinop;
    st, e, t := ExprBinop(ps, fs, leaf, P.UNARY_PRIORITY);
    if st.Err? { return; }
    ghost var mid, midPend, mine := fs.bc, fs.pend, fs.Mine(e);
    if u.UNot? {
      st, e := fs.BcemitNot(e);
    } else {
      st, e := fs.BcemitNeg(e);
    }
    if st.Err? { return; }
    fs.FrameTrans(old(fs.bc), old(fs.pend), old(Elems(fs.bc, fs.jpc)), mid, midPend, mine);
    t := P.Un(u, t);
  }

  lemma BinopStarts(ts: seq<P.Tok>, limit: nat, level: nat)
    requires level + 1 < P.MAX_XLEVEL && P.ParseUnop(ts, level + 1).Some?
    ensures var (v, rest) := P.ParseUnop(ts, level + 1).value;
            P.ParseBinop(ts, limit, level) == P.ParseLoop(v, rest, limit, level + 1)
  {
  }

  predicate Goes(ts: seq<P.Tok>, limit: nat) {
    ts != [] && ts[0].Op? && P.Left(ts[0].op) > limit
  }

  lemma LoopStep(v: P.Tree, ts: seq<P.Tok>, limit: nat, level: nat)
    ensures P.ParseLoop(v, ts, limit, level) ==
            if !Goes(ts, limit) then Some((v, ts))
            else
              var (tr, rest) :- P.ParseBinop(ts[1..], P.Right(ts[0].op), level);
              P.ParseLoop(P.Bin(ts[0].op, v, tr), rest, limit, level)
  {
  }

  /** expr_binop: operators with left priority above the limit. */
  method ExprBinop(ps: Parser, fs: FuncState, leaf: nat -> Expr, limit: nat)
                   returns (st: Status, e: ExpDesc, ghost t: P.Tree)
    requires ps.Valid() && fs.Valid() && fs.bc != [] && LeavesOk(leaf)
    modifies ps, fs
    ensures st.Err? ==> fs.AtLimit() || Refused(P.ParseBinop(old(ps.Rest()), limit, old(ps.level)))
    ensures st.Ok? ==>
              && ps.Valid() && ps.level == old(ps.level) && Emitted(fs, leaf, t, e)
              && P.ParseBinop(old(ps.Rest()), limit, old(ps.level)) == Some((t, ps.Rest()))
    decreases |ps.toks| - ps.pos, 2
  {
    hide Elems, WfList, ListOf, IsList, Follow, DecodeAll, InsOk, P.ParseUnop, P.ParseBinop, P.ParseLoop, Compile,
         ToExpr,
         Refused, StopsAt, Supported;
    st, e, t := Err, ExpDesc(KConst(Nil), NO_JMP, NO_JMP), P.Leaf(0);
    ps.level := ps.level + 1;
    if ps.level >= P.MAX_XLEVEL {
      FirstRefuses(old(ps.Rest()), limit, old(ps.level));
      return;
    }
    st, e, t := ExprUnop(ps, fs, leaf);
    if st.Err? {
      if !fs.AtLimit() { FirstRefuses(old(ps.Rest()), limit, old(ps.level)); }
      return;
    }
    BinopStarts(old(ps.Rest()), limit, old(ps.level));
    while ps.pos < |ps.toks| && ps.toks[ps.pos].Op? && P.Left(ps.toks[ps.pos].op) > limit
      invariant st.Ok? && ps.Valid() && ps.level == old(ps.level) + 1 && ps.pos > old(ps.pos) && Emitted(fs, leaf, t, e)
      invariant P.ParseBinop(old(ps.Rest()), limit, old(ps.level)) == P.ParseLoop(t, ps.Rest(), limit, ps.level)
      decreases |ps.toks| - ps.pos
    {
      ghost var mid, midPend, mine := fs.bc, fs.pend, fs.Mine(e);
      ghost var ts, v, level := ps.Rest(), t, ps.level;
      LoopStep(v, ts, limit, level);
      st, e, t := ExprOperator(ps, fs, leaf, e, t, old(fs.Abs()));
      if st.Err? {
        if !fs.AtLimit() { StepRefuses(v, ts, limit, level); }
        return;
      }
      fs.FrameTrans(old(fs.bc), old(fs.pend), old(Elems(fs.bc, fs.jpc)), mid, midPend, mine);
    }
    LoopStep(t, ps.Rest(), limit, ps.level);
    ps.level := ps.level - 1;
  }

  /** One round of the loop: the operator, its right operand, its code. */
  method ExprOperator(ps: Parser, fs: FuncState, leaf: nat -> Expr, l: ExpDesc, ghost tl: P.Tree, ghost s0: FS)
    returns (st: Status, e: ExpDesc, ghost t: P.Tree)
    requires ps.Valid() && fs.Valid() && fs.bc != [] && LeavesOk(leaf) && fs.ExpOk(l)
    requires Supported(tl) && Compile(s0, ToExpr(leaf, tl)) == Some((fs.Abs(), fs.AbsExp(l)))
    requires ps.pos < |ps.toks| && ps.toks[ps.pos].Op?
    modifies ps, fs
    ensures st.Err? ==> fs.AtLimit() || StopsAt(old(ps.Rest()), old(ps.level))
    ensures st.Ok? ==>
              && ps.Valid() && ps.level == old(ps.level) && ps.pos > old(ps.pos)
              && fs.Valid() && fs.ExpOk(e) && fs.Within(old(fs.Mine(l)), e)
              && Supported(t) && Compile(s0, ToExpr(leaf, t)) == Some((fs.Abs(), fs.AbsExp(e)))
              && (var op := ps.toks[old(ps.pos)].op;
                  && P.ParseBinop(old(ps.Rest())[1..], P.Right(op), ps.level).Some?
                  && (var (tr, rest) := P.ParseBinop(old(ps.Rest())[1..], P.Right(op), ps.level).value;
                      t == P.Bin(op, tl, tr) && rest == ps.Rest()))
    decreases |ps.toks| - ps.pos, 1
  {
    hide Elems, WfList, ListOf, IsList, Follow, DecodeAll, InsOk, P.ParseBinop, BinopLeft, Binop, Compile;
    st, e, t := Err, l, tl;
    var op := ps.toks[ps.pos].op;
    if OpOf(op).None? { return; }
    ps.Next();
    var e1;
    st, e1 := fs.BcemitBinopLeft(OpOf(op).value, l);
    if st.Err? { return; }
    ghost var mid, midPend, mine := fs.bc, fs.pend, Elems(fs.bc, fs.jpc) + Elems(fs.bc, e1.t) + Elems(fs.bc, e1.f);
    ghost var tr;
    st, e, tr := ExprRight(ps, fs, leaf, OpOf(op).value, e1, P.Right(op));
    if st.Err? { return; }
    fs.FrameTrans(old(fs.bc), old(fs.pend), old(fs.Mine(l)), mid, midPend, mine);
    FuncState.CompileBinIs(s0, OpOf(op).value, ToExpr(leaf, tl), ToExpr(leaf, tr));
    t := P.Bin(op, tl, tr);
  }

  /** The right operand, with the jumps of the left one held, and the operator. */
  method ExprRight(ps: Parser, fs: FuncState, leaf: nat -> Expr, op: BinOp, e1: ExpDesc, limit: nat)
    returns (st: Status, e: ExpDesc, ghost t: P.Tree)
    requires ps.Valid() && fs.Valid() && fs.bc != [] && LeavesOk(leaf)
    requires FuncState.Prepared(op, e1) && fs.ListsOk(e1.t, e1.f)
    modifies ps, fs
    ensures st.Err? ==> fs.AtLimit() || Refused(P.ParseBinop(old(ps.Rest()), limit, old(ps.level)))
    ensures st.Ok? ==>
              && ps.Valid() && ps.level == old(ps.level)
              && P.ParseBinop(old(ps.Rest()), limit, old(ps.level)) == Some((t, ps.Rest()))
              && fs.Valid() && fs.ExpOk(e)
              && fs.Within(old(Elems(fs.bc, fs.jpc) + Elems(fs.bc, e1.t) + Elems(fs.bc, e1.f)), e)
              && Supported(t) && Compile(old(fs.Abs()), ToExpr(leaf, t)).Some?
              && (var (s3, e2) := Compile(old(fs.Abs()), ToExpr(leaf, t)).value;
                  Binop(s3, op, old(fs.AbsExp(e1)), e2) == Some((fs.Abs(), fs.AbsExp(e))))
    decreases |ps.toks| - ps.pos, 3
  {
    hide Elems, WfList, ListOf, IsList, Follow, DecodeAll, InsOk, P.ParseBinop, Compile, ToExpr, Binop;
    ghost var jp := old(Elems(fs.bc, fs.jpc));
    ghost var mine := jp + Elems(fs.bc, e1.t) + Elems(fs.bc, e1.f);
    st, e, t := ExprBinop(ps, fs, leaf, limit);
    if st.Err? { return; }
    fs.ListStays(old(fs.bc), old(fs.pend), jp, e1.t);
    fs.ListStays(old(fs.bc), old(fs.pend), jp, e1.f);
    ghost var mid, midPend := fs.bc, fs.pend;
    ghost var mine' := fs.Mine(e) + Elems(fs.bc, e1.t) + Elems(fs.bc, e1.f);
    st, e := fs.BcemitBinop(op, e1, e);
    if st.Err? { return; }
    fs.FrameTrans(old(fs.bc), old(fs.pend), mine, mid, midPend, mine');
  }

  /** expr, with its value in the next register: from tokens to code that computes
      the value of the tree the tokens stand for. */
  method ExprTokens(ps: Parser, fs: FuncState, leaf: nat -> Expr) returns (st: Status, e: ExpDesc, ghost t: P.Tree)
    requires ps.Valid() && fs.Valid() && Wf(fs.Abs()) && LeavesOk(leaf)
    requires forall id :: LocalsOk(leaf(id), fs.nactvar)
    modifies ps, fs
    ensures st.Err? ==> fs.AtLimit() || Refused(P.ParseBinop(old(ps.Rest()), 0, old(ps.level)))
    ensures st.Ok? ==>
              && ps.Valid() && P.ParseBinop(old(ps.Rest()), 0, old(ps.level)) == Some((t, ps.Rest()))
              && fs.Valid() && Wf(fs.Abs()) && Supported(t)
              && forall q: nat, R: Regs :: Start(old(fs.Abs()), q) && |R| == MAX_SLOTS ==>
                   CompiledCode.Computes(old(fs.Abs()), ToExpr(leaf, t), fs.Abs(), q, R)
    ensures st.Ok? && old(fs.pend <= Elems(fs.bc, fs.jpc)) ==> fs.pend <= Elems(fs.bc, fs.jpc)
  {
    hide Elems, WfList, ListOf, IsList, Follow, DecodeAll, InsOk, P.ParseBinop, Compile, ToExpr, LocalsOk, ToNextReg,
         Start, CompiledCode.Computes, NoEndTarget, WfCode, AllPending;
    ghost var s := fs.Abs();
    fs.PendIs();
    st, e, t := ExprBinop(ps, fs, leaf, 0);
    if st.Err? { return; }
    st, e := fs.ExprTonextreg(e);
    if st.Err? { return; }
    TreeLocals(leaf, t, s.nact);
    CompiledCode.AllRuns(s, ToExpr(leaf, t), fs.Abs());
    fs.PendIs();
    CompiledCode.NothingLost(s, ToExpr(leaf, t), fs.Abs());
  }

  lemma {:induction false} TreeLocals(leaf: nat -> Expr, t: P.Tree, n: nat)
    requires Supported(t) && forall id :: LocalsOk(leaf(id), n)
    ensures LocalsOk(ToExpr(leaf, t), n)
  {
    match t
    case Leaf(id) =>
    case Par(x) => TreeLocals(leaf, x, n);
    case Un(_, x) => TreeLocals(leaf, x, n);
    case Bin(_, l, r) =>
      TreeLocals(leaf, l, n);
      TreeLocals(leaf, r, n);
  }
}
