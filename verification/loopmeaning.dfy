/** What conditionals and loops mean, and that their code does it: for every sequence of
    decisions the code executes the same instructions in the same order as the
    statement, leaves it where the statement ends, and stays in it where it does not. */
module LoopMeaning {
  import opened Values
  import opened Frames
  import opened Loops

  /** The outcome of decision n of a run. */
  type Oracle = nat -> bool

  // -- What statements mean ------------------------------------------------------------------------

  /** How a statement ends: control goes on behind it, behind the loop around it, or
      the function is left. */
  datatype Exit = Falls | Breaks | Ends

  /** n counts the decisions taken, tr are the instructions executed. */
  datatype Result = Result(exit: Exit, n: nat, tr: seq<Ins>)

  /** An instruction that leaves the function. */
  predicate Leaves(i: Ins) {
    i.Ret0? || i.Ret1? || i.Stop?
  }

  /** Code of a condition from index i on; Breaks stands for a condition that is false. */
  function CondRun(cs: seq<CondIns>, i: nat, o: Oracle, n: nat, tr: seq<Ins>): Result
    requires CondOk(cs) && i <= |cs|
    decreases |cs| - i
  {
    if i == |cs| then Result(Falls, n, tr)
    else match cs[i]
      case Plain(x) => if Leaves(x) then Result(Ends, n, tr + [x]) else CondRun(cs, i + 1, o, n, tr + [x])
      case Ahead(k, always) =>
        if always then CondRun(cs, k, o, n, tr)
        else if o(n) then CondRun(cs, k, o, n + 1, tr)
        else CondRun(cs, i + 1, o, n + 1, tr)
      case Out => if o(n) then Result(Breaks, n + 1, tr) else CondRun(cs, i + 1, o, n + 1, tr)
  }

  /** A loop ends where its body breaks. */
  function Behind(r: Result): Result {
    if r.exit.Breaks? then r.(exit := Falls) else r
  }

  /** A statement, with at most `fuel` more rounds of each loop; None if that is not enough. */
  function Run(s: Stmt, o: Oracle, n: nat, tr: seq<Ins>, fuel: nat): Option<Result>
    requires StmtOk(s)
    decreases fuel, s, 0
  {
    match s
    case Code(cs) => Some(CondRun(cs, 0, o, n, tr))
    case Break => Some(Result(Breaks, n, tr))
    case Seq(a, b) =>
      var r :- Run(a, o, n, tr, fuel);
      if r.exit.Falls? then Run(b, o, r.n, r.tr, fuel) else Some(r)
    case When(c, a) =>
      var r := CondRun(c, 0, o, n, tr);
      if r.exit.Falls? then Run(a, o, r.n, r.tr, fuel) else Some(Behind(r))
    case If(c, a, b) =>
      var r := CondRun(c, 0, o, n, tr);
      if r.exit.Falls? then Run(a, o, r.n, r.tr, fuel)
      else if r.exit.Breaks? then Run(b, o, r.n, r.tr, fuel)
      else Some(r)
    case While(c, b) =>
      var r := CondRun(c, 0, o, n, tr);
      if !r.exit.Falls? then Some(Behind(r))
      else
        var q :- Run(b, o, r.n, r.tr, fuel);
        if !q.exit.Falls? then Some(Behind(q))
        else if fuel == 0 then None
        else Run(s, o, q.n, q.tr, fuel - 1)
    case Repeat(b, c) =>
      var q :- Run(b, o, n, tr, fuel);
      if !q.exit.Falls? then Some(Behind(q))
      else
        var r := CondRun(c, 0, o, q.n, q.tr);
        if !r.exit.Breaks? then Some(r)
        else if fuel == 0 then None
        else Run(s, o, r.n, r.tr, fuel - 1)
    case ForNum(b) => if o(n) then Some(Result(Falls, n + 1, tr)) else Rounds(b, o, n + 1, tr, fuel)
    case ForIter(b) => Items(b, o, n, tr, fuel)
  }

  /** The rounds of a numeric for loop, with a decision behind each. */
  function Rounds(b: Stmt, o: Oracle, n: nat, tr: seq<Ins>, fuel: nat): Option<Result>
    requires StmtOk(b)
    decreases fuel, b, 1
  {
    var q :- Run(b, o, n, tr, fuel);
    if !q.exit.Falls? then Some(Behind(q))
    else if !o(q.n) then Some(Result(Falls, q.n + 1, q.tr))
    else if fuel == 0 then None
    else Rounds(b, o, q.n + 1, q.tr, fuel - 1)
  }

  /** The rounds of a for loop over a table, with a decision before each. */
  function Items(b: Stmt, o: Oracle, n: nat, tr: seq<Ins>, fuel: nat): Option<Result>
    requires StmtOk(b)
    decreases fuel, b, 1
  {
    if !o(n) then Some(Result(Falls, n + 1, tr))
    else
      var q :- Run(b, o, n + 1, tr, fuel);
      if !q.exit.Falls? then Some(Behind(q))
      else if fuel == 0 then None
      else Items(b, o, q.n, q.tr, fuel - 1)
  }

  // -- What code does --------------------------------------------------------------------------------

  datatype State = At(pc: nat, n: nat, tr: seq<Ins>) | Ended(n: nat, tr: seq<Ins>)

  /** One instruction; jumps, tests and the instructions of loops leave no trace. */
  function CodeStep(C: seq<Ins>, o: Oracle, s: State): State
    requires s.At? && s.pc < |C|
  {
    match C[s.pc]
    case Jump(t) => At(t, s.n, s.tr)
    case Loop => At(s.pc + 1, s.n, s.tr)
    case Branch(t) => At(if o(s.n) then t else s.pc + 1, s.n + 1, s.tr)
    case ForI(_, t) => At(if o(s.n) then t else s.pc + 1, s.n + 1, s.tr)
    case ForL(_, t) => At(if o(s.n) then t else s.pc + 1, s.n + 1, s.tr)
    case IterN(_, t) => At(if o(s.n) then t else s.pc + 2, s.n + 1, s.tr)
    case i => if Leaves(i) then Ended(s.n, s.tr + [i]) else At(s.pc + 1, s.n, s.tr + [i])
  }

  /** k instructions from s on, all of them from lo up to hi, lead to s2. */
  predicate Gets(C: seq<Ins>, o: Oracle, s: State, lo: nat, hi: nat, k: nat, s2: State)
    decreases k
  {
    if k == 0 then s == s2
    else s.At? && lo <= s.pc < hi && s.pc < |C| && Gets(C, o, CodeStep(C, o, s), lo, hi, k - 1, s2)
  }

  /** One stretch behind another, both within lo and hi. */
  lemma {:induction false} Join(C: seq<Ins>, o: Oracle, lo: nat, hi: nat, s: State, l1: nat, h1: nat, j: nat, s1: State,
                                l2: nat, h2: nat, k: nat, s2: State)
    requires Gets(C, o, s, l1, h1, j, s1) && Gets(C, o, s1, l2, h2, k, s2)
    requires lo <= l1 && h1 <= hi && lo <= l2 && h2 <= hi
    ensures Gets(C, o, s, lo, hi, j + k, s2)
    decreases j
  {
    if j > 0 {
      Join(C, o, lo, hi, CodeStep(C, o, s), l1, h1, j - 1, s1, l2, h2, k, s2);
    } else {
      Widen(C, o, lo, hi, s1, l2, h2, k, s2);
    }
  }

  lemma {:induction false} Widen(C: seq<Ins>, o: Oracle, lo: nat, hi: nat, s: State, l: nat, h: nat, k: nat, s2: State)
    requires Gets(C, o, s, l, h, k, s2) && lo <= l && h <= hi
    ensures Gets(C, o, s, lo, hi, k, s2)
    decreases k
  {
    if k > 0 { Widen(C, o, lo, hi, CodeStep(C, o, s), l, h, k - 1, s2); }
  }

  /** The code c stands at position `at`. */
  ghost predicate Has(C: seq<Ins>, at: nat, c: seq<Ins>) {
    at + |c| <= |C| && forall i :: 0 <= i < |c| ==> C[at + i] == c[i]
  }

  lemma HasParts(C: seq<Ins>, at: nat, c: seq<Ins>, d: seq<Ins>)
    requires Has(C, at, c + d)
    ensures Has(C, at, c) && Has(C, at + |c|, d)
  {
    forall i | 0 <= i < |c| ensures C[at + i] == c[i] { assert (c + d)[i] == c[i]; }
    forall i | 0 <= i < |d| ensures C[at + |c| + i] == d[i] {
      assert (c + d)[|c| + i] == d[i];
      assert C[at + (|c| + i)] == (c + d)[|c| + i];
    }
  }

  // -- The code of statements --------------------------------------------------------------------------

  /** Where a result leaves the code: behind it, at `out`, or not at all. */
  function Landing(r: Result, end: nat, out: nat): State {
    match r.exit
    case Falls => At(end, r.n, r.tr)
    case Breaks => At(out, r.n, r.tr)
    case Ends => Ended(r.n, r.tr)
  }

  lemma {:induction false} CondFollows(C: seq<Ins>, cs: seq<CondIns>, at: nat, out: nat, i: nat, o: Oracle, n: nat,
                                       tr: seq<Ins>) returns (k: nat)
    requires CondOk(cs) && i <= |cs| && Has(C, at, CondCode(cs, at, out))
    requires forall j :: 0 <= j < |cs| && cs[j].Plain? ==> Straight(cs[j].i)
    ensures Gets(C, o, At(at + i, n, tr), at, at + |cs|, k, Landing(CondRun(cs, i, o, n, tr), at + |cs|, out))
    decreases |cs| - i
  {
    hide Gets;
    k := 0;
    Stands(C, o, at, at + |cs|, State.At(at + i, n, tr));
    if i < |cs| {
      var c := CondCode(cs, at, out);
      assert C[at + i] == c[i] == CondAt(cs[i], at, out);
      var s := CodeStep(C, o, At(at + i, n, tr));
      var j := 0;
      Stands(C, o, at, at + |cs|, s);
      match cs[i] {
        case Plain(x) =>
          if !Leaves(x) { j := CondFollows(C, cs, at, out, i + 1, o, n, tr + [x]); }
        case Ahead(t, always) =>
          if always {
            j := CondFollows(C, cs, at, out, t, o, n, tr);
          } else if o(n) {
            j := CondFollows(C, cs, at, out, t, o, n + 1, tr);
          } else {
            j := CondFollows(C, cs, at, out, i + 1, o, n + 1, tr);
          }
        case Out =>
          if !o(n) { j := CondFollows(C, cs, at, out, i + 1, o, n + 1, tr); }
      }
      k := j + 1;
      Before(C, o, State.At(at + i, n, tr), at, at + |cs|, j, Landing(CondRun(cs, i, o, n, tr), at + |cs|, out));
    }
  }

  /** z is where the run ends, or k instructions are as many as the rounds that were not enough. */
  predicate EndsAt(r: Option<Result>, z: State, end: nat, out: nat, k: nat, fuel: nat) {
    match r
    case Some(x) => z == Landing(x, end, out)
    case None => k >= fuel
  }

  /** The code of a statement does what the statement means. */
  lemma {:induction false} Follows(C: seq<Ins>, s: Stmt, at: nat, out: nat, o: Oracle, n: nat, tr: seq<Ins>, fuel: nat)
    returns (k: nat, z: State)
    requires StmtOk(s) && Has(C, at, Gen(s, at, out))
    ensures Gets(C, o, State.At(at, n, tr), at, at + Size(s), k, z)
    ensures EndsAt(Run(s, o, n, tr, fuel), z, at + Size(s), out, k, fuel)
    decreases fuel, s, 1
  {
    match s
    case Code(cs) =>
      k := CondFollows(C, cs, at, at, 0, o, n, tr);
      NoOut(cs, 0, o, n, tr);
      z := Landing(CondRun(cs, 0, o, n, tr), at + |cs|, at);
    case Break =>
      k, z := 1, State.At(out, n, tr);
      assert C[at + 0] == Gen(s, at, out)[0];
      assert Gets(C, o, z, at, at + 1, 0, z);
    case Seq(a, b) => k, z := SeqFollows(C, s, at, out, o, n, tr, fuel);
    case When(c, a) => k, z := WhenFollows(C, s, at, out, o, n, tr, fuel);
    case If(c, a, b) => k, z := IfFollows(C, s, at, out, o, n, tr, fuel);
    case While(c, b) => k, z := WhileFollows(C, s, at, out, o, n, tr, fuel);
    case Repeat(b, c) => k, z := RepeatFollows(C, s, at, out, o, n, tr, fuel);
    case ForNum(b) => k, z := ForNumFollows(C, s, at, out, o, n, tr, fuel);
    case ForIter(b) => k, z := ForIterFollows(C, s, at, out, o, n, tr, fuel);
  }

  /** Code without a way out never breaks. */
  lemma {:induction false} NoOut(cs: seq<CondIns>, i: nat, o: Oracle, n: nat, tr: seq<Ins>)
    requires CondOk(cs) && i <= |cs| && forall j :: 0 <= j < |cs| ==> !cs[j].Out?
    ensures !CondRun(cs, i, o, n, tr).exit.Breaks?
    decreases |cs| - i
  {
    if i < |cs| {
      match cs[i]
      case Plain(x) => if !Leaves(x) { NoOut(cs, i + 1, o, n, tr + [x]); }
      case Ahead(k, always) =>
        if always { NoOut(cs, k, o, n, tr); }
        else if o(n) { NoOut(cs, k, o, n + 1, tr); }
        else { NoOut(cs, i + 1, o, n + 1, tr); }
      case Out => assert false;
    }
  }

  lemma {:induction false} SeqFollows(C: seq<Ins>, s: Stmt, at: nat, out: nat, o: Oracle,
                                      n: nat, tr: seq<Ins>, fuel: nat)
    returns (k: nat, z: State)
    requires s.Seq? && StmtOk(s) && Has(C, at, Gen(s, at, out))
    ensures Gets(C, o, State.At(at, n, tr), at, at + Size(s), k, z)
    ensures EndsAt(Run(s, o, n, tr, fuel), z, at + Size(s), out, k, fuel)
    decreases fuel, s, 0
  {
    hide Gets, Has;
    var mid := at + Size(s.a);
    HasParts(C, at, Gen(s.a, at, out), Gen(s.b, mid, out));
    k, z := Follows(C, s.a, at, out, o, n, tr, fuel);
    Widen(C, o, at, at + Size(s), State.At(at, n, tr), at, mid, k, z);
    var r := Run(s.a, o, n, tr, fuel);
    if r.Some? && r.value.exit.Falls? {
      var j, z1 := k, z;
      k, z := Follows(C, s.b, mid, out, o, r.value.n, r.value.tr, fuel);
      Join(C, o, at, at + Size(s), State.At(at, n, tr), at, mid, j, z1, mid, at + Size(s), k, z);
      k := j + k;
    }
  }

  /** One instruction in front. */
  lemma Before(C: seq<Ins>, o: Oracle, s: State, lo: nat, hi: nat, k: nat, z: State)
    requires s.At? && lo <= s.pc < hi && s.pc < |C| && Gets(C, o, CodeStep(C, o, s), lo, hi, k, z)
    ensures Gets(C, o, s, lo, hi, k + 1, z)
  {
  }

  /** One instruction. */
  lemma Single(C: seq<Ins>, o: Oracle, s: State, lo: nat, hi: nat)
    requires s.At? && lo <= s.pc < hi && s.pc < |C|
    ensures Gets(C, o, s, lo, hi, 1, CodeStep(C, o, s))
  {
    assert Gets(C, o, CodeStep(C, o, s), lo, hi, 0, CodeStep(C, o, s));
  }

  lemma HasOne(C: seq<Ins>, at: nat, i: Ins)
    requires Has(C, at, [i])
    ensures at < |C| && C[at] == i
  {
    assert C[at + 0] == [i][0];
  }

  lemma {:induction false} WhenFollows(C: seq<Ins>, s: Stmt, at: nat, out: nat, o: Oracle,
                                       n: nat, tr: seq<Ins>, fuel: nat)
    returns (k: nat, z: State)
    requires s.When? && StmtOk(s) && Has(C, at, Gen(s, at, out))
    ensures Gets(C, o, State.At(at, n, tr), at, at + Size(s), k, z)
    ensures EndsAt(Run(s, o, n, tr, fuel), z, at + Size(s), out, k, fuel)
    decreases fuel, s, 0
  {
    hide Gets, Has, CondCode, CondRun;
    var (mid, end, s0) := (at + |s.c|, at + Size(s), State.At(at, n, tr));
    HasParts(C, at, CondCode(s.c, at, end), Gen(s.a, mid, out));
    k := CondFollows(C, s.c, at, end, 0, o, n, tr);
    var r := CondRun(s.c, 0, o, n, tr);
    z := Landing(r, mid, end);
    Widen(C, o, at, end, s0, at, mid, k, z);
    if r.exit.Falls? {
      var j, z1 := k, z;
      k, z := Follows(C, s.a, mid, out, o, r.n, r.tr, fuel);
      Join(C, o, at, end, s0, at, mid, j, z1, mid, end, k, z);
      k := j + k;
    }
  }

  lemma {:induction false} IfFollows(C: seq<Ins>, s: Stmt, at: nat, out: nat, o: Oracle,
                                     n: nat, tr: seq<Ins>, fuel: nat)
    returns (k: nat, z: State)
    requires s.If? && StmtOk(s) && Has(C, at, Gen(s, at, out))
    ensures Gets(C, o, State.At(at, n, tr), at, at + Size(s), k, z)
    ensures EndsAt(Run(s, o, n, tr, fuel), z, at + Size(s), out, k, fuel)
    decreases fuel, s, 0
  {
    hide Gets, Has, CondCode, CondRun;
    var (mid, end, s0) := (at + |s.c|, at + Size(s), State.At(at, n, tr));
    var orelse := mid + Size(s.a) + 1;
    var c, a, b := CondCode(s.c, at, orelse), Gen(s.a, mid, out), Gen(s.b, orelse, out);
    HasParts(C, at, c + a + [Jump(end)], b);
    HasParts(C, at, c + a, [Jump(end)]);
    HasParts(C, at, c, a);
    HasOne(C, orelse - 1, Jump(end));
    k := CondFollows(C, s.c, at, orelse, 0, o, n, tr);
    var r := CondRun(s.c, 0, o, n, tr);
    z := Landing(r, mid, orelse);
    Widen(C, o, at, end, s0, at, mid, k, z);
    var j, z1 := k, z;
    if r.exit.Falls? {
      k, z := Follows(C, s.a, mid, out, o, r.n, r.tr, fuel);
      Join(C, o, at, end, s0, at, mid, j, z1, mid, orelse - 1, k, z);
      k := j + k;
      var q := Run(s.a, o, r.n, r.tr, fuel);
      if q.Some? && q.value.exit.Falls? {
        Single(C, o, z, at, end);
        Join(C, o, at, end, s0, at, end, k, z, at, end, 1, CodeStep(C, o, z));
        k, z := k + 1, CodeStep(C, o, z);
      }
    } else if r.exit.Breaks? {
      k, z := Follows(C, s.b, orelse, out, o, r.n, r.tr, fuel);
      Join(C, o, at, end, s0, at, mid, j, z1, orelse, end, k, z);
      k := j + k;
    }
  }

  lemma {:induction false} WhileFollows(C: seq<Ins>, s: Stmt, at: nat, out: nat, o: Oracle,
                                        n: nat, tr: seq<Ins>, fuel: nat)
    returns (k: nat, z: State)
    requires s.While? && StmtOk(s) && Has(C, at, Gen(s, at, out))
    ensures Gets(C, o, State.At(at, n, tr), at, at + Size(s), k, z)
    ensures EndsAt(Run(s, o, n, tr, fuel), z, at + Size(s), out, k, fuel)
    decreases fuel, s, 0
  {
    hide Gets, Has, CondCode, CondRun;
    var (mid, end, s0) := (at + |s.c|, at + Size(s), State.At(at, n, tr));
    var c, b := CondCode(s.c, at, end), Gen(s.b, mid + 1, end);
    HasParts(C, at, c + [Loop] + b, [Jump(at)]);
    HasParts(C, at, c + [Loop], b);
    HasParts(C, at, c, [Loop]);
    HasOne(C, mid, Loop);
    HasOne(C, end - 1, Jump(at));
    k := CondFollows(C, s.c, at, end, 0, o, n, tr);
    var r := CondRun(s.c, 0, o, n, tr);
    z := Landing(r, mid, end);
    Widen(C, o, at, end, s0, at, mid, k, z);
    if r.exit.Falls? {
      k, z := Next(C, o, at, end, s0, k, z);
      var j, z1 := k, z;
      k, z := Follows(C, s.b, mid + 1, end, o, r.n, r.tr, fuel);
      Join(C, o, at, end, s0, at, end, j, z1, mid + 1, end - 1, k, z);
      k := j + k;
      var q := Run(s.b, o, r.n, r.tr, fuel);
      if q.Some? && q.value.exit.Falls? {
        k, z := Next(C, o, at, end, s0, k, z);
        if fuel > 0 {
          j, z1 := k, z;
          k, z := Follows(C, s, at, out, o, q.value.n, q.value.tr, fuel - 1);
          Join(C, o, at, end, s0, at, end, j, z1, at, end, k, z);
          k := j + k;
        }
      }
    }
  }

  /** One more instruction. */
  lemma Next(C: seq<Ins>, o: Oracle, lo: nat, hi: nat, s: State, k: nat, z: State) returns (k': nat, z': State)
    requires Gets(C, o, s, lo, hi, k, z) && z.At? && lo <= z.pc < hi && z.pc < |C|
    ensures k' == k + 1 && z' == CodeStep(C, o, z) && Gets(C, o, s, lo, hi, k', z')
  {
    k', z' := k + 1, CodeStep(C, o, z);
    Single(C, o, z, lo, hi);
    Join(C, o, lo, hi, s, lo, hi, k, z, lo, hi, 1, z');
  }

  lemma {:induction false} RepeatFollows(C: seq<Ins>, s: Stmt, at: nat, out: nat, o: Oracle,
                                         n: nat, tr: seq<Ins>, fuel: nat)
    returns (k: nat, z: State)
    requires s.Repeat? && StmtOk(s) && Has(C, at, Gen(s, at, out))
    ensures Gets(C, o, State.At(at, n, tr), at, at + Size(s), k, z)
    ensures EndsAt(Run(s, o, n, tr, fuel), z, at + Size(s), out, k, fuel)
    decreases fuel, s, 0
  {
    hide Gets, Has, CondCode, CondRun;
    var (mid, end, s0) := (at + 1 + Size(s.b), at + Size(s), State.At(at, n, tr));
    var b, c := Gen(s.b, at + 1, end), CondCode(s.c, mid, at);
    HasParts(C, at, [Loop] + b, c);
    HasParts(C, at, [Loop], b);
    HasOne(C, at, Loop);
    Stands(C, o, at, end, s0);
    k, z := Next(C, o, at, end, s0, 0, s0);
    var j, z1 := k, z;
    k, z := Follows(C, s.b, at + 1, end, o, n, tr, fuel);
    Join(C, o, at, end, s0, at, end, j, z1, at + 1, mid, k, z);
    k := j + k;
    var q := Run(s.b, o, n, tr, fuel);
    if q.Some? && q.value.exit.Falls? {
      j, z1 := k, z;
      k := CondFollows(C, s.c, mid, at, 0, o, q.value.n, q.value.tr);
      var r := CondRun(s.c, 0, o, q.value.n, q.value.tr);
      z := Landing(r, end, at);
      Join(C, o, at, end, s0, at, end, j, z1, mid, end, k, z);
      k := j + k;
      if r.exit.Breaks? && fuel > 0 {
        j, z1 := k, z;
        k, z := Follows(C, s, at, out, o, r.n, r.tr, fuel - 1);
        Join(C, o, at, end, s0, at, end, j, z1, at, end, k, z);
        k := j + k;
      }
    }
  }

  lemma Stands(C: seq<Ins>, o: Oracle, lo: nat, hi: nat, s: State)
    ensures Gets(C, o, s, lo, hi, 0, s)
  {
  }

  lemma {:induction false} ForNumFollows(C: seq<Ins>, s: Stmt, at: nat, out: nat, o: Oracle,
                                         n: nat, tr: seq<Ins>, fuel: nat)
    returns (k: nat, z: State)
    requires s.ForNum? && StmtOk(s) && Has(C, at, Gen(s, at, out))
    ensures Gets(C, o, State.At(at, n, tr), at, at + Size(s), k, z)
    ensures EndsAt(Run(s, o, n, tr, fuel), z, at + Size(s), out, k, fuel)
    decreases fuel, s, 0
  {
    hide Gets, Has;
    var (end, s0) := (at + Size(s), State.At(at, n, tr));
    var b := Gen(s.b, at + 1, end);
    HasParts(C, at, [ForI(0, end)] + b, [ForL(0, at + 1)]);
    HasParts(C, at, [ForI(0, end)], b);
    HasOne(C, at, ForI(0, end));
    HasOne(C, end - 1, ForL(0, at + 1));
    Stands(C, o, at, end, s0);
    k, z := Next(C, o, at, end, s0, 0, s0);
    if !o(n) {
      var j, z1 := k, z;
      k, z := RoundsFollow(C, s.b, at, end, o, n + 1, tr, fuel);
      Join(C, o, at, end, s0, at, end, j, z1, at, end, k, z);
      k := j + k;
    }
  }

  /** The body of a numeric for loop at `at + 1`, with its FORL behind it. */
  lemma {:induction false} RoundsFollow(C: seq<Ins>, b: Stmt, at: nat, end: nat, o: Oracle,
                                        n: nat, tr: seq<Ins>, fuel: nat)
    returns (k: nat, z: State)
    requires StmtOk(b) && end == at + 1 + Size(b) + 1 && Has(C, at + 1, Gen(b, at + 1, end))
    requires end - 1 < |C| && C[end - 1] == ForL(0, at + 1)
    ensures Gets(C, o, State.At(at + 1, n, tr), at, end, k, z)
    ensures Rounds(b, o, n, tr, fuel).Some? ==>
              !Rounds(b, o, n, tr, fuel).value.exit.Breaks? && z == Landing(Rounds(b, o, n, tr, fuel).value, end, end)
    ensures Rounds(b, o, n, tr, fuel).None? ==> k >= fuel
    decreases fuel, b, 2
  {
    hide Gets, Has, Run, Gen, Size, StmtOk;
    var s0 := State.At(at + 1, n, tr);
    k, z := Follows(C, b, at + 1, end, o, n, tr, fuel);
    Widen(C, o, at, end, s0, at + 1, end - 1, k, z);
    var q := Run(b, o, n, tr, fuel);
    if q.Some? && q.value.exit.Falls? {
      k, z := Next(C, o, at, end, s0, k, z);
      if o(q.value.n) && fuel > 0 {
        var j, z1 := k, z;
        k, z := RoundsFollow(C, b, at, end, o, q.value.n + 1, q.value.tr, fuel - 1);
        Join(C, o, at, end, s0, at, end, j, z1, at, end, k, z);
        k := j + k;
      }
    }
  }

  lemma {:induction false} ForIterFollows(C: seq<Ins>, s: Stmt, at: nat, out: nat, o: Oracle,
                                          n: nat, tr: seq<Ins>, fuel: nat)
    returns (k: nat, z: State)
    requires s.ForIter? && StmtOk(s) && Has(C, at, Gen(s, at, out))
    ensures Gets(C, o, State.At(at, n, tr), at, at + Size(s), k, z)
    ensures EndsAt(Run(s, o, n, tr, fuel), z, at + Size(s), out, k, fuel)
    decreases fuel, s, 0
  {
    hide Gets, Has;
    var (mid, end, s0) := (at + 1 + Size(s.b), at + Size(s), State.At(at, n, tr));
    var b := Gen(s.b, at + 1, end);
    HasParts(C, at, [Jump(mid)] + b, [IterN(0, at + 1), Stop]);
    HasParts(C, at, [Jump(mid)], b);
    HasOne(C, at, Jump(mid));
    assert [IterN(0, at + 1), Stop] == [IterN(0, at + 1)] + [Stop];
    HasParts(C, mid, [IterN(0, at + 1)], [Stop]);
    HasOne(C, mid, IterN(0, at + 1));
    Stands(C, o, at, end, s0);
    k, z := Next(C, o, at, end, s0, 0, s0);
    var j, z1 := k, z;
    k, z := ItemsFollow(C, s.b, at, end, o, n, tr, fuel);
    Join(C, o, at, end, s0, at, end, j, z1, at, end, k, z);
    k := j + k;
  }

  /** The ITERN of a for loop over a table, with the body at `at + 1` before it. */
  lemma {:induction false} ItemsFollow(C: seq<Ins>, b: Stmt, at: nat, end: nat, o: Oracle,
                                       n: nat, tr: seq<Ins>, fuel: nat)
    returns (k: nat, z: State)
    requires StmtOk(b) && end == at + 1 + Size(b) + 2 && Has(C, at + 1, Gen(b, at + 1, end))
    requires end - 2 < |C| && C[end - 2] == IterN(0, at + 1)
    ensures Gets(C, o, State.At(end - 2, n, tr), at, end, k, z)
    ensures Items(b, o, n, tr, fuel).Some? ==>
              !Items(b, o, n, tr, fuel).value.exit.Breaks? && z == Landing(Items(b, o, n, tr, fuel).value, end, end)
    ensures Items(b, o, n, tr, fuel).None? ==> k >= fuel
    decreases fuel, b, 2
  {
    hide Gets, Has, Run, Gen, Size, StmtOk;
    var s0 := State.At(end - 2, n, tr);
    Stands(C, o, at, end, s0);
    k, z := Next(C, o, at, end, s0, 0, s0);
    if o(n) {
      var j, z1 := k, z;
      k, z := Follows(C, b, at + 1, end, o, n + 1, tr, fuel);
      Join(C, o, at, end, s0, at, end, j, z1, at + 1, end - 2, k, z);
      k := j + k;
      var q := Run(b, o, n + 1, tr, fuel);
      if q.Some? && q.value.exit.Falls? && fuel > 0 {
        j, z1 := k, z;
        k, z := ItemsFollow(C, b, at, end, o, q.value.n, q.value.tr, fuel - 1);
        Join(C, o, at, end, s0, at, end, j, z1, at, end, k, z);
        k := j + k;
      }
    }
  }

  /** The code between lo and hi leads from s to z. */
  ghost predicate Arrives(C: seq<Ins>, o: Oracle, s: State, lo: nat, hi: nat, z: State) {
    exists k: nat :: Gets(C, o, s, lo, hi, k, z)
  }

  /** At least m instructions from s on are between lo and hi. */
  ghost predicate Busy(C: seq<Ins>, o: Oracle, s: State, lo: nat, hi: nat, m: nat) {
    exists k: nat, z: State :: k >= m && Gets(C, o, s, lo, hi, k, z)
  }

  /** Statement and code, for every sequence of decisions. Where the statement ends, the
      code executes its instructions and goes on where it says; where more rounds than
      any number are not enough, so are more instructions than that number. */
  lemma CodeMeans(C: seq<Ins>, s: Stmt, at: nat, out: nat, o: Oracle, n: nat, tr: seq<Ins>, fuel: nat)
    requires StmtOk(s) && Has(C, at, Gen(s, at, out))
    ensures var (s0, end) := (State.At(at, n, tr), at + Size(s));
            match Run(s, o, n, tr, fuel)
            case Some(r) => Arrives(C, o, s0, at, end, Landing(r, end, out))
            case None => Busy(C, o, s0, at, end, fuel)
  {
    hide Run, Gen, StmtOk, Has, Gets;
    var k, z := Follows(C, s, at, out, o, n, tr, fuel);
  }

  // -- The interpreter ------------------------------------------------------------------------------------

  /** Instructions that stay in the function move the interpreter as they move here. */
  lemma InterpreterMoves(ps: Program, s: Vm, ch: Choice, o: Oracle, n: nat, tr: seq<Ins>)
    requires s.pc.proto < |ps.protos| && s.pc.idx < |ps.protos[s.pc.proto].code| && ch.taken == o(n)
    requires var i := ps.protos[s.pc.proto].code[s.pc.idx]; !i.Call? && !i.CallT? && !Leaves(i)
    ensures match Step(ps, s, ch)
            case None => s.loops == ps.maxLoops
            case Some(s') =>
              var z := CodeStep(ps.protos[s.pc.proto].code, o, State.At(s.pc.idx, n, tr));
              s'.pc == Ptr(s.pc.proto, z.pc) && s'.func == s.func && s'.base == s.base
  {
  }
}
