/**
Running the code of an expression leaves the source value in the accumulator, the locals and
the clock as the source leaves them, and every other cell of the stack as it was.
*/
module ExprCorrect {
  import opened Machine
  import opened Source
  import opened CodeGen
  import opened Thread

  /** The fragment stands at pc, and the machine has come there. */
  ghost predicate Ready(pl: Platform, code: seq<Instr>, s0: State, pc: nat, frag: seq<Instr>, x: Int32,
                        base: seq<Int32>, idx: seq<nat>, st: Store)
  {
    LabelsUnique(code) && At(code, pc, frag) && Arrives(pl, code, s0, pc, x, base, idx, st)
  }

  /** The machine comes to pc with the value and the store r. */
  ghost predicate Done(pl: Platform, code: seq<Instr>, s0: State, pc: nat, r: (Int32, Store),
                       base: seq<Int32>, idx: seq<nat>)
  {
    Arrives(pl, code, s0, pc, r.0, base, idx, r.1)
  }

  lemma {:induction false} ExprRuns(pl: Platform, code: seq<Instr>, s0: State, e: Expr, h: nat, n: nat,
                                    pc: nat, x: Int32, base: seq<Int32>, idx: seq<nat>, st: Store)
    requires WfExpr(e, |idx|)
    requires Ready(pl, code, s0, pc, GenExpr(e, idx, h, n).code, x, base, idx, st)
    ensures Done(pl, code, s0, pc + |GenExpr(e, idx, h, n).code|, Eval(pl, e, st), base, idx)
    decreases e, 2, 0
  {
    hide Arrives, At, GenBin, GenLAnd, GenLOr, GenCond, GenTimed;
    match e
    case Const(c) => LeafRuns(pl, code, s0, e, h, n, pc, x, base, idx, st);
    case Port(p) => LeafRuns(pl, code, s0, e, h, n, pc, x, base, idx, st);
    case Local(v) => LeafRuns(pl, code, s0, e, h, n, pc, x, base, idx, st);
    case Un(uop, e1) => UnRuns(pl, code, s0, e, h, n, pc, x, base, idx, st);
    case Bin(op, l, r) => BinRuns(pl, code, s0, e, h, n, pc, x, base, idx, st);
    case LAnd(l, r) => AndRuns(pl, code, s0, e, h, n, pc, x, base, idx, st);
    case LOr(l, r) => OrRuns(pl, code, s0, e, h, n, pc, x, base, idx, st);
    case Cond(c, t, f) => CondRuns(pl, code, s0, e, h, n, pc, x, base, idx, st);
    case PreInc(v) => PreRuns(pl, code, s0, e, h, n, pc, x, base, idx, st);
    case PreDec(v) => PreRuns(pl, code, s0, e, h, n, pc, x, base, idx, st);
    case PostInc(v) => PostRuns(pl, code, s0, e, h, n, pc, x, base, idx, st);
    case PostDec(v) => PostRuns(pl, code, s0, e, h, n, pc, x, base, idx, st);
    case Assign(v, e1) => AssignRuns(pl, code, s0, e, h, n, pc, x, base, idx, st);
    case AssignOp(op, v, e1) => AssignOpRuns(pl, code, s0, e, h, n, pc, x, base, idx, st);
    case Till(_, _, _) => TimedRuns(pl, code, s0, e, h, n, pc, x, base, idx, st);
    case Whilst(_, _, _) => TimedRuns(pl, code, s0, e, h, n, pc, x, base, idx, st);
  }

  lemma LeafRuns(pl: Platform, code: seq<Instr>, s0: State, e: Expr, h: nat, n: nat,
                 pc: nat, x: Int32, base: seq<Int32>, idx: seq<nat>, st: Store)
    requires e.Const? || e.Port? || e.Local?
    requires WfExpr(e, |idx|)
    requires Ready(pl, code, s0, pc, GenExpr(e, idx, h, n).code, x, base, idx, st)
    ensures Done(pl, code, s0, pc + |GenExpr(e, idx, h, n).code|, Eval(pl, e, st), base, idx)
  {
    hide Reaches;
    AtOne(code, pc, GenExpr(e, idx, h, n).code[0]);
    if e.Local? {
      ILoad(pl, code, s0, pc, e.v, x, base, idx, st);
    } else {
      IAcc(pl, code, s0, pc, x, base, idx, st);
    }
  }

  lemma {:induction false} UnRuns(pl: Platform, code: seq<Instr>, s0: State, e: Expr, h: nat, n: nat,
                                  pc: nat, x: Int32, base: seq<Int32>, idx: seq<nat>, st: Store)
    requires e.Un? && WfExpr(e, |idx|)
    requires Ready(pl, code, s0, pc, GenExpr(e, idx, h, n).code, x, base, idx, st)
    ensures Done(pl, code, s0, pc + |GenExpr(e, idx, h, n).code|, Eval(pl, e, st), base, idx)
    decreases e, 0, 0
  {
    hide Reaches;
    var g := GenExpr(e.e, idx, h, n);
    AtSplit(code, pc, g.code, [Unary(e.uop)]);
    AtOne(code, pc + |g.code|, Unary(e.uop));
    ExprRuns(pl, code, s0, e.e, h, n, pc, x, base, idx, st);
    var (y, st1) := Eval(pl, e.e, st);
    IAcc(pl, code, s0, pc + |g.code|, y, base, idx, st1);
  }

  lemma BinParts(code: seq<Instr>, pc: nat, a: seq<Instr>, i: Instr, b: seq<Instr>, j: Instr)
    requires At(code, pc, a + [i] + b + [j])
    ensures At(code, pc, a) && At(code, pc + |a| + 1, b)
    ensures pc + |a| + 1 + |b| < |code| && code[pc + |a|] == i && code[pc + |a| + 1 + |b|] == j
  {
    AtSplit(code, pc, a + [i] + b, [j]);
    Cut(code, pc, a, i, b);
    AtOne(code, pc + |a| + 1 + |b|, j);
  }

  lemma {:induction false} BinRuns(pl: Platform, code: seq<Instr>, s0: State, e: Expr, h: nat, n: nat,
                                   pc: nat, x: Int32, base: seq<Int32>, idx: seq<nat>, st: Store)
    requires e.Bin? && WfExpr(e, |idx|)
    requires Ready(pl, code, s0, pc, GenBin(e, idx, h, n).code, x, base, idx, st)
    ensures Done(pl, code, s0, pc + |GenBin(e, idx, h, n).code|, EvalBin(pl, e, st), base, idx)
    decreases e, 0, 0
  {
    hide Reaches, At, Eval, GenExpr;
    var gl := GenExpr(e.l, idx, h, n);
    var gr := GenExpr(e.r, idx, h + 1, gl.next);
    BinParts(code, pc, gl.code, PushAlu, gr.code, Binary(e.op));
    var q := pc + |gl.code|;
    var q2 := q + 1 + |gr.code|;
    var (y, st1) := Eval(pl, e.l, st);
    var (z, st2) := Eval(pl, e.r, st1);
    ExprRuns(pl, code, s0, e.l, h, n, pc, x, base, idx, st);
    IPush(pl, code, s0, q, y, base, idx, st1);
    ExprRuns(pl, code, s0, e.r, h + 1, gl.next, q + 1, y, base + [y], idx, st1);
    IBinary(pl, code, s0, q2, e.op, z, y, base, idx, st2);
  }

  lemma AndParts(code: seq<Instr>, pc: nat, a: seq<Instr>, b: seq<Instr>, h: nat, n: nat)
    requires At(code, pc, a + [Jz(n)] + b + [Jz(n), LoadOne, Jmp(n + 1), Label(n, h), LoadZero, Label(n + 1, h)])
    ensures At(code, pc, a) && At(code, pc + |a| + 1, b)
    ensures var t := pc + |a| + 1 + |b|;
      t + 6 <= |code| && code[pc + |a|] == Jz(n) && code[t] == Jz(n) && code[t + 1] == LoadOne
        && code[t + 2] == Jmp(n + 1)
      && Labelled(code, t + 3, n, h) && code[t + 4] == LoadZero && Labelled(code, t + 5, n + 1, h)
  {
    var tail := [Jz(n), LoadOne, Jmp(n + 1), Label(n, h), LoadZero, Label(n + 1, h)];
    AtSplit(code, pc, a + [Jz(n)] + b, tail);
    Cut(code, pc, a, Jz(n), b);
    Tail(code, pc + |a| + 1 + |b|, tail);
  }

  lemma {:induction false} AndRuns(pl: Platform, code: seq<Instr>, s0: State, e: Expr, h: nat, n: nat,
                                   pc: nat, x: Int32, base: seq<Int32>, idx: seq<nat>, st: Store)
    requires e.LAnd? && WfExpr(e, |idx|)
    requires Ready(pl, code, s0, pc, GenLAnd(e, idx, h, n).code, x, base, idx, st)
    ensures Done(pl, code, s0, pc + |GenLAnd(e, idx, h, n).code|, EvalLAnd(pl, e, st), base, idx)
    decreases e, 0, 0
  {
    hide Reaches, At, Eval, GenExpr;
    var gl := GenExpr(e.l, idx, h, n + 2);
    var gr := GenExpr(e.r, idx, h, gl.next);
    AndParts(code, pc, gl.code, gr.code, h, n);
    var q := pc + |gl.code|;
    var t := q + 1 + |gr.code|;
    var (y, st1) := Eval(pl, e.l, st);
    var (z, st2) := Eval(pl, e.r, st1);
    ExprRuns(pl, code, s0, e.l, h, n + 2, pc, x, base, idx, st);
    if y == 0 {
      IJump(pl, code, s0, q, t + 3, n, y, base, idx, st1);
      AndEnd(pl, code, s0, t, n, base, idx, st1);
    } else {
      IFall(pl, code, s0, q, n, y, base, idx, st1);
      ExprRuns(pl, code, s0, e.r, h, gl.next, q + 1, y, base, idx, st1);
      if z == 0 {
        IJump(pl, code, s0, t, t + 3, n, z, base, idx, st2);
        AndEnd(pl, code, s0, t, n, base, idx, st2);
      } else {
        IFall(pl, code, s0, t, n, z, base, idx, st2);
        IAcc(pl, code, s0, t + 1, z, base, idx, st2);
        IJump(pl, code, s0, t + 2, t + 5, n + 1, 1, base, idx, st2);
      }
    }
  }

  lemma AndEnd(pl: Platform, code: seq<Instr>, s0: State, t: nat, n: nat, base: seq<Int32>, idx: seq<nat>, st: Store)
    requires Arrives(pl, code, s0, t + 4, 0, base, idx, st)
    requires t + 6 <= |code| && code[t + 4] == LoadZero && code[t + 5].Label?
    ensures Arrives(pl, code, s0, t + 6, 0, base, idx, st)
  {
    hide Reaches;
    IAcc(pl, code, s0, t + 4, 0, base, idx, st);
    IAcc(pl, code, s0, t + 5, 0, base, idx, st);
  }

  lemma OrParts(code: seq<Instr>, pc: nat, a: seq<Instr>, b: seq<Instr>, h: nat, n: nat)
    requires At(code, pc, a + [Jnz(n)] + b
      + [Jz(n + 1), Label(n, h), LoadOne, Jmp(n + 2), Label(n + 1, h), LoadZero, Label(n + 2, h)])
    ensures At(code, pc, a) && At(code, pc + |a| + 1, b)
    ensures var t := pc + |a| + 1 + |b|;
      t + 7 <= |code| && code[pc + |a|] == Jnz(n) && code[t] == Jz(n + 1) && Labelled(code, t + 1, n, h)
      && code[t + 2] == LoadOne && code[t + 3] == Jmp(n + 2) && Labelled(code, t + 4, n + 1, h)
      && code[t + 5] == LoadZero && Labelled(code, t + 6, n + 2, h)
  {
    hide At;
    var tail := [Jz(n + 1), Label(n, h), LoadOne, Jmp(n + 2), Label(n + 1, h), LoadZero, Label(n + 2, h)];
    AtSplit(code, pc, a + [Jnz(n)] + b, tail);
    Cut(code, pc, a, Jnz(n), b);
    Tail(code, pc + |a| + 1 + |b|, tail);
  }

  lemma {:induction false} OrRuns(pl: Platform, code: seq<Instr>, s0: State, e: Expr, h: nat, n: nat,
                                  pc: nat, x: Int32, base: seq<Int32>, idx: seq<nat>, st: Store)
    requires e.LOr? && WfExpr(e, |idx|)
    requires Ready(pl, code, s0, pc, GenLOr(e, idx, h, n).code, x, base, idx, st)
    ensures Done(pl, code, s0, pc + |GenLOr(e, idx, h, n).code|, EvalLOr(pl, e, st), base, idx)
    decreases e, 0, 0
  {
    hide Reaches, At, Eval, GenExpr;
    var gl := GenExpr(e.l, idx, h, n + 3);
    var gr := GenExpr(e.r, idx, h, gl.next);
    OrParts(code, pc, gl.code, gr.code, h, n);
    var q := pc + |gl.code|;
    var t := q + 1 + |gr.code|;
    var (y, st1) := Eval(pl, e.l, st);
    ExprRuns(pl, code, s0, e.l, h, n + 3, pc, x, base, idx, st);
    if y != 0 {
      IJump(pl, code, s0, q, t + 1, n, y, base, idx, st1);
      OrTrue(pl, code, s0, t, n, y, base, idx, st1);
    } else {
      IFall(pl, code, s0, q, n, y, base, idx, st1);
      ExprRuns(pl, code, s0, e.r, h, gl.next, q + 1, y, base, idx, st1);
      var (z, st2) := Eval(pl, e.r, st1);
      OrRight(pl, code, s0, t, n, z, base, idx, st2);
    }
  }

  lemma OrRight(pl: Platform, code: seq<Instr>, s0: State, t: nat, n: nat, z: Int32,
                base: seq<Int32>, idx: seq<nat>, st: Store)
    requires Arrives(pl, code, s0, t, z, base, idx, st) && LabelsUnique(code)
    requires t + 7 <= |code| && code[t] == Jz(n + 1) && LabelAt(code, t + 1, n)
    requires code[t + 2] == LoadOne && code[t + 3] == Jmp(n + 2) && LabelAt(code, t + 4, n + 1)
    requires code[t + 5] == LoadZero && LabelAt(code, t + 6, n + 2)
    ensures Arrives(pl, code, s0, t + 7, if z == 0 then 0 else 1, base, idx, st)
  {
    hide Reaches;
    if z != 0 {
      IFall(pl, code, s0, t, n + 1, z, base, idx, st);
      IAcc(pl, code, s0, t + 1, z, base, idx, st);
      OrTrue(pl, code, s0, t, n, z, base, idx, st);
    } else {
      IJump(pl, code, s0, t, t + 4, n + 1, z, base, idx, st);
      IAcc(pl, code, s0, t + 5, 0, base, idx, st);
      IAcc(pl, code, s0, t + 6, 0, base, idx, st);
    }
  }

  lemma OrTrue(pl: Platform, code: seq<Instr>, s0: State, t: nat, n: nat, y: Int32,
               base: seq<Int32>, idx: seq<nat>, st: Store)
    requires Arrives(pl, code, s0, t + 2, y, base, idx, st) && LabelsUnique(code)
    requires t + 7 <= |code| && code[t + 2] == LoadOne && code[t + 3] == Jmp(n + 2) && LabelAt(code, t + 6, n + 2)
    ensures Arrives(pl, code, s0, t + 7, 1, base, idx, st)
  {
    hide Reaches;
    IAcc(pl, code, s0, t + 2, y, base, idx, st);
    IJump(pl, code, s0, t + 3, t + 6, n + 2, 1, base, idx, st);
  }

  lemma CondParts(code: seq<Instr>, pc: nat, c: seq<Instr>, t: seq<Instr>, f: seq<Instr>, h: nat, n: nat)
    requires At(code, pc, c + [Jz(n)] + t + [Jmp(n + 1), Label(n, h)] + f + [Label(n + 1, h)])
    ensures At(code, pc, c) && At(code, pc + |c| + 1, t) && At(code, pc + |c| + 1 + |t| + 2, f)
    ensures var m := pc + |c| + 1 + |t|;
      m + 2 + |f| < |code| && code[pc + |c|] == Jz(n) && code[m] == Jmp(n + 1)
      && Labelled(code, m + 1, n, h) && Labelled(code, m + 2 + |f|, n + 1, h)
  {
    var mid := [Jmp(n + 1), Label(n, h)];
    AtSplit(code, pc, c + [Jz(n)] + t + mid + f, [Label(n + 1, h)]);
    AtSplit(code, pc, c + [Jz(n)] + t + mid, f);
    AtSplit(code, pc, c + [Jz(n)] + t, mid);
    Cut(code, pc, c, Jz(n), t);
    var m := pc + |c| + 1 + |t|;
    Tail(code, m, mid);
    AtOne(code, m + 2 + |f|, Label(n + 1, h));
  }

  lemma {:induction false} CondRuns(pl: Platform, code: seq<Instr>, s0: State, e: Expr, h: nat, n: nat,
                                    pc: nat, x: Int32, base: seq<Int32>, idx: seq<nat>, st: Store)
    requires e.Cond? && WfExpr(e, |idx|)
    requires Ready(pl, code, s0, pc, GenCond(e, idx, h, n).code, x, base, idx, st)
    ensures Done(pl, code, s0, pc + |GenCond(e, idx, h, n).code|, EvalCond(pl, e, st), base, idx)
    decreases e, 0, 0
  {
    hide Reaches, At, Eval, GenExpr;
    var gc := GenExpr(e.cond, idx, h, n + 2);
    var gt := GenExpr(e.thn, idx, h, gc.next);
    var gf := GenExpr(e.els, idx, h, gt.next);
    CondParts(code, pc, gc.code, gt.code, gf.code, h, n);
    var q := pc + |gc.code|;
    var m := q + 1 + |gt.code|;
    var t := m + 2 + |gf.code|;
    var (y, st1) := Eval(pl, e.cond, st);
    ExprRuns(pl, code, s0, e.cond, h, n + 2, pc, x, base, idx, st);
    if y != 0 {
      IFall(pl, code, s0, q, n, y, base, idx, st1);
      ExprRuns(pl, code, s0, e.thn, h, gc.next, q + 1, y, base, idx, st1);
      var (z, st2) := Eval(pl, e.thn, st1);
      IJump(pl, code, s0, m, t, n + 1, z, base, idx, st2);
    } else {
      IJump(pl, code, s0, q, m + 1, n, y, base, idx, st1);
      ExprRuns(pl, code, s0, e.els, h, gt.next, m + 2, y, base, idx, st1);
      var (z, st2) := Eval(pl, e.els, st1);
      IAcc(pl, code, s0, t, z, base, idx, st2);
    }
  }

  lemma PreRuns(pl: Platform, code: seq<Instr>, s0: State, e: Expr, h: nat, n: nat,
                pc: nat, x: Int32, base: seq<Int32>, idx: seq<nat>, st: Store)
    requires (e.PreInc? || e.PreDec?) && WfExpr(e, |idx|)
    requires Ready(pl, code, s0, pc, GenExpr(e, idx, h, n).code, x, base, idx, st)
    ensures Done(pl, code, s0, pc + |GenExpr(e, idx, h, n).code|, Eval(pl, e, st), base, idx)
  {
    hide Reaches;
    var frag := GenExpr(e, idx, h, n).code;
    AtAll(code, pc, frag);
    assert code[pc + 0] == frag[0] && code[pc + 1] == frag[1] && code[pc + 2] == frag[2];
    ILoad(pl, code, s0, pc, e.v, x, base, idx, st);
    IAcc(pl, code, s0, pc + 1, st.Get(e.v), base, idx, st);
    IStore(pl, code, s0, pc + 2, e.v, Eval(pl, e, st).0, base, idx, st);
  }

  lemma PostParts(code: seq<Instr>, pc: nat, step: Instr, slot: nat)
    requires At(code, pc, GenPost(step, slot))
    ensures pc + 5 <= |code| && code[pc] == LoadL(slot) && code[pc + 1] == PushAlu && code[pc + 2] == step
      && code[pc + 3] == StoreL(slot) && code[pc + 4] == PopAlu
  {
    Tail(code, pc, GenPost(step, slot));
  }

  lemma PostRuns(pl: Platform, code: seq<Instr>, s0: State, e: Expr, h: nat, n: nat,
                 pc: nat, x: Int32, base: seq<Int32>, idx: seq<nat>, st: Store)
    requires (e.PostInc? || e.PostDec?) && WfExpr(e, |idx|)
    requires Ready(pl, code, s0, pc, GenExpr(e, idx, h, n).code, x, base, idx, st)
    ensures Done(pl, code, s0, pc + |GenExpr(e, idx, h, n).code|, Eval(pl, e, st), base, idx)
  {
    hide Reaches, At, EvalTimed, LabelsUnique, Here;
    PostParts(code, pc, if e.PostInc? then Inc else Dec, idx[e.v]);
    var y := st.Get(e.v);
    var z := Eval(pl, if e.PostInc? then PreInc(e.v) else PreDec(e.v), st).0;
    ILoad(pl, code, s0, pc, e.v, x, base, idx, st);
    IPush(pl, code, s0, pc + 1, y, base, idx, st);
    IAcc(pl, code, s0, pc + 2, y, base + [y], idx, st);
    IStore(pl, code, s0, pc + 3, e.v, z, base + [y], idx, st);
    IPop(pl, code, s0, pc + 4, z, y, base, idx, st.Set(e.v, z));
  }

  lemma {:induction false} AssignRuns(pl: Platform, code: seq<Instr>, s0: State, e: Expr, h: nat, n: nat,
                                      pc: nat, x: Int32, base: seq<Int32>, idx: seq<nat>, st: Store)
    requires e.Assign? && WfExpr(e, |idx|)
    requires Ready(pl, code, s0, pc, GenExpr(e, idx, h, n).code, x, base, idx, st)
    ensures Done(pl, code, s0, pc + |GenExpr(e, idx, h, n).code|, Eval(pl, e, st), base, idx)
    decreases e, 0, 0
  {
    hide Reaches;
    var g := GenExpr(e.e, idx, h, n);
    AtSplit(code, pc, g.code, [StoreL(Slot(idx, e.v))]);
    AtOne(code, pc + |g.code|, StoreL(Slot(idx, e.v)));
    ExprRuns(pl, code, s0, e.e, h, n, pc, x, base, idx, st);
    var (y, st1) := Eval(pl, e.e, st);
    IStore(pl, code, s0, pc + |g.code|, e.v, y, base, idx, st1);
  }

  lemma AssignOpParts(code: seq<Instr>, pc: nat, a: seq<Instr>, slot: nat, op: BinOp)
    requires At(code, pc, [LoadL(slot), PushAlu] + a + [Binary(op), StoreL(slot)])
    ensures At(code, pc + 2, a) && pc + 2 + |a| + 2 <= |code|
    ensures code[pc] == LoadL(slot) && code[pc + 1] == PushAlu
    ensures code[pc + 2 + |a|] == Binary(op) && code[pc + 2 + |a| + 1] == StoreL(slot)
  {
    var head, tail := [LoadL(slot), PushAlu], [Binary(op), StoreL(slot)];
    AtSplit(code, pc, head + a, tail);
    AtSplit(code, pc, head, a);
    Tail(code, pc, head);
    Tail(code, pc + 2 + |a|, tail);
  }

  lemma {:induction false} AssignOpRuns(pl: Platform, code: seq<Instr>, s0: State, e: Expr, h: nat, n: nat,
                                        pc: nat, x: Int32, base: seq<Int32>, idx: seq<nat>, st: Store)
    requires e.AssignOp? && WfExpr(e, |idx|)
    requires Ready(pl, code, s0, pc, GenAssignOp(e, idx, h, n).code, x, base, idx, st)
    ensures Done(pl, code, s0, pc + |GenAssignOp(e, idx, h, n).code|, Eval(pl, e, st), base, idx)
    decreases e, 0, 0
  {
    hide Reaches, At, GenExpr;
    var g := GenExpr(e.e, idx, h + 1, n);
    var slot := Slot(idx, e.v);
    AssignOpParts(code, pc, g.code, slot, e.op);
    var q := pc + 2 + |g.code|;
    var y := st.Get(e.v);
    ILoad(pl, code, s0, pc, e.v, x, base, idx, st);
    IPush(pl, code, s0, pc + 1, y, base, idx, st);
    ExprRuns(pl, code, s0, e.e, h + 1, n, pc + 2, y, base + [y], idx, st);
    var (z, st1) := Eval(pl, e.e, st);
    IBinary(pl, code, s0, q, e.op, z, y, base, idx, st1);
    IStore(pl, code, s0, q + 1, e.v, pl.bin(e.op, y, z), base, idx, st1);
  }

  // ----- Timed expressions -----

  lemma CounterSteps(c: Int32)
    ensures c == 0 <==> Count(c) == 0
    ensures c != 0 ==> Count(Wrap(c - 1)) == Count(c) - 1
  {
  }

  lemma {:induction false} TimedRuns(pl: Platform, code: seq<Instr>, s0: State, e: Expr, h: nat, n: nat,
                                     pc: nat, x: Int32, base: seq<Int32>, idx: seq<nat>, st: Store)
    requires (e.Till? || e.Whilst?) && WfExpr(e, |idx|)
    requires Ready(pl, code, s0, pc, GenTimed(e, idx, h, n).code, x, base, idx, st)
    ensures Done(pl, code, s0, pc + |GenTimed(e, idx, h, n).code|, EvalTimed(pl, e, st), base, idx)
    decreases e, 1, 0
  {
    hide Reaches, At, Eval, GenExpr, TillLoop, WhilstLoop, WfExprs, TillBody, WhilstBody, GenConds, GenWindow,
      EvalWindow;
    var gd := GenExpr(e.delay, idx, h, n + 4);
    var gw := GenWindow(e.window, if e.Till? then LoadZero else LoadOne, idx, h, gd.next);
    var gc := GenConds(e.conds, n + 1, idx, h + 1, gw.next);
    var loop := if e.Till? then TillBody(gc.code, h, n) else WhilstBody(gc.code, h, n);
    TimedHead(code, pc, gd.code, gw.code, loop);
    var q := pc + |gd.code| + 1;
    var t := q + |gw.code|;
    var (d, st1) := Eval(pl, e.delay, st);
    ExprRuns(pl, code, s0, e.delay, h, n + 4, pc, x, base, idx, st);
    ISync(pl, code, s0, q - 1, d, base, idx, st1);
    WindowRuns(pl, code, s0, e.window, e.Till?, h, gd.next, q, d, base, idx, st1.Advance(d));
    var (w, st2) := EvalWindow(pl, e.window, if e.Till? then 0 else 1, st1.Advance(d));
    IPush(pl, code, s0, t, w, base, idx, st2);
    if e.Till? {
      TillLoopRuns(pl, code, s0, e.conds, h, n, gw.next, t + 1, w, w, base, idx, st2);
    } else {
      WhilstLoopRuns(pl, code, s0, e.conds, h, n, gw.next, t + 1, w, w, base, idx, st2);
    }
  }

  lemma TimedHead(code: seq<Instr>, pc: nat, d: seq<Instr>, w: seq<Instr>, loop: seq<Instr>)
    requires At(code, pc, d + [Sync] + w + [PushAlu] + loop)
    ensures At(code, pc, d) && At(code, pc + |d| + 1, w) && At(code, pc + |d| + 1 + |w| + 1, loop)
    ensures pc + |d| < |code| && code[pc + |d|] == Sync
    ensures pc + |d| + 1 + |w| < |code| && code[pc + |d| + 1 + |w|] == PushAlu
  {
    Cut(code, pc, d + [Sync] + w, PushAlu, loop);
    Cut(code, pc, d, Sync, w);
  }

  lemma {:induction false} WindowRuns(pl: Platform, code: seq<Instr>, s0: State, w: Option<Expr>, till: bool, h: nat,
                                      n: nat, pc: nat, x: Int32, base: seq<Int32>, idx: seq<nat>, st: Store)
    requires WfWindow(w, |idx|)
    requires Ready(pl, code, s0, pc, GenWindow(w, if till then LoadZero else LoadOne, idx, h, n).code, x, base, idx, st)
    ensures var (y, st') := EvalWindow(pl, w, if till then 0 else 1, st);
      Arrives(pl, code, s0, pc + |GenWindow(w, if till then LoadZero else LoadOne, idx, h, n).code|, y, base, idx, st')
    decreases w, 0, 0
  {
    hide Reaches;
    match w
    case None =>
      AtOne(code, pc, if till then LoadZero else LoadOne);
      IAcc(pl, code, s0, pc, x, base, idx, st);
    case Some(e) => ExprRuns(pl, code, s0, e, h, n, pc, x, base, idx, st);
  }

  /** The first condition, in the code and in its meaning. */
  lemma CondsStep(pl: Platform, conds: seq<Expr>, exit: nat, idx: seq<nat>, h: nat, n: nat, st: Store)
    ensures conds == [] ==> GenConds(conds, exit, idx, h, n).code == [] && EvalConds(pl, conds, st) == (true, st)
    ensures conds != [] ==>
      var g := GenExpr(conds[0], idx, h, n);
      var (x, st1) := Eval(pl, conds[0], st);
      && GenConds(conds, exit, idx, h, n).code == g.code + [Jz(exit)] + GenConds(conds[1..], exit, idx, h, g.next).code
      && EvalConds(pl, conds, st) == if x == 0 then (false, st1) else EvalConds(pl, conds[1..], st1)
  {
    hide GenExpr, Eval;
  }

  /** The conditions of one sample: fall through when all hold, else jump out with a zero. */
  lemma {:induction false} CondsRun(pl: Platform, code: seq<Instr>, s0: State, conds: seq<Expr>, exit: nat, q: nat,
                                    h: nat, n: nat, pc: nat, x: Int32, base: seq<Int32>, idx: seq<nat>, st: Store)
    returns (y: Int32)
    requires WfExprs(conds, |idx|) && LabelAt(code, q, exit)
    requires Ready(pl, code, s0, pc, GenConds(conds, exit, idx, h, n).code, x, base, idx, st)
    ensures var (ok, st') := EvalConds(pl, conds, st);
      if ok then Arrives(pl, code, s0, pc + |GenConds(conds, exit, idx, h, n).code|, y, base, idx, st')
      else Arrives(pl, code, s0, q + 1, y, base, idx, st')
    decreases conds, 0, 0
  {
    hide Reaches, GenConds, EvalConds, GenExpr, Eval, At;
    y := x;
    CondsStep(pl, conds, exit, idx, h, n, st);
    if conds != [] {
      var g := GenExpr(conds[0], idx, h, n);
      var gs := GenConds(conds[1..], exit, idx, h, g.next);
      Cut(code, pc, g.code, Jz(exit), gs.code);
      var p := pc + |g.code|;
      ExprRuns(pl, code, s0, conds[0], h, n, pc, x, base, idx, st);
      var (z, st1) := Eval(pl, conds[0], st);
      if z == 0 {
        IJump(pl, code, s0, p, q, exit, z, base, idx, st1);
        y := z;
      } else {
        IFall(pl, code, s0, p, exit, z, base, idx, st1);
        y := CondsRun(pl, code, s0, conds[1..], exit, q, h, g.next, p + 1, z, base, idx, st1);
      }
    }
  }

  /** Both loops count down the window and wait one sample: pop, jz, dec, push, load 1, sync. */
  lemma CountRuns(pl: Platform, code: seq<Instr>, s0: State, t: nat, out: nat, x: Int32, c: Int32,
                  base: seq<Int32>, idx: seq<nat>, st: Store)
    requires Arrives(pl, code, s0, t, x, base + [c], idx, st) && SlotsOk(idx, |base|)
    requires At(code, t, CountDown(out))
    ensures t + 6 <= |code| && code[t + 1] == Jz(out) && Arrives(pl, code, s0, t + 1, c, base, idx, st)
    ensures c != 0 ==> Arrives(pl, code, s0, t + 6, 1, base + [Wrap(c - 1)], idx, st.Advance(1))
  {
    hide Reaches;
    Tail(code, t, CountDown(out));
    IPop(pl, code, s0, t, x, c, base, idx, st);
    if c != 0 {
      var c' := Wrap(c - 1);
      IFall(pl, code, s0, t + 1, out, c, base, idx, st);
      IAcc(pl, code, s0, t + 2, c, base, idx, st);
      IPush(pl, code, s0, t + 3, c', base, idx, st);
      IAcc(pl, code, s0, t + 4, c', base + [c'], idx, st);
      ISync(pl, code, s0, t + 5, 1, base + [c'], idx, st);
    }
  }

  lemma TillEnd(code: seq<Instr>, t: nat, h: nat, n: nat)
    requires At(code, t, [Jmp(n), Label(n + 2, h + 1), Pop(1), LoadOne, Label(n + 3, h)])
    ensures t + 5 <= |code| && code[t] == Jmp(n) && Labelled(code, t + 1, n + 2, h + 1) && code[t + 2] == Pop(1)
      && code[t + 3] == LoadOne && Labelled(code, t + 4, n + 3, h)
  {
    Tail(code, t, [Jmp(n), Label(n + 2, h + 1), Pop(1), LoadOne, Label(n + 3, h)]);
  }

  lemma TillParts(code: seq<Instr>, pc: nat, g: seq<Instr>, h: nat, n: nat)
    requires At(code, pc, TillBody(g, h, n))
    ensures At(code, pc + 1, g) && Labelled(code, pc, n, h + 1)
    ensures var t := pc + 1 + |g|;
      t + 13 <= |code| && code[t] == Jmp(n + 2) && Labelled(code, t + 1, n + 1, h + 1)
      && At(code, t + 2, CountDown(n + 3)) && code[t + 8] == Jmp(n) && Labelled(code, t + 9, n + 2, h + 1)
        && code[t + 10] == Pop(1)
      && code[t + 11] == LoadOne && Labelled(code, t + 12, n + 3, h)
  {
    var mid, tail := [Jmp(n + 2), Label(n + 1, h + 1)], [Jmp(n), Label(n + 2, h + 1), Pop(1), LoadOne, Label(n + 3, h)];
    var t := pc + 1 + |g|;
    SplitFive(code, pc, [Label(n, h + 1)], g, mid, CountDown(n + 3), tail);
    AtOne(code, pc, Label(n, h + 1));
    hide At;
    TwoLines(code, t, mid[0], mid[1]);
    TillEnd(code, t + 8, h, n);
  }

  lemma SplitFive(code: seq<Instr>, pc: nat, a: seq<Instr>, b: seq<Instr>, c: seq<Instr>, d: seq<Instr>, e: seq<Instr>)
    requires At(code, pc, a + b + c + d + e)
    ensures At(code, pc, a) && At(code, pc + |a|, b) && At(code, pc + |a| + |b|, c)
    ensures At(code, pc + |a| + |b| + |c|, d) && At(code, pc + |a| + |b| + |c| + |d|, e)
  {
    AtSplit(code, pc, a + b + c + d, e);
    AtSplit(code, pc, a + b + c, d);
    AtSplit(code, pc, a + b, c);
    AtSplit(code, pc, a, b);
  }

  lemma TwoLines(code: seq<Instr>, pc: nat, i: Instr, j: Instr)
    requires At(code, pc, [i, j])
    ensures pc + 2 <= |code| && code[pc] == i && code[pc + 1] == j
  {
    Tail(code, pc, [i, j]);
  }

  lemma {:induction false} TillLoopRuns(pl: Platform, code: seq<Instr>, s0: State, conds: seq<Expr>, h: nat, n: nat,
                                        m: nat, pc: nat, x: Int32, c: Int32, base: seq<Int32>, idx: seq<nat>, st: Store)
    requires WfExprs(conds, |idx|) && SlotsOk(idx, |base|)
    requires Ready(pl, code, s0, pc, TillBody(GenConds(conds, n + 1, idx, h + 1, m).code, h, n), x, base + [c], idx, st)
    ensures var (y, st') := TillLoop(pl, conds, Count(c), st);
      Arrives(pl, code, s0, pc + |TillBody(GenConds(conds, n + 1, idx, h + 1, m).code, h, n)|, y, base, idx, st')
    decreases conds, 1, Count(c)
  {
    hide Reaches, At, EvalConds, GenConds, WfExprs, Taken, SlotsOk, Here;
    var g := GenConds(conds, n + 1, idx, h + 1, m).code;
    TillParts(code, pc, g, h, n);
    var t := pc + 1 + |g|;
    IAcc(pl, code, s0, pc, x, base + [c], idx, st);
    var y := CondsRun(pl, code, s0, conds, n + 1, t + 1, h + 1, m, pc + 1, x, base + [c], idx, st);
    var (ok, st1) := EvalConds(pl, conds, st);
    if ok {
      IJump(pl, code, s0, t, t + 9, n + 2, y, base + [c], idx, st1);
      IPop(pl, code, s0, t + 10, y, c, base, idx, st1);
      IAcc(pl, code, s0, t + 11, y, base, idx, st1);
      IAcc(pl, code, s0, t + 12, 1, base, idx, st1);
    } else {
      CounterSteps(c);
      CountRuns(pl, code, s0, t + 2, n + 3, y, c, base, idx, st1);
      if c == 0 {
        IJump(pl, code, s0, t + 3, t + 12, n + 3, c, base, idx, st1);
      } else {
        TillBack(pl, code, s0, t + 8, pc, n, Wrap(c - 1), base, idx, st1.Advance(1));
        TillLoopRuns(pl, code, s0, conds, h, n, m, pc, 1, Wrap(c - 1), base, idx, st1.Advance(1));
      }
    }
  }

  lemma TillBack(pl: Platform, code: seq<Instr>, s0: State, p: nat, pc: nat, n: nat, c: Int32,
                 base: seq<Int32>, idx: seq<nat>, st: Store)
    requires Arrives(pl, code, s0, p, 1, base + [c], idx, st) && LabelsUnique(code)
    requires p < |code| && code[p] == Jmp(n) && LabelAt(code, pc, n)
    ensures Arrives(pl, code, s0, pc, 1, base + [c], idx, st)
  {
    hide Reaches;
    IJump(pl, code, s0, p, pc, n, 1, base + [c], idx, st);
  }

  lemma WhilstEnd(code: seq<Instr>, t: nat, h: nat, n: nat)
    requires At(code, t,
                [Jmp(n), Label(n + 1, h + 1), Pop(1), LoadZero, Jmp(n + 3), Label(n + 2, h), LoadOne, Label(n + 3, h)])
    ensures t + 8 <= |code| && code[t] == Jmp(n) && Labelled(code, t + 1, n + 1, h + 1)
      && code[t + 2] == Pop(1) && code[t + 3] == LoadZero && code[t + 4] == Jmp(n + 3)
      && Labelled(code, t + 5, n + 2, h) && code[t + 6] == LoadOne && Labelled(code, t + 7, n + 3, h)
  {
    Tail(code, t,
         [Jmp(n), Label(n + 1, h + 1), Pop(1), LoadZero, Jmp(n + 3), Label(n + 2, h), LoadOne, Label(n + 3, h)]);
  }

  lemma WhilstParts(code: seq<Instr>, pc: nat, g: seq<Instr>, h: nat, n: nat)
    requires At(code, pc, WhilstBody(g, h, n))
    ensures At(code, pc + 1, g) && Labelled(code, pc, n, h + 1)
    ensures var t := pc + 1 + |g|;
      t + 14 <= |code| && At(code, t, CountDown(n + 2)) && code[t + 6] == Jmp(n) && Labelled(code, t + 7, n + 1, h + 1)
      && code[t + 8] == Pop(1) && code[t + 9] == LoadZero && code[t + 10] == Jmp(n + 3)
      && Labelled(code, t + 11, n + 2, h) && code[t + 12] == LoadOne && Labelled(code, t + 13, n + 3, h)
  {
    var tail := [Jmp(n), Label(n + 1, h + 1), Pop(1), LoadZero, Jmp(n + 3), Label(n + 2, h), LoadOne, Label(n + 3, h)];
    var t := pc + 1 + |g|;
    AtSplit(code, pc, [Label(n, h + 1)] + g + CountDown(n + 2), tail);
    AtSplit(code, pc, [Label(n, h + 1)] + g, CountDown(n + 2));
    AtSplit(code, pc, [Label(n, h + 1)], g);
    AtOne(code, pc, Label(n, h + 1));
    hide At;
    WhilstEnd(code, t + 6, h, n);
  }

  lemma {:induction false} WhilstLoopRuns(pl: Platform, code: seq<Instr>, s0: State, conds: seq<Expr>, h: nat, n: nat,
                                          m: nat, pc: nat, x: Int32, c: Int32, base: seq<Int32>, idx: seq<nat>,
                                          st: Store)
    requires WfExprs(conds, |idx|) && SlotsOk(idx, |base|)
    requires Ready(pl, code, s0, pc, WhilstBody(GenConds(conds, n + 1, idx, h + 1, m).code, h, n), x, base + [c], idx,
                   st)
    ensures var (y, st') := WhilstLoop(pl, conds, Count(c), st);
      Arrives(pl, code, s0, pc + |WhilstBody(GenConds(conds, n + 1, idx, h + 1, m).code, h, n)|, y, base, idx, st')
    decreases conds, 1, Count(c)
  {
    hide Reaches, At, EvalConds, GenConds, WfExprs;
    var g := GenConds(conds, n + 1, idx, h + 1, m).code;
    WhilstParts(code, pc, g, h, n);
    var t := pc + 1 + |g|;
    IAcc(pl, code, s0, pc, x, base + [c], idx, st);
    var y := CondsRun(pl, code, s0, conds, n + 1, t + 7, h + 1, m, pc + 1, x, base + [c], idx, st);
    var (ok, st1) := EvalConds(pl, conds, st);
    if !ok {
      IPop(pl, code, s0, t + 8, y, c, base, idx, st1);
      IAcc(pl, code, s0, t + 9, y, base, idx, st1);
      IJump(pl, code, s0, t + 10, t + 13, n + 3, 0, base, idx, st1);
    } else {
      CounterSteps(c);
      CountRuns(pl, code, s0, t, n + 2, y, c, base, idx, st1);
      if c == 0 {
        IJump(pl, code, s0, t + 1, t + 11, n + 2, c, base, idx, st1);
        IAcc(pl, code, s0, t + 12, c, base, idx, st1);
        IAcc(pl, code, s0, t + 13, 1, base, idx, st1);
      } else {
        TillBack(pl, code, s0, t + 6, pc, n, Wrap(c - 1), base, idx, st1.Advance(1));
        WhilstLoopRuns(pl, code, s0, conds, h, n, m, pc, 1, Wrap(c - 1), base, idx, st1.Advance(1));
      }
    }
  }

  /** A list of expressions, run for their effects. */
  lemma {:induction false} ExprsRun(pl: Platform, code: seq<Instr>, s0: State, es: seq<Expr>, h: nat, n: nat,
                                    pc: nat, x: Int32, base: seq<Int32>, idx: seq<nat>, st: Store)
    returns (y: Int32)
    requires WfExprs(es, |idx|)
    requires Ready(pl, code, s0, pc, GenExprs(es, idx, h, n).code, x, base, idx, st)
    ensures Arrives(pl, code, s0, pc + |GenExprs(es, idx, h, n).code|, y, base, idx, EvalAll(pl, es, st))
    decreases es
  {
    hide Reaches, GenExpr, Eval, At, LabelsUnique, Here;
    y := x;
    if es != [] {
      var g := GenExpr(es[0], idx, h, n);
      var gs := GenExprs(es[1..], idx, h, g.next);
      AtSplit(code, pc, g.code, gs.code);
      ExprRuns(pl, code, s0, es[0], h, n, pc, x, base, idx, st);
      var (z, st1) := Eval(pl, es[0], st);
      y := ExprsRun(pl, code, s0, es[1..], h, g.next, pc + |g.code|, z, base, idx, st1);
    }
  }
}
