/**
Label numbers: the generator takes each number from its counter exactly once, so together with
the numbers that the parser gave to the loops no label is written twice.
*/
module Labels {
  import opened Machine
  import opened Source
  import opened CodeGen

  function Is(i: Instr, l: nat): nat { if i.Label? && i.num == l then 1 else 0 }

  /** How many label lines of the code carry number l. */
  function Num(code: seq<Instr>, l: nat): nat {
    if code == [] then 0 else Is(code[0], l) + Num(code[1..], l)
  }

  /** How many times l is a label number of a loop in s. */
  function LoopNum(s: Stmt, l: nat): nat
    decreases s
  {
    match s
    case If(_, thn, rest) => LoopNum(thn, l) + ArmsNum(rest, l)
    case While(lp, _, body) => IdNum(lp, l) + LoopNum(body, l)
    case For(lp, _, _, _, body) => IdNum(lp, l) + LoopNum(body, l)
    case Repeat(lp, _, body) => IdNum(lp, l) + LoopNum(body, l)
    case DoWhile(lp, body, _) => IdNum(lp, l) + LoopNum(body, l)
    case Forever(lp, body) => IdNum(lp, l) + LoopNum(body, l)
    case Case(_, items) => ItemsNum(items, l)
    case Block(_, stmts) => SeqNum(stmts, l)
    case _ => 0
  }

  function IdNum(lp: LoopId, l: nat): nat {
    (if lp.cont == l then 1 else 0) + (if lp.brk == l then 1 else 0)
  }

  function ArmsNum(arms: Arms, l: nat): nat
    decreases arms
  {
    match arms
    case NoElse => 0
    case Else(body) => LoopNum(body, l)
    case Elsif(_, body, rest) => LoopNum(body, l) + ArmsNum(rest, l)
  }

  function ItemsNum(items: Items, l: nat): nat
    decreases items
  {
    match items
    case NoItem => 0
    case Default(body) => LoopNum(body, l)
    case Item(_, body, rest) => LoopNum(body, l) + ItemsNum(rest, l)
  }

  function SeqNum(ss: seq<Stmt>, l: nat): nat
    decreases ss
  {
    if ss == [] then 0 else LoopNum(ss[0], l) + SeqNum(ss[1..], l)
  }

  /** The loops of s carry distinct numbers below n, as the counter of the parser gives them. */
  ghost predicate Numbered(s: Stmt, n: nat) {
    forall l: nat :: LoopNum(s, l) <= if l < n then 1 else 0
  }

  function Between(lo: nat, l: nat, hi: nat): nat { if lo <= l < hi then 1 else 0 }

  // ----- Counting in pieces -----

  lemma {:induction false} NumAppend(a: seq<Instr>, b: seq<Instr>, l: nat)
    ensures Num(a + b, l) == Num(a, l) + Num(b, l)
    decreases |a|
  {
    if a == [] {
      assert a + b == b;
    } else {
      assert (a + b)[1..] == a[1..] + b;
      NumAppend(a[1..], b, l);
    }
  }

  lemma Num3(a: seq<Instr>, b: seq<Instr>, c: seq<Instr>, l: nat)
    ensures Num(a + b + c, l) == Num(a, l) + Num(b, l) + Num(c, l)
  {
    NumAppend(a + b, c, l);
    NumAppend(a, b, l);
  }

  lemma Num5(a: seq<Instr>, b: seq<Instr>, c: seq<Instr>, d: seq<Instr>, e: seq<Instr>, l: nat)
    ensures Num(a + b + c + d + e, l) == Num(a, l) + Num(b, l) + Num(c, l) + Num(d, l) + Num(e, l)
  {
    Num3(a + b + c, d, e, l);
    Num3(a, b, c, l);
  }

  /** Written-out code, line by line. */
  lemma {:induction false} NumLines(code: seq<Instr>, l: nat)
    ensures |code| > 0 ==> Num(code, l) == Is(code[0], l) + Num(code[1..], l)
    ensures |code| > 1 ==> Num(code, l) == Is(code[0], l) + Is(code[1], l) + Num(code[2..], l)
    ensures |code| > 2 ==> Num(code, l) == Is(code[0], l) + Is(code[1], l) + Is(code[2], l) + Num(code[3..], l)
    ensures |code| > 3 ==>
      Num(code, l) == Is(code[0], l) + Is(code[1], l) + Is(code[2], l) + Is(code[3], l) + Num(code[4..], l)
  {
    if |code| > 3 {
      assert code[1..][1..] == code[2..] && code[2..][1..] == code[3..] && code[3..][1..] == code[4..];
    } else if |code| > 2 {
      assert code[1..][1..] == code[2..] && code[2..][1..] == code[3..];
    } else if |code| > 1 {
      assert code[1..][1..] == code[2..];
    }
  }

  lemma NumNone(l: nat)
    ensures Num([], l) == 0
  {
  }

  lemma NumOne(a: Instr, l: nat)
    ensures Num([a], l) == Is(a, l)
  {
  }

  lemma NumTwo(a: Instr, b: Instr, l: nat)
    ensures Num([a, b], l) == Is(a, l) + Is(b, l)
  {
    NumLines([a, b], l);
  }

  /** Code without label lines. */
  lemma {:induction false} NoLabels(code: seq<Instr>, l: nat)
    requires forall i | 0 <= i < |code| :: !code[i].Label?
    ensures Num(code, l) == 0
    decreases |code|
  {
    if code != [] {
      NoLabels(code[1..], l);
    }
  }

  // ----- Expressions -----

  lemma {:induction false} ExprNum(e: Expr, idx: seq<nat>, h: nat, n: nat, l: nat)
    ensures var g := GenExpr(e, idx, h, n); n <= g.next && Num(g.code, l) == Between(n, l, g.next)
    decreases e, 1
  {
    hide GenBin, GenLAnd, GenLOr, GenCond, GenAssignOp, GenTimed, Num;
    var g := GenExpr(e, idx, h, n);
    match e
    case Const(_) => NoLabels(g.code, l);
    case Port(_) => NoLabels(g.code, l);
    case Local(_) => NoLabels(g.code, l);
    case PreInc(_) => NoLabels(g.code, l);
    case PreDec(_) => NoLabels(g.code, l);
    case PostInc(_) => NoLabels(g.code, l);
    case PostDec(_) => NoLabels(g.code, l);
    case Un(uop, e1) =>
      ExprNum(e1, idx, h, n, l);
      NumAfter(GenExpr(e1, idx, h, n).code, Unary(uop), l);
    case Assign(v, e1) =>
      ExprNum(e1, idx, h, n, l);
      NumAfter(GenExpr(e1, idx, h, n).code, StoreL(Slot(idx, v)), l);
    case AssignOp(_, _, _) => AssignOpNum(e, idx, h, n, l);
    case Bin(_, _, _) => BinNum(e, idx, h, n, l);
    case LAnd(_, _) => AndNum(e, idx, h, n, l);
    case LOr(_, _) => OrNum(e, idx, h, n, l);
    case Cond(_, _, _) => CondNum(e, idx, h, n, l);
    case Till(_, _, _) => TimedNum(e, idx, h, n, l);
    case Whilst(_, _, _) => TimedNum(e, idx, h, n, l);
  }

  lemma NumAfter(a: seq<Instr>, i: Instr, l: nat)
    requires !i.Label?
    ensures Num(a + [i], l) == Num(a, l)
  {
    NumAppend(a, [i], l);
    NoLabels([i], l);
  }

  lemma {:induction false} AssignOpNum(e: Expr, idx: seq<nat>, h: nat, n: nat, l: nat)
    requires e.AssignOp?
    ensures var g := GenAssignOp(e, idx, h, n); n <= g.next && Num(g.code, l) == Between(n, l, g.next)
    decreases e, 0
  {
    hide Num, GenExpr;
    ExprNum(e.e, idx, h + 1, n, l);
    var a, b := [LoadL(Slot(idx, e.v)), PushAlu], [Binary(e.op), StoreL(Slot(idx, e.v))];
    NoLabels(a, l);
    NoLabels(b, l);
    Num3(a, GenExpr(e.e, idx, h + 1, n).code, b, l);
  }

  lemma {:induction false} BinNum(e: Expr, idx: seq<nat>, h: nat, n: nat, l: nat)
    requires e.Bin?
    ensures var g := GenBin(e, idx, h, n); n <= g.next && Num(g.code, l) == Between(n, l, g.next)
    decreases e, 0
  {
    var gl := GenExpr(e.l, idx, h, n);
    var gr := GenExpr(e.r, idx, h + 1, gl.next);
    ExprNum(e.l, idx, h, n, l);
    ExprNum(e.r, idx, h + 1, gl.next, l);
    NumAppend(gl.code + [PushAlu] + gr.code, [Binary(e.op)], l);
    Num3(gl.code, [PushAlu], gr.code, l);
  }

  lemma {:induction false} AndNum(e: Expr, idx: seq<nat>, h: nat, n: nat, l: nat)
    requires e.LAnd?
    ensures var g := GenLAnd(e, idx, h, n); n <= g.next && Num(g.code, l) == Between(n, l, g.next)
    decreases e, 0
  {
    var gl := GenExpr(e.l, idx, h, n + 2);
    var gr := GenExpr(e.r, idx, h, gl.next);
    ExprNum(e.l, idx, h, n + 2, l);
    ExprNum(e.r, idx, h, gl.next, l);
    var tail := [Jz(n), LoadOne, Jmp(n + 1), Label(n, h), LoadZero, Label(n + 1, h)];
    NumAppend(gl.code + [Jz(n)] + gr.code, tail, l);
    Num3(gl.code, [Jz(n)], gr.code, l);
    NumLines(tail, l);
    NumLines(tail[4..], l);
  }

  lemma {:induction false} OrNum(e: Expr, idx: seq<nat>, h: nat, n: nat, l: nat)
    requires e.LOr?
    ensures var g := GenLOr(e, idx, h, n); n <= g.next && Num(g.code, l) == Between(n, l, g.next)
    decreases e, 0
  {
    var gl := GenExpr(e.l, idx, h, n + 3);
    var gr := GenExpr(e.r, idx, h, gl.next);
    ExprNum(e.l, idx, h, n + 3, l);
    ExprNum(e.r, idx, h, gl.next, l);
    var tail := [Jz(n + 1), Label(n, h), LoadOne, Jmp(n + 2), Label(n + 1, h), LoadZero, Label(n + 2, h)];
    NumAppend(gl.code + [Jnz(n)] + gr.code, tail, l);
    Num3(gl.code, [Jnz(n)], gr.code, l);
    NumLines(tail, l);
    NumLines(tail[4..], l);
  }

  lemma {:induction false} CondNum(e: Expr, idx: seq<nat>, h: nat, n: nat, l: nat)
    requires e.Cond?
    ensures var g := GenCond(e, idx, h, n); n <= g.next && Num(g.code, l) == Between(n, l, g.next)
    decreases e, 0
  {
    var gc := GenExpr(e.cond, idx, h, n + 2);
    var gt := GenExpr(e.thn, idx, h, gc.next);
    var gf := GenExpr(e.els, idx, h, gt.next);
    ExprNum(e.cond, idx, h, n + 2, l);
    ExprNum(e.thn, idx, h, gc.next, l);
    ExprNum(e.els, idx, h, gt.next, l);
    BranchNum(gc.code, gt.code, gf.code, h, n, l);
  }

  lemma Num6(c: seq<Instr>, t: seq<Instr>, f: seq<Instr>, jz: seq<Instr>, mid: seq<Instr>, end: seq<Instr>, l: nat)
    ensures Num(c + jz + t + mid + f + end, l)
            == Num(c, l) + Num(jz, l) + Num(t, l) + Num(mid, l) + Num(f, l) + Num(end, l)
  {
    hide Num;
    NumAppend(c + jz + t + mid + f, end, l);
    Num5(c, jz, t, mid, f, l);
  }

  lemma BranchLines(h: nat, n: nat, l: nat)
    ensures Num([Jz(n)], l) + Num([Jmp(n + 1), Label(n, h)], l) + Num([Label(n + 1, h)], l) == Between(n, l, n + 2)
  {
    hide Num;
    NumTwo(Jmp(n + 1), Label(n, h), l);
    NumOne(Jz(n), l);
    NumOne(Label(n + 1, h), l);
  }

  lemma BranchNum(c: seq<Instr>, t: seq<Instr>, f: seq<Instr>, h: nat, n: nat, l: nat)
    ensures Num(c + [Jz(n)] + t + [Jmp(n + 1), Label(n, h)] + f + [Label(n + 1, h)], l)
      == Num(c, l) + Num(t, l) + Num(f, l) + Between(n, l, n + 2)
  {
    hide Num;
    Num6(c, t, f, [Jz(n)], [Jmp(n + 1), Label(n, h)], [Label(n + 1, h)], l);
    BranchLines(h, n, l);
  }

  lemma {:induction false} TimedNum(e: Expr, idx: seq<nat>, h: nat, n: nat, l: nat)
    requires e.Till? || e.Whilst?
    ensures var g := GenTimed(e, idx, h, n); n <= g.next && Num(g.code, l) == Between(n, l, g.next)
    decreases e, 0
  {
    hide Num, GenExpr, GenWindow, GenConds, TillBody, WhilstBody;
    var gd := GenExpr(e.delay, idx, h, n + 4);
    var default := if e.Till? then LoadZero else LoadOne;
    var gw := GenWindow(e.window, default, idx, h, gd.next);
    var gc := GenConds(e.conds, n + 1, idx, h + 1, gw.next);
    ExprNum(e.delay, idx, h, n + 4, l);
    WindowNum(e.window, default, idx, h, gd.next, l);
    CondsNum(e.conds, n + 1, idx, h + 1, gw.next, l);
    var loop := if e.Till? then TillBody(gc.code, h, n) else WhilstBody(gc.code, h, n);
    TillNum(gc.code, h, n, l);
    WhilstNum(gc.code, h, n, l);
    SampledNum(gd.code, gw.code, loop, l);
  }

  lemma {:induction false} WindowNum(w: Option<Expr>, default: Instr, idx: seq<nat>, h: nat, n: nat, l: nat)
    requires !default.Label?
    ensures var g := GenWindow(w, default, idx, h, n); n <= g.next && Num(g.code, l) == Between(n, l, g.next)
    decreases w, 0
  {
    if w.Some? {
      ExprNum(w.value, idx, h, n, l);
    } else {
      NoLabels([default], l);
    }
  }

  lemma SampledNum(d: seq<Instr>, w: seq<Instr>, loop: seq<Instr>, l: nat)
    ensures Num(d + [Sync] + w + [PushAlu] + loop, l) == Num(d, l) + Num(w, l) + Num(loop, l)
  {
    hide Num;
    Num5(d, [Sync], w, [PushAlu], loop, l);
    NumOne(Sync, l);
    NumOne(PushAlu, l);
  }

  lemma TillNum(g: seq<Instr>, h: nat, n: nat, l: nat)
    ensures Num(TillBody(g, h, n), l) == Num(g, l) + Between(n, l, n + 4)
  {
    var a, b := [Jmp(n + 2), Label(n + 1, h + 1)], [Jmp(n), Label(n + 2, h + 1), Pop(1), LoadOne, Label(n + 3, h)];
    NoLabels(CountDown(n + 3), l);
    hide Num;
    Num5([Label(n, h + 1)], g, a, CountDown(n + 3), b, l);
    NumOne(Label(n, h + 1), l);
    NumTwo(a[0], a[1], l);
    NumLines(b, l);
    assert b[4..] == [Label(n + 3, h)];
    NumOne(Label(n + 3, h), l);
  }

  lemma WhilstNum(g: seq<Instr>, h: nat, n: nat, l: nat)
    ensures Num(WhilstBody(g, h, n), l) == Num(g, l) + Between(n, l, n + 4)
  {
    var c := [Jmp(n), Label(n + 1, h + 1), Pop(1), LoadZero, Jmp(n + 3), Label(n + 2, h), LoadOne, Label(n + 3, h)];
    NoLabels(CountDown(n + 2), l);
    hide Num;
    NumAppend([Label(n, h + 1)] + g + CountDown(n + 2), c, l);
    Num3([Label(n, h + 1)], g, CountDown(n + 2), l);
    NumOne(Label(n, h + 1), l);
    NumLines(c, l);
    NumLines(c[4..], l);
    assert c[4..][4..] == [];
    NumNone(l);
  }

  lemma {:induction false} CondsNum(conds: seq<Expr>, exit: nat, idx: seq<nat>, h: nat, n: nat, l: nat)
    ensures var g := GenConds(conds, exit, idx, h, n); n <= g.next && Num(g.code, l) == Between(n, l, g.next)
    decreases conds, 0
  {
    if conds != [] {
      var g := GenExpr(conds[0], idx, h, n);
      ExprNum(conds[0], idx, h, n, l);
      CondsNum(conds[1..], exit, idx, h, g.next, l);
      Num3(g.code, [Jz(exit)], GenConds(conds[1..], exit, idx, h, g.next).code, l);
    }
  }

  lemma {:induction false} ExprsNum(es: seq<Expr>, idx: seq<nat>, h: nat, n: nat, l: nat)
    ensures var g := GenExprs(es, idx, h, n); n <= g.next && Num(g.code, l) == Between(n, l, g.next)
    decreases es
  {
    if es != [] {
      var g := GenExpr(es[0], idx, h, n);
      ExprNum(es[0], idx, h, n, l);
      ExprsNum(es[1..], idx, h, g.next, l);
      NumAppend(g.code, GenExprs(es[1..], idx, h, g.next).code, l);
    }
  }

  // ----- Statements -----

  lemma {:induction false} StmtNum(s: Stmt, idx: seq<nat>, level: nat, ls: seq<LabelData>, n: nat, l: nat)
    ensures var g := GenStmt(s, idx, level, ls, n);
      n <= g.next && Num(g.code, l) == Between(n, l, g.next) + LoopNum(s, l)
    decreases s, 1
  {
    hide ArmsNum, ItemsNum, SeqNum;
    match s
    case Null => NoLabels([NullInstr], l);
    case ExprStmt(e) => ExprNum(e, idx, level, n, l);
    case If(_, _, _) => IfNum(s, idx, level, ls, n, l);
    case While(_, _, _) => WhileNum(s, idx, level, ls, n, l);
    case For(_, _, _, _, _) => ForNum(s, idx, level, ls, n, l);
    case Repeat(_, _, _) => RepeatNum(s, idx, level, ls, n, l);
    case DoWhile(_, _, _) => DoWhileNum(s, idx, level, ls, n, l);
    case Forever(_, _) => ForeverNum(s, idx, level, ls, n, l);
    case Case(_, _) => CaseNum(s, idx, level, ls, n, l);
    case Break(target) => NoLabels(GenBreak(FindLabel(ls, target), level), l);
    case Continue(target) => NoLabels(GenContinue(FindLabel(ls, target), level), l);
    case Block(_, _) => BlockNum(s, idx, level, ls, n, l);
  }

  lemma {:induction false} IfNum(s: Stmt, idx: seq<nat>, level: nat, ls: seq<LabelData>, n: nat, l: nat)
    requires s.If?
    ensures var g := GenIf(s, idx, level, ls, n); n <= g.next && Num(g.code, l) == Between(n, l, g.next) + LoopNum(s, l)
    decreases s, 0
  {
    var gc := GenExpr(s.cond, idx, level, n + 2);
    var gt := GenStmt(s.thn, idx, level, ls, gc.next);
    var gr := GenArms(s.rest, n + 1, idx, level, ls, gt.next);
    ExprNum(s.cond, idx, level, n + 2, l);
    StmtNum(s.thn, idx, level, ls, gc.next, l);
    ArmsCodeNum(s.rest, n + 1, idx, level, ls, gt.next, l);
    BranchNum(gc.code, gt.code, gr.code, level, n, l);
  }

  lemma {:induction false} ArmsCodeNum(arms: Arms, exit: nat, idx: seq<nat>, level: nat, ls: seq<LabelData>, n: nat,
                                       l: nat)
    ensures var g := GenArms(arms, exit, idx, level, ls, n);
      n <= g.next && Num(g.code, l) == Between(n, l, g.next) + ArmsNum(arms, l)
    decreases arms, 0
  {
    match arms
    case NoElse =>
    case Else(body) => StmtNum(body, idx, level, ls, n, l);
    case Elsif(c, body, rest) =>
      var gc := GenExpr(c, idx, level, n + 1);
      var gb := GenStmt(body, idx, level, ls, gc.next);
      var gr := GenArms(rest, exit, idx, level, ls, gb.next);
      ExprNum(c, idx, level, n + 1, l);
      StmtNum(body, idx, level, ls, gc.next, l);
      ArmsCodeNum(rest, exit, idx, level, ls, gb.next, l);
      Num5(gc.code, [Jz(n)], gb.code, [Jmp(exit), Label(n, level)], gr.code, l);
      NumLines([Jmp(exit), Label(n, level)], l);
  }

  lemma {:induction false} WhileNum(s: Stmt, idx: seq<nat>, level: nat, ls: seq<LabelData>, n: nat, l: nat)
    requires s.While?
    ensures var g := GenWhile(s, idx, level, ls, n);
      n <= g.next && Num(g.code, l) == Between(n, l, g.next) + LoopNum(s, l)
    decreases s, 0
  {
    var gc := GenExpr(s.cond, idx, level, n);
    var inner := Enter(ls, s.lp, level, 0);
    var gb := GenStmt(s.body, idx, level, inner, gc.next);
    ExprNum(s.cond, idx, level, n, l);
    StmtNum(s.body, idx, level, inner, gc.next, l);
    var tail := [Jmp(s.lp.cont), Label(s.lp.brk, level)];
    Num5([Label(s.lp.cont, level)], gc.code, [Jz(s.lp.brk)], gb.code, tail, l);
    NumLines(tail, l);
  }

  lemma {:induction false} ForeverNum(s: Stmt, idx: seq<nat>, level: nat, ls: seq<LabelData>, n: nat, l: nat)
    requires s.Forever?
    ensures var g := GenForever(s, idx, level, ls, n);
      n <= g.next && Num(g.code, l) == Between(n, l, g.next) + LoopNum(s, l)
    decreases s, 0
  {
    var inner := Enter(ls, s.lp, level, 0);
    StmtNum(s.body, idx, level, inner, n, l);
    var tail := [Jmp(s.lp.cont), Label(s.lp.brk, level)];
    Num3([Label(s.lp.cont, level)], GenStmt(s.body, idx, level, inner, n).code, tail, l);
    NumLines(tail, l);
  }

  lemma {:induction false} DoWhileNum(s: Stmt, idx: seq<nat>, level: nat, ls: seq<LabelData>, n: nat, l: nat)
    requires s.DoWhile?
    ensures var g := GenDoWhile(s, idx, level, ls, n);
      n <= g.next && Num(g.code, l) == Between(n, l, g.next) + LoopNum(s, l)
    decreases s, 0
  {
    hide GenExpr;
    var inner := Enter(ls, s.lp, level, 0);
    var gb := GenStmt(s.body, idx, level, inner, n + 1);
    var gc := GenExpr(s.cond, idx, level, gb.next);
    StmtNum(s.body, idx, level, inner, n + 1, l);
    ExprNum(s.cond, idx, level, gb.next, l);
    var tail := [Jnz(n), Label(s.lp.brk, level)];
    Num5([Label(n, level)], gb.code, [Label(s.lp.cont, level)], gc.code, tail, l);
    NumLines(tail, l);
  }

  lemma {:induction false} ForNum(s: Stmt, idx: seq<nat>, level: nat, ls: seq<LabelData>, n: nat, l: nat)
    requires s.For?
    ensures var g := GenFor(s, idx, level, ls, n);
      n <= g.next && Num(g.code, l) == Between(n, l, g.next) + LoopNum(s, l)
    decreases s, 0
  {
    var inner := Enter(ls, s.lp, level, 0);
    var gi := GenExprs(s.init, idx, level, n + 1);
    var gc := GenTest(s.test, s.lp.brk, idx, level, gi.next);
    var gb := GenStmt(s.body, idx, level, inner, gc.next);
    var gl := GenExprs(s.last, idx, level, gb.next);
    ExprsNum(s.init, idx, level, n + 1, l);
    if s.test.Some? {
      ExprNum(s.test.value, idx, level, gi.next, l);
      NumAppend(GenExpr(s.test.value, idx, level, gi.next).code, [Jz(s.lp.brk)], l);
    }
    StmtNum(s.body, idx, level, inner, gc.next, l);
    ExprsNum(s.last, idx, level, gb.next, l);
    ForPieces(gi.code, gc.code, gb.code, gl.code, s.lp, level, n, l);
  }

  lemma ForPieces(i: seq<Instr>, c: seq<Instr>, b: seq<Instr>, e: seq<Instr>, lp: LoopId, level: nat, top: nat, l: nat)
    ensures Num(i + ([Label(top, level)] + c + b + [Label(lp.cont, level)] + e + [Jmp(top), Label(lp.brk, level)]), l)
      == Num(i, l) + Num(c, l) + Num(b, l) + Num(e, l) + IdNum(lp, l) + Between(top, l, top + 1)
  {
    var tail := [Jmp(top), Label(lp.brk, level)];
    var loop := [Label(top, level)] + c + b + [Label(lp.cont, level)] + e;
    NumAppend(i, loop + tail, l);
    NumAppend(loop, tail, l);
    Num5([Label(top, level)], c, b, [Label(lp.cont, level)], e, l);
    NumLines(tail, l);
  }

  lemma {:induction false} RepeatNum(s: Stmt, idx: seq<nat>, level: nat, ls: seq<LabelData>, n: nat, l: nat)
    requires s.Repeat?
    ensures var g := GenRepeat(s, idx, level, ls, n);
      n <= g.next && Num(g.code, l) == Between(n, l, g.next) + LoopNum(s, l)
    decreases s, 0
  {
    var inner := Enter(ls, s.lp, level, 1);
    var gn := GenExpr(s.number, idx, level, n + 2);
    var gb := GenStmt(s.body, idx, level + 1, inner, gn.next);
    ExprNum(s.number, idx, level, n + 2, l);
    StmtNum(s.body, idx, level + 1, inner, gn.next, l);
    var head := [Label(n, level + 1), Jz(n + 1)];
    var tail := [Label(s.lp.cont, level + 1), PopAlu, Dec, PushAlu, Jmp(n), Label(n + 1, level + 1), Pop(1),
                 Label(s.lp.brk, level)];
    Num3(gn.code, [PushAlu], head + gb.code + tail, l);
    Num3(head, gb.code, tail, l);
    RepeatLines(s.lp, level, n, l);
  }

  lemma RepeatLines(lp: LoopId, level: nat, n: nat, l: nat)
    ensures Num([Label(n, level + 1), Jz(n + 1)], l)
      + Num([Label(lp.cont, level + 1), PopAlu, Dec, PushAlu, Jmp(n), Label(n + 1, level + 1), Pop(1),
             Label(lp.brk, level)], l)
      == Between(n, l, n + 2) + IdNum(lp, l)
  {
    var head := [Label(n, level + 1), Jz(n + 1)];
    var tail := [Label(lp.cont, level + 1), PopAlu, Dec, PushAlu, Jmp(n), Label(n + 1, level + 1), Pop(1),
                 Label(lp.brk, level)];
    NumLines(head, l);
    NumLines(tail, l);
    NumLines(tail[4..], l);
  }

  lemma {:induction false} CaseNum(s: Stmt, idx: seq<nat>, level: nat, ls: seq<LabelData>, n: nat, l: nat)
    requires s.Case?
    ensures var g := GenCase(s, idx, level, ls, n);
      n <= g.next && Num(g.code, l) == Between(n, l, g.next) + LoopNum(s, l)
    decreases s, 0
  {
    var gc := GenExpr(s.cond, idx, level, n + 1);
    var gs := GenItems(s.items, n, idx, level, ls, gc.next);
    ExprNum(s.cond, idx, level, n + 1, l);
    ItemsCodeNum(s.items, n, idx, level, ls, gc.next, l);
    NumAppend(gc.code + [PushAlu] + gs.code, [Label(n, level)], l);
    Num3(gc.code, [PushAlu], gs.code, l);
  }

  lemma {:induction false} ItemsCodeNum(items: Items, exit: nat, idx: seq<nat>, level: nat, ls: seq<LabelData>, n: nat,
                                        l: nat)
    ensures var g := GenItems(items, exit, idx, level, ls, n);
      n <= g.next && Num(g.code, l) == Between(n, l, g.next) + ItemsNum(items, l)
    decreases items, 0
  {
    hide Num, GenStmt, GenMatch;
    match items
    case NoItem => NoLabels([Pop(1)], l);
    case Default(body) =>
      StmtNum(body, idx, level, ls, n, l);
      NoLabels([Pop(1)], l);
      NoLabels([Jmp(exit)], l);
      Num3([Pop(1)], GenStmt(body, idx, level, ls, n).code, [Jmp(exit)], l);
    case Item(conds, body, rest) =>
      var gc := GenMatch(conds, n, idx, level + 1, n + 2);
      var gb := GenStmt(body, idx, level, ls, gc.next);
      var gr := GenItems(rest, exit, idx, level, ls, gb.next);
      MatchNum(conds, n, idx, level + 1, n + 2, l);
      StmtNum(body, idx, level, ls, gc.next, l);
      ItemsCodeNum(rest, exit, idx, level, ls, gb.next, l);
      var f, g := [Jmp(n + 1), Label(n, level + 1), Pop(1)], [Jmp(exit), Label(n + 1, level + 1)];
      Num5(gc.code, f, gb.code, g, gr.code, l);
      NumLines(f, l);
      assert f[3..] == [];
      NumNone(l);
      NumTwo(g[0], g[1], l);
  }

  lemma {:induction false} MatchNum(conds: seq<Expr>, hit: nat, idx: seq<nat>, h: nat, n: nat, l: nat)
    ensures var g := GenMatch(conds, hit, idx, h, n); n <= g.next && Num(g.code, l) == Between(n, l, g.next)
    decreases conds
  {
    if conds != [] {
      var g := GenExpr(conds[0], idx, h, n);
      ExprNum(conds[0], idx, h, n, l);
      MatchNum(conds[1..], hit, idx, h, g.next, l);
      Num3(g.code, [Cmp, Jnz(hit)], GenMatch(conds[1..], hit, idx, h, g.next).code, l);
      NoLabels([Cmp, Jnz(hit)], l);
    }
  }

  lemma {:induction false} BlockNum(s: Stmt, idx: seq<nat>, level: nat, ls: seq<LabelData>, n: nat, l: nat)
    requires s.Block?
    ensures var g := GenBlock(s, idx, level, ls, n);
      n <= g.next && Num(g.code, l) == Between(n, l, g.next) + LoopNum(s, l)
    decreases s, 0
  {
    hide Num, GenInits, GenSeq;
    var k := |s.vars|;
    var idx1 := idx + Slots(level, k);
    var gi := GenInits(s.vars, |idx|, idx1, level + k, n);
    var gs := GenSeq(s.stmts, idx1, level + k, ls, gi.next);
    InitsNum(s.vars, |idx|, idx1, level + k, n, l);
    SeqCodeNum(s.stmts, idx1, level + k, ls, gi.next, l);
    NumAppend(LVars(level, k) + gi.code + gs.code, PopIf(k), l);
    Num3(LVars(level, k), gi.code, gs.code, l);
    NoLabels(LVars(level, k), l);
    NoLabels(PopIf(k), l);
  }

  lemma {:induction false} InitsNum(vars: seq<Option<Expr>>, v: nat, idx: seq<nat>, level: nat, n: nat, l: nat)
    ensures var g := GenInits(vars, v, idx, level, n); n <= g.next && Num(g.code, l) == Between(n, l, g.next)
    decreases |vars|
  {
    if vars != [] {
      if vars[0].None? {
        InitsNum(vars[1..], v + 1, idx, level, n, l);
      } else {
        var g := GenExpr(Assign(v, vars[0].value), idx, level, n);
        ExprNum(Assign(v, vars[0].value), idx, level, n, l);
        InitsNum(vars[1..], v + 1, idx, level, g.next, l);
        NumAppend(g.code, GenInits(vars[1..], v + 1, idx, level, g.next).code, l);
      }
    }
  }

  lemma {:induction false} SeqCodeNum(ss: seq<Stmt>, idx: seq<nat>, level: nat, ls: seq<LabelData>, n: nat, l: nat)
    ensures var g := GenSeq(ss, idx, level, ls, n);
      n <= g.next && Num(g.code, l) == Between(n, l, g.next) + SeqNum(ss, l)
    decreases ss, 0
  {
    if ss != [] {
      var g := GenStmt(ss[0], idx, level, ls, n);
      StmtNum(ss[0], idx, level, ls, n, l);
      SeqCodeNum(ss[1..], idx, level, ls, g.next, l);
      NumAppend(g.code, GenSeq(ss[1..], idx, level, ls, g.next).code, l);
    }
  }

  // ----- The result -----

  /** A label line is counted. */
  lemma {:induction false} Counted(code: seq<Instr>, i: nat)
    requires i < |code| && code[i].Label?
    ensures Num(code, code[i].num) >= 1
    decreases i
  {
    if i > 0 {
      Counted(code[1..], i - 1);
    }
  }

  lemma {:induction false} CountedTwice(code: seq<Instr>, i: nat, j: nat)
    requires i < j < |code| && code[i].Label? && code[j].Label? && code[i].num == code[j].num
    ensures Num(code, code[i].num) >= 2
    decreases i
  {
    if i == 0 {
      Counted(code[1..], j - 1);
    } else {
      CountedTwice(code[1..], i - 1, j - 1);
    }
  }

  /** No label is written twice when the generator's counter starts above the parser's numbers. */
  lemma GeneratedLabelsUnique(s: Stmt, idx: seq<nat>, level: nat, n: nat)
    requires Numbered(s, n)
    ensures LabelsUnique(GenStmt(s, idx, level, [], n).code)
  {
    var code := GenStmt(s, idx, level, [], n).code;
    forall i, j | 0 <= i < j < |code| && code[i].Label? && code[j].Label?
      ensures code[i].num != code[j].num
    {
      var l := code[i].num;
      assert LoopNum(s, l) <= if l < n then 1 else 0;
      StmtNum(s, idx, level, [], n, l);
      if l == code[j].num {
        CountedTwice(code, i, j);
      }
    }
  }
}
