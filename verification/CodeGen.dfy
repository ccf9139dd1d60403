/**
What the generator writes, as functions of the program: the text, and the next free label
number. `h` and `level` are the height of the frame in front of the text.
*/
module CodeGen {
  import opened Machine
  import opened Source

  datatype Gen = Gen(code: seq<Instr>, next: nat)

  /** An entry of the label stack: one enclosing loop. */
  datatype LabelData = LabelData(name: string, cont: nat, brk: nat, level: nat, rpt: nat)

  /** The innermost entry, or the innermost entry with the given name. */
  function FindLabel(ls: seq<LabelData>, target: Option<string>): Option<LabelData> {
    if ls == [] then None
    else
      var lb := ls[|ls| - 1];
      if Catches(lb.name, target) then Some(lb) else FindLabel(ls[..|ls| - 1], target)
  }

  /** Entry i is the one that a break or a continue means: the last, or the last with the name. */
  ghost predicate IsMeant(ls: seq<LabelData>, target: Option<string>, i: nat)
    requires i < |ls|
  {
    match target
    case None => i == |ls| - 1
    case Some(name) => ls[i].name == name && forall j | i < j < |ls| :: ls[j].name != name
  }

  /** The search finds the entry that is meant, and nothing only when there is none. */
  lemma {:induction false} FoundIsMeant(ls: seq<LabelData>, target: Option<string>)
    ensures FindLabel(ls, target).None? <==> forall i | 0 <= i < |ls| :: !IsMeant(ls, target, i)
    ensures forall i | 0 <= i < |ls| :: IsMeant(ls, target, i) ==> FindLabel(ls, target) == Some(ls[i])
    decreases |ls|
  {
    if ls != [] {
      var last := |ls| - 1;
      var rest := ls[..last];
      FoundIsMeant(rest, target);
      assert target.None? || ls[last].name == target.value ==> IsMeant(ls, target, last);
      if target.Some? && ls[last].name != target.value {
        forall i | 0 <= i < last ensures IsMeant(ls, target, i) <==> IsMeant(rest, target, i) {
          assert forall j | i < j < last :: rest[j] == ls[j];
        }
        assert !IsMeant(ls, target, last);
      }
    }
  }

  function Slot(idx: seq<nat>, v: nat): nat { if v < |idx| then idx[v] else 0 }

  // ----- Expressions -----

  function GenExpr(e: Expr, idx: seq<nat>, h: nat, n: nat): Gen
    decreases e, 1
  {
    match e
    case Const(c) => Gen([LoadConst(c)], n)
    case Local(v) => Gen([LoadL(Slot(idx, v))], n)
    case Port(p) => Gen([LoadPort(p)], n)
    case Bin(_, _, _) => GenBin(e, idx, h, n)
    case Un(uop, e1) => var g := GenExpr(e1, idx, h, n); Gen(g.code + [Unary(uop)], g.next)
    case LAnd(_, _) => GenLAnd(e, idx, h, n)
    case LOr(_, _) => GenLOr(e, idx, h, n)
    case Cond(_, _, _) => GenCond(e, idx, h, n)
    case PreInc(v) => Gen([LoadL(Slot(idx, v)), Inc, StoreL(Slot(idx, v))], n)
    case PreDec(v) => Gen([LoadL(Slot(idx, v)), Dec, StoreL(Slot(idx, v))], n)
    case PostInc(v) => Gen(GenPost(Inc, Slot(idx, v)), n)
    case PostDec(v) => Gen(GenPost(Dec, Slot(idx, v)), n)
    case Assign(v, e1) => var g := GenExpr(e1, idx, h, n); Gen(g.code + [StoreL(Slot(idx, v))], g.next)
    case AssignOp(_, _, _) => GenAssignOp(e, idx, h, n)
    case Till(_, _, _) => GenTimed(e, idx, h, n)
    case Whilst(_, _, _) => GenTimed(e, idx, h, n)
  }

  function GenPost(step: Instr, slot: nat): seq<Instr> {
    [LoadL(slot), PushAlu, step, StoreL(slot), PopAlu]
  }

  function GenBin(e: Expr, idx: seq<nat>, h: nat, n: nat): Gen
    requires e.Bin?
    decreases e, 0
  {
    var gl := GenExpr(e.l, idx, h, n);
    var gr := GenExpr(e.r, idx, h + 1, gl.next);
    Gen(gl.code + [PushAlu] + gr.code + [Binary(e.op)], gr.next)
  }

  function GenLAnd(e: Expr, idx: seq<nat>, h: nat, n: nat): Gen
    requires e.LAnd?
    decreases e, 0
  {
    var gl := GenExpr(e.l, idx, h, n + 2);
    var gr := GenExpr(e.r, idx, h, gl.next);
    Gen(gl.code + [Jz(n)] + gr.code
        + [Jz(n), LoadOne, Jmp(n + 1), Label(n, h), LoadZero, Label(n + 1, h)], gr.next)
  }

  function GenLOr(e: Expr, idx: seq<nat>, h: nat, n: nat): Gen
    requires e.LOr?
    decreases e, 0
  {
    var gl := GenExpr(e.l, idx, h, n + 3);
    var gr := GenExpr(e.r, idx, h, gl.next);
    Gen(gl.code + [Jnz(n)] + gr.code
        + [Jz(n + 1), Label(n, h), LoadOne, Jmp(n + 2), Label(n + 1, h), LoadZero, Label(n + 2, h)], gr.next)
  }

  function GenCond(e: Expr, idx: seq<nat>, h: nat, n: nat): Gen
    requires e.Cond?
    decreases e, 0
  {
    var gc := GenExpr(e.cond, idx, h, n + 2);
    var gt := GenExpr(e.thn, idx, h, gc.next);
    var gf := GenExpr(e.els, idx, h, gt.next);
    Gen(gc.code + [Jz(n)] + gt.code + [Jmp(n + 1), Label(n, h)] + gf.code + [Label(n + 1, h)], gf.next)
  }

  function GenAssignOp(e: Expr, idx: seq<nat>, h: nat, n: nat): Gen
    requires e.AssignOp?
    decreases e, 0
  {
    var g := GenExpr(e.e, idx, h + 1, n);
    Gen([LoadL(Slot(idx, e.v)), PushAlu] + g.code + [Binary(e.op), StoreL(Slot(idx, e.v))], g.next)
  }

  /** A timed expression; a missing window counts as 0 in a "till" and as 1 in a "while". */
  function GenTimed(e: Expr, idx: seq<nat>, h: nat, n: nat): Gen
    requires e.Till? || e.Whilst?
    decreases e, 0
  {
    var gd := GenExpr(e.delay, idx, h, n + 4);
    var gw := GenWindow(e.window, if e.Till? then LoadZero else LoadOne, idx, h, gd.next);
    var gc := GenConds(e.conds, n + 1, idx, h + 1, gw.next);
    var loop := if e.Till? then TillBody(gc.code, h, n) else WhilstBody(gc.code, h, n);
    Gen(gd.code + [Sync] + gw.code + [PushAlu] + loop, gc.next)
  }

  /** The sampling loop of a "till": labels n loop, n+1 end check, n+2 true, n+3 exit. */
  function TillBody(conds: seq<Instr>, h: nat, n: nat): seq<Instr> {
    [Label(n, h + 1)] + conds
    + [Jmp(n + 2), Label(n + 1, h + 1)] + CountDown(n + 3)
    + [Jmp(n), Label(n + 2, h + 1), Pop(1), LoadOne, Label(n + 3, h)]
  }

  /** The sampling loop of a "while": labels n loop, n+1 false, n+2 true, n+3 exit. */
  function WhilstBody(conds: seq<Instr>, h: nat, n: nat): seq<Instr> {
    [Label(n, h + 1)] + conds
    + CountDown(n + 2)
    + [Jmp(n), Label(n + 1, h + 1), Pop(1), LoadZero, Jmp(n + 3), Label(n + 2, h), LoadOne, Label(n + 3, h)]
  }

  /** Leaves by the label `out` when the window on the stack is used up, else waits one sample. */
  function CountDown(out: nat): seq<Instr> {
    [PopAlu, Jz(out), Dec, PushAlu, LoadOne, Sync]
  }

  function GenWindow(w: Option<Expr>, default: Instr, idx: seq<nat>, h: nat, n: nat): Gen
    decreases w, 0
  {
    match w
    case None => Gen([default], n)
    case Some(e) => GenExpr(e, idx, h, n)
  }

  function GenConds(conds: seq<Expr>, exit: nat, idx: seq<nat>, h: nat, n: nat): Gen
    decreases conds, 0
  {
    if conds == [] then Gen([], n)
    else
      var g := GenExpr(conds[0], idx, h, n);
      var gs := GenConds(conds[1..], exit, idx, h, g.next);
      Gen(g.code + [Jz(exit)] + gs.code, gs.next)
  }

  /** A list of expressions evaluated for their effects. */
  function GenExprs(es: seq<Expr>, idx: seq<nat>, h: nat, n: nat): Gen {
    if es == [] then Gen([], n)
    else
      var g := GenExpr(es[0], idx, h, n);
      var gs := GenExprs(es[1..], idx, h, g.next);
      Gen(g.code + gs.code, gs.next)
  }

  // ----- Statements -----

  function GenStmt(s: Stmt, idx: seq<nat>, level: nat, ls: seq<LabelData>, n: nat): Gen
    decreases s, 2
  {
    match s
    case Null => Gen([NullInstr], n)
    case ExprStmt(e) => GenExpr(e, idx, level, n)
    case If(_, _, _) => GenIf(s, idx, level, ls, n)
    case While(_, _, _) => GenWhile(s, idx, level, ls, n)
    case For(_, _, _, _, _) => GenFor(s, idx, level, ls, n)
    case Repeat(_, _, _) => GenRepeat(s, idx, level, ls, n)
    case DoWhile(_, _, _) => GenDoWhile(s, idx, level, ls, n)
    case Forever(_, _) => GenForever(s, idx, level, ls, n)
    case Case(_, _) => GenCase(s, idx, level, ls, n)
    case Break(target) => Gen(GenBreak(FindLabel(ls, target), level), n)
    case Continue(target) => Gen(GenContinue(FindLabel(ls, target), level), n)
    case Block(_, _) => GenBlock(s, idx, level, ls, n)
  }

  function GenIf(s: Stmt, idx: seq<nat>, level: nat, ls: seq<LabelData>, n: nat): Gen
    requires s.If?
    decreases s, 1
  {
    var gc := GenExpr(s.cond, idx, level, n + 2);
    var gt := GenStmt(s.thn, idx, level, ls, gc.next);
    var gr := GenArms(s.rest, n + 1, idx, level, ls, gt.next);
    Gen(gc.code + [Jz(n)] + gt.code + [Jmp(n + 1), Label(n, level)] + gr.code + [Label(n + 1, level)], gr.next)
  }

  function GenWhile(s: Stmt, idx: seq<nat>, level: nat, ls: seq<LabelData>, n: nat): Gen
    requires s.While?
    decreases s, 1
  {
    var gc := GenExpr(s.cond, idx, level, n);
    var gb := GenStmt(s.body, idx, level, Enter(ls, s.lp, level, 0), gc.next);
    Gen([Label(s.lp.cont, level)] + gc.code + [Jz(s.lp.brk)] + gb.code
        + [Jmp(s.lp.cont), Label(s.lp.brk, level)], gb.next)
  }

  function GenFor(s: Stmt, idx: seq<nat>, level: nat, ls: seq<LabelData>, n: nat): Gen
    requires s.For?
    decreases s, 1
  {
    var gi := GenExprs(s.init, idx, level, n + 1);
    var gl := GenForLoop(s, idx, level, ls, n, gi.next);
    Gen(gi.code + gl.code, gl.next)
  }

  function GenRepeat(s: Stmt, idx: seq<nat>, level: nat, ls: seq<LabelData>, n: nat): Gen
    requires s.Repeat?
    decreases s, 1
  {
    var gn := GenExpr(s.number, idx, level, n + 2);
    var gl := GenRepeatLoop(s, idx, level, ls, n, gn.next);
    Gen(gn.code + [PushAlu] + gl.code, gl.next)
  }

  function GenDoWhile(s: Stmt, idx: seq<nat>, level: nat, ls: seq<LabelData>, n: nat): Gen
    requires s.DoWhile?
    decreases s, 1
  {
    var gb := GenStmt(s.body, idx, level, Enter(ls, s.lp, level, 0), n + 1);
    var gc := GenExpr(s.cond, idx, level, gb.next);
    Gen([Label(n, level)] + gb.code + [Label(s.lp.cont, level)] + gc.code
        + [Jnz(n), Label(s.lp.brk, level)], gc.next)
  }

  function GenForever(s: Stmt, idx: seq<nat>, level: nat, ls: seq<LabelData>, n: nat): Gen
    requires s.Forever?
    decreases s, 1
  {
    var gb := GenStmt(s.body, idx, level, Enter(ls, s.lp, level, 0), n);
    Gen([Label(s.lp.cont, level)] + gb.code + [Jmp(s.lp.cont), Label(s.lp.brk, level)], gb.next)
  }

  function GenCase(s: Stmt, idx: seq<nat>, level: nat, ls: seq<LabelData>, n: nat): Gen
    requires s.Case?
    decreases s, 1
  {
    var gc := GenExpr(s.cond, idx, level, n + 1);
    var gs := GenItems(s.items, n, idx, level, ls, gc.next);
    Gen(gc.code + [PushAlu] + gs.code + [Label(n, level)], gs.next)
  }

  /** Drops what lies above the frame of the loop and leaves it. */
  function GenBreak(found: Option<LabelData>, level: nat): seq<Instr> {
    match found
    case None => [Jmp(0)]
    case Some(lb) => PopIf(level - lb.level) + [Jmp(lb.brk)]
  }

  /** The counter of a `repeat` stays on the stack. */
  function GenContinue(found: Option<LabelData>, level: nat): seq<Instr> {
    match found
    case None => [Jmp(0)]
    case Some(lb) => PopIf(level - lb.level - lb.rpt) + [Jmp(lb.cont)]
  }

  function GenBlock(s: Stmt, idx: seq<nat>, level: nat, ls: seq<LabelData>, n: nat): Gen
    requires s.Block?
    decreases s, 1
  {
    var k := |s.vars|;
    var idx1 := idx + Slots(level, k);
    var gi := GenInits(s.vars, |idx|, idx1, level + k, n);
    var gs := GenSeq(s.stmts, idx1, level + k, ls, gi.next);
    Gen(LVars(level, k) + gi.code + gs.code + PopIf(k), gs.next)
  }

  function Slots(level: nat, k: nat): seq<nat> { seq(k, (i: nat) => level + i) }

  function LVars(level: nat, k: nat): seq<Instr> { seq(k, (i: nat) => LVar(level + i)) }

  /** The label stack inside a loop that starts at this level. */
  function Enter(ls: seq<LabelData>, lp: LoopId, level: nat, rpt: nat): seq<LabelData> {
    ls + [LabelData(lp.name, lp.cont, lp.brk, level, rpt)]
  }

  function PopIf(n: int): seq<Instr> { if n != 0 then [Pop(n)] else [] }

  /** A `for` from its test on; `top` is the label in front of the test. */
  function GenForLoop(s: Stmt, idx: seq<nat>, level: nat, ls: seq<LabelData>, top: nat, n: nat): Gen
    requires s.For?
    decreases s, 0
  {
    var gc := GenTest(s.test, s.lp.brk, idx, level, n);
    var gb := GenStmt(s.body, idx, level, Enter(ls, s.lp, level, 0), gc.next);
    var gl := GenExprs(s.last, idx, level, gb.next);
    Gen([Label(top, level)] + gc.code + gb.code + [Label(s.lp.cont, level)] + gl.code
        + [Jmp(top), Label(s.lp.brk, level)], gl.next)
  }

  function GenTest(test: Option<Expr>, exit: nat, idx: seq<nat>, level: nat, n: nat): Gen {
    match test
    case None => Gen([], n)
    case Some(c) => var g := GenExpr(c, idx, level, n); Gen(g.code + [Jz(exit)], g.next)
  }

  /** A `repeat` from the test of its counter on, which lies on the stack; labels top, top+1. */
  function GenRepeatLoop(s: Stmt, idx: seq<nat>, level: nat, ls: seq<LabelData>, top: nat, n: nat): Gen
    requires s.Repeat?
    decreases s, 0
  {
    var gb := GenStmt(s.body, idx, level + 1, Enter(ls, s.lp, level, 1), n);
    Gen([Label(top, level + 1), Jz(top + 1)] + gb.code
        + [Label(s.lp.cont, level + 1), PopAlu, Dec, PushAlu, Jmp(top),
           Label(top + 1, level + 1), Pop(1), Label(s.lp.brk, level)], gb.next)
  }

  function GenArms(arms: Arms, exit: nat, idx: seq<nat>, level: nat, ls: seq<LabelData>, n: nat): Gen
    decreases arms, 0
  {
    match arms
    case NoElse => Gen([], n)
    case Else(body) => GenStmt(body, idx, level, ls, n)
    case Elsif(c, body, rest) =>
      var gc := GenExpr(c, idx, level, n + 1);
      var gb := GenStmt(body, idx, level, ls, gc.next);
      var gr := GenArms(rest, exit, idx, level, ls, gb.next);
      Gen(gc.code + [Jz(n)] + gb.code + [Jmp(exit), Label(n, level)] + gr.code, gr.next)
  }

  /** The items of a `case`, with the compared value on top of the stack. */
  function GenItems(items: Items, exit: nat, idx: seq<nat>, level: nat, ls: seq<LabelData>, n: nat): Gen
    decreases items, 0
  {
    match items
    case NoItem => Gen([Pop(1)], n)
    case Default(body) =>
      var gb := GenStmt(body, idx, level, ls, n);
      Gen([Pop(1)] + gb.code + [Jmp(exit)], gb.next)
    case Item(conds, body, rest) =>
      var gc := GenMatch(conds, n, idx, level + 1, n + 2);
      var gb := GenStmt(body, idx, level, ls, gc.next);
      var gr := GenItems(rest, exit, idx, level, ls, gb.next);
      Gen(gc.code + [Jmp(n + 1), Label(n, level + 1), Pop(1)] + gb.code
          + [Jmp(exit), Label(n + 1, level + 1)] + gr.code, gr.next)
  }

  function GenMatch(conds: seq<Expr>, hit: nat, idx: seq<nat>, h: nat, n: nat): Gen {
    if conds == [] then Gen([], n)
    else
      var g := GenExpr(conds[0], idx, h, n);
      var gs := GenMatch(conds[1..], hit, idx, h, g.next);
      Gen(g.code + [Cmp, Jnz(hit)] + gs.code, gs.next)
  }

  function GenInits(vars: seq<Option<Expr>>, v: nat, idx: seq<nat>, level: nat, n: nat): Gen {
    if vars == [] then Gen([], n)
    else
      match vars[0]
      case None => GenInits(vars[1..], v + 1, idx, level, n)
      case Some(e) =>
        var g := GenExpr(Assign(v, e), idx, level, n);
        var gs := GenInits(vars[1..], v + 1, idx, level, g.next);
        Gen(g.code + gs.code, gs.next)
  }

  function GenSeq(ss: seq<Stmt>, idx: seq<nat>, level: nat, ls: seq<LabelData>, n: nat): Gen
    decreases ss, 0
  {
    if ss == [] then Gen([], n)
    else
      var g := GenStmt(ss[0], idx, level, ls, n);
      var gs := GenSeq(ss[1..], idx, level, ls, g.next);
      Gen(g.code + gs.code, gs.next)
  }
}
