/**
The generator as it works: methods that write lines to `out` while they take label numbers from
a counter, keep the stack of enclosing loops, and give local variables their slots. Each is
proved to write exactly the text that CodeGen describes.
*/
module Emitter {
  import opened Machine
  import opened Source
  import opened CodeGen

  class Generator {
    var out: seq<Instr>
    var labelNum: nat
    var lastLabel: seq<LabelData>
    // slot of each variable in scope
    var index: seq<nat>

    /** A generator whose counter the parser left at n, for a body whose arguments have the given slots. */
    constructor (n: nat, slots: seq<nat>)
      ensures out == [] && labelNum == n && lastLabel == [] && index == slots
    {
      out, labelNum, lastLabel, index := [], n, [], slots;
    }

    /** Exactly the text of g has been written, and its labels have been taken. */
    twostate predicate Wrote(g: Gen)
      reads this
    {
      out == old(out) + g.code && labelNum == g.next && lastLabel == old(lastLabel) && index == old(index)
    }

    method Emit(i: Instr)
      modifies this`out
      ensures out == old(out) + [i]
    {
      out := out + [i];
    }

    /** Several lines in a row. */
    method EmitLines(lines: seq<Instr>)
      modifies this`out
      ensures out == old(out) + lines
    {
      out := out + lines;
    }

    method NewLabel() returns (l: nat)
      modifies this`labelNum
      ensures l == old(labelNum) && labelNum == l + 1
    {
      l := labelNum;
      labelNum := labelNum + 1;
    }

    method PushLabel(lp: LoopId, level: nat, rpt: nat)
      modifies this`lastLabel
      ensures lastLabel == Enter(old(lastLabel), lp, level, rpt)
    {
      lastLabel := lastLabel + [LabelData(lp.name, lp.cont, lp.brk, level, rpt)];
    }

    method PopLabel()
      requires lastLabel != []
      modifies this`lastLabel
      ensures lastLabel == old(lastLabel)[..|old(lastLabel)| - 1]
    {
      lastLabel := lastLabel[..|lastLabel| - 1];
    }

    /** The entry that a break or a continue refers to: the last one, or the last with the name. */
    method FindLabelData(target: Option<string>) returns (r: Option<LabelData>)
      ensures r == FindLabel(lastLabel, target)
      ensures target.None? ==> r == if lastLabel == [] then None else Some(lastLabel[|lastLabel| - 1])
      ensures target.Some? ==> (r.None? <==> forall i | 0 <= i < |lastLabel| :: lastLabel[i].name != target.value)
      ensures target.Some? && r.Some? ==>
        exists i | 0 <= i < |lastLabel| :: r == Some(lastLabel[i]) && lastLabel[i].name == target.value
          && forall j | i < j < |lastLabel| :: lastLabel[j].name != target.value
    {
      if target.None? {
        r := if lastLabel == [] then None else Some(lastLabel[|lastLabel| - 1]);
        return;
      }
      var i := |lastLabel|;
      assert lastLabel[..i] == lastLabel;
      while i > 0
        invariant i <= |lastLabel| && FindLabel(lastLabel, target) == FindLabel(lastLabel[..i], target)
        invariant forall j | i <= j < |lastLabel| :: lastLabel[j].name != target.value
      {
        var lb := lastLabel[i - 1];
        if target.value == lb.name {
          return Some(lb);
        }
        assert lastLabel[..i][..i - 1] == lastLabel[..i - 1];
        i := i - 1;
      }
      r := None;
    }

    // ----- Expressions -----

    method EvalExpression(e: Expr, h: nat)
      modifies this
      ensures Wrote(GenExpr(e, old(index), h, old(labelNum)))
      decreases e, 1
    {
      hide GenBin, GenLAnd, GenLOr, GenCond, GenAssignOp, GenTimed;
      match e
      case Const(c) => Emit(LoadConst(c));
      case Local(v) => Emit(LoadL(Slot(index, v)));
      case Port(p) => Emit(LoadPort(p));
      case Bin(_, _, _) => EvalBinaryExp(e, h);
      case Un(uop, e1) =>
        EvalExpression(e1, h);
        Emit(Unary(uop));
      case LAnd(_, _) => EvalLandExp(e, h);
      case LOr(_, _) => EvalLorExp(e, h);
      case Cond(_, _, _) => EvalConditionalExp(e, h);
      case PreInc(v) => EvalPreStep(v, Inc);
      case PreDec(v) => EvalPreStep(v, Dec);
      case PostInc(v) => EvalPostStep(v, Inc);
      case PostDec(v) => EvalPostStep(v, Dec);
      case Assign(v, e1) =>
        EvalExpression(e1, h);
        Emit(StoreL(Slot(index, v)));
      case AssignOp(_, _, _) => EvalAssignOpExp(e, h);
      case Till(_, _, _) => EvalTimedExp(e, h);
      case Whilst(_, _, _) => EvalTimedExp(e, h);
    }

    method EvalBinaryExp(e: Expr, h: nat)
      requires e.Bin?
      modifies this
      ensures Wrote(GenBin(e, old(index), h, old(labelNum)))
      decreases e, 0
    {
      hide GenExpr;
      EvalExpression(e.l, h);
      Emit(PushAlu);
      EvalExpression(e.r, h + 1);
      Emit(Binary(e.op));
    }

    method EvalAssignOpExp(e: Expr, h: nat)
      requires e.AssignOp?
      modifies this
      ensures Wrote(GenAssignOp(e, old(index), h, old(labelNum)))
      decreases e, 0
    {
      hide GenExpr;
      EmitLines([LoadL(Slot(index, e.v)), PushAlu]);
      EvalExpression(e.e, h + 1);
      EmitLines([Binary(e.op), StoreL(Slot(index, e.v))]);
    }

    method EvalPreStep(v: nat, step: Instr)
      modifies this
      ensures Wrote(Gen([LoadL(Slot(old(index), v)), step, StoreL(Slot(old(index), v))], old(labelNum)))
    {
      EmitLines([LoadL(Slot(index, v)), step, StoreL(Slot(index, v))]);
    }

    method EvalPostStep(v: nat, step: Instr)
      modifies this
      ensures Wrote(Gen(GenPost(step, Slot(old(index), v)), old(labelNum)))
    {
      EmitLines([LoadL(Slot(index, v)), PushAlu, step, StoreL(Slot(index, v)), PopAlu]);
    }

    method EvalLandExp(e: Expr, h: nat)
      requires e.LAnd?
      modifies this
      ensures Wrote(GenLAnd(e, old(index), h, old(labelNum)))
      decreases e, 0
    {
      hide GenExpr;
      var label0 := NewLabel();
      var label1 := NewLabel();
      EvalExpression(e.l, h);
      Emit(Jz(label0));
      EvalExpression(e.r, h);
      EmitLines([Jz(label0), LoadOne, Jmp(label1), Label(label0, h), LoadZero, Label(label1, h)]);
    }

    method EvalLorExp(e: Expr, h: nat)
      requires e.LOr?
      modifies this
      ensures Wrote(GenLOr(e, old(index), h, old(labelNum)))
      decreases e, 0
    {
      hide GenExpr;
      var label0 := NewLabel();
      var label1 := NewLabel();
      var label2 := NewLabel();
      EvalExpression(e.l, h);
      Emit(Jnz(label0));
      EvalExpression(e.r, h);
      EmitLines([Jz(label1), Label(label0, h), LoadOne, Jmp(label2), Label(label1, h), LoadZero, Label(label2, h)]);
    }

    method EvalConditionalExp(e: Expr, h: nat)
      requires e.Cond?
      modifies this
      ensures Wrote(GenCond(e, old(index), h, old(labelNum)))
      decreases e, 0
    {
      hide GenExpr;
      var label0 := NewLabel();
      var label1 := NewLabel();
      EvalExpression(e.cond, h);
      Emit(Jz(label0));
      EvalExpression(e.thn, h);
      EmitLines([Jmp(label1), Label(label0, h)]);
      EvalExpression(e.els, h);
      Emit(Label(label1, h));
    }

    method EvalTimedExp(e: Expr, h: nat)
      requires e.Till? || e.Whilst?
      modifies this
      ensures Wrote(GenTimed(e, old(index), h, old(labelNum)))
      decreases e, 0
    {
      hide GenExpr, GenConds, GenWindow, TillBody, WhilstBody;
      var label0 := NewLabel();
      var label1 := NewLabel();
      var label2 := NewLabel();
      var label3 := NewLabel();
      EvalExpression(e.delay, h);
      Emit(Sync);
      EvalWindow(e.window, if e.Till? then LoadZero else LoadOne, h);
      Emit(PushAlu);
      if e.Till? {
        EvalTillLoop(e.conds, h, label0, label1, label2, label3);
      } else {
        EvalWhileLoop(e.conds, h, label0, label1, label2, label3);
      }
    }

    method EvalWindow(window: Option<Expr>, default: Instr, h: nat)
      modifies this
      ensures Wrote(GenWindow(window, default, old(index), h, old(labelNum)))
      decreases window, 0
    {
      match window
      case Some(w) => EvalExpression(w, h);
      case None => Emit(default);
    }

    method EvalTillLoop(conds: seq<Expr>, h: nat, label0: nat, label1: nat, label2: nat, label3: nat)
      requires label1 == label0 + 1 && label2 == label0 + 2 && label3 == label0 + 3
      modifies this
      ensures var g := GenConds(conds, label1, old(index), h + 1, old(labelNum));
        Wrote(Gen(TillBody(g.code, h, label0), g.next))
      decreases conds, 1
    {
      Emit(Label(label0, h + 1));
      EvalConditions(conds, label1, h + 1);
      EmitLines([Jmp(label2), Label(label1, h + 1)]);
      EmitLines(CountDown(label3));
      EmitLines([Jmp(label0), Label(label2, h + 1), Pop(1), LoadOne, Label(label3, h)]);
    }

    method EvalWhileLoop(conds: seq<Expr>, h: nat, label0: nat, label1: nat, label2: nat, label3: nat)
      requires label1 == label0 + 1 && label2 == label0 + 2 && label3 == label0 + 3
      modifies this
      ensures var g := GenConds(conds, label1, old(index), h + 1, old(labelNum));
        Wrote(Gen(WhilstBody(g.code, h, label0), g.next))
      decreases conds, 1
    {
      Emit(Label(label0, h + 1));
      EvalConditions(conds, label1, h + 1);
      EmitLines(CountDown(label2));
      EmitLines([Jmp(label0), Label(label1, h + 1), Pop(1), LoadZero, Jmp(label3), Label(label2, h), LoadOne,
                 Label(label3, h)]);
    }

    method EvalConditions(conds: seq<Expr>, exit: nat, h: nat)
      modifies this
      ensures Wrote(GenConds(conds, exit, old(index), h, old(labelNum)))
      decreases conds, 0
    {
      ghost var all := GenConds(conds, exit, index, h, labelNum);
      var i := 0;
      while i < |conds|
        invariant 0 <= i <= |conds| && lastLabel == old(lastLabel) && index == old(index)
        invariant var rest := GenConds(conds[i..], exit, index, h, labelNum);
          out + rest.code == old(out) + all.code && rest.next == all.next
      {
        EvalExpression(conds[i], h);
        Emit(Jz(exit));
        assert conds[i..][1..] == conds[i + 1..];
        i := i + 1;
      }
    }

    method EvalList(es: seq<Expr>, h: nat)
      modifies this
      ensures Wrote(GenExprs(es, old(index), h, old(labelNum)))
    {
      ghost var all := GenExprs(es, index, h, labelNum);
      var i := 0;
      while i < |es|
        invariant 0 <= i <= |es| && lastLabel == old(lastLabel) && index == old(index)
        invariant var rest := GenExprs(es[i..], index, h, labelNum);
          out + rest.code == old(out) + all.code && rest.next == all.next
      {
        EvalExpression(es[i], h);
        assert es[i..][1..] == es[i + 1..];
        i := i + 1;
      }
    }

    // ----- Statements -----

    method OutputStatement(s: Stmt, level: nat)
      modifies this
      ensures Wrote(GenStmt(s, old(index), level, old(lastLabel), old(labelNum)))
      decreases s, 3
    {
      match s
      case Null => Emit(NullInstr);
      case ExprStmt(e) => EvalExpression(e, level);
      case If(_, _, _) => OutputIfStatement(s, level);
      case While(_, _, _) => OutputWhileStatement(s, level);
      case For(_, _, _, _, _) => OutputForStatement(s, level);
      case Repeat(_, _, _) => OutputRepeatStatement(s, level);
      case DoWhile(_, _, _) => OutputDoWhileStatement(s, level);
      case Forever(_, _) => OutputForeverStatement(s, level);
      case Case(_, _) => OutputCaseStatement(s, level);
      case Break(target) => OutputBreakStatement(target, level);
      case Continue(target) => OutputContinueStatement(target, level);
      case Block(_, _) => OutputBlockStatement(s, level);
    }

    method OutputIfStatement(s: Stmt, level: nat)
      requires s.If?
      modifies this
      ensures Wrote(GenIf(s, old(index), level, old(lastLabel), old(labelNum)))
      decreases s, 2
    {
      hide GenExpr, GenStmt, GenArms;
      var lbl := NewLabel();
      var exit := NewLabel();
      EvalExpression(s.cond, level);
      Emit(Jz(lbl));
      OutputStatement(s.thn, level);
      EmitLines([Jmp(exit), Label(lbl, level)]);
      OutputArms(s.rest, exit, level);
      Emit(Label(exit, level));
    }

    method OutputArms(first: Arms, exit: nat, level: nat)
      modifies this
      ensures Wrote(GenArms(first, exit, old(index), level, old(lastLabel), old(labelNum)))
      decreases first, 1
    {
      hide GenExpr, GenStmt;
      ghost var all := GenArms(first, exit, index, level, lastLabel, labelNum);
      var arms := first;
      while arms.Elsif?
        invariant lastLabel == old(lastLabel) && index == old(index)
        invariant var rest := GenArms(arms, exit, index, level, lastLabel, labelNum);
          out + rest.code == old(out) + all.code && rest.next == all.next
        invariant arms == first || (first decreases to arms)
        decreases arms
      {
        OutputElsifStatement(arms, exit, level);
        arms := arms.rest;
      }
      if arms.Else? {
        OutputStatement(arms.body, level);
      }
    }

    /** One elsif, up to the label of the next arm. */
    method OutputElsifStatement(arm: Arms, exit: nat, level: nat)
      requires arm.Elsif?
      modifies this
      ensures lastLabel == old(lastLabel) && index == old(index)
      ensures var all := GenArms(arm, exit, index, level, lastLabel, old(labelNum));
        var rest := GenArms(arm.rest, exit, index, level, lastLabel, labelNum);
        out + rest.code == old(out) + all.code && rest.next == all.next
      decreases arm, 0
    {
      hide GenExpr, GenStmt;
      var lbl := NewLabel();
      EvalExpression(arm.cond, level);
      Emit(Jz(lbl));
      OutputStatement(arm.body, level);
      EmitLines([Jmp(exit), Label(lbl, level)]);
    }

    method OutputWhileStatement(s: Stmt, level: nat)
      requires s.While?
      modifies this
      ensures Wrote(GenWhile(s, old(index), level, old(lastLabel), old(labelNum)))
      decreases s, 2
    {
      hide GenExpr, GenStmt;
      PushLabel(s.lp, level, 0);
      Emit(Label(s.lp.cont, level));
      EvalExpression(s.cond, level);
      Emit(Jz(s.lp.brk));
      OutputStatement(s.body, level);
      EmitLines([Jmp(s.lp.cont), Label(s.lp.brk, level)]);
      PopLabel();
    }

    method OutputForStatement(s: Stmt, level: nat)
      requires s.For?
      modifies this
      ensures Wrote(GenFor(s, old(index), level, old(lastLabel), old(labelNum)))
      decreases s, 2
    {
      hide GenExpr, GenStmt;
      var label0 := NewLabel();
      PushLabel(s.lp, level, 0);
      EvalList(s.init, level);
      OutputForLoop(s, level, label0);
      PopLabel();
    }

    /** The test of a for loop, if there is one. */
    method OutputTest(test: Option<Expr>, exit: nat, level: nat)
      modifies this
      ensures Wrote(GenTest(test, exit, old(index), level, old(labelNum)))
    {
      hide GenExpr;
      match test {
        case None =>
        case Some(c) =>
          EvalExpression(c, level);
          Emit(Jz(exit));
      }
    }

    method OutputForLoop(s: Stmt, level: nat, label0: nat)
      requires s.For? && lastLabel != []
      requires lastLabel == Enter(lastLabel[..|lastLabel| - 1], s.lp, level, 0)
      modifies this
      ensures var outer := old(lastLabel)[..|old(lastLabel)| - 1];
        Wrote(GenForLoop(s, old(index), level, outer, label0, old(labelNum)))
      decreases s, 1
    {
      hide GenExprs, GenStmt, GenTest;
      Emit(Label(label0, level));
      OutputTest(s.test, s.lp.brk, level);
      OutputStatement(s.body, level);
      Emit(Label(s.lp.cont, level));
      EvalList(s.last, level);
      EmitLines([Jmp(label0), Label(s.lp.brk, level)]);
    }

    method OutputRepeatStatement(s: Stmt, level: nat)
      requires s.Repeat?
      modifies this
      ensures Wrote(GenRepeat(s, old(index), level, old(lastLabel), old(labelNum)))
      decreases s, 2
    {
      hide GenExpr, GenStmt;
      var label0 := NewLabel();
      var label1 := NewLabel();
      PushLabel(s.lp, level, 1);
      EvalExpression(s.number, level);
      Emit(PushAlu);
      EmitLines([Label(label0, level + 1), Jz(label1)]);
      OutputStatement(s.body, level + 1);
      EmitLines([Label(s.lp.cont, level + 1), PopAlu, Dec, PushAlu, Jmp(label0),
                 Label(label1, level + 1), Pop(1), Label(s.lp.brk, level)]);
      PopLabel();
    }

    method OutputDoWhileStatement(s: Stmt, level: nat)
      requires s.DoWhile?
      modifies this
      ensures Wrote(GenDoWhile(s, old(index), level, old(lastLabel), old(labelNum)))
      decreases s, 2
    {
      hide GenExpr, GenStmt;
      var label0 := NewLabel();
      PushLabel(s.lp, level, 0);
      Emit(Label(label0, level));
      OutputStatement(s.body, level);
      Emit(Label(s.lp.cont, level));
      EvalExpression(s.cond, level);
      EmitLines([Jnz(label0), Label(s.lp.brk, level)]);
      PopLabel();
    }

    method OutputForeverStatement(s: Stmt, level: nat)
      requires s.Forever?
      modifies this
      ensures Wrote(GenForever(s, old(index), level, old(lastLabel), old(labelNum)))
      decreases s, 2
    {
      hide GenExpr, GenStmt;
      PushLabel(s.lp, level, 0);
      Emit(Label(s.lp.cont, level));
      OutputStatement(s.body, level);
      EmitLines([Jmp(s.lp.cont), Label(s.lp.brk, level)]);
      PopLabel();
    }

    method OutputCaseStatement(s: Stmt, level: nat)
      requires s.Case?
      modifies this
      ensures Wrote(GenCase(s, old(index), level, old(lastLabel), old(labelNum)))
      decreases s, 2
    {
      hide GenExpr, GenStmt;
      var exit := NewLabel();
      EvalExpression(s.cond, level);
      Emit(PushAlu);
      OutputItems(s.items, exit, level);
      Emit(Label(exit, level));
    }

    method OutputItems(first: Items, exit: nat, level: nat)
      modifies this
      ensures Wrote(GenItems(first, exit, old(index), level, old(lastLabel), old(labelNum)))
      decreases first, 1
    {
      hide GenExpr, GenStmt;
      ghost var all := GenItems(first, exit, index, level, lastLabel, labelNum);
      var items := first;
      while items.Item?
        invariant lastLabel == old(lastLabel) && index == old(index)
        invariant var rest := GenItems(items, exit, index, level, lastLabel, labelNum);
          out + rest.code == old(out) + all.code && rest.next == all.next
        invariant items == first || (first decreases to items)
        decreases items
      {
        OutputItem(items, exit, level);
        items := items.rest;
      }
      Emit(Pop(1));
      if items.Default? {
        OutputStatement(items.body, level);
        Emit(Jmp(exit));
      }
    }

    /** One item, up to the label of the next. */
    method OutputItem(item: Items, exit: nat, level: nat)
      requires item.Item?
      modifies this
      ensures lastLabel == old(lastLabel) && index == old(index)
      ensures var all := GenItems(item, exit, index, level, lastLabel, old(labelNum));
        var rest := GenItems(item.rest, exit, index, level, lastLabel, labelNum);
        out + rest.code == old(out) + all.code && rest.next == all.next
      decreases item, 0
    {
      hide GenExpr, GenMatch, GenStmt;
      var hit := NewLabel();
      var miss := NewLabel();
      OutputMatches(item.conds, hit, level + 1);
      EmitLines([Jmp(miss), Label(hit, level + 1), Pop(1)]);
      OutputStatement(item.body, level);
      EmitLines([Jmp(exit), Label(miss, level + 1)]);
    }

    method OutputMatches(conds: seq<Expr>, hit: nat, h: nat)
      modifies this
      ensures Wrote(GenMatch(conds, hit, old(index), h, old(labelNum)))
    {
      ghost var all := GenMatch(conds, hit, index, h, labelNum);
      var i := 0;
      while i < |conds|
        invariant 0 <= i <= |conds| && lastLabel == old(lastLabel) && index == old(index)
        invariant var rest := GenMatch(conds[i..], hit, index, h, labelNum);
          out + rest.code == old(out) + all.code && rest.next == all.next
      {
        EvalExpression(conds[i], h);
        EmitLines([Cmp, Jnz(hit)]);
        assert conds[i..][1..] == conds[i + 1..];
        i := i + 1;
      }
    }

    method OutputBreakStatement(target: Option<string>, level: nat)
      modifies this
      ensures Wrote(Gen(GenBreak(FindLabel(old(lastLabel), target), level), old(labelNum)))
      ensures forall i | 0 <= i < |old(lastLabel)| && IsMeant(old(lastLabel), target, i) ::
        out[|out| - 1] == Jmp(old(lastLabel)[i].brk)
    {
      var found := FindLabelData(target);
      match found {
        case None => Emit(Jmp(0));
        case Some(lb) =>
          if level - lb.level != 0 {
            Emit(Pop(level - lb.level));
          }
          Emit(Jmp(lb.brk));
      }
    }

    method OutputContinueStatement(target: Option<string>, level: nat)
      modifies this
      ensures Wrote(Gen(GenContinue(FindLabel(old(lastLabel), target), level), old(labelNum)))
      ensures forall i | 0 <= i < |old(lastLabel)| && IsMeant(old(lastLabel), target, i) ::
        out[|out| - 1] == Jmp(old(lastLabel)[i].cont)
    {
      var found := FindLabelData(target);
      match found {
        case None => Emit(Jmp(0));
        case Some(lb) =>
          if level - lb.level - lb.rpt != 0 {
            Emit(Pop(level - lb.level - lb.rpt));
          }
          Emit(Jmp(lb.cont));
      }
    }

    method OutputBlockStatement(s: Stmt, level: nat)
      requires s.Block?
      modifies this
      ensures Wrote(GenBlock(s, old(index), level, old(lastLabel), old(labelNum)))
      decreases s, 2
    {
      hide GenInits, GenSeq, Slots, LVars;
      var outer := index;
      var thisLevel := OutputVars(|s.vars|, level);
      OutputVarInits(s.vars, |outer|, thisLevel);
      OutputSequence(s.stmts, thisLevel);
      if thisLevel - level != 0 {
        Emit(Pop(thisLevel - level));
      }
      index := outer;
    }

    /** Gives k variables the next slots of the frame. */
    method OutputVars(k: nat, level: nat) returns (thisLevel: nat)
      modifies this`out, this`index
      ensures thisLevel == level + k && index == old(index) + Slots(level, k) && out == old(out) + LVars(level, k)
    {
      thisLevel := level;
      while thisLevel < level + k
        invariant level <= thisLevel <= level + k
        invariant index == old(index) + Slots(level, thisLevel - level)
        invariant out == old(out) + LVars(level, thisLevel - level)
      {
        Emit(LVar(thisLevel));
        index := index + [thisLevel];
        thisLevel := thisLevel + 1;
      }
    }

    method OutputVarInits(vars: seq<Option<Expr>>, first: nat, level: nat)
      modifies this
      ensures Wrote(GenInits(vars, first, old(index), level, old(labelNum)))
    {
      ghost var all := GenInits(vars, first, index, level, labelNum);
      var i := 0;
      while i < |vars|
        invariant 0 <= i <= |vars| && lastLabel == old(lastLabel) && index == old(index)
        invariant var rest := GenInits(vars[i..], first + i, index, level, labelNum);
          out + rest.code == old(out) + all.code && rest.next == all.next
      {
        assert vars[i..][1..] == vars[i + 1..];
        match vars[i] {
          case None =>
          case Some(e) => EvalExpression(Assign(first + i, e), level);
        }
        i := i + 1;
      }
    }

    method OutputSequence(ss: seq<Stmt>, level: nat)
      modifies this
      ensures Wrote(GenSeq(ss, old(index), level, old(lastLabel), old(labelNum)))
      decreases ss, 0
    {
      ghost var all := GenSeq(ss, index, level, lastLabel, labelNum);
      var i := 0;
      while i < |ss|
        invariant 0 <= i <= |ss| && lastLabel == old(lastLabel) && index == old(index)
        invariant var rest := GenSeq(ss[i..], index, level, lastLabel, labelNum);
          out + rest.code == old(out) + all.code && rest.next == all.next
      {
        OutputStatement(ss[i], level);
        assert ss[i..][1..] == ss[i + 1..];
        i := i + 1;
      }
    }
  }
}
