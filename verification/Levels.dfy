/**
The level that the generator counts along is the height of the frame: wherever the text of a
statement stands in the text of a program, every run that comes there finds the frame as high as
the level with which the statement was generated.
*/
module Levels {
  import opened Machine
  import opened Source
  import opened CodeGen
  import opened Thread
  import opened ExprCorrect
  import opened StmtCorrect
  import opened Labels
  import opened CompilerCorrect
  import opened Discipline

  /** A statement with what the generator was given for it, and where its text begins. */
  datatype Spot = Spot(s: Stmt, idx: seq<nat>, level: nat, ls: seq<LabelData>, n: nat, pc: nat)
  {
    ghost function Code(): seq<Instr> { GenStmt(s, idx, level, ls, n).code }
  }

  /** q is the statement p or a statement inside it, as it is generated. */
  ghost predicate Occurs(q: Spot, p: Spot)
    decreases p.s, 1
  {
    || q == p
    || match p.s
       case If(c, thn, rest) =>
         var gc := GenExpr(c, p.idx, p.level, p.n + 2);
         var gt := GenStmt(thn, p.idx, p.level, p.ls, gc.next);
         var m := p.pc + |gc.code| + 1;
         || Occurs(q, Spot(thn, p.idx, p.level, p.ls, gc.next, m))
         || OccursInArms(q, rest, p.n + 1, p.idx, p.level, p.ls, gt.next, m + |gt.code| + 2)
       case While(lp, c, body) =>
         var gc := GenExpr(c, p.idx, p.level, p.n);
         Occurs(q, Spot(body, p.idx, p.level, Enter(p.ls, lp, p.level, 0), gc.next, p.pc + 1 + |gc.code| + 1))
       case For(lp, init, test, last, body) =>
         var gi := GenExprs(init, p.idx, p.level, p.n + 1);
         var gc := GenTest(test, lp.brk, p.idx, p.level, gi.next);
         Occurs(q, Spot(body, p.idx, p.level, Enter(p.ls, lp, p.level, 0), gc.next, p.pc + |gi.code| + 1 + |gc.code|))
       case Repeat(lp, number, body) =>
         var gn := GenExpr(number, p.idx, p.level, p.n + 2);
         Occurs(q, Spot(body, p.idx, p.level + 1, Enter(p.ls, lp, p.level, 1), gn.next, p.pc + |gn.code| + 1 + 2))
       case DoWhile(lp, body, c) =>
         Occurs(q, Spot(body, p.idx, p.level, Enter(p.ls, lp, p.level, 0), p.n + 1, p.pc + 1))
       case Forever(lp, body) =>
         Occurs(q, Spot(body, p.idx, p.level, Enter(p.ls, lp, p.level, 0), p.n, p.pc + 1))
       case Case(c, items) =>
         var gc := GenExpr(c, p.idx, p.level, p.n + 1);
         OccursInItems(q, items, p.n, p.idx, p.level, p.ls, gc.next, p.pc + |gc.code| + 1)
       case Block(vars, stmts) =>
         var k := |vars|;
         var idx1 := p.idx + Slots(p.level, k);
         var gi := GenInits(vars, |p.idx|, idx1, p.level + k, p.n);
         OccursInSeq(q, stmts, idx1, p.level + k, p.ls, gi.next, p.pc + k + |gi.code|)
       case _ => false
  }

  ghost predicate OccursInArms(q: Spot, arms: Arms, exit: nat, idx: seq<nat>, level: nat, ls: seq<LabelData>, n: nat,
                               pc: nat)
    decreases arms, 0
  {
    match arms
    case NoElse => false
    case Else(body) => Occurs(q, Spot(body, idx, level, ls, n, pc))
    case Elsif(c, body, rest) =>
      var gc := GenExpr(c, idx, level, n + 1);
      var gb := GenStmt(body, idx, level, ls, gc.next);
      var m := pc + |gc.code| + 1;
      || Occurs(q, Spot(body, idx, level, ls, gc.next, m))
      || OccursInArms(q, rest, exit, idx, level, ls, gb.next, m + |gb.code| + 2)
  }

  ghost predicate OccursInItems(q: Spot, items: Items, exit: nat, idx: seq<nat>, level: nat, ls: seq<LabelData>,
                                n: nat, pc: nat)
    decreases items, 0
  {
    match items
    case NoItem => false
    case Default(body) => Occurs(q, Spot(body, idx, level, ls, n, pc + 1))
    case Item(conds, body, rest) =>
      var gc := GenMatch(conds, n, idx, level + 1, n + 2);
      var gb := GenStmt(body, idx, level, ls, gc.next);
      var m := pc + |gc.code| + 3;
      || Occurs(q, Spot(body, idx, level, ls, gc.next, m))
      || OccursInItems(q, rest, exit, idx, level, ls, gb.next, m + |gb.code| + 2)
  }

  ghost predicate OccursInSeq(q: Spot, ss: seq<Stmt>, idx: seq<nat>, level: nat, ls: seq<LabelData>, n: nat, pc: nat)
    decreases ss, 0
  {
    ss != [] &&
      var g := GenStmt(ss[0], idx, level, ls, n);
      || Occurs(q, Spot(ss[0], idx, level, ls, n, pc))
      || OccursInSeq(q, ss[1..], idx, level, ls, g.next, pc + |g.code|)
  }

  // ----- Fragments in their surroundings -----

  /** The fragment stands in code that brings the height h to it, if anything, and takes h' on. */
  ghost predicate Sits(code: seq<Instr>, h0: nat, pc: nat, frag: seq<Instr>, h: nat, h': nat) {
    && At(code, pc, frag)
    && Fits(Scan(code, code[..pc], Live(h0)), h)
    && Scan(code, code[pc + |frag|..], Live(h')) != Bad
    && Scan(code, code[pc + |frag|..], Dead) != Bad
  }

  lemma ThenNotBad(code: seq<Instr>, c: seq<Instr>, rest: seq<Instr>, height: Height, h: nat)
    requires Fits(Scan(code, c, height), h) && Scan(code, rest, Live(h)) != Bad && Scan(code, rest, Dead) != Bad
    ensures Scan(code, c + rest, height) != Bad
  {
    hide Scan;
    ScanAppend(code, c, rest, height);
  }

  /** A part of a fragment, between two others that the height flows through. */
  lemma SitsPart(code: seq<Instr>, h0: nat, pc: nat, a: seq<Instr>, sub: seq<Instr>, c: seq<Instr>, hs: seq<nat>)
    requires |hs| == 4 && Sits(code, h0, pc, a + sub + c, hs[0], hs[3])
    requires Flow(code, a, hs[0], hs[1]) && Flow(code, c, hs[2], hs[3])
    ensures Sits(code, h0, pc + |a|, sub, hs[1], hs[2])
  {
    hide Scan;
    AtSplit(code, pc, a + sub, c);
    AtSplit(code, pc, a, sub);
    PrefixFits(code, h0, pc, a, hs[0], hs[1]);
    var q := pc + |a| + |sub|;
    assert code[q..] == c + code[q + |c|..];
    ThenNotBad(code, c, code[q + |c|..], Live(hs[2]), hs[3]);
    ThenNotBad(code, c, code[q + |c|..], Dead, hs[3]);
  }

  lemma PrefixFits(code: seq<Instr>, h0: nat, pc: nat, a: seq<Instr>, h: nat, k: nat)
    requires At(code, pc, a) && Fits(Scan(code, code[..pc], Live(h0)), h) && Flow(code, a, h, k)
    ensures Fits(Scan(code, code[..pc + |a|], Live(h0)), k)
  {
    hide Scan;
    assert code[..pc + |a|] == code[..pc] + a;
    ScanAppend(code, code[..pc], a, Live(h0));
  }

  /** A part at the end of a fragment. */
  lemma SitsLast(code: seq<Instr>, h0: nat, pc: nat, a: seq<Instr>, sub: seq<Instr>, hs: seq<nat>)
    requires |hs| == 3 && Sits(code, h0, pc, a + sub, hs[0], hs[2]) && Flow(code, a, hs[0], hs[1])
    ensures Sits(code, h0, pc + |a|, sub, hs[1], hs[2])
  {
    hide Flow, Sits;
    assert a + sub + [] == a + sub;
    FlowLines(code, [], [hs[2]]);
    SitsPart(code, h0, pc, a, sub, [], [hs[0], hs[1], hs[2], hs[2]]);
  }

  /** The height is right in front of the statement, and right for what comes from there on. */
  ghost predicate Stands(code: seq<Instr>, h0: nat, q: Spot) {
    && At(code, q.pc, q.Code())
    && Fits(Scan(code, code[..q.pc], Live(h0)), q.level)
    && Scan(code, code[q.pc..], Live(q.level)) != Bad
  }

  lemma SitsStands(code: seq<Instr>, h0: nat, q: Spot)
    requires Sits(code, h0, q.pc, q.Code(), q.level, q.level) && Flow(code, q.Code(), q.level, q.level)
    ensures Stands(code, h0, q)
  {
    hide Scan, GenStmt;
    var rest := code[q.pc + |q.Code()|..];
    assert code[q.pc..] == q.Code() + rest;
    ThenNotBad(code, q.Code(), rest, Live(q.level), q.level);
  }

  /** What is known where the text of a statement is generated. */
  ghost predicate Sound(code: seq<Instr>, h0: nat, p: Spot) {
    && WfStmt(p.s, |p.idx|, Names(p.ls)) && GoalsOk(code, p.ls, p.level)
    && Placed(code, p.pc, p.Code(), p.idx, p.level)
    && Sits(code, h0, p.pc, p.Code(), p.level, p.level)
  }

  // ----- Into the statements -----

  lemma {:induction false} SpotStands(code: seq<Instr>, h0: nat, q: Spot, p: Spot)
    requires Sound(code, h0, p) && Occurs(q, p)
    ensures Stands(code, h0, q)
    decreases p.s, 2
  {
    hide Flow, At, LabelsUnique, GoalsOk, Sits, Stands, Names;
    if q == p {
      StmtFlows(code, p.s, p.idx, p.level, p.ls, p.n, p.pc);
      SitsStands(code, h0, q);
    } else {
      match p.s
      case If(_, _, _) => InsideIf(code, h0, q, p);
      case While(_, _, _) => InsideWhile(code, h0, q, p);
      case For(_, _, _, _, _) => InsideFor(code, h0, q, p);
      case Repeat(_, _, _) => InsideRepeat(code, h0, q, p);
      case DoWhile(_, _, _) => InsideDoWhile(code, h0, q, p);
      case Forever(_, _) => InsideForever(code, h0, q, p);
      case Case(_, _) => InsideCase(code, h0, q, p);
      case Block(_, _) => InsideBlock(code, h0, q, p);
    }
  }

  lemma {:induction false} InsideIf(code: seq<Instr>, h0: nat, q: Spot, p: Spot)
    requires p.s.If? && Sound(code, h0, p) && Occurs(q, p) && q != p
    ensures Stands(code, h0, q)
    decreases p.s, 1
  {
    hide Flow, At, LabelsUnique, GoalsOk, Sits, Stands, Names, GenExpr, GenArms, OccursInArms, WfExpr;
    assert p.Code() == GenIf(p.s, p.idx, p.level, p.ls, p.n).code;
    var h := p.level;
    var gc := GenExpr(p.s.cond, p.idx, h, p.n + 2);
    var gt := GenStmt(p.s.thn, p.idx, h, p.ls, gc.next);
    var gr := GenArms(p.s.rest, p.n + 1, p.idx, h, p.ls, gt.next);
    CondParts(code, p.pc, gc.code, gt.code, gr.code, h, p.n);
    var m := p.pc + |gc.code| + 1;
    GoalHere(code, m + |gt.code| + 1, p.n, h);
    GoalHere(code, m + |gt.code| + 2 + |gr.code|, p.n + 1, h);
    ExprFlows(code, p.s.cond, p.idx, h, p.n + 2, p.pc);
    StmtFlows(code, p.s.thn, p.idx, h, p.ls, gc.next, m);
    ArmsFlow(code, p.s.rest, p.n + 1, p.idx, h, p.ls, gt.next, m + |gt.code| + 2);
    BranchesSit(code, h0, p.pc, gc.code, gt.code, gr.code, h, p.n);
    if Occurs(q, Spot(p.s.thn, p.idx, h, p.ls, gc.next, m)) {
      SpotStands(code, h0, q, Spot(p.s.thn, p.idx, h, p.ls, gc.next, m));
    } else {
      InsideArms(code, h0, q, p.s.rest, p.n + 1, p.idx, h, p.ls, gt.next, m + |gt.code| + 2);
    }
  }

  lemma BranchesSit(code: seq<Instr>, h0: nat, pc: nat, c: seq<Instr>, t: seq<Instr>, f: seq<Instr>, h: nat, n: nat)
    requires Flow(code, c, h, h) && Flow(code, t, h, h) && Flow(code, f, h, h) && Goal(code, n, h)
             && Goal(code, n + 1, h)
    requires Sits(code, h0, pc, c + [Jz(n)] + t + [Jmp(n + 1), Label(n, h)] + f + [Label(n + 1, h)], h, h)
    ensures Sits(code, h0, pc + |c| + 1, t, h, h) && Sits(code, h0, pc + |c| + 1 + |t| + 2, f, h, h)
  {
    hide Flow, Sits;
    var mid, end := [Jmp(n + 1), Label(n, h)], [Label(n + 1, h)];
    FlowLine(code, Jz(n), h, h);
    FlowLines(code, mid, [h, h, h]);
    FlowLine(code, Label(n + 1, h), h, h);
    FlowThen(code, c, [Jz(n)], h, h, h);
    Flow3(code, mid, f, end, [h, h, h, h]);
    Flow3(code, c + [Jz(n)], t, mid, [h, h, h, h]);
    var a := c + [Jz(n)];
    assert a + t + (mid + f + end) == a + t + mid + f + end;
    SitsPart(code, h0, pc, a, t, mid + f + end, [h, h, h, h]);
    SitsPart(code, h0, pc, a + t + mid, f, end, [h, h, h, h]);
  }

  lemma {:induction false} InsideArms(code: seq<Instr>, h0: nat, q: Spot, arms: Arms, exit: nat, idx: seq<nat>,
                                      level: nat, ls: seq<LabelData>, n: nat, pc: nat)
    requires WfArms(arms, |idx|, Names(ls)) && GoalsOk(code, ls, level) && Goal(code, exit, level)
    requires Placed(code, pc, GenArms(arms, exit, idx, level, ls, n).code, idx, level)
    requires Sits(code, h0, pc, GenArms(arms, exit, idx, level, ls, n).code, level, level)
    requires OccursInArms(q, arms, exit, idx, level, ls, n, pc)
    ensures Stands(code, h0, q)
    decreases arms, 0
  {
    hide Flow, At, LabelsUnique, GoalsOk, Sits, Stands, Names, GenExpr, GenStmt, WfStmt, Occurs;
    match arms
    case Else(body) => SpotStands(code, h0, q, Spot(body, idx, level, ls, n, pc));
    case Elsif(c, body, rest) =>
      var gc := GenExpr(c, idx, level, n + 1);
      var gb := GenStmt(body, idx, level, ls, gc.next);
      var gr := GenArms(rest, exit, idx, level, ls, gb.next);
      ElsifParts(code, pc, gc.code, gb.code, gr.code, exit, level, n);
      var m := pc + |gc.code| + 1;
      GoalHere(code, m + |gb.code| + 1, n, level);
      ExprFlows(code, c, idx, level, n + 1, pc);
      StmtFlows(code, body, idx, level, ls, gc.next, m);
      ArmsFlow(code, rest, exit, idx, level, ls, gb.next, m + |gb.code| + 2);
      ElsifSits(code, h0, pc, gc.code, gb.code, gr.code, exit, level, n);
      if Occurs(q, Spot(body, idx, level, ls, gc.next, m)) {
        SpotStands(code, h0, q, Spot(body, idx, level, ls, gc.next, m));
      } else {
        InsideArms(code, h0, q, rest, exit, idx, level, ls, gb.next, m + |gb.code| + 2);
      }
  }

  lemma ElsifSits(code: seq<Instr>, h0: nat, pc: nat, c: seq<Instr>, b: seq<Instr>, r: seq<Instr>, exit: nat, h: nat,
                  n: nat)
    requires Flow(code, c, h, h) && Flow(code, b, h, h) && Flow(code, r, h, h) && Goal(code, n, h)
             && Goal(code, exit, h)
    requires Sits(code, h0, pc, c + [Jz(n)] + b + [Jmp(exit), Label(n, h)] + r, h, h)
    ensures Sits(code, h0, pc + |c| + 1, b, h, h) && Sits(code, h0, pc + |c| + 1 + |b| + 2, r, h, h)
  {
    hide Flow, Sits;
    var a, mid := c + [Jz(n)], [Jmp(exit), Label(n, h)];
    FlowLine(code, Jz(n), h, h);
    FlowLines(code, mid, [h, h, h]);
    FlowThen(code, c, [Jz(n)], h, h, h);
    FlowThen(code, mid, r, h, h, h);
    Flow3(code, a, b, mid, [h, h, h, h]);
    assert a + b + (mid + r) == a + b + mid + r;
    SitsPart(code, h0, pc, a, b, mid + r, [h, h, h, h]);
    SitsLast(code, h0, pc, a + b + mid, r, [h, h, h]);
  }

  lemma {:induction false} InsideWhile(code: seq<Instr>, h0: nat, q: Spot, p: Spot)
    requires p.s.While? && Sound(code, h0, p) && Occurs(q, p) && q != p
    ensures Stands(code, h0, q)
    decreases p.s, 1
  {
    hide Flow, At, LabelsUnique, GoalsOk, Sits, Stands, Names, GenExpr;
    assert p.Code() == GenWhile(p.s, p.idx, p.level, p.ls, p.n).code;
    var h, lp := p.level, p.s.lp;
    var gc := GenExpr(p.s.cond, p.idx, h, p.n);
    var inner := Enter(p.ls, lp, h, 0);
    var gb := GenStmt(p.s.body, p.idx, h, inner, gc.next);
    WhileParts(code, p.pc, gc.code, gb.code, lp, h);
    var m := p.pc + 1 + |gc.code| + 1;
    GoalHere(code, p.pc, lp.cont, h);
    GoalHere(code, m + |gb.code| + 1, lp.brk, h);
    InnerGoals(code, p.ls, lp, h, 0);
    ExprFlows(code, p.s.cond, p.idx, h, p.n, p.pc + 1);
    var tail := [Jmp(lp.cont), Label(lp.brk, h)];
    FlowLine(code, Label(lp.cont, h), h, h);
    FlowLine(code, Jz(lp.brk), h, h);
    FlowLines(code, tail, [h, h, h]);
    Flow3(code, [Label(lp.cont, h)], gc.code, [Jz(lp.brk)], [h, h, h, h]);
    SitsPart(code, h0, p.pc, [Label(lp.cont, h)] + gc.code + [Jz(lp.brk)], gb.code, tail, [h, h, h, h]);
    SpotStands(code, h0, q, Spot(p.s.body, p.idx, h, inner, gc.next, m));
  }

  lemma {:induction false} InsideForever(code: seq<Instr>, h0: nat, q: Spot, p: Spot)
    requires p.s.Forever? && Sound(code, h0, p) && Occurs(q, p) && q != p
    ensures Stands(code, h0, q)
    decreases p.s, 1
  {
    hide Flow, At, LabelsUnique, GoalsOk, Sits, Stands, Names;
    assert p.Code() == GenForever(p.s, p.idx, p.level, p.ls, p.n).code;
    var h, lp := p.level, p.s.lp;
    var inner := Enter(p.ls, lp, h, 0);
    var gb := GenStmt(p.s.body, p.idx, h, inner, p.n);
    ForeverParts(code, p.pc, gb.code, lp, h);
    GoalHere(code, p.pc, lp.cont, h);
    GoalHere(code, p.pc + 1 + |gb.code| + 1, lp.brk, h);
    InnerGoals(code, p.ls, lp, h, 0);
    var tail := [Jmp(lp.cont), Label(lp.brk, h)];
    FlowLine(code, Label(lp.cont, h), h, h);
    FlowLines(code, tail, [h, h, h]);
    SitsPart(code, h0, p.pc, [Label(lp.cont, h)], gb.code, tail, [h, h, h, h]);
    SpotStands(code, h0, q, Spot(p.s.body, p.idx, h, inner, p.n, p.pc + 1));
  }

  lemma {:induction false} InsideDoWhile(code: seq<Instr>, h0: nat, q: Spot, p: Spot)
    requires p.s.DoWhile? && Sound(code, h0, p) && Occurs(q, p) && q != p
    ensures Stands(code, h0, q)
    decreases p.s, 1
  {
    hide Flow, At, LabelsUnique, GoalsOk, Sits, Stands, Names, GenExpr;
    assert p.Code() == GenDoWhile(p.s, p.idx, p.level, p.ls, p.n).code;
    var h, lp := p.level, p.s.lp;
    var inner := Enter(p.ls, lp, h, 0);
    var gb := GenStmt(p.s.body, p.idx, h, inner, p.n + 1);
    var gc := GenExpr(p.s.cond, p.idx, h, gb.next);
    DoWhileParts(code, p.pc, gb.code, gc.code, lp, h, p.n);
    var m := p.pc + 1 + |gb.code|;
    GoalHere(code, p.pc, p.n, h);
    GoalHere(code, m, lp.cont, h);
    GoalHere(code, m + 1 + |gc.code| + 1, lp.brk, h);
    InnerGoals(code, p.ls, lp, h, 0);
    ExprFlows(code, p.s.cond, p.idx, h, gb.next, m + 1);
    DoWhileSits(code, h0, p.pc, gb.code, gc.code, lp, h, p.n);
    SpotStands(code, h0, q, Spot(p.s.body, p.idx, h, inner, p.n + 1, p.pc + 1));
  }

  lemma DoWhileSits(code: seq<Instr>, h0: nat, pc: nat, b: seq<Instr>, c: seq<Instr>, lp: LoopId, h: nat, n: nat)
    requires Flow(code, c, h, h) && Goal(code, n, h) && Goal(code, lp.cont, h) && Goal(code, lp.brk, h)
    requires Sits(code, h0, pc, [Label(n, h)] + b + [Label(lp.cont, h)] + c + [Jnz(n), Label(lp.brk, h)], h, h)
    ensures Sits(code, h0, pc + 1, b, h, h)
  {
    hide Flow, Sits;
    var head, mid, tail := [Label(n, h)], [Label(lp.cont, h)], [Jnz(n), Label(lp.brk, h)];
    FlowLine(code, Label(n, h), h, h);
    FlowLine(code, Label(lp.cont, h), h, h);
    FlowLines(code, tail, [h, h, h]);
    Flow3(code, mid, c, tail, [h, h, h, h]);
    assert head + b + (mid + c + tail) == head + b + mid + c + tail;
    SitsPart(code, h0, pc, head, b, mid + c + tail, [h, h, h, h]);
  }

  lemma {:induction false} InsideFor(code: seq<Instr>, h0: nat, q: Spot, p: Spot)
    requires p.s.For? && Sound(code, h0, p) && Occurs(q, p) && q != p
    ensures Stands(code, h0, q)
    decreases p.s, 1
  {
    hide Flow, At, LabelsUnique, GoalsOk, Sits, Stands, Names, GenExprs, GenTest, GenForLoop;
    assert p.Code() == GenFor(p.s, p.idx, p.level, p.ls, p.n).code;
    var h := p.level;
    var gi := GenExprs(p.s.init, p.idx, h, p.n + 1);
    var gl := GenForLoop(p.s, p.idx, h, p.ls, p.n, gi.next);
    AtSplit(code, p.pc, gi.code, gl.code);
    ExprsFlow(code, p.s.init, p.idx, h, p.n + 1, p.pc);
    SitsLast(code, h0, p.pc, gi.code, gl.code, [h, h, h]);
    InsideForLoop(code, h0, q, p, gi.next, p.pc + |gi.code|);
  }

  lemma {:induction false} InsideForLoop(code: seq<Instr>, h0: nat, q: Spot, p: Spot, n: nat, r: nat)
    requires p.s.For? && WfStmt(p.s, |p.idx|, Names(p.ls)) && GoalsOk(code, p.ls, p.level)
    requires Placed(code, r, GenForLoop(p.s, p.idx, p.level, p.ls, p.n, n).code, p.idx, p.level)
    requires Sits(code, h0, r, GenForLoop(p.s, p.idx, p.level, p.ls, p.n, n).code, p.level, p.level)
    requires var gc := GenTest(p.s.test, p.s.lp.brk, p.idx, p.level, n);
      Occurs(q, Spot(p.s.body, p.idx, p.level, Enter(p.ls, p.s.lp, p.level, 0), gc.next, r + 1 + |gc.code|))
    ensures Stands(code, h0, q)
    decreases p.s, 0
  {
    hide Flow, At, LabelsUnique, GoalsOk, Sits, Stands, Names, GenExprs, GenTest, Goal, GenStmt, Occurs;
    var h, lp := p.level, p.s.lp;
    var inner := Enter(p.ls, lp, h, 0);
    var gc := GenTest(p.s.test, lp.brk, p.idx, h, n);
    var gb := GenStmt(p.s.body, p.idx, h, inner, gc.next);
    var ge := GenExprs(p.s.last, p.idx, h, gb.next);
    ForParts(code, r, gc.code, gb.code, ge.code, lp, h, p.n);
    var m := r + 1 + |gc.code| + |gb.code|;
    GoalHere(code, r, p.n, h);
    GoalHere(code, m, lp.cont, h);
    GoalHere(code, m + 1 + |ge.code| + 1, lp.brk, h);
    InnerGoals(code, p.ls, lp, h, 0);
    TestFlows(code, p.s.test, lp.brk, p.idx, h, n, r + 1);
    ExprsFlow(code, p.s.last, p.idx, h, gb.next, m + 1);
    ForSits(code, h0, r, gc.code, gb.code, ge.code, lp, h, p.n);
    SpotStands(code, h0, q, Spot(p.s.body, p.idx, h, inner, gc.next, r + 1 + |gc.code|));
  }

  lemma ForSits(code: seq<Instr>, h0: nat, pc: nat, c: seq<Instr>, b: seq<Instr>, e: seq<Instr>, lp: LoopId, h: nat,
                top: nat)
    requires Flow(code, c, h, h) && Flow(code, e, h, h)
    requires Goal(code, top, h) && Goal(code, lp.cont, h) && Goal(code, lp.brk, h)
    requires Sits(code, h0, pc, [Label(top, h)] + c + b + [Label(lp.cont, h)] + e + [Jmp(top), Label(lp.brk, h)], h, h)
    ensures Sits(code, h0, pc + 1 + |c|, b, h, h)
  {
    hide Flow, Sits;
    var a, mid, tail := [Label(top, h)] + c, [Label(lp.cont, h)], [Jmp(top), Label(lp.brk, h)];
    FlowLine(code, Label(top, h), h, h);
    FlowLine(code, Label(lp.cont, h), h, h);
    FlowLines(code, tail, [h, h, h]);
    FlowThen(code, [Label(top, h)], c, h, h, h);
    Flow3(code, mid, e, tail, [h, h, h, h]);
    assert a + b + (mid + e + tail) == a + b + mid + e + tail;
    SitsPart(code, h0, pc, a, b, mid + e + tail, [h, h, h, h]);
  }

  lemma {:induction false} InsideRepeat(code: seq<Instr>, h0: nat, q: Spot, p: Spot)
    requires p.s.Repeat? && Sound(code, h0, p) && Occurs(q, p) && q != p
    ensures Stands(code, h0, q)
    decreases p.s, 1
  {
    hide Flow, At, LabelsUnique, GoalsOk, Sits, Stands, Names, GenExpr, GenRepeatLoop;
    assert p.Code() == GenRepeat(p.s, p.idx, p.level, p.ls, p.n).code;
    var h := p.level;
    var gn := GenExpr(p.s.number, p.idx, h, p.n + 2);
    var gl := GenRepeatLoop(p.s, p.idx, h, p.ls, p.n, gn.next);
    Cut(code, p.pc, gn.code, PushAlu, gl.code);
    ExprFlows(code, p.s.number, p.idx, h, p.n + 2, p.pc);
    FlowLine(code, PushAlu, h, h + 1);
    FlowThen(code, gn.code, [PushAlu], h, h, h + 1);
    SitsLast(code, h0, p.pc, gn.code + [PushAlu], gl.code, [h, h + 1, h]);
    InsideRepeatLoop(code, h0, q, p, gn.next, p.pc + |gn.code| + 1);
  }

  lemma {:induction false} InsideRepeatLoop(code: seq<Instr>, h0: nat, q: Spot, p: Spot, n: nat, r: nat)
    requires p.s.Repeat? && WfStmt(p.s, |p.idx|, Names(p.ls)) && GoalsOk(code, p.ls, p.level)
    requires Placed(code, r, GenRepeatLoop(p.s, p.idx, p.level, p.ls, p.n, n).code, p.idx, p.level)
    requires Sits(code, h0, r, GenRepeatLoop(p.s, p.idx, p.level, p.ls, p.n, n).code, p.level + 1, p.level)
    requires Occurs(q, Spot(p.s.body, p.idx, p.level + 1, Enter(p.ls, p.s.lp, p.level, 1), n, r + 2))
    ensures Stands(code, h0, q)
    decreases p.s, 0
  {
    hide Flow, At, LabelsUnique, GoalsOk, Sits, Stands, Names, Goal, GenStmt, Occurs;
    var h, lp := p.level, p.s.lp;
    var inner := Enter(p.ls, lp, h, 1);
    var gb := GenStmt(p.s.body, p.idx, h + 1, inner, n);
    RepeatParts(code, r, gb.code, lp, h, p.n);
    var m := r + 2 + |gb.code|;
    GoalHere(code, r, p.n, h + 1);
    GoalHere(code, m, lp.cont, h + 1);
    GoalHere(code, m + 5, p.n + 1, h + 1);
    GoalHere(code, m + 7, lp.brk, h);
    InnerGoals(code, p.ls, lp, h, 1);
    RepeatLinesFlow(code, lp, h, p.n);
    SitsPart(code, h0, r, [Label(p.n, h + 1), Jz(p.n + 1)], gb.code,
             [Label(lp.cont, h + 1), PopAlu, Dec, PushAlu, Jmp(p.n), Label(p.n + 1, h + 1), Pop(1), Label(lp.brk, h)],
             [h + 1, h + 1, h + 1, h]);
    SpotStands(code, h0, q, Spot(p.s.body, p.idx, h + 1, inner, n, r + 2));
  }

  lemma {:induction false} InsideCase(code: seq<Instr>, h0: nat, q: Spot, p: Spot)
    requires p.s.Case? && Sound(code, h0, p) && Occurs(q, p) && q != p
    ensures Stands(code, h0, q)
    decreases p.s, 1
  {
    hide Flow, At, LabelsUnique, GoalsOk, Sits, Stands, Names, GenExpr, GenItems, OccursInItems, WfExpr;
    assert p.Code() == GenCase(p.s, p.idx, p.level, p.ls, p.n).code;
    var h := p.level;
    var gc := GenExpr(p.s.cond, p.idx, h, p.n + 1);
    var gs := GenItems(p.s.items, p.n, p.idx, h, p.ls, gc.next);
    BinParts(code, p.pc, gc.code, PushAlu, gs.code, Label(p.n, h));
    GoalHere(code, p.pc + |gc.code| + 1 + |gs.code|, p.n, h);
    ExprFlows(code, p.s.cond, p.idx, h, p.n + 1, p.pc);
    FlowLine(code, PushAlu, h, h + 1);
    FlowLine(code, Label(p.n, h), h, h);
    FlowThen(code, gc.code, [PushAlu], h, h, h + 1);
    SitsPart(code, h0, p.pc, gc.code + [PushAlu], gs.code, [Label(p.n, h)], [h, h + 1, h, h]);
    InsideItems(code, h0, q, p.s.items, p.n, p.idx, h, p.ls, gc.next, p.pc + |gc.code| + 1);
  }

  lemma {:induction false} InsideItems(code: seq<Instr>, h0: nat, q: Spot, items: Items, exit: nat, idx: seq<nat>,
                                       level: nat, ls: seq<LabelData>, n: nat, pc: nat)
    requires WfItems(items, |idx|, Names(ls)) && GoalsOk(code, ls, level) && Goal(code, exit, level)
    requires Placed(code, pc, GenItems(items, exit, idx, level, ls, n).code, idx, level)
    requires Sits(code, h0, pc, GenItems(items, exit, idx, level, ls, n).code, level + 1, level)
    requires OccursInItems(q, items, exit, idx, level, ls, n, pc)
    ensures Stands(code, h0, q)
    decreases items, 1
  {
    hide Flow, At, LabelsUnique, GoalsOk, Sits, Stands, Names, GenMatch, GenStmt, WfStmt, Occurs;
    match items
    case Default(body) =>
      var gb := GenStmt(body, idx, level, ls, n);
      DefaultParts(code, pc, gb.code, exit);
      FlowLine(code, Pop(1), level + 1, level);
      FlowLine(code, Jmp(exit), level, level);
      SitsPart(code, h0, pc, [Pop(1)], gb.code, [Jmp(exit)], [level + 1, level, level, level]);
      SpotStands(code, h0, q, Spot(body, idx, level, ls, n, pc + 1));
    case Item(conds, body, rest) => InsideItem(code, h0, q, conds, body, rest, exit, idx, level, ls, n, pc);
  }

  lemma {:induction false} InsideItem(code: seq<Instr>, h0: nat, q: Spot, conds: seq<Expr>, body: Stmt, rest: Items,
                                      exit: nat, idx: seq<nat>, level: nat, ls: seq<LabelData>, n: nat, pc: nat)
    requires WfItems(Item(conds, body, rest), |idx|, Names(ls)) && GoalsOk(code, ls, level) && Goal(code, exit, level)
    requires Placed(code, pc, GenItems(Item(conds, body, rest), exit, idx, level, ls, n).code, idx, level)
    requires Sits(code, h0, pc, GenItems(Item(conds, body, rest), exit, idx, level, ls, n).code, level + 1, level)
    requires OccursInItems(q, Item(conds, body, rest), exit, idx, level, ls, n, pc)
    ensures Stands(code, h0, q)
    decreases Item(conds, body, rest), 0
  {
    hide Flow, At, LabelsUnique, GoalsOk, Sits, Stands, Names, GenMatch, GenStmt, WfStmt, Occurs, Goal, Scan;
    var h := level + 1;
    var gc := GenMatch(conds, n, idx, h, n + 2);
    var gb := GenStmt(body, idx, level, ls, gc.next);
    var gr := GenItems(rest, exit, idx, level, ls, gb.next);
    ItemParts(code, pc, gc.code, gb.code, gr.code, exit, level, n);
    var m := pc + |gc.code| + 3;
    GoalHere(code, pc + |gc.code| + 1, n, h);
    GoalHere(code, m + |gb.code| + 1, n + 1, h);
    MatchFlows(code, conds, n, idx, h, n + 2, pc);
    StmtFlows(code, body, idx, level, ls, gc.next, m);
    ItemsFlow(code, rest, exit, idx, level, ls, gb.next, m + |gb.code| + 2);
    ItemSits(code, h0, pc, gc.code, gb.code, gr.code, exit, level, n);
    if Occurs(q, Spot(body, idx, level, ls, gc.next, m)) {
      SpotStands(code, h0, q, Spot(body, idx, level, ls, gc.next, m));
    } else {
      InsideItems(code, h0, q, rest, exit, idx, level, ls, gb.next, m + |gb.code| + 2);
    }
  }

  lemma ItemSits(code: seq<Instr>, h0: nat, pc: nat, m: seq<Instr>, b: seq<Instr>, r: seq<Instr>, exit: nat,
                 level: nat, n: nat)
    requires Flow(code, m, level + 1, level + 1) && Flow(code, b, level, level) && Flow(code, r, level + 1, level)
    requires Goal(code, n, level + 1) && Goal(code, n + 1, level + 1) && Goal(code, exit, level)
    requires Sits(code, h0, pc,
                  m + [Jmp(n + 1), Label(n, level + 1), Pop(1)] + b + [Jmp(exit), Label(n + 1, level + 1)] + r,
                  level + 1, level)
    ensures Sits(code, h0, pc + |m| + 3, b, level, level) && Sits(code, h0, pc + |m| + 3 + |b| + 2, r, level + 1, level)
  {
    hide Flow, Sits;
    var h := level + 1;
    var f, g := [Jmp(n + 1), Label(n, h), Pop(1)], [Jmp(exit), Label(n + 1, h)];
    FlowLines(code, f, [h, h, h, level]);
    FlowLines(code, g, [level, h, h]);
    FlowThen(code, m, f, h, h, level);
    FlowThen(code, g, r, level, h, level);
    Flow3(code, m + f, b, g, [h, level, level, h]);
    assert m + f + b + (g + r) == m + f + b + g + r;
    SitsPart(code, h0, pc, m + f, b, g + r, [h, level, level, level]);
    SitsLast(code, h0, pc, m + f + b + g, r, [h, h, level]);
  }

  lemma {:induction false} InsideSeq(code: seq<Instr>, h0: nat, q: Spot, ss: seq<Stmt>, idx: seq<nat>, level: nat,
                                     ls: seq<LabelData>, n: nat, pc: nat)
    requires WfSeq(ss, |idx|, Names(ls)) && GoalsOk(code, ls, level)
    requires Placed(code, pc, GenSeq(ss, idx, level, ls, n).code, idx, level)
    requires Sits(code, h0, pc, GenSeq(ss, idx, level, ls, n).code, level, level)
    requires OccursInSeq(q, ss, idx, level, ls, n, pc)
    ensures Stands(code, h0, q)
    decreases ss, 0
  {
    hide Flow, At, LabelsUnique, GoalsOk, Sits, Stands, Names, GenStmt, WfStmt, Occurs;
    var g := GenStmt(ss[0], idx, level, ls, n);
    var gs := GenSeq(ss[1..], idx, level, ls, g.next);
    AtSplit(code, pc, g.code, gs.code);
    StmtFlows(code, ss[0], idx, level, ls, n, pc);
    SeqFlows(code, ss[1..], idx, level, ls, g.next, pc + |g.code|);
    if Occurs(q, Spot(ss[0], idx, level, ls, n, pc)) {
      FlowLines(code, [], [level]);
      assert [] + g.code + gs.code == g.code + gs.code;
      SitsPart(code, h0, pc, [], g.code, gs.code, [level, level, level, level]);
      SpotStands(code, h0, q, Spot(ss[0], idx, level, ls, n, pc));
    } else {
      SitsLast(code, h0, pc, g.code, gs.code, [level, level, level]);
      InsideSeq(code, h0, q, ss[1..], idx, level, ls, g.next, pc + |g.code|);
    }
  }

  lemma {:induction false} InsideBlock(code: seq<Instr>, h0: nat, q: Spot, p: Spot)
    requires p.s.Block? && Sound(code, h0, p) && Occurs(q, p) && q != p
    ensures Stands(code, h0, q)
    decreases p.s, 1
  {
    hide Flow, At, LabelsUnique, Sits, Stands, GenSeq, GenInits, LVars;
    assert p.Code() == GenBlock(p.s, p.idx, p.level, p.ls, p.n).code;
    var h, k := p.level, |p.s.vars|;
    var idx1 := p.idx + Slots(h, k);
    var gi := GenInits(p.s.vars, |p.idx|, idx1, h + k, p.n);
    var gs := GenSeq(p.s.stmts, idx1, h + k, p.ls, gi.next);
    BlockParts(code, p.pc, LVars(h, k), gi.code, gs.code, PopIf(k));
    LVarsLength(h, k);
    VarsFlow(code, h, k);
    InitsFlow(code, p.s.vars, |p.idx|, idx1, h + k, p.n, p.pc + k);
    PopFlows(code, k, h);
    FlowThen(code, LVars(h, k), gi.code, h, h + k, h + k);
    SitsPart(code, h0, p.pc, LVars(h, k) + gi.code, gs.code, PopIf(k), [h, h + k, h + k, h]);
    InsideSeq(code, h0, q, p.s.stmts, idx1, h + k, p.ls, gi.next, p.pc + k + |gi.code|);
  }

  lemma PopFlows(code: seq<Instr>, k: nat, h: nat)
    ensures Flow(code, PopIf(k), h + k, h)
  {
    hide Flow;
    if k == 0 {
      FlowLines(code, PopIf(k), [h]);
    } else {
      FlowLine(code, Pop(k), h + k, h);
    }
  }

  // ----- The result -----

  /** Where a statement stands, a machine in step with the scan has a frame of its level. */
  lemma StandsHigh(code: seq<Instr>, h0: nat, q: Spot, st: State)
    requires Stands(code, h0, q) && InStep(code, h0, st) && st.pc == q.pc
    ensures |st.stack| == q.level
  {
    hide GenStmt;
    if Scan(code, code[..q.pc], Live(h0)) == Dead {
      var rest := code[q.pc..];
      assert rest[0] == code[q.pc];
      BadStays(code, rest[1..]);
      assert After(code, rest[0], Live(q.level)) != Bad;
    }
  }

  /** The text of every statement of a program stands where `Occurs` says, and every run that
      comes there finds a frame of exactly the level with which the statement was generated. */
  lemma LevelIsHeight(pl: Platform, s: Stmt, idx: seq<nat>, stack: seq<Int32>, acc: Int32, now: nat, n: nat, k: nat,
                      q: Spot)
    requires Program(s, idx, stack, n) && Occurs(q, Spot(s, idx, |stack|, [], n, 0))
    ensures At(GenStmt(s, idx, |stack|, [], n).code, q.pc, q.Code())
    ensures var run := Run(pl, GenStmt(s, idx, |stack|, [], n).code, State(0, acc, stack, now), k);
      run.Some? && run.value.pc == q.pc ==> |run.value.stack| == q.level
  {
    hide GenStmt, Occurs, Run;
    var h0 := |stack|;
    var code := GenStmt(s, idx, h0, [], n).code;
    var p := Spot(s, idx, h0, [], n, 0);
    var s0 := State(0, acc, stack, now);
    GeneratedLabelsUnique(s, idx, h0, n);
    AtWhole(code);
    StmtFlows(code, s, idx, h0, [], n, 0);
    assert code[..0] == [] && code[0 + |code|..] == [];
    SpotStands(code, h0, q, p);
    if Run(pl, code, s0, k).Some? {
      RunInStep(pl, code, h0, s0, k);
      var st := Run(pl, code, s0, k).value;
      if st.pc == q.pc {
        StandsHigh(code, h0, q, st);
      }
    }
  }
}
