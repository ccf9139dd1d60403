/**
Stack discipline of the generated code, on every path through it: a position in the code
determines the height of the frame, each label has one height whatever jumps there, a local is
created in the slot that the generator assigned to it, and nothing is popped that is not there.
*/
module Discipline {
  import opened Machine
  import opened Source
  import opened CodeGen
  import opened Thread
  import opened ExprCorrect
  import opened StmtCorrect
  import opened Labels
  import opened CompilerCorrect

  /** The frame height in front of a line: unknown and unreachable after a jump, until a label. */
  datatype Height = Bad | Dead | Live(h: nat)

  function LevelOf(code: seq<Instr>, l: nat): Option<nat> {
    if Find(code, l) < |code| then Some(code[Find(code, l)].level) else None
  }

  /** The height after one line of the code; Bad when the line does not fit the height before it. */
  function After(code: seq<Instr>, i: Instr, height: Height): Height {
    match height
    case Bad => Bad
    case Dead => if i.Label? then (if LevelOf(code, i.num) == Some(i.level) then Live(i.level) else Bad) else Dead
    case Live(h) =>
      match i
      case LVar(k) => if k == h then Live(h + 1) else Bad
      case LoadL(k) => if k < h then Live(h) else Bad
      case StoreL(k) => if k < h then Live(h) else Bad
      case PushAlu => Live(h + 1)
      case PopAlu => if h > 0 then Live(h - 1) else Bad
      case Binary(_) => if h > 0 then Live(h - 1) else Bad
      case Pop(n) => if 0 <= n <= h then Live(h - n) else Bad
      case Cmp => if h > 0 then Live(h) else Bad
      case Jz(l) => if LevelOf(code, l) == Some(h) then Live(h) else Bad
      case Jnz(l) => if LevelOf(code, l) == Some(h) then Live(h) else Bad
      case Jmp(l) => if LevelOf(code, l) == Some(h) then Dead else Bad
      case Label(l, level) => if level == h && LevelOf(code, l) == Some(h) then Live(h) else Bad
      case _ => Live(h)
  }

  function Scan(code: seq<Instr>, frag: seq<Instr>, height: Height): Height
    decreases |frag|
  {
    if frag == [] then height else Scan(code, frag[1..], After(code, frag[0], height))
  }

  lemma {:induction false} ScanAppend(code: seq<Instr>, a: seq<Instr>, b: seq<Instr>, height: Height)
    ensures Scan(code, a + b, height) == Scan(code, b, Scan(code, a, height))
    decreases |a|
  {
    if a == [] {
      assert a + b == b;
    } else {
      assert (a + b)[1..] == a[1..] + b;
      ScanAppend(code, a[1..], b, After(code, a[0], height));
    }
  }

  // ----- What a scan without fault means for every run -----

  /** The machine is where the scan of the code in front of it says, with that frame height. */
  ghost predicate InStep(code: seq<Instr>, h0: nat, st: State) {
    st.pc <= |code| &&
    match Scan(code, code[..st.pc], Live(h0))
    case Bad => false
    case Dead => st.pc < |code| && code[st.pc].Label? && code[st.pc].level == |st.stack|
    case Live(h) => h == |st.stack|
  }

  lemma {:induction false} BadStays(code: seq<Instr>, frag: seq<Instr>)
    ensures Scan(code, frag, Bad) == Bad
    decreases |frag|
  {
    if frag != [] {
      BadStays(code, frag[1..]);
    }
  }

  /** If the whole code scans without fault, so does every prefix. */
  lemma PrefixScans(code: seq<Instr>, h0: nat, q: nat)
    requires Scan(code, code, Live(h0)) != Bad && q < |code|
    ensures Scan(code, code[..q], Live(h0)) != Bad
    ensures Scan(code, code[..q + 1], Live(h0)) == After(code, code[q], Scan(code, code[..q], Live(h0))) != Bad
  {
    var here := Scan(code, code[..q], Live(h0));
    assert code == code[..q] + code[q..] && code == code[..q + 1] + code[q + 1..];
    ScanAppend(code, code[..q], code[q..], Live(h0));
    ScanAppend(code, code[..q + 1], code[q + 1..], Live(h0));
    assert code[..q + 1] == code[..q] + [code[q]];
    ScanAppend(code, code[..q], [code[q]], Live(h0));
    BadStays(code, code[q..]);
    BadStays(code, code[q + 1..]);
  }

  /** One step keeps the machine in step with the scan, and there is a step unless the code ends. */
  lemma StepInStep(pl: Platform, code: seq<Instr>, h0: nat, st: State)
    requires Scan(code, code, Live(h0)) != Bad && InStep(code, h0, st) && st.pc < |code|
    ensures Step(pl, code, st).Some? && InStep(code, h0, Step(pl, code, st).value)
  {
    hide Scan;
    PrefixScans(code, h0, st.pc);
    var i := code[st.pc];
    if i.Jz? || i.Jnz? || i.Jmp? {
      var q := Find(code, i.target);
      PrefixScans(code, h0, q);
    }
  }

  lemma {:induction false} RunInStep(pl: Platform, code: seq<Instr>, h0: nat, st: State, n: nat)
    requires Scan(code, code, Live(h0)) != Bad && InStep(code, h0, st) && Run(pl, code, st, n).Some?
    ensures var end := Run(pl, code, st, n).value;
      InStep(code, h0, end) && (end.pc < |code| ==> Step(pl, code, end).Some?)
    decreases n
  {
    if st.pc < |code| {
      StepInStep(pl, code, h0, st);
    }
    if n > 0 {
      RunInStep(pl, code, h0, Step(pl, code, st).value, n - 1);
    }
  }

  // ----- Fragments that fit -----

  ghost predicate Fits(height: Height, h: nat) { height == Dead || height == Live(h) }

  /** From height h, or unreachable, the fragment leads to height h', or is unreachable at its end. */
  ghost predicate Flow(code: seq<Instr>, frag: seq<Instr>, h: nat, h': nat) {
    Fits(Scan(code, frag, Live(h)), h') && Fits(Scan(code, frag, Dead), h')
  }

  ghost predicate Goal(code: seq<Instr>, l: nat, h: nat) { LevelOf(code, l) == Some(h) }

  /** A line that may stand between heights h and h'. */
  ghost predicate LineOk(code: seq<Instr>, i: Instr, h: nat, h': nat) {
    match i
    case LVar(k) => k == h && h' == h + 1
    case LoadL(k) => k < h == h'
    case StoreL(k) => k < h == h'
    case PushAlu => h' == h + 1
    case PopAlu => h == h' + 1
    case Binary(_) => h == h' + 1
    case Pop(n) => 0 <= n && h == h' + n
    case Cmp => h > 0 && h' == h
    case Jz(l) => Goal(code, l, h) && h' == h
    case Jnz(l) => Goal(code, l, h) && h' == h
    case Jmp(l) => Goal(code, l, h)
    case Label(l, level) => level == h == h' && Goal(code, l, h)
    case _ => h' == h
  }

  lemma GoalHere(code: seq<Instr>, q: nat, l: nat, level: nat)
    requires LabelsUnique(code) && Labelled(code, q, l, level)
    ensures Goal(code, l, level)
  {
    FindUnique(code, q, l);
  }

  lemma FlowThen(code: seq<Instr>, a: seq<Instr>, b: seq<Instr>, h: nat, h1: nat, h2: nat)
    requires Flow(code, a, h, h1) && Flow(code, b, h1, h2)
    ensures Flow(code, a + b, h, h2)
  {
    ScanAppend(code, a, b, Live(h));
    ScanAppend(code, a, b, Dead);
  }

  lemma FlowLine(code: seq<Instr>, i: Instr, h: nat, h': nat)
    requires LineOk(code, i, h, h')
    ensures Flow(code, [i], h, h')
  {
    assert Scan(code, [i], Live(h)) == After(code, i, Live(h));
    assert Scan(code, [i], Dead) == After(code, i, Dead);
  }

  /** Written-out code, with the height in front of each line and at the end. */
  lemma {:induction false} FlowLines(code: seq<Instr>, frag: seq<Instr>, hs: seq<nat>)
    requires |hs| == |frag| + 1 && forall i | 0 <= i < |frag| :: LineOk(code, frag[i], hs[i], hs[i + 1])
    ensures Flow(code, frag, hs[0], hs[|frag|])
    decreases |frag|
  {
    if frag != [] {
      FlowLine(code, frag[0], hs[0], hs[1]);
      FlowLines(code, frag[1..], hs[1..]);
      FlowThen(code, frag[..1], frag[1..], hs[0], hs[1], hs[|frag|]);
      assert frag == frag[..1] + frag[1..] && frag[..1] == [frag[0]];
    }
  }

  lemma Flow3(code: seq<Instr>, a: seq<Instr>, b: seq<Instr>, c: seq<Instr>, hs: seq<nat>)
    requires |hs| == 4
    requires Flow(code, a, hs[0], hs[1]) && Flow(code, b, hs[1], hs[2]) && Flow(code, c, hs[2], hs[3])
    ensures Flow(code, a + b + c, hs[0], hs[3])
  {
    FlowThen(code, a, b, hs[0], hs[1], hs[2]);
    FlowThen(code, a + b, c, hs[0], hs[2], hs[3]);
  }

  lemma Flow5(code: seq<Instr>, a: seq<Instr>, b: seq<Instr>, c: seq<Instr>, d: seq<Instr>, e: seq<Instr>, hs: seq<nat>)
    requires |hs| == 6
    requires Flow(code, a, hs[0], hs[1]) && Flow(code, b, hs[1], hs[2]) && Flow(code, c, hs[2], hs[3])
    requires Flow(code, d, hs[3], hs[4]) && Flow(code, e, hs[4], hs[5])
    ensures Flow(code, a + b + c + d + e, hs[0], hs[5])
  {
    Flow3(code, a, b, c, hs[..4]);
    Flow3(code, a + b + c, d, e, [hs[0], hs[3], hs[4], hs[5]]);
  }

  // ----- Expressions -----

  ghost predicate Below(idx: seq<nat>, h: nat) { forall v | 0 <= v < |idx| :: idx[v] < h }

  /** The fragment stands in the code and its locals are in the frame. */
  ghost predicate Placed(code: seq<Instr>, pc: nat, frag: seq<Instr>, idx: seq<nat>, h: nat) {
    LabelsUnique(code) && At(code, pc, frag) && Below(idx, h)
  }

  lemma {:induction false} ExprFlows(code: seq<Instr>, e: Expr, idx: seq<nat>, h: nat, n: nat, pc: nat)
    requires WfExpr(e, |idx|) && Placed(code, pc, GenExpr(e, idx, h, n).code, idx, h)
    ensures Flow(code, GenExpr(e, idx, h, n).code, h, h)
    decreases e, 1
  {
    hide Flow, LabelsUnique, At, Scan, GenBin, GenLAnd, GenLOr, GenCond, GenTimed;
    match e
    case Const(c) => FlowLine(code, LoadConst(c), h, h);
    case Port(p) => FlowLine(code, LoadPort(p), h, h);
    case Local(v) => FlowLine(code, LoadL(idx[v]), h, h);
    case PreInc(v) => FlowLines(code, GenExpr(e, idx, h, n).code, [h, h, h, h]);
    case PreDec(v) => FlowLines(code, GenExpr(e, idx, h, n).code, [h, h, h, h]);
    case PostInc(v) => PostFlows(code, Inc, idx[v], h);
    case PostDec(v) => PostFlows(code, Dec, idx[v], h);
    case Un(uop, e1) =>
      AtSplit(code, pc, GenExpr(e1, idx, h, n).code, [Unary(uop)]);
      ExprFlows(code, e1, idx, h, n, pc);
      FlowLine(code, Unary(uop), h, h);
      FlowThen(code, GenExpr(e1, idx, h, n).code, [Unary(uop)], h, h, h);
    case Assign(v, e1) =>
      AtSplit(code, pc, GenExpr(e1, idx, h, n).code, [StoreL(idx[v])]);
      ExprFlows(code, e1, idx, h, n, pc);
      FlowLine(code, StoreL(idx[v]), h, h);
      FlowThen(code, GenExpr(e1, idx, h, n).code, [StoreL(idx[v])], h, h, h);
    case AssignOp(op, v, e1) => AssignOpFlows(code, e, idx, h, n, pc);
    case Bin(_, _, _) => BinFlows(code, e, idx, h, n, pc);
    case LAnd(_, _) => AndFlows(code, e, idx, h, n, pc);
    case LOr(_, _) => OrFlows(code, e, idx, h, n, pc);
    case Cond(_, _, _) => CondFlows(code, e, idx, h, n, pc);
    case Till(_, _, _) => TimedFlows(code, e, idx, h, n, pc);
    case Whilst(_, _, _) => TimedFlows(code, e, idx, h, n, pc);
  }

  lemma PostFlows(code: seq<Instr>, step: Instr, slot: nat, h: nat)
    requires slot < h && (step == Inc || step == Dec)
    ensures Flow(code, GenPost(step, slot), h, h)
  {
    hide Flow;
    FlowLines(code, GenPost(step, slot), [h, h, h + 1, h + 1, h + 1, h]);
  }

  lemma {:induction false} AssignOpFlows(code: seq<Instr>, e: Expr, idx: seq<nat>, h: nat, n: nat, pc: nat)
    requires e.AssignOp? && WfExpr(e, |idx|) && Placed(code, pc, GenAssignOp(e, idx, h, n).code, idx, h)
    ensures Flow(code, GenAssignOp(e, idx, h, n).code, h, h)
    decreases e, 0
  {
    hide Flow, At, GenExpr, LabelsUnique;
    var g := GenExpr(e.e, idx, h + 1, n);
    AssignOpParts(code, pc, g.code, idx[e.v], e.op);
    ExprFlows(code, e.e, idx, h + 1, n, pc + 2);
    FlowLines(code, [LoadL(idx[e.v]), PushAlu], [h, h, h + 1]);
    FlowLines(code, [Binary(e.op), StoreL(idx[e.v])], [h + 1, h, h]);
    Flow3(code, [LoadL(idx[e.v]), PushAlu], g.code, [Binary(e.op), StoreL(idx[e.v])], [h, h + 1, h + 1, h]);
  }

  lemma {:induction false} BinFlows(code: seq<Instr>, e: Expr, idx: seq<nat>, h: nat, n: nat, pc: nat)
    requires e.Bin? && WfExpr(e, |idx|) && Placed(code, pc, GenBin(e, idx, h, n).code, idx, h)
    ensures Flow(code, GenBin(e, idx, h, n).code, h, h)
    decreases e, 0
  {
    hide Flow, At, GenExpr, LabelsUnique;
    var gl := GenExpr(e.l, idx, h, n);
    var gr := GenExpr(e.r, idx, h + 1, gl.next);
    BinParts(code, pc, gl.code, PushAlu, gr.code, Binary(e.op));
    ExprFlows(code, e.l, idx, h, n, pc);
    ExprFlows(code, e.r, idx, h + 1, gl.next, pc + |gl.code| + 1);
    FlowLine(code, PushAlu, h, h + 1);
    FlowLine(code, Binary(e.op), h + 1, h);
    Flow3(code, gl.code, [PushAlu], gr.code, [h, h, h + 1, h + 1]);
    FlowThen(code, gl.code + [PushAlu] + gr.code, [Binary(e.op)], h, h + 1, h);
  }

  lemma {:induction false} AndFlows(code: seq<Instr>, e: Expr, idx: seq<nat>, h: nat, n: nat, pc: nat)
    requires e.LAnd? && WfExpr(e, |idx|) && Placed(code, pc, GenLAnd(e, idx, h, n).code, idx, h)
    ensures Flow(code, GenLAnd(e, idx, h, n).code, h, h)
    decreases e, 0
  {
    hide Flow, At, GenExpr, LabelsUnique;
    var gl := GenExpr(e.l, idx, h, n + 2);
    var gr := GenExpr(e.r, idx, h, gl.next);
    var tail := [Jz(n), LoadOne, Jmp(n + 1), Label(n, h), LoadZero, Label(n + 1, h)];
    AndParts(code, pc, gl.code, gr.code, h, n);
    var t := pc + |gl.code| + 1 + |gr.code|;
    GoalHere(code, t + 3, n, h);
    GoalHere(code, t + 5, n + 1, h);
    ExprFlows(code, e.l, idx, h, n + 2, pc);
    ExprFlows(code, e.r, idx, h, gl.next, pc + |gl.code| + 1);
    FlowLine(code, Jz(n), h, h);
    FlowLines(code, tail, [h, h, h, h, h, h, h]);
    Flow3(code, gl.code, [Jz(n)], gr.code, [h, h, h, h]);
    FlowThen(code, gl.code + [Jz(n)] + gr.code, tail, h, h, h);
  }

  lemma {:induction false} OrFlows(code: seq<Instr>, e: Expr, idx: seq<nat>, h: nat, n: nat, pc: nat)
    requires e.LOr? && WfExpr(e, |idx|) && Placed(code, pc, GenLOr(e, idx, h, n).code, idx, h)
    ensures Flow(code, GenLOr(e, idx, h, n).code, h, h)
    decreases e, 0
  {
    hide Flow, At, GenExpr, LabelsUnique;
    var gl := GenExpr(e.l, idx, h, n + 3);
    var gr := GenExpr(e.r, idx, h, gl.next);
    var tail := [Jz(n + 1), Label(n, h), LoadOne, Jmp(n + 2), Label(n + 1, h), LoadZero, Label(n + 2, h)];
    OrParts(code, pc, gl.code, gr.code, h, n);
    var t := pc + |gl.code| + 1 + |gr.code|;
    GoalHere(code, t + 1, n, h);
    GoalHere(code, t + 4, n + 1, h);
    GoalHere(code, t + 6, n + 2, h);
    ExprFlows(code, e.l, idx, h, n + 3, pc);
    ExprFlows(code, e.r, idx, h, gl.next, pc + |gl.code| + 1);
    FlowLine(code, Jnz(n), h, h);
    FlowLines(code, tail, [h, h, h, h, h, h, h, h]);
    Flow3(code, gl.code, [Jnz(n)], gr.code, [h, h, h, h]);
    FlowThen(code, gl.code + [Jnz(n)] + gr.code, tail, h, h, h);
  }

  /** The two branches of ?: and of if. */
  lemma BranchFlows(code: seq<Instr>, c: seq<Instr>, t: seq<Instr>, f: seq<Instr>, h: nat, n: nat)
    requires Flow(code, c, h, h) && Flow(code, t, h, h) && Flow(code, f, h, h) && Goal(code, n, h)
             && Goal(code, n + 1, h)
    ensures Flow(code, c + [Jz(n)] + t + [Jmp(n + 1), Label(n, h)] + f + [Label(n + 1, h)], h, h)
  {
    hide Flow;
    FlowLine(code, Jz(n), h, h);
    FlowLines(code, [Jmp(n + 1), Label(n, h)], [h, h, h]);
    FlowLine(code, Label(n + 1, h), h, h);
    Flow5(code, c, [Jz(n)], t, [Jmp(n + 1), Label(n, h)], f, [h, h, h, h, h, h]);
    FlowThen(code, c + [Jz(n)] + t + [Jmp(n + 1), Label(n, h)] + f, [Label(n + 1, h)], h, h, h);
  }

  lemma {:induction false} CondFlows(code: seq<Instr>, e: Expr, idx: seq<nat>, h: nat, n: nat, pc: nat)
    requires e.Cond? && WfExpr(e, |idx|) && Placed(code, pc, GenCond(e, idx, h, n).code, idx, h)
    ensures Flow(code, GenCond(e, idx, h, n).code, h, h)
    decreases e, 0
  {
    hide Flow, At, GenExpr, LabelsUnique;
    var gc := GenExpr(e.cond, idx, h, n + 2);
    var gt := GenExpr(e.thn, idx, h, gc.next);
    var gf := GenExpr(e.els, idx, h, gt.next);
    CondParts(code, pc, gc.code, gt.code, gf.code, h, n);
    var m := pc + |gc.code| + 1 + |gt.code|;
    GoalHere(code, m + 1, n, h);
    GoalHere(code, m + 2 + |gf.code|, n + 1, h);
    ExprFlows(code, e.cond, idx, h, n + 2, pc);
    ExprFlows(code, e.thn, idx, h, gc.next, pc + |gc.code| + 1);
    ExprFlows(code, e.els, idx, h, gt.next, m + 2);
    BranchFlows(code, gc.code, gt.code, gf.code, h, n);
  }

  lemma {:induction false} TimedFlows(code: seq<Instr>, e: Expr, idx: seq<nat>, h: nat, n: nat, pc: nat)
    requires (e.Till? || e.Whilst?) && WfExpr(e, |idx|) && Placed(code, pc, GenTimed(e, idx, h, n).code, idx, h)
    ensures Flow(code, GenTimed(e, idx, h, n).code, h, h)
    decreases e, 0
  {
    hide Flow, At, GenExpr, LabelsUnique, TillBody, WhilstBody, GenConds;
    var gd := GenExpr(e.delay, idx, h, n + 4);
    var gw := GenWindow(e.window, if e.Till? then LoadZero else LoadOne, idx, h, gd.next);
    var gc := GenConds(e.conds, n + 1, idx, h + 1, gw.next);
    var loop := if e.Till? then TillBody(gc.code, h, n) else WhilstBody(gc.code, h, n);
    TimedHead(code, pc, gd.code, gw.code, loop);
    var q := pc + |gd.code| + 1;
    ExprFlows(code, e.delay, idx, h, n + 4, pc);
    if e.window.Some? {
      ExprFlows(code, e.window.value, idx, h, gd.next, q);
    } else {
      FlowLine(code, if e.Till? then LoadZero else LoadOne, h, h);
    }
    FlowLine(code, Sync, h, h);
    FlowLine(code, PushAlu, h, h + 1);
    if e.Till? {
      TillFlows(code, e.conds, idx, h, n, gw.next, q + |gw.code| + 1);
    } else {
      WhilstFlows(code, e.conds, idx, h, n, gw.next, q + |gw.code| + 1);
    }
    Flow5(code, gd.code, [Sync], gw.code, [PushAlu], loop, [h, h, h, h, h + 1, h]);
  }

  lemma {:induction false} CondsFlow(code: seq<Instr>, conds: seq<Expr>, exit: nat, idx: seq<nat>, h: nat, n: nat,
                                     pc: nat)
    requires WfExprs(conds, |idx|) && Placed(code, pc, GenConds(conds, exit, idx, h, n).code, idx, h)
             && Goal(code, exit, h)
    ensures Flow(code, GenConds(conds, exit, idx, h, n).code, h, h)
    decreases conds, 0
  {
    hide Flow, At, GenExpr, LabelsUnique;
    if conds == [] {
      FlowLines(code, [], [h]);
    } else {
      var g := GenExpr(conds[0], idx, h, n);
      var gs := GenConds(conds[1..], exit, idx, h, g.next);
      Cut(code, pc, g.code, Jz(exit), gs.code);
      ExprFlows(code, conds[0], idx, h, n, pc);
      FlowLine(code, Jz(exit), h, h);
      CondsFlow(code, conds[1..], exit, idx, h, g.next, pc + |g.code| + 1);
      Flow3(code, g.code, [Jz(exit)], gs.code, [h, h, h, h]);
    }
  }

  lemma CountDownFlows(code: seq<Instr>, out: nat, h: nat)
    requires Goal(code, out, h)
    ensures Flow(code, CountDown(out), h + 1, h + 1)
  {
    hide Flow;
    FlowLines(code, CountDown(out), [h + 1, h, h, h, h + 1, h + 1, h + 1]);
  }

  lemma {:induction false} TillFlows(code: seq<Instr>, conds: seq<Expr>, idx: seq<nat>, h: nat, n: nat, m: nat, pc: nat)
    requires WfExprs(conds, |idx|) && Below(idx, h)
    requires LabelsUnique(code) && At(code, pc, TillBody(GenConds(conds, n + 1, idx, h + 1, m).code, h, n))
    ensures Flow(code, TillBody(GenConds(conds, n + 1, idx, h + 1, m).code, h, n), h + 1, h)
    decreases conds, 1
  {
    hide Flow, At, LabelsUnique, GenConds, Scan;
    var g := GenConds(conds, n + 1, idx, h + 1, m).code;
    TillParts(code, pc, g, h, n);
    var t := pc + 1 + |g|;
    GoalHere(code, pc, n, h + 1);
    GoalHere(code, t + 1, n + 1, h + 1);
    GoalHere(code, t + 9, n + 2, h + 1);
    GoalHere(code, t + 12, n + 3, h);
    CondsFlow(code, conds, n + 1, idx, h + 1, m, pc + 1);
    var mid, tail := [Jmp(n + 2), Label(n + 1, h + 1)], [Jmp(n), Label(n + 2, h + 1), Pop(1), LoadOne, Label(n + 3, h)];
    FlowLine(code, Label(n, h + 1), h + 1, h + 1);
    FlowLines(code, mid, [h + 1, h + 1, h + 1]);
    CountDownFlows(code, n + 3, h);
    FlowLines(code, tail, [h + 1, h + 1, h + 1, h, h, h]);
    Flow5(code, [Label(n, h + 1)], g, mid, CountDown(n + 3), tail, [h + 1, h + 1, h + 1, h + 1, h + 1, h]);
  }

  lemma {:induction false} WhilstFlows(code: seq<Instr>, conds: seq<Expr>, idx: seq<nat>, h: nat, n: nat, m: nat,
                                       pc: nat)
    requires WfExprs(conds, |idx|) && Below(idx, h)
    requires LabelsUnique(code) && At(code, pc, WhilstBody(GenConds(conds, n + 1, idx, h + 1, m).code, h, n))
    ensures Flow(code, WhilstBody(GenConds(conds, n + 1, idx, h + 1, m).code, h, n), h + 1, h)
    decreases conds, 1
  {
    hide Flow, At, LabelsUnique, GenConds, Scan;
    var g := GenConds(conds, n + 1, idx, h + 1, m).code;
    WhilstParts(code, pc, g, h, n);
    var t := pc + 1 + |g|;
    GoalHere(code, pc, n, h + 1);
    GoalHere(code, t + 7, n + 1, h + 1);
    GoalHere(code, t + 11, n + 2, h);
    GoalHere(code, t + 13, n + 3, h);
    CondsFlow(code, conds, n + 1, idx, h + 1, m, pc + 1);
    var tail := [Jmp(n), Label(n + 1, h + 1), Pop(1), LoadZero, Jmp(n + 3), Label(n + 2, h), LoadOne, Label(n + 3, h)];
    FlowLine(code, Label(n, h + 1), h + 1, h + 1);
    CountDownFlows(code, n + 2, h);
    FlowLines(code, tail, [h + 1, h + 1, h + 1, h, h, h, h, h, h]);
    Flow3(code, [Label(n, h + 1)], g, CountDown(n + 2), [h + 1, h + 1, h + 1, h + 1]);
    FlowThen(code, [Label(n, h + 1)] + g + CountDown(n + 2), tail, h + 1, h + 1, h);
  }

  lemma {:induction false} ExprsFlow(code: seq<Instr>, es: seq<Expr>, idx: seq<nat>, h: nat, n: nat, pc: nat)
    requires WfExprs(es, |idx|) && Placed(code, pc, GenExprs(es, idx, h, n).code, idx, h)
    ensures Flow(code, GenExprs(es, idx, h, n).code, h, h)
    decreases es
  {
    hide Flow, At, GenExpr, LabelsUnique;
    if es == [] {
      FlowLines(code, [], [h]);
    } else {
      var g := GenExpr(es[0], idx, h, n);
      var gs := GenExprs(es[1..], idx, h, g.next);
      AtSplit(code, pc, g.code, gs.code);
      ExprFlows(code, es[0], idx, h, n, pc);
      ExprsFlow(code, es[1..], idx, h, g.next, pc + |g.code|);
      FlowThen(code, g.code, gs.code, h, h, h);
    }
  }

  // ----- Statements -----

  /** The labels of the enclosing loops have the heights that the label stack records. */
  ghost predicate GoalsOk(code: seq<Instr>, ls: seq<LabelData>, level: nat) {
    forall i | 0 <= i < |ls| ::
      ls[i].level + ls[i].rpt <= level && Goal(code, ls[i].brk, ls[i].level)
        && Goal(code, ls[i].cont, ls[i].level + ls[i].rpt)
  }

  /** The count popped by a break or a continue is never negative, and leads to the target's height. */
  lemma {:induction false} TargetHeight(code: seq<Instr>, ls: seq<LabelData>, level: nat, target: Option<string>)
    requires GoalsOk(code, ls, level)
    requires if target.None? then Names(ls) != [] else target.value in Names(ls)
    ensures FindLabel(ls, target).Some?
    ensures var lb := FindLabel(ls, target).value;
      level - lb.level - lb.rpt >= 0 && Goal(code, lb.brk, lb.level) && Goal(code, lb.cont, lb.level + lb.rpt)
    decreases |ls|
  {
    var last := |ls| - 1;
    if !Catches(ls[last].name, target) {
      TargetHeight(code, ls[..last], level, target);
    }
  }

  lemma InnerGoals(code: seq<Instr>, ls: seq<LabelData>, lp: LoopId, level: nat, rpt: nat)
    requires GoalsOk(code, ls, level) && Goal(code, lp.brk, level) && Goal(code, lp.cont, level + rpt)
    ensures GoalsOk(code, Enter(ls, lp, level, rpt), level + rpt)
    ensures Names(Enter(ls, lp, level, rpt)) == Names(ls) + [lp.name]
  {
    hide Goal, FindLabel;
    FindInside(ls, lp, level, rpt, None);
  }

  lemma LeaveFlows(code: seq<Instr>, k: nat, l: nat, level: nat, h': nat)
    requires k <= level && Goal(code, l, level - k)
    ensures Flow(code, PopIf(k) + [Jmp(l)], level, h')
  {
    hide Flow;
    FlowLine(code, Jmp(l), level - k, h');
    if k == 0 {
      FlowLines(code, PopIf(k), [level]);
    } else {
      FlowLine(code, Pop(k), level, level - k);
    }
    FlowThen(code, PopIf(k), [Jmp(l)], level, level - k, h');
  }

  lemma {:induction false} StmtFlows(code: seq<Instr>, s: Stmt, idx: seq<nat>, level: nat, ls: seq<LabelData>, n: nat,
                                     pc: nat)
    requires WfStmt(s, |idx|, Names(ls)) && GoalsOk(code, ls, level)
    requires Placed(code, pc, GenStmt(s, idx, level, ls, n).code, idx, level)
    ensures Flow(code, GenStmt(s, idx, level, ls, n).code, level, level)
    decreases s, 2
  {
    hide Flow, At, LabelsUnique, GoalsOk;
    match s
    case Null => FlowLine(code, NullInstr, level, level);
    case ExprStmt(e) => ExprFlows(code, e, idx, level, n, pc);
    case If(_, _, _) => IfFlows(code, s, idx, level, ls, n, pc);
    case While(_, _, _) => WhileFlows(code, s, idx, level, ls, n, pc);
    case For(_, _, _, _, _) => ForFlows(code, s, idx, level, ls, n, pc);
    case Repeat(_, _, _) => RepeatFlows(code, s, idx, level, ls, n, pc);
    case DoWhile(_, _, _) => DoWhileFlows(code, s, idx, level, ls, n, pc);
    case Forever(_, _) => ForeverFlows(code, s, idx, level, ls, n, pc);
    case Case(_, _) => CaseFlows(code, s, idx, level, ls, n, pc);
    case Break(target) =>
      TargetHeight(code, ls, level, target);
      var lb := FindLabel(ls, target).value;
      LeaveFlows(code, level - lb.level, lb.brk, level, level);
    case Continue(target) =>
      TargetHeight(code, ls, level, target);
      var lb := FindLabel(ls, target).value;
      LeaveFlows(code, level - lb.level - lb.rpt, lb.cont, level, level);
    case Block(_, _) => BlockFlows(code, s, idx, level, ls, n, pc);
  }

  lemma {:induction false} IfFlows(code: seq<Instr>, s: Stmt, idx: seq<nat>, level: nat, ls: seq<LabelData>, n: nat,
                                   pc: nat)
    requires s.If? && WfStmt(s, |idx|, Names(ls)) && GoalsOk(code, ls, level)
    requires Placed(code, pc, GenIf(s, idx, level, ls, n).code, idx, level)
    ensures Flow(code, GenIf(s, idx, level, ls, n).code, level, level)
    decreases s, 0
  {
    hide Flow, At, LabelsUnique, GoalsOk, GenExpr, GenStmt, GenArms;
    var gc := GenExpr(s.cond, idx, level, n + 2);
    var gt := GenStmt(s.thn, idx, level, ls, gc.next);
    var gr := GenArms(s.rest, n + 1, idx, level, ls, gt.next);
    CondParts(code, pc, gc.code, gt.code, gr.code, level, n);
    var m := pc + |gc.code| + 1 + |gt.code|;
    GoalHere(code, m + 1, n, level);
    GoalHere(code, m + 2 + |gr.code|, n + 1, level);
    ExprFlows(code, s.cond, idx, level, n + 2, pc);
    StmtFlows(code, s.thn, idx, level, ls, gc.next, pc + |gc.code| + 1);
    ArmsFlow(code, s.rest, n + 1, idx, level, ls, gt.next, m + 2);
    BranchFlows(code, gc.code, gt.code, gr.code, level, n);
  }

  lemma {:induction false} ArmsFlow(code: seq<Instr>, arms: Arms, exit: nat, idx: seq<nat>, level: nat,
                                    ls: seq<LabelData>, n: nat, pc: nat)
    requires WfArms(arms, |idx|, Names(ls)) && GoalsOk(code, ls, level) && Goal(code, exit, level)
    requires Placed(code, pc, GenArms(arms, exit, idx, level, ls, n).code, idx, level)
    ensures Flow(code, GenArms(arms, exit, idx, level, ls, n).code, level, level)
    decreases arms, 0
  {
    hide Flow, At, LabelsUnique, GoalsOk, GenExpr, GenStmt, WfStmt, WfExpr;
    match arms
    case NoElse => FlowLines(code, [], [level]);
    case Else(body) => StmtFlows(code, body, idx, level, ls, n, pc);
    case Elsif(c, body, rest) =>
      var gc := GenExpr(c, idx, level, n + 1);
      var gb := GenStmt(body, idx, level, ls, gc.next);
      var gr := GenArms(rest, exit, idx, level, ls, gb.next);
      ElsifParts(code, pc, gc.code, gb.code, gr.code, exit, level, n);
      var m := pc + |gc.code| + 1 + |gb.code|;
      GoalHere(code, m + 1, n, level);
      ExprFlows(code, c, idx, level, n + 1, pc);
      StmtFlows(code, body, idx, level, ls, gc.next, pc + |gc.code| + 1);
      ArmsFlow(code, rest, exit, idx, level, ls, gb.next, m + 2);
      FlowLine(code, Jz(n), level, level);
      FlowLines(code, [Jmp(exit), Label(n, level)], [level, level, level]);
      Flow5(code, gc.code, [Jz(n)], gb.code, [Jmp(exit), Label(n, level)], gr.code,
            [level, level, level, level, level, level]);
  }

  lemma {:induction false} WhileFlows(code: seq<Instr>, s: Stmt, idx: seq<nat>, level: nat, ls: seq<LabelData>, n: nat,
                                      pc: nat)
    requires s.While? && WfStmt(s, |idx|, Names(ls)) && GoalsOk(code, ls, level)
    requires Placed(code, pc, GenWhile(s, idx, level, ls, n).code, idx, level)
    ensures Flow(code, GenWhile(s, idx, level, ls, n).code, level, level)
    decreases s, 0
  {
    hide Flow, At, LabelsUnique, GoalsOk, GenExpr, GenStmt, Names;
    var gc := GenExpr(s.cond, idx, level, n);
    var inner := Enter(ls, s.lp, level, 0);
    var gb := GenStmt(s.body, idx, level, inner, gc.next);
    WhileParts(code, pc, gc.code, gb.code, s.lp, level);
    var t := pc + 1 + |gc.code| + 1 + |gb.code|;
    GoalHere(code, pc, s.lp.cont, level);
    GoalHere(code, t + 1, s.lp.brk, level);
    InnerGoals(code, ls, s.lp, level, 0);
    ExprFlows(code, s.cond, idx, level, n, pc + 1);
    StmtFlows(code, s.body, idx, level, inner, gc.next, pc + 1 + |gc.code| + 1);
    var tail := [Jmp(s.lp.cont), Label(s.lp.brk, level)];
    FlowLine(code, Label(s.lp.cont, level), level, level);
    FlowLine(code, Jz(s.lp.brk), level, level);
    FlowLines(code, tail, [level, level, level]);
    Flow5(code, [Label(s.lp.cont, level)], gc.code, [Jz(s.lp.brk)], gb.code, tail,
          [level, level, level, level, level, level]);
  }

  lemma {:induction false} ForeverFlows(code: seq<Instr>, s: Stmt, idx: seq<nat>, level: nat, ls: seq<LabelData>,
                                        n: nat, pc: nat)
    requires s.Forever? && WfStmt(s, |idx|, Names(ls)) && GoalsOk(code, ls, level)
    requires Placed(code, pc, GenForever(s, idx, level, ls, n).code, idx, level)
    ensures Flow(code, GenForever(s, idx, level, ls, n).code, level, level)
    decreases s, 0
  {
    hide Flow, At, LabelsUnique, GoalsOk, GenStmt, Names;
    var inner := Enter(ls, s.lp, level, 0);
    var gb := GenStmt(s.body, idx, level, inner, n);
    ForeverParts(code, pc, gb.code, s.lp, level);
    var t := pc + 1 + |gb.code|;
    GoalHere(code, pc, s.lp.cont, level);
    GoalHere(code, t + 1, s.lp.brk, level);
    InnerGoals(code, ls, s.lp, level, 0);
    StmtFlows(code, s.body, idx, level, inner, n, pc + 1);
    var tail := [Jmp(s.lp.cont), Label(s.lp.brk, level)];
    FlowLine(code, Label(s.lp.cont, level), level, level);
    FlowLines(code, tail, [level, level, level]);
    Flow3(code, [Label(s.lp.cont, level)], gb.code, tail, [level, level, level, level]);
  }

  lemma {:induction false} DoWhileFlows(code: seq<Instr>, s: Stmt, idx: seq<nat>, level: nat, ls: seq<LabelData>,
                                        n: nat, pc: nat)
    requires s.DoWhile? && WfStmt(s, |idx|, Names(ls)) && GoalsOk(code, ls, level)
    requires Placed(code, pc, GenDoWhile(s, idx, level, ls, n).code, idx, level)
    ensures Flow(code, GenDoWhile(s, idx, level, ls, n).code, level, level)
    decreases s, 0
  {
    hide Flow, At, LabelsUnique, GoalsOk, GenExpr, GenStmt, Names;
    var inner := Enter(ls, s.lp, level, 0);
    var gb := GenStmt(s.body, idx, level, inner, n + 1);
    var gc := GenExpr(s.cond, idx, level, gb.next);
    DoWhileParts(code, pc, gb.code, gc.code, s.lp, level, n);
    var m := pc + 1 + |gb.code|;
    var t := m + 1 + |gc.code|;
    GoalHere(code, pc, n, level);
    GoalHere(code, m, s.lp.cont, level);
    GoalHere(code, t + 1, s.lp.brk, level);
    InnerGoals(code, ls, s.lp, level, 0);
    StmtFlows(code, s.body, idx, level, inner, n + 1, pc + 1);
    ExprFlows(code, s.cond, idx, level, gb.next, m + 1);
    var tail := [Jnz(n), Label(s.lp.brk, level)];
    FlowLine(code, Label(n, level), level, level);
    FlowLine(code, Label(s.lp.cont, level), level, level);
    FlowLines(code, tail, [level, level, level]);
    Flow5(code, [Label(n, level)], gb.code, [Label(s.lp.cont, level)], gc.code, tail,
          [level, level, level, level, level, level]);
  }

  lemma {:induction false} ForFlows(code: seq<Instr>, s: Stmt, idx: seq<nat>, level: nat, ls: seq<LabelData>, n: nat,
                                    pc: nat)
    requires s.For? && WfStmt(s, |idx|, Names(ls)) && GoalsOk(code, ls, level)
    requires Placed(code, pc, GenFor(s, idx, level, ls, n).code, idx, level)
    ensures Flow(code, GenFor(s, idx, level, ls, n).code, level, level)
    decreases s, 1
  {
    hide Flow, At, LabelsUnique, GoalsOk, GenForLoop, GenExprs;
    var gi := GenExprs(s.init, idx, level, n + 1);
    var gl := GenForLoop(s, idx, level, ls, n, gi.next);
    AtSplit(code, pc, gi.code, gl.code);
    ExprsFlow(code, s.init, idx, level, n + 1, pc);
    ForLoopFlows(code, s, idx, level, ls, n, gi.next, pc + |gi.code|);
    FlowThen(code, gi.code, gl.code, level, level, level);
  }

  lemma TestFlows(code: seq<Instr>, test: Option<Expr>, exit: nat, idx: seq<nat>, level: nat, n: nat, pc: nat)
    requires WfWindow(test, |idx|) && Goal(code, exit, level)
    requires Placed(code, pc, GenTest(test, exit, idx, level, n).code, idx, level)
    ensures Flow(code, GenTest(test, exit, idx, level, n).code, level, level)
  {
    hide Flow, At, LabelsUnique, GenExpr;
    match test
    case None => FlowLines(code, [], [level]);
    case Some(c) =>
      var g := GenExpr(c, idx, level, n);
      AtSplit(code, pc, g.code, [Jz(exit)]);
      ExprFlows(code, c, idx, level, n, pc);
      FlowLine(code, Jz(exit), level, level);
      FlowThen(code, g.code, [Jz(exit)], level, level, level);
  }

  lemma {:induction false} ForLoopFlows(code: seq<Instr>, s: Stmt, idx: seq<nat>, level: nat, ls: seq<LabelData>,
                                        top: nat, n: nat, pc: nat)
    requires s.For? && WfStmt(s, |idx|, Names(ls)) && GoalsOk(code, ls, level)
    requires Placed(code, pc, GenForLoop(s, idx, level, ls, top, n).code, idx, level)
    ensures Flow(code, GenForLoop(s, idx, level, ls, top, n).code, level, level)
    decreases s, 0
  {
    hide Flow, At, LabelsUnique, GoalsOk, GenStmt, GenTest, GenExprs, Names;
    var inner := Enter(ls, s.lp, level, 0);
    var gc := GenTest(s.test, s.lp.brk, idx, level, n);
    var gb := GenStmt(s.body, idx, level, inner, gc.next);
    var gl := GenExprs(s.last, idx, level, gb.next);
    ForParts(code, pc, gc.code, gb.code, gl.code, s.lp, level, top);
    var m := pc + 1 + |gc.code| + |gb.code|;
    GoalHere(code, pc, top, level);
    GoalHere(code, m, s.lp.cont, level);
    GoalHere(code, m + 1 + |gl.code| + 1, s.lp.brk, level);
    InnerGoals(code, ls, s.lp, level, 0);
    TestFlows(code, s.test, s.lp.brk, idx, level, n, pc + 1);
    StmtFlows(code, s.body, idx, level, inner, gc.next, pc + 1 + |gc.code|);
    ExprsFlow(code, s.last, idx, level, gb.next, m + 1);
    ForFlow(code, gc.code, gb.code, gl.code, s.lp, level, top);
  }

  lemma ForFlow(code: seq<Instr>, c: seq<Instr>, b: seq<Instr>, e: seq<Instr>, lp: LoopId, h: nat, top: nat)
    requires Flow(code, c, h, h) && Flow(code, b, h, h) && Flow(code, e, h, h)
    requires Goal(code, top, h) && Goal(code, lp.cont, h) && Goal(code, lp.brk, h)
    ensures Flow(code, [Label(top, h)] + c + b + [Label(lp.cont, h)] + e + [Jmp(top), Label(lp.brk, h)], h, h)
  {
    hide Flow;
    var tail := [Jmp(top), Label(lp.brk, h)];
    FlowLine(code, Label(top, h), h, h);
    FlowLine(code, Label(lp.cont, h), h, h);
    FlowLines(code, tail, [h, h, h]);
    Flow5(code, [Label(top, h)], c, b, [Label(lp.cont, h)], e, [h, h, h, h, h, h]);
    FlowThen(code, [Label(top, h)] + c + b + [Label(lp.cont, h)] + e, tail, h, h, h);
  }

  lemma {:induction false} RepeatFlows(code: seq<Instr>, s: Stmt, idx: seq<nat>, level: nat, ls: seq<LabelData>,
                                       n: nat, pc: nat)
    requires s.Repeat? && WfStmt(s, |idx|, Names(ls)) && GoalsOk(code, ls, level)
    requires Placed(code, pc, GenRepeat(s, idx, level, ls, n).code, idx, level)
    ensures Flow(code, GenRepeat(s, idx, level, ls, n).code, level, level)
    decreases s, 1
  {
    hide Flow, At, LabelsUnique, GoalsOk, GenRepeatLoop, GenExpr;
    var gn := GenExpr(s.number, idx, level, n + 2);
    var gl := GenRepeatLoop(s, idx, level, ls, n, gn.next);
    Cut(code, pc, gn.code, PushAlu, gl.code);
    ExprFlows(code, s.number, idx, level, n + 2, pc);
    FlowLine(code, PushAlu, level, level + 1);
    RepeatLoopFlows(code, s, idx, level, ls, n, gn.next, pc + |gn.code| + 1);
    Flow3(code, gn.code, [PushAlu], gl.code, [level, level, level + 1, level]);
  }

  lemma {:induction false} RepeatLoopFlows(code: seq<Instr>, s: Stmt, idx: seq<nat>, level: nat, ls: seq<LabelData>,
                                           top: nat, n: nat, pc: nat)
    requires s.Repeat? && WfStmt(s, |idx|, Names(ls)) && GoalsOk(code, ls, level)
    requires Placed(code, pc, GenRepeatLoop(s, idx, level, ls, top, n).code, idx, level)
    ensures Flow(code, GenRepeatLoop(s, idx, level, ls, top, n).code, level + 1, level)
    decreases s, 0
  {
    hide Flow, At, LabelsUnique, GoalsOk, GenStmt, Names;
    var inner := Enter(ls, s.lp, level, 1);
    var gb := GenStmt(s.body, idx, level + 1, inner, n);
    RepeatParts(code, pc, gb.code, s.lp, level, top);
    var m := pc + 2 + |gb.code|;
    GoalHere(code, pc, top, level + 1);
    GoalHere(code, m, s.lp.cont, level + 1);
    GoalHere(code, m + 5, top + 1, level + 1);
    GoalHere(code, m + 7, s.lp.brk, level);
    InnerGoals(code, ls, s.lp, level, 1);
    StmtFlows(code, s.body, idx, level + 1, inner, n, pc + 2);
    RepeatLinesFlow(code, s.lp, level, top);
    Flow3(code, [Label(top, level + 1), Jz(top + 1)], gb.code,
          [Label(s.lp.cont, level + 1), PopAlu, Dec, PushAlu, Jmp(top), Label(top + 1, level + 1), Pop(1),
           Label(s.lp.brk, level)],
          [level + 1, level + 1, level + 1, level]);
  }

  lemma RepeatLinesFlow(code: seq<Instr>, lp: LoopId, level: nat, top: nat)
    requires Goal(code, top, level + 1) && Goal(code, lp.cont, level + 1) && Goal(code, top + 1, level + 1)
             && Goal(code, lp.brk, level)
    ensures Flow(code, [Label(top, level + 1), Jz(top + 1)], level + 1, level + 1)
    ensures Flow(code,
                 [Label(lp.cont, level + 1), PopAlu, Dec, PushAlu, Jmp(top), Label(top + 1, level + 1), Pop(1),
                  Label(lp.brk, level)],
                 level + 1, level)
  {
    hide Flow;
    var h := level + 1;
    FlowLines(code, [Label(top, h), Jz(top + 1)], [h, h, h]);
    FlowLines(code,
              [Label(lp.cont, h), PopAlu, Dec, PushAlu, Jmp(top), Label(top + 1, h), Pop(1), Label(lp.brk, level)],
              [h, h, level, level, h, h, h, level, level]);
  }

  lemma {:induction false} CaseFlows(code: seq<Instr>, s: Stmt, idx: seq<nat>, level: nat, ls: seq<LabelData>, n: nat,
                                     pc: nat)
    requires s.Case? && WfStmt(s, |idx|, Names(ls)) && GoalsOk(code, ls, level)
    requires Placed(code, pc, GenCase(s, idx, level, ls, n).code, idx, level)
    ensures Flow(code, GenCase(s, idx, level, ls, n).code, level, level)
    decreases s, 0
  {
    hide Flow, At, LabelsUnique, GoalsOk, GenItems, GenExpr;
    var gc := GenExpr(s.cond, idx, level, n + 1);
    var gs := GenItems(s.items, n, idx, level, ls, gc.next);
    BinParts(code, pc, gc.code, PushAlu, gs.code, Label(n, level));
    GoalHere(code, pc + |gc.code| + 1 + |gs.code|, n, level);
    ExprFlows(code, s.cond, idx, level, n + 1, pc);
    ItemsFlow(code, s.items, n, idx, level, ls, gc.next, pc + |gc.code| + 1);
    FlowLine(code, PushAlu, level, level + 1);
    FlowLine(code, Label(n, level), level, level);
    Flow3(code, gc.code, [PushAlu], gs.code, [level, level, level + 1, level]);
    FlowThen(code, gc.code + [PushAlu] + gs.code, [Label(n, level)], level, level, level);
  }

  lemma {:induction false} MatchFlows(code: seq<Instr>, conds: seq<Expr>, hit: nat, idx: seq<nat>, h: nat, n: nat,
                                      pc: nat)
    requires WfExprs(conds, |idx|) && Placed(code, pc, GenMatch(conds, hit, idx, h, n).code, idx, h)
             && Goal(code, hit, h) && h > 0
    ensures Flow(code, GenMatch(conds, hit, idx, h, n).code, h, h)
    decreases conds
  {
    hide Flow, At, GenExpr, LabelsUnique;
    if conds == [] {
      FlowLines(code, [], [h]);
    } else {
      var g := GenExpr(conds[0], idx, h, n);
      var gs := GenMatch(conds[1..], hit, idx, h, g.next);
      MatchParts(code, pc, g.code, hit, gs.code);
      ExprFlows(code, conds[0], idx, h, n, pc);
      MatchFlows(code, conds[1..], hit, idx, h, g.next, pc + |g.code| + 2);
      FlowLines(code, [Cmp, Jnz(hit)], [h, h, h]);
      Flow3(code, g.code, [Cmp, Jnz(hit)], gs.code, [h, h, h, h]);
    }
  }

  lemma {:induction false} ItemsFlow(code: seq<Instr>, items: Items, exit: nat, idx: seq<nat>, level: nat,
                                     ls: seq<LabelData>, n: nat, pc: nat)
    requires WfItems(items, |idx|, Names(ls)) && GoalsOk(code, ls, level) && Goal(code, exit, level)
    requires Placed(code, pc, GenItems(items, exit, idx, level, ls, n).code, idx, level)
    ensures Flow(code, GenItems(items, exit, idx, level, ls, n).code, level + 1, level)
    decreases items, 1
  {
    hide Flow, At, LabelsUnique, GoalsOk, GenStmt, GenMatch;
    match items
    case NoItem => FlowLine(code, Pop(1), level + 1, level);
    case Default(body) =>
      var gb := GenStmt(body, idx, level, ls, n);
      DefaultParts(code, pc, gb.code, exit);
      StmtFlows(code, body, idx, level, ls, n, pc + 1);
      FlowLine(code, Pop(1), level + 1, level);
      FlowLine(code, Jmp(exit), level, level);
      Flow3(code, [Pop(1)], gb.code, [Jmp(exit)], [level + 1, level, level, level]);
    case Item(_, _, _) => ItemLineFlows(code, items, exit, idx, level, ls, n, pc);
  }

  lemma {:induction false} ItemLineFlows(code: seq<Instr>, items: Items, exit: nat, idx: seq<nat>, level: nat,
                                         ls: seq<LabelData>, n: nat, pc: nat)
    requires items.Item? && WfItems(items, |idx|, Names(ls)) && GoalsOk(code, ls, level) && Goal(code, exit, level)
    requires Placed(code, pc, GenItems(items, exit, idx, level, ls, n).code, idx, level)
    ensures Flow(code, GenItems(items, exit, idx, level, ls, n).code, level + 1, level)
    decreases items, 0
  {
    hide Flow, At, LabelsUnique, GoalsOk, GenStmt, GenMatch, Goal, Scan, Names, WfStmt;
    var h := level + 1;
    var gc := GenMatch(items.conds, n, idx, h, n + 2);
    var gb := GenStmt(items.body, idx, level, ls, gc.next);
    var gr := GenItems(items.rest, exit, idx, level, ls, gb.next);
    ItemParts(code, pc, gc.code, gb.code, gr.code, exit, level, n);
    var q := pc + |gc.code|;
    var m := q + 3 + |gb.code|;
    GoalHere(code, q + 1, n, h);
    GoalHere(code, m + 1, n + 1, h);
    MatchFlows(code, items.conds, n, idx, h, n + 2, pc);
    StmtFlows(code, items.body, idx, level, ls, gc.next, q + 3);
    ItemsFlow(code, items.rest, exit, idx, level, ls, gb.next, m + 2);
    ItemFlow(code, gc.code, gb.code, gr.code, exit, level, n);
  }

  lemma ItemFlow(code: seq<Instr>, m: seq<Instr>, b: seq<Instr>, r: seq<Instr>, exit: nat, level: nat, n: nat)
    requires Flow(code, m, level + 1, level + 1) && Flow(code, b, level, level) && Flow(code, r, level + 1, level)
    requires Goal(code, n, level + 1) && Goal(code, n + 1, level + 1) && Goal(code, exit, level)
    ensures Flow(code, m + [Jmp(n + 1), Label(n, level + 1), Pop(1)] + b + [Jmp(exit), Label(n + 1, level + 1)] + r,
                 level + 1, level)
  {
    hide Flow;
    var h := level + 1;
    var f, g := [Jmp(n + 1), Label(n, h), Pop(1)], [Jmp(exit), Label(n + 1, h)];
    FlowLines(code, f, [h, h, h, level]);
    FlowLines(code, g, [level, h, h]);
    Flow5(code, m, f, b, g, r, [h, h, level, level, h, level]);
  }

  lemma {:induction false} SeqFlows(code: seq<Instr>, ss: seq<Stmt>, idx: seq<nat>, level: nat, ls: seq<LabelData>,
                                    n: nat, pc: nat)
    requires WfSeq(ss, |idx|, Names(ls)) && GoalsOk(code, ls, level)
    requires Placed(code, pc, GenSeq(ss, idx, level, ls, n).code, idx, level)
    ensures Flow(code, GenSeq(ss, idx, level, ls, n).code, level, level)
    decreases ss, 0
  {
    hide Flow, At, LabelsUnique, GoalsOk, GenStmt;
    if ss == [] {
      FlowLines(code, [], [level]);
    } else {
      var g := GenStmt(ss[0], idx, level, ls, n);
      var gs := GenSeq(ss[1..], idx, level, ls, g.next);
      AtSplit(code, pc, g.code, gs.code);
      StmtFlows(code, ss[0], idx, level, ls, n, pc);
      SeqFlows(code, ss[1..], idx, level, ls, g.next, pc + |g.code|);
      FlowThen(code, g.code, gs.code, level, level, level);
    }
  }

  lemma {:induction false} InitsFlow(code: seq<Instr>, vars: seq<Option<Expr>>, v: nat, idx: seq<nat>, h: nat, n: nat,
                                     pc: nat)
    requires WfInits(vars, |idx|) && v + |vars| <= |idx|
    requires Placed(code, pc, GenInits(vars, v, idx, h, n).code, idx, h)
    ensures Flow(code, GenInits(vars, v, idx, h, n).code, h, h)
    decreases |vars|
  {
    hide Flow, At, LabelsUnique, GenExpr;
    if vars == [] {
      FlowLines(code, [], [h]);
    } else if vars[0].None? {
      InitsFlow(code, vars[1..], v + 1, idx, h, n, pc);
    } else {
      var e := Assign(v, vars[0].value);
      var g := GenExpr(e, idx, h, n);
      var gs := GenInits(vars[1..], v + 1, idx, h, g.next);
      AtSplit(code, pc, g.code, gs.code);
      ExprFlows(code, e, idx, h, n, pc);
      InitsFlow(code, vars[1..], v + 1, idx, h, g.next, pc + |g.code|);
      FlowThen(code, g.code, gs.code, h, h, h);
    }
  }

  lemma VarsFlow(code: seq<Instr>, level: nat, k: nat)
    ensures Flow(code, LVars(level, k), level, level + k)
  {
    FlowLines(code, LVars(level, k), seq(k + 1, (i: nat) => level + i));
  }

  lemma {:induction false} BlockFlows(code: seq<Instr>, s: Stmt, idx: seq<nat>, level: nat, ls: seq<LabelData>, n: nat,
                                      pc: nat)
    requires s.Block? && WfStmt(s, |idx|, Names(ls)) && GoalsOk(code, ls, level)
    requires Placed(code, pc, GenBlock(s, idx, level, ls, n).code, idx, level)
    ensures Flow(code, GenBlock(s, idx, level, ls, n).code, level, level)
    decreases s, 0
  {
    hide Flow, At, LabelsUnique, GenSeq, GenInits, LVars;
    var k := |s.vars|;
    var idx1 := idx + Slots(level, k);
    var gi := GenInits(s.vars, |idx|, idx1, level + k, n);
    var gs := GenSeq(s.stmts, idx1, level + k, ls, gi.next);
    BlockParts(code, pc, LVars(level, k), gi.code, gs.code, PopIf(k));
    var q := pc + |LVars(level, k)|;
    VarsFlow(code, level, k);
    InitsFlow(code, s.vars, |idx|, idx1, level + k, n, q);
    SeqFlows(code, s.stmts, idx1, level + k, ls, gi.next, q + |gi.code|);
    if k == 0 {
      FlowLines(code, PopIf(k), [level]);
    } else {
      FlowLine(code, Pop(k), level + k, level);
    }
    Flow3(code, LVars(level, k), gi.code, gs.code, [level, level + k, level + k, level + k]);
    FlowThen(code, LVars(level, k) + gi.code + gs.code, PopIf(k), level, level + k, level);
  }

  // ----- The result -----

  /** The height that belongs to a position of the generated code. */
  ghost function HeightAt(code: seq<Instr>, h0: nat, pc: nat): nat {
    if pc < |code| && code[pc].Label? then code[pc].level
    else if pc <= |code| && Scan(code, code[..pc], Live(h0)).Live? then Scan(code, code[..pc], Live(h0)).h
    else 0
  }

  /** On every run of a compiled program the frame has the height that belongs to the position,
      whatever jumps led there, and the machine is never stuck before the end of the code. */
  lemma FrameHeights(pl: Platform, s: Stmt, idx: seq<nat>, stack: seq<Int32>, acc: Int32, now: nat, n: nat, k: nat)
    requires Program(s, idx, stack, n)
    requires Run(pl, GenStmt(s, idx, |stack|, [], n).code, State(0, acc, stack, now), k).Some?
    ensures var code := GenStmt(s, idx, |stack|, [], n).code;
      var st := Run(pl, code, State(0, acc, stack, now), k).value;
      |st.stack| == HeightAt(code, |stack|, st.pc) && st.pc <= |code|
      && (st.pc < |code| ==> Step(pl, code, st).Some?)
      && (st.pc == |code| ==> |st.stack| == |stack|)
  {
    hide GenStmt, At;
    var code := GenStmt(s, idx, |stack|, [], n).code;
    var s0 := State(0, acc, stack, now);
    GeneratedLabelsUnique(s, idx, |stack|, n);
    assert At(code, 0, code) by { AtWhole(code); }
    StmtFlows(code, s, idx, |stack|, [], n, 0);
    assert Scan(code, code, Live(|stack|)) != Bad;
    assert code[..0] == [];
    RunInStep(pl, code, |stack|, s0, k);
    var st := Run(pl, code, s0, k).value;
    if st.pc < |code| {
      PrefixScans(code, |stack|, st.pc);
    } else {
      assert code[..st.pc] == code;
    }
  }

  lemma AtWhole(code: seq<Instr>)
    ensures At(code, 0, code)
  {
    assert code[0..0 + |code|] == code;
  }
}
