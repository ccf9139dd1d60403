/**
Compiling a statement preserves its meaning: whatever way the statement ends, the machine comes
to the place that belongs to it with the frame that belongs to that place; and when the
statement does not end, neither does the machine.
*/
module StmtCorrect {
  import opened Machine
  import opened Source
  import opened CodeGen
  import opened Thread
  import opened ExprCorrect

  // ----- How a statement's code ends -----

  /** The machine can make at least k steps. */
  ghost predicate LongRun(pl: Platform, code: seq<Instr>, s0: State, k: nat) {
    Run(pl, code, s0, k).Some?
  }

  ghost predicate Falls(pl: Platform, code: seq<Instr>, s0: State, pc: nat, base: seq<Int32>, idx: seq<nat>,
                        st: Store) {
    exists x: Int32 :: Arrives(pl, code, s0, pc, x, base, idx, st)
  }

  /** The machine comes to label l with the lowest `height` cells of its frame. */
  ghost predicate Lands(pl: Platform, code: seq<Instr>, s0: State, l: nat, height: nat,
                        base: seq<Int32>, idx: seq<nat>, st: Store)
  {
    |st.locals| == |idx| && SlotsOk(idx, |base|) && height <= |base| && Find(code, l) < |code|
    && exists x: Int32 :: Reaches(pl, code, s0, State(Find(code, l), x, Mem(base, idx, st.locals)[..height], st.now))
  }

  ghost predicate Ended(pl: Platform, code: seq<Instr>, s0: State, pc: nat, base: seq<Int32>, idx: seq<nat>,
                        ls: seq<LabelData>, fuel: nat, out: Outcome)
  {
    match out
    case Normal(st) => Falls(pl, code, s0, pc, base, idx, st)
    case Broke(target, st) =>
      var lb := FindLabel(ls, target);
      lb.Some? && Lands(pl, code, s0, lb.value.brk, lb.value.level, base, idx, st)
    case Continued(target, st) =>
      var lb := FindLabel(ls, target);
      lb.Some? && Lands(pl, code, s0, lb.value.cont, lb.value.level + lb.value.rpt, base, idx, st)
    case Timeout => LongRun(pl, code, s0, fuel)
  }

  /** Every enclosing loop has its labels in the code and a frame no higher than this one. */
  ghost predicate LoopsOk(code: seq<Instr>, ls: seq<LabelData>, level: nat) {
    forall i | 0 <= i < |ls| ::
      ls[i].level + ls[i].rpt <= level && Find(code, ls[i].brk) < |code| && Find(code, ls[i].cont) < |code|
  }

  ghost function Names(ls: seq<LabelData>): seq<string> {
    if ls == [] then [] else Names(ls[..|ls| - 1]) + [ls[|ls| - 1].name]
  }

  lemma {:induction false} FindsLoop(code: seq<Instr>, ls: seq<LabelData>, level: nat, target: Option<string>)
    requires LoopsOk(code, ls, level)
    requires if target.None? then Names(ls) != [] else target.value in Names(ls)
    ensures FindLabel(ls, target).Some?
    ensures var lb := FindLabel(ls, target).value;
      lb.level + lb.rpt <= level && Find(code, lb.brk) < |code| && Find(code, lb.cont) < |code|
    decreases |ls|
  {
    var last := |ls| - 1;
    if !Catches(ls[last].name, target) {
      FindsLoop(code, ls[..last], level, target);
    }
  }

  lemma {:induction false} FoundLoop(code: seq<Instr>, ls: seq<LabelData>, level: nat, target: Option<string>)
    requires LoopsOk(code, ls, level) && FindLabel(ls, target).Some?
    ensures var lb := FindLabel(ls, target).value; lb.level + lb.rpt <= level
    decreases |ls|
  {
    var last := |ls| - 1;
    if !Catches(ls[last].name, target) {
      FoundLoop(code, ls[..last], level, target);
    }
  }

  /** A loop's own entry catches what names it; the rest is looked up outside. */
  lemma FindInside(ls: seq<LabelData>, lp: LoopId, level: nat, rpt: nat, target: Option<string>)
    ensures Names(Enter(ls, lp, level, rpt)) == Names(ls) + [lp.name]
    ensures Catches(lp.name, target) ==>
      FindLabel(Enter(ls, lp, level, rpt), target) == Some(LabelData(lp.name, lp.cont, lp.brk, level, rpt))
    ensures !Catches(lp.name, target) ==> FindLabel(Enter(ls, lp, level, rpt), target) == FindLabel(ls, target)
  {
    var inner := Enter(ls, lp, level, rpt);
    assert inner[..|inner| - 1] == ls;
  }

  // ----- Gluing runs together -----

  lemma LiftRun(pl: Platform, code: seq<Instr>, s0: State, s1: State, k: nat)
    requires Reaches(pl, code, s0, s1) && LongRun(pl, code, s1, k)
    ensures LongRun(pl, code, s0, k)
  {
    var m: nat :| Run(pl, code, s0, m) == Some(s1);
    RunCompose(pl, code, s0, m, k);
    RunPrefix(pl, code, s0, k, m + k);
  }

  lemma Lift(pl: Platform, code: seq<Instr>, s0: State, s1: State, pc: nat, base: seq<Int32>, idx: seq<nat>,
             ls: seq<LabelData>, fuel: nat, out: Outcome)
    requires Reaches(pl, code, s0, s1) && Ended(pl, code, s1, pc, base, idx, ls, fuel, out)
    ensures Ended(pl, code, s0, pc, base, idx, ls, fuel, out)
  {
    match out
    case Normal(st) =>
      var x: Int32 :| Arrives(pl, code, s1, pc, x, base, idx, st);
      ReachTrans(pl, code, s0, s1, Here(pc, x, base, idx, st));
      assert Arrives(pl, code, s0, pc, x, base, idx, st);
    case Broke(target, st) =>
      var lb := FindLabel(ls, target).value;
      LiftLands(pl, code, s0, s1, lb.brk, lb.level, base, idx, st);
    case Continued(target, st) =>
      var lb := FindLabel(ls, target).value;
      LiftLands(pl, code, s0, s1, lb.cont, lb.level + lb.rpt, base, idx, st);
    case Timeout => LiftRun(pl, code, s0, s1, fuel);
  }

  lemma LiftLands(pl: Platform, code: seq<Instr>, s0: State, s1: State, l: nat, height: nat,
                  base: seq<Int32>, idx: seq<nat>, st: Store)
    requires Reaches(pl, code, s0, s1) && Lands(pl, code, s1, l, height, base, idx, st)
    ensures Lands(pl, code, s0, l, height, base, idx, st)
  {
    var q := Find(code, l);
    var frame := Mem(base, idx, st.locals)[..height];
    var x: Int32 :| Reaches(pl, code, s1, State(q, x, frame, st.now));
    ReachTrans(pl, code, s0, s1, State(q, x, frame, st.now));
  }

  /** A first step in front of a run that goes on for k steps. */
  lemma LiftStep(pl: Platform, code: seq<Instr>, s1: State, s2: State, pc: nat, base: seq<Int32>, idx: seq<nat>,
                 ls: seq<LabelData>, fuel: nat, out: Outcome)
    requires Step(pl, code, s1) == Some(s2) && fuel > 0 && Ended(pl, code, s2, pc, base, idx, ls, fuel - 1, out)
    ensures Ended(pl, code, s1, pc, base, idx, ls, fuel, out)
  {
    if out.Timeout? {
    } else {
      ReachStep(pl, code, s1, s2);
      assert Ended(pl, code, s2, pc, base, idx, ls, fuel, out);
      Lift(pl, code, s1, s2, pc, base, idx, ls, fuel, out);
    }
  }

  /** Code that ends with a jump to an exit label, or falls through that label. */
  lemma EndJump(pl: Platform, code: seq<Instr>, s0: State, pc: nat, q: nat, l: nat, base: seq<Int32>, idx: seq<nat>,
                ls: seq<LabelData>, fuel: nat, out: Outcome)
    requires Ended(pl, code, s0, pc, base, idx, ls, fuel, out) && LabelsUnique(code)
    requires LabelAt(code, q, l) && pc < |code| && (code[pc] == Jmp(l) || pc == q)
    ensures Ended(pl, code, s0, q + 1, base, idx, ls, fuel, out)
  {
    hide Reaches, LabelsUnique;
    if out.Normal? {
      var x: Int32 :| Arrives(pl, code, s0, pc, x, base, idx, out.st);
      if code[pc] == Jmp(l) {
        IJump(pl, code, s0, pc, q, l, x, base, idx, out.st);
      } else {
        IAcc(pl, code, s0, pc, x, base, idx, out.st);
      }
      assert Arrives(pl, code, s0, q + 1, x, base, idx, out.st);
    }
  }

  lemma FallsNow(pl: Platform, code: seq<Instr>, s0: State, pc: nat, x: Int32, base: seq<Int32>, idx: seq<nat>,
                 ls: seq<LabelData>, fuel: nat, st: Store)
    requires Arrives(pl, code, s0, pc, x, base, idx, st)
    ensures Ended(pl, code, s0, pc, base, idx, ls, fuel, Normal(st))
  {
  }

  // ----- Statements -----

  /** What a statement's code needs where it stands. */
  ghost predicate Stands(pl: Platform, code: seq<Instr>, s0: State, pc: nat, frag: seq<Instr>, x: Int32,
                         base: seq<Int32>, idx: seq<nat>, ls: seq<LabelData>, st: Store)
  {
    Ready(pl, code, s0, pc, frag, x, base, idx, st) && LoopsOk(code, ls, |base|)
  }

  lemma {:induction false} StmtRuns(pl: Platform, code: seq<Instr>, s0: State, s: Stmt, ls: seq<LabelData>, fuel: nat,
                                    n: nat, pc: nat, x: Int32, base: seq<Int32>, idx: seq<nat>, st: Store)
    requires WfStmt(s, |idx|, Names(ls))
    requires Stands(pl, code, s0, pc, GenStmt(s, idx, |base|, ls, n).code, x, base, idx, ls, st)
    ensures Ended(pl, code, s0, pc + |GenStmt(s, idx, |base|, ls, n).code|, base, idx, ls, fuel, Exec(pl, s, fuel, st))
    decreases fuel, s, 3
  {
    hide Ended, At, LabelsUnique, Reaches, GenIf, GenWhile, GenFor, GenRepeat, GenDoWhile, GenForever, GenCase,
      GenBlock, GenBreak, GenContinue, GenExpr, FindLabel, Names, Eval, ExecLoop, ExecIf, ExecRepeat, ExecCase,
      ExecBlock, WfExpr, WfExprs;
    match s
    case Null => NullRuns(pl, code, s0, ls, fuel, pc, x, base, idx, st);
    case ExprStmt(e) => ExprStmtRuns(pl, code, s0, e, ls, fuel, n, pc, x, base, idx, st);
    case If(_, _, _) => IfRuns(pl, code, s0, s, ls, fuel, n, pc, x, base, idx, st);
    case While(_, _, _) => WhileRuns(pl, code, s0, s, ls, fuel, n, pc, x, base, idx, st);
    case For(_, _, _, _, _) => ForRuns(pl, code, s0, s, ls, fuel, n, pc, x, base, idx, st);
    case Repeat(_, _, _) => RepeatRuns(pl, code, s0, s, ls, fuel, n, pc, x, base, idx, st);
    case DoWhile(_, _, _) => DoWhileRuns(pl, code, s0, s, ls, fuel, n, pc, x, base, idx, st);
    case Forever(_, _) => ForeverRuns(pl, code, s0, s, ls, fuel, n, pc, x, base, idx, st);
    case Case(_, _) => CaseRuns(pl, code, s0, s, ls, fuel, n, pc, x, base, idx, st);
    case Block(_, _) => BlockRuns(pl, code, s0, s, ls, fuel, n, pc, x, base, idx, st);
    case Break(target) => BreakRuns(pl, code, s0, target, ls, fuel, pc, x, base, idx, st);
    case Continue(target) => ContinueRuns(pl, code, s0, target, ls, fuel, pc, x, base, idx, st);
  }

  lemma NullRuns(pl: Platform, code: seq<Instr>, s0: State, ls: seq<LabelData>, fuel: nat,
                 pc: nat, x: Int32, base: seq<Int32>, idx: seq<nat>, st: Store)
    requires Stands(pl, code, s0, pc, [NullInstr], x, base, idx, ls, st)
    ensures Ended(pl, code, s0, pc + 1, base, idx, ls, fuel, Normal(st))
  {
    hide Reaches, LabelsUnique;
    AtOne(code, pc, NullInstr);
    IAcc(pl, code, s0, pc, x, base, idx, st);
    FallsNow(pl, code, s0, pc + 1, 0, base, idx, ls, fuel, st);
  }

  lemma ExprStmtRuns(pl: Platform, code: seq<Instr>, s0: State, e: Expr, ls: seq<LabelData>, fuel: nat, n: nat,
                     pc: nat, x: Int32, base: seq<Int32>, idx: seq<nat>, st: Store)
    requires WfExpr(e, |idx|)
    requires Stands(pl, code, s0, pc, GenExpr(e, idx, |base|, n).code, x, base, idx, ls, st)
    ensures Ended(pl, code, s0, pc + |GenExpr(e, idx, |base|, n).code|, base, idx, ls, fuel, Normal(Eval(pl, e, st).1))
  {
    hide Reaches, LabelsUnique, At, Eval, GenExpr;
    ExprRuns(pl, code, s0, e, |base|, n, pc, x, base, idx, st);
    var (y, st1) := Eval(pl, e, st);
    FallsNow(pl, code, s0, pc + |GenExpr(e, idx, |base|, n).code|, y, base, idx, ls, fuel, st1);
  }

  /** `pop n` on any frame that is high enough. */
  lemma IPopN(pl: Platform, code: seq<Instr>, s0: State, pc: nat, x: Int32, stack: seq<Int32>, now: nat, n: nat)
    requires Reaches(pl, code, s0, State(pc, x, stack, now)) && n <= |stack|
    requires At(code, pc, PopIf(n))
    ensures Reaches(pl, code, s0, State(pc + |PopIf(n)|, x, stack[..|stack| - n], now))
  {
    if n == 0 {
      assert stack[..|stack| - n] == stack;
    } else {
      AtOne(code, pc, Pop(n));
      Extend(pl, code, s0, State(pc, x, stack, now), State(pc + 1, x, stack[..|stack| - n], now));
    }
  }

  /** Cutting the frame down to the height of the target and jumping there. */
  lemma CutAndJump(pl: Platform, code: seq<Instr>, s0: State, l: nat, height: nat,
                   pc: nat, x: Int32, base: seq<Int32>, idx: seq<nat>, st: Store)
    requires Arrives(pl, code, s0, pc, x, base, idx, st) && height <= |base| && Find(code, l) < |code|
    requires At(code, pc, PopIf(|base| - height) + [Jmp(l)])
    ensures Lands(pl, code, s0, l, height, base, idx, st)
  {
    hide Reaches;
    var k := |base| - height;
    AtSplit(code, pc, PopIf(k), [Jmp(l)]);
    var stack := Mem(base, idx, st.locals);
    IPopN(pl, code, s0, pc, x, stack, st.now, k);
    var q := pc + |PopIf(k)|;
    AtOne(code, q, Jmp(l));
    Extend(pl, code, s0, State(q, x, stack[..height], st.now), State(Find(code, l), x, stack[..height], st.now));
  }

  lemma BreakRuns(pl: Platform, code: seq<Instr>, s0: State, target: Option<string>, ls: seq<LabelData>, fuel: nat,
                  pc: nat, x: Int32, base: seq<Int32>, idx: seq<nat>, st: Store)
    requires if target.None? then Names(ls) != [] else target.value in Names(ls)
    requires Stands(pl, code, s0, pc, GenBreak(FindLabel(ls, target), |base|), x, base, idx, ls, st)
    ensures Ended(pl, code, s0, pc + |GenBreak(FindLabel(ls, target), |base|)|, base, idx, ls, fuel, Broke(target, st))
  {
    hide Reaches, At, Names, Find, PopIf, FindLabel;
    FindsLoop(code, ls, |base|, target);
    var lb := FindLabel(ls, target).value;
    CutAndJump(pl, code, s0, lb.brk, lb.level, pc, x, base, idx, st);
  }

  lemma ContinueRuns(pl: Platform, code: seq<Instr>, s0: State, target: Option<string>, ls: seq<LabelData>, fuel: nat,
                     pc: nat, x: Int32, base: seq<Int32>, idx: seq<nat>, st: Store)
    requires if target.None? then Names(ls) != [] else target.value in Names(ls)
    requires Stands(pl, code, s0, pc, GenContinue(FindLabel(ls, target), |base|), x, base, idx, ls, st)
    ensures Ended(pl, code, s0, pc + |GenContinue(FindLabel(ls, target), |base|)|, base, idx, ls, fuel,
                  Continued(target, st))
  {
    hide Reaches, At, Names, Find, PopIf, FindLabel;
    FindsLoop(code, ls, |base|, target);
    var lb := FindLabel(ls, target).value;
    CutAndJump(pl, code, s0, lb.cont, lb.level + lb.rpt, pc, x, base, idx, st);
  }

  // ----- if -----

  lemma {:induction false} IfRuns(pl: Platform, code: seq<Instr>, s0: State, s: Stmt, ls: seq<LabelData>, fuel: nat,
                                  n: nat, pc: nat, x: Int32, base: seq<Int32>, idx: seq<nat>, st: Store)
    requires s.If? && WfStmt(s, |idx|, Names(ls))
    requires Stands(pl, code, s0, pc, GenIf(s, idx, |base|, ls, n).code, x, base, idx, ls, st)
    ensures Ended(pl, code, s0, pc + |GenIf(s, idx, |base|, ls, n).code|, base, idx, ls, fuel, ExecIf(pl, s, fuel, st))
    decreases fuel, s, 1
  {
    hide Reaches, At, Ended, Exec, GenStmt, Eval, GenExpr, LoopsOk, LabelsUnique, GenArms, WfArms, Here;
    var gc := GenExpr(s.cond, idx, |base|, n + 2);
    var gt := GenStmt(s.thn, idx, |base|, ls, gc.next);
    var gr := GenArms(s.rest, n + 1, idx, |base|, ls, gt.next);
    CondParts(code, pc, gc.code, gt.code, gr.code, |base|, n);
    var q := pc + |gc.code|;
    var m := q + 1 + |gt.code|;
    var t := m + 2 + |gr.code|;
    var (y, st1) := Eval(pl, s.cond, st);
    ExprRuns(pl, code, s0, s.cond, |base|, n + 2, pc, x, base, idx, st);
    if y != 0 {
      IFall(pl, code, s0, q, n, y, base, idx, st1);
      StmtRuns(pl, code, s0, s.thn, ls, fuel, gc.next, q + 1, y, base, idx, st1);
      EndJump(pl, code, s0, m, t, n + 1, base, idx, ls, fuel, Exec(pl, s.thn, fuel, st1));
    } else {
      IJump(pl, code, s0, q, m + 1, n, y, base, idx, st1);
      ArmsRun(pl, code, s0, s.rest, n + 1, t, ls, fuel, gt.next, m + 2, y, base, idx, st1);
      EndJump(pl, code, s0, t, t, n + 1, base, idx, ls, fuel, ExecArms(pl, s.rest, fuel, st1));
    }
  }

  lemma ElsifParts(code: seq<Instr>, pc: nat, c: seq<Instr>, b: seq<Instr>, r: seq<Instr>, exit: nat, level: nat,
                   n: nat)
    requires At(code, pc, c + [Jz(n)] + b + [Jmp(exit), Label(n, level)] + r)
    ensures At(code, pc, c) && At(code, pc + |c| + 1, b) && At(code, pc + |c| + 1 + |b| + 2, r)
    ensures var m := pc + |c| + 1 + |b|;
      m + 2 <= |code| && code[pc + |c|] == Jz(n) && code[m] == Jmp(exit) && Labelled(code, m + 1, n, level)
  {
    var mid := [Jmp(exit), Label(n, level)];
    AtSplit(code, pc, c + [Jz(n)] + b + mid, r);
    AtSplit(code, pc, c + [Jz(n)] + b, mid);
    Cut(code, pc, c, Jz(n), b);
    Tail(code, pc + |c| + 1 + |b|, mid);
  }

  /** The elsif and else parts: they end at their own end, which is the exit label at t. */
  lemma {:induction false} ArmsRun(pl: Platform, code: seq<Instr>, s0: State, arms: Arms, exit: nat, t: nat,
                                   ls: seq<LabelData>, fuel: nat, n: nat, pc: nat, x: Int32, base: seq<Int32>,
                                   idx: seq<nat>, st: Store)
    requires WfArms(arms, |idx|, Names(ls)) && LabelAt(code, t, exit)
    requires Stands(pl, code, s0, pc, GenArms(arms, exit, idx, |base|, ls, n).code, x, base, idx, ls, st)
    requires t == pc + |GenArms(arms, exit, idx, |base|, ls, n).code|
    ensures Ended(pl, code, s0, t, base, idx, ls, fuel, ExecArms(pl, arms, fuel, st))
    decreases fuel, arms, 1
  {
    hide Reaches, At, Ended, Exec, GenStmt, Eval, GenExpr, LoopsOk, LabelsUnique, WfStmt, Arrives;
    match arms
    case NoElse => FallsNow(pl, code, s0, t, x, base, idx, ls, fuel, st);
    case Else(body) => StmtRuns(pl, code, s0, body, ls, fuel, n, pc, x, base, idx, st);
    case Elsif(c, body, rest) =>
      var gc := GenExpr(c, idx, |base|, n + 1);
      var gb := GenStmt(body, idx, |base|, ls, gc.next);
      var gr := GenArms(rest, exit, idx, |base|, ls, gb.next);
      ElsifParts(code, pc, gc.code, gb.code, gr.code, exit, |base|, n);
      var q := pc + |gc.code|;
      var m := q + 1 + |gb.code|;
      var (y, st1) := Eval(pl, c, st);
      ExprRuns(pl, code, s0, c, |base|, n + 1, pc, x, base, idx, st);
      if y != 0 {
        IFall(pl, code, s0, q, n, y, base, idx, st1);
        StmtRuns(pl, code, s0, body, ls, fuel, gc.next, q + 1, y, base, idx, st1);
        JumpBefore(pl, code, s0, m, t, exit, base, idx, ls, fuel, Exec(pl, body, fuel, st1));
      } else {
        IJump(pl, code, s0, q, m + 1, n, y, base, idx, st1);
        ArmsRun(pl, code, s0, rest, exit, t, ls, fuel, gb.next, m + 2, y, base, idx, st1);
      }
  }

  /** Code that ends with a jump, seen just in front of the label it goes to. */
  lemma JumpBefore(pl: Platform, code: seq<Instr>, s0: State, pc: nat, q: nat, l: nat, base: seq<Int32>, idx: seq<nat>,
                   ls: seq<LabelData>, fuel: nat, out: Outcome)
    requires Ended(pl, code, s0, pc, base, idx, ls, fuel, out) && LabelsUnique(code)
    requires LabelAt(code, q, l) && pc < |code| && code[pc] == Jmp(l)
    ensures Ended(pl, code, s0, q, base, idx, ls, fuel, out)
  {
    hide Reaches, LabelsUnique;
    if out.Normal? {
      var x: Int32 :| Arrives(pl, code, s0, pc, x, base, idx, out.st);
      IJump(pl, code, s0, pc, q, l, x, base, idx, out.st);
      assert Arrives(pl, code, s0, q, x, base, idx, out.st);
    }
  }

  // ----- Loops -----

  /** The body comes back to the continue label. */
  lemma BodyAgain(pl: Platform, code: seq<Instr>, s0: State, pc: nat, c: nat, base: seq<Int32>, idx: seq<nat>,
                  ls: seq<LabelData>, lp: LoopId, level: nat, rpt: nat, fuel: nat, out: Outcome)
    requires Ended(pl, code, s0, pc, base, idx, Enter(ls, lp, level, rpt), fuel, out) && Again(lp.name, out)
    requires LabelsUnique(code) && LabelAt(code, c, lp.cont)
    requires pc == c || (pc < |code| && code[pc] == Jmp(lp.cont))
    requires |base| == level + rpt
    ensures Falls(pl, code, s0, c, base, idx, out.st)
  {
    hide Reaches, LabelsUnique;
    FindInside(ls, lp, level, rpt, if out.Continued? then out.target else None);
    if out.Normal? {
      var x: Int32 :| Arrives(pl, code, s0, pc, x, base, idx, out.st);
      if pc != c {
        IJump(pl, code, s0, pc, c, lp.cont, x, base, idx, out.st);
      }
      assert Arrives(pl, code, s0, c, x, base, idx, out.st);
    } else {
      FindUnique(code, c, lp.cont);
      var m := Mem(base, idx, out.st.locals);
      assert m[..level + rpt] == m;
      var x: Int32 :| Reaches(pl, code, s0, State(c, x, m[..level + rpt], out.st.now));
      assert Arrives(pl, code, s0, c, x, base, idx, out.st);
    }
  }

  /** The body breaks out of this loop: it comes to the break label with the loop's own frame. */
  lemma BodyBreaks(pl: Platform, code: seq<Instr>, s0: State, pc: nat, b: nat, base: seq<Int32>, more: seq<Int32>,
                   idx: seq<nat>, ls: seq<LabelData>, lp: LoopId, rpt: nat, fuel: nat, out: Outcome)
    requires Ended(pl, code, s0, pc, base + more, idx, Enter(ls, lp, |base|, rpt), fuel, out)
    requires out.Broke? && Catches(lp.name, out.target) && SlotsOk(idx, |base|)
    requires LabelsUnique(code) && LabelAt(code, b, lp.brk)
    ensures Falls(pl, code, s0, b + 1, base, idx, out.st)
  {
    hide Reaches, LabelsUnique;
    FindInside(ls, lp, |base|, rpt, out.target);
    FindUnique(code, b, lp.brk);
    MemAppend(base, more, idx, out.st.locals);
    var m := Mem(base + more, idx, out.st.locals);
    assert m[..|base|] == Mem(base, idx, out.st.locals);
    var x: Int32 :| Reaches(pl, code, s0, State(b, x, m[..|base|], out.st.now));
    IAcc(pl, code, s0, b, x, base, idx, out.st);
    assert Arrives(pl, code, s0, b + 1, x, base, idx, out.st);
  }

  /** The body leaves for an outer loop, or does not end. */
  lemma BodyLeaves(pl: Platform, code: seq<Instr>, s0: State, pc: nat, end: nat, base: seq<Int32>, more: seq<Int32>,
                   idx: seq<nat>, ls: seq<LabelData>, lp: LoopId, rpt: nat, fuel: nat, out: Outcome)
    requires Ended(pl, code, s0, pc, base + more, idx, Enter(ls, lp, |base|, rpt), fuel, out)
    requires !Again(lp.name, out) && !(out.Broke? && Catches(lp.name, out.target))
    requires SlotsOk(idx, |base|) && LoopsOk(code, ls, |base|)
    ensures Ended(pl, code, s0, end, base, idx, ls, fuel, out)
  {
    hide Reaches;
    if !out.Timeout? {
      FindInside(ls, lp, |base|, rpt, out.target);
      FoundLoop(code, ls, |base|, out.target);
      var lb := FindLabel(ls, out.target).value;
      SameLanding(pl, code, s0, if out.Broke? then lb.brk else lb.cont,
                  if out.Broke? then lb.level else lb.level + lb.rpt, base, more, idx, out.st);
    }
  }

  lemma SameLanding(pl: Platform, code: seq<Instr>, s0: State, l: nat, height: nat,
                    base: seq<Int32>, more: seq<Int32>, idx: seq<nat>, st: Store)
    requires Lands(pl, code, s0, l, height, base + more, idx, st) && height <= |base| && SlotsOk(idx, |base|)
    ensures Lands(pl, code, s0, l, height, base, idx, st)
  {
    hide Reaches;
    MemAppend(base, more, idx, st.locals);
    assert Mem(base + more, idx, st.locals)[..height] == Mem(base, idx, st.locals)[..height];
  }

  lemma TimesOut(pl: Platform, code: seq<Instr>, s0: State, pc: nat, base: seq<Int32>, idx: seq<nat>,
                 ls: seq<LabelData>)
    ensures Ended(pl, code, s0, pc, base, idx, ls, 0, Timeout)
  {
  }

  /** A loop that ends here and now. */
  lemma LoopEnds(pl: Platform, code: seq<Instr>, s0: State, pc: nat, base: seq<Int32>, idx: seq<nat>,
                 ls: seq<LabelData>, fuel: nat, st: Store)
    requires Falls(pl, code, s0, pc, base, idx, st)
    ensures Ended(pl, code, s0, pc, base, idx, ls, fuel, Normal(st))
  {
  }

  lemma WhileParts(code: seq<Instr>, pc: nat, c: seq<Instr>, b: seq<Instr>, lp: LoopId, level: nat)
    requires At(code, pc, [Label(lp.cont, level)] + c + [Jz(lp.brk)] + b + [Jmp(lp.cont), Label(lp.brk, level)])
    ensures At(code, pc + 1, c) && At(code, pc + 1 + |c| + 1, b) && Labelled(code, pc, lp.cont, level)
    ensures var t := pc + 1 + |c| + 1 + |b|;
      t + 2 <= |code| && code[pc + 1 + |c|] == Jz(lp.brk) && code[t] == Jmp(lp.cont)
        && Labelled(code, t + 1, lp.brk, level)
  {
    var tail := [Jmp(lp.cont), Label(lp.brk, level)];
    AtSplit(code, pc, [Label(lp.cont, level)] + c + [Jz(lp.brk)] + b, tail);
    Cut(code, pc, [Label(lp.cont, level)] + c, Jz(lp.brk), b);
    AtSplit(code, pc, [Label(lp.cont, level)], c);
    AtOne(code, pc, Label(lp.cont, level));
    Tail(code, pc + 1 + |c| + 1 + |b|, tail);
  }

  /** The labels of a loop are in the code, so its body may count on them. */
  lemma InnerLoopsOk(code: seq<Instr>, ls: seq<LabelData>, lp: LoopId, level: nat, rpt: nat, c: nat, b: nat)
    requires LoopsOk(code, ls, level) && LabelsUnique(code) && LabelAt(code, c, lp.cont) && LabelAt(code, b, lp.brk)
    ensures LoopsOk(code, Enter(ls, lp, level, rpt), level + rpt)
  {
    FindUnique(code, c, lp.cont);
    FindUnique(code, b, lp.brk);
  }

  lemma {:induction false} WhileRuns(pl: Platform, code: seq<Instr>, s0: State, s: Stmt, ls: seq<LabelData>, fuel: nat,
                                     n: nat, pc: nat, x: Int32, base: seq<Int32>, idx: seq<nat>, st: Store)
    requires s.While? && WfStmt(s, |idx|, Names(ls))
    requires Stands(pl, code, s0, pc, GenWhile(s, idx, |base|, ls, n).code, x, base, idx, ls, st)
    ensures Ended(pl, code, s0, pc + |GenWhile(s, idx, |base|, ls, n).code|, base, idx, ls, fuel,
                  ExecLoop(pl, s, fuel, 0, st))
    decreases fuel, s, 2
  {
    hide Reaches, At, Exec, GenStmt, Eval, GenExpr, LabelsUnique, LoopsOk, Ended, FindLabel, Names, Labelled;
    var level := |base|;
    var gc := GenExpr(s.cond, idx, level, n);
    var inner := Enter(ls, s.lp, level, 0);
    var gb := GenStmt(s.body, idx, level, inner, gc.next);
    WhileParts(code, pc, gc.code, gb.code, s.lp, level);
    var q := pc + 1 + |gc.code|;
    var t := q + 1 + |gb.code|;
    var s1, s2 := Here(pc, x, base, idx, st), Here(pc + 1, x, base, idx, st);
    if fuel == 0 {
      TimesOut(pl, code, s1, t + 2, base, idx, ls);
    } else {
      ReachSelf(pl, code, s2);
      var (y, st1) := Eval(pl, s.cond, st);
      ExprRuns(pl, code, s2, s.cond, level, n, pc + 1, x, base, idx, st);
      if y == 0 {
        IJump(pl, code, s2, q, t + 1, s.lp.brk, y, base, idx, st1);
        FallsNow(pl, code, s2, t + 2, y, base, idx, ls, fuel - 1, st1);
      } else {
        IFall(pl, code, s2, q, s.lp.brk, y, base, idx, st1);
        InnerLoopsOk(code, ls, s.lp, level, 0, pc, t + 1);
        FindInside(ls, s.lp, level, 0, None);
        StmtRuns(pl, code, s2, s.body, inner, fuel - 1, gc.next, q + 1, y, base, idx, st1);
        WhileTurn(pl, code, s2, s, ls, fuel, n, pc, t, base, idx, Exec(pl, s.body, fuel - 1, st1));
      }
      LiftStep(pl, code, s1, s2, t + 2, base, idx, ls, fuel, ExecLoop(pl, s, fuel, 0, st));
    }
    Lift(pl, code, s0, s1, t + 2, base, idx, ls, fuel, ExecLoop(pl, s, fuel, 0, st));
  }

  /** A turn after which the loop does not go on. */
  lemma TurnOut(pl: Platform, code: seq<Instr>, s0: State, s: Stmt, k: nat, ls: seq<LabelData>, rpt: nat, fuel: nat,
                pc: nat, b: nat, base: seq<Int32>, more: seq<Int32>, idx: seq<nat>, out: Outcome)
    requires s.IsLoop() && fuel > 0 && !Again(s.lp.name, out)
    requires LabelsUnique(code) && LoopsOk(code, ls, |base|) && SlotsOk(idx, |base|) && LabelAt(code, b, s.lp.brk)
    requires Ended(pl, code, s0, pc, base + more, idx, Enter(ls, s.lp, |base|, rpt), fuel - 1, out)
    ensures Ended(pl, code, s0, b + 1, base, idx, ls, fuel - 1, ExecTurn(pl, s, fuel, k, out))
  {
    hide Reaches, Exec, LabelsUnique, LoopsOk, Ended;
    if out.Broke? && Catches(s.lp.name, out.target) {
      BodyBreaks(pl, code, s0, pc, b, base, more, idx, ls, s.lp, rpt, fuel - 1, out);
      LoopEnds(pl, code, s0, b + 1, base, idx, ls, fuel - 1, out.st);
    } else {
      BodyLeaves(pl, code, s0, pc, b + 1, base, more, idx, ls, s.lp, rpt, fuel - 1, out);
    }
  }

  lemma {:induction false} WhileTurn(pl: Platform, code: seq<Instr>, s0: State, s: Stmt, ls: seq<LabelData>, fuel: nat,
                                     n: nat, pc: nat, t: nat, base: seq<Int32>, idx: seq<nat>, out: Outcome)
    requires s.While? && fuel > 0 && WfStmt(s, |idx|, Names(ls))
    requires At(code, pc, GenWhile(s, idx, |base|, ls, n).code) && t + 2 == pc + |GenWhile(s, idx, |base|, ls, n).code|
    requires LabelsUnique(code) && LoopsOk(code, ls, |base|) && SlotsOk(idx, |base|)
    requires Ended(pl, code, s0, t, base, idx, Enter(ls, s.lp, |base|, 0), fuel - 1, out)
    requires LabelAt(code, pc, s.lp.cont) && code[t] == Jmp(s.lp.cont) && LabelAt(code, t + 1, s.lp.brk)
    ensures Ended(pl, code, s0, t + 2, base, idx, ls, fuel - 1, ExecTurn(pl, s, fuel, 0, out))
    decreases fuel, s, 0
  {
    hide Reaches, At, Exec, GenStmt, Eval, GenExpr, LabelsUnique, LoopsOk, Ended;
    if Again(s.lp.name, out) {
      BodyAgain(pl, code, s0, t, pc, base, idx, ls, s.lp, |base|, 0, fuel - 1, out);
      var x: Int32 :| Arrives(pl, code, s0, pc, x, base, idx, out.st);
      WhileRuns(pl, code, s0, s, ls, fuel - 1, n, pc, x, base, idx, out.st);
    } else {
      assert base + [] == base;
      TurnOut(pl, code, s0, s, 0, ls, 0, fuel, t, t + 1, base, [], idx, out);
    }
  }

  // ----- forever -----

  lemma ForeverParts(code: seq<Instr>, pc: nat, b: seq<Instr>, lp: LoopId, level: nat)
    requires At(code, pc, [Label(lp.cont, level)] + b + [Jmp(lp.cont), Label(lp.brk, level)])
    ensures At(code, pc + 1, b) && Labelled(code, pc, lp.cont, level)
    ensures var t := pc + 1 + |b|;
      t + 2 <= |code| && code[t] == Jmp(lp.cont) && Labelled(code, t + 1, lp.brk, level)
  {
    var tail := [Jmp(lp.cont), Label(lp.brk, level)];
    AtSplit(code, pc, [Label(lp.cont, level)] + b, tail);
    AtSplit(code, pc, [Label(lp.cont, level)], b);
    AtOne(code, pc, Label(lp.cont, level));
    Tail(code, pc + 1 + |b|, tail);
  }

  lemma {:induction false} ForeverRuns(pl: Platform, code: seq<Instr>, s0: State, s: Stmt, ls: seq<LabelData>,
                                       fuel: nat, n: nat, pc: nat, x: Int32, base: seq<Int32>, idx: seq<nat>, st: Store)
    requires s.Forever? && WfStmt(s, |idx|, Names(ls))
    requires Stands(pl, code, s0, pc, GenForever(s, idx, |base|, ls, n).code, x, base, idx, ls, st)
    ensures Ended(pl, code, s0, pc + |GenForever(s, idx, |base|, ls, n).code|, base, idx, ls, fuel,
                  ExecLoop(pl, s, fuel, 0, st))
    decreases fuel, s, 2
  {
    hide Reaches, At, Exec, GenStmt, LabelsUnique, LoopsOk, Ended, FindLabel, Names;
    var inner := Enter(ls, s.lp, |base|, 0);
    var gb := GenStmt(s.body, idx, |base|, inner, n);
    ForeverParts(code, pc, gb.code, s.lp, |base|);
    var t := pc + 1 + |gb.code|;
    var s1, s2 := Here(pc, x, base, idx, st), Here(pc + 1, x, base, idx, st);
    if fuel == 0 {
      TimesOut(pl, code, s1, t + 2, base, idx, ls);
    } else {
      ReachSelf(pl, code, s2);
      InnerLoopsOk(code, ls, s.lp, |base|, 0, pc, t + 1);
      FindInside(ls, s.lp, |base|, 0, None);
      StmtRuns(pl, code, s2, s.body, inner, fuel - 1, n, pc + 1, x, base, idx, st);
      ForeverTurn(pl, code, s2, s, ls, fuel, n, pc, t, base, idx, Exec(pl, s.body, fuel - 1, st));
      LiftStep(pl, code, s1, s2, t + 2, base, idx, ls, fuel, ExecLoop(pl, s, fuel, 0, st));
    }
    Lift(pl, code, s0, s1, t + 2, base, idx, ls, fuel, ExecLoop(pl, s, fuel, 0, st));
  }

  lemma {:induction false} ForeverTurn(pl: Platform, code: seq<Instr>, s0: State, s: Stmt, ls: seq<LabelData>,
                                       fuel: nat, n: nat, pc: nat, t: nat, base: seq<Int32>, idx: seq<nat>,
                                       out: Outcome)
    requires s.Forever? && fuel > 0 && WfStmt(s, |idx|, Names(ls))
    requires At(code, pc, GenForever(s, idx, |base|, ls, n).code)
             && t + 2 == pc + |GenForever(s, idx, |base|, ls, n).code|
    requires LabelsUnique(code) && LoopsOk(code, ls, |base|) && SlotsOk(idx, |base|)
    requires Ended(pl, code, s0, t, base, idx, Enter(ls, s.lp, |base|, 0), fuel - 1, out)
    requires LabelAt(code, pc, s.lp.cont) && code[t] == Jmp(s.lp.cont) && LabelAt(code, t + 1, s.lp.brk)
    ensures Ended(pl, code, s0, t + 2, base, idx, ls, fuel - 1, ExecTurn(pl, s, fuel, 0, out))
    decreases fuel, s, 0
  {
    hide Reaches, At, Exec, GenStmt, LabelsUnique, LoopsOk, Ended;
    if Again(s.lp.name, out) {
      BodyAgain(pl, code, s0, t, pc, base, idx, ls, s.lp, |base|, 0, fuel - 1, out);
      var x: Int32 :| Arrives(pl, code, s0, pc, x, base, idx, out.st);
      ForeverRuns(pl, code, s0, s, ls, fuel - 1, n, pc, x, base, idx, out.st);
    } else {
      assert base + [] == base;
      TurnOut(pl, code, s0, s, 0, ls, 0, fuel, t, t + 1, base, [], idx, out);
    }
  }

  // ----- do while -----

  lemma DoWhileParts(code: seq<Instr>, pc: nat, b: seq<Instr>, c: seq<Instr>, lp: LoopId, level: nat, n: nat)
    requires At(code, pc, [Label(n, level)] + b + [Label(lp.cont, level)] + c + [Jnz(n), Label(lp.brk, level)])
    ensures At(code, pc + 1, b) && Labelled(code, pc, n, level)
    ensures var m := pc + 1 + |b|;
      Labelled(code, m, lp.cont, level) && At(code, m + 1, c) && m + 1 + |c| + 2 <= |code|
      && code[m + 1 + |c|] == Jnz(n) && Labelled(code, m + 1 + |c| + 1, lp.brk, level)
  {
    var tail := [Jnz(n), Label(lp.brk, level)];
    AtSplit(code, pc, [Label(n, level)] + b + [Label(lp.cont, level)] + c, tail);
    Cut(code, pc, [Label(n, level)] + b, Label(lp.cont, level), c);
    AtSplit(code, pc, [Label(n, level)], b);
    AtOne(code, pc, Label(n, level));
    Tail(code, pc + 1 + |b| + 1 + |c|, tail);
  }

  lemma {:induction false} DoWhileRuns(pl: Platform, code: seq<Instr>, s0: State, s: Stmt, ls: seq<LabelData>,
                                       fuel: nat, n: nat, pc: nat, x: Int32, base: seq<Int32>, idx: seq<nat>, st: Store)
    requires s.DoWhile? && WfStmt(s, |idx|, Names(ls))
    requires Stands(pl, code, s0, pc, GenDoWhile(s, idx, |base|, ls, n).code, x, base, idx, ls, st)
    ensures Ended(pl, code, s0, pc + |GenDoWhile(s, idx, |base|, ls, n).code|, base, idx, ls, fuel,
                  ExecLoop(pl, s, fuel, 0, st))
    decreases fuel, s, 2
  {
    hide Reaches, At, Exec, GenStmt, GenExpr, LabelsUnique, LoopsOk, Ended, FindLabel, Names, Labelled;
    var inner := Enter(ls, s.lp, |base|, 0);
    var gb := GenStmt(s.body, idx, |base|, inner, n + 1);
    var gc := GenExpr(s.cond, idx, |base|, gb.next);
    DoWhileParts(code, pc, gb.code, gc.code, s.lp, |base|, n);
    var m := pc + 1 + |gb.code|;
    var t := m + 1 + |gc.code|;
    var s1, s2 := Here(pc, x, base, idx, st), Here(pc + 1, x, base, idx, st);
    if fuel == 0 {
      TimesOut(pl, code, s1, t + 2, base, idx, ls);
    } else {
      ReachSelf(pl, code, s2);
      InnerLoopsOk(code, ls, s.lp, |base|, 0, m, t + 1);
      FindInside(ls, s.lp, |base|, 0, None);
      StmtRuns(pl, code, s2, s.body, inner, fuel - 1, n + 1, pc + 1, x, base, idx, st);
      DoWhileTurn(pl, code, s2, s, ls, fuel, n, pc, m, base, idx, Exec(pl, s.body, fuel - 1, st));
      LiftStep(pl, code, s1, s2, t + 2, base, idx, ls, fuel, ExecLoop(pl, s, fuel, 0, st));
    }
    Lift(pl, code, s0, s1, t + 2, base, idx, ls, fuel, ExecLoop(pl, s, fuel, 0, st));
  }

  lemma {:induction false} DoWhileTurn(pl: Platform, code: seq<Instr>, s0: State, s: Stmt, ls: seq<LabelData>,
                                       fuel: nat, n: nat, pc: nat, m: nat, base: seq<Int32>, idx: seq<nat>,
                                       out: Outcome)
    requires s.DoWhile? && fuel > 0 && WfStmt(s, |idx|, Names(ls))
    requires At(code, pc, GenDoWhile(s, idx, |base|, ls, n).code)
    requires m == pc + 1 + |GenStmt(s.body, idx, |base|, Enter(ls, s.lp, |base|, 0), n + 1).code|
    requires LabelsUnique(code) && LoopsOk(code, ls, |base|) && SlotsOk(idx, |base|)
    requires Ended(pl, code, s0, m, base, idx, Enter(ls, s.lp, |base|, 0), fuel - 1, out)
    ensures Ended(pl, code, s0, pc + |GenDoWhile(s, idx, |base|, ls, n).code|, base, idx, ls, fuel - 1,
                  ExecTurn(pl, s, fuel, 0, out))
    decreases fuel, s, 0
  {
    hide Reaches, At, Exec, GenStmt, Eval, GenExpr, LabelsUnique, LoopsOk, Ended;
    var gb := GenStmt(s.body, idx, |base|, Enter(ls, s.lp, |base|, 0), n + 1);
    var gc := GenExpr(s.cond, idx, |base|, gb.next);
    DoWhileParts(code, pc, gb.code, gc.code, s.lp, |base|, n);
    var t := m + 1 + |gc.code|;
    if Again(s.lp.name, out) {
      BodyAgain(pl, code, s0, m, m, base, idx, ls, s.lp, |base|, 0, fuel - 1, out);
      var x: Int32 :| Arrives(pl, code, s0, m, x, base, idx, out.st);
      IAcc(pl, code, s0, m, x, base, idx, out.st);
      ExprRuns(pl, code, s0, s.cond, |base|, gb.next, m + 1, x, base, idx, out.st);
      var (y, st1) := Eval(pl, s.cond, out.st);
      if y == 0 {
        IFall(pl, code, s0, t, n, y, base, idx, st1);
        IAcc(pl, code, s0, t + 1, y, base, idx, st1);
        FallsNow(pl, code, s0, t + 2, y, base, idx, ls, fuel - 1, st1);
      } else {
        IJump(pl, code, s0, t, pc, n, y, base, idx, st1);
        DoWhileRuns(pl, code, s0, s, ls, fuel - 1, n, pc, y, base, idx, st1);
      }
    } else {
      assert base + [] == base;
      TurnOut(pl, code, s0, s, 0, ls, 0, fuel, m, t + 1, base, [], idx, out);
    }
  }

  // ----- for -----

  lemma {:induction false} ForRuns(pl: Platform, code: seq<Instr>, s0: State, s: Stmt, ls: seq<LabelData>, fuel: nat,
                                   n: nat, pc: nat, x: Int32, base: seq<Int32>, idx: seq<nat>, st: Store)
    requires s.For? && WfStmt(s, |idx|, Names(ls))
    requires Stands(pl, code, s0, pc, GenFor(s, idx, |base|, ls, n).code, x, base, idx, ls, st)
    ensures Ended(pl, code, s0, pc + |GenFor(s, idx, |base|, ls, n).code|, base, idx, ls, fuel,
                  ExecLoop(pl, s, fuel, 0, EvalAll(pl, s.init, st)))
    decreases fuel, s, 2, 1
  {
    hide Reaches, At, ExecLoop, GenForLoop, LabelsUnique, LoopsOk, Ended, EvalAll, GenExprs;
    var gi := GenExprs(s.init, idx, |base|, n + 1);
    AtSplit(code, pc, gi.code, GenForLoop(s, idx, |base|, ls, n, gi.next).code);
    var y := ExprsRun(pl, code, s0, s.init, |base|, n + 1, pc, x, base, idx, st);
    ForLoopRuns(pl, code, s0, s, ls, fuel, n, gi.next, pc + |gi.code|, y, base, idx, EvalAll(pl, s.init, st));
  }

  lemma ForParts(code: seq<Instr>, pc: nat, c: seq<Instr>, b: seq<Instr>, l: seq<Instr>, lp: LoopId, level: nat,
                 top: nat)
    requires At(code, pc, [Label(top, level)] + c + b + [Label(lp.cont, level)] + l + [Jmp(top), Label(lp.brk, level)])
    ensures At(code, pc + 1, c) && At(code, pc + 1 + |c|, b) && Labelled(code, pc, top, level)
    ensures var m := pc + 1 + |c| + |b|;
      Labelled(code, m, lp.cont, level) && At(code, m + 1, l) && m + 1 + |l| + 2 <= |code|
      && code[m + 1 + |l|] == Jmp(top) && Labelled(code, m + 1 + |l| + 1, lp.brk, level)
  {
    var tail := [Jmp(top), Label(lp.brk, level)];
    AtSplit(code, pc, [Label(top, level)] + c + b + [Label(lp.cont, level)] + l, tail);
    Cut(code, pc, [Label(top, level)] + c + b, Label(lp.cont, level), l);
    AtSplit(code, pc, [Label(top, level)] + c, b);
    AtSplit(code, pc, [Label(top, level)], c);
    AtOne(code, pc, Label(top, level));
    Tail(code, pc + 1 + |c| + |b| + 1 + |l|, tail);
  }

  /** The test of a `for`: falls through, or has jumped to the break label at b. */
  lemma TestRuns(pl: Platform, code: seq<Instr>, s0: State, s: Stmt, h: nat, n: nat, pc: nat, b: nat,
                 x: Int32, base: seq<Int32>, idx: seq<nat>, st: Store) returns (y: Int32)
    requires s.For? && WfWindow(s.test, |idx|) && LabelAt(code, b, s.lp.brk)
    requires Ready(pl, code, s0, pc, GenTest(s.test, s.lp.brk, idx, h, n).code, x, base, idx, st)
    ensures var (go, st') := LoopHead(pl, s, 0, st);
      if go then Arrives(pl, code, s0, pc + |GenTest(s.test, s.lp.brk, idx, h, n).code|, y, base, idx, st')
      else Arrives(pl, code, s0, b + 1, y, base, idx, st')
  {
    hide Reaches, At, LabelsUnique, Eval, GenExpr;
    y := x;
    if s.test.Some? {
      var g := GenExpr(s.test.value, idx, h, n);
      AtSplit(code, pc, g.code, [Jz(s.lp.brk)]);
      var q := pc + |g.code|;
      AtOne(code, q, Jz(s.lp.brk));
      ExprRuns(pl, code, s0, s.test.value, h, n, pc, x, base, idx, st);
      var (z, st1) := Eval(pl, s.test.value, st);
      y := z;
      if z == 0 {
        IJump(pl, code, s0, q, b, s.lp.brk, z, base, idx, st1);
      } else {
        IFall(pl, code, s0, q, s.lp.brk, z, base, idx, st1);
      }
    }
  }

  lemma {:induction false} ForLoopRuns(pl: Platform, code: seq<Instr>, s0: State, s: Stmt, ls: seq<LabelData>,
                                       fuel: nat, top: nat, n: nat, pc: nat, x: Int32, base: seq<Int32>, idx: seq<nat>,
                                       st: Store)
    requires s.For? && WfStmt(s, |idx|, Names(ls))
    requires Stands(pl, code, s0, pc, GenForLoop(s, idx, |base|, ls, top, n).code, x, base, idx, ls, st)
    ensures Ended(pl, code, s0, pc + |GenForLoop(s, idx, |base|, ls, top, n).code|, base, idx, ls, fuel,
                  ExecLoop(pl, s, fuel, 0, st))
    decreases fuel, s, 2, 0
  {
    hide Reaches, At, Exec, GenStmt, GenTest, GenExprs, LabelsUnique, LoopsOk, Ended, LoopHead, FindLabel,
      Names, Labelled;
    var inner := Enter(ls, s.lp, |base|, 0);
    var gc := GenTest(s.test, s.lp.brk, idx, |base|, n);
    var gb := GenStmt(s.body, idx, |base|, inner, gc.next);
    var gl := GenExprs(s.last, idx, |base|, gb.next);
    ForParts(code, pc, gc.code, gb.code, gl.code, s.lp, |base|, top);
    var q := pc + 1 + |gc.code|;
    var m := q + |gb.code|;
    var t := m + 1 + |gl.code|;
    var s1, s2 := Here(pc, x, base, idx, st), Here(pc + 1, x, base, idx, st);
    if fuel == 0 {
      TimesOut(pl, code, s1, t + 2, base, idx, ls);
    } else {
      ReachSelf(pl, code, s2);
      var y := TestRuns(pl, code, s2, s, |base|, n, pc + 1, t + 1, x, base, idx, st);
      var (go, st1) := LoopHead(pl, s, 0, st);
      if !go {
        FallsNow(pl, code, s2, t + 2, y, base, idx, ls, fuel - 1, st1);
      } else {
        InnerLoopsOk(code, ls, s.lp, |base|, 0, m, t + 1);
        FindInside(ls, s.lp, |base|, 0, None);
        StmtRuns(pl, code, s2, s.body, inner, fuel - 1, gc.next, q, y, base, idx, st1);
        ForTurn(pl, code, s2, s, ls, fuel, top, n, pc, m, base, idx, Exec(pl, s.body, fuel - 1, st1));
      }
      LiftStep(pl, code, s1, s2, t + 2, base, idx, ls, fuel, ExecLoop(pl, s, fuel, 0, st));
    }
    Lift(pl, code, s0, s1, t + 2, base, idx, ls, fuel, ExecLoop(pl, s, fuel, 0, st));
  }

  lemma {:induction false} ForTurn(pl: Platform, code: seq<Instr>, s0: State, s: Stmt, ls: seq<LabelData>, fuel: nat,
                                   top: nat, n: nat, pc: nat, m: nat, base: seq<Int32>, idx: seq<nat>, out: Outcome)
    requires s.For? && fuel > 0 && WfStmt(s, |idx|, Names(ls))
    requires At(code, pc, GenForLoop(s, idx, |base|, ls, top, n).code)
    requires var gc := GenTest(s.test, s.lp.brk, idx, |base|, n);
      m == pc + 1 + |gc.code| + |GenStmt(s.body, idx, |base|, Enter(ls, s.lp, |base|, 0), gc.next).code|
    requires LabelsUnique(code) && LoopsOk(code, ls, |base|) && SlotsOk(idx, |base|)
    requires Ended(pl, code, s0, m, base, idx, Enter(ls, s.lp, |base|, 0), fuel - 1, out)
    ensures Ended(pl, code, s0, pc + |GenForLoop(s, idx, |base|, ls, top, n).code|, base, idx, ls, fuel - 1,
                  ExecTurn(pl, s, fuel, 0, out))
    decreases fuel, s, 0
  {
    hide Reaches, At, Exec, GenStmt, GenTest, GenExprs, EvalAll, LabelsUnique, LoopsOk, Ended;
    var gc := GenTest(s.test, s.lp.brk, idx, |base|, n);
    var gb := GenStmt(s.body, idx, |base|, Enter(ls, s.lp, |base|, 0), gc.next);
    var gl := GenExprs(s.last, idx, |base|, gb.next);
    ForParts(code, pc, gc.code, gb.code, gl.code, s.lp, |base|, top);
    var t := m + 1 + |gl.code|;
    if Again(s.lp.name, out) {
      BodyAgain(pl, code, s0, m, m, base, idx, ls, s.lp, |base|, 0, fuel - 1, out);
      var x: Int32 :| Arrives(pl, code, s0, m, x, base, idx, out.st);
      IAcc(pl, code, s0, m, x, base, idx, out.st);
      var y := ExprsRun(pl, code, s0, s.last, |base|, gb.next, m + 1, x, base, idx, out.st);
      var st1 := EvalAll(pl, s.last, out.st);
      IJump(pl, code, s0, t, pc, top, y, base, idx, st1);
      ForLoopRuns(pl, code, s0, s, ls, fuel - 1, top, n, pc, y, base, idx, st1);
    } else {
      assert base + [] == base;
      TurnOut(pl, code, s0, s, 0, ls, 0, fuel, m, t + 1, base, [], idx, out);
    }
  }

  // ----- repeat -----

  lemma {:induction false} RepeatRuns(pl: Platform, code: seq<Instr>, s0: State, s: Stmt, ls: seq<LabelData>,
                                      fuel: nat, n: nat, pc: nat, x: Int32, base: seq<Int32>, idx: seq<nat>, st: Store)
    requires s.Repeat? && WfStmt(s, |idx|, Names(ls))
    requires Stands(pl, code, s0, pc, GenRepeat(s, idx, |base|, ls, n).code, x, base, idx, ls, st)
    ensures Ended(pl, code, s0, pc + |GenRepeat(s, idx, |base|, ls, n).code|, base, idx, ls, fuel,
                  ExecRepeat(pl, s, fuel, st))
    decreases fuel, s, 2, 1
  {
    hide Reaches, At, ExecLoop, GenRepeatLoop, LabelsUnique, LoopsOk, Ended, Eval, GenExpr;
    var gn := GenExpr(s.number, idx, |base|, n + 2);
    var gl := GenRepeatLoop(s, idx, |base|, ls, n, gn.next);
    Cut(code, pc, gn.code, PushAlu, gl.code);
    ExprRuns(pl, code, s0, s.number, |base|, n + 2, pc, x, base, idx, st);
    var (c, st1) := Eval(pl, s.number, st);
    var q := pc + |gn.code|;
    IPush(pl, code, s0, q, c, base, idx, st1);
    RepeatLoopRuns(pl, code, s0, s, ls, fuel, n, gn.next, q + 1, c, base, idx, st1);
  }

  lemma RepeatParts(code: seq<Instr>, pc: nat, b: seq<Instr>, lp: LoopId, level: nat, top: nat)
    requires At(code, pc, [Label(top, level + 1), Jz(top + 1)] + b
      + [Label(lp.cont, level + 1), PopAlu, Dec, PushAlu, Jmp(top), Label(top + 1, level + 1), Pop(1),
         Label(lp.brk, level)])
    ensures At(code, pc + 2, b) && Labelled(code, pc, top, level + 1) && pc + 1 < |code| && code[pc + 1] == Jz(top + 1)
    ensures var m := pc + 2 + |b|;
      m + 8 <= |code| && Labelled(code, m, lp.cont, level + 1) && code[m + 1] == PopAlu && code[m + 2] == Dec
        && code[m + 3] == PushAlu
      && code[m + 4] == Jmp(top) && Labelled(code, m + 5, top + 1, level + 1) && code[m + 6] == Pop(1)
        && Labelled(code, m + 7, lp.brk, level)
  {
    var head := [Label(top, level + 1), Jz(top + 1)];
    var tail := [Label(lp.cont, level + 1), PopAlu, Dec, PushAlu, Jmp(top), Label(top + 1, level + 1), Pop(1),
                 Label(lp.brk, level)];
    AtSplit(code, pc, head + b, tail);
    AtSplit(code, pc, head, b);
    hide At;
    TwoLines(code, pc, head[0], head[1]);
    RepeatEnd(code, pc + 2 + |b|, lp, level, top);
  }

  lemma RepeatEnd(code: seq<Instr>, m: nat, lp: LoopId, level: nat, top: nat)
    requires At(code, m,
                [Label(lp.cont, level + 1), PopAlu, Dec, PushAlu, Jmp(top), Label(top + 1, level + 1), Pop(1),
                 Label(lp.brk, level)])
    ensures m + 8 <= |code| && Labelled(code, m, lp.cont, level + 1) && code[m + 1] == PopAlu && code[m + 2] == Dec
            && code[m + 3] == PushAlu
      && code[m + 4] == Jmp(top) && Labelled(code, m + 5, top + 1, level + 1) && code[m + 6] == Pop(1)
        && Labelled(code, m + 7, lp.brk, level)
  {
    Tail(code, m,
         [Label(lp.cont, level + 1), PopAlu, Dec, PushAlu, Jmp(top), Label(top + 1, level + 1), Pop(1),
          Label(lp.brk, level)]);
  }

  /** The loop of a `repeat`, with its counter c on the stack and in the accumulator. */
  lemma {:induction false} RepeatLoopRuns(pl: Platform, code: seq<Instr>, s0: State, s: Stmt, ls: seq<LabelData>,
                                          fuel: nat, top: nat, n: nat, pc: nat, c: Int32, base: seq<Int32>,
                                          idx: seq<nat>, st: Store)
    requires s.Repeat? && WfStmt(s, |idx|, Names(ls)) && SlotsOk(idx, |base|) && LoopsOk(code, ls, |base|)
    requires Ready(pl, code, s0, pc, GenRepeatLoop(s, idx, |base|, ls, top, n).code, c, base + [c], idx, st)
    ensures Ended(pl, code, s0, pc + |GenRepeatLoop(s, idx, |base|, ls, top, n).code|, base, idx, ls, fuel,
                  ExecLoop(pl, s, fuel, Count(c), st))
    decreases fuel, s, 2, 0
  {
    hide Reaches, At, Exec, GenStmt, LabelsUnique, LoopsOk, Ended, FindLabel, Names;
    var inner := Enter(ls, s.lp, |base|, 1);
    var gb := GenStmt(s.body, idx, |base| + 1, inner, n);
    RepeatParts(code, pc, gb.code, s.lp, |base|, top);
    var m := pc + 2 + |gb.code|;
    var more := base + [c];
    var s1, s2 := Here(pc, c, more, idx, st), Here(pc + 1, c, more, idx, st);
    if fuel == 0 {
      TimesOut(pl, code, s1, m + 8, base, idx, ls);
    } else {
      ReachSelf(pl, code, s2);
      CounterSteps(c);
      if c == 0 {
        RepeatStops(pl, code, s2, pc + 1, m, top, base, idx, st);
        FallsNow(pl, code, s2, m + 8, c, base, idx, ls, fuel - 1, st);
      } else {
        IFall(pl, code, s2, pc + 1, top + 1, c, more, idx, st);
        InnerLoopsOk(code, ls, s.lp, |base|, 1, m, m + 7);
        FindInside(ls, s.lp, |base|, 1, None);
        StmtRuns(pl, code, s2, s.body, inner, fuel - 1, n, pc + 2, c, more, idx, st);
        RepeatTurn(pl, code, s2, s, ls, fuel, top, n, pc, m, c, base, idx, Exec(pl, s.body, fuel - 1, st));
      }
      LiftStep(pl, code, s1, s2, m + 8, base, idx, ls, fuel, ExecLoop(pl, s, fuel, Count(c), st));
    }
    Lift(pl, code, s0, s1, m + 8, base, idx, ls, fuel, ExecLoop(pl, s, fuel, Count(c), st));
  }

  lemma {:induction false} RepeatTurn(pl: Platform, code: seq<Instr>, s0: State, s: Stmt, ls: seq<LabelData>, fuel: nat,
                                      top: nat, n: nat, pc: nat, m: nat, c: Int32, base: seq<Int32>, idx: seq<nat>,
                                        out: Outcome)
    requires s.Repeat? && fuel > 0 && WfStmt(s, |idx|, Names(ls)) && c != 0
    requires At(code, pc, GenRepeatLoop(s, idx, |base|, ls, top, n).code)
    requires m == pc + 2 + |GenStmt(s.body, idx, |base| + 1, Enter(ls, s.lp, |base|, 1), n).code|
    requires LabelsUnique(code) && LoopsOk(code, ls, |base|) && SlotsOk(idx, |base|)
    requires Ended(pl, code, s0, m, base + [c], idx, Enter(ls, s.lp, |base|, 1), fuel - 1, out)
    ensures Ended(pl, code, s0, m + 8, base, idx, ls, fuel - 1, ExecTurn(pl, s, fuel, Count(c), out))
    decreases fuel, s, 0
  {
    hide Reaches, At, Exec, GenStmt, LabelsUnique, LoopsOk, Ended;
    var gb := GenStmt(s.body, idx, |base| + 1, Enter(ls, s.lp, |base|, 1), n);
    RepeatParts(code, pc, gb.code, s.lp, |base|, top);
    if Again(s.lp.name, out) {
      var more := base + [c];
      BodyAgain(pl, code, s0, m, m, more, idx, ls, s.lp, |base|, 1, fuel - 1, out);
      var x: Int32 :| Arrives(pl, code, s0, m, x, more, idx, out.st);
      RepeatCount(pl, code, s0, top, pc, m, x, c, base, idx, out.st);
      CounterSteps(c);
      RepeatLoopRuns(pl, code, s0, s, ls, fuel - 1, top, n, pc, Wrap(c - 1), base, idx, out.st);
    } else {
      TurnOut(pl, code, s0, s, Count(c), ls, 1, fuel, m, m + 7, base, [c], idx, out);
    }
  }

  /** A used-up counter is dropped. */
  lemma RepeatStops(pl: Platform, code: seq<Instr>, s0: State, p: nat, m: nat, top: nat, base: seq<Int32>,
                    idx: seq<nat>, st: Store)
    requires Arrives(pl, code, s0, p, 0, base + [0], idx, st) && SlotsOk(idx, |base|) && LabelsUnique(code)
    requires p < |code| && code[p] == Jz(top + 1)
    requires m + 8 <= |code| && LabelAt(code, m + 5, top + 1) && code[m + 6] == Pop(1) && code[m + 7].Label?
    ensures Arrives(pl, code, s0, m + 8, 0, base, idx, st)
  {
    hide Reaches, LabelsUnique;
    IJump(pl, code, s0, p, m + 5, top + 1, 0, base + [0], idx, st);
    IPop(pl, code, s0, m + 6, 0, 0, base, idx, st);
    IAcc(pl, code, s0, m + 7, 0, base, idx, st);
  }

  /** From the continue label of a `repeat` back to its test, with the counter one lower. */
  lemma RepeatCount(pl: Platform, code: seq<Instr>, s0: State, top: nat, pc: nat, m: nat, x: Int32, c: Int32,
                    base: seq<Int32>, idx: seq<nat>, st: Store)
    requires Arrives(pl, code, s0, m, x, base + [c], idx, st) && SlotsOk(idx, |base|) && LabelsUnique(code)
    requires m + 5 <= |code| && code[m].Label? && code[m + 1] == PopAlu && code[m + 2] == Dec && code[m + 3] == PushAlu
    requires code[m + 4] == Jmp(top) && LabelAt(code, pc, top)
    ensures Arrives(pl, code, s0, pc, Wrap(c - 1), base + [Wrap(c - 1)], idx, st)
  {
    hide Reaches, LabelsUnique;
    var c' := Wrap(c - 1);
    IAcc(pl, code, s0, m, x, base + [c], idx, st);
    IPop(pl, code, s0, m + 1, x, c, base, idx, st);
    IAcc(pl, code, s0, m + 2, c, base, idx, st);
    IPush(pl, code, s0, m + 3, c', base, idx, st);
    IJump(pl, code, s0, m + 4, pc, top, c', base + [c'], idx, st);
  }

  // ----- case -----

  lemma {:induction false} CaseRuns(pl: Platform, code: seq<Instr>, s0: State, s: Stmt, ls: seq<LabelData>, fuel: nat,
                                    n: nat, pc: nat, x: Int32, base: seq<Int32>, idx: seq<nat>, st: Store)
    requires s.Case? && WfStmt(s, |idx|, Names(ls))
    requires Stands(pl, code, s0, pc, GenCase(s, idx, |base|, ls, n).code, x, base, idx, ls, st)
    ensures Ended(pl, code, s0, pc + |GenCase(s, idx, |base|, ls, n).code|, base, idx, ls, fuel,
                  ExecCase(pl, s, fuel, st))
    decreases fuel, s, 1
  {
    hide Reaches, At, Ended, ExecItems, GenItems, Eval, GenExpr, LoopsOk, LabelsUnique;
    var gc := GenExpr(s.cond, idx, |base|, n + 1);
    var gs := GenItems(s.items, n, idx, |base|, ls, gc.next);
    BinParts(code, pc, gc.code, PushAlu, gs.code, Label(n, |base|));
    var q := pc + |gc.code|;
    var t := q + 1 + |gs.code|;
    var (v, st1) := Eval(pl, s.cond, st);
    ExprRuns(pl, code, s0, s.cond, |base|, n + 1, pc, x, base, idx, st);
    IPush(pl, code, s0, q, v, base, idx, st1);
    ItemsRun(pl, code, s0, v, s.items, n, t, ls, fuel, gc.next, q + 1, v, base, idx, st1);
    EndJump(pl, code, s0, t, t, n, base, idx, ls, fuel, ExecItems(pl, v, s.items, fuel, st1));
  }

  /** The conditions of one item, with the compared value v on the stack: a hit jumps to q. */
  lemma {:induction false} MatchRuns(pl: Platform, code: seq<Instr>, s0: State, v: Int32, conds: seq<Expr>, hit: nat,
                                     q: nat, n: nat, pc: nat, x: Int32, base: seq<Int32>, idx: seq<nat>, st: Store)
    returns (y: Int32)
    requires WfExprs(conds, |idx|) && LabelAt(code, q, hit) && SlotsOk(idx, |base|)
    requires Ready(pl, code, s0, pc, GenMatch(conds, hit, idx, |base| + 1, n).code, x, base + [v], idx, st)
    ensures var (found, st') := MatchConds(pl, v, conds, st);
      if found then Arrives(pl, code, s0, q + 1, y, base + [v], idx, st')
      else Arrives(pl, code, s0, pc + |GenMatch(conds, hit, idx, |base| + 1, n).code|, y, base + [v], idx, st')
    decreases conds
  {
    hide Reaches, At, Eval, GenExpr, LabelsUnique;
    y := x;
    if conds != [] {
      var g := GenExpr(conds[0], idx, |base| + 1, n);
      var gs := GenMatch(conds[1..], hit, idx, |base| + 1, g.next);
      MatchParts(code, pc, g.code, hit, gs.code);
      var p := pc + |g.code|;
      ExprRuns(pl, code, s0, conds[0], |base| + 1, n, pc, x, base + [v], idx, st);
      var (z, st1) := Eval(pl, conds[0], st);
      ICmp(pl, code, s0, p, z, v, base, idx, st1);
      if v == z {
        IJump(pl, code, s0, p + 1, q, hit, 1, base + [v], idx, st1);
        y := 1;
      } else {
        IFall(pl, code, s0, p + 1, hit, 0, base + [v], idx, st1);
        y := MatchRuns(pl, code, s0, v, conds[1..], hit, q, g.next, p + 2, 0, base, idx, st1);
      }
    }
  }

  lemma MatchParts(code: seq<Instr>, pc: nat, e: seq<Instr>, hit: nat, r: seq<Instr>)
    requires At(code, pc, e + [Cmp, Jnz(hit)] + r)
    ensures At(code, pc, e) && At(code, pc + |e| + 2, r)
    ensures pc + |e| + 2 <= |code| && code[pc + |e|] == Cmp && code[pc + |e| + 1] == Jnz(hit)
  {
    AtSplit(code, pc, e + [Cmp, Jnz(hit)], r);
    AtSplit(code, pc, e, [Cmp, Jnz(hit)]);
    Tail(code, pc + |e|, [Cmp, Jnz(hit)]);
  }

  lemma ItemParts(code: seq<Instr>, pc: nat, m: seq<Instr>, b: seq<Instr>, r: seq<Instr>, exit: nat, level: nat, n: nat)
    requires At(code, pc, m + [Jmp(n + 1), Label(n, level + 1), Pop(1)] + b + [Jmp(exit), Label(n + 1, level + 1)] + r)
    ensures At(code, pc, m) && At(code, pc + |m| + 3, b) && At(code, pc + |m| + 3 + |b| + 2, r)
    ensures var q := pc + |m|;
      q + 3 + |b| + 2 <= |code| && code[q] == Jmp(n + 1) && Labelled(code, q + 1, n, level + 1) && code[q + 2] == Pop(1)
      && code[q + 3 + |b|] == Jmp(exit) && Labelled(code, q + 3 + |b| + 1, n + 1, level + 1)
  {
    var f, g := [Jmp(n + 1), Label(n, level + 1), Pop(1)], [Jmp(exit), Label(n + 1, level + 1)];
    AtSplit(code, pc, m + f + b + g, r);
    AtSplit(code, pc, m + f + b, g);
    AtSplit(code, pc, m + f, b);
    AtSplit(code, pc, m, f);
    Tail(code, pc + |m|, f);
    Tail(code, pc + |m| + 3 + |b|, g);
  }

  /** The items from here on, with the compared value v on the stack; all end at the exit label t. */
  lemma {:induction false} ItemsRun(pl: Platform, code: seq<Instr>, s0: State, v: Int32, items: Items, exit: nat,
                                    t: nat, ls: seq<LabelData>, fuel: nat, n: nat, pc: nat, x: Int32, base: seq<Int32>,
                                    idx: seq<nat>, st: Store)
    requires WfItems(items, |idx|, Names(ls)) && LabelAt(code, t, exit) && SlotsOk(idx, |base|)
             && LoopsOk(code, ls, |base|)
    requires Ready(pl, code, s0, pc, GenItems(items, exit, idx, |base|, ls, n).code, x, base + [v], idx, st)
    requires t == pc + |GenItems(items, exit, idx, |base|, ls, n).code|
    ensures Ended(pl, code, s0, t, base, idx, ls, fuel, ExecItems(pl, v, items, fuel, st))
    decreases fuel, items, 1
  {
    hide Reaches, At, Ended, Exec, GenStmt, GenMatch, MatchConds, LoopsOk, LabelsUnique;
    match items
    case NoItem =>
      AtOne(code, pc, Pop(1));
      IPop(pl, code, s0, pc, x, v, base, idx, st);
      FallsNow(pl, code, s0, t, x, base, idx, ls, fuel, st);
    case Default(body) =>
      var gb := GenStmt(body, idx, |base|, ls, n);
      DefaultParts(code, pc, gb.code, exit);
      IPop(pl, code, s0, pc, x, v, base, idx, st);
      StmtRuns(pl, code, s0, body, ls, fuel, n, pc + 1, x, base, idx, st);
      JumpBefore(pl, code, s0, pc + 1 + |gb.code|, t, exit, base, idx, ls, fuel, Exec(pl, body, fuel, st));
    case Item(conds, body, rest) =>
      ItemRuns(pl, code, s0, v, items, exit, t, ls, fuel, n, pc, x, base, idx, st);
  }

  lemma {:induction false} ItemRuns(pl: Platform, code: seq<Instr>, s0: State, v: Int32, items: Items, exit: nat,
                                    t: nat, ls: seq<LabelData>, fuel: nat, n: nat, pc: nat, x: Int32, base: seq<Int32>,
                                    idx: seq<nat>, st: Store)
    requires items.Item? && WfItems(items, |idx|, Names(ls)) && LabelAt(code, t, exit) && SlotsOk(idx, |base|)
             && LoopsOk(code, ls, |base|)
    requires Ready(pl, code, s0, pc, GenItems(items, exit, idx, |base|, ls, n).code, x, base + [v], idx, st)
    requires t == pc + |GenItems(items, exit, idx, |base|, ls, n).code|
    ensures Ended(pl, code, s0, t, base, idx, ls, fuel, ExecItems(pl, v, items, fuel, st))
    decreases fuel, items, 0
  {
    hide Reaches, At, Ended, Exec, GenStmt, GenMatch, MatchConds, LoopsOk, LabelsUnique, Names, Labelled;
    var gc := GenMatch(items.conds, n, idx, |base| + 1, n + 2);
    var gb := GenStmt(items.body, idx, |base|, ls, gc.next);
    var gr := GenItems(items.rest, exit, idx, |base|, ls, gb.next);
    ItemParts(code, pc, gc.code, gb.code, gr.code, exit, |base|, n);
    var q := pc + |gc.code|;
    var m := q + 3 + |gb.code|;
    var y := MatchRuns(pl, code, s0, v, items.conds, n, q + 1, n + 2, pc, x, base, idx, st);
    var (found, st1) := MatchConds(pl, v, items.conds, st);
    if found {
      IPop(pl, code, s0, q + 2, y, v, base, idx, st1);
      StmtRuns(pl, code, s0, items.body, ls, fuel, gc.next, q + 3, y, base, idx, st1);
      JumpBefore(pl, code, s0, m, t, exit, base, idx, ls, fuel, Exec(pl, items.body, fuel, st1));
    } else {
      IJump(pl, code, s0, q, m + 1, n + 1, y, base + [v], idx, st1);
      ItemsRun(pl, code, s0, v, items.rest, exit, t, ls, fuel, gb.next, m + 2, y, base, idx, st1);
    }
  }

  lemma DefaultParts(code: seq<Instr>, pc: nat, b: seq<Instr>, exit: nat)
    requires At(code, pc, [Pop(1)] + b + [Jmp(exit)])
    ensures At(code, pc + 1, b) && pc + 1 + |b| < |code| && code[pc] == Pop(1) && code[pc + 1 + |b|] == Jmp(exit)
  {
    AtSplit(code, pc, [Pop(1)] + b, [Jmp(exit)]);
    AtSplit(code, pc, [Pop(1)], b);
    AtOne(code, pc, Pop(1));
    AtOne(code, pc + 1 + |b|, Jmp(exit));
  }

  // ----- blocks -----

  lemma {:induction false} SeqRuns(pl: Platform, code: seq<Instr>, s0: State, ss: seq<Stmt>, ls: seq<LabelData>,
                                   fuel: nat, n: nat, pc: nat, x: Int32, base: seq<Int32>, idx: seq<nat>, st: Store)
    requires WfSeq(ss, |idx|, Names(ls))
    requires Stands(pl, code, s0, pc, GenSeq(ss, idx, |base|, ls, n).code, x, base, idx, ls, st)
    ensures Ended(pl, code, s0, pc + |GenSeq(ss, idx, |base|, ls, n).code|, base, idx, ls, fuel,
                  ExecSeq(pl, ss, fuel, st))
    decreases fuel, ss, 1
  {
    hide Reaches, At, Exec, GenStmt, LoopsOk, LabelsUnique;
    if ss == [] {
      FallsNow(pl, code, s0, pc, x, base, idx, ls, fuel, st);
    } else {
      var g := GenStmt(ss[0], idx, |base|, ls, n);
      var gs := GenSeq(ss[1..], idx, |base|, ls, g.next);
      AtSplit(code, pc, g.code, gs.code);
      StmtRuns(pl, code, s0, ss[0], ls, fuel, n, pc, x, base, idx, st);
      var out := Exec(pl, ss[0], fuel, st);
      if out.Normal? {
        var y: Int32 :| Arrives(pl, code, s0, pc + |g.code|, y, base, idx, out.st);
        SeqRuns(pl, code, s0, ss[1..], ls, fuel, g.next, pc + |g.code|, y, base, idx, out.st);
      }
    }
  }

  /** Slots at or above a height do not matter to the cells below it. */
  lemma {:induction false} MemHigh(base: seq<Int32>, idx: seq<nat>, high: seq<nat>, vals: seq<Int32>, level: nat)
    requires |vals| == |idx| + |high| && SlotsOk(idx + high, |base|) && SlotsOk(idx, |base|) && level <= |base|
    requires forall i | 0 <= i < |high| :: level <= high[i]
    ensures Mem(base, idx + high, vals)[..level] == Mem(base, idx, vals[..|idx|])[..level]
    decreases |high|
  {
    if high == [] {
      assert idx + high == idx && vals[..|idx|] == vals;
    } else {
      var last := |high| - 1;
      var all := idx + high;
      assert all[..|all| - 1] == idx + high[..last];
      MemHigh(base, idx, high[..last], vals[..|vals| - 1], level);
      assert vals[..|vals| - 1][..|idx|] == vals[..|idx|];
    }
  }

  /** Leaving a block: what is left of its frame is the frame around it. */
  lemma MemBlock(base: seq<Int32>, idx: seq<nat>, k: nat, vals: seq<Int32>)
    requires |vals| == |idx| + k && SlotsOk(idx, |base|)
    ensures SlotsOk(idx + Slots(|base|, k), |base + Zeros(k)|)
    ensures Mem(base + Zeros(k), idx + Slots(|base|, k), vals)[..|base|] == Mem(base, idx, vals[..|idx|])
  {
    MemHigh(base + Zeros(k), idx, Slots(|base|, k), vals, |base|);
    MemAppend(base, Zeros(k), idx, vals[..|idx|]);
  }

  /** `lvar` gives the next slot of the frame, holding zero, to a new local. */
  lemma IVar(pl: Platform, code: seq<Instr>, s0: State, pc: nat, x: Int32, base: seq<Int32>, idx: seq<nat>, st: Store)
    requires Arrives(pl, code, s0, pc, x, base, idx, st) && pc < |code| && code[pc] == LVar(|base|)
    ensures Arrives(pl, code, s0, pc + 1, x, base + [0], idx + [|base|], st.(locals := st.locals + [0]))
  {
    MemAppend(base, [0], idx, st.locals);
    var idx1, vals1 := idx + [|base|], st.locals + [0];
    assert idx1[..|idx|] == idx && vals1[..|idx|] == st.locals;
    var m: seq<Int32> := Mem(base, idx, st.locals) + [0];
    assert m[|base| := 0] == m;
    Extend(pl, code, s0, Here(pc, x, base, idx, st),
           Here(pc + 1, x, base + [0], idx1, st.(locals := vals1)));
  }

  lemma {:induction false} VarsRun(pl: Platform, code: seq<Instr>, s0: State, k: nat, pc: nat, x: Int32,
                                   base: seq<Int32>, idx: seq<nat>, st: Store)
    requires Ready(pl, code, s0, pc, LVars(|base|, k), x, base, idx, st)
    ensures Arrives(pl, code, s0, pc + k, x, base + Zeros(k), idx + Slots(|base|, k),
                    st.(locals := st.locals + Zeros(k)))
    decreases k
  {
    hide Reaches, LabelsUnique, At, Arrives;
    if k == 0 {
      assert base + Zeros(0) == base && idx + Slots(|base|, 0) == idx && st.locals + Zeros(0) == st.locals;
    } else {
      var j := k - 1;
      assert LVars(|base|, k) == LVars(|base|, j) + [LVar(|base| + j)];
      AtSplit(code, pc, LVars(|base|, j), [LVar(|base| + j)]);
      AtOne(code, pc + j, LVar(|base| + j));
      VarsRun(pl, code, s0, j, pc, x, base, idx, st);
      IVar(pl, code, s0, pc + j, x, base + Zeros(j), idx + Slots(|base|, j), st.(locals := st.locals + Zeros(j)));
      assert base + Zeros(j) + [0] == base + Zeros(k);
      assert idx + Slots(|base|, j) + [|base| + j] == idx + Slots(|base|, k);
      assert st.locals + Zeros(j) + [0] == st.locals + Zeros(k);
    }
  }

  lemma {:induction false} InitsRun(pl: Platform, code: seq<Instr>, s0: State, vars: seq<Option<Expr>>, v: nat, h: nat,
                                    n: nat, pc: nat, x: Int32, base: seq<Int32>, idx: seq<nat>, st: Store)
    returns (y: Int32)
    requires WfInits(vars, |idx|) && v + |vars| <= |idx|
    requires Ready(pl, code, s0, pc, GenInits(vars, v, idx, h, n).code, x, base, idx, st)
    ensures Arrives(pl, code, s0, pc + |GenInits(vars, v, idx, h, n).code|, y, base, idx, ExecInits(pl, vars, v, st))
    decreases |vars|
  {
    hide Reaches, At, LabelsUnique, Eval, GenExpr;
    y := x;
    if vars != [] {
      if vars[0].None? {
        y := InitsRun(pl, code, s0, vars[1..], v + 1, h, n, pc, x, base, idx, st);
      } else {
        var e := Assign(v, vars[0].value);
        var g := GenExpr(e, idx, h, n);
        var gs := GenInits(vars[1..], v + 1, idx, h, g.next);
        AtSplit(code, pc, g.code, gs.code);
        ExprRuns(pl, code, s0, e, h, n, pc, x, base, idx, st);
        var (z, st1) := Eval(pl, e, st);
        y := InitsRun(pl, code, s0, vars[1..], v + 1, h, g.next, pc + |g.code|, z, base, idx, st1);
      }
    }
  }

  lemma BlockParts(code: seq<Instr>, pc: nat, v: seq<Instr>, i: seq<Instr>, b: seq<Instr>, p: seq<Instr>)
    requires At(code, pc, v + i + b + p)
    ensures At(code, pc, v) && At(code, pc + |v|, i) && At(code, pc + |v| + |i|, b) && At(code, pc + |v| + |i| + |b|, p)
  {
    AtSplit(code, pc, v + i + b, p);
    AtSplit(code, pc, v + i, b);
    AtSplit(code, pc, v, i);
  }

  lemma {:induction false} BlockRuns(pl: Platform, code: seq<Instr>, s0: State, s: Stmt, ls: seq<LabelData>, fuel: nat,
                                     n: nat, pc: nat, x: Int32, base: seq<Int32>, idx: seq<nat>, st: Store)
    requires s.Block? && WfStmt(s, |idx|, Names(ls))
    requires Stands(pl, code, s0, pc, GenBlock(s, idx, |base|, ls, n).code, x, base, idx, ls, st)
    ensures Ended(pl, code, s0, pc + |GenBlock(s, idx, |base|, ls, n).code|, base, idx, ls, fuel,
                  ExecBlock(pl, s, fuel, st))
    decreases fuel, s, 1
  {
    hide Reaches, At, ExecSeq, GenSeq, GenInits, ExecInits, LabelsUnique, LoopsOk, Ended, LVars, LeaveBlock;
    var k := |s.vars|;
    var idx1 := idx + Slots(|base|, k);
    var base1 := base + Zeros(k);
    var gi := GenInits(s.vars, |idx|, idx1, |base| + k, n);
    var gs := GenSeq(s.stmts, idx1, |base| + k, ls, gi.next);
    BlockParts(code, pc, LVars(|base|, k), gi.code, gs.code, PopIf(k));
    var st1 := st.(locals := st.locals + Zeros(k));
    VarsRun(pl, code, s0, k, pc, x, base, idx, st);
    var q := pc + |LVars(|base|, k)|;
    LVarsLength(|base|, k);
    var y := InitsRun(pl, code, s0, s.vars, |idx|, |base| + k, n, q, x, base1, idx1, st1);
    var st2 := ExecInits(pl, s.vars, |idx|, st1);
    var t := q + |gi.code|;
    HigherLoopsOk(code, ls, |base|, |base1|);
    SeqRuns(pl, code, s0, s.stmts, ls, fuel, gi.next, t, y, base1, idx1, st2);
    BlockEnds(pl, code, s0, t + |gs.code|, k, base, idx, ls, fuel, ExecSeq(pl, s.stmts, fuel, st2));
  }

  lemma LVarsLength(level: nat, k: nat)
    ensures |LVars(level, k)| == k
  {
  }

  lemma HigherLoopsOk(code: seq<Instr>, ls: seq<LabelData>, level: nat, level1: nat)
    requires LoopsOk(code, ls, level) && level <= level1
    ensures LoopsOk(code, ls, level1)
  {
  }

  lemma BlockEnds(pl: Platform, code: seq<Instr>, s0: State, pc: nat, k: nat, base: seq<Int32>, idx: seq<nat>,
                  ls: seq<LabelData>, fuel: nat, out: Outcome)
    requires SlotsOk(idx, |base|) && At(code, pc, PopIf(k)) && LoopsOk(code, ls, |base|)
    requires Ended(pl, code, s0, pc, base + Zeros(k), idx + Slots(|base|, k), ls, fuel, out)
    ensures Ended(pl, code, s0, pc + |PopIf(k)|, base, idx, ls, fuel, LeaveBlock(|idx|, out))
  {
    hide Reaches, At, LoopsOk, Mem;
    if !out.Timeout? {
      MemBlock(base, idx, k, out.st.locals);
      var out' := LeaveBlock(|idx|, out);
      var stack := Mem(base + Zeros(k), idx + Slots(|base|, k), out.st.locals);
      if out.Normal? {
        var x: Int32 :| Arrives(pl, code, s0, pc, x, base + Zeros(k), idx + Slots(|base|, k), out.st);
        IPopN(pl, code, s0, pc, x, stack, out.st.now, k);
        assert Arrives(pl, code, s0, pc + |PopIf(k)|, x, base, idx, out'.st);
      } else {
        FoundLoop(code, ls, |base|, out.target);
        var lb := FindLabel(ls, out.target).value;
        var h := if out.Broke? then lb.level else lb.level + lb.rpt;
        assert stack[..h] == stack[..|base|][..h];
      }
    }
  }
}
