/**
How often the machine runs the body of a `repeat`: it comes to the head of the emitted loop once
for every turn of the source and once more to leave it, and at no other time.

That the body does not come to the head on its own is shown by stopping the machine there: the
code with the test behind the head replaced by an instruction that cannot be executed still runs
the body to its end, so the body does not need it.
*/
module Passes {
  import opened Machine
  import opened Source
  import opened CodeGen
  import opened Thread
  import opened ExprCorrect
  import opened StmtCorrect
  import opened CompilerCorrect

  // ----- Visits -----

  /** How many of the first n states from st on are at position pc. */
  function Visits(pl: Platform, code: seq<Instr>, st: State, pc: nat, n: nat): nat
    decreases n
  {
    if n == 0 then 0
    else
      (if st.pc == pc then 1 else 0)
      + match Step(pl, code, st)
        case None => 0
        case Some(st1) => Visits(pl, code, st1, pc, n - 1)
  }

  lemma {:induction false} VisitsCompose(pl: Platform, code: seq<Instr>, st: State, pc: nat, m: nat, n: nat)
    requires Run(pl, code, st, m).Some?
    ensures Visits(pl, code, st, pc, m + n)
            == Visits(pl, code, st, pc, m) + Visits(pl, code, Run(pl, code, st, m).value, pc, n)
    decreases m
  {
    hide Step;
    if m > 0 {
      VisitsCompose(pl, code, Step(pl, code, st).value, pc, m - 1, n);
    }
  }

  /** From a the machine comes to b, and on the way it is k times at position pc, b not counted. */
  ghost predicate Passes(pl: Platform, code: seq<Instr>, a: State, b: State, pc: nat, k: nat) {
    exists n: nat :: Run(pl, code, a, n) == Some(b) && Visits(pl, code, a, pc, n) == k
  }

  lemma PassTrans(pl: Platform, code: seq<Instr>, a: State, b: State, c: State, pc: nat, j: nat, k: nat)
    requires Passes(pl, code, a, b, pc, j) && Passes(pl, code, b, c, pc, k)
    ensures Passes(pl, code, a, c, pc, j + k)
  {
    hide Run, Visits;
    var m: nat :| Run(pl, code, a, m) == Some(b) && Visits(pl, code, a, pc, m) == j;
    var n: nat :| Run(pl, code, b, n) == Some(c) && Visits(pl, code, b, pc, n) == k;
    RunCompose(pl, code, a, m, n);
    VisitsCompose(pl, code, a, pc, m, n);
  }

  lemma PassSelf(pl: Platform, code: seq<Instr>, a: State, pc: nat)
    ensures Passes(pl, code, a, a, pc, 0)
  {
    assert Run(pl, code, a, 0) == Some(a) && Visits(pl, code, a, pc, 0) == 0;
  }

  lemma PassStep(pl: Platform, code: seq<Instr>, a: State, b: State, pc: nat)
    requires Step(pl, code, a) == Some(b)
    ensures Passes(pl, code, a, b, pc, if a.pc == pc then 1 else 0)
  {
    hide Step;
    assert Run(pl, code, b, 0) == Some(b) && Visits(pl, code, b, pc, 0) == 0;
    assert Run(pl, code, a, 1) == Some(b) && Visits(pl, code, a, pc, 1) == if a.pc == pc then 1 else 0;
  }

  // ----- Stopping the machine -----

  /** The code with an instruction in place q that cannot be executed. */
  function Stopped(code: seq<Instr>, q: nat): (r: seq<Instr>)
    requires q < |code|
    ensures |r| == |code| && r[q] == Pop(-1) && forall i | 0 <= i < |code| && i != q :: r[i] == code[i]
  {
    code[q := Pop(-1)]
  }

  lemma {:induction false} StoppedFind(code: seq<Instr>, q: nat, l: nat)
    requires q < |code| && !code[q].Label?
    ensures Find(Stopped(code, q), l) == Find(code, l)
    decreases q
  {
    if q > 0 {
      StoppedFind(code[1..], q - 1, l);
      assert Stopped(code, q)[1..] == Stopped(code[1..], q - 1);
    } else {
      assert Stopped(code, q)[1..] == code[1..];
    }
  }

  lemma StoppedAt(code: seq<Instr>, q: nat, pc: nat, frag: seq<Instr>)
    requires q < |code| && At(code, pc, frag) && (q < pc || pc + |frag| <= q)
    ensures At(Stopped(code, q), pc, frag)
  {
    var r := Stopped(code, q);
    assert r[pc..pc + |frag|] == code[pc..pc + |frag|];
  }

  lemma StoppedLabels(code: seq<Instr>, q: nat, ls: seq<LabelData>, level: nat)
    requires q < |code| && !code[q].Label? && LabelsUnique(code) && LoopsOk(code, ls, level)
    ensures LabelsUnique(Stopped(code, q)) && LoopsOk(Stopped(code, q), ls, level)
  {
    hide Find, Stopped;
    forall i | 0 <= i < |ls|
      ensures Find(Stopped(code, q), ls[i].brk) < |code| && Find(Stopped(code, q), ls[i].cont) < |code|
    {
      StoppedFind(code, q, ls[i].brk);
      StoppedFind(code, q, ls[i].cont);
    }
  }

  lemma SameStep(pl: Platform, code: seq<Instr>, q: nat, st: State)
    requires q < |code| && !code[q].Label?
    ensures Step(pl, Stopped(code, q), st) == if st.pc == q then None else Step(pl, code, st)
  {
    hide Find;
    if st.pc < |code| {
      match code[st.pc]
      case Jmp(l) => StoppedFind(code, q, l);
      case Jz(l) => StoppedFind(code, q, l);
      case Jnz(l) => StoppedFind(code, q, l);
      case _ =>
    }
  }

  /** What the stopped code does, the code does as well, and without coming to the label before. */
  lemma {:induction false} SameRun(pl: Platform, code: seq<Instr>, h: nat, st: State, n: nat)
    requires h + 1 < |code| && code[h].Label? && !code[h + 1].Label?
    requires Run(pl, Stopped(code, h + 1), st, n).Some? && Run(pl, Stopped(code, h + 1), st, n).value.pc != h + 1
    ensures Run(pl, code, st, n) == Run(pl, Stopped(code, h + 1), st, n) && Visits(pl, code, st, h, n) == 0
    decreases n
  {
    hide Step, Stopped;
    if n > 0 {
      SameStep(pl, code, h + 1, st);
      var st1 := Step(pl, Stopped(code, h + 1), st).value;
      SameRun(pl, code, h, st1, n - 1);
      if st.pc == h {
        LabelStep(pl, code, st);
        SameStep(pl, code, h + 1, st1);
      }
    }
  }

  lemma LabelStep(pl: Platform, code: seq<Instr>, st: State)
    requires st.pc < |code| && code[st.pc].Label?
    ensures Step(pl, code, st).Some? && Step(pl, code, st).value.pc == st.pc + 1
  {
  }

  lemma SamePass(pl: Platform, code: seq<Instr>, h: nat, a: State, b: State)
    requires h + 1 < |code| && code[h].Label? && !code[h + 1].Label?
    requires Reaches(pl, Stopped(code, h + 1), a, b) && b.pc != h + 1
    ensures Passes(pl, code, a, b, h, 0)
  {
    hide Run, Stopped;
    var n: nat :| Run(pl, Stopped(code, h + 1), a, n) == Some(b);
    SameRun(pl, code, h, a, n);
  }

  // ----- The turns of a repeat -----

  /** The locals lie in their slots, and the loop stands at pc among its enclosing loops. */
  ghost predicate Looping(code: seq<Instr>, s: Stmt, ls: seq<LabelData>, top: nat, n: nat, pc: nat, base: seq<Int32>,
                          idx: seq<nat>, st: Store)
  {
    && s.Repeat? && WfStmt(s, |idx|, Names(ls)) && SlotsOk(idx, |base|) && |st.locals| == |idx|
    && LabelsUnique(code) && LoopsOk(code, ls, |base|)
    && At(code, pc, GenRepeatLoop(s, idx, |base|, ls, top, n).code)
  }

  /** The head of the loop with the counter c on the stack and in the accumulator. */
  ghost function Head(pc: nat, c: Int32, base: seq<Int32>, idx: seq<nat>, st: Store): State
    requires SlotsOk(idx, |base|) && |st.locals| == |idx|
  {
    Here(pc, c, base + [c], idx, st)
  }

  /** From the body to the head again, in any code that has the loop but for its test. */
  lemma BodyRuns(pl: Platform, code: seq<Instr>, s0: State, s: Stmt, ls: seq<LabelData>, fuel: nat, top: nat,
                 n: nat, pc: nat, m: nat, c: Int32, base: seq<Int32>, idx: seq<nat>, st: Store)
    requires s.Repeat? && WfStmt(s, |idx|, Names(ls)) && SlotsOk(idx, |base|)
    requires LabelsUnique(code) && LoopsOk(code, ls, |base|) && Again(s.lp.name, Exec(pl, s.body, fuel, st))
    requires var b := GenStmt(s.body, idx, |base| + 1, Enter(ls, s.lp, |base|, 1), n).code;
      At(code, pc + 2, b) && m == pc + 2 + |b|
    requires LabelAt(code, pc, top) && m + 8 <= |code| && LabelAt(code, m, s.lp.cont) && LabelAt(code, m + 7, s.lp.brk)
    requires code[m + 1] == PopAlu && code[m + 2] == Dec && code[m + 3] == PushAlu && code[m + 4] == Jmp(top)
    requires Arrives(pl, code, s0, pc + 2, c, base + [c], idx, st)
    ensures Arrives(pl, code, s0, pc, Wrap(c - 1), base + [Wrap(c - 1)], idx, Exec(pl, s.body, fuel, st).st)
  {
    hide Reaches, At, Exec, GenStmt, LabelsUnique, LoopsOk, Ended, FindLabel, Names;
    var inner, more := Enter(ls, s.lp, |base|, 1), base + [c];
    InnerLoopsOk(code, ls, s.lp, |base|, 1, m, m + 7);
    FindInside(ls, s.lp, |base|, 1, None);
    StmtRuns(pl, code, s0, s.body, inner, fuel, n, pc + 2, c, more, idx, st);
    var out := Exec(pl, s.body, fuel, st);
    BodyAgain(pl, code, s0, m, m, more, idx, ls, s.lp, |base|, 1, fuel, out);
    var x: Int32 :| Arrives(pl, code, s0, m, x, more, idx, out.st);
    RepeatCount(pl, code, s0, top, pc, m, x, c, base, idx, out.st);
  }

  /** One turn of the emitted loop: from its head to its head again for the first time, the counter
      one lower. */
  lemma TurnPasses(pl: Platform, code: seq<Instr>, s: Stmt, ls: seq<LabelData>, fuel: nat, top: nat, n: nat, pc: nat,
                   c: Int32, base: seq<Int32>, idx: seq<nat>, st: Store)
    requires Looping(code, s, ls, top, n, pc, base, idx, st) && c != 0
    requires Again(s.lp.name, Exec(pl, s.body, fuel, st))
    ensures var st1 := Exec(pl, s.body, fuel, st).st;
      |st1.locals| == |idx|
      && Passes(pl, code, Head(pc, c, base, idx, st), Head(pc, Wrap(c - 1), base, idx, st1), pc, 1)
  {
    hide Reaches, At, Exec, GenStmt, LabelsUnique, LoopsOk, Names, Stopped, Mem, Passes;
    var b := GenStmt(s.body, idx, |base| + 1, Enter(ls, s.lp, |base|, 1), n).code;
    RepeatParts(code, pc, b, s.lp, |base|, top);
    var m, code1 := pc + 2 + |b|, Stopped(code, pc + 1);
    StoppedLabels(code, pc + 1, ls, |base|);
    StoppedAt(code, pc + 1, pc + 2, b);
    MemAppend(base, [c], idx, st.locals);
    var h0, h1, h2 := Head(pc, c, base, idx, st), Here(pc + 1, c, base + [c], idx, st),
      Here(pc + 2, c, base + [c], idx, st);
    ReachSelf(pl, code1, h2);
    BodyRuns(pl, code1, h2, s, ls, fuel, top, n, pc, m, c, base, idx, st);
    var h3 := Head(pc, Wrap(c - 1), base, idx, Exec(pl, s.body, fuel, st).st);
    SamePass(pl, code, pc, h2, h3);
    PassStep(pl, code, h0, h1, pc);
    PassStep(pl, code, h1, h2, pc);
    PassTrans(pl, code, h0, h1, h2, pc, 1, 0);
    PassTrans(pl, code, h0, h2, h3, pc, 1, 0);
  }

  /** From the head of a `repeat` loop the machine comes to the head after every turn that the source
      makes, in the store that the turn left, with the counter lower by the number of turns; and on
      the way it is at the head no more often than there are turns. */
  lemma {:induction false} RepeatPasses(pl: Platform, code: seq<Instr>, s: Stmt, ls: seq<LabelData>, fuel: nat,
                                        top: nat, n: nat, pc: nat, c: Int32, base: seq<Int32>, idx: seq<nat>,
                                        st: Store, j: nat)
    returns (left: Int32)
    requires Looping(code, s, ls, top, n, pc, base, idx, st)
    requires var outs := BodyOutcomes(pl, s, fuel, Count(c), st);
      j <= |outs| && forall i | 0 <= i < j :: Again(s.lp.name, outs[i])
    ensures Count(left) == Count(c) - j
    ensures var st1 := if j == 0 then st else BodyOutcomes(pl, s, fuel, Count(c), st)[j - 1].st;
      |st1.locals| == |idx|
      && Passes(pl, code, Head(pc, c, base, idx, st), Head(pc, left, base, idx, st1), pc, j)
    decreases j
  {
    hide Exec, GenRepeatLoop, At, LabelsUnique, LoopsOk, WfStmt, Names, Passes, Here;
    left := c;
    if j > 0 {
      var out := Exec(pl, s.body, fuel - 1, st);
      var outs := BodyOutcomes(pl, s, fuel, Count(c), st);
      assert outs[0] == out;
      CounterSteps(c);
      TurnPasses(pl, code, s, ls, fuel - 1, top, n, pc, c, base, idx, st);
      var c1 := Wrap(c - 1);
      var rest := BodyOutcomes(pl, s, fuel - 1, Count(c1), out.st);
      assert outs == [out] + rest;
      forall i | 0 <= i < j - 1 ensures Again(s.lp.name, rest[i]) {
        assert rest[i] == outs[i + 1];
      }
      left := RepeatPasses(pl, code, s, ls, fuel - 1, top, n, pc, c1, base, idx, out.st, j - 1);
      var st1 := if j == 1 then out.st else rest[j - 2].st;
      PassTrans(pl, code, Head(pc, c, base, idx, st), Head(pc, c1, base, idx, out.st), Head(pc, left, base, idx, st1),
                pc, 1, j - 1);
    } else {
      PassSelf(pl, code, Head(pc, c, base, idx, st), pc);
    }
  }

  /** The counter is zero: the machine leaves the loop, and is at the head this once. */
  lemma LeavePasses(pl: Platform, code: seq<Instr>, s: Stmt, ls: seq<LabelData>, top: nat, n: nat, pc: nat,
                    base: seq<Int32>, idx: seq<nat>, st: Store)
    requires Looping(code, s, ls, top, n, pc, base, idx, st)
    ensures var end := pc + |GenRepeatLoop(s, idx, |base|, ls, top, n).code|;
      Passes(pl, code, Head(pc, 0, base, idx, st), Here(end, 0, base, idx, st), pc, 1)
  {
    hide Reaches, At, GenStmt, LabelsUnique, LoopsOk, Names, Stopped, Mem, Passes;
    var b := GenStmt(s.body, idx, |base| + 1, Enter(ls, s.lp, |base|, 1), n).code;
    RepeatParts(code, pc, b, s.lp, |base|, top);
    var m, code1, more := pc + 2 + |b|, Stopped(code, pc + 1), base + [0];
    StoppedLabels(code, pc + 1, ls, |base|);
    FindUnique(code, m + 5, top + 1);
    MemAppend(base, [0], idx, st.locals);
    var h0, h1, h2 := Head(pc, 0, base, idx, st), Here(pc + 1, 0, more, idx, st), Here(m + 5, 0, more, idx, st);
    ReachSelf(pl, code1, h2);
    IAcc(pl, code1, h2, m + 5, 0, more, idx, st);
    IPop(pl, code1, h2, m + 6, 0, 0, base, idx, st);
    IAcc(pl, code1, h2, m + 7, 0, base, idx, st);
    var h3 := Here(m + 8, 0, base, idx, st);
    SamePass(pl, code, pc, h2, h3);
    PassStep(pl, code, h0, h1, pc);
    PassStep(pl, code, h1, h2, pc);
    PassTrans(pl, code, h0, h1, h2, pc, 1, 0);
    PassTrans(pl, code, h0, h2, h3, pc, 1, 0);
  }

  /** A `repeat` whose body always goes through, or ends with a continue of this loop: between the head
      and the end of the loop the machine is at the head exactly once more than the counter says. */
  lemma RepeatRunsExactly(pl: Platform, code: seq<Instr>, s: Stmt, ls: seq<LabelData>, fuel: nat, top: nat, n: nat,
                          pc: nat, c: Int32, base: seq<Int32>, idx: seq<nat>, st: Store)
    requires Looping(code, s, ls, top, n, pc, base, idx, st)
    requires var outs := BodyOutcomes(pl, s, fuel, Count(c), st);
      !ExecLoop(pl, s, fuel, Count(c), st).Timeout? && forall i | 0 <= i < |outs| :: Again(s.lp.name, outs[i])
    ensures |BodyOutcomes(pl, s, fuel, Count(c), st)| == Count(c)
    ensures var end := pc + |GenRepeatLoop(s, idx, |base|, ls, top, n).code|;
      var st1 := if Count(c) == 0 then st else BodyOutcomes(pl, s, fuel, Count(c), st)[Count(c) - 1].st;
      |st1.locals| == |idx|
      && Passes(pl, code, Head(pc, c, base, idx, st), Here(end, 0, base, idx, st1), pc, Count(c) + 1)
  {
    hide Exec, GenRepeatLoop, At, LabelsUnique, LoopsOk, WfStmt, Names, Passes, Here, BodyOutcomes,
      ExecLoop;
    RepeatTurns(pl, s, fuel, Count(c), st);
    var left := RepeatPasses(pl, code, s, ls, fuel, top, n, pc, c, base, idx, st, Count(c));
    var st1 := if Count(c) == 0 then st else BodyOutcomes(pl, s, fuel, Count(c), st)[Count(c) - 1].st;
    CountZero(left);
    LeavePasses(pl, code, s, ls, top, n, pc, base, idx, st1);
    var end := pc + |GenRepeatLoop(s, idx, |base|, ls, top, n).code|;
    PassTrans(pl, code, Head(pc, c, base, idx, st), Head(pc, 0, base, idx, st1), Here(end, 0, base, idx, st1), pc,
              Count(c), 1);
  }

  lemma CountZero(c: Int32)
    ensures Count(c) == 0 <==> c == 0
  {
  }
}
