/**
The compiled program as a whole: it stops exactly when the source program does, in the state
that the source program ends in, and it is never stuck on the way.
*/
module CompilerCorrect {
  import opened Machine
  import opened Source
  import opened CodeGen
  import opened Thread
  import opened ExprCorrect
  import opened StmtCorrect
  import opened Labels

  /** A statement the parser accepts as the body of a function whose arguments lie in the slots idx. */
  ghost predicate Program(s: Stmt, idx: seq<nat>, stack: seq<Int32>, n: nat) {
    WfStmt(s, |idx|, []) && Numbered(s, n) && SlotsOk(idx, |stack|)
  }

  ghost function LocalsIn(stack: seq<Int32>, idx: seq<nat>): seq<Int32>
    requires SlotsOk(idx, |stack|)
  {
    seq(|idx|, i requires 0 <= i < |idx| => stack[idx[i]])
  }

  /** A state from which the machine goes no further. */
  ghost predicate Stops(pl: Platform, code: seq<Instr>, s0: State, end: State) {
    Reaches(pl, code, s0, end) && Step(pl, code, end) == None
  }

  lemma {:induction false} MemSelf(stack: seq<Int32>, idx: seq<nat>)
    requires SlotsOk(idx, |stack|)
    ensures Mem(stack, idx, LocalsIn(stack, idx)) == stack
    decreases |idx|
  {
    if idx != [] {
      var last := |idx| - 1;
      MemSelf(stack, idx[..last]);
      assert LocalsIn(stack, idx)[..last] == LocalsIn(stack, idx[..last]);
    }
  }

  lemma StopIsUnique(pl: Platform, code: seq<Instr>, s0: State, a: State, b: State)
    requires Stops(pl, code, s0, a) && Stops(pl, code, s0, b)
    ensures a == b
  {
    var m: nat :| Run(pl, code, s0, m) == Some(a);
    var n: nat :| Run(pl, code, s0, n) == Some(b);
    if m < n {
      StopsShort(pl, code, s0, a, m, n);
    } else if n < m {
      StopsShort(pl, code, s0, b, n, m);
    }
  }

  lemma StopsShort(pl: Platform, code: seq<Instr>, s0: State, a: State, m: nat, n: nat)
    requires Run(pl, code, s0, m) == Some(a) && Step(pl, code, a) == None && m < n
    ensures Run(pl, code, s0, n).None?
  {
    if Run(pl, code, s0, n).Some? {
      RunPrefix(pl, code, s0, m + 1, n);
      RunCompose(pl, code, s0, m, 1);
    }
  }

  /** When the source program ends, so does the machine, at the end of the code. */
  lemma SourceEnds(pl: Platform, s: Stmt, idx: seq<nat>, stack: seq<Int32>, acc: Int32, now: nat, n: nat, fuel: nat)
    requires Program(s, idx, stack, n)
    ensures var code := GenStmt(s, idx, |stack|, [], n).code;
      var s0 := State(0, acc, stack, now);
      match Exec(pl, s, fuel, Store(LocalsIn(stack, idx), now))
      case Normal(st) => exists x: Int32 :: Stops(pl, code, s0, State(|code|, x, Mem(stack, idx, st.locals), st.now))
      case Timeout => LongRun(pl, code, s0, fuel)
      case _ => false
  {
    hide Exec, GenStmt, LongRun;
    var code := GenStmt(s, idx, |stack|, [], n).code;
    var s0 := State(0, acc, stack, now);
    var st0 := Store(LocalsIn(stack, idx), now);
    GeneratedLabelsUnique(s, idx, |stack|, n);
    MemSelf(stack, idx);
    ReachSelf(pl, code, s0);
    assert code[0..0 + |code|] == code;
    StmtRuns(pl, code, s0, s, [], fuel, n, 0, acc, stack, idx, st0);
    var out := Exec(pl, s, fuel, st0);
    if out.Normal? {
      var x: Int32 :| Arrives(pl, code, s0, |code|, x, stack, idx, out.st);
      assert Stops(pl, code, s0, State(|code|, x, Mem(stack, idx, out.st.locals), out.st.now));
    }
  }

  /** Where the machine stops is the end of the code, and the source program ends in that state. */
  lemma MachineStops(pl: Platform, s: Stmt, idx: seq<nat>, stack: seq<Int32>, acc: Int32, now: nat, n: nat, end: State)
    returns (fuel: nat)
    requires Program(s, idx, stack, n)
    requires Stops(pl, GenStmt(s, idx, |stack|, [], n).code, State(0, acc, stack, now), end)
    ensures end.pc == |GenStmt(s, idx, |stack|, [], n).code|
    ensures var out := Exec(pl, s, fuel, Store(LocalsIn(stack, idx), now));
      out.Normal? && end.stack == Mem(stack, idx, out.st.locals) && end.now == out.st.now
  {
    hide Exec, GenStmt;
    var code := GenStmt(s, idx, |stack|, [], n).code;
    var s0 := State(0, acc, stack, now);
    var m: nat :| Run(pl, code, s0, m) == Some(end);
    fuel := m + 1;
    SourceEnds(pl, s, idx, stack, acc, now, n, fuel);
    StopsShort(pl, code, s0, end, m, m + 1);
    var out := Exec(pl, s, fuel, Store(LocalsIn(stack, idx), now));
    var x: Int32 :| Stops(pl, code, s0, State(|code|, x, Mem(stack, idx, out.st.locals), out.st.now));
    StopIsUnique(pl, code, s0, end, State(|code|, x, Mem(stack, idx, out.st.locals), out.st.now));
  }

  /** Compilation preserves and reflects meaning: the machine stops in a state with frame `frame`
      and clock `time` if and only if the source program ends with those locals and that clock. */
  lemma CompilationIsExact(pl: Platform, s: Stmt, idx: seq<nat>, stack: seq<Int32>, acc: Int32, now: nat, n: nat,
                           frame: seq<Int32>, time: nat)
    requires Program(s, idx, stack, n)
    ensures var code := GenStmt(s, idx, |stack|, [], n).code;
      (exists end :: Stops(pl, code, State(0, acc, stack, now), end) && end.stack == frame && end.now == time)
      <==> EndsWith(pl, s, idx, stack, now, frame, time)
  {
    hide Exec, GenStmt;
    var code := GenStmt(s, idx, |stack|, [], n).code;
    var s0 := State(0, acc, stack, now);
    if exists end :: Stops(pl, code, s0, end) && end.stack == frame && end.now == time {
      var end :| Stops(pl, code, s0, end) && end.stack == frame && end.now == time;
      var fuel := MachineStops(pl, s, idx, stack, acc, now, n, end);
    }
    if EndsWith(pl, s, idx, stack, now, frame, time) {
      var fuel: nat :| EndsIn(Exec(pl, s, fuel, Store(LocalsIn(stack, idx), now)), stack, idx, frame, time);
      SourceEnds(pl, s, idx, stack, acc, now, n, fuel);
    }
  }

  ghost predicate EndsIn(out: Outcome, stack: seq<Int32>, idx: seq<nat>, frame: seq<Int32>, time: nat)
    requires SlotsOk(idx, |stack|)
  {
    out.Normal? && |out.st.locals| == |idx| && frame == Mem(stack, idx, out.st.locals) && time == out.st.now
  }

  /** For some allowance of turns the source program ends with these locals and this clock. */
  ghost predicate EndsWith(pl: Platform, s: Stmt, idx: seq<nat>, stack: seq<Int32>, now: nat, frame: seq<Int32>,
                           time: nat)
    requires SlotsOk(idx, |stack|)
  {
    exists fuel: nat :: EndsIn(Exec(pl, s, fuel, Store(LocalsIn(stack, idx), now)), stack, idx, frame, time)
  }

  // ----- How often a repeat runs -----

  /** The outcomes of the body, turn by turn. */
  function BodyOutcomes(pl: Platform, s: Stmt, fuel: nat, k: nat, st: Store): seq<Outcome>
    requires s.Repeat?
    decreases fuel
  {
    if fuel == 0 || k == 0 then []
    else
      var out := Exec(pl, s.body, fuel - 1, st);
      [out] + if Again(s.lp.name, out) then BodyOutcomes(pl, s, fuel - 1, k - 1, out.st) else []
  }

  /** A `repeat` whose body always goes through, or ends with a continue of this loop, runs it
      exactly as often as its counter says. */
  lemma {:induction false} RepeatTurns(pl: Platform, s: Stmt, fuel: nat, k: nat, st: Store)
    requires s.Repeat? && !ExecLoop(pl, s, fuel, k, st).Timeout?
    ensures var outs := BodyOutcomes(pl, s, fuel, k, st);
      |outs| <= k
      && (forall i | 0 <= i < |outs| - 1 :: Again(s.lp.name, outs[i]))
      && ((|outs| > 0 ==> Again(s.lp.name, outs[|outs| - 1])) ==>
            |outs| == k && ExecLoop(pl, s, fuel, k, st) == Normal(if k == 0 then st else outs[k - 1].st))
    decreases fuel
  {
    hide Exec;
    if k > 0 {
      var out := Exec(pl, s.body, fuel - 1, st);
      if Again(s.lp.name, out) {
        RepeatTurns(pl, s, fuel - 1, k - 1, out.st);
        var rest := BodyOutcomes(pl, s, fuel - 1, k - 1, out.st);
        var outs := BodyOutcomes(pl, s, fuel, k, st);
        assert outs == [out] + rest;
        assert |rest| > 0 ==> outs[|outs| - 1] == rest[|rest| - 1];
      }
    }
  }
}
