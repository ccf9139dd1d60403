/**
The generator and the meaning of what it writes, put together: a program goes in, and the text
that comes out runs exactly as the program.
*/
module Compiler {
  import opened Machine
  import opened Source
  import opened CodeGen
  import opened Thread
  import opened Labels
  import opened CompilerCorrect
  import opened Emitter

  /** From a frame of the given height the code stops exactly as the program s ends. */
  ghost predicate RunsAs(code: seq<Instr>, s: Stmt, idx: seq<nat>, pl: Platform, stack: seq<Int32>, acc: Int32,
                         now: nat)
    requires SlotsOk(idx, |stack|)
  {
    forall frame: seq<Int32>, time: nat ::
      (exists end :: Stops(pl, code, State(0, acc, stack, now), end) && end.stack == frame && end.now == time)
      <==> EndsWith(pl, s, idx, stack, now, frame, time)
  }

  /** What a new generator writes for a program runs as the program, for every arithmetic, every
      frame of that height and every start. */
  method Compile(s: Stmt, idx: seq<nat>, height: nat, n: nat) returns (code: seq<Instr>)
    requires WfStmt(s, |idx|, []) && Numbered(s, n) && SlotsOk(idx, height)
    ensures forall pl: Platform, stack: seq<Int32>, acc: Int32, now: nat | |stack| == height ::
              RunsAs(code, s, idx, pl, stack, acc, now)
  {
    hide WfStmt, Numbered, Stops, EndsWith, GenStmt;
    var g := new Generator(n, idx);
    g.OutputStatement(s, height);
    code := g.out;
    assert code == GenStmt(s, idx, height, [], n).code;
    forall pl: Platform, stack: seq<Int32>, acc: Int32, now: nat | |stack| == height
      ensures RunsAs(code, s, idx, pl, stack, acc, now)
    {
      forall frame: seq<Int32>, time: nat
        ensures (exists end :: Stops(pl, code, State(0, acc, stack, now), end) && end.stack == frame && end.now == time)
                <==> EndsWith(pl, s, idx, stack, now, frame, time)
      {
        CompilationIsExact(pl, s, idx, stack, acc, now, n, frame, time);
      }
    }
  }
}
