/**
The accumulator/stack machine that the generated code runs on.

An instruction is one line of the generated text; `Label` is the `l<n>:` line.
The data stack is seen from the current frame, so index i of `stack` is local slot i.
*/
module Machine {

  type Int32 = x: int | -0x8000_0000 <= x < 0x8000_0000

  /** Reduction to a signed 32-bit word, as the C `int` of the runtime wraps. */
  function Wrap(x: int): Int32 {
    (x + 0x8000_0000) % 0x1_0000_0000 - 0x8000_0000
  }

  /** The reduction keeps what fits, and changes a number by a multiple of 2^32 only. */
  lemma WrapIs(x: int)
    ensures -0x8000_0000 <= x < 0x8000_0000 ==> Wrap(x) == x
    ensures (Wrap(x) - x) % 0x1_0000_0000 == 0
  {
  }

  datatype BinOp =
    | Minus | Plus | Times | Div | Mod
    | And | Or | Eor | Nand | Nor | Neor
    | Rshift | Urshift | Lshift
    | Lt | Gt | EqEq | Le | Ge | Ne
    | EqEqEq | NeqEq | EqQeq | EqEqQ | Qeqeq | Qne

  datatype UnOp = UMinus | UTilde | UNot

  /** What the generated code does not define itself: the arithmetic of the ALU, and the value
      that a port carries at a given clock sample. Every result below holds for all of them. */
  datatype Platform = Platform(
    bin: (BinOp, Int32, Int32) -> Int32,
    un: (UnOp, Int32) -> Int32,
    port: (nat, nat) -> Int32)

  datatype Instr =
    | LoadConst(c: Int32)
    | LoadZero
    | LoadOne
    | NullInstr
    | LoadL(slot: nat)
    | StoreL(slot: nat)
    | LoadPort(p: nat)
    | LVar(slot: nat)
    | PushAlu
    | PopAlu
    | Pop(n: int)
    | Inc
    | Dec
    | Binary(op: BinOp)
    | Unary(uop: UnOp)
    | Cmp
    | Sync
    | Jz(target: nat)
    | Jnz(target: nat)
    | Jmp(target: nat)
    // `level` is not part of the text and no step reads it: it records the frame height
    // that the generator intends at the label.
    | Label(num: nat, level: nat)

  datatype State = State(pc: nat, acc: Int32, stack: seq<Int32>, now: nat)

  /** Position of the first label line with number l, or the end of the code. */
  function Find(code: seq<Instr>, l: nat): (r: nat)
    ensures r <= |code|
    ensures r < |code| ==> code[r].Label? && code[r].num == l
  {
    if code == [] then 0
    else if code[0].Label? && code[0].num == l then 0
    else 1 + Find(code[1..], l)
  }

  /** No two label lines carry the same number. */
  ghost predicate LabelsUnique(code: seq<Instr>) {
    forall i, j | 0 <= i < |code| && 0 <= j < |code| && code[i].Label? && code[j].Label? ::
      code[i].num == code[j].num ==> i == j
  }

  /** One step; `None` when the code is finished, or when the step would read outside the
      frame or jump to a label that does not exist. */
  function Step(pl: Platform, code: seq<Instr>, st: State): Option<State> {
    if st.pc >= |code| then None
    else
      var top := |st.stack| - 1;
      var next := st.(pc := st.pc + 1);
      match code[st.pc]
      case LoadConst(c) => Some(next.(acc := c))
      case LoadZero => Some(next.(acc := 0))
      case LoadOne => Some(next.(acc := 1))
      case NullInstr => Some(next.(acc := 0))
      case LoadL(i) => if i <= top then Some(next.(acc := st.stack[i])) else None
      case StoreL(i) => if i <= top then Some(next.(stack := st.stack[i := st.acc])) else None
      case LoadPort(p) => Some(next.(acc := pl.port(p, st.now)))
      case LVar(i) => if i == top + 1 then Some(next.(stack := st.stack + [0])) else None
      case PushAlu => Some(next.(stack := st.stack + [st.acc]))
      case PopAlu => if top >= 0 then Some(next.(acc := st.stack[top], stack := st.stack[..top])) else None
      case Pop(n) => if 0 <= n <= top + 1 then Some(next.(stack := st.stack[..top + 1 - n])) else None
      case Inc => Some(next.(acc := Wrap(st.acc + 1)))
      case Dec => Some(next.(acc := Wrap(st.acc - 1)))
      case Binary(op) =>
        if top >= 0 then Some(next.(acc := pl.bin(op, st.stack[top], st.acc), stack := st.stack[..top])) else None
      case Unary(op) => Some(next.(acc := pl.un(op, st.acc)))
      case Cmp => if top >= 0 then Some(next.(acc := if st.acc == st.stack[top] then 1 else 0)) else None
      case Sync => Some(next.(now := st.now + if st.acc > 0 then st.acc else 0))
      case Jz(l) => if st.acc == 0 then Goto(code, l, st) else Some(next)
      case Jnz(l) => if st.acc != 0 then Goto(code, l, st) else Some(next)
      case Jmp(l) => Goto(code, l, st)
      case Label(_, _) => Some(next)
  }

  function Goto(code: seq<Instr>, l: nat, st: State): Option<State> {
    if Find(code, l) < |code| then Some(st.(pc := Find(code, l))) else None
  }

  datatype Option<+T> = None | Some(value: T)

  /** The state after exactly n steps, if the machine can make that many. */
  function Run(pl: Platform, code: seq<Instr>, st: State, n: nat): Option<State>
    decreases n
  {
    if n == 0 then Some(st)
    else
      match Step(pl, code, st)
      case None => None
      case Some(st1) => Run(pl, code, st1, n - 1)
  }

  ghost predicate Reaches(pl: Platform, code: seq<Instr>, st: State, st': State) {
    exists n: nat :: Run(pl, code, st, n) == Some(st')
  }

  lemma {:induction false} RunCompose(pl: Platform, code: seq<Instr>, st: State, m: nat, n: nat)
    requires Run(pl, code, st, m).Some?
    ensures Run(pl, code, st, m + n) == Run(pl, code, Run(pl, code, st, m).value, n)
    decreases m
  {
    if m > 0 {
      RunCompose(pl, code, Step(pl, code, st).value, m - 1, n);
    }
  }

  lemma {:induction false} RunPrefix(pl: Platform, code: seq<Instr>, st: State, m: nat, n: nat)
    requires m <= n && Run(pl, code, st, n).Some?
    ensures Run(pl, code, st, m).Some?
    decreases m
  {
    if m > 0 {
      RunPrefix(pl, code, Step(pl, code, st).value, m - 1, n - 1);
    }
  }

  lemma ReachSelf(pl: Platform, code: seq<Instr>, st: State)
    ensures Reaches(pl, code, st, st)
  {
    assert Run(pl, code, st, 0) == Some(st);
  }

  lemma ReachStep(pl: Platform, code: seq<Instr>, st: State, st': State)
    requires Step(pl, code, st) == Some(st')
    ensures Reaches(pl, code, st, st')
  {
    assert Run(pl, code, st', 0) == Some(st');
    assert Run(pl, code, st, 1) == Some(st');
  }

  lemma ReachTrans(pl: Platform, code: seq<Instr>, a: State, b: State, c: State)
    requires Reaches(pl, code, a, b) && Reaches(pl, code, b, c)
    ensures Reaches(pl, code, a, c)
  {
    var m: nat :| Run(pl, code, a, m) == Some(b);
    var n: nat :| Run(pl, code, b, n) == Some(c);
    RunCompose(pl, code, a, m, n);
  }

  /** `frag` stands at position pc of the code. */
  ghost predicate At(code: seq<Instr>, pc: nat, frag: seq<Instr>) {
    pc + |frag| <= |code| && code[pc..pc + |frag|] == frag
  }

  lemma AtSplit(code: seq<Instr>, pc: nat, a: seq<Instr>, b: seq<Instr>)
    requires At(code, pc, a + b)
    ensures At(code, pc, a) && At(code, pc + |a|, b)
  {
    assert code[pc..pc + |a|] == (a + b)[..|a|] == a;
    assert code[pc + |a|..pc + |a| + |b|] == (a + b)[|a|..] == b;
  }

  lemma AtOne(code: seq<Instr>, pc: nat, i: Instr)
    requires At(code, pc, [i])
    ensures pc < |code| && code[pc] == i
  {
    assert code[pc] == code[pc..pc + 1][0];
  }

  lemma {:induction false} FindUnique(code: seq<Instr>, pc: nat, l: nat)
    requires LabelsUnique(code) && pc < |code| && code[pc].Label? && code[pc].num == l
    ensures Find(code, l) == pc
  {
    if pc == 0 {
    } else {
      var rest := code[1..];
      assert code[0].Label? ==> code[0].num != l;
      assert rest[pc - 1] == code[pc];
      forall i, j | 0 <= i < |rest| && 0 <= j < |rest| && rest[i].Label? && rest[j].Label? && rest[i].num == rest[j].num
        ensures i == j
      {
        assert rest[i] == code[i + 1] && rest[j] == code[j + 1];
      }
      FindUnique(rest, pc - 1, l);
    }
  }
}
