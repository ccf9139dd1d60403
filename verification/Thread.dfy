/**
Following the machine through a piece of code, one instruction at a time.

`Arrives(pl, code, s0, pc, x, base, idx, st)` says that from s0 the machine gets to position pc
with x in the accumulator and a stack that is `base` with the locals of st in their slots. Each
lemma extends such a fact by one instruction.
*/
module Thread {
  import opened Machine
  import opened Source

  // ----- Locals inside the frame -----

  /** The slots increase and lie below the frame height h. */
  ghost predicate SlotsOk(idx: seq<nat>, h: nat) {
    (forall v | 0 <= v < |idx| :: idx[v] < h)
    && (forall v, w | 0 <= v < w < |idx| :: idx[v] < idx[w])
  }

  /** The stack `base` with the locals written to their slots. */
  ghost function Mem(base: seq<Int32>, idx: seq<nat>, vals: seq<Int32>): (r: seq<Int32>)
    requires |vals| == |idx| && SlotsOk(idx, |base|)
    ensures |r| == |base|
  {
    var last := |idx| - 1;
    if idx == [] then base else Mem(base, idx[..last], vals[..last])[idx[last] := vals[last]]
  }

  ghost function Here(pc: nat, x: Int32, base: seq<Int32>, idx: seq<nat>, st: Store): State
    requires |st.locals| == |idx| && SlotsOk(idx, |base|)
  {
    State(pc, x, Mem(base, idx, st.locals), st.now)
  }

  ghost predicate Arrives(pl: Platform, code: seq<Instr>, s0: State, pc: nat, x: Int32,
                          base: seq<Int32>, idx: seq<nat>, st: Store)
  {
    |st.locals| == |idx| && SlotsOk(idx, |base|) && Reaches(pl, code, s0, Here(pc, x, base, idx, st))
  }

  lemma {:induction false} MemRead(base: seq<Int32>, idx: seq<nat>, vals: seq<Int32>, v: nat)
    requires |vals| == |idx| && SlotsOk(idx, |base|) && v < |idx|
    ensures Mem(base, idx, vals)[idx[v]] == vals[v]
    decreases |idx|
  {
    var last := |idx| - 1;
    if v < last {
      MemRead(base, idx[..last], vals[..last], v);
    }
  }

  lemma {:induction false} MemWrite(base: seq<Int32>, idx: seq<nat>, vals: seq<Int32>, v: nat, x: Int32)
    requires |vals| == |idx| && SlotsOk(idx, |base|) && v < |idx|
    ensures Mem(base, idx, vals)[idx[v] := x] == Mem(base, idx, vals[v := x])
    decreases |idx|
  {
    var last := |idx| - 1;
    var inner := Mem(base, idx[..last], vals[..last]);
    if v == last {
      assert vals[v := x][..last] == vals[..last];
    } else {
      MemWrite(base, idx[..last], vals[..last], v, x);
      assert vals[v := x][..last] == vals[..last][v := x];
      var i, j := idx[last], idx[v];
      var y := vals[last];
      var a: seq<Int32>, b: seq<Int32> := inner[i := y], inner[j := x];
      assert a[j := x] == b[i := y];
    }
  }

  /** Cells above the frame do not matter to the locals. */
  lemma {:induction false} MemAppend(base: seq<Int32>, more: seq<Int32>, idx: seq<nat>, vals: seq<Int32>)
    requires |vals| == |idx| && SlotsOk(idx, |base|)
    ensures SlotsOk(idx, |base + more|)
    ensures Mem(base + more, idx, vals) == Mem(base, idx, vals) + more
    decreases |idx|
  {
    var last := |idx| - 1;
    if idx == [] {
    } else {
      MemAppend(base, more, idx[..last], vals[..last]);
    }
  }

  // ----- Positions -----

  lemma AtAll(code: seq<Instr>, pc: nat, frag: seq<Instr>)
    requires At(code, pc, frag)
    ensures forall i | 0 <= i < |frag| :: code[pc + i] == frag[i]
  {
    forall i | 0 <= i < |frag| ensures code[pc + i] == frag[i] {
      assert code[pc + i] == code[pc..pc + |frag|][i];
    }
  }

  /** The instructions of a fragment that is written out, one by one. */
  lemma {:induction false} Tail(code: seq<Instr>, pc: nat, frag: seq<Instr>)
    requires At(code, pc, frag)
    ensures |frag| > 0 ==> code[pc] == frag[0] && At(code, pc + 1, frag[1..])
    ensures forall i | pc <= i < pc + |frag| :: code[i] == frag[i - pc]
  {
    forall i | pc <= i < pc + |frag| ensures code[i] == frag[i - pc] {
      assert code[i] == code[pc..pc + |frag|][i - pc];
    }
    if |frag| > 0 {
      AtSplit(code, pc, frag[..1], frag[1..]);
      assert frag == frag[..1] + frag[1..];
    }
  }

  /** A fragment, one instruction, and the rest. */
  lemma Cut(code: seq<Instr>, pc: nat, a: seq<Instr>, i: Instr, b: seq<Instr>)
    requires At(code, pc, a + [i] + b)
    ensures At(code, pc, a) && At(code, pc + |a| + 1, b)
    ensures pc + |a| < |code| && code[pc + |a|] == i
  {
    AtSplit(code, pc, a + [i], b);
    AtSplit(code, pc, a, [i]);
    AtOne(code, pc + |a|, i);
  }

  // ----- One instruction -----

  lemma Extend(pl: Platform, code: seq<Instr>, s0: State, a: State, b: State)
    requires Reaches(pl, code, s0, a) && Step(pl, code, a) == Some(b)
    ensures Reaches(pl, code, s0, b)
  {
    ReachStep(pl, code, a, b);
    ReachTrans(pl, code, s0, a, b);
  }

  lemma IPush(pl: Platform, code: seq<Instr>, s0: State, pc: nat, x: Int32, base: seq<Int32>, idx: seq<nat>, st: Store)
    requires Arrives(pl, code, s0, pc, x, base, idx, st) && pc < |code| && code[pc] == PushAlu
    ensures Arrives(pl, code, s0, pc + 1, x, base + [x], idx, st)
  {
    MemAppend(base, [x], idx, st.locals);
    Extend(pl, code, s0, Here(pc, x, base, idx, st), Here(pc + 1, x, base + [x], idx, st));
  }

  lemma IPop(pl: Platform, code: seq<Instr>, s0: State, pc: nat, x: Int32, y: Int32, base: seq<Int32>, idx: seq<nat>,
             st: Store)
    requires Arrives(pl, code, s0, pc, x, base + [y], idx, st) && SlotsOk(idx, |base|)
    requires pc < |code| && (code[pc] == PopAlu || code[pc] == Pop(1))
    ensures Arrives(pl, code, s0, pc + 1, if code[pc] == PopAlu then y else x, base, idx, st)
  {
    MemAppend(base, [y], idx, st.locals);
    Extend(pl, code, s0, Here(pc, x, base + [y], idx, st),
           Here(pc + 1, if code[pc] == PopAlu then y else x, base, idx, st));
  }

  lemma IBinary(pl: Platform, code: seq<Instr>, s0: State, pc: nat, op: BinOp, y: Int32, x: Int32,
                base: seq<Int32>, idx: seq<nat>, st: Store)
    requires Arrives(pl, code, s0, pc, y, base + [x], idx, st) && SlotsOk(idx, |base|)
    requires pc < |code| && code[pc] == Binary(op)
    ensures Arrives(pl, code, s0, pc + 1, pl.bin(op, x, y), base, idx, st)
  {
    MemAppend(base, [x], idx, st.locals);
    Extend(pl, code, s0, Here(pc, y, base + [x], idx, st), Here(pc + 1, pl.bin(op, x, y), base, idx, st));
  }

  /** `cmp` leaves the compared value where it is. */
  lemma ICmp(pl: Platform, code: seq<Instr>, s0: State, pc: nat, y: Int32, x: Int32,
             base: seq<Int32>, idx: seq<nat>, st: Store)
    requires Arrives(pl, code, s0, pc, y, base + [x], idx, st) && SlotsOk(idx, |base|)
    requires pc < |code| && code[pc] == Cmp
    ensures Arrives(pl, code, s0, pc + 1, if x == y then 1 else 0, base + [x], idx, st)
  {
    MemAppend(base, [x], idx, st.locals);
    Extend(pl, code, s0, Here(pc, y, base + [x], idx, st), Here(pc + 1, if x == y then 1 else 0, base + [x], idx, st));
  }

  lemma ILoad(pl: Platform, code: seq<Instr>, s0: State, pc: nat, v: nat, x: Int32, base: seq<Int32>, idx: seq<nat>,
              st: Store)
    requires Arrives(pl, code, s0, pc, x, base, idx, st) && v < |idx|
    requires pc < |code| && code[pc] == LoadL(idx[v])
    ensures Arrives(pl, code, s0, pc + 1, st.Get(v), base, idx, st)
  {
    MemRead(base, idx, st.locals, v);
    Extend(pl, code, s0, Here(pc, x, base, idx, st), Here(pc + 1, st.Get(v), base, idx, st));
  }

  lemma IStore(pl: Platform, code: seq<Instr>, s0: State, pc: nat, v: nat, x: Int32, base: seq<Int32>, idx: seq<nat>,
               st: Store)
    requires Arrives(pl, code, s0, pc, x, base, idx, st) && v < |idx|
    requires pc < |code| && code[pc] == StoreL(idx[v])
    ensures Arrives(pl, code, s0, pc + 1, x, base, idx, st.Set(v, x))
  {
    MemWrite(base, idx, st.locals, v, x);
    Extend(pl, code, s0, Here(pc, x, base, idx, st), Here(pc + 1, x, base, idx, st.Set(v, x)));
  }

  /** What an instruction that only touches the accumulator leaves in it. */
  ghost function AccAfter(pl: Platform, i: Instr, x: Int32, now: nat): Option<Int32> {
    match i
    case LoadConst(c) => Some(c)
    case LoadZero => Some(0)
    case LoadOne => Some(1)
    case NullInstr => Some(0)
    case LoadPort(p) => Some(pl.port(p, now))
    case Inc => Some(Wrap(x + 1))
    case Dec => Some(Wrap(x - 1))
    case Unary(uop) => Some(pl.un(uop, x))
    case Label(_, _) => Some(x)
    case _ => None
  }

  lemma IAcc(pl: Platform, code: seq<Instr>, s0: State, pc: nat, x: Int32, base: seq<Int32>, idx: seq<nat>, st: Store)
    requires Arrives(pl, code, s0, pc, x, base, idx, st)
    requires pc < |code| && AccAfter(pl, code[pc], x, st.now).Some?
    ensures Arrives(pl, code, s0, pc + 1, AccAfter(pl, code[pc], x, st.now).value, base, idx, st)
  {
    Extend(pl, code, s0, Here(pc, x, base, idx, st),
           Here(pc + 1, AccAfter(pl, code[pc], x, st.now).value, base, idx, st));
  }

  lemma ISync(pl: Platform, code: seq<Instr>, s0: State, pc: nat, x: Int32, base: seq<Int32>, idx: seq<nat>, st: Store)
    requires Arrives(pl, code, s0, pc, x, base, idx, st) && pc < |code| && code[pc] == Sync
    ensures Arrives(pl, code, s0, pc + 1, x, base, idx, st.Advance(x))
  {
    Extend(pl, code, s0, Here(pc, x, base, idx, st), Here(pc + 1, x, base, idx, st.Advance(x)));
  }

  /** The label a jump goes to when it is taken with x in the accumulator. */
  ghost predicate Taken(i: Instr, x: Int32, l: nat) {
    i == Jmp(l) || (i == Jz(l) && x == 0) || (i == Jnz(l) && x != 0)
  }

  ghost predicate LabelAt(code: seq<Instr>, q: nat, l: nat) {
    q < |code| && code[q].Label? && code[q].num == l
  }

  ghost predicate Labelled(code: seq<Instr>, q: nat, l: nat, level: nat) {
    q < |code| && code[q] == Label(l, level)
  }

  lemma IJump(pl: Platform, code: seq<Instr>, s0: State, pc: nat, q: nat, l: nat, x: Int32,
              base: seq<Int32>, idx: seq<nat>, st: Store)
    requires Arrives(pl, code, s0, pc, x, base, idx, st) && LabelsUnique(code)
    requires pc < |code| && Taken(code[pc], x, l) && LabelAt(code, q, l)
    ensures Arrives(pl, code, s0, q, x, base, idx, st)
    ensures q + 1 <= |code| && Arrives(pl, code, s0, q + 1, x, base, idx, st)
  {
    FindUnique(code, q, l);
    Extend(pl, code, s0, Here(pc, x, base, idx, st), Here(q, x, base, idx, st));
    Extend(pl, code, s0, Here(q, x, base, idx, st), Here(q + 1, x, base, idx, st));
  }

  lemma IFall(pl: Platform, code: seq<Instr>, s0: State, pc: nat, l: nat, x: Int32,
              base: seq<Int32>, idx: seq<nat>, st: Store)
    requires Arrives(pl, code, s0, pc, x, base, idx, st)
    requires pc < |code| && ((code[pc] == Jz(l) && x != 0) || (code[pc] == Jnz(l) && x == 0))
    ensures Arrives(pl, code, s0, pc + 1, x, base, idx, st)
  {
    Extend(pl, code, s0, Here(pc, x, base, idx, st), Here(pc + 1, x, base, idx, st));
  }
}
