/**
Timed expressions as bounded quantifiers over clock samples. `@d,w( conds )` asks its question at
the samples from the end of the delay on: the "till" form whether some sample of the window makes
all conditions true, the "while" form whether every sample does. Conditions without effects of
their own are asked of the store as it was; others of the store as they have changed it.
*/
module Timed {
  import opened Machine
  import opened Source
  import opened CodeGen
  import opened Thread
  import opened ExprCorrect

  /** The expression changes neither a variable nor the clock. */
  predicate Pure(e: Expr)
    decreases e
  {
    match e
    case Const(_) => true
    case Local(_) => true
    case Port(_) => true
    case Bin(_, l, r) => Pure(l) && Pure(r)
    case Un(_, e1) => Pure(e1)
    case LAnd(l, r) => Pure(l) && Pure(r)
    case LOr(l, r) => Pure(l) && Pure(r)
    case Cond(c, t, f) => Pure(c) && Pure(t) && Pure(f)
    case _ => false
  }

  ghost predicate AllPure(conds: seq<Expr>) {
    forall i | 0 <= i < |conds| :: Pure(conds[i])
  }

  lemma {:induction false} PureKeeps(pl: Platform, e: Expr, st: Store)
    requires Pure(e)
    ensures Eval(pl, e, st).1 == st
    decreases e
  {
    match e
    case Bin(_, l, r) => PureKeeps(pl, l, st); PureKeeps(pl, r, st);
    case Un(_, e1) => PureKeeps(pl, e1, st);
    case LAnd(l, r) => PureKeeps(pl, l, st); PureKeeps(pl, r, st);
    case LOr(l, r) => PureKeeps(pl, l, st); PureKeeps(pl, r, st);
    case Cond(c, t, f) => PureKeeps(pl, c, st); PureKeeps(pl, t, st); PureKeeps(pl, f, st);
    case _ =>
  }

  /** The store k samples later. */
  function Later(st: Store, k: nat): Store { st.(now := st.now + k) }

  /** All conditions are non-zero k samples after st. */
  ghost predicate Holds(pl: Platform, conds: seq<Expr>, st: Store, k: nat) {
    forall i | 0 <= i < |conds| :: Eval(pl, conds[i], Later(st, k)).0 != 0
  }

  lemma {:induction false} CondsHold(pl: Platform, conds: seq<Expr>, st: Store)
    requires AllPure(conds)
    ensures EvalConds(pl, conds, st) == (Holds(pl, conds, st, 0), st)
  {
    assert Later(st, 0) == st;
    if conds != [] {
      PureKeeps(pl, conds[0], st);
      CondsHold(pl, conds[1..], st);
      assert forall i | 0 < i < |conds| :: conds[i] == conds[1..][i - 1];
      assert forall i | 0 <= i < |conds[1..]| :: conds[1..][i] == conds[i + 1];
    }
  }

  // ----- The samples -----

  /** The store in which the conditions are asked for the k-th further time: what they change on the
      way stays, and each time one sample has passed. */
  function Sampled(pl: Platform, conds: seq<Expr>, st: Store, k: nat): Store
    decreases k
  {
    if k == 0 then st else Sampled(pl, conds, EvalConds(pl, conds, st).1.Advance(1), k - 1)
  }

  /** The conditions are all non-zero at sample k. */
  predicate Asked(pl: Platform, conds: seq<Expr>, st: Store, k: nat) {
    EvalConds(pl, conds, Sampled(pl, conds, st, k)).0
  }

  /** The store behind sample k. */
  function Behind(pl: Platform, conds: seq<Expr>, st: Store, k: nat): Store {
    EvalConds(pl, conds, Sampled(pl, conds, st, k)).1
  }

  /** Conditions without effects are asked of the values that the store has k samples later. */
  lemma {:induction false} PureSamples(pl: Platform, conds: seq<Expr>, st: Store, k: nat)
    requires AllPure(conds)
    ensures Sampled(pl, conds, st, k) == Behind(pl, conds, st, k) == Later(st, k)
    ensures Asked(pl, conds, st, k) == Holds(pl, conds, st, k)
    decreases k
  {
    hide EvalConds, Pure, AllPure, Holds;
    CondsHold(pl, conds, st);
    if k > 0 {
      PureSamples(pl, conds, st.Advance(1), k - 1);
      assert Later(st.Advance(1), k - 1) == Later(st, k);
      Shift(pl, conds, st, k - 1);
    } else {
      assert Later(st, 0) == st;
    }
  }

  lemma Shift(pl: Platform, conds: seq<Expr>, st: Store, k: nat)
    ensures Holds(pl, conds, st.Advance(1), k) == Holds(pl, conds, st, k + 1)
  {
    assert Later(st.Advance(1), k) == Later(st, k + 1);
  }

  // ----- The loops -----

  /** j is the last sample that the till loop looks at: the first that holds, else the end. */
  ghost predicate TillStopsAt(pl: Platform, conds: seq<Expr>, w: nat, st: Store, j: nat) {
    j <= w && (forall k: nat | k < j :: !Asked(pl, conds, st, k)) && (j < w ==> Asked(pl, conds, st, j))
  }

  ghost predicate WhileStopsAt(pl: Platform, conds: seq<Expr>, w: nat, st: Store, j: nat) {
    j <= w && (forall k: nat | k < j :: Asked(pl, conds, st, k)) && (j < w ==> !Asked(pl, conds, st, j))
  }

  lemma NextSample(pl: Platform, conds: seq<Expr>, st: Store, k: nat)
    ensures var st1 := EvalConds(pl, conds, st).1.Advance(1);
      Asked(pl, conds, st1, k) == Asked(pl, conds, st, k + 1)
        && Behind(pl, conds, st1, k) == Behind(pl, conds, st, k + 1)
  {
  }

  lemma {:induction false} TillLoopSearches(pl: Platform, conds: seq<Expr>, w: nat, st: Store) returns (j: nat)
    ensures TillStopsAt(pl, conds, w, st, j)
    ensures TillLoop(pl, conds, w, st) == (if Asked(pl, conds, st, j) then 1 else 0, Behind(pl, conds, st, j))
    decreases w
  {
    hide EvalConds;
    if w == 0 || Asked(pl, conds, st, 0) {
      j := 0;
    } else {
      var st1 := EvalConds(pl, conds, st).1.Advance(1);
      var i := TillLoopSearches(pl, conds, w - 1, st1);
      j := i + 1;
      NextSample(pl, conds, st, i);
      forall k: nat | k < j ensures !Asked(pl, conds, st, k) {
        if k > 0 { NextSample(pl, conds, st, k - 1); }
      }
    }
  }

  lemma {:induction false} WhilstLoopSearches(pl: Platform, conds: seq<Expr>, w: nat, st: Store) returns (j: nat)
    ensures WhileStopsAt(pl, conds, w, st, j)
    ensures WhilstLoop(pl, conds, w, st) == (if Asked(pl, conds, st, j) then 1 else 0, Behind(pl, conds, st, j))
    decreases w
  {
    hide EvalConds;
    if w == 0 || !Asked(pl, conds, st, 0) {
      j := 0;
    } else {
      var st1 := EvalConds(pl, conds, st).1.Advance(1);
      var i := WhilstLoopSearches(pl, conds, w - 1, st1);
      j := i + 1;
      NextSample(pl, conds, st, i);
      forall k: nat | k < j ensures Asked(pl, conds, st, k) {
        if k > 0 { NextSample(pl, conds, st, k - 1); }
      }
    }
  }

  /** Where sampling starts, and the number of further samples. */
  function Start(pl: Platform, e: Expr, st: Store): (Store, nat)
    requires e.Till? || e.Whilst?
  {
    var (d, st1) := Eval(pl, e.delay, st);
    var (w, st2) := EvalWindow(pl, e.window, if e.Till? then 0 else 1, st1.Advance(d));
    (st2, Count(w))
  }

  /** A "till" yields 1 if and only if some sample of the window makes all conditions true. */
  lemma TillIsExists(pl: Platform, e: Expr, st: Store) returns (j: nat)
    requires e.Till?
    ensures var (first, w) := Start(pl, e, st);
      && TillStopsAt(pl, e.conds, w, first, j)
      && Eval(pl, e, st) == (if exists k: nat :: k <= w && Asked(pl, e.conds, first, k) then 1 else 0,
                             Behind(pl, e.conds, first, j))
  {
    hide Asked, Behind;
    var (first, w) := Start(pl, e, st);
    j := TillLoopSearches(pl, e.conds, w, first);
  }

  /** A "while" yields 1 if and only if every sample of the window makes all conditions true. */
  lemma WhilstIsForall(pl: Platform, e: Expr, st: Store) returns (j: nat)
    requires e.Whilst?
    ensures var (first, w) := Start(pl, e, st);
      && WhileStopsAt(pl, e.conds, w, first, j)
      && Eval(pl, e, st) == (if forall k: nat :: k <= w ==> Asked(pl, e.conds, first, k) then 1 else 0,
                             Behind(pl, e.conds, first, j))
  {
    hide Asked, Behind;
    var (first, w) := Start(pl, e, st);
    j := WhilstLoopSearches(pl, e.conds, w, first);
  }

  /** The emitted code of a "till" or "while" decides its quantifier, and leaves the frame as the
      delay, the window and the samples that it has looked at left it. */
  lemma TimedCodeDecides(pl: Platform, code: seq<Instr>, s0: State, e: Expr, h: nat, n: nat, pc: nat, x: Int32,
                         base: seq<Int32>, idx: seq<nat>, st: Store) returns (j: nat)
    requires (e.Till? || e.Whilst?) && WfExpr(e, |idx|)
    requires Ready(pl, code, s0, pc, GenExpr(e, idx, h, n).code, x, base, idx, st)
    ensures var (first, w) := Start(pl, e, st);
      var yes := if e.Till? then exists k: nat :: k <= w && Asked(pl, e.conds, first, k)
                 else forall k: nat :: k <= w ==> Asked(pl, e.conds, first, k);
      && j <= w
      && Arrives(pl, code, s0, pc + |GenExpr(e, idx, h, n).code|, if yes then 1 else 0, base, idx,
                 Behind(pl, e.conds, first, j))
  {
    hide Arrives, At, GenExpr, Asked, Behind, Start;
    ExprRuns(pl, code, s0, e, h, n, pc, x, base, idx, st);
    if e.Till? {
      j := TillIsExists(pl, e, st);
    } else {
      j := WhilstIsForall(pl, e, st);
    }
  }
}
