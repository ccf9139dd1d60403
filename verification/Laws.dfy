/**
Laws of the source language: what its constructs have to do with each other. They fix its meaning
without a look at the machine, and, since compilation is exact, they hold of the emitted text: two
programs that mean the same stop in the same states.
*/
module Laws {
  import opened Machine
  import opened Source
  import opened CodeGen
  import opened Thread
  import opened CompilerCorrect
  import Timed

  // ----- Expressions -----

  lemma ConstIs(pl: Platform, c: Int32, st: Store)
    ensures Eval(pl, Const(c), st) == (c, st)
  {
  }

  lemma CondIs(pl: Platform, c: Expr, t: Expr, f: Expr, st: Store)
    ensures Eval(pl, Cond(c, t, f), st) ==
            if Eval(pl, c, st).0 != 0 then Eval(pl, t, Eval(pl, c, st).1) else Eval(pl, f, Eval(pl, c, st).1)
  {
    assert Eval(pl, Cond(c, t, f), st) == EvalCond(pl, Cond(c, t, f), st);
  }

  /** A truth value: 0 or 1. */
  function Truth(e: Expr): Expr { Cond(e, Const(1), Const(0)) }

  lemma TruthIs(pl: Platform, e: Expr, st: Store)
    ensures Eval(pl, Truth(e), st) == (if Eval(pl, e, st).0 != 0 then 1 else 0, Eval(pl, e, st).1)
  {
    CondIs(pl, e, Const(1), Const(0), st);
    ConstIs(pl, 1, Eval(pl, e, st).1);
    ConstIs(pl, 0, Eval(pl, e, st).1);
  }

  /** `l && r` is a choice between 0 and 1, and leaves r alone when l is zero. */
  lemma AndIsChoice(pl: Platform, l: Expr, r: Expr, st: Store)
    ensures Eval(pl, LAnd(l, r), st) == Eval(pl, Cond(l, Truth(r), Const(0)), st)
    ensures Eval(pl, l, st).0 == 0 ==> Eval(pl, LAnd(l, r), st) == Eval(pl, l, st)
  {
    var st1 := Eval(pl, l, st).1;
    assert Eval(pl, LAnd(l, r), st) == EvalLAnd(pl, LAnd(l, r), st);
    CondIs(pl, l, Truth(r), Const(0), st);
    TruthIs(pl, r, st1);
    ConstIs(pl, 0, st1);
  }

  /** `l || r` is one as well, and leaves r alone when l is not zero. */
  lemma OrIsChoice(pl: Platform, l: Expr, r: Expr, st: Store)
    ensures Eval(pl, LOr(l, r), st) == Eval(pl, Cond(l, Const(1), Truth(r)), st)
    ensures Eval(pl, l, st).0 != 0 ==> Eval(pl, LOr(l, r), st) == (1, Eval(pl, l, st).1)
  {
    var st1 := Eval(pl, l, st).1;
    assert Eval(pl, LOr(l, r), st) == EvalLOr(pl, LOr(l, r), st);
    CondIs(pl, l, Const(1), Truth(r), st);
    TruthIs(pl, r, st1);
    ConstIs(pl, 1, st1);
  }

  /** A choice takes the first branch on every value but zero. */
  lemma ChoiceTakes(pl: Platform, c: Int32, t: Expr, f: Expr, st: Store)
    ensures Eval(pl, Cond(Const(c), t, f), st) == if c == 0 then Eval(pl, f, st) else Eval(pl, t, st)
  {
    CondIs(pl, Const(c), t, f, st);
    ConstIs(pl, c, st);
  }

  /** `v op= e` is `v = v op e`. */
  lemma AssignOpIsAssign(pl: Platform, op: BinOp, v: nat, e: Expr, st: Store)
    ensures Eval(pl, AssignOp(op, v, e), st) == Eval(pl, Assign(v, Bin(op, Local(v), e)), st)
  {
    assert Eval(pl, Local(v), st) == (st.Get(v), st);
    assert Eval(pl, Bin(op, Local(v), e), st) == EvalBin(pl, Bin(op, Local(v), e), st);
  }

  /** The left operand is evaluated first, and the right one sees what it has stored. */
  lemma LeftFirst(pl: Platform, op: BinOp, v: nat, e: Expr, st: Store)
    requires v < |st.locals|
    ensures var (x, st1) := Eval(pl, e, st);
      Eval(pl, Bin(op, Assign(v, e), Local(v)), st) == (pl.bin(op, x, x), Store(st1.locals[v := x], st1.now))
  {
    AssignStores(pl, v, e, st);
    var st2 := Eval(pl, Assign(v, e), st).1;
    assert Eval(pl, Local(v), st2) == (st2.Get(v), st2);
    assert Eval(pl, Bin(op, Assign(v, e), Local(v)), st) == EvalBin(pl, Bin(op, Assign(v, e), Local(v)), st);
    hide Eval;
  }

  /** An assignment yields what it stores, and stores it in that variable only. */
  lemma AssignStores(pl: Platform, v: nat, e: Expr, st: Store)
    requires v < |st.locals|
    ensures var (x, st1) := Eval(pl, e, st);
      Eval(pl, Assign(v, e), st) == (x, Store(st1.locals[v := x], st1.now))
  {
  }

  /** Counting up and down: the new value before, the old one behind, and the same change. */
  lemma CountsBy(pl: Platform, v: nat, st: Store)
    requires v < |st.locals|
    ensures var x := st.locals[v];
      && Eval(pl, PreInc(v), st) == (if x < 0x7fff_ffff then x + 1 else -0x8000_0000,
                                     st.(locals := st.locals[v := Eval(pl, PreInc(v), st).0]))
      && Eval(pl, PreDec(v), st) == (if x > -0x8000_0000 then x - 1 else 0x7fff_ffff,
                                     st.(locals := st.locals[v := Eval(pl, PreDec(v), st).0]))
      && Eval(pl, PostInc(v), st) == (x, Eval(pl, PreInc(v), st).1)
      && Eval(pl, PostDec(v), st) == (x, Eval(pl, PreDec(v), st).1)
  {
  }

  /** A counter n goes down to zero in n steps, and a negative one in n + 2^32. */
  lemma CountIs(n: Int32)
    ensures Count(n) == if n >= 0 then n as int else n + 0x1_0000_0000
  {
  }

  /** Without a window a "till" has one sample, and a "while" has two. */
  lemma WindowLeftOut(pl: Platform, delay: Expr, conds: seq<Expr>, st: Store)
    ensures Eval(pl, Till(delay, None, conds), st) == Eval(pl, Till(delay, Some(Const(0)), conds), st)
    ensures Eval(pl, Whilst(delay, None, conds), st) == Eval(pl, Whilst(delay, Some(Const(1)), conds), st)
  {
    TimedIs(pl, Till(delay, None, conds), st);
    TimedIs(pl, Till(delay, Some(Const(0)), conds), st);
    TimedIs(pl, Whilst(delay, None, conds), st);
    TimedIs(pl, Whilst(delay, Some(Const(1)), conds), st);
    var st1 := Eval(pl, delay, st).1.Advance(Eval(pl, delay, st).0);
    ConstIs(pl, 0, st1);
    ConstIs(pl, 1, st1);
    hide TillLoop, WhilstLoop, Eval, EvalTimed;
  }

  lemma TimedIs(pl: Platform, e: Expr, st: Store)
    requires e.Till? || e.Whilst?
    ensures Eval(pl, e, st) == EvalTimed(pl, e, st)
  {
  }

  /** A positive delay moves the clock by as much, any other leaves it; the locals stay. */
  lemma DelayIs(d: Int32, st: Store)
    ensures st.Advance(d) == Store(st.locals, if d >= 0 then st.now + d else st.now)
  {
  }

  /** A clock sample from the end of the delay to the end of the window. */
  predicate InWindow(st: Store, d: int, w: int, t: nat) { st.now + d <= t <= st.now + d + w }

  /** What a timed expression asks of a port: whether it is non-zero at some clock sample of the
      window, or at every one. */
  lemma PortIsSampled(pl: Platform, d: Int32, w: Int32, p: nat, st: Store)
    requires d >= 0 && w >= 0
    ensures var till, whilst := Till(Const(d), Some(Const(w)), [Port(p)]), Whilst(Const(d), Some(Const(w)), [Port(p)]);
      && Eval(pl, till, st).0 == (if exists t: nat :: InWindow(st, d, w, t) && pl.port(p, t) != 0 then 1 else 0)
      && Eval(pl, whilst, st).0 == (if forall t: nat :: InWindow(st, d, w, t) ==> pl.port(p, t) != 0 then 1 else 0)
  {
    var till, whilst := Till(Const(d), Some(Const(w)), [Port(p)]), Whilst(Const(d), Some(Const(w)), [Port(p)]);
    var first := Store(st.locals, st.now + d);
    SamplingStarts(pl, till, d, w, st);
    SamplingStarts(pl, whilst, d, w, st);
    var i := Timed.TillIsExists(pl, till, st);
    var j := Timed.WhilstIsForall(pl, whilst, st);
    forall k: nat ensures Timed.Asked(pl, [Port(p)], first, k) == (pl.port(p, st.now + d + k) != 0) {
      PortAsked(pl, p, first, k);
    }
    forall t: nat | InWindow(st, d, w, t)
      ensures Timed.Asked(pl, [Port(p)], first, t - st.now - d) == (pl.port(p, t) != 0)
    {
      assert st.now + d + (t - st.now - d) == t;
    }
    hide Eval, Timed.Start, Timed.Asked, Timed.Behind;
    assert forall k: nat :: k <= w && Timed.Asked(pl, [Port(p)], first, k) ==> InWindow(st, d, w, first.now + k);
  }

  lemma SamplingStarts(pl: Platform, e: Expr, d: Int32, w: Int32, st: Store)
    requires (e.Till? || e.Whilst?) && e.delay == Const(d) && e.window == Some(Const(w)) && d >= 0 && w >= 0
    ensures Timed.Start(pl, e, st) == (Store(st.locals, st.now + d), w as nat)
  {
    ConstIs(pl, d, st);
    ConstIs(pl, w, st.Advance(d));
    hide Eval;
  }

  lemma PortAsked(pl: Platform, p: nat, st: Store, k: nat)
    ensures Timed.Asked(pl, [Port(p)], st, k) == (pl.port(p, st.now + k) != 0)
  {
    var conds := [Port(p)];
    assert Timed.AllPure(conds);
    Timed.PureSamples(pl, conds, st, k);
    var later := Timed.Later(st, k);
    assert Eval(pl, conds[0], later) == (pl.port(p, later.now), later);
    hide Timed.Asked;
    assert Timed.Holds(pl, conds, st, k) == (Eval(pl, conds[0], later).0 != 0);
  }

  // ----- Break and continue -----

  /** A named break ends the loop of that name, an unnamed one the innermost; any other goes on to
      the loops around it as it is. */
  lemma BreakEnds(pl: Platform, s: Stmt, fuel: nat, k: nat, target: Option<string>, st: Store)
    requires s.IsLoop() && fuel > 0
    ensures ExecTurn(pl, s, fuel, k, Broke(target, st)) ==
      match target
      case None => Normal(st)
      case Some(name) => if name == s.lp.name then Normal(st) else Broke(target, st)
  {
  }

  /** A named continue goes on with the loop of that name, an unnamed one with the innermost, as if
      the body had gone through; any other goes on to the loops around it as it is. */
  lemma ContinueGoesOn(pl: Platform, s: Stmt, fuel: nat, k: nat, target: Option<string>, st: Store)
    requires s.IsLoop() && fuel > 0
    ensures ExecTurn(pl, s, fuel, k, Continued(target, st)) ==
      match target
      case None => ExecTurn(pl, s, fuel, k, Normal(st))
      case Some(name) => if name == s.lp.name then ExecTurn(pl, s, fuel, k, Normal(st)) else Continued(target, st)
  {
    hide ExecLoop, LoopTail;
  }

  // ----- Statements -----

  /** An `if` goes into its first branch on every value but zero. */
  lemma IfTakes(pl: Platform, c: Int32, thn: Stmt, els: Stmt, fuel: nat, st: Store)
    ensures Exec(pl, If(Const(c), thn, Else(els)), fuel, st) ==
            if c == 0 then Exec(pl, els, fuel, st) else Exec(pl, thn, fuel, st)
  {
    ConstIs(pl, c, st);
    assert Exec(pl, If(Const(c), thn, Else(els)), fuel, st) == ExecIf(pl, If(Const(c), thn, Else(els)), fuel, st);
    assert ExecArms(pl, Else(els), fuel, st) == Exec(pl, els, fuel, st);
    hide Exec, Eval;
  }

  /** A sequence ends where one of its statements does not go through. */
  lemma {:induction false} SeqSplits(pl: Platform, a: seq<Stmt>, b: seq<Stmt>, fuel: nat, st: Store)
    ensures var out := ExecSeq(pl, a, fuel, st);
      ExecSeq(pl, a + b, fuel, st) == if out.Normal? then ExecSeq(pl, b, fuel, out.st) else out
    decreases a
  {
    hide Exec;
    if a == [] {
      assert a + b == b;
    } else {
      assert (a + b)[1..] == a[1..] + b;
      var out := Exec(pl, a[0], fuel, st);
      if out.Normal? {
        SeqSplits(pl, a[1..], b, fuel, out.st);
      }
    }
  }

  /** An `elsif` is an `if` in the `else`. */
  lemma ElsifIsNested(pl: Platform, c: Expr, body: Stmt, rest: Arms, fuel: nat, st: Store)
    ensures ExecArms(pl, Elsif(c, body, rest), fuel, st) == ExecArms(pl, Else(If(c, body, rest)), fuel, st)
  {
    assert Exec(pl, If(c, body, rest), fuel, st) == ExecIf(pl, If(c, body, rest), fuel, st);
  }

  /** A local without initialiser is zero. */
  lemma FreshIsZero(pl: Platform, vars: seq<Option<Expr>>, stmts: seq<Stmt>, fuel: nat, st: Store)
    ensures Exec(pl, Block([None] + vars, stmts), fuel, st) == Exec(pl, Block([Some(Const(0))] + vars, stmts), fuel, st)
  {
    var n := |st.locals|;
    var a, b: seq<Option<Expr>> := [None] + vars, [Some(Const(0))] + vars;
    var st1 := st.(locals := st.locals + Zeros(|a|));
    assert a[1..] == vars == b[1..];
    ConstIs(pl, 0, st1);
    AssignStores(pl, n, Const(0), st1);
    assert st1.locals[n := 0] == st1.locals;
    BlockIs(pl, a, stmts, fuel, st);
    BlockIs(pl, b, stmts, fuel, st);
    hide ExecSeq, Eval, Exec, LeaveBlock;
    assert ExecInits(pl, a, n, st1) == ExecInits(pl, vars, n + 1, st1) == ExecInits(pl, b, n, st1);
  }

  lemma BlockIs(pl: Platform, vars: seq<Option<Expr>>, stmts: seq<Stmt>, fuel: nat, st: Store)
    ensures var st1 := st.(locals := st.locals + Zeros(|vars|));
      Exec(pl, Block(vars, stmts), fuel, st)
      == LeaveBlock(|st.locals|, ExecSeq(pl, stmts, fuel, ExecInits(pl, vars, |st.locals|, st1)))
  {
    assert Exec(pl, Block(vars, stmts), fuel, st) == ExecBlock(pl, Block(vars, stmts), fuel, st);
  }

  /** The initialisers as assignments to the variables from number v on. */
  function Assigns(vars: seq<Option<Expr>>, v: nat): seq<Stmt> {
    if vars == [] then []
    else (if vars[0].Some? then [ExprStmt(Assign(v, vars[0].value))] else []) + Assigns(vars[1..], v + 1)
  }

  lemma {:induction false} InitsAreAssigns(pl: Platform, vars: seq<Option<Expr>>, v: nat, stmts: seq<Stmt>, fuel: nat,
                                           st: Store)
    ensures ExecSeq(pl, Assigns(vars, v) + stmts, fuel, st) == ExecSeq(pl, stmts, fuel, ExecInits(pl, vars, v, st))
    decreases vars
  {
    hide Exec, Eval;
    if vars == [] {
      assert Assigns(vars, v) + stmts == stmts;
    } else {
      var rest := Assigns(vars[1..], v + 1) + stmts;
      match vars[0]
      case None =>
        assert Assigns(vars, v) + stmts == rest;
        InitsAreAssigns(pl, vars[1..], v + 1, stmts, fuel, st);
      case Some(e) =>
        var s := ExprStmt(Assign(v, e));
        assert Assigns(vars, v) + stmts == [s] + rest;
        StmtIs(pl, Assign(v, e), fuel, st);
        SeqOne(pl, s, fuel, st);
        SeqSplits(pl, [s], rest, fuel, st);
        InitsAreAssigns(pl, vars[1..], v + 1, stmts, fuel, Eval(pl, Assign(v, e), st).1);
    }
  }

  /** The initialisers of a block are assignments at its start, in order. */
  lemma BlockInitialises(pl: Platform, vars: seq<Option<Expr>>, stmts: seq<Stmt>, fuel: nat, st: Store)
    ensures Exec(pl, Block(vars, stmts), fuel, st)
            == Exec(pl, Block(seq(|vars|, _ => None), Assigns(vars, |st.locals|) + stmts), fuel, st)
  {
    var none: seq<Option<Expr>> := seq(|vars|, _ => None);
    var st1 := st.(locals := st.locals + Zeros(|vars|));
    BlockIs(pl, vars, stmts, fuel, st);
    BlockIs(pl, none, Assigns(vars, |st.locals|) + stmts, fuel, st);
    NoInits(pl, none, |st.locals|, st1);
    InitsAreAssigns(pl, vars, |st.locals|, stmts, fuel, st1);
    hide Exec, ExecSeq, ExecInits;
  }

  /** A block leaves the locals around it in their places, and takes its own away. */
  lemma EmptyBlock(pl: Platform, vars: seq<Option<Expr>>, fuel: nat, st: Store)
    requires forall i | 0 <= i < |vars| :: vars[i].None?
    ensures Exec(pl, Block(vars, []), fuel, st) == Normal(st)
  {
    var st1 := st.(locals := st.locals + Zeros(|vars|));
    NoInits(pl, vars, |st.locals|, st1);
    BlockIs(pl, vars, [], fuel, st);
    assert ExecSeq(pl, [], fuel, st1) == Normal(st1);
    assert st1.locals[..|st.locals|] == st.locals;
    hide Exec, ExecSeq, ExecInits;
  }

  lemma {:induction false} NoInits(pl: Platform, vars: seq<Option<Expr>>, v: nat, st: Store)
    requires forall i | 0 <= i < |vars| :: vars[i].None?
    ensures ExecInits(pl, vars, v, st) == st
    decreases vars
  {
    if vars != [] {
      NoInits(pl, vars[1..], v + 1, st);
    }
  }

  /** A `case` tries its conditions in order and stops at the first that is equal. */
  lemma {:induction false} CondsSplit(pl: Platform, x: Int32, a: seq<Expr>, b: seq<Expr>, st: Store)
    ensures var r := MatchConds(pl, x, a, st);
      MatchConds(pl, x, a + b, st) == if r.0 then r else MatchConds(pl, x, b, r.1)
    decreases a
  {
    hide Eval;
    if a == [] {
      assert a + b == b;
    } else {
      assert (a + b)[1..] == a[1..] + b;
      CondsSplit(pl, x, a[1..], b, Eval(pl, a[0], st).1);
    }
  }

  /** It has one value for all items; without a match nothing is run, unless there is a default. */
  lemma CaseIs(pl: Platform, c: Int32, items: Items, body: Stmt, fuel: nat, st: Store)
    ensures Exec(pl, Case(Const(c), items), fuel, st) == ExecItems(pl, c, items, fuel, st)
    ensures ExecItems(pl, c, NoItem, fuel, st) == Normal(st)
    ensures ExecItems(pl, c, Default(body), fuel, st) == Exec(pl, body, fuel, st)
  {
    ConstIs(pl, c, st);
    assert Exec(pl, Case(Const(c), items), fuel, st) == ExecCase(pl, Case(Const(c), items), fuel, st);
    hide Exec, Eval;
  }

  /** A `case` on constants runs the item with the constant. */
  lemma CaseTakes(pl: Platform, c: Int32, d: Int32, body: Stmt, rest: Items, fuel: nat, st: Store)
    ensures ExecItems(pl, c, Item([Const(d)], body, rest), fuel, st) ==
            if c == d then Exec(pl, body, fuel, st) else ExecItems(pl, c, rest, fuel, st)
  {
    ConstIs(pl, d, st);
    assert [Const(d)][1..] == [];
    hide Exec, Eval;
    assert MatchConds(pl, c, [], st) == (false, st);
    assert MatchConds(pl, c, [Const(d)], st) == (c == d, st);
  }

  // ----- Loops -----

  /** A `while` is a `for` with a test only. */
  lemma WhileIsFor(pl: Platform, lp: LoopId, c: Expr, body: Stmt, fuel: nat, st: Store)
    ensures Exec(pl, While(lp, c, body), fuel, st) == Exec(pl, For(lp, [], Some(c), [], body), fuel, st)
  {
    SameTurns(pl, While(lp, c, body), For(lp, [], Some(c), [], body), fuel, 0, st);
  }

  /** A `forever` is a `for` with nothing but a body. */
  lemma ForeverIsFor(pl: Platform, lp: LoopId, body: Stmt, fuel: nat, st: Store)
    ensures Exec(pl, Forever(lp, body), fuel, st) == Exec(pl, For(lp, [], None, [], body), fuel, st)
  {
    SameTurns(pl, Forever(lp, body), For(lp, [], None, [], body), fuel, 0, st);
  }

  /** The expressions in front of a `for` are evaluated once. */
  lemma ForStarts(pl: Platform, lp: LoopId, e: Expr, init: seq<Expr>, test: Option<Expr>, last: seq<Expr>, body: Stmt,
                  fuel: nat, st: Store)
    ensures Exec(pl, For(lp, [e] + init, test, last, body), fuel, st)
            == ExecSeq(pl, [ExprStmt(e), For(lp, init, test, last, body)], fuel, st)
  {
    var a, b := For(lp, [e] + init, test, last, body), For(lp, init, test, last, body);
    var st1 := Eval(pl, e, st).1;
    assert ([e] + init)[1..] == init;
    assert EvalAll(pl, [e] + init, st) == EvalAll(pl, init, st1);
    SameTurns(pl, a, b, fuel, 0, EvalAll(pl, init, st1));
    ForIs(pl, a, fuel, st);
    ForIs(pl, b, fuel, st1);
    StmtIs(pl, e, fuel, st);
    var two := [ExprStmt(e), b];
    assert two[1..] == [b] && two == [ExprStmt(e)] + [b];
    SeqSplits(pl, [ExprStmt(e)], [b], fuel, st);
    SeqOne(pl, ExprStmt(e), fuel, st);
    SeqOne(pl, b, fuel, st1);
    hide Exec, ExecSeq, ExecLoop, Eval, EvalAll;
  }

  lemma ForIs(pl: Platform, s: Stmt, fuel: nat, st: Store)
    requires s.For?
    ensures Exec(pl, s, fuel, st) == ExecLoop(pl, s, fuel, 0, EvalAll(pl, s.init, st))
  {
    hide ExecLoop;
  }

  lemma StmtIs(pl: Platform, e: Expr, fuel: nat, st: Store)
    ensures Exec(pl, ExprStmt(e), fuel, st) == Normal(Eval(pl, e, st).1)
  {
  }

  lemma SeqOne(pl: Platform, s: Stmt, fuel: nat, st: Store)
    ensures ExecSeq(pl, [s], fuel, st) == Exec(pl, s, fuel, st)
  {
    hide Exec;
    assert [s][1..] == [];
  }

  /** When the body of a `for` goes through, the expressions at its end are evaluated before the next
      test; a continue comes to them as well (`ContinueGoesOn`). */
  lemma ForTurns(pl: Platform, lp: LoopId, init: seq<Expr>, test: Option<Expr>, e: Expr, last: seq<Expr>, body: Stmt,
                 fuel: nat, st: Store)
    requires fuel > 0
    ensures var s := For(lp, init, test, [e] + last, body);
      ExecTurn(pl, s, fuel, 0, Normal(st)) == ExecLoop(pl, s, fuel - 1, 0, EvalAll(pl, last, Eval(pl, e, st).1))
  {
    assert ([e] + last)[1..] == last;
    assert EvalAll(pl, [e] + last, st) == EvalAll(pl, last, Eval(pl, e, st).1);
    hide ExecLoop, Eval, EvalAll;
  }

  /** Two loops with the same body, the same test and the same end of a turn. */
  ghost predicate Alike(pl: Platform, s: Stmt, t: Stmt) {
    && s.IsLoop() && t.IsLoop() && s.lp == t.lp && s.body == t.body
    && (forall k, st :: LoopHead(pl, s, k, st) == LoopHead(pl, t, k, st))
    && forall st :: LoopTail(pl, s, st) == LoopTail(pl, t, st)
  }

  lemma {:induction false} SameTurns(pl: Platform, s: Stmt, t: Stmt, fuel: nat, k: nat, st: Store)
    requires Alike(pl, s, t)
    ensures ExecLoop(pl, s, fuel, k, st) == ExecLoop(pl, t, fuel, k, st)
    decreases fuel
  {
    hide LoopHead, LoopTail, Exec;
    if fuel > 0 {
      var (go, st1) := LoopHead(pl, s, k, st);
      var out := Exec(pl, s.body, fuel - 1, st1);
      if go && Again(s.lp.name, out) {
        SameTurns(pl, s, t, fuel - 1, if k > 0 then k - 1 else 0, LoopTail(pl, s, out.st).1);
      }
    }
  }

  // ----- The allowance of turns -----

  /** A greater allowance never changes how a statement ends. */
  lemma {:induction false} MoreTurns(pl: Platform, s: Stmt, fuel: nat, st: Store)
    requires !Exec(pl, s, fuel, st).Timeout?
    ensures Exec(pl, s, fuel + 1, st) == Exec(pl, s, fuel, st)
    decreases fuel, s, 3
  {
    hide ExecLoop, ExecSeq, ExecArms, ExecItems, ExecInits, Eval, EvalAll;
    match s
    case If(c, thn, rest) =>
      var st1 := Eval(pl, c, st).1;
      if Eval(pl, c, st).0 != 0 {
        MoreTurns(pl, thn, fuel, st1);
      } else {
        MoreInArms(pl, rest, fuel, st1);
      }
    case While(_, _, _) => MoreInLoop(pl, s, fuel, 0, st);
    case For(_, init, _, _, _) => MoreInLoop(pl, s, fuel, 0, EvalAll(pl, init, st));
    case Repeat(_, n, _) => MoreInLoop(pl, s, fuel, Count(Eval(pl, n, st).0), Eval(pl, n, st).1);
    case DoWhile(_, _, _) => MoreInLoop(pl, s, fuel, 0, st);
    case Forever(_, _) => MoreInLoop(pl, s, fuel, 0, st);
    case Case(c, items) => MoreInItems(pl, Eval(pl, c, st).0, items, fuel, Eval(pl, c, st).1);
    case Block(vars, stmts) =>
      MoreInSeq(pl, stmts, fuel,
                ExecInits(pl, vars, |st.locals|, st.(locals := st.locals + Zeros(|vars|))));
    case _ =>
  }

  lemma {:induction false} MoreInSeq(pl: Platform, ss: seq<Stmt>, fuel: nat, st: Store)
    requires !ExecSeq(pl, ss, fuel, st).Timeout?
    ensures ExecSeq(pl, ss, fuel + 1, st) == ExecSeq(pl, ss, fuel, st)
    decreases fuel, ss, 0
  {
    hide Exec;
    if ss != [] {
      MoreTurns(pl, ss[0], fuel, st);
      var out := Exec(pl, ss[0], fuel, st);
      if out.Normal? {
        MoreInSeq(pl, ss[1..], fuel, out.st);
      }
    }
  }

  lemma {:induction false} MoreInArms(pl: Platform, arms: Arms, fuel: nat, st: Store)
    requires !ExecArms(pl, arms, fuel, st).Timeout?
    ensures ExecArms(pl, arms, fuel + 1, st) == ExecArms(pl, arms, fuel, st)
    decreases fuel, arms, 0
  {
    hide Exec, Eval;
    match arms
    case NoElse =>
    case Else(body) => MoreTurns(pl, body, fuel, st);
    case Elsif(c, body, rest) =>
      var st1 := Eval(pl, c, st).1;
      if Eval(pl, c, st).0 != 0 {
        MoreTurns(pl, body, fuel, st1);
      } else {
        MoreInArms(pl, rest, fuel, st1);
      }
  }

  lemma {:induction false} MoreInItems(pl: Platform, x: Int32, items: Items, fuel: nat, st: Store)
    requires !ExecItems(pl, x, items, fuel, st).Timeout?
    ensures ExecItems(pl, x, items, fuel + 1, st) == ExecItems(pl, x, items, fuel, st)
    decreases fuel, items, 0
  {
    hide Exec, MatchConds;
    match items
    case NoItem =>
    case Default(body) => MoreTurns(pl, body, fuel, st);
    case Item(conds, body, rest) =>
      var (hit, st1) := MatchConds(pl, x, conds, st);
      if hit {
        MoreTurns(pl, body, fuel, st1);
      } else {
        MoreInItems(pl, x, rest, fuel, st1);
      }
  }

  lemma {:induction false} MoreInLoop(pl: Platform, s: Stmt, fuel: nat, k: nat, st: Store)
    requires s.IsLoop() && !ExecLoop(pl, s, fuel, k, st).Timeout?
    ensures ExecLoop(pl, s, fuel + 1, k, st) == ExecLoop(pl, s, fuel, k, st)
    decreases fuel, s, 1
  {
    hide Exec, LoopHead, LoopTail;
    var (go, st1) := LoopHead(pl, s, k, st);
    if go {
      var out := Exec(pl, s.body, fuel - 1, st1);
      MoreTurns(pl, s.body, fuel - 1, st1);
      if Again(s.lp.name, out) {
        var (again, st2) := LoopTail(pl, s, out.st);
        if again {
          MoreInLoop(pl, s, fuel - 1, if k > 0 then k - 1 else 0, st2);
        }
      }
    }
  }

  /** With some allowance of turns the statement ends like that. */
  ghost predicate Gives(pl: Platform, s: Stmt, st: Store, out: Outcome) {
    !out.Timeout? && exists fuel: nat :: Exec(pl, s, fuel, st) == out
  }

  lemma {:induction false} StaysSo(pl: Platform, s: Stmt, fuel: nat, more: nat, st: Store)
    requires fuel <= more && !Exec(pl, s, fuel, st).Timeout?
    ensures Exec(pl, s, more, st) == Exec(pl, s, fuel, st)
    decreases more
  {
    hide Exec;
    if fuel < more {
      StaysSo(pl, s, fuel, more - 1, st);
      MoreTurns(pl, s, more - 1, st);
    }
  }

  /** A statement ends in one way only. */
  lemma OneEnd(pl: Platform, s: Stmt, st: Store, a: Outcome, b: Outcome)
    requires Gives(pl, s, st, a) && Gives(pl, s, st, b)
    ensures a == b
  {
    hide Exec;
    var m: nat :| Exec(pl, s, m, st) == a;
    var n: nat :| Exec(pl, s, n, st) == b;
    if m <= n {
      StaysSo(pl, s, m, n, st);
    } else {
      StaysSo(pl, s, n, m, st);
    }
  }

  // ----- Rotated loops -----

  lemma WhileHead(pl: Platform, lp: LoopId, c: Expr, body: Stmt, fuel: nat, st: Store)
    requires fuel > 0
    ensures var s, (x, st1) := While(lp, c, body), Eval(pl, c, st);
      && Exec(pl, s, fuel, st) == ExecLoop(pl, s, fuel, 0, st)
      && ExecLoop(pl, s, fuel, 0, st) ==
           if x != 0 then ExecTurn(pl, s, fuel, 0, Exec(pl, body, fuel - 1, st1)) else Normal(st1)
  {
    hide ExecTurn;
  }

  lemma DoHead(pl: Platform, lp: LoopId, c: Expr, body: Stmt, fuel: nat, st: Store)
    requires fuel > 0
    ensures var d := DoWhile(lp, body, c);
      && Exec(pl, d, fuel, st) == ExecLoop(pl, d, fuel, 0, st)
      && ExecLoop(pl, d, fuel, 0, st) == ExecTurn(pl, d, fuel, 0, Exec(pl, body, fuel - 1, st))
  {
    hide ExecTurn;
  }

  /** What a turn of either loop comes to when its body goes through. */
  lemma BothTurns(pl: Platform, lp: LoopId, c: Expr, body: Stmt, fuel: nat, out: Outcome)
    requires fuel > 0 && Again(lp.name, out)
    ensures var s, d, (x, st1) := While(lp, c, body), DoWhile(lp, body, c), Eval(pl, c, out.st);
      && ExecTurn(pl, s, fuel, 0, out) == ExecLoop(pl, s, fuel - 1, 0, out.st)
      && ExecTurn(pl, d, fuel, 0, out) == if x != 0 then ExecLoop(pl, d, fuel - 1, 0, st1) else Normal(st1)
  {
    hide ExecLoop;
  }

  lemma OtherTurns(pl: Platform, lp: LoopId, c: Expr, body: Stmt, m: nat, n: nat, out: Outcome)
    requires m > 0 && n > 0 && !Again(lp.name, out)
    ensures ExecTurn(pl, While(lp, c, body), m, 0, out) == ExecTurn(pl, DoWhile(lp, body, c), n, 0, out)
  {
  }

  lemma NoTurns(pl: Platform, s: Stmt, k: nat, st: Store)
    requires s.IsLoop()
    ensures ExecLoop(pl, s, 0, k, st) == Timeout
  {
  }

  /** After the test a `while` goes on as a `do` loop does. */
  lemma {:induction false} TurnIsRotated(pl: Platform, lp: LoopId, c: Expr, body: Stmt, fuel: nat, st: Store)
    requires fuel > 0
    ensures var s, d := While(lp, c, body), DoWhile(lp, body, c);
      var a, b := ExecTurn(pl, s, fuel, 0, Exec(pl, body, fuel - 1, st)), ExecLoop(pl, d, fuel, 0, st);
      && (!a.Timeout? ==> b == a)
      && (!b.Timeout? ==> ExecTurn(pl, s, fuel + 1, 0, Exec(pl, body, fuel, st)) == b)
    decreases fuel
  {
    var s, d := While(lp, c, body), DoWhile(lp, body, c);
    var out := Exec(pl, body, fuel - 1, st);
    DoHead(pl, lp, c, body, fuel, st);
    if !out.Timeout? {
      MoreTurns(pl, body, fuel - 1, st);
      if Again(lp.name, out) {
        BothTurns(pl, lp, c, body, fuel, out);
        BothTurns(pl, lp, c, body, fuel + 1, out);
        WhileHead(pl, lp, c, body, fuel, out.st);
        var (x, st1) := Eval(pl, c, out.st);
        if fuel > 1 {
          WhileHead(pl, lp, c, body, fuel - 1, out.st);
          TurnIsRotated(pl, lp, c, body, fuel - 1, st1);
        } else {
          NoTurns(pl, s, 0, out.st);
          NoTurns(pl, d, 0, st1);
        }
      } else {
        OtherTurns(pl, lp, c, body, fuel, fuel, out);
        OtherTurns(pl, lp, c, body, fuel + 1, fuel, out);
      }
    }
    hide Exec, Eval, ExecTurn, ExecLoop;
  }

  lemma IfIs(pl: Platform, c: Expr, thn: Stmt, fuel: nat, st: Store)
    ensures var (x, st1) := Eval(pl, c, st);
      Exec(pl, If(c, thn, NoElse), fuel, st) == if x != 0 then Exec(pl, thn, fuel, st1) else Normal(st1)
  {
    assert Exec(pl, If(c, thn, NoElse), fuel, st) == ExecIf(pl, If(c, thn, NoElse), fuel, st);
    assert ExecArms(pl, NoElse, fuel, Eval(pl, c, st).1) == Normal(Eval(pl, c, st).1);
    hide Exec, Eval;
  }

  lemma NeverInNoTurns(pl: Platform, lp: LoopId, c: Expr, body: Stmt, st: Store)
    ensures Exec(pl, While(lp, c, body), 0, st).Timeout? && Exec(pl, DoWhile(lp, body, c), 0, st).Timeout?
  {
  }

  /** A `while` is a `do` loop behind its test. */
  lemma WhileIsRotated(pl: Platform, lp: LoopId, c: Expr, body: Stmt, st: Store, out: Outcome)
    ensures Gives(pl, While(lp, c, body), st, out) <==> Gives(pl, If(c, DoWhile(lp, body, c), NoElse), st, out)
  {
    hide Eval, ExecTurn, Exec, ExecLoop;
    var s, d := While(lp, c, body), DoWhile(lp, body, c);
    var t := If(c, d, NoElse);
    var (x, st1) := Eval(pl, c, st);
    NeverInNoTurns(pl, lp, c, body, st);
    NeverInNoTurns(pl, lp, c, body, st1);
    if Gives(pl, s, st, out) {
      var fuel: nat :| Exec(pl, s, fuel, st) == out;
      WhileHead(pl, lp, c, body, fuel, st);
      DoHead(pl, lp, c, body, fuel, st1);
      IfIs(pl, c, d, fuel, st);
      TurnIsRotated(pl, lp, c, body, fuel, st1);
      assert Exec(pl, t, fuel, st) == out;
    }
    if Gives(pl, t, st, out) {
      var fuel: nat :| Exec(pl, t, fuel, st) == out;
      IfIs(pl, c, d, fuel, st);
      WhileHead(pl, lp, c, body, fuel + 1, st);
      if x != 0 {
        DoHead(pl, lp, c, body, fuel, st1);
        TurnIsRotated(pl, lp, c, body, fuel, st1);
      }
      assert Exec(pl, s, fuel + 1, st) == out;
    }
  }

  // ----- The emitted texts -----

  /** The two programs end alike from every store. */
  ghost predicate Same(pl: Platform, s: Stmt, t: Stmt) {
    forall st, out :: Gives(pl, s, st, out) <==> Gives(pl, t, st, out)
  }

  /** The machine stops on the text of the program with this frame and this clock. */
  ghost predicate TextStops(pl: Platform, s: Stmt, idx: seq<nat>, stack: seq<Int32>, acc: Int32, now: nat, n: nat,
                            frame: seq<Int32>, time: nat)
  {
    exists end :: Stops(pl, GenStmt(s, idx, |stack|, [], n).code, State(0, acc, stack, now), end)
      && end.stack == frame && end.now == time
  }

  lemma EndsAlike(pl: Platform, s: Stmt, t: Stmt, idx: seq<nat>, stack: seq<Int32>, now: nat, frame: seq<Int32>,
                  time: nat)
    requires Same(pl, s, t) && SlotsOk(idx, |stack|) && EndsWith(pl, s, idx, stack, now, frame, time)
    ensures EndsWith(pl, t, idx, stack, now, frame, time)
  {
    hide Exec, Mem;
    var st := Store(LocalsIn(stack, idx), now);
    var fuel: nat :| EndsIn(Exec(pl, s, fuel, st), stack, idx, frame, time);
    var out := Exec(pl, s, fuel, st);
    assert Gives(pl, s, st, out);
    assert Gives(pl, t, st, out);
    var more: nat :| Exec(pl, t, more, st) == out;
    assert EndsIn(Exec(pl, t, more, st), stack, idx, frame, time);
  }

  /** Programs that mean the same have texts that stop in the same states. */
  lemma SameTextsStopAlike(pl: Platform, s: Stmt, t: Stmt, idx: seq<nat>, stack: seq<Int32>, acc: Int32, now: nat,
                           m: nat, n: nat, frame: seq<Int32>, time: nat)
    requires Same(pl, s, t) && Program(s, idx, stack, m) && Program(t, idx, stack, n)
    ensures TextStops(pl, s, idx, stack, acc, now, m, frame, time)
            <==> TextStops(pl, t, idx, stack, acc, now, n, frame, time)
  {
    hide Exec, GenStmt, EndsWith, Same, Gives, Program;
    ProgramSlots(s, idx, stack, m);
    CompilationIsExact(pl, s, idx, stack, acc, now, m, frame, time);
    CompilationIsExact(pl, t, idx, stack, acc, now, n, frame, time);
    if EndsWith(pl, s, idx, stack, now, frame, time) {
      EndsAlike(pl, s, t, idx, stack, now, frame, time);
    }
    if EndsWith(pl, t, idx, stack, now, frame, time) {
      SameTurned(pl, s, t);
      EndsAlike(pl, t, s, idx, stack, now, frame, time);
    }
  }

  lemma ProgramSlots(s: Stmt, idx: seq<nat>, stack: seq<Int32>, n: nat)
    requires Program(s, idx, stack, n)
    ensures SlotsOk(idx, |stack|)
  {
  }

  lemma SameTurned(pl: Platform, s: Stmt, t: Stmt)
    requires Same(pl, s, t)
    ensures Same(pl, t, s)
  {
    hide Gives;
    forall st, out ensures Gives(pl, t, st, out) <==> Gives(pl, s, st, out) {
    }
  }

  /** The text of a `while` and that of the `do` loop behind its test stop in the same states. */
  lemma RotatedTextsStopAlike(pl: Platform, lp: LoopId, c: Expr, body: Stmt, idx: seq<nat>, stack: seq<Int32>,
                              acc: Int32, now: nat, n: nat, frame: seq<Int32>, time: nat)
    requires Program(While(lp, c, body), idx, stack, n) && Program(If(c, DoWhile(lp, body, c), NoElse), idx, stack, n)
    ensures TextStops(pl, While(lp, c, body), idx, stack, acc, now, n, frame, time)
            <==> TextStops(pl, If(c, DoWhile(lp, body, c), NoElse), idx, stack, acc, now, n, frame, time)
  {
    hide Gives, Program, TextStops;
    var s, t := While(lp, c, body), If(c, DoWhile(lp, body, c), NoElse);
    forall st, out ensures Gives(pl, s, st, out) <==> Gives(pl, t, st, out) {
      WhileIsRotated(pl, lp, c, body, st, out);
    }
    SameTextsStopAlike(pl, s, t, idx, stack, acc, now, n, n, frame, time);
  }
}
