/**
The int-valued part of the language as the parser hands it to the generator, with its meaning.

Names are resolved: a variable is its position among the variables in scope. A loop carries
the two label numbers that the parser gave it.
*/
module Source {
  import opened Machine

  datatype Expr =
    | Const(c: Int32)
    | Local(v: nat)
    | Port(p: nat)
    | Bin(op: BinOp, l: Expr, r: Expr)
    | Un(uop: UnOp, e: Expr)
    | LAnd(l: Expr, r: Expr)
    | LOr(l: Expr, r: Expr)
    | Cond(cond: Expr, thn: Expr, els: Expr)
    | PreInc(v: nat)
    | PreDec(v: nat)
    | PostInc(v: nat)
    | PostDec(v: nat)
    | Assign(v: nat, e: Expr)
    | AssignOp(op: BinOp, v: nat, e: Expr)
    // @delay,window( conds ) in its "till" and its "while" form
    | Till(delay: Expr, window: Option<Expr>, conds: seq<Expr>)
    | Whilst(delay: Expr, window: Option<Expr>, conds: seq<Expr>)

  datatype LoopId = LoopId(name: string, cont: nat, brk: nat)

  datatype Stmt =
    | Null
    | ExprStmt(e: Expr)
    | If(cond: Expr, thn: Stmt, rest: Arms)
    | While(lp: LoopId, cond: Expr, body: Stmt)
    | For(lp: LoopId, init: seq<Expr>, test: Option<Expr>, last: seq<Expr>, body: Stmt)
    | Repeat(lp: LoopId, number: Expr, body: Stmt)
    | DoWhile(lp: LoopId, body: Stmt, cond: Expr)
    | Forever(lp: LoopId, body: Stmt)
    | Case(cond: Expr, items: Items)
    | Break(target: Option<string>)
    | Continue(target: Option<string>)
    | Block(vars: seq<Option<Expr>>, stmts: seq<Stmt>)
  {
    predicate IsLoop() { While? || For? || Repeat? || DoWhile? || Forever? }
  }

  datatype Arms = NoElse | Else(body: Stmt) | Elsif(cond: Expr, body: Stmt, rest: Arms)

  // whatever follows a default item is ignored
  datatype Items = NoItem | Default(body: Stmt) | Item(conds: seq<Expr>, body: Stmt, rest: Items)

  /** The locals in scope, in order of declaration, and the current clock sample. */
  datatype Store = Store(locals: seq<Int32>, now: nat)
  {
    function Get(v: nat): Int32 { if v < |locals| then locals[v] else 0 }

    function Set(v: nat, x: Int32): Store {
      if v < |locals| then this.(locals := locals[v := x]) else this
    }

    function Advance(d: Int32): Store { this.(now := now + if d > 0 then d else 0) }
  }

  /** How often a counter that starts at n can be decremented before it is zero. */
  function Count(n: Int32): nat { n % 0x1_0000_0000 }

  // ----- Expressions -----

  function Eval(pl: Platform, e: Expr, st: Store): (r: (Int32, Store))
    ensures |r.1.locals| == |st.locals|
    decreases e, 2, 0
  {
    match e
    case Const(c) => (c, st)
    case Local(v) => (st.Get(v), st)
    case Port(p) => (pl.port(p, st.now), st)
    case Bin(_, _, _) => EvalBin(pl, e, st)
    case Un(uop, e1) => var (x, st1) := Eval(pl, e1, st); (pl.un(uop, x), st1)
    case LAnd(_, _) => EvalLAnd(pl, e, st)
    case LOr(_, _) => EvalLOr(pl, e, st)
    case Cond(_, _, _) => EvalCond(pl, e, st)
    case PreInc(v) => (Wrap(st.Get(v) + 1), st.Set(v, Wrap(st.Get(v) + 1)))
    case PreDec(v) => (Wrap(st.Get(v) - 1), st.Set(v, Wrap(st.Get(v) - 1)))
    case PostInc(v) => (st.Get(v), st.Set(v, Wrap(st.Get(v) + 1)))
    case PostDec(v) => (st.Get(v), st.Set(v, Wrap(st.Get(v) - 1)))
    case Assign(v, e1) => var (x, st1) := Eval(pl, e1, st); (x, st1.Set(v, x))
    case AssignOp(op, v, e1) =>
      var (x, st1) := Eval(pl, e1, st);
      var y := pl.bin(op, st.Get(v), x);
      (y, st1.Set(v, y))
    case Till(_, _, _) => EvalTimed(pl, e, st)
    case Whilst(_, _, _) => EvalTimed(pl, e, st)
  }

  function EvalBin(pl: Platform, e: Expr, st: Store): (r: (Int32, Store))
    requires e.Bin?
    ensures |r.1.locals| == |st.locals|
    decreases e, 1, 0
  {
    var (x, st1) := Eval(pl, e.l, st);
    var (y, st2) := Eval(pl, e.r, st1);
    (pl.bin(e.op, x, y), st2)
  }

  function EvalLAnd(pl: Platform, e: Expr, st: Store): (r: (Int32, Store))
    requires e.LAnd?
    ensures |r.1.locals| == |st.locals|
    decreases e, 1, 0
  {
    var (x, st1) := Eval(pl, e.l, st);
    if x == 0 then (0, st1)
    else
      var (y, st2) := Eval(pl, e.r, st1);
      (if y == 0 then 0 else 1, st2)
  }

  function EvalLOr(pl: Platform, e: Expr, st: Store): (r: (Int32, Store))
    requires e.LOr?
    ensures |r.1.locals| == |st.locals|
    decreases e, 1, 0
  {
    var (x, st1) := Eval(pl, e.l, st);
    if x != 0 then (1, st1)
    else
      var (y, st2) := Eval(pl, e.r, st1);
      (if y == 0 then 0 else 1, st2)
  }

  function EvalCond(pl: Platform, e: Expr, st: Store): (r: (Int32, Store))
    requires e.Cond?
    ensures |r.1.locals| == |st.locals|
    decreases e, 1, 0
  {
    var (x, st1) := Eval(pl, e.cond, st);
    if x != 0 then Eval(pl, e.thn, st1) else Eval(pl, e.els, st1)
  }

  /** Waits the delay, then samples for as long as the window allows. */
  function EvalTimed(pl: Platform, e: Expr, st: Store): (r: (Int32, Store))
    requires e.Till? || e.Whilst?
    ensures |r.1.locals| == |st.locals|
    decreases e, 1, 0
  {
    var (d, st1) := Eval(pl, e.delay, st);
    var (w, st2) := EvalWindow(pl, e.window, if e.Till? then 0 else 1, st1.Advance(d));
    if e.Till? then TillLoop(pl, e.conds, Count(w), st2) else WhilstLoop(pl, e.conds, Count(w), st2)
  }

  function EvalWindow(pl: Platform, window: Option<Expr>, default: Int32, st: Store): (r: (Int32, Store))
    ensures |r.1.locals| == |st.locals|
    decreases window, 0, 0
  {
    match window
    case None => (default, st)
    case Some(w) => Eval(pl, w, st)
  }

  /** Evaluates the conditions in order up to the first that is zero. */
  function EvalConds(pl: Platform, conds: seq<Expr>, st: Store): (r: (bool, Store))
    ensures |r.1.locals| == |st.locals|
    decreases conds, 0, 0
  {
    if conds == [] then (true, st)
    else
      var (x, st1) := Eval(pl, conds[0], st);
      if x == 0 then (false, st1) else EvalConds(pl, conds[1..], st1)
  }

  function TillLoop(pl: Platform, conds: seq<Expr>, k: nat, st: Store): (r: (Int32, Store))
    ensures |r.1.locals| == |st.locals|
    decreases conds, 1, k
  {
    var (ok, st1) := EvalConds(pl, conds, st);
    if ok then (1, st1)
    else if k == 0 then (0, st1)
    else TillLoop(pl, conds, k - 1, st1.Advance(1))
  }

  function WhilstLoop(pl: Platform, conds: seq<Expr>, k: nat, st: Store): (r: (Int32, Store))
    ensures |r.1.locals| == |st.locals|
    decreases conds, 1, k
  {
    var (ok, st1) := EvalConds(pl, conds, st);
    if !ok then (0, st1)
    else if k == 0 then (1, st1)
    else WhilstLoop(pl, conds, k - 1, st1.Advance(1))
  }

  function EvalAll(pl: Platform, es: seq<Expr>, st: Store): (r: Store)
    ensures |r.locals| == |st.locals|
    decreases es
  {
    if es == [] then st else EvalAll(pl, es[1..], Eval(pl, es[0], st).1)
  }

  // ----- Statements -----

  /** How a statement ends; `Timeout` when the allowance of loop turns runs out. */
  datatype Outcome =
    | Normal(st: Store)
    | Broke(target: Option<string>, st: Store)
    | Continued(target: Option<string>, st: Store)
    | Timeout

  predicate Catches(name: string, target: Option<string>) {
    target.None? || target.value == name
  }

  function Exec(pl: Platform, s: Stmt, fuel: nat, st: Store): (r: Outcome)
    ensures r.Timeout? || |r.st.locals| == |st.locals|
    decreases fuel, s, 3
  {
    match s
    case Null => Normal(st)
    case ExprStmt(e) => Normal(Eval(pl, e, st).1)
    case If(_, _, _) => ExecIf(pl, s, fuel, st)
    case While(_, _, _) => ExecLoop(pl, s, fuel, 0, st)
    case For(_, init, _, _, _) => ExecLoop(pl, s, fuel, 0, EvalAll(pl, init, st))
    case Repeat(_, _, _) => ExecRepeat(pl, s, fuel, st)
    case DoWhile(_, _, _) => ExecLoop(pl, s, fuel, 0, st)
    case Forever(_, _) => ExecLoop(pl, s, fuel, 0, st)
    case Case(_, _) => ExecCase(pl, s, fuel, st)
    case Break(target) => Broke(target, st)
    case Continue(target) => Continued(target, st)
    case Block(_, _) => ExecBlock(pl, s, fuel, st)
  }

  function ExecIf(pl: Platform, s: Stmt, fuel: nat, st: Store): (r: Outcome)
    requires s.If?
    ensures r.Timeout? || |r.st.locals| == |st.locals|
    decreases fuel, s, 2
  {
    var (x, st1) := Eval(pl, s.cond, st);
    if x != 0 then Exec(pl, s.thn, fuel, st1) else ExecArms(pl, s.rest, fuel, st1)
  }

  function ExecRepeat(pl: Platform, s: Stmt, fuel: nat, st: Store): (r: Outcome)
    requires s.Repeat?
    ensures r.Timeout? || |r.st.locals| == |st.locals|
    decreases fuel, s, 2
  {
    var (n, st1) := Eval(pl, s.number, st);
    ExecLoop(pl, s, fuel, Count(n), st1)
  }

  function ExecCase(pl: Platform, s: Stmt, fuel: nat, st: Store): (r: Outcome)
    requires s.Case?
    ensures r.Timeout? || |r.st.locals| == |st.locals|
    decreases fuel, s, 2
  {
    var (x, st1) := Eval(pl, s.cond, st);
    ExecItems(pl, x, s.items, fuel, st1)
  }

  /** New locals start at zero; all of them exist before the first initialiser runs. */
  function ExecBlock(pl: Platform, s: Stmt, fuel: nat, st: Store): (r: Outcome)
    requires s.Block?
    ensures r.Timeout? || |r.st.locals| == |st.locals|
    decreases fuel, s, 2
  {
    var n := |st.locals|;
    var st1 := st.(locals := st.locals + Zeros(|s.vars|));
    LeaveBlock(n, ExecSeq(pl, s.stmts, fuel, ExecInits(pl, s.vars, n, st1)))
  }

  function Zeros(k: nat): seq<Int32> { seq(k, _ => 0) }

  /** The initialisers of the variables from number v on. */
  function ExecInits(pl: Platform, vars: seq<Option<Expr>>, v: nat, st: Store): (r: Store)
    ensures |r.locals| == |st.locals|
  {
    if vars == [] then st
    else
      match vars[0]
      case None => ExecInits(pl, vars[1..], v + 1, st)
      case Some(e) => ExecInits(pl, vars[1..], v + 1, Eval(pl, Assign(v, e), st).1)
  }

  function Truncate(n: nat, st: Store): Store
  {
    if n <= |st.locals| then st.(locals := st.locals[..n]) else st
  }

  function LeaveBlock(n: nat, out: Outcome): Outcome
  {
    if out.Timeout? then out else out.(st := Truncate(n, out.st))
  }

  function ExecSeq(pl: Platform, ss: seq<Stmt>, fuel: nat, st: Store): (r: Outcome)
    ensures r.Timeout? || |r.st.locals| == |st.locals|
    decreases fuel, ss, 0
  {
    if ss == [] then Normal(st)
    else
      match Exec(pl, ss[0], fuel, st)
      case Normal(st1) => ExecSeq(pl, ss[1..], fuel, st1)
      case other => other
  }

  function ExecArms(pl: Platform, arms: Arms, fuel: nat, st: Store): (r: Outcome)
    ensures r.Timeout? || |r.st.locals| == |st.locals|
    decreases fuel, arms, 0
  {
    match arms
    case NoElse => Normal(st)
    case Else(body) => Exec(pl, body, fuel, st)
    case Elsif(c, body, rest) =>
      var (x, st1) := Eval(pl, c, st);
      if x != 0 then Exec(pl, body, fuel, st1) else ExecArms(pl, rest, fuel, st1)
  }

  /** True, with the store so far, at the first condition equal to x. */
  function MatchConds(pl: Platform, x: Int32, conds: seq<Expr>, st: Store): (r: (bool, Store))
    ensures |r.1.locals| == |st.locals|
  {
    if conds == [] then (false, st)
    else
      var (y, st1) := Eval(pl, conds[0], st);
      if x == y then (true, st1) else MatchConds(pl, x, conds[1..], st1)
  }

  function ExecItems(pl: Platform, x: Int32, items: Items, fuel: nat, st: Store): (r: Outcome)
    ensures r.Timeout? || |r.st.locals| == |st.locals|
    decreases fuel, items, 0
  {
    match items
    case NoItem => Normal(st)
    case Default(body) => Exec(pl, body, fuel, st)
    case Item(conds, body, rest) =>
      var (hit, st1) := MatchConds(pl, x, conds, st);
      if hit then Exec(pl, body, fuel, st1) else ExecItems(pl, x, rest, fuel, st1)
  }

  /** Whether a loop goes for another turn: `None` when it does not. */
  function LoopHead(pl: Platform, s: Stmt, k: nat, st: Store): (r: (bool, Store))
    requires s.IsLoop()
    ensures |r.1.locals| == |st.locals|
  {
    match s
    case While(_, c, _) => var (x, st1) := Eval(pl, c, st); (x != 0, st1)
    case For(_, _, Some(c), _, _) => var (x, st1) := Eval(pl, c, st); (x != 0, st1)
    case For(_, _, None, _, _) => (true, st)
    case Repeat(_, _, _) => (k != 0, st)
    case DoWhile(_, _, _) => (true, st)
    case Forever(_, _) => (true, st)
  }

  /** What follows the body, at the continue label; false when the loop stops there. */
  function LoopTail(pl: Platform, s: Stmt, st: Store): (r: (bool, Store))
    requires s.IsLoop()
    ensures |r.1.locals| == |st.locals|
  {
    match s
    case For(_, _, _, last, _) => (true, EvalAll(pl, last, st))
    case DoWhile(_, _, c) => var (x, st1) := Eval(pl, c, st); (x != 0, st1)
    case While(_, _, _) => (true, st)
    case Repeat(_, _, _) => (true, st)
    case Forever(_, _) => (true, st)
  }

  /** The loop from its head; k is the counter of a `repeat`. */
  function ExecLoop(pl: Platform, s: Stmt, fuel: nat, k: nat, st: Store): (r: Outcome)
    requires s.IsLoop()
    ensures r.Timeout? || |r.st.locals| == |st.locals|
    decreases fuel, s, 1
  {
    if fuel == 0 then Timeout
    else
      var (go, st1) := LoopHead(pl, s, k, st);
      if go then ExecTurn(pl, s, fuel, k, Exec(pl, s.body, fuel - 1, st1)) else Normal(st1)
  }

  /** What the end of the body means for the loop around it. */
  function ExecTurn(pl: Platform, s: Stmt, fuel: nat, k: nat, out: Outcome): (r: Outcome)
    requires s.IsLoop() && fuel > 0
    ensures !out.Timeout? ==> r.Timeout? || |r.st.locals| == |out.st.locals|
    ensures out.Timeout? ==> r.Timeout?
    decreases fuel, s, 0
  {
    if Again(s.lp.name, out) then
      var (again, st1) := LoopTail(pl, s, out.st);
      if again then ExecLoop(pl, s, fuel - 1, if k > 0 then k - 1 else 0, st1) else Normal(st1)
    else if out.Broke? && Catches(s.lp.name, out.target) then Normal(out.st)
    else out
  }

  /** The body went through, or ended with a continue of this loop. */
  predicate Again(name: string, out: Outcome) {
    out.Normal? || (out.Continued? && Catches(name, out.target))
  }

  // ----- Well-scoped programs -----

  predicate WfExpr(e: Expr, n: nat)
    decreases e
  {
    match e
    case Const(_) => true
    case Port(_) => true
    case Local(v) => v < n
    case Bin(_, l, r) => WfExpr(l, n) && WfExpr(r, n)
    case Un(_, e1) => WfExpr(e1, n)
    case LAnd(l, r) => WfExpr(l, n) && WfExpr(r, n)
    case LOr(l, r) => WfExpr(l, n) && WfExpr(r, n)
    case Cond(c, t, f) => WfExpr(c, n) && WfExpr(t, n) && WfExpr(f, n)
    case PreInc(v) => v < n
    case PreDec(v) => v < n
    case PostInc(v) => v < n
    case PostDec(v) => v < n
    case Assign(v, e1) => v < n && WfExpr(e1, n)
    case AssignOp(_, v, e1) => v < n && WfExpr(e1, n)
    case Till(d, w, conds) => WfExpr(d, n) && WfWindow(w, n) && WfExprs(conds, n)
    case Whilst(d, w, conds) => WfExpr(d, n) && WfWindow(w, n) && WfExprs(conds, n)
  }

  predicate WfWindow(w: Option<Expr>, n: nat)
    decreases w
  {
    w.Some? ==> WfExpr(w.value, n)
  }

  predicate WfExprs(es: seq<Expr>, n: nat)
    decreases es
  {
    es != [] ==> WfExpr(es[0], n) && WfExprs(es[1..], n)
  }

  /** All variables are in scope and every break and continue names an enclosing loop. */
  predicate WfStmt(s: Stmt, n: nat, labels: seq<string>)
    decreases s
  {
    match s
    case Null => true
    case ExprStmt(e) => WfExpr(e, n)
    case If(c, thn, rest) => WfExpr(c, n) && WfStmt(thn, n, labels) && WfArms(rest, n, labels)
    case While(lp, c, body) => WfExpr(c, n) && WfStmt(body, n, labels + [lp.name])
    case For(lp, init, test, last, body) =>
      WfExprs(init, n) && WfWindow(test, n) && WfExprs(last, n) && WfStmt(body, n, labels + [lp.name])
    case Repeat(lp, number, body) => WfExpr(number, n) && WfStmt(body, n, labels + [lp.name])
    case DoWhile(lp, body, c) => WfExpr(c, n) && WfStmt(body, n, labels + [lp.name])
    case Forever(lp, body) => WfStmt(body, n, labels + [lp.name])
    case Case(c, items) => WfExpr(c, n) && WfItems(items, n, labels)
    case Break(target) => if target.None? then labels != [] else target.value in labels
    case Continue(target) => if target.None? then labels != [] else target.value in labels
    case Block(vars, stmts) => WfInits(vars, n + |vars|) && WfSeq(stmts, n + |vars|, labels)
  }

  predicate WfInits(vars: seq<Option<Expr>>, n: nat) {
    vars != [] ==> WfWindow(vars[0], n) && WfInits(vars[1..], n)
  }

  predicate WfSeq(ss: seq<Stmt>, n: nat, labels: seq<string>)
    decreases ss
  {
    ss != [] ==> WfStmt(ss[0], n, labels) && WfSeq(ss[1..], n, labels)
  }

  predicate WfArms(arms: Arms, n: nat, labels: seq<string>)
    decreases arms
  {
    match arms
    case NoElse => true
    case Else(body) => WfStmt(body, n, labels)
    case Elsif(c, body, rest) => WfExpr(c, n) && WfStmt(body, n, labels) && WfArms(rest, n, labels)
  }

  predicate WfItems(items: Items, n: nat, labels: seq<string>)
    decreases items
  {
    match items
    case NoItem => true
    case Default(body) => WfStmt(body, n, labels)
    case Item(conds, body, rest) => WfExprs(conds, n) && WfStmt(body, n, labels) && WfItems(rest, n, labels)
  }
}
