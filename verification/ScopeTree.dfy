/**
The tree of name scopes. The first pass over the program builds it; the second pass has to find
its way through the same nodes again, with nothing but a counter to go by.
*/
module ScopeTree {
  import opened Machine

  /** A scope. Nodes are numbered in order of allocation; node 0 is the top scope. `children` is the
      chain from the child link along the brother links, `prev` where to go on exit. */
  datatype Node = Node(id: nat, parent: Option<nat>, prev: Option<nat>, children: seq<nat>)

  /** All nodes, the scope that the parser is in, and the scope counter. */
  datatype Table = Table(nodes: seq<Node>, current: Option<nat>, counter: nat)

  /** What the parser does on its way: enter a scope, of the named parent if there is one; enter the
      scope of a class; leave a scope. */
  datatype Op = Enter(named: Option<nat>) | EnterClass(cls: nat) | Exit

  predicate IsNode(t: Table, x: Option<nat>) { x.Some? && x.value < |t.nodes| }

  function ParentOf(t: Table, op: Op): Option<nat>
    requires !op.Exit?
  {
    if op.EnterClass? then Some(op.cls) else if op.named.Some? then op.named else t.current
  }

  // ----- The two passes -----

  /** A new child of p becomes the current scope. */
  function AddChild(t: Table, p: nat, id: nat): Table
    requires p < |t.nodes|
  {
    var n := |t.nodes|;
    var linked := t.nodes[p := t.nodes[p].(children := t.nodes[p].children + [n])];
    Table(linked + [Node(id, Some(p), t.current, [])], Some(n), t.counter)
  }

  /** Goes into the existing node c. */
  function GoTo(t: Table, c: nat): Table
    requires c < |t.nodes|
  {
    t.(nodes := t.nodes[c := t.nodes[c].(prev := t.current)], current := Some(c))
  }

  /** One step of pass 1; `None` when the program is stopped, or a parent does not exist. */
  function Step1(t: Table, op: Op): Option<Table> {
    if op.Exit? then Leave(t)
    else if !IsNode(t, ParentOf(t, op)) then None
    else
      var p := ParentOf(t, op).value;
      if op.Enter? then Some(AddChild(t, p, t.counter).(counter := t.counter + 1))
      else if t.nodes[p].children == [] then Some(AddChild(t, p, 0))
      else if t.nodes[p].children[0] < |t.nodes| then Some(GoTo(t, t.nodes[p].children[0]))
      else None
  }

  /** One step of pass 2; `None` also when the link is found broken. */
  function Step2(t: Table, op: Op): Option<Table> {
    if op.Exit? then Leave(t)
    else if !IsNode(t, ParentOf(t, op)) then None
    else
      var children := t.nodes[ParentOf(t, op).value].children;
      if op.Enter? then
        match FindId(t.nodes, children, t.counter)
        case None => None
        case Some(c) => Some(GoTo(t, c).(counter := t.counter + 1))
      else if children != [] && children[0] < |t.nodes| then Some(GoTo(t, children[0]))
      else None
  }

  function Leave(t: Table): Option<Table> {
    if IsNode(t, t.current) then Some(t.(current := t.nodes[t.current.value].prev)) else None
  }

  /** The first of the given nodes that carries the id. */
  function FindId(nodes: seq<Node>, children: seq<nat>, id: nat): (r: Option<nat>)
    ensures r.Some? ==> r.value < |nodes| && r.value in children && nodes[r.value].id == id
  {
    if children == [] then None
    else if children[0] < |nodes| && nodes[children[0]].id == id then Some(children[0])
    else FindId(nodes, children[1..], id)
  }

  function Rewind(t: Table): Table { t.(current := Some(0), counter := 1) }

  // ----- Whole runs -----

  /** Pass 1 goes through. */
  predicate Runs(t: Table, ops: seq<Op>)
    decreases ops
  {
    ops != [] ==> Step1(t, ops[0]).Some? && Runs(Step1(t, ops[0]).value, ops[1..])
  }

  function Final1(t: Table, ops: seq<Op>): Table
    requires Runs(t, ops)
    decreases ops
  {
    if ops == [] then t else Final1(Step1(t, ops[0]).value, ops[1..])
  }

  /** Pass 2 from u is in the same node as pass 1 from t after every step, and never finds the link broken. */
  predicate Replays(t: Table, u: Table, ops: seq<Op>)
    requires Runs(t, ops)
    decreases ops
  {
    ops != [] ==>
      && Step2(u, ops[0]).Some?
      && Step2(u, ops[0]).value.current == Step1(t, ops[0]).value.current
      && Replays(Step1(t, ops[0]).value, Step2(u, ops[0]).value, ops[1..])
  }

  function Final2(t: Table, u: Table, ops: seq<Op>): Table
    requires Runs(t, ops) && Replays(t, u, ops)
    decreases ops
  {
    if ops == [] then u else Final2(Step1(t, ops[0]).value, Step2(u, ops[0]).value, ops[1..])
  }

  /** Whenever a scope is entered in pass 1, no older child of its parent carries the counter. */
  predicate NoClash(t: Table, ops: seq<Op>)
    requires Runs(t, ops)
    decreases ops
  {
    ops != [] ==>
      && (ops[0].Enter? ==> FindId(t.nodes, t.nodes[ParentOf(t, ops[0]).value].children, t.counter).None?)
      && NoClash(Step1(t, ops[0]).value, ops[1..])
  }

  /** All links lead to nodes, none leads down to the top scope, and nothing has been entered yet. */
  predicate WellLinked(t: Table) {
    forall p | 0 <= p < |t.nodes| :: forall c | c in t.nodes[p].children :: 0 < c < |t.nodes|
  }

  // ----- What the nodes hold -----

  /** Pass 1 enters a new node: the last child of the named scope, or of the current one, with that
      scope as parent, the scope that was current as the way back, and the counter as its id. */
  lemma EnterMakes(t: Table, named: Option<nat>)
    requires Step1(t, Enter(named)).Some?
    ensures var t', n := Step1(t, Enter(named)).value, |t.nodes|;
      var scope := if named.Some? then named else t.current;
      && scope.Some? && scope.value < n && |t'.nodes| == n + 1 && t'.current == Some(n) && t'.counter == t.counter + 1
      && t'.nodes[n].parent == scope && t'.nodes[n].prev == t.current && t'.nodes[n].id == t.counter
      && t'.nodes[n].children == [] && t'.nodes[scope.value].children == t.nodes[scope.value].children + [n]
  {
  }

  /** A class has one scope: it is made when the class has no child, with the class as parent, and
      found again later; the way back is the scope that was current. */
  lemma EnterClassMakes(t: Table, cls: nat)
    requires Step1(t, EnterClass(cls)).Some?
    ensures var t' := Step1(t, EnterClass(cls)).value;
      && cls < |t.nodes| && t'.current.Some? && t'.current.value < |t'.nodes| && t'.counter == t.counter
      && t'.nodes[t'.current.value].prev == t.current
      && if t.nodes[cls].children == [] then
           && t'.current == Some(|t.nodes|) && t'.nodes[cls].children == [|t.nodes|]
           && t'.nodes[|t.nodes|].parent == Some(cls) && t'.nodes[|t.nodes|].id == 0
         else t'.current == Some(t.nodes[cls].children[0]) && |t'.nodes| == |t.nodes|
  {
  }

  /** Pass 2 goes into a child of the same scope that carries the counter, and back to where it was. */
  lemma EnterFinds(t: Table, named: Option<nat>)
    requires Step2(t, Enter(named)).Some?
    ensures var t' := Step2(t, Enter(named)).value;
      var scope := if named.Some? then named else t.current;
      && scope.Some? && scope.value < |t.nodes| == |t'.nodes| && t'.counter == t.counter + 1
      && t'.current.Some? && t'.current.value in t.nodes[scope.value].children && t'.current.value < |t.nodes|
      && t.nodes[t'.current.value].id == t.counter && t'.nodes[t'.current.value].prev == t.current
  {
  }

  /** Leaving goes to where the scope was entered from. */
  lemma ExitReturns(t: Table)
    ensures Step1(t, Exit) == Step2(t, Exit)
    ensures Step1(t, Exit).Some? <==> t.current.Some? && t.current.value < |t.nodes|
    ensures Step1(t, Exit).Some? ==>
      Step1(t, Exit).value == Table(t.nodes, t.nodes[t.current.value].prev, t.counter)
  {
  }

  /** Every child has its parent, and no node is a child twice. */
  ghost predicate IsTree(t: Table) {
    && (forall p, i | 0 <= p < |t.nodes| && 0 <= i < |t.nodes[p].children| :: IsChildOf(t, t.nodes[p].children[i], p))
    && forall p, i, j | 0 <= p < |t.nodes| && 0 <= i < j < |t.nodes[p].children| ::
         t.nodes[p].children[i] < t.nodes[p].children[j]
  }

  ghost predicate IsChildOf(t: Table, c: nat, p: nat) { c < |t.nodes| && t.nodes[c].parent == Some(p) }

  /** Adding a child, or going into a node, keeps the tree. */
  lemma AddKeepsTree(t: Table, p: nat, id: nat)
    requires IsTree(t) && p < |t.nodes|
    ensures IsTree(AddChild(t, p, id))
  {
    var t' := AddChild(t, p, id);
    forall q, i | 0 <= q < |t'.nodes| && 0 <= i < |t'.nodes[q].children|
      ensures IsChildOf(t', t'.nodes[q].children[i], q)
    {
      if q < |t.nodes| && i < |t.nodes[q].children| {
        assert IsChildOf(t, t.nodes[q].children[i], q);
      }
    }
    forall q, i, j | 0 <= q < |t'.nodes| && 0 <= i < j < |t'.nodes[q].children|
      ensures t'.nodes[q].children[i] < t'.nodes[q].children[j]
    {
      assert IsChildOf(t, t.nodes[q].children[i], q);
    }
  }

  lemma GoKeepsTree(t: Table, c: nat)
    requires IsTree(t) && c < |t.nodes|
    ensures IsTree(GoTo(t, c))
  {
    var t' := GoTo(t, c);
    forall q, i | 0 <= q < |t'.nodes| && 0 <= i < |t'.nodes[q].children|
      ensures IsChildOf(t', t'.nodes[q].children[i], q)
    {
      assert IsChildOf(t, t.nodes[q].children[i], q);
    }
  }

  lemma SameNodesSameTree(t: Table, u: Table)
    requires IsTree(t) && u.nodes == t.nodes
    ensures IsTree(u)
  {
    forall q, i | 0 <= q < |u.nodes| && 0 <= i < |u.nodes[q].children| ensures IsChildOf(u, u.nodes[q].children[i], q) {
      assert IsChildOf(t, t.nodes[q].children[i], q);
    }
  }

  lemma StepKeepsTree(t: Table, op: Op)
    requires IsTree(t)
    ensures Step1(t, op).Some? ==> IsTree(Step1(t, op).value)
    ensures Step2(t, op).Some? ==> IsTree(Step2(t, op).value)
  {
    hide IsTree, AddChild, GoTo, FindId;
    if op.Exit? {
      ExitReturns(t);
      if Step1(t, op).Some? {
        SameNodesSameTree(t, Step1(t, op).value);
      }
    } else if IsNode(t, ParentOf(t, op)) {
      var p := ParentOf(t, op).value;
      var children := t.nodes[p].children;
      AddKeepsTree(t, p, t.counter);
      AddKeepsTree(t, p, 0);
      var made := AddChild(t, p, t.counter);
      SameNodesSameTree(made, made.(counter := t.counter + 1));
      if children != [] && children[0] < |t.nodes| {
        GoKeepsTree(t, children[0]);
      }
      var found := FindId(t.nodes, children, t.counter);
      if found.Some? {
        GoKeepsTree(t, found.value);
        var there := GoTo(t, found.value);
        SameNodesSameTree(there, there.(counter := t.counter + 1));
      }
    }
  }

  /** How often a scope is entered that is not the scope of a class. */
  function Enters(ops: seq<Op>): nat {
    if ops == [] then 0 else (if ops[0].Enter? then 1 else 0) + Enters(ops[1..])
  }

  /** Over every run of the first pass: the nodes are a tree, in which each child knows its parent,
      older nodes keep their parent and their id, and the scopes that are entered carry the numbers
      from the counter on. */
  lemma {:induction false} RunKeepsTree(t: Table, ops: seq<Op>)
    requires IsTree(t) && Runs(t, ops)
    ensures var end := Final1(t, ops);
      && IsTree(end) && end.counter == t.counter + Enters(ops) && |t.nodes| <= |end.nodes|
      && forall x | 0 <= x < |t.nodes| :: end.nodes[x].parent == t.nodes[x].parent && end.nodes[x].id == t.nodes[x].id
    decreases ops
  {
    if ops != [] {
      StepKeepsTree(t, ops[0]);
      StepKeepsNodes(t, ops[0]);
      RunKeepsTree(Step1(t, ops[0]).value, ops[1..]);
      hide Step1, IsTree;
    }
  }

  lemma StepKeepsNodes(t: Table, op: Op)
    requires Step1(t, op).Some?
    ensures var t' := Step1(t, op).value;
      && t'.counter == t.counter + (if op.Enter? then 1 else 0) && |t.nodes| <= |t'.nodes|
      && forall x | 0 <= x < |t.nodes| :: t'.nodes[x].parent == t.nodes[x].parent && t'.nodes[x].id == t.nodes[x].id
  {
  }

  // ----- Pass 1 only adds -----

  /** The nodes of t are still there, with the same ids, and with their children in the same order. */
  predicate Extends(t: Table, f: seq<Node>) {
    |t.nodes| <= |f|
    && forall x | 0 <= x < |t.nodes| :: t.nodes[x].id == f[x].id && t.nodes[x].children <= f[x].children
  }

  lemma StepExtends(t: Table, op: Op)
    requires Step1(t, op).Some? && WellLinked(t)
    ensures Extends(t, Step1(t, op).value.nodes) && WellLinked(Step1(t, op).value)
  {
  }

  lemma {:induction false} RunExtends(t: Table, ops: seq<Op>)
    requires Runs(t, ops) && WellLinked(t)
    ensures Extends(t, Final1(t, ops).nodes) && WellLinked(Final1(t, ops))
    decreases ops
  {
    hide Step1;
    if ops != [] {
      StepExtends(t, ops[0]);
      RunExtends(Step1(t, ops[0]).value, ops[1..]);
    }
  }

  lemma {:induction false} FindInPrefix(nodes: seq<Node>, f: seq<Node>, children: seq<nat>, more: seq<nat>, id: nat)
    requires children <= more && |nodes| <= |f|
    requires forall c | c in children :: c < |nodes|
    requires forall x | 0 <= x < |nodes| :: nodes[x].id == f[x].id
    ensures FindId(nodes, children, id).Some? ==> FindId(f, more, id) == FindId(nodes, children, id)
    ensures FindId(nodes, children, id).None? && |children| < |more| && more[|children|] < |f|
            && f[more[|children|]].id == id
            ==> FindId(f, more, id) == Some(more[|children|])
    decreases children
  {
    if children != [] {
      assert children[0] in children && children[0] == more[0] && children[1..] <= more[1..];
      forall c | c in children[1..] ensures c < |nodes| {
        assert c in children;
      }
      FindInPrefix(nodes, f, children[1..], more[1..], id);
    }
  }

  // ----- Pass 2 follows pass 1 -----

  /** Pass 1 is at t and will end with the nodes f; pass 2 is at u. `seen` are the nodes that have
      been entered since the start: pass 2 has already set where they lead back to. */
  predicate InStep(t: Table, u: Table, f: seq<Node>, seen: set<nat>) {
    && Extends(t, f) && WellLinked(t) && |u.nodes| == |f|
    && u.current == t.current && u.counter == t.counter && t.counter > 0
    && (t.current.Some? ==> t.current.value in seen)
    && (forall x | 0 <= x < |f| ::
        u.nodes[x].id == f[x].id && u.nodes[x].children == f[x].children && u.nodes[x].parent == f[x].parent)
    && (forall x | x in seen ::
        x < |t.nodes| && u.nodes[x].prev == t.nodes[x].prev
          && (t.nodes[x].prev.Some? ==> t.nodes[x].prev.value in seen))
    && (forall x | 0 <= x < |f| && x !in seen :: u.nodes[x].prev == f[x].prev)
  }

  function Seen(t: Table, seen: set<nat>): set<nat> {
    if t.current.Some? then seen + {t.current.value} else seen
  }

  lemma LeaveInStep(t: Table, u: Table, f: seq<Node>, seen: set<nat>)
    requires InStep(t, u, f, seen) && Leave(t).Some?
    ensures Leave(u).Some? && InStep(Leave(t).value, Leave(u).value, f, seen)
  {
  }

  /** Both passes go to the same node c: if it is new in pass 1, it is there in pass 2. */
  lemma EnterInStep(t: Table, u: Table, f: seq<Node>, seen: set<nat>, t': Table, u': Table, c: nat)
    requires InStep(t, u, f, seen) && c < |t'.nodes| && Extends(t', f) && WellLinked(t')
    requires |t.nodes| <= |t'.nodes| && t'.current == Some(c) && t'.nodes[c].prev == t.current && t'.counter > 0
    requires forall x | 0 <= x < |t.nodes| && x != c :: t'.nodes[x].prev == t.nodes[x].prev
    requires u' == GoTo(u, c).(counter := t'.counter)
    ensures InStep(t', u', f, seen + {c})
  {
  }

  lemma ClassInStep(t: Table, u: Table, f: seq<Node>, seen: set<nat>, op: Op)
    requires InStep(t, u, f, seen) && op.EnterClass? && Step1(t, op).Some? && Extends(Step1(t, op).value, f)
    ensures Step2(u, op).Some? && InStep(Step1(t, op).value, Step2(u, op).value, f, Seen(Step1(t, op).value, seen))
  {
    var p, t' := op.cls, Step1(t, op).value;
    var c := t'.current.value;
    StepExtends(t, op);
    assert t'.nodes[p].children[0] == c;
    assert t'.nodes[p].children <= f[p].children;
    EnterInStep(t, u, f, seen, t', Step2(u, op).value, c);
  }

  /** A scope entered in pass 1 is found again exactly when no older child carries the counter. */
  lemma EnteredAgainIff(t: Table, u: Table, f: seq<Node>, seen: set<nat>, op: Op)
    requires InStep(t, u, f, seen) && op.Enter? && Step1(t, op).Some? && Extends(Step1(t, op).value, f)
    ensures (Step2(u, op).Some? && Step2(u, op).value.current == Step1(t, op).value.current)
            <==> FindId(t.nodes, t.nodes[ParentOf(t, op).value].children, t.counter).None?
    ensures FindId(t.nodes, t.nodes[ParentOf(t, op).value].children, t.counter).None? ==>
            InStep(Step1(t, op).value, Step2(u, op).value, f, Seen(Step1(t, op).value, seen))
  {
    hide WellLinked;
    StepExtends(t, op);
    var p, t' := ParentOf(t, op).value, Step1(t, op).value;
    var children, more := t.nodes[p].children, f[p].children;
    assert t'.nodes[p].children == children + [|t.nodes|] && t'.nodes[p].children <= more;
    assert more[|children|] == |t.nodes| && f[|t.nodes|].id == t.counter;
    ChildrenBelow(t, p);
    FindInPrefix(t.nodes, u.nodes, children, more, t.counter);
    var found := FindId(t.nodes, children, t.counter);
    if found.None? {
      EnterInStep(t, u, f, seen, t', Step2(u, op).value, |t.nodes|);
    }
  }

  lemma ChildrenBelow(t: Table, p: nat)
    requires WellLinked(t) && p < |t.nodes|
    ensures forall c | c in t.nodes[p].children :: c < |t.nodes|
  {
  }

  /** The second pass follows the first, from tables in step, if and only if there is no clash; and
      then both end with the same table. */
  lemma {:induction false} FollowsIff(t: Table, u: Table, seen: set<nat>, ops: seq<Op>)
    requires Runs(t, ops) && InStep(t, u, Final1(t, ops).nodes, seen)
    ensures Replays(t, u, ops) <==> NoClash(t, ops)
    ensures Replays(t, u, ops) ==> Final2(t, u, ops) == Final1(t, ops)
    decreases ops
  {
    hide Step1, Step2, InStep, Extends, WellLinked, FindId;
    var f := Final1(t, ops).nodes;
    if ops == [] {
      SameAtEnd(t, u, seen);
    } else {
      var op, t' := ops[0], Step1(t, ops[0]).value;
      var seen' := Seen(t', seen);
      StepRange(t, u, f, seen, op, ops[1..]);
      if op.Exit? {
        ExitSteps(t, u, f, seen);
        FollowsIff(t', Step2(u, op).value, seen, ops[1..]);
      } else if op.EnterClass? {
        ClassInStep(t, u, f, seen, op);
        SameNode(t', Step2(u, op).value, f, seen');
        FollowsIff(t', Step2(u, op).value, seen', ops[1..]);
      } else {
        EnteredAgainIff(t, u, f, seen, op);
        ParentIsNode(t, op);
        if FindId(t.nodes, t.nodes[ParentOf(t, op).value].children, t.counter).None? {
          FollowsIff(t', Step2(u, op).value, seen', ops[1..]);
        }
      }
    }
  }

  lemma ParentIsNode(t: Table, op: Op)
    requires !op.Exit? && Step1(t, op).Some?
    ensures IsNode(t, ParentOf(t, op))
  {
  }

  lemma SameAtEnd(t: Table, u: Table, seen: set<nat>)
    requires InStep(t, u, t.nodes, seen)
    ensures u == t
  {
    forall x | 0 <= x < |t.nodes| ensures u.nodes[x] == t.nodes[x] {
      assert x in seen || x !in seen;
    }
    assert u.nodes == t.nodes;
  }

  lemma SameNode(t: Table, u: Table, f: seq<Node>, seen: set<nat>)
    requires InStep(t, u, f, seen)
    ensures u.current == t.current
  {
  }

  lemma ExitSteps(t: Table, u: Table, f: seq<Node>, seen: set<nat>)
    requires InStep(t, u, f, seen) && Step1(t, Exit).Some?
    ensures Step2(u, Exit).Some? && InStep(Step1(t, Exit).value, Step2(u, Exit).value, f, seen)
    ensures Step2(u, Exit).value.current == Step1(t, Exit).value.current
  {
    LeaveInStep(t, u, f, seen);
  }

  lemma StepRange(t: Table, u: Table, f: seq<Node>, seen: set<nat>, op: Op, rest: seq<Op>)
    requires InStep(t, u, f, seen) && Step1(t, op).Some? && Runs(Step1(t, op).value, rest)
    requires f == Final1(Step1(t, op).value, rest).nodes
    ensures Extends(Step1(t, op).value, f)
  {
    hide Step1, FindId, Runs, Final1;
    StepExtends(t, op);
    RunExtends(Step1(t, op).value, rest);
  }

  /** The second pass replays the first, from the rewound table to the rewound result, if and only
      if no scope is entered whose parent has an older child with the same id; and then the table
      that it leaves, with all the ways back, is the one that the first pass left. */
  lemma SecondPassReplaysIff(t: Table, ops: seq<Op>)
    requires |t.nodes| > 0 && WellLinked(t) && t.nodes[0].prev.None? && Runs(Rewind(t), ops)
    ensures var end := Final1(Rewind(t), ops);
      && (Replays(Rewind(t), Rewind(end), ops) <==> NoClash(Rewind(t), ops))
      && (Replays(Rewind(t), Rewind(end), ops) ==> Final2(Rewind(t), Rewind(end), ops) == end)
  {
    hide Step1, Step2, FindId, Replays, NoClash;
    var t1 := Rewind(t);
    RunExtends(t1, ops);
    TopKeepsPrev(t1, ops);
    FollowsIff(t1, Rewind(Final1(t1, ops)), {0}, ops);
  }

  /** The top scope is never entered. */
  lemma {:induction false} TopKeepsPrev(t: Table, ops: seq<Op>)
    requires |t.nodes| > 0 && WellLinked(t) && Runs(t, ops)
    ensures |Final1(t, ops).nodes| > 0 && Final1(t, ops).nodes[0].prev == t.nodes[0].prev
    decreases ops
  {
    if ops != [] {
      StepExtends(t, ops[0]);
      TopStep(t, ops[0]);
      TopKeepsPrev(Step1(t, ops[0]).value, ops[1..]);
    }
  }

  lemma TopStep(t: Table, op: Op)
    requires |t.nodes| > 0 && WellLinked(t) && Step1(t, op).Some?
    ensures Step1(t, op).value.nodes[0].prev == t.nodes[0].prev
  {
    if op.EnterClass? && t.nodes[op.cls].children != [] {
      assert t.nodes[op.cls].children[0] in t.nodes[op.cls].children;
    }
  }

  // ----- No clash in a program -----

  /** p has a child with an id of its own from before the first pass. */
  ghost predicate Old(t0: Table, p: nat) {
    p < |t0.nodes| && exists c | c in t0.nodes[p].children :: c < |t0.nodes| && t0.nodes[c].id > 0
  }

  /** Scopes are entered only in parents that had no such child. */
  ghost predicate OldLeftAlone(t0: Table, t: Table, ops: seq<Op>)
    requires Runs(t, ops)
    decreases ops
  {
    ops != [] ==>
      && (ops[0].Enter? ==> !Old(t0, ParentOf(t, ops[0]).value))
      && OldLeftAlone(t0, Step1(t, ops[0]).value, ops[1..])
  }

  /** The counter is ahead of all children of the other parents. */
  ghost predicate Ahead(t0: Table, t: Table) {
    && WellLinked(t) && t.counter > 0
    && forall p | 0 <= p < |t.nodes| && !Old(t0, p) :: IdsBelow(t, p, t.counter)
  }

  ghost predicate IdsBelow(t: Table, p: nat, n: nat)
    requires p < |t.nodes|
  {
    forall c | c in t.nodes[p].children :: c < |t.nodes| && t.nodes[c].id < n
  }

  lemma {:induction false} NotFound(nodes: seq<Node>, children: seq<nat>, id: nat)
    requires forall c | c in children :: c < |nodes| && nodes[c].id < id
    ensures FindId(nodes, children, id).None?
    decreases children
  {
    if children != [] {
      assert children[0] in children;
      forall c | c in children[1..] ensures c in children {
      }
      NotFound(nodes, children[1..], id);
    }
  }

  lemma StepAhead(t0: Table, t: Table, op: Op)
    requires Ahead(t0, t) && Step1(t, op).Some? && (op.Enter? ==> !Old(t0, ParentOf(t, op).value))
    ensures Ahead(t0, Step1(t, op).value)
    ensures op.Enter? ==> FindId(t.nodes, t.nodes[ParentOf(t, op).value].children, t.counter).None?
  {
    hide Old, FindId;
    StepExtends(t, op);
    var t' := Step1(t, op).value;
    forall p | 0 <= p < |t'.nodes| && !Old(t0, p) ensures IdsBelow(t', p, t'.counter) {
      if p < |t.nodes| {
        assert IdsBelow(t, p, t.counter);
      }
    }
    if op.Enter? {
      var p := ParentOf(t, op).value;
      assert IdsBelow(t, p, t.counter);
      NotFound(t.nodes, t.nodes[p].children, t.counter);
    }
  }

  lemma {:induction false} AheadNoClash(t0: Table, t: Table, ops: seq<Op>)
    requires Ahead(t0, t) && Runs(t, ops) && OldLeftAlone(t0, t, ops)
    ensures NoClash(t, ops)
    decreases ops
  {
    hide Step1, Ahead, Old, FindId, IsNode;
    if ops != [] {
      StepAhead(t0, t, ops[0]);
      AheadNoClash(t0, Step1(t, ops[0]).value, ops[1..]);
    }
  }

  /** If no scope is entered in a parent that had a child with an id of its own before the first
      pass, the second pass replays the first. */
  lemma LeftAloneReplays(t: Table, ops: seq<Op>)
    requires |t.nodes| > 0 && WellLinked(t) && t.nodes[0].prev.None? && Runs(Rewind(t), ops)
    requires OldLeftAlone(t, Rewind(t), ops)
    ensures var end := Final1(Rewind(t), ops);
      Replays(Rewind(t), Rewind(end), ops) && Final2(Rewind(t), Rewind(end), ops) == end
  {
    hide Runs, Replays, NoClash, OldLeftAlone, Step1, Step2;
    var t1 := Rewind(t);
    forall p | 0 <= p < |t1.nodes| && !Old(t, p) ensures IdsBelow(t1, p, 1) {
    }
    AheadNoClash(t, t1, ops);
    SecondPassReplaysIff(t, ops);
  }

  const VERILOG: nat := 1

  /** The table after `parse_init`: the top scope, the name of the built-in class "verilog", the
      scope of that class, and the nodes of the names of the program. */
  ghost function Start(names: nat): Table {
    var builtIn := [Node(0, None, None, []), Node(0, None, None, [2]), Node(1, Some(VERILOG), Some(0), [])];
    Table(builtIn + seq(names, _ => Node(0, None, None, [])), Some(0), 2)
  }

  /** Nothing leads to the name node of the built-in class. */
  ghost predicate NoWayTo(t: Table, x: nat) {
    && t.current != Some(x)
    && forall p | 0 <= p < |t.nodes| :: t.nodes[p].prev != Some(x) && x !in t.nodes[p].children
  }

  lemma StepNoWay(t: Table, op: Op, x: nat)
    requires NoWayTo(t, x) && Step1(t, op).Some? && x < |t.nodes|
    ensures NoWayTo(Step1(t, op).value, x) && x < |Step1(t, op).value.nodes|
  {
    if op.EnterClass? && t.nodes[op.cls].children != [] {
      assert t.nodes[op.cls].children[0] in t.nodes[op.cls].children;
    }
  }

  lemma {:induction false} NeverThere(t0: Table, t: Table, ops: seq<Op>)
    requires Runs(t, ops) && NoWayTo(t, VERILOG) && VERILOG < |t.nodes| && Enter(Some(VERILOG)) !in ops
    requires forall p: nat :: Old(t0, p) ==> p == VERILOG
    ensures OldLeftAlone(t0, t, ops)
    decreases ops
  {
    hide Step1, Old, IsNode;
    if ops != [] {
      var op := ops[0];
      assert op in ops && op != Enter(Some(VERILOG));
      if op.Enter? {
        ParentIsNode(t, op);
        assert IsNode(t, ParentOf(t, op)) && ParentOf(t, op) != Some(VERILOG);
      }
      StepNoWay(t, op, VERILOG);
      NeverThere(t0, Step1(t, op).value, ops[1..]);
    }
  }

  /** It is what entering and leaving the scope of the class makes of the top scope and that name,
      with the other names added. */
  lemma StartIsMade(names: nat)
    ensures var t := Table([Node(0, None, None, []), Node(0, None, None, [])], Some(0), 1);
      var ops := [Enter(Some(VERILOG)), Exit];
      && Runs(t, ops)
      && Start(names) == Final1(t, ops).(nodes := Final1(t, ops).nodes + seq(names, _ => Node(0, None, None, [])))
  {
    var t := Table([Node(0, None, None, []), Node(0, None, None, [])], Some(0), 1);
    var ops := [Enter(Some(VERILOG)), Exit];
    var t1 := Step1(t, ops[0]).value;
    var t2 := Step1(t1, Exit).value;
    assert ops[1..] == [Exit] && ops[1..][1..] == [];
    assert t.nodes[1].children + [2] == [2];
    assert t1.nodes[0] == t.nodes[0] && t1.nodes[1] == Node(0, None, None, [2]);
    assert t1.nodes[2] == Node(1, Some(VERILOG), Some(0), []);
    assert t1.nodes == [Node(0, None, None, []), Node(0, None, None, [2]), Node(1, Some(VERILOG), Some(0), [])];
    assert Runs(t2, []) && Final1(t2, []) == t2;
    assert Runs(t1, [Exit]) && Final1(t1, [Exit]) == t2;
  }

  lemma StartIsTree(names: nat)
    ensures IsTree(Rewind(Start(names)))
  {
    var t := Rewind(Start(names));
    assert t.nodes[VERILOG].children == [2] && t.nodes[2].parent == Some(VERILOG);
  }

  /** From the table that a program starts with, and whatever names it has: unless a scope is entered
      in the name of the built-in class, the second pass is in the same node as the first after
      every step, and leaves the same table. */
  lemma ProgramReplays(names: nat, ops: seq<Op>)
    requires Runs(Rewind(Start(names)), ops) && Enter(Some(VERILOG)) !in ops
    ensures var t := Rewind(Start(names));
      var end := Final1(t, ops);
      Replays(t, Rewind(end), ops) && Final2(t, Rewind(end), ops) == end
  {
    hide Runs, Replays, OldLeftAlone, Step1, Step2;
    var t := Start(names);
    assert WellLinked(t) && NoWayTo(Rewind(t), VERILOG);
    forall p: nat | Old(t, p) ensures p == VERILOG {
    }
    NeverThere(t, Rewind(t), ops);
    LeftAloneReplays(t, ops);
  }

  /** The condition is needed: a scope in the name of the built-in class would get the id that the
      scope of the class has, and the second pass would go there instead. */
  lemma ClashExists(names: nat)
    ensures var t := Rewind(Start(names));
      var ops := [Enter(Some(VERILOG))];
      Runs(t, ops) && !Replays(t, Rewind(Final1(t, ops)), ops)
  {
    var t := Start(names);
    var ops := [Enter(Some(VERILOG))];
    assert WellLinked(t);
    assert t.nodes[VERILOG].children == [2];
    FirstIsFound(t.nodes, 2, 1);
    assert !NoClash(Rewind(t), ops);
    SecondPassReplaysIff(t, ops);
  }

  lemma FirstIsFound(nodes: seq<Node>, c: nat, id: nat)
    requires c < |nodes| && nodes[c].id == id
    ensures FindId(nodes, [c], id) == Some(c)
  {
  }

  // ----- The table as the parser keeps it -----

  class ScopeTable {
    var nodes: seq<Node>
    var current: Option<nat>
    var counter: nat

    function State(): Table
      reads this
    {
      Table(nodes, current, counter)
    }

    /** `init_scope` */
    constructor ()
      ensures State() == Table([Node(0, None, None, [])], Some(0), 1)
    {
      nodes, current, counter := [Node(0, None, None, [])], Some(0), 1;
    }

    /** `rewind_scope` */
    method RewindScope()
      modifies this
      ensures State() == Rewind(old(State()))
      ensures nodes == old(nodes) && current == Some(0) && counter == 1
    {
      current, counter := Some(0), 1;
    }

    predicate Carries(c: nat, id: nat)
      reads this`nodes
    {
      c < |nodes| && nodes[c].id == id
    }

    /** The walk along the brothers for the one that carries the id. */
    method FindChild(p: nat, id: nat) returns (r: Option<nat>)
      requires p < |nodes|
      ensures r == FindId(nodes, nodes[p].children, id)
      ensures r.Some? ==>
        exists i | 0 <= i < |nodes[p].children| :: nodes[p].children[i] == r.value
          && forall j | 0 <= j < i :: !Carries(nodes[p].children[j], id)
      ensures if r.Some? then Carries(r.value, id) else forall c | c in nodes[p].children :: !Carries(c, id)
    {
      var rest := nodes[p].children;
      ghost var i := 0;
      while rest != []
        invariant i <= |nodes[p].children| && rest == nodes[p].children[i..]
        invariant forall j | 0 <= j < i :: !Carries(nodes[p].children[j], id)
        invariant FindId(nodes, rest, id) == FindId(nodes, nodes[p].children, id)
      {
        var c := rest[0];
        if c < |nodes| && nodes[c].id == id {
          assert nodes[p].children[i] == c;
          return Some(c);
        }
        rest := rest[1..];
        i := i + 1;
      }
      r := None;
    }

    /** Allocates a node and links it as the last child of p. */
    method NewChild(p: nat, id: nat)
      requires p < |nodes|
      modifies this
      ensures State() == AddChild(old(State()), p, id)
    {
      var n := |nodes|;
      nodes := nodes[p := nodes[p].(children := nodes[p].children + [n])];
      nodes := nodes + [Node(id, Some(p), current, [])];
      current := Some(n);
    }

    /** `enter_scope`; false when the program stops. */
    method EnterScope(named: Option<nat>, pass: int) returns (ok: bool)
      requires pass == 1 || pass == 2
      modifies this
      ensures var r := if pass == 1 then Step1(old(State()), Enter(named)) else Step2(old(State()), Enter(named));
        ok == r.Some? && (ok ==> State() == r.value)
      ensures ok && pass == 1 ==>
        var n, scope := |old(nodes)|, if named.Some? then named else old(current);
        && scope.Some? && scope.value < n && |nodes| == n + 1 && current == Some(n) && counter == old(counter) + 1
        && nodes[n] == Node(old(counter), scope, old(current), [])
        && nodes[scope.value].children == old(nodes)[scope.value].children + [n]
      ensures ok && pass == 2 ==>
        var scope := if named.Some? then named else old(current);
        && scope.Some? && scope.value < |old(nodes)| == |nodes| && counter == old(counter) + 1
        && current.Some? && current.value in old(nodes)[scope.value].children && current.value < |nodes|
        && nodes[current.value].id == old(counter) && nodes[current.value].prev == old(current)
    {
      var parent := if named.Some? then named else current;
      if parent.None? || parent.value >= |nodes| {
        return false;
      }
      if pass == 1 {
        NewChild(parent.value, counter);
      } else {
        var found := FindChild(parent.value, counter);
        if found.None? {
          return false;
        }
        nodes := nodes[found.value := nodes[found.value].(prev := current)];
        current := found;
      }
      counter := counter + 1;
      ok := true;
    }

    /** `enter_class_scope` */
    method EnterClassScope(cls: nat, pass: int) returns (ok: bool)
      requires pass == 1 || pass == 2
      modifies this
      ensures var r := if pass == 1 then Step1(old(State()), EnterClass(cls)) else Step2(old(State()), EnterClass(cls));
        ok == r.Some? && (ok ==> State() == r.value)
      ensures ok ==>
        && cls < |old(nodes)| && current.Some? && current.value < |nodes| && counter == old(counter)
        && nodes[current.value].prev == old(current)
        && if old(nodes)[cls].children != [] then current == Some(old(nodes)[cls].children[0])
           else pass == 1 && current == Some(|old(nodes)|) && nodes[cls].children == [|old(nodes)|]
                && nodes[current.value].parent == Some(cls)
    {
      if cls >= |nodes| {
        return false;
      }
      var children := nodes[cls].children;
      if children == [] {
        ok := pass == 1;
        if ok {
          NewChild(cls, 0);
        }
      } else {
        var c := children[0];
        ok := c < |nodes|;
        if ok {
          nodes := nodes[c := nodes[c].(prev := current)];
          current := Some(c);
        }
      }
    }

    /** `exit_scope` */
    method ExitScope() returns (ok: bool)
      modifies this
      ensures var r := Leave(old(State()));
        ok == r.Some? && (ok ==> State() == r.value)
    {
      ok := current.Some? && current.value < |nodes|;
      if ok {
        current := nodes[current.value].prev;
      }
    }
  }
}
