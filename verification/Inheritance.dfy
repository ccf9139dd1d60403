/**
Inheritance: the chain of parents, the check that guards it, and the walks along it. A class is a
number; its parent, if any, is another.
*/
module Inheritance {
  import opened Machine

  datatype Class = Class(parent: Option<nat>, isFinal: bool, members: set<string>)

  type Classes = seq<Class>

  predicate Linked(cs: Classes) {
    forall c | 0 <= c < |cs| :: cs[c].parent.Some? ==> cs[c].parent.value < |cs|
  }

  predicate IsClass(cs: Classes, c: Option<nat>) { c.Some? ==> c.value < |cs| }

  /** The class n parent steps up, if the chain goes so far. */
  function Up(cs: Classes, c: Option<nat>, n: nat): (r: Option<nat>)
    requires Linked(cs) && IsClass(cs, c)
    ensures IsClass(cs, r)
    decreases n
  {
    if n == 0 || c.None? then c else Up(cs, cs[c.value].parent, n - 1)
  }

  ghost predicate Ends(cs: Classes, c: Option<nat>)
    requires Linked(cs) && IsClass(cs, c)
  {
    exists n: nat :: Up(cs, c, n).None?
  }

  /** Every chain of parents comes to an end. */
  ghost predicate Acyclic(cs: Classes)
    requires Linked(cs)
  {
    forall c | 0 <= c < |cs| :: Ends(cs, Some(c))
  }

  lemma {:induction false} UpAdds(cs: Classes, c: Option<nat>, m: nat, n: nat)
    requires Linked(cs) && IsClass(cs, c)
    ensures Up(cs, c, m + n) == Up(cs, Up(cs, c, m), n)
    decreases m
  {
    if m > 0 && c.Some? {
      UpAdds(cs, cs[c.value].parent, m - 1, n);
    } else if c.None? {
      UpNone(cs, m + n);
      UpNone(cs, n);
    }
  }

  lemma UpNone(cs: Classes, n: nat)
    requires Linked(cs)
    ensures Up(cs, None, n) == None
  {
  }

  lemma UpStep(cs: Classes, c: nat, n: nat)
    requires Linked(cs) && c < |cs|
    ensures Up(cs, Some(c), n + 1) == Up(cs, cs[c].parent, n)
  {
  }

  /** How many classes the chain from c on has. */
  ghost function Height(cs: Classes, c: Option<nat>): (h: nat)
    requires Linked(cs) && IsClass(cs, c) && Ends(cs, c)
    ensures Up(cs, c, h).None? && forall m: nat | m < h :: Up(cs, c, m).Some?
  {
    var n: nat :| Up(cs, c, n).None?;
    Least(cs, c, n)
  }

  ghost function Least(cs: Classes, c: Option<nat>, n: nat): (h: nat)
    requires Linked(cs) && IsClass(cs, c) && Up(cs, c, n).None?
    ensures Up(cs, c, h).None? && forall m: nat | m < h :: Up(cs, c, m).Some?
    decreases n
  {
    if n == 0 then 0
    else if c.None? then 0
    else
      var h := Least(cs, cs[c.value].parent, n - 1);
      assert forall m: nat | 0 < m < h + 1 :: Up(cs, c, m) == Up(cs, cs[c.value].parent, m - 1);
      h + 1
  }

  lemma HeightStep(cs: Classes, c: nat)
    requires Linked(cs) && c < |cs| && Ends(cs, Some(c))
    ensures Ends(cs, cs[c].parent) && Height(cs, Some(c)) == Height(cs, cs[c].parent) + 1
  {
    var h := Height(cs, Some(c));
    assert h > 0 by {
      assert Up(cs, Some(c), 0) == Some(c);
    }
    UpStep(cs, c, h - 1);
    var k := Height(cs, cs[c].parent);
    UpStep(cs, c, k);
  }

  lemma NoneEnds(cs: Classes)
    requires Linked(cs)
    ensures Ends(cs, None)
  {
    assert Up(cs, None, 0).None?;
  }

  lemma {:induction false} HeightUp(cs: Classes, c: Option<nat>, m: nat)
    requires Linked(cs) && IsClass(cs, c) && Ends(cs, c) && Up(cs, c, m).Some?
    ensures Ends(cs, Up(cs, c, m)) && Height(cs, c) == Height(cs, Up(cs, c, m)) + m
    decreases m
  {
    hide Height;
    if c.None? {
      UpNone(cs, m);
    } else if m > 0 {
      HeightStep(cs, c.value);
      HeightUp(cs, cs[c.value].parent, m - 1);
    }
  }

  /** A chain that ends never comes back to where it was. */
  lemma StepsUnique(cs: Classes, c: Option<nat>, m: nat, n: nat)
    requires Linked(cs) && IsClass(cs, c) && Ends(cs, c) && Up(cs, c, m).Some? && Up(cs, c, m) == Up(cs, c, n)
    ensures m == n
  {
    hide Height;
    HeightUp(cs, c, m);
    HeightUp(cs, c, n);
  }

  // ----- The check -----

  /** `check_extention`, with an allowance of calls; `None` when that is used up. */
  function Check(cs: Classes, this_: nat, super: Option<nat>, calls: nat): Option<bool>
    requires Linked(cs) && IsClass(cs, super)
    decreases calls
  {
    if super.None? then Some(true)
    else if calls == 0 then None
    else if this_ == super.value || cs[super.value].isFinal then Some(false)
    else Check(cs, this_, cs[super.value].parent, calls - 1)
  }

  ghost predicate Answers(cs: Classes, this_: nat, super: Option<nat>, b: bool)
    requires Linked(cs) && IsClass(cs, super)
  {
    exists calls: nat :: Check(cs, this_, super, calls) == Some(b)
  }

  /** The chain from super on has n classes below its first obstacle: the class itself, or a final one. */
  ghost predicate Obstacle(cs: Classes, this_: nat, super: Option<nat>, n: nat)
    requires Linked(cs) && IsClass(cs, super)
  {
    var x := Up(cs, super, n);
    x.Some? && (x.value == this_ || cs[x.value].isFinal)
  }

  /** With n calls left the check says no exactly when an obstacle comes within n steps. */
  lemma {:induction false} CheckWithin(cs: Classes, this_: nat, super: Option<nat>, calls: nat)
    requires Linked(cs) && IsClass(cs, super)
    ensures var r := Check(cs, this_, super, calls);
      && (r == Some(false) <==> exists n: nat :: n < calls && Obstacle(cs, this_, super, n))
      && (r == Some(true) ==> Ends(cs, super) && forall n: nat :: !Obstacle(cs, this_, super, n))
      && (r == None ==> Up(cs, super, calls).Some?)
    decreases calls
  {
    if super.None? {
      NoneEnds(cs);
      forall n: nat ensures !Obstacle(cs, this_, super, n) {
        UpNone(cs, n);
      }
    } else if calls > 0 {
      assert Up(cs, super, 0) == super;
      var next := cs[super.value].parent;
      forall n: nat ensures Obstacle(cs, this_, super, n + 1) <==> Obstacle(cs, this_, next, n) {
        UpStep(cs, super.value, n);
      }
      if this_ == super.value || cs[super.value].isFinal {
        assert Obstacle(cs, this_, super, 0);
      } else {
        CheckWithin(cs, this_, next, calls - 1);
        CheckStep(cs, this_, super, calls);
      }
    }
  }

  lemma CheckStep(cs: Classes, this_: nat, super: Option<nat>, calls: nat)
    requires Linked(cs) && IsClass(cs, super) && super.Some? && calls > 0 && !Obstacle(cs, this_, super, 0)
    requires forall n: nat :: Obstacle(cs, this_, super, n + 1) <==> Obstacle(cs, this_, cs[super.value].parent, n)
    ensures (exists n: nat :: n < calls && Obstacle(cs, this_, super, n))
            <==> exists n: nat :: n < calls - 1 && Obstacle(cs, this_, cs[super.value].parent, n)
    ensures (forall n: nat :: !Obstacle(cs, this_, super, n))
            <==> forall n: nat :: !Obstacle(cs, this_, cs[super.value].parent, n)
    ensures Ends(cs, cs[super.value].parent) ==> Ends(cs, super)
    ensures Up(cs, super, calls) == Up(cs, cs[super.value].parent, calls - 1)
  {
    hide Obstacle;
    var next := cs[super.value].parent;
    if exists n: nat :: n < calls && Obstacle(cs, this_, super, n) {
      var n: nat :| n < calls && Obstacle(cs, this_, super, n);
      assert n > 0 && Obstacle(cs, this_, super, (n - 1) + 1);
      assert Obstacle(cs, this_, next, n - 1);
    }
    forall n: nat | Obstacle(cs, this_, super, n) ensures Obstacle(cs, this_, next, n - 1) {
      assert Obstacle(cs, this_, super, (n - 1) + 1);
    }
    if Ends(cs, next) {
      var n: nat :| Up(cs, next, n).None?;
      UpStep(cs, super.value, n);
    }
  }

  /** The check says yes exactly when the chain ends without an obstacle, and no exactly when there
      is one; over a chain that goes round for ever without one it says nothing. */
  lemma AnswersIff(cs: Classes, this_: nat, super: Option<nat>)
    requires Linked(cs) && IsClass(cs, super)
    ensures Answers(cs, this_, super, true) <==> Ends(cs, super) && forall n: nat :: !Obstacle(cs, this_, super, n)
    ensures Answers(cs, this_, super, false) <==> exists n: nat :: Obstacle(cs, this_, super, n)
  {
    hide Check, Obstacle;
    if Answers(cs, this_, super, true) {
      var calls: nat :| Check(cs, this_, super, calls) == Some(true);
      CheckWithin(cs, this_, super, calls);
    }
    if Answers(cs, this_, super, false) {
      var calls: nat :| Check(cs, this_, super, calls) == Some(false);
      CheckWithin(cs, this_, super, calls);
    }
    if exists n: nat :: Obstacle(cs, this_, super, n) {
      var n: nat :| Obstacle(cs, this_, super, n);
      CheckWithin(cs, this_, super, n + 1);
      assert Check(cs, this_, super, n + 1) == Some(false);
    } else if Ends(cs, super) {
      var n: nat :| Up(cs, super, n).None?;
      CheckWithin(cs, this_, super, n);
      match Check(cs, this_, super, n) {
        case None =>
        case Some(b) => assert b;
      }
    }
  }

  /** Two classes above each other, and a third that is to extend one of them. */
  function Ring(): Classes {
    [Class(Some(1), false, {}), Class(Some(0), false, {}), Class(None, false, {})]
  }

  lemma {:induction false} RoundAndRound(x: nat, n: nat)
    requires x < 2
    ensures Linked(Ring()) && Up(Ring(), Some(x), n).Some? && Up(Ring(), Some(x), n).value < 2
    decreases n
  {
    if n > 0 {
      RoundAndRound(1 - x, n - 1);
    }
  }

  /** Below a cycle that the class is not part of the check gives no answer. */
  lemma ForeignCycle()
    ensures Linked(Ring()) && !Answers(Ring(), 2, Some(0), true) && !Answers(Ring(), 2, Some(0), false)
  {
    hide Answers;
    RoundAndRound(0, 0);
    AnswersIff(Ring(), 2, Some(0));
    forall n: nat ensures Up(Ring(), Some(0), n).Some? && !Obstacle(Ring(), 2, Some(0), n) {
      RoundAndRound(0, n);
    }
  }

  predicate FinalAt(cs: Classes, x: Option<nat>, n: nat)
    requires Linked(cs) && IsClass(cs, x)
  {
    Up(cs, x, n).Some? && cs[Up(cs, x, n).value].isFinal
  }

  /** Neither x nor any class above it is final. */
  ghost predicate NoFinalFrom(cs: Classes, x: Option<nat>)
    requires Linked(cs) && IsClass(cs, x)
  {
    forall n: nat :: !FinalAt(cs, x, n)
  }

  /** No class has a final class above it. */
  ghost predicate FinalsRespected(cs: Classes)
    requires Linked(cs)
  {
    forall c | 0 <= c < |cs| :: NoFinalFrom(cs, cs[c].parent)
  }

  /** With all parents linked, as the second pass has them, every class is accepted if and only if
      the hierarchy has no cycle and no class descends from a final one. */
  lemma AllAcceptedIff(cs: Classes)
    requires Linked(cs)
    ensures (forall c | 0 <= c < |cs| :: Answers(cs, c, cs[c].parent, true)) <==> Acyclic(cs) && FinalsRespected(cs)
  {
    hide Answers;
    if forall c | 0 <= c < |cs| :: Answers(cs, c, cs[c].parent, true) {
      forall c | 0 <= c < |cs| ensures Ends(cs, Some(c)) {
        AnswersIff(cs, c, cs[c].parent);
        var n: nat :| Up(cs, cs[c].parent, n).None?;
        UpStep(cs, c, n);
      }
      forall c, n: nat | 0 <= c < |cs| ensures !FinalAt(cs, cs[c].parent, n) {
        AnswersIff(cs, c, cs[c].parent);
        assert !Obstacle(cs, c, cs[c].parent, n);
      }
    }
    if Acyclic(cs) && FinalsRespected(cs) {
      forall c | 0 <= c < |cs| ensures Answers(cs, c, cs[c].parent, true) {
        AnswersIff(cs, c, cs[c].parent);
        HeightStep(cs, c);
        forall n: nat ensures !Obstacle(cs, c, cs[c].parent, n) {
          NotAbove(cs, c, n);
          assert !FinalAt(cs, cs[c].parent, n);
        }
      }
    }
  }

  /** In a chain that ends no class lies above itself. */
  lemma NotAbove(cs: Classes, c: nat, n: nat)
    requires Linked(cs) && c < |cs| && Ends(cs, Some(c))
    ensures Up(cs, cs[c].parent, n) != Some(c)
  {
    UpStep(cs, c, n);
    assert Up(cs, Some(c), 0) == Some(c);
    if Up(cs, cs[c].parent, n) == Some(c) {
      StepsUnique(cs, Some(c), 0, n + 1);
    }
  }

  /** A class that lies above itself is always refused. */
  lemma CycleIsRefused(cs: Classes, c: nat, n: nat)
    requires Linked(cs) && c < |cs| && Up(cs, cs[c].parent, n) == Some(c)
    ensures Answers(cs, c, cs[c].parent, false)
  {
    hide Answers;
    AnswersIff(cs, c, cs[c].parent);
    assert Obstacle(cs, c, cs[c].parent, n);
  }

  // ----- Linking one class -----

  function Link(cs: Classes, c: nat, super: nat): Classes
    requires c < |cs| && super < |cs|
  {
    cs[c := cs[c].(parent := Some(super))]
  }

  lemma StillLinked(cs: Classes, c: nat, super: nat)
    requires Linked(cs) && c < |cs| && super < |cs|
    ensures Linked(Link(cs, c, super))
  {
  }

  lemma {:induction false} SameBelow(cs: Classes, c: nat, super: nat, x: Option<nat>, n: nat)
    requires Linked(cs) && c < |cs| && super < |cs| && IsClass(cs, x)
    requires forall k: nat | k < n :: Up(cs, x, k) != Some(c)
    ensures Linked(Link(cs, c, super)) && Up(Link(cs, c, super), x, n) == Up(cs, x, n)
    decreases n
  {
    if n > 0 && x.Some? {
      assert Up(cs, x, 0) == x;
      forall k: nat | k < n - 1 ensures Up(cs, cs[x.value].parent, k) != Some(c) {
        UpStep(cs, x.value, k);
        assert Up(cs, x, k + 1) != Some(c);
      }
      SameBelow(cs, c, super, cs[x.value].parent, n - 1);
    }
  }

  /** Linking a class without parent to a superclass keeps the hierarchy free of cycles, and puts no
      final class above it, if and only if the check accepts. */
  lemma LinkingKeepsAcyclicIff(cs: Classes, c: nat, super: nat)
    requires Linked(cs) && Acyclic(cs) && c < |cs| && super < |cs| && cs[c].parent.None?
    ensures Linked(Link(cs, c, super))
    ensures Answers(cs, c, Some(super), true) <==>
      Acyclic(Link(cs, c, super)) && NoFinalFrom(cs, Some(super))
  {
    hide Answers;
    var cs' := Link(cs, c, super);
    AnswersIff(cs, c, Some(super));
    StillLinked(cs, c, super);
    assert Ends(cs, Some(super));
    if Answers(cs, c, Some(super), true) {
      forall n: nat ensures Up(cs, Some(super), n) != Some(c) {
        assert !Obstacle(cs, c, Some(super), n);
      }
      forall n: nat ensures !FinalAt(cs, Some(super), n) {
        assert !Obstacle(cs, c, Some(super), n);
      }
      forall x | 0 <= x < |cs'| ensures Ends(cs', Some(x)) {
        StillEnds(cs, c, super, x);
      }
    }
    if !Answers(cs, c, Some(super), true) {
      var n: nat :| Obstacle(cs, c, Some(super), n);
      var x := Up(cs, Some(super), n);
      if x == Some(c) {
        LinkCloses(cs, c, super, n);
      } else {
        assert FinalAt(cs, Some(super), n);
      }
    }
  }

  lemma StillEnds(cs: Classes, c: nat, super: nat, x: nat)
    requires Linked(cs) && Acyclic(cs) && c < |cs| && super < |cs| && x < |cs|
    requires forall n: nat :: Up(cs, Some(super), n) != Some(c)
    ensures Linked(Link(cs, c, super)) && Ends(Link(cs, c, super), Some(x))
  {
    var cs' := Link(cs, c, super);
    var h := Height(cs, Some(super));
    SameBelow(cs, c, super, Some(super), h);
    if exists k: nat :: Up(cs, Some(x), k) == Some(c) {
      var k := FirstAt(cs, Some(x), c);
      SameBelow(cs, c, super, Some(x), k);
      UpAdds(cs', Some(x), k, h + 1);
      UpStep(cs', c, h);
    } else {
      var n := Height(cs, Some(x));
      SameBelow(cs, c, super, Some(x), n);
    }
  }

  lemma FirstAt(cs: Classes, x: Option<nat>, c: nat) returns (k: nat)
    requires Linked(cs) && IsClass(cs, x) && exists k: nat :: Up(cs, x, k) == Some(c)
    ensures Up(cs, x, k) == Some(c) && forall j: nat | j < k :: Up(cs, x, j) != Some(c)
  {
    var n: nat :| Up(cs, x, n) == Some(c);
    k := 0;
    while Up(cs, x, k) != Some(c)
      invariant k <= n && forall j: nat | j < k :: Up(cs, x, j) != Some(c)
      decreases n - k
    {
      k := k + 1;
    }
  }

  lemma LinkCloses(cs: Classes, c: nat, super: nat, n: nat)
    requires Linked(cs) && c < |cs| && super < |cs| && Up(cs, Some(super), n) == Some(c)
    ensures Linked(Link(cs, c, super)) && !Acyclic(Link(cs, c, super))
  {
    var cs' := Link(cs, c, super);
    var k := FirstAt(cs, Some(super), c);
    SameBelow(cs, c, super, Some(super), k);
    if Ends(cs', Some(c)) {
      NotAbove(cs', c, k);
    }
  }

  // ----- Offsets -----

  ghost predicate LeadsTo(cs: Classes, a: nat, b: nat)
    requires Linked(cs) && a < |cs|
  {
    exists k: nat :: Up(cs, Some(a), k) == Some(b)
  }

  /** The first of the steps, from j on, that leads from a to b; the n-th does. */
  ghost function FirstFrom(cs: Classes, a: nat, b: nat, j: nat, n: nat): (k: nat)
    requires Linked(cs) && a < |cs| && j <= n && Up(cs, Some(a), n) == Some(b)
    requires forall i: nat | i < j :: Up(cs, Some(a), i) != Some(b)
    ensures Up(cs, Some(a), k) == Some(b) && forall i: nat | i < k :: Up(cs, Some(a), i) != Some(b)
    decreases n - j
  {
    if Up(cs, Some(a), j) == Some(b) then j else FirstFrom(cs, a, b, j + 1, n)
  }

  ghost function Steps(cs: Classes, a: nat, b: nat): (k: nat)
    requires Linked(cs) && a < |cs| && LeadsTo(cs, a, b)
    ensures Up(cs, Some(a), k) == Some(b) && forall i: nat | i < k :: Up(cs, Some(a), i) != Some(b)
  {
    var n: nat :| Up(cs, Some(a), n) == Some(b);
    FirstFrom(cs, a, b, 0, n)
  }

  /** `get_parent_class_offset`: steps up from the first class to the second, or, negative, the other
      way round; `None` is the fatal error. */
  ghost function Offset(cs: Classes, a: nat, b: nat): Option<int>
    requires Linked(cs) && a < |cs| && b < |cs|
  {
    if LeadsTo(cs, a, b) then Some(Steps(cs, a, b))
    else if LeadsTo(cs, b, a) then Some(0 - Steps(cs, b, a))
    else None
  }

  lemma Unrelated(cs: Classes, a: nat, b: nat)
    requires Linked(cs) && a < |cs| && b < |cs|
    requires forall k: nat :: Up(cs, Some(a), k) != Some(b)
    requires forall k: nat :: Up(cs, Some(b), k) != Some(a)
    ensures Offset(cs, a, b) == None
  {
  }

  /** The offset names the ancestor. */
  lemma OffsetNames(cs: Classes, a: nat, b: nat, k: int)
    requires Linked(cs) && Acyclic(cs) && a < |cs| && b < |cs|
    ensures Offset(cs, a, b) == Some(k) <==> if k >= 0 then Up(cs, Some(a), k) == Some(b)
            else Up(cs, Some(b), -k) == Some(a)
  {
    if k >= 0 && Up(cs, Some(a), k) == Some(b) {
      forall j: nat | Up(cs, Some(a), j) == Some(b) ensures j == k {
        StepsUnique(cs, Some(a), j, k);
      }
    }
    if k < 0 && Up(cs, Some(b), -k) == Some(a) {
      forall j: nat | Up(cs, Some(b), j) == Some(a) ensures j == -k {
        StepsUnique(cs, Some(b), j, -k);
      }
      forall j: nat ensures Up(cs, Some(a), j) != Some(b) {
        NotBoth(cs, b, a, -k, j);
      }
    }
  }

  lemma NotBoth(cs: Classes, a: nat, b: nat, m: nat, n: nat)
    requires Linked(cs) && Acyclic(cs) && a < |cs| && b < |cs| && m > 0 && Up(cs, Some(a), m) == Some(b)
    ensures Up(cs, Some(b), n) != Some(a)
  {
    if Up(cs, Some(b), n) == Some(a) {
      UpAdds(cs, Some(a), m, n);
      assert Up(cs, Some(a), 0) == Some(a);
      StepsUnique(cs, Some(a), 0, m + n);
    }
  }

  lemma OffsetsOppose(cs: Classes, a: nat, b: nat)
    requires Linked(cs) && Acyclic(cs) && a < |cs| && b < |cs| && Offset(cs, a, b).Some?
    ensures Offset(cs, b, a) == Some(-Offset(cs, a, b).value)
  {
    var k := Offset(cs, a, b).value;
    OffsetNames(cs, a, b, k);
    OffsetNames(cs, b, a, -k);
    if k == 0 {
      assert Up(cs, Some(b), 0) == Some(b);
    }
  }

  /** Whenever three classes are related in pairs their offsets add. */
  lemma OffsetsAdd(cs: Classes, a: nat, b: nat, c: nat)
    requires Linked(cs) && Acyclic(cs) && a < |cs| && b < |cs| && c < |cs|
    requires Offset(cs, a, b).Some? && Offset(cs, b, c).Some? && Offset(cs, a, c).Some?
    ensures Offset(cs, a, c).value == Offset(cs, a, b).value + Offset(cs, b, c).value
  {
    var m, n, k := Offset(cs, a, b).value, Offset(cs, b, c).value, Offset(cs, a, c).value;
    hide Offset;
    OffsetNames(cs, a, b, m);
    OffsetNames(cs, b, c, n);
    OffsetNames(cs, a, c, k);
    var ha, hb, hc := Height(cs, Some(a)), Height(cs, Some(b)), Height(cs, Some(c));
    HeightOffset(cs, a, b, m);
    HeightOffset(cs, b, c, n);
    HeightOffset(cs, a, c, k);
  }

  /** The offset is the difference in height. */
  lemma HeightOffset(cs: Classes, a: nat, b: nat, k: int)
    requires Linked(cs) && Acyclic(cs) && a < |cs| && b < |cs|
    requires if k >= 0 then Up(cs, Some(a), k) == Some(b) else Up(cs, Some(b), -k) == Some(a)
    ensures k == Height(cs, Some(a)) - Height(cs, Some(b))
  {
    hide Height;
    if k >= 0 {
      HeightUp(cs, Some(a), k);
    } else {
      HeightUp(cs, Some(b), -k);
    }
  }

  // ----- The walks, as the code makes them -----

  /** `check_extention`, when it answers. */
  method CheckExtention(cs: Classes, this_: nat, super: Option<nat>, ghost calls: nat) returns (ok: bool)
    requires Linked(cs) && IsClass(cs, super) && Check(cs, this_, super, calls).Some?
    ensures Some(ok) == Check(cs, this_, super, calls) && Answers(cs, this_, super, ok)
    decreases calls
  {
    if super.None? {
      ok := true;
    } else if this_ == super.value {
      ok := false;
    } else if cs[super.value].isFinal {
      ok := false;
    } else {
      ok := CheckExtention(cs, this_, cs[super.value].parent, calls - 1);
    }
    assert Check(cs, this_, super, calls) == Some(ok);
  }

  /** Walks up from a class to dtype; the steps, or how many classes there are. The walk ends at dtype
      or above the last class. */
  method WalkUp(cs: Classes, from: nat, dtype: nat) returns (found: bool, steps: nat)
    requires Linked(cs) && from < |cs| && (Ends(cs, Some(from)) || LeadsTo(cs, from, dtype))
    ensures found <==> LeadsTo(cs, from, dtype)
    ensures found ==>
      && Up(cs, Some(from), steps) == Some(dtype)
      && forall k: nat | k < steps :: Up(cs, Some(from), k) != Some(dtype)
  {
    var child: Option<nat> := Some(from);
    ghost var end: nat :| Up(cs, Some(from), end) == None || Up(cs, Some(from), end) == Some(dtype);
    steps := 0;
    while child.Some?
      invariant IsClass(cs, child) && child == Up(cs, Some(from), steps) && steps <= end
      invariant forall k: nat | k < steps :: Up(cs, Some(from), k) != Some(dtype)
      decreases end - steps
    {
      if child.value == dtype {
        return true, steps;
      }
      UpAdds(cs, Some(from), steps, 1);
      UpStep(cs, child.value, 0);
      child := cs[child.value].parent;
      steps := steps + 1;
    }
    forall k: nat ensures Up(cs, Some(from), k) != Some(dtype) {
      if k >= steps {
        UpAdds(cs, Some(from), steps, k - steps);
        UpNone(cs, k - steps);
      }
    }
    found := false;
  }

  /** `is_parent_class` */
  method IsParentClass(cs: Classes, child: nat, dtype: nat) returns (r: bool)
    requires Linked(cs) && child < |cs| && (Ends(cs, Some(child)) || LeadsTo(cs, child, dtype))
    ensures r <==> exists k: nat :: Up(cs, Some(child), k) == Some(dtype)
  {
    var steps;
    r, steps := WalkUp(cs, child, dtype);
  }

  lemma StepsAre(cs: Classes, a: nat, b: nat, k: nat)
    requires Linked(cs) && a < |cs| && Up(cs, Some(a), k) == Some(b)
    requires forall i: nat | i < k :: Up(cs, Some(a), i) != Some(b)
    ensures LeadsTo(cs, a, b) && Steps(cs, a, b) == k
  {
  }

  /** `get_parent_class_offset`: up from the child, and else up from the other class. */
  method GetParentClassOffset(cs: Classes, child: nat, dtype: nat) returns (offset: Option<int>)
    requires Linked(cs) && child < |cs| && dtype < |cs|
    requires LeadsTo(cs, child, dtype)
      || (Ends(cs, Some(child)) && (Ends(cs, Some(dtype)) || LeadsTo(cs, dtype, child)))
    ensures offset == Offset(cs, child, dtype)
  {
    var found, steps := WalkUp(cs, child, dtype);
    if found {
      StepsAre(cs, child, dtype, steps);
      offset := Some(steps);
    } else {
      found, steps := WalkUp(cs, dtype, child);
      if found {
        StepsAre(cs, dtype, child, steps);
        var k: int := steps;
        offset := Some(-k);
      } else {
        Unrelated(cs, child, dtype);
        offset := None;
      }
    }
  }

  ghost predicate HasAt(cs: Classes, scope: nat, name: string, k: nat)
    requires Linked(cs) && scope < |cs|
  {
    Up(cs, Some(scope), k).Some? && name in cs[Up(cs, Some(scope), k).value].members
  }

  /** `findmember_in_class`: the nearest class up the chain that has the member, a constructor only
      in the class itself; the offset counts the steps to it. */
  method FindMember(cs: Classes, scope: nat, name: string) returns (found: Option<nat>, offset: nat)
    requires Linked(cs) && scope < |cs|
    requires name == "new" || Ends(cs, Some(scope)) || exists k: nat :: HasAt(cs, scope, name, k)
    ensures found.Some? ==>
      && found.value < |cs| && HasAt(cs, scope, name, offset) && Up(cs, Some(scope), offset) == found
      && Offset(cs, scope, found.value) == Some(offset) && (name == "new" ==> offset == 0)
      && forall k: nat | k < offset :: Up(cs, Some(scope), k).Some? && !HasAt(cs, scope, name, k)
    ensures found.None? ==> forall k: nat | name == "new" ==> k == 0 :: !HasAt(cs, scope, name, k)
  {
    var c: Option<nat> := Some(scope);
    offset := 0;
    ghost var end: nat := 0;
    if name != "new" {
      end :| Up(cs, Some(scope), end) == None || HasAt(cs, scope, name, end);
    }
    while c.Some?
      invariant IsClass(cs, c) && c == Up(cs, Some(scope), offset) && offset <= end
      invariant name == "new" ==> offset == 0
      invariant forall k: nat | k < offset :: Up(cs, Some(scope), k).Some? && !HasAt(cs, scope, name, k)
      decreases end - offset
    {
      if name in cs[c.value].members {
        StepsAre(cs, scope, c.value, offset);
        return c, offset;
      }
      if name == "new" {
        return None, offset;
      }
      assert !HasAt(cs, scope, name, offset);
      UpAdds(cs, Some(scope), offset, 1);
      UpStep(cs, c.value, 0);
      c := cs[c.value].parent;
      offset := offset + 1;
    }
    forall k: nat | k >= offset ensures Up(cs, Some(scope), k).None? {
      UpAdds(cs, Some(scope), offset, k - offset);
      UpNone(cs, k - offset);
    }
    found := None;
  }
}
