/**
Four-state comparison and logic on vectors of 32-bit words. Here a word is its 32 bits, lowest
first. Each digit is a pair of bits: a/b = 0/0 is 0, 1/0 is 1, 0/1 is z and 1/1 is x. Every
operation is stated digit by digit.
*/
module BitLogic {

  const BYTE: seq<bool> := [false, false, false, false, false, false, false, false]

  type Bits = w: seq<bool> | |w| == 32 witness BYTE + BYTE + BYTE + BYTE

  const NONE: Bits := BYTE + BYTE + BYTE + BYTE

  // ----- The operators of C on words -----

  function And(x: Bits, y: Bits): (r: Bits)
    ensures forall j | 0 <= j < 32 :: r[j] == (x[j] && y[j])
  {
    seq(32, j requires 0 <= j < 32 => x[j] && y[j])
  }

  function Or(x: Bits, y: Bits): (r: Bits)
    ensures forall j | 0 <= j < 32 :: r[j] == (x[j] || y[j])
  {
    seq(32, j requires 0 <= j < 32 => x[j] || y[j])
  }

  function Not(x: Bits): (r: Bits)
    ensures forall j | 0 <= j < 32 :: r[j] == !x[j]
  {
    seq(32, j requires 0 <= j < 32 => !x[j])
  }

  /** 0xffffffff >> ((32 - s % 32) % 32): the bits of the last word of a vector of s bits. */
  function Mask(s: nat): (r: Bits)
    requires s > 0
    ensures forall j | 0 <= j < 32 :: r[j] <==> (s - 1) / 32 * 32 + j < s
  {
    seq(32, j requires 0 <= j < 32 => j < if s % 32 == 0 then 32 else s % 32)
  }

  function LastWord(s: nat): nat
    requires s > 0
  {
    (s - 1) / 32
  }

  // ----- Digits -----

  datatype Digit = D0 | D1 | DZ | DX
  {
    predicate Unknown() { DZ? || DX? }
  }

  function DigitOf(a: bool, b: bool): Digit {
    if b then if a then DX else DZ else if a then D1 else D0
  }

  /** Digit k of a vector; what lies beyond its words is 0. */
  function DigitAt(a: seq<Bits>, b: seq<Bits>, k: nat): Digit
    requires |a| == |b|
  {
    if k / 32 < |a| then DigitOf(a[k / 32][k % 32], b[k / 32][k % 32]) else D0
  }

  // ----- Wildcard comparison -----

  /** The comparisons that take x and z as values or as wildcards: `===`, `=?=`, `==?` and `?==`. */
  datatype Kind = Same | Both | Right | Left

  /** Whether two digits match. */
  predicate Match(kind: Kind, d0: Digit, d1: Digit) {
    d0 == d1
    || (d0.Unknown() && (kind.Both? || kind.Left?))
    || (d1.Unknown() && (kind.Both? || kind.Right?))
  }

  /** The code's test where both operands have a word: it finds no difference. */
  predicate BothTest(kind: Kind, a0: Bits, b0: Bits, a1: Bits, b1: Bits) {
    match kind
    case Same => !(a0 != a1 || b0 != b1)
    case Both => And(And(a0, Not(b0)), Not(b1)) == And(And(a1, Not(b1)), Not(b0))
    case Right => !(And(a0, Not(b1)) != And(a1, Not(b1)) || And(b0, Not(b1)) != NONE)
    case Left => !(And(a0, Not(b0)) != And(a1, Not(b0)) || And(b1, Not(b0)) != NONE)
  }

  /** The code's test where only the first operand has a word. */
  predicate FirstTest(kind: Kind, a0: Bits, b0: Bits) {
    match kind
    case Same => !(a0 != NONE || b0 != NONE)
    case Both => And(a0, Not(b0)) == NONE
    case Right => !(a0 != NONE || b0 != NONE)
    case Left => And(a0, Not(b0)) == NONE
  }

  /** The code's test where only the second operand has a word. */
  predicate SecondTest(kind: Kind, a1: Bits, b1: Bits) {
    match kind
    case Same => !(a1 != NONE || b1 != NONE)
    case Both => And(a1, Not(b1)) == NONE
    case Right => And(a1, Not(b1)) == NONE
    case Left => !(a1 != NONE || b1 != NONE)
  }

  /** All 32 digits of two words match. */
  predicate WordMatch(kind: Kind, a0: Bits, b0: Bits, a1: Bits, b1: Bits) {
    forall j | 0 <= j < 32 :: Match(kind, DigitOf(a0[j], b0[j]), DigitOf(a1[j], b1[j]))
  }

  lemma BothTestIsMatch(kind: Kind, a0: Bits, b0: Bits, a1: Bits, b1: Bits)
    ensures BothTest(kind, a0, b0, a1, b1) <==> WordMatch(kind, a0, b0, a1, b1)
  {
    if WordMatch(kind, a0, b0, a1, b1) {
      forall j | 0 <= j < 32 ensures Match(kind, DigitOf(a0[j], b0[j]), DigitOf(a1[j], b1[j])) {}
    }
  }

  lemma FirstTestIsMatch(kind: Kind, a0: Bits, b0: Bits)
    ensures FirstTest(kind, a0, b0) <==> WordMatch(kind, a0, b0, NONE, NONE)
  {
    BothTestIsMatch(kind, a0, b0, NONE, NONE);
  }

  lemma SecondTestIsMatch(kind: Kind, a1: Bits, b1: Bits)
    ensures SecondTest(kind, a1, b1) <==> WordMatch(kind, NONE, NONE, a1, b1)
  {
    BothTestIsMatch(kind, NONE, NONE, a1, b1);
  }

  /** All digits of two vectors match, the shorter one filled up with zeros. */
  ghost predicate Matches(kind: Kind, a0: seq<Bits>, b0: seq<Bits>, a1: seq<Bits>, b1: seq<Bits>)
    requires |a0| == |b0| && |a1| == |b1|
  {
    forall k: nat :: Match(kind, DigitAt(a0, b0, k), DigitAt(a1, b1, k))
  }

  function WordAt(a: seq<Bits>, i: nat): Bits { if i < |a| then a[i] else NONE }

  predicate MatchAt(kind: Kind, a0: seq<Bits>, b0: seq<Bits>, a1: seq<Bits>, b1: seq<Bits>, i: nat) {
    WordMatch(kind, WordAt(a0, i), WordAt(b0, i), WordAt(a1, i), WordAt(b1, i))
  }

  lemma WordByWord(kind: Kind, a0: seq<Bits>, b0: seq<Bits>, a1: seq<Bits>, b1: seq<Bits>)
    requires |a0| == |b0| && |a1| == |b1|
    requires forall i | 0 <= i < |a0| || 0 <= i < |a1| :: MatchAt(kind, a0, b0, a1, b1, i)
    ensures Matches(kind, a0, b0, a1, b1)
  {
    forall k: nat ensures Match(kind, DigitAt(a0, b0, k), DigitAt(a1, b1, k)) {
      var i, j := k / 32, k % 32;
      if i < |a0| || i < |a1| {
        assert MatchAt(kind, a0, b0, a1, b1, i);
        assert DigitAt(a0, b0, k) == DigitOf(WordAt(a0, i)[j], WordAt(b0, i)[j]);
        assert DigitAt(a1, b1, k) == DigitOf(WordAt(a1, i)[j], WordAt(b1, i)[j]);
      }
    }
  }

  lemma WordDiffers(kind: Kind, a0: seq<Bits>, b0: seq<Bits>, a1: seq<Bits>, b1: seq<Bits>, i: nat)
    requires |a0| == |b0| && |a1| == |b1| && !MatchAt(kind, a0, b0, a1, b1, i)
    ensures !Matches(kind, a0, b0, a1, b1)
  {
    var j :| 0 <= j < 32
      && !Match(kind, DigitOf(WordAt(a0, i)[j], WordAt(b0, i)[j]), DigitOf(WordAt(a1, i)[j], WordAt(b1, i)[j]));
    var k := 32 * i + j;
    assert k / 32 == i && k % 32 == j;
    assert !Match(kind, DigitAt(a0, b0, k), DigitAt(a1, b1, k));
  }

  /** The loops of `===`, `=?=`, `==?` and `?==`. */
  method Compare(kind: Kind, a0: array<Bits>, b0: array<Bits>, s0: nat, a1: array<Bits>, b1: array<Bits>, s1: nat)
    returns (ret: int)
    requires s0 > 0 && LastWord(s0) < a0.Length && LastWord(s0) < b0.Length
    requires s1 > 0 && LastWord(s1) < a1.Length && LastWord(s1) < b1.Length
    ensures var n, m := LastWord(s0) + 1, LastWord(s1) + 1;
      ret == if Matches(kind, a0[..n], b0[..n], a1[..m], b1[..m]) then 1 else 0
  {
    hide WordMatch, Matches, BothTest, FirstTest, SecondTest;
    var w0, w1 := LastWord(s0), LastWord(s1);
    ghost var x0, y0, x1, y1 := a0[..w0 + 1], b0[..w0 + 1], a1[..w1 + 1], b1[..w1 + 1];
    var i := w0 + 1;
    while i <= w1
      invariant w0 < i && forall k | w0 < k < i && k <= w1 :: MatchAt(kind, x0, y0, x1, y1, k)
    {
      SecondTestIsMatch(kind, a1[i], b1[i]);
      if !SecondTest(kind, a1[i], b1[i]) {
        WordDiffers(kind, x0, y0, x1, y1, i);
        return 0;
      }
      i := i + 1;
    }
    i := w0;
    while i >= 0
      invariant -1 <= i <= w0
      invariant forall k | i < k <= w0 || i < k <= w1 :: MatchAt(kind, x0, y0, x1, y1, k)
    {
      if i > w1 {
        FirstTestIsMatch(kind, a0[i], b0[i]);
        if !FirstTest(kind, a0[i], b0[i]) {
          WordDiffers(kind, x0, y0, x1, y1, i);
          return 0;
        }
      } else {
        BothTestIsMatch(kind, a0[i], b0[i], a1[i], b1[i]);
        if !BothTest(kind, a0[i], b0[i], a1[i], b1[i]) {
          WordDiffers(kind, x0, y0, x1, y1, i);
          return 0;
        }
      }
      i := i - 1;
    }
    WordByWord(kind, x0, y0, x1, y1);
    ret := 1;
  }

  /** `!==` returns the opposite of `===`. */
  method NotSame(a0: array<Bits>, b0: array<Bits>, s0: nat, a1: array<Bits>, b1: array<Bits>, s1: nat)
    returns (ret: int)
    requires s0 > 0 && LastWord(s0) < a0.Length && LastWord(s0) < b0.Length
    requires s1 > 0 && LastWord(s1) < a1.Length && LastWord(s1) < b1.Length
    ensures var n, m := LastWord(s0) + 1, LastWord(s1) + 1;
      ret == if Matches(Same, a0[..n], b0[..n], a1[..m], b1[..m]) then 0 else 1
  {
    ret := Compare(Same, a0, b0, s0, a1, b1, s1);
    ret := 1 - ret;
  }

  /** For all width pairs: `===` implies `==?`, which implies `=?=`; `=?=` is symmetric; and `?==`
      is `==?` with the operands exchanged. */
  lemma ComparisonsAgree(a0: seq<Bits>, b0: seq<Bits>, a1: seq<Bits>, b1: seq<Bits>)
    requires |a0| == |b0| && |a1| == |b1|
    ensures Matches(Same, a0, b0, a1, b1) ==> Matches(Right, a0, b0, a1, b1)
    ensures Matches(Right, a0, b0, a1, b1) ==> Matches(Both, a0, b0, a1, b1)
    ensures Matches(Both, a0, b0, a1, b1) <==> Matches(Both, a1, b1, a0, b0)
    ensures Matches(Left, a0, b0, a1, b1) <==> Matches(Right, a1, b1, a0, b0)
  {
  }

  // ----- Logic -----

  datatype Op = AND | OR | EOR | NAND | NOR

  /** The tables of IEEE Std 1364-2005, section 5.1.10. */
  function Table(op: Op, d0: Digit, d1: Digit): Digit {
    match op
    case AND => AndTable(d0, d1)
    case OR => OrTable(d0, d1)
    case EOR => if d0.Unknown() || d1.Unknown() then DX else if d0 == d1 then D0 else D1
    case NAND => NotTable(AndTable(d0, d1))
    case NOR => NotTable(OrTable(d0, d1))
  }

  function AndTable(d0: Digit, d1: Digit): Digit {
    if d0 == D0 || d1 == D0 then D0 else if d0 == D1 && d1 == D1 then D1 else DX
  }

  function OrTable(d0: Digit, d1: Digit): Digit {
    if d0 == D1 || d1 == D1 then D1 else if d0 == D0 && d1 == D0 then D0 else DX
  }

  function NotTable(d: Digit): Digit { if d == D0 then D1 else if d == D1 then D0 else DX }

  function ResultB(op: Op, a0: Bits, b0: Bits, a1: Bits, b1: Bits): Bits {
    match op
    case AND => Or(Or(And(a0, b1), And(b0, a1)), And(b0, b1))
    case OR => Or(Or(And(Not(a1), b0), And(Not(a0), b1)), And(b0, b1))
    case EOR => Or(b0, b1)
    case NAND => Or(Or(And(a0, b1), And(b0, a1)), And(b0, b1))
    case NOR => Or(Or(And(Not(a1), b0), And(Not(a0), b1)), And(b0, b1))
  }

  function ResultA(op: Op, a0: Bits, b0: Bits, a1: Bits, b1: Bits): Bits {
    match op
    case AND => Or(Or(Or(And(a0, a1), And(a0, b1)), And(b0, a1)), And(b0, b1))
    case OR => Or(Or(Or(a0, a1), b0), b1)
    case EOR => Or(Or(Or(And(a0, Not(a1)), And(Not(a0), a1)), b0), b1)
    case NAND => Or(Or(Or(Not(And(a0, a1)), And(a0, b1)), And(b0, a1)), And(b0, b1))
    case NOR => Or(Or(Or(Not(Or(a0, a1)), And(Not(a1), b0)), And(Not(a0), b1)), And(b0, b1))
  }

  lemma WordTable(op: Op, a0: Bits, b0: Bits, a1: Bits, b1: Bits, j: nat)
    requires j < 32
    ensures DigitOf(ResultA(op, a0, b0, a1, b1)[j], ResultB(op, a0, b0, a1, b1)[j])
            == Table(op, DigitOf(a0[j], b0[j]), DigitOf(a1[j], b1[j]))
  {
  }

  /** What the loop makes of digit k: the table, except that `or` leaves the words alone for which
      the second operand has none. */
  function Expected(op: Op, d0: Digit, d1: Digit, beyond: bool): Digit {
    if op == OR && beyond then d0 else Table(op, d0, d1)
  }

  /** No digit beyond the size is set. */
  ghost predicate Clean(a: seq<Bits>, b: seq<Bits>, s: nat)
    requires |a| == |b|
  {
    forall k | s <= k < 32 * |a| :: DigitAt(a, b, k) == D0
  }

  lemma MaskDigit(s: nat, a: Bits, b: Bits, j: nat)
    requires s > 0 && j < 32
    ensures DigitOf(And(a, Mask(s))[j], And(b, Mask(s))[j]) == if 32 * LastWord(s) + j < s then DigitOf(a[j], b[j])
            else D0
  {
  }

  /** One word of the loop. */
  function WordA(op: Op, a0: Bits, b0: Bits, a1: Bits, b1: Bits, beyond: bool): Bits {
    if op == OR && beyond then a0 else if op == AND && beyond then NONE else ResultA(op, a0, b0, a1, b1)
  }

  function WordB(op: Op, a0: Bits, b0: Bits, a1: Bits, b1: Bits, beyond: bool): Bits {
    if op == OR && beyond then b0 else if op == AND && beyond then NONE else ResultB(op, a0, b0, a1, b1)
  }

  lemma WordExpected(op: Op, a0: Bits, b0: Bits, a1: Bits, b1: Bits, beyond: bool, j: nat)
    requires j < 32 && (beyond ==> a1 == NONE && b1 == NONE)
    ensures DigitOf(WordA(op, a0, b0, a1, b1, beyond)[j], WordB(op, a0, b0, a1, b1, beyond)[j])
            == Expected(op, DigitOf(a0[j], b0[j]), DigitOf(a1[j], b1[j]), beyond)
  {
    hide ResultA, ResultB;
    WordTable(op, a0, b0, a1, b1, j);
  }

  /** The words p, q that the loop makes of the words x0, y0 and x1, y1. */
  ghost predicate Looped(op: Op, x0: seq<Bits>, y0: seq<Bits>, x1: seq<Bits>, y1: seq<Bits>, p: seq<Bits>, q: seq<Bits>)
    requires |x0| == |y0| == |p| == |q| && |x1| == |y1|
  {
    forall i | 0 <= i < |p| ::
      && p[i] == WordA(op, x0[i], y0[i], WordAt(x1, i), WordAt(y1, i), i >= |x1|)
      && q[i] == WordB(op, x0[i], y0[i], WordAt(x1, i), WordAt(y1, i), i >= |x1|)
  }

  lemma WordIs(x: seq<Bits>, i: nat)
    ensures WordAt(x, i) == if i < |x| then x[i] else NONE
  {
  }

  /** The word loop of and, or, eor, nand and nor, from the last word down, before masking. */
  method Loop(op: Op, a0: array<Bits>, b0: array<Bits>, w0: nat, a1: array<Bits>, b1: array<Bits>, w1: nat)
    requires w0 < a0.Length && w0 < b0.Length && w1 < a1.Length && w1 < b1.Length
    requires a0 != b0 && a0 != b1 && a1 != b0
    modifies a0, b0
    ensures Looped(op, old(a0[..w0 + 1]), old(b0[..w0 + 1]), old(a1[..w1 + 1]), old(b1[..w1 + 1]), a0[..w0 + 1],
                   b0[..w0 + 1])
  {
    hide WordA, WordB, WordAt;
    ghost var x0, y0, x1, y1 := a0[..w0 + 1], b0[..w0 + 1], a1[..w1 + 1], b1[..w1 + 1];
    var i := w0;
    while i >= 0
      invariant -1 <= i <= w0
      invariant forall k | 0 <= k <= i :: a0[k] == x0[k] && b0[k] == y0[k]
      invariant forall k | 0 <= k <= i && k <= w1 :: a1[k] == x1[k] && b1[k] == y1[k]
      invariant forall k | i < k <= w0 ::
        && a0[k] == WordA(op, x0[k], y0[k], WordAt(x1, k), WordAt(y1, k), k > w1)
        && b0[k] == WordB(op, x0[k], y0[k], WordAt(x1, k), WordAt(y1, k), k > w1)
    {
      var u, v := if i <= w1 then a1[i] else NONE, if i <= w1 then b1[i] else NONE;
      WordIs(x1, i);
      WordIs(y1, i);
      a0[i], b0[i] := WordA(op, a0[i], b0[i], u, v, i > w1), WordB(op, a0[i], b0[i], u, v, i > w1);
      i := i - 1;
    }
  }

  /** The last word cut to s bits, which `and` leaves out. */
  function Cut(op: Op, p: seq<Bits>, s: nat): (r: seq<Bits>)
    requires s > 0 && |p| == LastWord(s) + 1
    ensures |r| == |p|
  {
    if op == AND then p else p[LastWord(s) := And(p[LastWord(s)], Mask(s))]
  }

  lemma FinalDigit(op: Op, x0: seq<Bits>, y0: seq<Bits>, x1: seq<Bits>, y1: seq<Bits>, p: seq<Bits>, q: seq<Bits>,
                   s: nat, k: nat)
    requires s > 0 && |x0| == |y0| == |p| == |q| == LastWord(s) + 1 && |x1| == |y1| && k < 32 * |p|
    requires Looped(op, x0, y0, x1, y1, p, q)
    ensures DigitAt(Cut(op, p, s), Cut(op, q, s), k) ==
            if op == AND || k < s then Expected(op, DigitAt(x0, y0, k), DigitAt(x1, y1, k), k / 32 >= |x1|) else D0
  {
    hide WordA, WordB, Expected, And, Mask;
    var i, j := k / 32, k % 32;
    WordExpected(op, x0[i], y0[i], WordAt(x1, i), WordAt(y1, i), i >= |x1|, j);
    MaskDigit(s, p[i], q[i], j);
  }

  /** and, or, eor, nand and nor: every digit of the result follows the table, the second operand
      being filled up with zeros, and no digit beyond the size is set. */
  method Apply(op: Op, a0: array<Bits>, b0: array<Bits>, s0: nat, a1: array<Bits>, b1: array<Bits>, s1: nat)
    requires s0 > 0 && LastWord(s0) < a0.Length && LastWord(s0) < b0.Length
    requires s1 > 0 && LastWord(s1) < a1.Length && LastWord(s1) < b1.Length
    requires a0 != b0 && a0 != b1 && a1 != b0
    requires Clean(a0[..LastWord(s0) + 1], b0[..LastWord(s0) + 1], s0)
    modifies a0, b0
    ensures var n, m := LastWord(s0) + 1, LastWord(s1) + 1;
      && Clean(a0[..n], b0[..n], s0)
      && forall k | 0 <= k < s0 :: DigitAt(a0[..n], b0[..n], k)
           == Expected(op, DigitAt(old(a0[..n]), old(b0[..n]), k), DigitAt(old(a1[..m]), old(b1[..m]), k), k / 32 >= m)
  {
    hide Looped, Expected, And, Mask, DigitAt;
    var w0, w1 := LastWord(s0), LastWord(s1);
    ghost var x0, y0, x1, y1 := a0[..w0 + 1], b0[..w0 + 1], a1[..w1 + 1], b1[..w1 + 1];
    Loop(op, a0, b0, w0, a1, b1, w1);
    ghost var p, q := a0[..w0 + 1], b0[..w0 + 1];
    if op != AND {
      a0[w0], b0[w0] := And(a0[w0], Mask(s0)), And(b0[w0], Mask(s0));
    }
    assert a0[..w0 + 1] == Cut(op, p, s0) && b0[..w0 + 1] == Cut(op, q, s0);
    ghost var r, t := Cut(op, p, s0), Cut(op, q, s0);
    forall k | 0 <= k < 32 * (w0 + 1)
      ensures DigitAt(r, t, k) == if op == AND || k < s0
                then Expected(op, DigitAt(x0, y0, k), DigitAt(x1, y1, k), k / 32 >= w1 + 1) else D0
    {
      FinalDigit(op, x0, y0, x1, y1, p, q, s0, k);
    }
    AndClean(x0, y0, x1, y1, s0);
  }

  lemma AndClean(x0: seq<Bits>, y0: seq<Bits>, x1: seq<Bits>, y1: seq<Bits>, s: nat)
    requires |x0| == |y0| && |x1| == |y1| && Clean(x0, y0, s)
    ensures forall k | s <= k < 32 * |x0| :: Expected(AND, DigitAt(x0, y0, k), DigitAt(x1, y1, k), k / 32 >= |x1|) == D0
  {
  }

  /** tilde: every digit is inverted, x and z becoming x. */
  method Tilde(a0: array<Bits>, b0: array<Bits>, s0: nat)
    requires s0 > 0 && LastWord(s0) < a0.Length && LastWord(s0) < b0.Length && a0 != b0
    modifies a0, b0
    ensures var n := LastWord(s0) + 1;
      && Clean(a0[..n], b0[..n], s0)
      && forall k | 0 <= k < s0 :: DigitAt(a0[..n], b0[..n], k) == NotTable(DigitAt(old(a0[..n]), old(b0[..n]), k))
  {
    hide And, Mask;
    var w0 := LastWord(s0);
    for i := 0 to w0 + 1
      invariant forall k | 0 <= k < i :: a0[k] == Or(Not(old(a0[k])), b0[k])
      invariant forall k | i <= k <= w0 :: a0[k] == old(a0[k])
      invariant b0[..] == old(b0[..])
    {
      a0[i] := Or(Not(a0[i]), b0[i]);
    }
    ghost var u, v := a0[w0], b0[w0];
    a0[w0], b0[w0] := And(a0[w0], Mask(s0)), And(b0[w0], Mask(s0));
    ghost var r, t, x, y := a0[..w0 + 1], b0[..w0 + 1], old(a0[..w0 + 1]), old(b0[..w0 + 1]);
    forall k | 0 <= k < 32 * (w0 + 1)
      ensures DigitAt(r, t, k) == if k < s0 then NotTable(DigitAt(x, y, k)) else D0
    {
      MaskDigit(s0, u, v, k % 32);
    }
  }

  /** The bits that a digit may turn out to be: x and z may be either. */
  predicate Could(d: Digit, v: bool) { d.Unknown() || (d == D1) == v }

  /** The gate on bits. */
  predicate Gate(op: Op, u: bool, v: bool) {
    match op
    case AND => u && v
    case OR => u || v
    case EOR => u != v
    case NAND => !(u && v)
    case NOR => !(u || v)
  }

  /** The tables promise exactly what is certain: the result is 1 if and only if the gate gives 1
      whatever the unknown digits turn out to be, 0 if and only if it gives 0, and else x. */
  lemma TableIsForced(op: Op, d0: Digit, d1: Digit)
    ensures Table(op, d0, d1) == D1 <==> forall u, v | Could(d0, u) && Could(d1, v) :: Gate(op, u, v)
    ensures Table(op, d0, d1) == D0 <==> forall u, v | Could(d0, u) && Could(d1, v) :: !Gate(op, u, v)
    ensures Table(op, d0, d1) != DZ
  {
    assert (Could(d0, true) || Could(d0, false)) && (Could(d1, true) || Could(d1, false));
    assert d0.Unknown() ==> Could(d0, true) && Could(d0, false);
    assert d1.Unknown() ==> Could(d1, true) && Could(d1, false);
  }

  lemma InverseIsForced(d: Digit)
    ensures NotTable(d) == D1 <==> forall u | Could(d, u) :: !u
    ensures NotTable(d) == D0 <==> forall u | Could(d, u) :: u
    ensures NotTable(d) != DZ
  {
    assert Could(d, true) || Could(d, false);
    assert d.Unknown() ==> Could(d, true) && Could(d, false);
  }

  /** Known digits match when they are equal; an x or z of the right operand matches everything in
      `==?` and in `=?=`, one of the left operand in `?==` and in `=?=`; elsewhere it matches itself. */
  lemma MatchesAre(d: Digit, e: Digit)
    ensures Match(Same, d, e) <==> d == e
    ensures !d.Unknown() && !e.Unknown() ==> forall kind :: Match(kind, d, e) <==> d == e
    ensures e.Unknown() ==> Match(Right, d, e) && Match(Both, d, e) && (Match(Left, d, e) <==> d.Unknown())
    ensures d.Unknown() ==> Match(Left, d, e) && Match(Both, d, e) && (!e.Unknown() ==> !Match(Right, d, e))
  {
  }

  /** What the tables have to do with each other: nand and nor invert and and or, and De Morgan's
      laws hold up to the change of z to x. */
  lemma TablesAgree(d0: Digit, d1: Digit)
    ensures Table(NAND, d0, d1) == NotTable(Table(AND, d0, d1)) && Table(NOR, d0, d1) == NotTable(Table(OR, d0, d1))
    ensures Table(NAND, d0, d1) == Table(OR, NotTable(d0), NotTable(d1))
    ensures Table(NOR, d0, d1) == Table(AND, NotTable(d0), NotTable(d1))
    ensures NotTable(NotTable(d0)) == if d0 == DZ then DX else d0
  {
  }
}
