/**
Division by shifting and subtracting in a scratch register Y, for operands of any two widths. The
subtraction in the loop is the one of BitSum, so division is exact for every dividend only when
that subtraction is; the divisors for which it is are characterised exactly.
*/
module BitDiv {
  import opened Words
  import opened BitSum
  import opened BitCompare

  // ----- Shifting left by one -----

  function TopBit(x: Word): (t: nat)
    ensures t <= 1
  {
    if x >= 0x8000_0000 then 1 else 0
  }

  /** The words shifted left by one bit, with bit c coming in. */
  function Doubled(y: seq<Word>, c: nat): (r: seq<Word>)
    requires c <= 1
    ensures |r| == |y|
  {
    if y == [] then [] else [Low(2 * y[0] + c)] + Doubled(y[1..], TopBit(y[0]))
  }

  lemma {:induction false} DoubledAt(y: seq<Word>, c: nat, k: nat)
    requires c <= 1 && k < |y|
    ensures Doubled(y, c)[k] as int == Low(2 * (y[k] as int)) as int + if k == 0 then c else TopBit(y[k - 1])
    decreases k
  {
    if k > 0 {
      DoubledAt(y[1..], TopBit(y[0]), k - 1);
    }
  }

  lemma {:induction false} DoubledValue(y: seq<Word>, c: nat) returns (out: nat)
    requires c <= 1
    ensures out <= 1 && Value(Doubled(y, c)) + out * Pow(|y|) == 2 * Value(y) + c
    decreases |y|
  {
    if y == [] {
      out := c;
    } else {
      hide Pow;
      var out1 := DoubledValue(y[1..], TopBit(y[0]));
      out := out1;
      PowUp(|y|);
      var p := Pow(|y| - 1);
      assert out * (0x1_0000_0000 * p) == 0x1_0000_0000 * (out * p);
    }
  }

  lemma PowUp(n: nat)
    requires n > 0
    ensures Pow(n) == 0x1_0000_0000 * Pow(n - 1)
  {
  }

  lemma DoubledFits(y: seq<Word>, c: nat)
    requires c <= 1 && 2 * Value(y) + c < Pow(|y|)
    ensures Value(Doubled(y, c)) == 2 * Value(y) + c
  {
    hide Pow, Value, Doubled;
    var out := DoubledValue(y, c);
  }

  // ----- Bits of the dividend -----

  function GetBit(a: seq<Word>, j: nat): (b: int)
    requires j < 32 * |a|
    ensures 0 <= b <= 1
  {
    (a[j / 32] / Pow2(j % 32)) % 2
  }

  /** The number in the bits s-1 to j of a. */
  function Prefix(a: seq<Word>, s: nat, j: nat): (p: nat)
    requires j <= s <= 32 * |a|
    decreases s - j
  {
    if j == s then 0 else 2 * Prefix(a, s, j + 1) + GetBit(a, j)
  }

  lemma BitOfWord(x: nat, p: nat)
    requires p > 0
    ensures x % (2 * p) == x % p + ((x / p) % 2) * p
  {
    var q, r := x / p, x % p;
    assert x == p * q + r;
    var h, b := q / 2, q % 2;
    assert p * q == (2 * p) * h + b * p by {
      assert q == 2 * h + b;
      assert p * (2 * h + b) == (2 * p) * h + b * p;
    }
    assert b * p + r < 2 * p by {
      if b == 0 {
      } else {
        assert b == 1;
      }
    }
    ModOf(b * p + r, h, 2 * p);
  }

  lemma {:induction false} BitSplit(a: seq<Word>, j: nat)
    requires j < 32 * |a|
    ensures Reduce(Value(a), j + 1) == Reduce(Value(a), j) + GetBit(a, j) * Pow2(j)
    decreases |a|
  {
    hide Pow, Pow2;
    if j < 32 {
      Pow2Next(j);
      BitOfWord(a[0], Pow2(j));
      ReduceWord(Value(a[1..]), a[0], j);
      ReduceWord(Value(a[1..]), a[0], j + 1);
    } else {
      BitSplit(a[1..], j - 32);
      BitSplitUp(a, j);
    }
  }

  lemma GetBitUp(a: seq<Word>, j: nat)
    requires 32 <= j < 32 * |a|
    ensures GetBit(a, j) == GetBit(a[1..], j - 32)
  {
  }

  lemma BitSplitUp(a: seq<Word>, j: nat)
    requires 32 <= j < 32 * |a|
    requires Reduce(Value(a[1..]), j - 31) == Reduce(Value(a[1..]), j - 32) + GetBit(a[1..], j - 32) * Pow2(j - 32)
    ensures Reduce(Value(a), j + 1) == Reduce(Value(a), j) + GetBit(a, j) * Pow2(j)
  {
    hide Reduce, Pow, Pow2, GetBit, Value;
    GetBitUp(a, j);
    ValueUp(a);
    ReduceUp(a[0], Value(a[1..]), j);
    ReduceUp(a[0], Value(a[1..]), j + 1);
    Pow2By32(j - 32);
    ScaleWord(GetBit(a, j), Pow2(j - 32));
  }

  lemma ScaleWord(b: int, p: int)
    ensures b * (0x1_0000_0000 * p) == 0x1_0000_0000 * (b * p)
  {
  }

  lemma Pow2Next(j: nat)
    ensures Pow2(j + 1) == 2 * Pow2(j)
  {
  }

  lemma ReduceUp(d: Word, x: int, s: nat)
    requires s >= 32
    ensures Reduce(d + 0x1_0000_0000 * x, s) == d + 0x1_0000_0000 * Reduce(x, s - 32)
  {
    if s > 32 {
      ReduceStep(d, x, s);
    } else {
      ReduceWord(x, d, 32);
      Pow2At32();
      ReduceSmall(d, 32);
      ReduceZero(x);
    }
  }

  lemma ReduceZero(x: int)
    ensures Reduce(x, 0) == 0
  {
  }

  lemma {:induction false} PrefixSplit(a: seq<Word>, s: nat, j: nat)
    requires j <= s <= 32 * |a|
    ensures Prefix(a, s, j) * Pow2(j) + Reduce(Value(a), j) == Reduce(Value(a), s)
    ensures Prefix(a, s, j) < Pow2(s - j)
    decreases s - j
  {
    hide Reduce, Value, Pow2, GetBit;
    if j < s {
      PrefixSplit(a, s, j + 1);
      BitSplit(a, j);
      Pow2Next(j);
      Pow2Next(s - j - 1);
      var x, b, p := Prefix(a, s, j + 1), GetBit(a, j), Pow2(j);
      assert (2 * x + b) * p == x * (2 * p) + b * p;
    } else {
      Pow2Zero();
    }
  }

  lemma Pow2Zero()
    ensures Pow2(0) == 1
  {
  }

  /** All s bits together. */
  lemma PrefixAll(a: seq<Word>, s: nat)
    requires s <= 32 * |a|
    ensures Prefix(a, s, 0) == Reduce(Value(a), s)
  {
    PrefixSplit(a, s, 0);
    ReduceZero(Value(a));
  }

  // ----- The division loop, on values -----

  /** Y shifted left by one bit in its first m words, with a bit coming in; the others stay. */
  function Shifted(y: seq<Word>, bit: nat, m: nat): (r: seq<Word>)
    requires bit <= 1
    ensures |r| == |y|
  {
    if m >= |y| then Doubled(y, bit) else Doubled(y[..m], bit) + y[m..]
  }

  /** The words of Y that count, which are as many as the dividend has, after the next bit of the
      dividend has been shifted in, and the divisor taken off if it fits. */
  function Step(y: seq<Word>, bit: nat, d: seq<Word>, s: nat): (r: seq<Word>)
    requires s > 0 && |y| == LastWord(s) + 1 && bit <= 1
    ensures |r| == |y|
  {
    var y1 := Shifted(y, bit, |d|);
    if Value(y1) >= Value(d) then Masked(LoopDiff(y1, d, 1, 0), s) else y1
  }

  /** Y after the bits s-1 to j of the dividend, when all its words are clear at the start. */
  function Remainder(a: seq<Word>, d: seq<Word>, s: nat, j: nat): (y: seq<Word>)
    requires s > 0 && |a| == LastWord(s) + 1 && j <= s
    ensures |y| == |a|
    decreases s - j
  {
    if j == s then Zeros(|a|) else Step(Remainder(a, d, s, j + 1), GetBit(a, j), d, s)
  }

  /** The quotient bits found so far. */
  function Quotient(a: seq<Word>, d: seq<Word>, s: nat, j: nat): nat
    requires s > 0 && |a| == LastWord(s) + 1 && j <= s
    decreases s - j
  {
    if j == s then 0
    else
      2 * Quotient(a, d, s, j + 1)
      + if Value(Shifted(Remainder(a, d, s, j + 1), GetBit(a, j), |d|)) >= Value(d) then 1 else 0
  }

  /** Taking the divisor off is exact whenever the loop may have to do it. */
  ghost predicate Subtractable(d: seq<Word>, s: nat)
    requires s > 0 && |d| == LastWord(s) + 1
  {
    forall y: seq<Word> | |y| == |d| && Value(d) <= Value(y) < 2 * Value(d) && Value(y) < Pow2(s) ::
      !LosesBorrow(y, d, 1, 1)
  }

  /** One turn: if the subtraction can be trusted, Y is the remainder of the number so far. */
  lemma StepIsExact(y: seq<Word>, bit: nat, d: seq<Word>, s: nat)
    requires s > 0 && |y| == |d| == LastWord(s) + 1 && bit <= 1
    requires Subtractable(d, s) && Value(y) < Value(d) && 2 * Value(y) + bit < Pow2(s)
    ensures var v := 2 * Value(y) + bit;
      Value(Doubled(y, bit)) == v && Value(Step(y, bit, d, s)) == if v >= Value(d) then v - Value(d) else v
  {
    hide Value, Pow, Pow2, Doubled, LoopDiff, Masked, LastWord, Subtractable;
    SizeInWords(s);
    DoubledFits(y, bit);
    var y1 := Doubled(y, bit);
    if Value(y1) >= Value(d) {
      TakeOff(y1, d, s);
    }
  }

  lemma TakeOff(y: seq<Word>, d: seq<Word>, s: nat)
    requires s > 0 && |y| == |d| == LastWord(s) + 1 && Subtractable(d, s)
    requires Value(d) <= Value(y) < 2 * Value(d) && Value(y) < Pow2(s)
    ensures Value(Masked(LoopDiff(y, d, 1, 0), s)) == Value(y) - Value(d)
  {
    hide Value, Pow, Pow2, LoopDiff, Masked, Reduce, LosesBorrow, LastWord, Fit, SignOk;
    SubIsExactIff(y, d, s);
    assert Fit(d, |y|) == d;
    ReduceSmall(Value(y) - Value(d), s);
  }

  /** Quotient and remainder, after every turn. */
  lemma {:induction false} Divides(a: seq<Word>, d: seq<Word>, s: nat, j: nat)
    requires s > 0 && |a| == |d| == LastWord(s) + 1 && j <= s
    requires Subtractable(d, s) && Value(d) > 0
    ensures Prefix(a, s, j) == Quotient(a, d, s, j) * Value(d) + Value(Remainder(a, d, s, j))
    ensures Value(Remainder(a, d, s, j)) < Value(d)
    decreases s - j
  {
    hide Value, Pow, Pow2, Subtractable, Doubled, Step, GetBit;
    if j == s {
      ValueZero(Zeros(|d|));
    } else {
      Divides(a, d, s, j + 1);
      PrefixSplit(a, s, j);
      Pow2Mono(s - j, s);
      var y, bit, q := Remainder(a, d, s, j + 1), GetBit(a, j), Quotient(a, d, s, j + 1);
      QuotientBound(q, Value(d));
      DoubleDivision(Prefix(a, s, j + 1), q, Value(d), Value(y), bit);
      StepIsExact(y, bit, d, s);
    }
  }

  lemma QuotientBound(q: nat, d: nat)
    ensures q * d >= 0
  {
  }

  lemma DoubleDivision(p: nat, q: nat, d: nat, y: nat, bit: nat)
    requires p == q * d + y && q * d >= 0
    ensures 2 * p + bit == (2 * q) * d + (2 * y + bit) == (2 * q + 1) * d + (2 * y + bit - d)
    ensures 2 * y + bit <= 2 * p + bit
  {
    assert (2 * q) * d == 2 * (q * d);
    assert (2 * q + 1) * d == 2 * (q * d) + d;
  }

  // ----- The divisors for which the loop divides -----

  /** Some word between the lowest and the highest lies above a non-zero part and is all ones, or
      is zero with a non-zero part above it. */
  ghost predicate Awkward(d: seq<Word>) {
    exists i | 0 < i < |d| - 1 :: AwkwardAt(d, i)
  }

  ghost predicate AwkwardAt(d: seq<Word>, i: nat)
    requires i < |d|
  {
    Value(d[..i]) != 0 && (d[i] == ONES || (d[i] == 0 && Value(d[i + 1..]) != 0))
  }

  ghost predicate DividesExactly(a: seq<Word>, d: seq<Word>, s: nat)
    requires s > 0 && |a| == LastWord(s) + 1 && Value(d) > 0
  {
    && Value(Remainder(a, d, s, 0)) == Reduce(Value(a), s) % Value(d)
    && Quotient(a, d, s, 0) == Reduce(Value(a), s) / Value(d)
  }

  lemma AllTurns(a: seq<Word>, d: seq<Word>, s: nat)
    requires s > 0 && |a| == |d| == LastWord(s) + 1 && Value(d) > 0 && Subtractable(d, s)
    ensures DividesExactly(a, d, s)
  {
    hide Value, Pow, Pow2, Remainder, Quotient, Subtractable;
    Divides(a, d, s, 0);
    PrefixAll(a, s);
    hide Reduce;
    DivisionUnique(Quotient(a, d, s, 0), Value(d), Value(Remainder(a, d, s, 0)));
  }

  lemma DivisionUnique(q: nat, d: nat, y: nat)
    requires y < d
    ensures (q * d + y) / d == q && (q * d + y) % d == y
  {
    assert q * d == d * q;
    ModOf(y, q, d);
  }

  lemma Trusted(d: seq<Word>, s: nat)
    requires s > 0 && |d| == LastWord(s) + 1 && (!Awkward(d) || Value(d) >= Pow2(s))
    ensures Subtractable(d, s)
  {
    hide Value, Pow, Pow2, LastWord, LosesBorrow;
    forall y: seq<Word> | |y| == |d| && Value(d) <= Value(y) < 2 * Value(d) && Value(y) < Pow2(s)
      ensures !LosesBorrow(y, d, 1, 1)
    {
      NoBorrowLost(y, d);
    }
  }

  lemma NoBorrowLost(y: seq<Word>, d: seq<Word>)
    requires |y| == |d| && Value(y) < 2 * Value(d) && !Awkward(d)
    ensures !LosesBorrow(y, d, 1, 1)
  {
    hide Value, Pow;
    if LosesBorrow(y, d, 1, 1) {
      var i: nat :| i < |y| - 1 && BorrowLostAt(y, d, 1, 1, i);
      ZeroBelow(d);
      assert !AwkwardAt(d, i);
      SplitAt(d, i);
      SplitAt(y, i);
      SmallDivisor(Value(d[..i]), Pow(i), Value(y[..i]), Value(y[i..]));
    }
  }

  lemma ZeroBelow(d: seq<Word>)
    ensures Value(d[..0]) == 0
  {
  }

  lemma SplitAt(a: seq<Word>, i: nat)
    requires i < |a|
    ensures Value(a) == Value(a[..i]) + Pow(i) * Value(a[i..]) && Value(a[..i]) < Pow(i)
    ensures Value(a[i..]) == a[i] + 0x1_0000_0000 * Value(a[i + 1..])
  {
    ValueSplit(a, i);
    assert a[i..][1..] == a[i + 1..];
  }

  lemma SmallDivisor(d: nat, p: nat, low: nat, v: nat)
    requires d < p && v >= 2
    ensures low + p * v >= 2 * d
  {
    assert p * v >= p * 2;
  }

  /** Until the last turn nothing is taken off a number below twice the divisor. */
  lemma {:induction false} Waits(a: seq<Word>, d: seq<Word>, s: nat, j: nat)
    requires s > 0 && |a| == |d| == LastWord(s) + 1 && 0 < j <= s
    requires Value(a) < 2 * Value(d) && Value(a) < Pow2(s)
    ensures Value(Remainder(a, d, s, j)) == Prefix(a, s, j) < Value(d)
    ensures 2 * Prefix(a, s, j) + GetBit(a, j - 1) == Prefix(a, s, j - 1) < Pow2(s)
    decreases s - j
  {
    hide Value, Pow, Pow2, GetBit, LoopDiff, Masked, Doubled, Reduce;
    PrefixSplit(a, s, j);
    PrefixSplit(a, s, j - 1);
    Pow2Mono(s - j + 1, s);
    ReduceSmall(Value(a), s);
    Pow2Next(j - 1);
    HalfOf(Prefix(a, s, j), Pow2(j - 1), Value(d));
    if j == s {
      ValueZero(Zeros(|d|));
    } else {
      Waits(a, d, s, j + 1);
      SizeInWords(s);
      DoubledFits(Remainder(a, d, s, j + 1), GetBit(a, j));
    }
  }

  lemma HalfOf(x: nat, p: nat, d: nat)
    requires x * (2 * p) < 2 * d && p > 0
    ensures x < d
  {
    assert x * (2 * p) == 2 * (x * p);
    assert x * p >= x;
  }

  lemma LastTurn(a: seq<Word>, d: seq<Word>, s: nat)
    requires s > 0 && |a| == |d| == LastWord(s) + 1
    requires Value(d) <= Value(a) < 2 * Value(d) && Value(a) < Pow2(s)
    ensures Remainder(a, d, s, 0) == Masked(LoopDiff(a, d, 1, 0), s)
  {
    hide Value, Pow, Pow2, GetBit, LoopDiff, Masked, Doubled, Prefix, Reduce;
    Waits(a, d, s, 1);
    PrefixAll(a, s);
    ReduceSmall(Value(a), s);
    SizeInWords(s);
    DoubledFits(Remainder(a, d, s, 1), GetBit(a, 0));
    ValueUnique(Doubled(Remainder(a, d, s, 1), GetBit(a, 0)), a);
  }

  /** For an awkward divisor: the divisor itself, or with its zero word turned to ones. */
  lemma Witness(d: seq<Word>, s: nat) returns (a: seq<Word>)
    requires s > 0 && |d| == LastWord(s) + 1 && 0 < Value(d) < Pow2(s) && Awkward(d)
    ensures |a| == |d| && !DividesExactly(a, d, s) && Value(a) < Pow2(s) && Value(a) < 2 * Value(d)
    ensures exists i | 0 < i < |d| - 1 && AwkwardAt(d, i) :: a == d[i := ONES]
  {
    hide Value, Pow, Pow2, LoopDiff, Masked, LastWord, Remainder, Quotient, Reduce, SignOk, Fit;
    var i: nat :| 0 < i < |d| - 1 && AwkwardAt(d, i);
    a := d[i := ONES];
    assert a[..i] == d[..i] && a[i + 1..] == d[i + 1..];
    WitnessRange(d, s, i, a);
    assert BorrowLostAt(a, d, 1, 1, i);
    SubIsExactIff(a, d, s);
    assert Fit(d, |a|) == d;
    LastTurn(a, d, s);
    ReduceSmall(Value(a), s);
    ReduceSmall(Value(a) - Value(d), s);
    ModOf(Value(a) - Value(d), 1, Value(d));
  }

  /** A number of three words is not always divided rightly by itself. */
  lemma SelfDivisionCanFail()
    ensures !DividesExactly([1, ONES, 0], [1, ONES, 0], 96)
  {
    hide DividesExactly;
    var d: seq<Word> := [1, ONES, 0];
    assert AwkwardAt(d, 1) by {
      assert d[..1] == [1];
    }
    assert Value(d) < Pow2(96) by {
      PowIsPow2(3);
    }
    var a := Witness(d, 96);
    assert d[1 := ONES] == d;
  }

  lemma WitnessRange(d: seq<Word>, s: nat, i: nat, a: seq<Word>)
    requires s > 0 && |d| == LastWord(s) + 1 && Value(d) < Pow2(s) && 0 < i < |d| - 1 && AwkwardAt(d, i)
    requires a == d[i := ONES]
    ensures Value(d) <= Value(a) < 2 * Value(d) && Value(a) < Pow2(s)
  {
    assert a[..i] == d[..i] && a[i + 1..] == d[i + 1..];
    MaskedSame(d, s);
    assert Masked(a, s) == a by {
      var w := LastWord(s);
      assert Masked(d, s)[w] == d[w];
    }
    hide Value, Pow, Pow2, Masked, Top;
    MaskedValue(a, s);
    SplitAt(a, i);
    SplitAt(d, i);
    WitnessBound(Pow(i), Value(d[i..]), Value(a[i..]), Value(d[..i]));
  }

  lemma WitnessBound(p: nat, x: nat, y: nat, low: nat)
    requires p > 0 && x <= y < 2 * x
    ensures low + p * x <= low + p * y < 2 * (low + p * x)
  {
    assert p * x <= p * y;
    assert p * y < p * (2 * x);
    assert p * (2 * x) == 2 * (p * x);
  }

  // ----- Divisors with more words than the dividend -----

  /** A divisor whose upper words are clear is the divisor of its low words. */
  lemma LowStep(y: seq<Word>, bit: nat, d: seq<Word>, s: nat)
    requires s > 0 && |y| == LastWord(s) + 1 <= |d| && bit <= 1 && Value(d[|y|..]) == 0
    ensures Step(y, bit, d, s) == Step(y, bit, d[..|y|], s) && Value(d) == Value(d[..|y|])
  {
    hide Value, Pow, Pow2, Doubled, LoopDiff, Masked, LastWord, SignOk;
    ValueSplit(d, |y|);
    var y1 := Doubled(y, bit);
    FitSame(y1, d, 1, 0);
    assert Fit(d, |y1|) == d[..|y|];
  }

  lemma {:induction false} LowDivision(a: seq<Word>, d: seq<Word>, s: nat, j: nat)
    requires s > 0 && |a| == LastWord(s) + 1 <= |d| && j <= s && Value(d[|a|..]) == 0
    ensures Remainder(a, d, s, j) == Remainder(a, d[..|a|], s, j)
    ensures Quotient(a, d, s, j) == Quotient(a, d[..|a|], s, j)
    decreases s - j
  {
    hide Value, Pow, Pow2, Doubled, Step, GetBit;
    if j < s {
      LowDivision(a, d, s, j + 1);
      LowStep(Remainder(a, d, s, j + 1), GetBit(a, j), d, s);
    }
  }

  /** Nothing is ever taken off for a divisor beyond all dividends. */
  lemma {:induction false} HighDivision(a: seq<Word>, d: seq<Word>, s: nat, j: nat)
    requires s > 0 && |a| == LastWord(s) + 1 <= |d| && j <= s && Value(d) >= Pow(|a|)
    ensures Value(Remainder(a, d, s, j)) == Prefix(a, s, j) && Quotient(a, d, s, j) == 0
    decreases s - j
  {
    hide Value, Pow, Pow2, Doubled, GetBit, Reduce;
    if j == s {
      ValueZero(Zeros(|a|));
    } else {
      HighDivision(a, d, s, j + 1);
      PrefixSplit(a, s, j);
      Pow2Mono(s - j, s);
      SizeInWords(s);
      DoubledFits(Remainder(a, d, s, j + 1), GetBit(a, j));
    }
  }

  lemma Above(low: nat, p: nat, high: nat)
    ensures high == 0 ==> low + p * high == low
    ensures high != 0 ==> low + p * high >= p
  {
    if high != 0 {
      MulAtLeast(p, high);
    }
  }

  lemma HighIsBeyond(d: seq<Word>, n: nat)
    requires n <= |d|
    ensures Value(d[n..]) != 0 ==> Value(d) >= Pow(n)
    ensures Value(d[n..]) == 0 ==> Value(d) == Value(d[..n])
  {
    hide Value, Pow;
    ValueSplit(d, n);
    Above(Value(d[..n]), Pow(n), Value(d[n..]));
  }

  // ----- Divisors with fewer words than the dividend -----

  /** While the number in Y stays within the words that are shifted, it does not matter that the
      others are not. */
  lemma NarrowShift(y: seq<Word>, bit: nat, m: nat)
    requires bit <= 1 && m <= |y| && 2 * Value(y) + bit < Pow(m)
    ensures Shifted(y, bit, m) == Doubled(y, bit) && Value(Shifted(y, bit, m)) == 2 * Value(y) + bit
  {
    hide Value, Pow, Doubled;
    PowMono(m, |y|);
    DoubledFits(y, bit);
    if m < |y| {
      ClearAbove(y, m);
      DoubledFits(y[..m], bit);
      var r := Shifted(y, bit, m);
      assert r[..m] == Doubled(y[..m], bit) && r[m..] == y[m..];
      ValueSplit(r, m);
      ValueUnique(r, Doubled(y, bit));
    }
  }

  lemma {:induction false} PowMono(m: nat, n: nat)
    requires m <= n
    ensures Pow(m) <= Pow(n)
    decreases n
  {
    if m < n {
      PowMono(m, n - 1);
    }
  }

  /** A number that fits into m words has nothing above them. */
  lemma ClearAbove(y: seq<Word>, m: nat)
    requires m <= |y| && Value(y) < Pow(m)
    ensures Value(y[m..]) == 0 && Value(y[..m]) == Value(y)
  {
    hide Value, Pow;
    ValueSplit(y, m);
    Above(Value(y[..m]), Pow(m), Value(y[m..]));
  }

  /** One turn with a short divisor is one turn with the divisor filled up with zeros, while there is
      room in its words and its sign is right. */
  lemma NarrowStep(y: seq<Word>, bit: nat, d: seq<Word>, s: nat)
    requires s > 0 && |y| == LastWord(s) + 1 && 0 < |d| < |y| && bit <= 1
    requires SignOk(d, 1) && 2 * Value(y) + bit < Pow(|d|)
    ensures Shifted(y, bit, |d|) == Shifted(y, bit, |y|) && Value(Fit(d, |y|)) == Value(d)
    ensures Step(y, bit, d, s) == Step(y, bit, Fit(d, |y|), s)
  {
    hide Value, Pow, Pow2, Doubled, LoopDiff, Masked, LastWord, SignOk, Fit;
    NarrowShift(y, bit, |d|);
    FitValue(d, |y|);
    FitSame(Doubled(y, bit), d, 1, 0);
  }

  /** On the way down to bit j there is always room. */
  ghost predicate Roomy(a: seq<Word>, d: seq<Word>, s: nat)
    requires s > 0 && |a| == LastWord(s) + 1 && |d| <= |a|
  {
    forall j | 0 <= j < s :: 2 * Value(Remainder(a, Fit(d, |a|), s, j + 1)) + GetBit(a, j) < Pow(|d|)
  }

  lemma {:induction false} NarrowDivision(a: seq<Word>, d: seq<Word>, s: nat, j: nat)
    requires s > 0 && |a| == LastWord(s) + 1 && 0 < |d| < |a| && j <= s && SignOk(d, 1) && Roomy(a, d, s)
    ensures Remainder(a, d, s, j) == Remainder(a, Fit(d, |a|), s, j)
    ensures Quotient(a, d, s, j) == Quotient(a, Fit(d, |a|), s, j)
    decreases s - j
  {
    hide Value, Pow, Pow2, Shifted, Step, GetBit, SignOk, Fit;
    if j < s {
      NarrowDivision(a, d, s, j + 1);
      NarrowStep(Remainder(a, d, s, j + 1), GetBit(a, j), d, s);
    }
  }

  /** A remainder below a divisor of at most half its range leaves room. */
  lemma SoundIsRoomy(a: seq<Word>, d: seq<Word>, s: nat)
    requires s > 0 && |a| == LastWord(s) + 1 && 0 < |d| < |a| && Value(d) > 0
    requires SignOk(d, 1) && !Awkward(Fit(d, |a|))
    ensures Value(Fit(d, |a|)) > 0 && Roomy(a, d, s) && DividesExactly(a, Fit(d, |a|), s)
  {
    hide Value, Pow, Pow2, Awkward, Remainder, GetBit, Fit, Subtractable, Quotient, DividesExactly;
    var dd := Fit(d, |a|);
    FitValue(d, |a|);
    Trusted(dd, s);
    forall j | 0 <= j < s ensures 2 * Value(Remainder(a, dd, s, j + 1)) + GetBit(a, j) < Pow(|d|) {
      Divides(a, dd, s, j + 1);
    }
    AllTurns(a, dd, s);
  }

  /** So does a dividend below twice such a divisor. */
  lemma SmallIsRoomy(a: seq<Word>, d: seq<Word>, s: nat)
    requires s > 0 && |a| == LastWord(s) + 1 && 0 < |d| < |a|
    requires SignOk(d, 1) && Value(a) < 2 * Value(d) && Value(a) < Pow2(s)
    ensures Roomy(a, d, s)
  {
    hide Value, Pow, Pow2, Remainder, GetBit, Fit, Prefix;
    var dd := Fit(d, |a|);
    FitValue(d, |a|);
    forall j | 0 <= j < s ensures 2 * Value(Remainder(a, dd, s, j + 1)) + GetBit(a, j) < Pow(|d|) {
      Waits(a, dd, s, j + 1);
      PrefixBelow(a, s, j);
    }
  }

  lemma PrefixBelow(a: seq<Word>, s: nat, j: nat)
    requires j <= s <= 32 * |a| && Value(a) < Pow2(s)
    ensures Prefix(a, s, j) <= Value(a)
  {
    hide Value, Pow2, Prefix, Reduce;
    PrefixSplit(a, s, j);
    ReduceSmall(Value(a), s);
    ReduceAtLeastZero(Value(a), j);
    MulAtLeast(Prefix(a, s, j), Pow2(j));
  }

  lemma ReduceAtLeastZero(x: int, s: nat)
    ensures Reduce(x, s) >= 0
  {
  }

  /** With a divisor above half its range the number d itself is divided wrongly by d. */
  lemma {:induction false} SelfWaits(a: seq<Word>, d: seq<Word>, s: nat, j: nat)
    requires s > 0 && |a| == LastWord(s) + 1 && 0 < |d| < |a| && 0 < j <= s
    requires Value(d) > 0 && Value(a) == Value(d) && Value(a) < Pow2(s)
    ensures Value(Remainder(a, d, s, j)) == Prefix(a, s, j) < Value(d)
    ensures 2 * Prefix(a, s, j) + GetBit(a, j - 1) == Prefix(a, s, j - 1) <= Value(d) < Pow(|d|)
    decreases s - j
  {
    hide Value, Pow, Pow2, GetBit, LoopDiff, Masked, Doubled, Reduce, Shifted, Prefix;
    PrefixNext(a, s, j - 1);
    PrefixBelow(a, s, j - 1);
    ValueBelow(d);
    if j == s {
      ValueZero(Zeros(|a|));
      PrefixNone(a, s);
    } else {
      SelfWaits(a, d, s, j + 1);
      NarrowShift(Remainder(a, d, s, j + 1), GetBit(a, j), |d|);
      HalfBelow(a, s, j, Value(d));
    }
  }

  lemma PrefixNext(a: seq<Word>, s: nat, j: nat)
    requires j < s <= 32 * |a|
    ensures Prefix(a, s, j) == 2 * Prefix(a, s, j + 1) + GetBit(a, j)
  {
  }

  lemma PrefixNone(a: seq<Word>, s: nat)
    requires s <= 32 * |a|
    ensures Prefix(a, s, s) == 0
  {
  }

  lemma ValueBelow(d: seq<Word>)
    ensures Value(d) < Pow(|d|)
  {
  }

  lemma HalfBelow(a: seq<Word>, s: nat, j: nat, d: nat)
    requires 0 < j < s <= 32 * |a| && Value(a) == d > 0 && Value(a) < Pow2(s)
    ensures Prefix(a, s, j) < d
  {
    hide Value, Pow2, GetBit, Reduce, Prefix;
    PrefixNext(a, s, j - 1);
    PrefixBelow(a, s, j - 1);
  }

  lemma SelfDivisionIsWrong(a: seq<Word>, d: seq<Word>, s: nat)
    requires s > 0 && |a| == LastWord(s) + 1 && 0 < |d| < |a| && Value(d) > 0 && !SignOk(d, 1)
    requires a == Fit(d, |a|) && Value(a) < Pow2(s)
    ensures !DividesExactly(a, d, s)
  {
    hide Value, Pow, Pow2, GetBit, LoopDiff, Masked, Doubled, Reduce, Shifted, Prefix, SignOk, Fit, LosesBorrow,
      Quotient;
    FitValue(d, |a|);
    SelfWaits(a, d, s, 1);
    PrefixAll(a, s);
    ReduceSmall(Value(a), s);
    NarrowShift(Remainder(a, d, s, 1), GetBit(a, 0), |d|);
    ValueUnique(Shifted(Remainder(a, d, s, 1), GetBit(a, 0), |d|), a);
    assert Remainder(a, d, s, 0) == Masked(LoopDiff(a, d, 1, 0), s);
    SubIsExactIff(a, d, s);
    SelfModulo(Value(a), s);
  }

  lemma SelfModulo(x: nat, s: nat)
    requires x > 0
    ensures x % x == 0 && Reduce(x - x, s) == 0
  {
    ModOf(0, 1, x);
    ReduceSmall(0, s);
  }

  // ----- The divisors for which the loop divides, whatever the widths -----

  /** With as many words as the dividend the divisor must not be awkward, or lie beyond all
      dividends; with more, something must be set above, or its low words be such a divisor; with
      fewer, it must not exceed half its range, and not be awkward when it is filled up. */
  ghost predicate Sound(d: seq<Word>, s: nat)
    requires s > 0
  {
    var n := LastWord(s) + 1;
    if |d| < n then SignOk(d, 1) && !Awkward(Fit(d, n))
    else Value(d[n..]) != 0 || !Awkward(d[..n]) || Value(d[..n]) >= Pow2(s)
  }

  lemma SoundDivides(a: seq<Word>, d: seq<Word>, s: nat)
    requires s > 0 && |a| == LastWord(s) + 1 && d != [] && Value(d) > 0 && Sound(d, s)
    ensures DividesExactly(a, d, s)
  {
    hide Value, Pow, Pow2, Awkward, LastWord, Remainder, Quotient, Fit, Reduce, SignOk, Roomy;
    if |d| < |a| {
      SoundIsRoomy(a, d, s);
      NarrowDivision(a, d, s, 0);
      FitValue(d, |a|);
    } else {
      HighIsBeyond(d, |a|);
      if Value(d[|a|..]) != 0 {
        HighIsExact(a, d, s);
      } else {
        Trusted(d[..|a|], s);
        AllTurns(a, d[..|a|], s);
        LowDivision(a, d, s, 0);
      }
    }
  }

  lemma HighIsExact(a: seq<Word>, d: seq<Word>, s: nat)
    requires s > 0 && |a| == LastWord(s) + 1 <= |d| && Value(d) >= Pow(|a|)
    ensures Value(d) > 0 && DividesExactly(a, d, s)
  {
    hide Value, Pow, Pow2, Remainder, Quotient, Reduce;
    HighDivision(a, d, s, 0);
    PrefixAll(a, s);
    ReduceBelow(Value(a), s);
    SizeInWords(s);
    DivisionUnique(0, Value(d), Reduce(Value(a), s));
  }

  lemma ReduceBelow(x: int, s: nat)
    ensures 0 <= Reduce(x, s) < Pow2(s)
  {
  }

  lemma UnsoundFails(d: seq<Word>, s: nat) returns (a: seq<Word>)
    requires s > 0 && d != [] && Value(d) > 0 && !Sound(d, s)
    ensures |a| == LastWord(s) + 1 && !DividesExactly(a, d, s)
  {
    hide Value, Pow, Pow2, Awkward, LastWord, Remainder, Quotient, Fit, Reduce, SignOk, Roomy;
    var n := LastWord(s) + 1;
    if |d| < n {
      FitValue(d, n);
      ShortIsSmall(d, s);
      if SignOk(d, 1) {
        a := Witness(Fit(d, n), s);
        SmallIsRoomy(a, d, s);
        NarrowDivision(a, d, s, 0);
      } else {
        a := Fit(d, n);
        SelfDivisionIsWrong(a, d, s);
      }
    } else {
      HighIsBeyond(d, n);
      a := Witness(d[..n], s);
      LowDivision(a, d, s, 0);
    }
  }

  lemma ShortIsSmall(d: seq<Word>, s: nat)
    requires s > 0 && |d| <= LastWord(s)
    ensures Value(d) < Pow2(s)
  {
    ValueBelow(d);
    PowIsPow2(|d|);
    Pow2Mono(32 * |d|, s);
  }

  /** The loop divides every dividend of s bits rightly, from a cleared Y, if and only if the divisor
      is sound. */
  lemma DivisionIsExactIff(d: seq<Word>, s: nat)
    requires s > 0 && d != [] && Value(d) > 0
    ensures (forall a: seq<Word> | |a| == LastWord(s) + 1 :: DividesExactly(a, d, s)) <==> Sound(d, s)
  {
    hide Value, Pow, Pow2, Sound, DividesExactly, LastWord;
    if Sound(d, s) {
      forall a: seq<Word> | |a| == LastWord(s) + 1 ensures DividesExactly(a, d, s) {
        SoundDivides(a, d, s);
      }
    } else {
      var a := UnsoundFails(d, s);
    }
  }

  /** The words of the divisor that the test for zero looks at. */
  function Seen(d: seq<Word>, s: nat): seq<Word>
    requires s > 0
  {
    if |d| <= LastWord(s) then d else d[..LastWord(s) + 1]
  }

  /** The operation says zero exactly for a zero divisor, and else divides. */
  ghost predicate DividesRightly(a: seq<Word>, d: seq<Word>, s: nat)
    requires s > 0 && |a| == LastWord(s) + 1
  {
    (Value(Seen(d, s)) == 0 <==> Value(d) == 0) && (Value(d) > 0 ==> DividesExactly(a, d, s))
  }

  /** With its test for zero the operation is right for every dividend if and only if the divisor is
      zero, or is sound and not taken for zero. */
  lemma OperationIsRightIff(d: seq<Word>, s: nat)
    requires s > 0 && d != []
    ensures (forall a: seq<Word> | |a| == LastWord(s) + 1 :: DividesRightly(a, d, s))
            <==> Value(d) == 0 || (Value(Seen(d, s)) != 0 && Sound(d, s))
  {
    hide Value, Pow, Pow2, Sound, DividesExactly, LastWord;
    if Value(d) == 0 {
      SeenOfZero(d, s);
    } else {
      DivisionIsExactIff(d, s);
      if forall a: seq<Word> | |a| == LastWord(s) + 1 :: DividesRightly(a, d, s) {
        assert DividesRightly(Zeros(LastWord(s) + 1), d, s);
        forall a: seq<Word> | |a| == LastWord(s) + 1 ensures DividesExactly(a, d, s) {
          assert DividesRightly(a, d, s);
        }
      }
    }
  }

  lemma SeenOfZero(d: seq<Word>, s: nat)
    requires s > 0 && Value(d) == 0
    ensures Value(Seen(d, s)) == 0
  {
    hide Value, Pow, LastWord;
    if |d| > LastWord(s) {
      ClearAbove(d, LastWord(s) + 1);
    }
  }

  /** 1 / 2^32, of 32 and 64 bits, is reported as a division by zero. */
  lemma FalseZero()
    ensures Value([0, 1]) == 0x1_0000_0000 && !DividesRightly([1], [0, 1], 32)
  {
    var d: seq<Word> := [0, 1];
    assert d[1..] == [1] && d[..1] == [0];
    assert Value([1]) == 1 && Value([0]) == 0;
  }

  /** Words of Y above a short divisor that an earlier division has left set are compared with it:
      with 2^32 in Y and 3 as the divisor of 0, the first quotient bit is already wrong. */
  lemma StaleYMisleads()
    ensures Value(Shifted([0, 1], 0, 1)) >= Value([3]) && Value(Shifted([0, 0], 0, 1)) < Value([3])
  {
    var y, z: seq<Word> := [0, 1], [0, 0];
    assert y[..1] == [0] && y[1..] == [1] && z[..1] == [0] && z[1..] == [0];
    assert Doubled([0], 0) == [0];
    assert Shifted(y, 0, 1) == y && Shifted(z, 0, 1) == z;
    assert Value([1]) == 1 && Value([0]) == 0 && Value([3]) == 3;
    assert Value(y) == 0x1_0000_0000 && Value(z) == 0;
  }

  // ----- Shifting right -----

  function Div2(x: nat, l: nat): int {
    x / Pow2(l)
  }

  lemma DivMod(x: nat, l: nat)
    ensures x == Pow2(l) * Div2(x, l) + Reduce(x, l) && Div2(x, l) >= 0
  {
    if Div2(x, l) < 0 {
      MulAtLeast(Pow2(l), -Div2(x, l));
    }
  }

  lemma Div2Is(x: nat, l: nat, q: nat, r: nat)
    requires x == Pow2(l) * q + r && r < Pow2(l)
    ensures Div2(x, l) == q
  {
    ModOf(r, q, Pow2(l));
  }

  /** Word x shifted right by l bits, with the low bits of the next word coming in on top. */
  function HalvedWord(x: Word, next: Word, l: nat): Word
    requires 1 <= l <= 31
  {
    HalvedFits(x, next, l);
    Div2(x, l) + Reduce(next, l) * Pow2(32 - l)
  }

  function Halved(a: seq<Word>, l: nat): (r: seq<Word>)
    requires 1 <= l <= 31
    ensures |r| == |a|
  {
    if a == [] then [] else [HalvedWord(a[0], NextWord(a, 0), l)] + Halved(a[1..], l)
  }

  function NextWord(a: seq<Word>, k: nat): Word { if k + 1 < |a| then a[k + 1] else 0 }

  lemma {:induction false} HalvedAt(a: seq<Word>, l: nat, k: nat)
    requires 1 <= l <= 31 && k < |a|
    ensures Halved(a, l)[k] == HalvedWord(a[k], NextWord(a, k), l)
    decreases k
  {
    hide HalvedWord;
    if k > 0 {
      HalvedAt(a[1..], l, k - 1);
    }
  }

  lemma HalvedFits(x: Word, next: Word, l: nat)
    requires 1 <= l <= 31
    ensures 0 <= Div2(x, l) + Reduce(next, l) * Pow2(32 - l) < 0x1_0000_0000
  {
    Pow2At32();
    Pow2Add(l, 32 - l);
    DivMod(x, l);
    hide Pow2, Div2, Reduce;
    HalvedBound(Div2(x, l), Reduce(x, l), Reduce(next, l), Pow2(l), Pow2(32 - l));
  }

  lemma HalvedBound(q: nat, r: nat, m: nat, p: nat, k: nat)
    requires p * k == 0x1_0000_0000 && p * q + r < 0x1_0000_0000 && m < p
    ensures 0 <= q + m * k < 0x1_0000_0000
  {
    QuotientBelow(p, q, k);
    QuotientBound(m, k);
    assert (m + 1) * k <= p * k;
    assert (m + 1) * k == m * k + k;
  }

  lemma QuotientBelow(p: nat, q: nat, k: nat)
    requires p * q < p * k
    ensures q < k
  {
  }

  /** Shifting right by l divides by 2^l. */
  lemma {:induction false} HalvedValue(a: seq<Word>, l: nat)
    requires 1 <= l <= 31
    ensures Value(Halved(a, l)) == Div2(Value(a), l)
    decreases |a|
  {
    hide Pow, Pow2, Div2;
    if a == [] {
      Div2Is(0, l, 0, 0);
    } else {
      HalvedValue(a[1..], l);
      LowBits(a, l);
      Pow2At32();
      Pow2Add(l, 32 - l);
      DivMod(a[0], l);
      DivMod(Value(a[1..]), l);
      var h := Halved(a, l);
      assert h[0] == Div2(a[0], l) + Reduce(NextWord(a, 0), l) * Pow2(32 - l) && h[1..] == Halved(a[1..], l);
      assert Value(h) == h[0] + 0x1_0000_0000 * Value(h[1..]);
      assert Value(a) == a[0] + 0x1_0000_0000 * Value(a[1..]);
      hide *;
      var v := Value(a[1..]);
      ShiftedParts(Div2(a[0], l), Reduce(a[0], l), Div2(v, l), Reduce(v, l), Pow2(l), Pow2(32 - l));
      Div2Is(Value(a), l, Div2(a[0], l) + Reduce(v, l) * Pow2(32 - l) + 0x1_0000_0000 * Div2(v, l), Reduce(a[0], l));
    }
  }

  lemma LowBits(a: seq<Word>, l: nat)
    requires l <= 32 && a != []
    ensures Reduce(Value(a[1..]), l) == Reduce(NextWord(a, 0), l)
  {
    hide Reduce;
    if |a| > 1 {
      ReduceWord(Value(a[1..][1..]), a[1], l);
    }
  }

  lemma ShiftedParts(q: nat, r: nat, w: nat, m: nat, p: nat, k: nat)
    requires p * k == 0x1_0000_0000
    ensures (p * q + r) + 0x1_0000_0000 * (p * w + m) == p * (q + m * k + 0x1_0000_0000 * w) + r
  {
    assert p * (q + m * k + 0x1_0000_0000 * w) == p * q + p * (m * k) + 0x1_0000_0000 * (p * w);
    assert p * (m * k) == m * (p * k);
  }
}
