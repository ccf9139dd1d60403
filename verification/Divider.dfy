/**
The division operations with their scratch register Y, which is kept from call to call.
*/
module Divider {
  import opened Words
  import opened BitSum
  import opened BitCompare
  import opened BitDiv

  /** Shifts words 0 to n of x left by one bit, in place. */
  method ShiftLeftOne(x: array<Word>, n: nat)
    requires n < x.Length
    modifies x
    ensures x[..] == Doubled(old(x[..n + 1]), 0) + old(x[n + 1..])
  {
    hide Doubled;
    ghost var y := x[..n + 1];
    var i := n;
    while i >= 0
      invariant -1 <= i <= n
      invariant forall k | 0 <= k <= i :: x[k] == y[k]
      invariant forall k | i < k <= n :: x[k] == Doubled(y, 0)[k]
      invariant forall k | n < k < x.Length :: x[k] == old(x[k])
    {
      DoubledAt(y, 0, i);
      x[i] := Low(2 * (x[i] as int)) + if i == 0 then 0 else TopBit(x[i - 1]);
      i := i - 1;
    }
  }

  /** Shifts words 0 to n of x right by l bits, in place. */
  method ShiftRight(x: array<Word>, n: nat, l: nat)
    requires n < x.Length && 1 <= l <= 31
    modifies x
    ensures x[..] == Halved(old(x[..n + 1]), l) + old(x[n + 1..])
  {
    hide Halved, HalvedWord;
    ghost var y := x[..n + 1];
    for i := 0 to n + 1
      invariant forall k | 0 <= k < i :: x[k] == Halved(y, l)[k]
      invariant forall k | i <= k <= n :: x[k] == y[k]
      invariant forall k | n < k < x.Length :: x[k] == old(x[k])
    {
      HalvedAt(y, l, i);
      x[i] := HalvedWord(x[i], if i + 1 > n then 0 else x[i + 1], l);
    }
  }

  lemma DoubledIn(y: seq<Word>, bit: nat)
    requires y != [] && bit <= 1
    ensures Doubled(y, 0)[0] as int + bit < 0x1_0000_0000
    ensures Doubled(y, bit) == Doubled(y, 0)[0 := Doubled(y, 0)[0] + bit]
  {
  }

  /** The exponent if the word is a power of two, and else -1. */
  function PowerOfTwo(x: Word): (k: int)
    ensures -1 <= k <= 31
  {
    match x
    case 0x1 => 0
    case 0x2 => 1
    case 0x4 => 2
    case 0x8 => 3
    case 0x10 => 4
    case 0x20 => 5
    case 0x40 => 6
    case 0x80 => 7
    case 0x100 => 8
    case 0x200 => 9
    case 0x400 => 10
    case 0x800 => 11
    case 0x1000 => 12
    case 0x2000 => 13
    case 0x4000 => 14
    case 0x8000 => 15
    case 0x1_0000 => 16
    case 0x2_0000 => 17
    case 0x4_0000 => 18
    case 0x8_0000 => 19
    case 0x10_0000 => 20
    case 0x20_0000 => 21
    case 0x40_0000 => 22
    case 0x80_0000 => 23
    case 0x100_0000 => 24
    case 0x200_0000 => 25
    case 0x400_0000 => 26
    case 0x800_0000 => 27
    case 0x1000_0000 => 28
    case 0x2000_0000 => 29
    case 0x4000_0000 => 30
    case 0x8000_0000 => 31
    case _ => -1
  }

  lemma PowersOfTwo()
    ensures Pow2(0) == 0x1 && Pow2(1) == 0x2 && Pow2(2) == 0x4 && Pow2(3) == 0x8
    ensures Pow2(4) == 0x10 && Pow2(5) == 0x20 && Pow2(6) == 0x40 && Pow2(7) == 0x80
    ensures Pow2(8) == 0x100 && Pow2(9) == 0x200 && Pow2(10) == 0x400 && Pow2(11) == 0x800
    ensures Pow2(12) == 0x1000 && Pow2(13) == 0x2000 && Pow2(14) == 0x4000 && Pow2(15) == 0x8000
    ensures Pow2(16) == 0x1_0000 && Pow2(17) == 0x2_0000 && Pow2(18) == 0x4_0000 && Pow2(19) == 0x8_0000
    ensures Pow2(20) == 0x10_0000 && Pow2(21) == 0x20_0000 && Pow2(22) == 0x40_0000 && Pow2(23) == 0x80_0000
    ensures Pow2(24) == 0x100_0000 && Pow2(25) == 0x200_0000 && Pow2(26) == 0x400_0000 && Pow2(27) == 0x800_0000
    ensures Pow2(28) == 0x1000_0000 && Pow2(29) == 0x2000_0000 && Pow2(30) == 0x4000_0000 && Pow2(31) == 0x8000_0000
  {
  }

  lemma PowerOfTwoIs(x: Word)
    ensures PowerOfTwo(x) >= 0 ==> x == Pow2(PowerOfTwo(x))
  {
    PowersOfTwo();
    hide Pow2;
  }

  /** The table has all powers of two of a word. */
  lemma PowerOfTwoOf(k: nat)
    requires k < 32
    ensures Pow2(k) < 0x1_0000_0000 && PowerOfTwo(Pow2(k)) == k
  {
    PowersOfTwo();
    hide Pow2;
  }

  // ----- The division loops -----

  /** The low words of a number shifted left do not depend on the words above them. */
  lemma {:induction false} DoubledPrefix(y: seq<Word>, c: nat, n: nat)
    requires c <= 1 && n <= |y|
    ensures Doubled(y, c)[..n] == Doubled(y[..n], c)
    decreases n
  {
    if n > 0 {
      DoubledPrefix(y[1..], TopBit(y[0]), n - 1);
      assert y[..n][1..] == y[1..][..n - 1];
      assert Doubled(y, c)[..n] == [Doubled(y, c)[0]] + Doubled(y, c)[1..][..n - 1];
    }
  }

  /** What shifting words 0 to m-1 of Y, and the bit that comes in, make of its first n words. */
  lemma ShiftedIn(y: seq<Word>, z: seq<Word>, n: nat, m: nat, bit: nat)
    requires 0 < n <= |y| && 0 < m <= |y| && bit <= 1 && z == Doubled(y[..m], 0) + y[m..]
    ensures z[0] as int + bit < 0x1_0000_0000 && z[0 := z[0] + bit][..n] == Shifted(y[..n], bit, m)
  {
    hide Doubled;
    DoubledIn(y[..m], bit);
    var z1 := Doubled(y[..m], bit) + y[m..];
    assert z[0 := z[0] + bit] == z1;
    if m >= n {
      DoubledPrefix(y[..m], bit, n);
      assert y[..m][..n] == y[..n];
      assert z1[..n] == Doubled(y[..m], bit)[..n];
    } else {
      assert y[..n][..m] == y[..m];
      assert z1[..n] == Doubled(y[..m], bit) + y[..n][m..];
    }
  }

  /** One turn on Y: shift in bit j of the dividend, and take the divisor off if it fits. */
  method Turn(y: array<Word>, a0: array<Word>, s0: nat, a1: array<Word>, s1: nat, j: nat) returns (fits: bool)
    requires s0 > 0 && s1 > 0 && j < s0 && LastWord(s0) < y.Length && LastWord(s1) < y.Length
    requires LastWord(s0) < a0.Length && LastWord(s1) < a1.Length && y != a0 && y != a1
    modifies y
    ensures var bit := GetBit(Used(a0, s0), j);
      && Used(y, s0) == Step(old(Used(y, s0)), bit, Used(a1, s1), s0)
      && fits == (Value(Shifted(old(Used(y, s0)), bit, LastWord(s1) + 1)) >= Value(Used(a1, s1)))
  {
    ghost var before, d, all := Used(y, s0), Used(a1, s1), y[..];
    var w0, w1 := LastWord(s0), LastWord(s1);
    assert j < 32 * (w0 + 1);
    hide Value, Pow, Pow2, GetBit, Doubled, Masked, LoopDiff, Exact, LosesBorrow, SignOk, LastWord, Shifted;
    var bit := GetBit(a0[..w0 + 1], j);
    ShiftLeftOne(y, w1);
    ShiftedIn(all, y[..], w0 + 1, w1 + 1, bit);
    y[0] := y[0] + bit;
    assert all[..w0 + 1] == before && Used(y, s0) == Shifted(before, bit, w1 + 1);
    var ge := IsAtLeast(y, s0, a1, s1);
    fits := ge == 1;
    if fits {
      Sub(y, s0, a1, s1);
      assert Used(y, s0) == Masked(LoopDiff(Shifted(before, bit, w1 + 1), d, 1, 0), s0);
    }
  }

  /** Clears words 0 to w of x. */
  method Clear(x: array<Word>, w: nat)
    requires w < x.Length
    modifies x
    ensures x[..w + 1] == Zeros(w + 1) && x[w + 1..] == old(x[w + 1..])
  {
    for i := 0 to w + 1
      invariant forall k | 0 <= k < i :: x[k] == 0
      invariant forall k | i <= k < x.Length :: x[k] == old(x[k])
    {
      x[i] := 0;
    }
  }

  /** Clears the words of Y that the divisor has; those of the dividend above them must be so already. */
  method ClearY(y: array<Word>, s0: nat, s1: nat)
    requires s0 > 0 && s1 > 0 && LastWord(s0) < y.Length && LastWord(s1) < y.Length
    modifies y
    ensures Ready(old(y[..]), s0, s1) ==> Used(y, s0) == Zeros(LastWord(s0) + 1)
  {
    hide LastWord;
    Clear(y, LastWord(s1));
  }

  /** The words of Y that count and that the division does not clear: those above the divisor. */
  ghost predicate Ready(y: seq<Word>, s0: nat, s1: nat)
    requires s0 > 0 && s1 > 0
  {
    forall k | LastWord(s1) < k <= LastWord(s0) && k < |y| :: y[k] == 0
  }

  /** The loop of `mod`: Y ends as the remainder. */
  method ModLoop(y: array<Word>, a0: array<Word>, s0: nat, a1: array<Word>, s1: nat)
    requires s0 > 0 && s1 > 0 && LastWord(s0) < y.Length && LastWord(s1) < y.Length
    requires LastWord(s0) < a0.Length && LastWord(s1) < a1.Length && y != a0 && y != a1
    modifies y
    ensures Ready(old(y[..]), s0, s1) ==> Used(y, s0) == Remainder(Used(a0, s0), Used(a1, s1), s0, 0)
  {
    ghost var ready := Ready(y[..], s0, s1);
    hide Value, Pow, Pow2, GetBit, Step, LastWord, Ready;
    ClearY(y, s0, s1);
    var j := s0;
    while j > 0
      invariant j <= s0 && (ready ==> Used(y, s0) == Remainder(Used(a0, s0), Used(a1, s1), s0, j))
    {
      j := j - 1;
      var fits := Turn(y, a0, s0, a1, s1, j);
    }
  }

  /** Doubling keeps the number modulo the range of its words. */
  lemma DoubledMod(q: seq<Word>, bit: nat, n: nat, w: nat)
    requires |q| == w && bit <= 1 && Value(q) == Reduce(n, 32 * w)
    ensures Value(Doubled(q, bit)) == Reduce(2 * n + bit, 32 * w)
  {
    hide Value, Pow, Doubled, Pow2;
    var out := DoubledValue(q, bit);
    PowIsPow2(w);
    var p := Pow2(32 * w);
    var x, k := Value(Doubled(q, bit)), n / p;
    assert n == p * k + n % p;
    assert 2 * n + bit == p * (2 * k + out) + x by {
      assert p * (2 * k) == 2 * (p * k);
    }
    ModOf(x, 2 * k + out, p);
  }

  /** Y and the result are where the division is after the bits s-1 to j of the dividend. */
  ghost predicate Tracks(y: seq<Word>, q: seq<Word>, a: seq<Word>, d: seq<Word>, s: nat, j: nat)
    requires s > 0 && |a| == LastWord(s) + 1 && j <= s
  {
    y == Remainder(a, d, s, j) && Value(q) == Reduce(Quotient(a, d, s, j), 32 * |q|)
  }

  lemma TrackStart(a: seq<Word>, d: seq<Word>, s: nat, n: nat)
    requires s > 0 && |a| == LastWord(s) + 1
    ensures Tracks(Zeros(|a|), Zeros(n), a, d, s, s)
  {
    hide Value, Pow, Pow2, Reduce;
    ValueZero(Zeros(n));
    ReduceSmall(0, 32 * n);
  }

  lemma TrackStep(y: seq<Word>, q: seq<Word>, a: seq<Word>, d: seq<Word>, s: nat, j: nat, fits: bool)
    requires s > 0 && |a| == |y| == LastWord(s) + 1 && j < s && Tracks(y, q, a, d, s, j + 1)
    requires fits == (Value(Shifted(y, GetBit(a, j), |d|)) >= Value(d))
    ensures Tracks(Step(y, GetBit(a, j), d, s), Doubled(q, if fits then 1 else 0), a, d, s, j)
  {
    hide Value, Pow, Pow2, Reduce, Doubled, Shifted, Step, GetBit;
    DoubledMod(q, if fits then 1 else 0, Quotient(a, d, s, j + 1), |q|);
  }

  /** Shifts the used words of x left by one bit, with a bit coming in. */
  method ShiftIn(x: array<Word>, s: nat, bit: nat)
    requires s > 0 && LastWord(s) < x.Length && bit <= 1
    modifies x
    ensures Used(x, s) == Doubled(old(Used(x, s)), bit)
  {
    hide LastWord, Doubled;
    DoubledIn(Used(x, s), bit);
    ShiftLeftOne(x, LastWord(s));
    x[0] := x[0] + bit;
  }

  /** One turn of the loop of `div`: the result is shifted left with the next quotient bit. */
  method DivTurn(y: array<Word>, ar: array<Word>, sr: nat, a0: array<Word>, s0: nat, a1: array<Word>, s1: nat, j: nat)
    requires s0 > 0 && s1 > 0 && sr > 0 && j < s0 && LastWord(s0) < y.Length && LastWord(s1) < y.Length
    requires LastWord(s0) < a0.Length && LastWord(s1) < a1.Length && y !in {a0, a1, ar}
    requires LastWord(sr) < ar.Length && ar != a0 && ar != a1
    modifies y, ar
    ensures old(Tracks(Used(y, s0), Used(ar, sr), Used(a0, s0), Used(a1, s1), s0, j + 1)) ==>
      Tracks(Used(y, s0), Used(ar, sr), Used(a0, s0), Used(a1, s1), s0, j)
  {
    assert s0 <= 32 * (LastWord(s0) + 1);
    hide Value, Pow, Pow2, GetBit, Step, LastWord, Doubled, Reduce, Shifted, Tracks, Used;
    ghost var a, d, q, before := Used(a0, s0), Used(a1, s1), Used(ar, sr), Used(y, s0);
    var fits := Turn(y, a0, s0, a1, s1, j);
    ShiftIn(ar, sr, if fits then 1 else 0);
    if Tracks(before, q, a, d, s0, j + 1) {
      TrackStep(before, q, a, d, s0, j, fits);
    }
  }

  /** The loop of `div`: Y ends as the remainder, and the cleared result as the quotient bits. */
  method DivLoop(y: array<Word>, ar: array<Word>, sr: nat, a0: array<Word>, s0: nat, a1: array<Word>, s1: nat)
    requires s0 > 0 && s1 > 0 && sr > 0 && LastWord(s0) < y.Length && LastWord(s1) < y.Length
    requires LastWord(s0) < a0.Length && LastWord(s1) < a1.Length && y !in {a0, a1, ar}
    requires LastWord(sr) < ar.Length && ar != a0 && ar != a1 && Used(ar, sr) == Zeros(LastWord(sr) + 1)
    modifies y, ar
    ensures Ready(old(y[..]), s0, s1) ==> Tracks(Used(y, s0), Used(ar, sr), Used(a0, s0), Used(a1, s1), s0, 0)
  {
    hide Value, LastWord, Reduce, Tracks, Ready, Quotient, Zeros, Pow, Pow2, Remainder;
    ghost var ready, a, d := Ready(y[..], s0, s1), Used(a0, s0), Used(a1, s1);
    assert |a| == LastWord(s0) + 1 && |Used(ar, sr)| == LastWord(sr) + 1;
    hide Used;
    ClearY(y, s0, s1);
    TrackStart(a, d, s0, LastWord(sr) + 1);
    var j := s0;
    while j > 0
      invariant j <= s0 && (ready ==> Tracks(Used(y, s0), Used(ar, sr), a, d, s0, j))
    {
      j := j - 1;
      DivTurn(y, ar, sr, a0, s0, a1, s1, j);
    }
  }

  // ----- The operations -----

  /** Sets words 0 to w of both vectors to ones, and cuts the last word of the result to s bits. */
  method SetUnknown(ar: array<Word>, br: array<Word>, sr: nat)
    requires sr > 0 && LastWord(sr) < ar.Length && LastWord(sr) < br.Length && ar != br
    modifies ar, br
    ensures Value(Used(ar, sr)) == Value(Used(br, sr)) == Pow2(sr) - 1
    ensures ar[LastWord(sr) + 1..] == old(ar[LastWord(sr) + 1..])
            && br[LastWord(sr) + 1..] == old(br[LastWord(sr) + 1..])
  {
    hide Top, LastWord, Value, Pow2;
    SetAllX(ar, br, sr);
  }

  /** The operands, the result and their sizes, as the division operations take them. */
  ghost predicate Operands(ar: array<Word>, br: array<Word>, sr: nat, a0: array<Word>, b0: array<Word>, s0: nat,
                           a1: array<Word>, b1: array<Word>, s1: nat)
    reads ar, a0, a1
  {
    && sr > 0 && s0 > 0 && s1 > 0 && LastWord(sr) >= LastWord(s0)
    && LastWord(sr) < ar.Length && LastWord(sr) < br.Length && ar != br
    && LastWord(s0) < a0.Length && LastWord(s0) < b0.Length && LastWord(s1) < a1.Length && LastWord(s1) < b1.Length
    && ar !in {a0, b0, a1, b1} && br !in {a0, b0, a1, b1}
    && Value(Used(a0, s0)) < Pow2(s0)
    && Used(ar, sr) == Zeros(LastWord(sr) + 1)
  }

  /** A divisor of one word that does not come to the loop: zero, or a power of two. */
  ghost predicate Short(a1: array<Word>, s1: nat)
    requires s1 > 0 && LastWord(s1) < a1.Length
    reads a1
  {
    LastWord(s1) == 0 && (a1[0] == 0 || PowerOfTwo(a1[0]) >= 0)
  }

  /** The divisors of one word that do not come to the loop. */
  lemma ShortIff(a1: array<Word>, s1: nat)
    requires s1 > 0 && LastWord(s1) < a1.Length
    ensures Short(a1, s1) <==>
            s1 <= 32 && (a1[0] == 0 || exists k: nat :: k < 32 && a1[0] == Pow2(k))
  {
    PowerOfTwoIs(a1[0]);
    hide Pow2, PowerOfTwo;
    if k: nat :| k < 32 && a1[0] == Pow2(k) {
      PowerOfTwoOf(k);
    }
  }

  /** The words that the test for a zero divisor looks at: as many as the dividend has, unless it
      would find a non-zero one before the end of the array. */
  ghost function Tested(a1: array<Word>, s0: nat): seq<Word>
    requires s0 > 0
    reads a1
  {
    a1[..if LastWord(s0) < a1.Length then LastWord(s0) + 1 else a1.Length]
  }

  /** The test for a zero divisor. */
  method TestDivisor(a1: array<Word>, s0: nat) returns (nonzero: bool)
    requires s0 > 0 && (LastWord(s0) < a1.Length || AnySet(a1[..]))
    ensures nonzero == AnySet(Tested(a1, s0))
  {
    var i := 0;
    nonzero := false;
    while i <= LastWord(s0) && !nonzero
      invariant 0 <= i <= LastWord(s0) + 1 && i <= a1.Length
      invariant nonzero ==> exists k :: 0 <= k < i && a1[k] != 0
      invariant !nonzero ==> forall k | 0 <= k < i :: a1[k] == 0
    {
      if a1[i] != 0 {
        nonzero := true;
      }
      i := i + 1;
    }
  }

  lemma {:induction false} AnySetValue(a: seq<Word>)
    ensures AnySet(a) <==> Value(a) != 0
  {
    hide Value;
    ValueZero(a);
    if a != Zeros(|a|) {
      assert exists i | 0 <= i < |a| :: a[i] != 0;
    }
  }

  lemma OneWord(a: seq<Word>)
    requires |a| == 1
    ensures Value(a) == a[0] && !Awkward(a)
  {
    assert a[1..] == [];
  }

  /** The fast path of `div`: copy the dividend and shift it right. The highest word of a longer
      result is not written, but found cleared. */
  method DivByPower(ar: array<Word>, sr: nat, a0: array<Word>, s0: nat, k: nat)
    requires s0 > 0 && sr > 0 && LastWord(sr) >= LastWord(s0) && k <= 31
    requires LastWord(s0) < a0.Length && LastWord(sr) < ar.Length && ar != a0
    requires LastWord(sr) > LastWord(s0) ==> ar[LastWord(sr)] == 0
    modifies ar
    ensures Value(Used(ar, sr)) == Value(Used(a0, s0)) / Pow2(k)
  {
    hide Value, Pow, Pow2, LastWord, Halved;
    var w0, w2 := LastWord(s0), LastWord(sr);
    for i := 0 to w0 + 1
      invariant forall k | 0 <= k < i :: ar[k] == a0[k]
      invariant w2 > w0 ==> ar[w2] == 0
    {
      ar[i] := a0[i];
    }
    var i := w0 + 1;
    while i < w2
      invariant w0 < i && (i <= w2 || w2 == w0)
      invariant forall k | 0 <= k <= w0 :: ar[k] == a0[k]
      invariant forall k | w0 < k < i && k < w2 :: ar[k] == 0
      invariant w2 > w0 ==> ar[w2] == 0
    {
      ar[i] := 0;
      i := i + 1;
    }
    ghost var x := Fit(Used(a0, s0), w2 + 1);
    FitValue(Used(a0, s0), w2 + 1);
    assert Used(ar, sr) == x;
    if k > 0 {
      ShiftRight(ar, w2, k);
      HalvedValue(x, k);
      assert Used(ar, sr) == Halved(x, k);
    } else {
      Pow2Zero();
    }
  }

  /** The fast path of `mod`: keep the low bits of the lowest word. */
  method ModByPower(ar: array<Word>, sr: nat, a0: array<Word>, s0: nat, k: nat)
    requires s0 > 0 && sr > 0 && k <= 31
    requires LastWord(s0) < a0.Length && LastWord(sr) < ar.Length && ar != a0
    modifies ar
    ensures Value(Used(ar, sr)) == Reduce(Value(Used(a0, s0)), k)
  {
    hide Value, Pow, LastWord, Pow2, Reduce;
    var w2 := LastWord(sr);
    ReduceLow(Used(a0, s0), k);
    var low: Word := if k > 0 then Reduce(a0[0], k) else 0;
    ar[0] := low;
    for i := 1 to w2 + 1
      invariant ar[0] == low && forall j | 1 <= j < i :: ar[j] == 0
    {
      ar[i] := 0;
    }
    LowOnly(Used(ar, sr));
  }

  lemma ReduceLow(a: seq<Word>, k: nat)
    requires a != [] && k <= 31
    ensures Reduce(Value(a), k) == Reduce(a[0], k) < 0x1_0000_0000
    ensures k == 0 ==> Reduce(a[0], k) == 0
  {
    ReduceWord(Value(a[1..]), a[0], k);
    Pow2Mono(k, 32);
    Pow2At32();
  }

  lemma LowOnly(a: seq<Word>)
    requires a != [] && forall j | 1 <= j < |a| :: a[j] == 0
    ensures Value(a) == a[0]
  {
    ValueZero(a[1..]);
  }

  /** The general path of `div`. */
  method DivWords(y: array<Word>, ar: array<Word>, sr: nat, a0: array<Word>, s0: nat, a1: array<Word>, s1: nat)
    returns (err: bool)
    requires s0 > 0 && s1 > 0 && sr > 0 && LastWord(sr) >= LastWord(s0)
    requires LastWord(s0) < a0.Length && LastWord(s1) < a1.Length && y !in {a0, a1, ar}
    requires LastWord(s0) < a1.Length || AnySet(a1[..])
    requires AnySet(Tested(a1, s0)) ==> LastWord(s0) < y.Length && LastWord(s1) < y.Length
    requires LastWord(sr) < ar.Length && ar != a0 && ar != a1 && Used(ar, sr) == Zeros(LastWord(sr) + 1)
    requires Value(Used(a0, s0)) < Pow2(s0)
    modifies y, ar
    ensures err == (Value(Tested(a1, s0)) == 0)
    ensures !err && Ready(old(y[..]), s0, s1) ==>
      Value(Used(ar, sr)) == Reduce(Quotient(Used(a0, s0), Used(a1, s1), s0, 0), 32 * (LastWord(sr) + 1))
    ensures !err && Ready(old(y[..]), s0, s1) && Value(Used(a1, s1)) > 0 && Sound(Used(a1, s1), s0) ==>
      Value(Used(ar, sr)) == Value(Used(a0, s0)) / Value(Used(a1, s1))
  {
    hide Value, Pow, Pow2, LastWord, Sound, Reduce, Remainder, Quotient, Ready;
    var nonzero := TestDivisor(a1, s0);
    AnySetValue(Tested(a1, s0));
    err := !nonzero;
    if nonzero {
      DivLoop(y, ar, sr, a0, s0, a1, s1);
      ghost var a, d := Used(a0, s0), Used(a1, s1);
      if Value(d) > 0 && Sound(d, s0) {
        SoundDivides(a, d, s0);
        ReduceSmall(Value(a), s0);
        QuotientFits(Value(a), Value(d));
        RoomAbove(s0, sr);
        ReduceSmall(Value(a) / Value(d), 32 * (LastWord(sr) + 1));
      }
    }
  }

  lemma RoomAbove(s0: nat, sr: nat)
    requires s0 > 0 && sr > 0 && LastWord(sr) >= LastWord(s0)
    ensures Pow2(s0) <= Pow2(32 * (LastWord(sr) + 1))
  {
    Pow2Mono(s0, 32 * (LastWord(sr) + 1));
  }

  lemma QuotientFits(x: nat, d: nat)
    requires d > 0
    ensures 0 <= x / d <= x
  {
    assert x == d * (x / d) + x % d;
    PartsFit(x, d, x / d, x % d);
  }

  lemma PartsFit(x: nat, d: nat, q: int, r: nat)
    requires x == d * q + r && r < d
    ensures 0 <= q <= x
  {
    NegativeProduct(d, q);
    if q >= 0 {
      MulAtLeast(q, d);
    }
  }

  lemma NegativeProduct(d: nat, q: int)
    ensures q < 0 ==> d * q + d <= 0
  {
  }

  /** The general path of `mod`. */
  method ModWords(y: array<Word>, ar: array<Word>, sr: nat, a0: array<Word>, s0: nat, a1: array<Word>, s1: nat)
    returns (err: bool)
    requires s0 > 0 && s1 > 0 && sr > 0 && LastWord(sr) >= LastWord(s0)
    requires LastWord(s0) < a0.Length && LastWord(s1) < a1.Length && y !in {a0, a1, ar}
    requires LastWord(s0) < a1.Length || AnySet(a1[..])
    requires AnySet(Tested(a1, s0)) ==> LastWord(s0) < y.Length && LastWord(s1) < y.Length
    requires LastWord(sr) < ar.Length && ar != a0 && ar != a1 && Used(ar, sr) == Zeros(LastWord(sr) + 1)
    requires Value(Used(a0, s0)) < Pow2(s0)
    modifies y, ar
    ensures err == (Value(Tested(a1, s0)) == 0)
    ensures !err && Ready(old(y[..]), s0, s1) ==>
      Value(Used(ar, sr)) == Value(Remainder(Used(a0, s0), Used(a1, s1), s0, 0))
    ensures !err && Ready(old(y[..]), s0, s1) && Value(Used(a1, s1)) > 0 && Sound(Used(a1, s1), s0) ==>
      Value(Used(ar, sr)) == Value(Used(a0, s0)) % Value(Used(a1, s1))
  {
    hide Value, Pow, Pow2, LastWord, Sound, Reduce, Remainder, Quotient, Ready;
    var nonzero := TestDivisor(a1, s0);
    AnySetValue(Tested(a1, s0));
    err := !nonzero;
    if nonzero {
      ModLoop(y, a0, s0, a1, s1);
      ghost var r := Used(y, s0);
      for i := 0 to LastWord(s0) + 1
        invariant Used(y, s0) == r && forall k | 0 <= k < i :: ar[k] == y[k]
        invariant forall k | i <= k <= LastWord(sr) :: ar[k] == 0
      {
        ar[i] := y[i];
      }
      FitValue(Used(y, s0), LastWord(sr) + 1);
      assert Used(ar, sr) == Fit(Used(y, s0), LastWord(sr) + 1);
      ghost var a, d := Used(a0, s0), Used(a1, s1);
      if Value(d) > 0 && Sound(d, s0) {
        SoundDivides(a, d, s0);
        ReduceSmall(Value(a), s0);
      }
    }
  }

  // ----- The scratch register -----

  /** How many words Y has for a dividend with last word w: it is allocated on first use, and again
      when its recorded length (0 before the first use) is too short; then it gets one word less
      than needed, as it does on first use above 256 words. */
  function Allocated(size: nat, w: nat): nat {
    if size > w then size else if size == 0 then if w > 256 then w else 256 else w
  }

  /** Y is long enough for the dividend if and only if it was so recorded, or it is new and the
      dividend has at most 256 words. */
  lemma LongEnoughIff(size: nat, w: nat)
    ensures w < Allocated(size, w) <==> w < size || (size == 0 && w < 256)
  {
  }

  /** A first dividend of 257 words gets a Y of 256. */
  lemma TooShort()
    ensures Allocated(0, 256) == 256
  {
  }

  class DivUnit {
    // the scratch register and its recorded length
    var y: array?<Word>
    var ySize: nat

    ghost predicate Valid()
      reads this, y
    {
      if y == null then ySize == 0 else y.Length == ySize && ySize >= 256
    }

    /** Whether the next division will find Y long enough for both operands. */
    ghost predicate Room(s0: nat, s1: nat)
      requires s0 > 0 && s1 > 0
      reads this`ySize
    {
      var n := Allocated(ySize, LastWord(s0));
      LastWord(s0) < n && LastWord(s1) < n
    }

    /** Whether it will find the words of Y clear that it does not clear itself: Y is allocated with
        all words clear, and an earlier division may have left others. */
    ghost predicate IsReady(s0: nat, s1: nat)
      requires s0 > 0 && s1 > 0
      reads this, y
    {
      y == null || ySize <= LastWord(s0) || Ready(y[..], s0, s1)
    }

    /** Y is ready whenever it is new, is about to be replaced, or has no word above the divisor. */
    lemma AlwaysReady(s0: nat, s1: nat)
      requires s0 > 0 && s1 > 0
      requires y == null || ySize <= LastWord(s0) || LastWord(s0) <= LastWord(s1)
      ensures IsReady(s0, s1)
    {
    }

    /** What the operation asks for beyond its operands when it comes to the general path: that the
        test for zero stays within the divisor's array, and, if it is passed, that Y is long enough. */
    ghost predicate CanDivide(b0: array<Word>, s0: nat, a1: array<Word>, b1: array<Word>, s1: nat)
      requires s0 > 0 && s1 > 0 && LastWord(s0) < b0.Length && LastWord(s1) < b1.Length && LastWord(s1) < a1.Length
      reads this`ySize, a1, b0, b1
    {
      !AnySet(Used(b0, s0)) && !AnySet(Used(b1, s1)) && !Short(a1, s1) ==>
        && (LastWord(s0) < a1.Length || AnySet(a1[..]))
        && (AnySet(Tested(a1, s0)) ==> Room(s0, s1))
    }

    constructor ()
      ensures Valid() && y == null
    {
      y, ySize := null, 0;
    }

    method Allocate(w0: nat)
      requires Valid()
      modifies this
      ensures Valid() && y != null && ySize == Allocated(old(ySize), w0)
      ensures if old(ySize) > w0 then y == old(y) else fresh(y) && forall k | 0 <= k < y.Length :: y[k] == 0
    {
      if ySize <= w0 || y == null {
        if y == null {
          ySize := if w0 > 256 then w0 else 256;
          y := new Word[ySize](_ => 0);
        } else {
          y := new Word[w0](_ => 0);
          ySize := w0;
        }
      }
    }

    /** `div`, for operands of any two widths: all x on an x or z, all x and an error when the test
        finds the divisor zero, and else the quotient, for every divisor that is sound. */
    method Div(ar: array<Word>, br: array<Word>, sr: nat, a0: array<Word>, b0: array<Word>, s0: nat,
               a1: array<Word>, b1: array<Word>, s1: nat) returns (err: bool)
      requires Valid() && Operands(ar, br, sr, a0, b0, s0, a1, b1, s1) && CanDivide(b0, s0, a1, b1, s1)
      requires y != null ==> y !in {ar, br, a0, b0, a1, b1}
      modifies this, y, ar, br
      ensures Valid()
      ensures var unknown := AnySet(old(Used(b0, s0))) || AnySet(old(Used(b1, s1)));
        var x, d := old(Used(a0, s0)), old(Used(a1, s1));
        var zero := (LastWord(s1) == 0 && d[0] == 0) || Value(old(Tested(a1, s0))) == 0;
        && err == (!unknown && zero)
        && (unknown || err ==> Value(Used(ar, sr)) == Value(Used(br, sr)) == Pow2(sr) - 1)
        && (!unknown && !err ==> br[..] == old(br[..]))
        && (!unknown && !err && Value(d) > 0 && Sound(d, s0) && (old(Short(a1, s1)) || old(IsReady(s0, s1))) ==>
            Value(Used(ar, sr)) == Value(x) / Value(d))
        && (!unknown && !err && old(!Short(a1, s1) && IsReady(s0, s1)) ==>
            Value(Used(ar, sr)) == Reduce(Quotient(x, d, s0, 0), 32 * (LastWord(sr) + 1)))
    {
      hide Value, Pow, Pow2, LastWord, Sound, Quotient, Reduce, Allocated;
      err := false;
      ghost var ready := IsReady(s0, s1);
      Allocate(LastWord(s0));
      assert ready ==> Ready(y[..], s0, s1);
      hide Ready;
      var unknown := FindSet(b0, s0);
      if !unknown {
        unknown := FindSet(b1, s1);
      }
      if unknown {
        SetUnknown(ar, br, sr);
        return;
      }
      var shift := -1;
      if LastWord(s1) == 0 {
        OneWord(Used(a1, s1));
        PowerOfTwoIs(a1[0]);
        err := a1[0] == 0;
        shift := PowerOfTwo(a1[0]);
      }
      if shift >= 0 {
        NotZero(a1, s0);
        DivByPower(ar, sr, a0, s0, shift);
      } else if !err {
        err := DivWords(y, ar, sr, a0, s0, a1, s1);
      }
      if err {
        SetUnknown(ar, br, sr);
      }
    }

    /** `mod`: as `div`, with the remainder. */
    method Mod(ar: array<Word>, br: array<Word>, sr: nat, a0: array<Word>, b0: array<Word>, s0: nat,
               a1: array<Word>, b1: array<Word>, s1: nat) returns (err: bool)
      requires Valid() && Operands(ar, br, sr, a0, b0, s0, a1, b1, s1) && CanDivide(b0, s0, a1, b1, s1)
      requires y != null ==> y !in {ar, br, a0, b0, a1, b1}
      modifies this, y, ar, br
      ensures Valid()
      ensures var unknown := AnySet(old(Used(b0, s0))) || AnySet(old(Used(b1, s1)));
        var x, d := old(Used(a0, s0)), old(Used(a1, s1));
        var zero := (LastWord(s1) == 0 && d[0] == 0) || Value(old(Tested(a1, s0))) == 0;
        && err == (!unknown && zero)
        && (unknown || err ==> Value(Used(ar, sr)) == Value(Used(br, sr)) == Pow2(sr) - 1)
        && (!unknown && !err ==> br[..] == old(br[..]))
        && (!unknown && !err && Value(d) > 0 && Sound(d, s0) && (old(Short(a1, s1)) || old(IsReady(s0, s1))) ==>
            Value(Used(ar, sr)) == Value(x) % Value(d))
        && (!unknown && !err && old(!Short(a1, s1) && IsReady(s0, s1)) ==>
            Value(Used(ar, sr)) == Value(Remainder(x, d, s0, 0)))
    {
      hide Value, Pow, Pow2, LastWord, Sound, Remainder, Allocated;
      err := false;
      ghost var ready := IsReady(s0, s1);
      Allocate(LastWord(s0));
      assert ready ==> Ready(y[..], s0, s1);
      hide Ready;
      var unknown := FindSet(b0, s0);
      if !unknown {
        unknown := FindSet(b1, s1);
      }
      if unknown {
        SetUnknown(ar, br, sr);
        return;
      }
      var shift := -1;
      if LastWord(s1) == 0 {
        OneWord(Used(a1, s1));
        PowerOfTwoIs(a1[0]);
        err := a1[0] == 0;
        shift := PowerOfTwo(a1[0]);
      }
      if shift >= 0 {
        NotZero(a1, s0);
        ModByPower(ar, sr, a0, s0, shift);
      } else if !err {
        err := ModWords(y, ar, sr, a0, s0, a1, s1);
      }
      if err {
        SetUnknown(ar, br, sr);
      }
    }
  }

  lemma NotZero(a1: array<Word>, s0: nat)
    requires s0 > 0 && a1.Length > 0 && a1[0] != 0
    ensures Value(Tested(a1, s0)) != 0
  {
  }
}
