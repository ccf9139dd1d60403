/**
Vectors of 32-bit words, least significant word first, and the number that they stand for.
A word is the unsigned reading of the 32-bit pattern: `x & (2^k - 1)` is `x % 2^k`, `~x` is
`ONES - x`, and a sum is reduced modulo 2^32.
*/
module Words {

  type Word = x: int | 0 <= x < 0x1_0000_0000

  const ONES: Word := 0xffff_ffff

  /** 2^(32 n) */
  function Pow(n: nat): (r: nat)
    ensures r > 0
  {
    if n == 0 then 1 else 0x1_0000_0000 * Pow(n - 1)
  }

  function Pow2(n: nat): (r: nat)
    ensures r > 0
  {
    if n == 0 then 1 else 2 * Pow2(n - 1)
  }

  function Value(a: seq<Word>): (v: nat)
    ensures v < Pow(|a|)
  {
    if a == [] then 0 else a[0] + 0x1_0000_0000 * Value(a[1..])
  }

  /** The word that holds the sum of two words and a carry. */
  function Low(sum: int): Word
    requires 0 <= sum < 0x2_0000_0000
  {
    if sum >= 0x1_0000_0000 then sum - 0x1_0000_0000 else sum
  }

  /** Index of the last word of a vector of s bits. */
  function LastWord(s: nat): nat
    requires s > 0
  {
    (s - 1) / 32
  }

  /** One more than the mask that keeps the bits in use of the last word. */
  function Top(s: nat): (t: nat)
    requires s > 0
    ensures 2 <= t <= 0x1_0000_0000
  {
    TopRange(if s % 32 == 0 then 32 else s % 32);
    Pow2(if s % 32 == 0 then 32 else s % 32)
  }

  function Zeros(n: nat): seq<Word> { seq(n, _ => 0) }

  /** The vector cut, or filled up with zeros, to n words. */
  function Fit(a: seq<Word>, n: nat): (r: seq<Word>)
    ensures |r| == n && forall k | 0 <= k < n :: r[k] == if k < |a| then a[k] else 0
  {
    if n <= |a| then a[..n] else a + Zeros(n - |a|)
  }

  /** The vector with the unused bits of its last word cleared. */
  function Masked(r: seq<Word>, s: nat): (m: seq<Word>)
    requires s > 0 && |r| == LastWord(s) + 1
    ensures |m| == |r|
  {
    r[LastWord(s) := r[LastWord(s)] % Top(s)]
  }

  // ----- Powers -----

  lemma {:induction false} Pow2Add(m: nat, n: nat)
    ensures Pow2(m + n) == Pow2(m) * Pow2(n)
    decreases m
  {
    if m > 0 {
      Pow2Add(m - 1, n);
      assert Pow2(m + n) == 2 * Pow2(m - 1 + n);
    }
  }

  lemma {:induction false} Pow2Mono(m: nat, n: nat)
    requires m <= n
    ensures Pow2(m) <= Pow2(n)
    decreases n
  {
    if m < n {
      Pow2Mono(m, n - 1);
    }
  }

  lemma Pow2At32()
    ensures Pow2(16) == 0x1_0000 && Pow2(32) == 0x1_0000_0000
  {
    assert Pow2(8) == 0x100;
    Pow2Add(8, 8);
    Pow2Add(16, 16);
  }

  lemma TopRange(r: nat)
    requires 1 <= r <= 32
    ensures 2 <= Pow2(r) <= 0x1_0000_0000
  {
    Pow2At32();
    Pow2Mono(1, r);
    Pow2Mono(r, 32);
  }

  lemma Pow2By32(n: nat)
    ensures Pow2(n + 32) == 0x1_0000_0000 * Pow2(n)
  {
    Pow2At32();
    Pow2Add(32, n);
  }

  lemma {:induction false} PowIsPow2(n: nat)
    ensures Pow(n) == Pow2(32 * n)
  {
    if n > 0 {
      PowIsPow2(n - 1);
      Pow2By32(32 * (n - 1));
    }
  }

  lemma SizeInWords(s: nat)
    requires s > 0
    ensures Pow2(s) <= Pow(LastWord(s) + 1)
  {
    PowIsPow2(LastWord(s) + 1);
    Pow2Mono(s, 32 * (LastWord(s) + 1));
  }

  // ----- Numbers and their words -----

  lemma ValueUp(a: seq<Word>)
    requires a != []
    ensures Value(a) == a[0] + 0x1_0000_0000 * Value(a[1..])
  {
  }

  lemma {:induction false} ValueUnique(a: seq<Word>, b: seq<Word>)
    requires |a| == |b| && Value(a) == Value(b)
    ensures a == b
    decreases |a|
  {
    if a != [] {
      ValueUnique(a[1..], b[1..]);
      assert a == [a[0]] + a[1..] && b == [b[0]] + b[1..];
    }
  }

  lemma {:induction false} ValueZero(a: seq<Word>)
    ensures Value(a) == 0 <==> a == Zeros(|a|)
    decreases |a|
  {
    if a != [] {
      ValueZero(a[1..]);
      assert Zeros(|a|) == [0] + Zeros(|a| - 1);
      assert a == [a[0]] + a[1..];
    }
  }

  /** Words on top that are zero do not change the number. */
  lemma {:induction false} FitValue(a: seq<Word>, n: nat)
    requires |a| <= n
    ensures Value(Fit(a, n)) == Value(a)
    decreases |a|
  {
    var f := Fit(a, n);
    if a == [] {
      ValueZero(f);
    } else {
      FitValue(a[1..], n - 1);
      assert f[1..] == Fit(a[1..], n - 1);
    }
  }

  lemma {:induction false} ValueSplit(a: seq<Word>, i: nat)
    requires i <= |a|
    ensures Value(a) == Value(a[..i]) + Pow(i) * Value(a[i..])
    decreases i
  {
    if i == 0 {
      assert a[0..] == a && a[..0] == [];
    } else {
      ValueSplit(a[1..], i - 1);
      assert a[..i][1..] == a[1..][..i - 1] && a[i..] == a[1..][i - 1..];
      assert Value(a) == a[0] + 0x1_0000_0000 * Value(a[1..]);
      assert Value(a[..i]) == a[0] + 0x1_0000_0000 * Value(a[..i][1..]);
      assert Pow(i) == 0x1_0000_0000 * Pow(i - 1);
      hide *;
      ScaleLeft(Pow(i - 1), Value(a[i..]));
    }
  }

  lemma ScaleLeft(p: int, v: int)
    ensures (0x1_0000_0000 * p) * v == 0x1_0000_0000 * (p * v)
  {
  }

  /** Of two vectors with different upper parts, the upper parts decide the order. */
  lemma {:induction false} UpperDecides(a: seq<Word>, b: seq<Word>, i: nat)
    requires |a| == |b| && i <= |a| && Value(a[i..]) < Value(b[i..])
    ensures Value(a) < Value(b)
    decreases i
  {
    if i == 0 {
      assert a[0..] == a && b[0..] == b;
    } else {
      assert a[1..][i - 1..] == a[i..] && b[1..][i - 1..] == b[i..];
      UpperDecides(a[1..], b[1..], i - 1);
    }
  }

  // ----- Reduction to s bits -----

  /** The number modulo 2^s. */
  function Reduce(x: int, s: nat): (r: nat)
    ensures r < Pow2(s)
  {
    x % Pow2(s)
  }

  lemma ReduceStep(d: nat, x: int, s: nat)
    requires d < 0x1_0000_0000 && s > 32
    ensures Reduce(d + 0x1_0000_0000 * x, s) == d + 0x1_0000_0000 * Reduce(x, s - 32)
  {
    SizeDown(s);
    ModStep(d, x, Pow2(s - 32));
  }

  /** Within one word nothing above it matters. */
  lemma ReduceWord(q: int, t: nat, s: nat)
    requires s <= 32
    ensures Reduce(0x1_0000_0000 * q + t, s) == Reduce(t, s)
  {
    Pow2At32();
    Pow2Add(s, 32 - s);
    HighDrops(q, t, Pow2(s), Pow2(32 - s));
  }

  /** Numbers that differ by an odd number differ modulo 2^s. */
  lemma ReduceOdd(x: int, y: int, k: int, s: nat)
    requires s > 0 && x == y + 2 * k + 1
    ensures Reduce(x, s) != Reduce(y, s)
  {
    OddMod(x, y, k, Pow2(s - 1));
  }

  lemma OddMod(x: int, y: int, k: int, p: nat)
    requires p > 0 && x == y + 2 * k + 1
    ensures x % (2 * p) != y % (2 * p)
  {
    var m := 2 * p;
    var q, r := x / m, y / m;
    if x % m == y % m {
      assert x == m * q + x % m && y == m * r + y % m;
      EvenProduct(p, q, r);
    }
  }

  lemma EvenProduct(p: int, q: int, r: int)
    ensures (2 * p) * q - (2 * p) * r == 2 * (p * q - p * r)
  {
  }

  lemma ReduceSmall(x: nat, s: nat)
    requires x < Pow2(s)
    ensures Reduce(x, s) == x
  {
    ModOf(x, 0, Pow2(s));
  }

  lemma HighDrops(q: int, t: nat, p: nat, k: nat)
    requires p > 0 && p * k == 0x1_0000_0000
    ensures (0x1_0000_0000 * q + t) % p == t % p
  {
    assert (p * k) * q == p * (k * q);
    ModShift(t, k * q, p);
  }

  lemma ModShift(x: int, q: int, m: nat)
    requires m > 0
    ensures (m * q + x) % m == x % m
  {
    assert m * q + x == m * (q + x / m) + x % m;
    ModOf(x % m, q + x / m, m);
  }

  lemma ModStep(d: nat, x: int, p: nat)
    requires d < 0x1_0000_0000 && p > 0
    ensures (d + 0x1_0000_0000 * x) % (0x1_0000_0000 * p) == d + 0x1_0000_0000 * (x % p)
  {
    var q, r := x / p, x % p;
    assert x == p * q + r;
    ScaledMod(d, q, r, p);
  }

  lemma ScaledMod(d: nat, q: int, r: nat, p: nat)
    requires d < 0x1_0000_0000 && r < p
    ensures (d + 0x1_0000_0000 * (p * q + r)) % (0x1_0000_0000 * p) == d + 0x1_0000_0000 * r
  {
    var m, t := 0x1_0000_0000 * p, d + 0x1_0000_0000 * r;
    assert t < m;
    assert d + 0x1_0000_0000 * (p * q + r) == m * q + t by {
      assert 0x1_0000_0000 * (p * q) == m * q;
    }
    ModOf(t, q, m);
  }

  lemma ModOf(x: int, q: int, m: nat)
    requires 0 <= x < m
    ensures (m * q + x) % m == x && (m * q + x) / m == q
  {
    var y := m * q + x;
    DivUnique(x, q, y % m, y / m, m);
  }

  lemma DivUnique(x: int, q: int, y: int, r: int, m: int)
    requires 0 <= x < m && 0 <= y < m && m * q + x == m * r + y
    ensures x == y && q == r
  {
    assert m * (q - r) == y - x && m * (r - q) == x - y;
    if q - r >= 1 {
      MulAtLeast(m, q - r);
    } else if q - r <= -1 {
      MulAtLeast(m, r - q);
    }
  }

  lemma MulAtLeast(m: nat, k: nat)
    requires k >= 1
    ensures m * k >= m
  {
  }

  lemma SizeDown(s: nat)
    requires s > 32
    ensures LastWord(s) == LastWord(s - 32) + 1 && Top(s) == Top(s - 32)
    ensures Pow2(s) == 0x1_0000_0000 * Pow2(s - 32)
  {
    Pow2By32(s - 32);
  }

  lemma TopIsSize(d: Word, s: nat)
    requires 0 < s <= 32
    ensures d % Top(s) == Reduce(d, s)
  {
  }

  lemma {:induction false} MaskedValue(r: seq<Word>, s: nat)
    requires s > 0 && |r| == LastWord(s) + 1
    ensures Value(Masked(r, s)) == Reduce(Value(r), s)
    decreases s
  {
    hide Pow, Pow2, Reduce, Top;
    var m := Masked(r, s);
    if s <= 32 {
      assert r[1..] == [] && m[1..] == [];
      TopIsSize(r[0], s);
    } else {
      SizeDown(s);
      MaskedValue(r[1..], s - 32);
      assert m[1..] == Masked(r[1..], s - 32);
      ReduceStep(r[0], Value(r[1..]), s);
    }
  }

  /** A vector that holds a number of s bits has no unused bit set. */
  lemma MaskedSame(r: seq<Word>, s: nat)
    requires s > 0 && |r| == LastWord(s) + 1 && Value(r) < Pow2(s)
    ensures Masked(r, s) == r
  {
    hide Masked, LastWord, Pow, Pow2;
    MaskedValue(r, s);
    ReduceSmall(Value(r), s);
    ValueUnique(Masked(r, s), r);
  }
}
