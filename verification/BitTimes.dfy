/**
Multiplication by 16-bit half words, accumulated in place. It is exact, no intermediate leaves
32 bits, and the carry never runs past the end of the result although the loop would let it.
*/
module BitTimes {
  import opened Words
  import opened BitCompare
  import BitSum

  /** 2^(16 k) */
  function P16(k: nat): (r: nat)
    ensures r > 0
  {
    if k == 0 then 1 else 0x1_0000 * P16(k - 1)
  }

  /** Half word k of a vector. */
  function Half(a: seq<Word>, k: nat): (h: int)
    requires k < 2 * |a|
    ensures 0 <= h < 0x1_0000
  {
    if k % 2 == 1 then a[k / 2] / 0x1_0000 else a[k / 2] % 0x1_0000
  }

  function SetHalf(a: seq<Word>, k: nat, x: int): (r: seq<Word>)
    requires k < 2 * |a| && 0 <= x < 0x1_0000
    ensures |r| == |a|
  {
    a[k / 2 := if k % 2 == 1 then a[k / 2] % 0x1_0000 + 0x1_0000 * x
               else a[k / 2] - a[k / 2] % 0x1_0000 + x]
  }

  /** The number in the lowest i half words. */
  function LowHalves(a: seq<Word>, i: nat): nat
    requires i <= 2 * |a|
  {
    if i == 0 then 0 else LowHalves(a, i - 1) + Half(a, i - 1) * P16(i - 1)
  }

  // ----- Arithmetic -----

  lemma {:induction false} P16Add(m: nat, n: nat)
    ensures P16(m + n) == P16(m) * P16(n)
    decreases m
  {
    if m > 0 {
      P16Add(m - 1, n);
      assert P16(m + n) == 0x1_0000 * P16(m - 1 + n);
    }
  }

  lemma {:induction false} P16IsPow(n: nat)
    ensures P16(2 * n) == Pow(n)
  {
    if n > 0 {
      P16IsPow(n - 1);
      assert P16(2 * n) == 0x1_0000 * P16(2 * n - 1) == 0x1_0000 * (0x1_0000 * P16(2 * (n - 1)));
    }
  }

  lemma {:induction false} P16Mono(m: nat, n: nat)
    requires m <= n
    ensures P16(m) <= P16(n)
    decreases n
  {
    if m < n {
      P16Mono(m, n - 1);
    }
  }

  lemma HalfUp(a: seq<Word>, k: nat)
    requires 2 <= k < 2 * |a|
    ensures Half(a, k) == Half(a[1..], k - 2)
  {
  }

  lemma {:induction false} LowHalvesUp(a: seq<Word>, i: nat)
    requires 2 <= i <= 2 * |a|
    ensures LowHalves(a, i) == a[0] + 0x1_0000_0000 * LowHalves(a[1..], i - 2)
    decreases i
  {
    if i == 2 {
      assert LowHalves(a, 2) == LowHalves(a, 1) + Half(a, 1) * P16(1);
      assert LowHalves(a, 1) == Half(a, 0) * P16(0);
      assert P16(1) == 0x1_0000;
    } else {
      LowHalvesUp(a, i - 1);
      HalfUp(a, i - 1);
      assert P16(i - 1) == 0x1_0000 * P16(i - 2) == 0x1_0000_0000 * P16(i - 3);
      Scale(Half(a, i - 1), P16(i - 3));
    }
  }

  lemma Scale(x: int, p: int)
    ensures x * (0x1_0000_0000 * p) == 0x1_0000_0000 * (x * p)
  {
  }

  lemma {:induction false} AllHalves(a: seq<Word>)
    ensures LowHalves(a, 2 * |a|) == Value(a)
    decreases |a|
  {
    if a != [] {
      AllHalves(a[1..]);
      LowHalvesUp(a, 2 * |a|);
    }
  }

  lemma {:induction false} LowHalvesMono(a: seq<Word>, i: nat, j: nat)
    requires i <= j <= 2 * |a|
    ensures LowHalves(a, i) <= LowHalves(a, j)
    decreases j
  {
    if i < j {
      LowHalvesMono(a, i, j - 1);
      NonNegative(Half(a, j - 1), P16(j - 1));
    }
  }

  lemma NonNegative(x: nat, y: nat)
    ensures x * y >= 0
  {
  }

  /** Storing a half word changes the number by the difference, at its place. */
  lemma {:induction false} SetHalfValue(a: seq<Word>, k: nat, x: int)
    requires k < 2 * |a| && 0 <= x < 0x1_0000
    ensures Value(SetHalf(a, k, x)) == Value(a) + (x - Half(a, k)) * P16(k)
    decreases k
  {
    hide Pow;
    var r := SetHalf(a, k, x);
    if k < 2 {
      assert r[1..] == a[1..];
      assert P16(1) == 0x1_0000 && P16(0) == 1;
    } else {
      SetHalfValue(a[1..], k - 2, x);
      HalfUp(a, k);
      assert r[1..] == SetHalf(a[1..], k - 2, x) && r[0] == a[0];
      assert P16(k) == 0x1_0000 * P16(k - 1) == 0x1_0000_0000 * P16(k - 2);
      Scale(x - Half(a, k), P16(k - 2));
    }
  }

  lemma CarrySplit(v: nat, lo: nat, hi: nat, h: nat, s: nat, c: nat, p: nat)
    requires v == lo + 0x1_0000 * hi && h + lo == s + 0x1_0000 * c
    ensures (s - h) * p + (hi + c) * (0x1_0000 * p) == v * p
  {
    assert s - h == lo - 0x1_0000 * c;
    assert (s - h) * p + (hi + c) * (0x1_0000 * p) == (s - h + 0x1_0000 * (hi + c)) * p;
  }

  lemma AtLeastOnce(t: nat, p: nat)
    ensures t >= 1 ==> t * p >= p
  {
  }

  // ----- The loops -----

  function GetShort(x: array<Word>, l: nat): (h: int)
    requires l / 2 < x.Length
    reads x
    ensures l < 2 * x.Length && h == Half(x[..], l)
  {
    if l % 2 == 1 then x[l / 2] / 0x1_0000 else x[l / 2] % 0x1_0000
  }

  method SetShort(x: array<Word>, y: int, l: nat)
    requires l / 2 < x.Length && 0 <= y < 0x1_0000
    modifies x
    ensures x[..] == SetHalf(old(x[..]), l, y)
  {
    if l % 2 == 1 {
      x[l / 2] := x[l / 2] % 0x1_0000 + 0x1_0000 * y;
    } else {
      x[l / 2] := x[l / 2] - x[l / 2] % 0x1_0000 + y;
    }
  }

  lemma SetInPrefix(a: seq<Word>, w: nat, k: nat, y: int)
    requires k < 2 * w && w <= |a| && 0 <= y < 0x1_0000
    ensures SetHalf(a, k, y)[..w] == SetHalf(a[..w], k, y) && SetHalf(a, k, y)[w..] == a[w..]
    ensures Half(a, k) == Half(a[..w], k)
  {
  }

  /** Adds `h` to half word k and stores it, for a sum below 2^32; returns the part above. */
  method AddShort(ar: array<Word>, w: nat, k: nat, x: Word) returns (c: Word)
    requires w <= ar.Length && k < 2 * w && x < 0x1_0000
    modifies ar
    ensures ar[w..] == old(ar[w..]) && c <= 1
    ensures Value(ar[..w]) + c * P16(k + 1) == old(Value(ar[..w])) + x * P16(k)
  {
    hide Value, P16, SetHalf, Half;
    ghost var before := ar[..];
    var t2: Word := GetShort(ar, k) + x;
    SetInPrefix(before, w, k, t2 % 0x1_0000);
    SetHalfValue(before[..w], k, t2 % 0x1_0000);
    SetShort(ar, t2 % 0x1_0000, k);
    c := t2 / 0x1_0000;
    NextP16(k);
    CarrySplit(x, x, 0, Half(before, k), t2 % 0x1_0000, c, P16(k));
  }

  lemma NextP16(k: nat)
    ensures P16(k + 1) == 0x1_0000 * P16(k)
  {
  }

  /** Adds the product v at half word k, with its carry, into the w words of the result. */
  method AddProduct(ar: array<Word>, w: nat, first: nat, v: Word)
    requires w <= ar.Length && first < 2 * w && v <= 0xfffe_0001 && Value(ar[..w]) + v * P16(first) < Pow(w)
    modifies ar
    ensures ar[w..] == old(ar[w..])
    ensures Value(ar[..w]) == old(Value(ar[..w])) + v * P16(first)
  {
    hide Value, Pow, P16;
    ghost var target := Value(ar[..w]) + v * P16(first);
    ghost var start := Value(ar[..w]);
    P16IsPow(w);
    var k := first;
    var c := AddShort(ar, w, k, v % 0x1_0000);
    var t1: Word := v / 0x1_0000 + c;
    NextP16(k);
    CarrySplit(v, v % 0x1_0000, v / 0x1_0000, 0, v % 0x1_0000, 0, P16(k));
    Distribute(v / 0x1_0000, c, P16(k + 1));
    k := k + 1;
    while t1 != 0 && k <= 2 * w
      invariant k <= 2 * w && 0 <= t1 < 0x1_0000 && ar[w..] == old(ar[w..])
      invariant Value(ar[..w]) + t1 * P16(k) == target
      decreases 2 * w + 1 - k
    {
      AtLeastOnce(t1, P16(k));
      t1 := AddShort(ar, w, k, t1);
      k := k + 1;
    }
    AtLeastOnce(t1, P16(k));
  }

  lemma Distribute(x: int, y: int, p: int)
    ensures (x + y) * p == x * p + y * p
  {
  }

  lemma HalfProduct(x: nat, y: nat)
    requires x < 0x1_0000 && y < 0x1_0000
    ensures 0 <= x * y <= 0xfffe_0001
  {
    MulMono(x, 0xffff, y);
    NonNegative(x, y);
  }

  /** Adding x*y at place i+j completes x*(one more half word) at place i. */
  lemma RowStep(b: int, x: int, p: int, l: int, y: int, q: int)
    ensures b + x * p * l + (x * y) * (p * q) == b + x * p * (l + y * q)
  {
    assert (x * y) * (p * q) == x * p * (y * q);
  }

  /** The partial product up to half word i of A0, and of its row up to half word j of A1. */
  ghost function Partial(a: seq<Word>, b: seq<Word>, i: nat, j: nat): int
    requires i < 2 * |a| && j <= 2 * |b|
  {
    LowHalves(a, i) * Value(b) + Half(a, i) * P16(i) * LowHalves(b, j)
  }

  lemma PartialStep(a: seq<Word>, b: seq<Word>, i: nat, j: nat)
    requires i < 2 * |a| && j < 2 * |b|
    ensures Partial(a, b, i, j + 1) == Partial(a, b, i, j) + (Half(a, i) * Half(b, j)) * P16(i + j)
  {
    P16Add(i, j);
    RowStep(LowHalves(a, i) * Value(b), Half(a, i), P16(i), LowHalves(b, j), Half(b, j), P16(j));
  }

  lemma RowDone(a: seq<Word>, b: seq<Word>, i: nat)
    requires i < 2 * |a|
    ensures Partial(a, b, i, 2 * |b|) == LowHalves(a, i + 1) * Value(b)
    ensures Partial(a, b, i, 0) == LowHalves(a, i) * Value(b)
  {
    AllHalves(b);
    Distribute(LowHalves(a, i), Half(a, i) * P16(i), Value(b));
  }

  /** No partial product exceeds the product. */
  lemma {:induction false} PartialBelow(a: seq<Word>, b: seq<Word>, i: nat, j: nat)
    requires i < 2 * |a| && j <= 2 * |b|
    ensures Partial(a, b, i, j) <= Value(a) * Value(b)
    decreases 2 * |b| - j
  {
    hide Value, P16, Half;
    if j < 2 * |b| {
      PartialBelow(a, b, i, j + 1);
      PartialStep(a, b, i, j);
      NonNegative(Half(a, i), Half(b, j));
      NonNegative(Half(a, i) * Half(b, j), P16(i + j));
    } else {
      RowDone(a, b, i);
      AllHalves(a);
      LowHalvesMono(a, i + 1, 2 * |a|);
      MulMono(LowHalves(a, i + 1), Value(a), Value(b));
    }
  }

  lemma MulMono(x: nat, y: nat, z: nat)
    requires x <= y
    ensures x * z <= y * z
  {
  }

  /** One row: half word i of A0 times all of A1, added at place i. */
  method AddRow(ar: array<Word>, w: nat, a0: array<Word>, w0: nat, a1: array<Word>, w1: nat, i: nat)
    requires w <= ar.Length && w0 <= a0.Length && w1 <= a1.Length && i < 2 * w0 && ar != a0 && ar != a1
    requires Value(a0[..w0]) * Value(a1[..w1]) < Pow(w)
    requires Value(ar[..w]) == LowHalves(a0[..w0], i) * Value(a1[..w1])
    modifies ar
    ensures ar[w..] == old(ar[w..])
    ensures Value(ar[..w]) == LowHalves(a0[..w0], i + 1) * Value(a1[..w1])
  {
    hide Value, Pow, P16, Half, LowHalves, Partial;
    ghost var a, b := a0[..w0], a1[..w1];
    var t0 := GetShort(a0, i);
    SetInPrefix(a0[..], w0, i, 0);
    RowDone(a, b, i);
    for j := 0 to 2 * w1
      invariant Value(ar[..w]) == Partial(a, b, i, j) && ar[w..] == old(ar[w..])
    {
      var t1 := GetShort(a1, j);
      SetInPrefix(a1[..], w1, j, 0);
      PartialStep(a, b, i, j);
      PartialBelow(a, b, i, j + 1);
      if t0 != 0 && t1 != 0 {
        HalfProduct(t0, t1);
        ProductInside(t0 * t1, i + j, w, Value(ar[..w]));
        AddProduct(ar, w, i + j, t0 * t1);
      }
    }
  }

  /** A non-zero product that fits starts inside the result. */
  lemma ProductInside(v: nat, k: nat, w: nat, have: nat)
    requires v >= 1 && have + v * P16(k) < Pow(w)
    ensures k < 2 * w
  {
    if k >= 2 * w {
      P16IsPow(w);
      P16Mono(2 * w, k);
      AtLeastOnce(v, P16(k));
    }
  }

  /** With no x or z and room for the product in the result, `times` leaves exactly the product. */
  method Times(ar: array<Word>, br: array<Word>, sr: nat,
               a0: array<Word>, b0: array<Word>, s0: nat, a1: array<Word>, b1: array<Word>, s1: nat)
    requires sr > 0 && LastWord(sr) < ar.Length && LastWord(sr) < br.Length
    requires s0 > 0 && LastWord(s0) < a0.Length && LastWord(s0) < b0.Length
    requires s1 > 0 && LastWord(s1) < a1.Length && LastWord(s1) < b1.Length
    requires ar != br && ar !in {a0, a1, b0, b1} && br !in {a0, a1, b0, b1}
    requires !AnySet(Used(b0, s0)) && !AnySet(Used(b1, s1)) ==>
      Value(Used(a0, s0)) * Value(Used(a1, s1)) < Pow2(sr)
    modifies ar, br
    ensures ar[LastWord(sr) + 1..] == old(ar[LastWord(sr) + 1..])
            && br[LastWord(sr) + 1..] == old(br[LastWord(sr) + 1..])
    ensures if AnySet(Used(b0, s0)) || AnySet(Used(b1, s1)) then
              Value(Used(ar, sr)) == Value(Used(br, sr)) == Pow2(sr) - 1
            else
              Value(Used(ar, sr)) == Value(Used(a0, s0)) * Value(Used(a1, s1))
                && Used(br, sr) == Zeros(LastWord(sr) + 1)
  {
    hide Value, Pow, Pow2, Top, LastWord;
    var w0, w1, wr := LastWord(s0) + 1, LastWord(s1) + 1, LastWord(sr) + 1;
    var t0 := FindSet(b0, s0);
    if !t0 {
      t0 := FindSet(b1, s1);
    }
    if t0 {
      BitSum.SetAllX(ar, br, sr);
    } else {
      for i := 0 to wr
        invariant forall k | 0 <= k < i :: ar[k] == 0 && br[k] == 0
        invariant forall k | i <= k < ar.Length :: ar[k] == old(ar[k])
        invariant forall k | i <= k < br.Length :: br[k] == old(br[k])
      {
        ar[i] := 0;
        br[i] := 0;
      }
      SizeInWords(sr);
      Rows(ar, wr, a0, w0, a1, w1);
      MaskedSame(ar[..wr], sr);
      ar[wr - 1] := ar[wr - 1] % Top(sr);
    }
  }

  /** The nested loops, on a cleared result. */
  method Rows(ar: array<Word>, wr: nat, a0: array<Word>, w0: nat, a1: array<Word>, w1: nat)
    requires wr <= ar.Length && w0 <= a0.Length && w1 <= a1.Length && ar != a0 && ar != a1
    requires ar[..wr] == Zeros(wr) && Value(a0[..w0]) * Value(a1[..w1]) < Pow(wr)
    modifies ar
    ensures ar[wr..] == old(ar[wr..])
    ensures Value(ar[..wr]) == Value(a0[..w0]) * Value(a1[..w1])
  {
    hide Value, Pow, P16, Half;
    ValueZero(ar[..wr]);
    for i := 0 to 2 * w0
      invariant ar[wr..] == old(ar[wr..]) && Value(ar[..wr]) == LowHalves(a0[..w0], i) * Value(a1[..w1])
    {
      AddRow(ar, wr, a0, w0, a1, w1, i);
    }
    AllHalves(a0[..w0]);
  }

  /** A result as wide as both operands together has room for the product. */
  lemma ProductFits(a: seq<Word>, s0: nat, b: seq<Word>, s1: nat, sr: nat)
    requires Value(a) < Pow2(s0) && Value(b) < Pow2(s1) && s0 + s1 <= sr
    ensures Value(a) * Value(b) < Pow2(sr)
  {
    hide Value, Pow2;
    Pow2Add(s0, s1);
    Pow2Mono(s0 + s1, sr);
    MulStrict(Value(a), Pow2(s0), Value(b), Pow2(s1));
  }

  lemma MulStrict(x: nat, p: nat, y: nat, q: nat)
    requires x < p && y < q
    ensures x * y < p * q
  {
    MulMono(x, p, y);
    MulMono(y, q - 1, p);
    Distribute(q - 1, 1, p);
  }
}
