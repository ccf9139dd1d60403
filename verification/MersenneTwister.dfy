/**
The random number generator: the words are regenerated 624 at a time in place, each from words
of which some are already new. Over every run the generator follows the infinite recurrence
x(k+624) = x(k+397) xor ((upper(x(k)) | lower(x(k+1))) A), from any seed.
*/
module MersenneTwister {
  import Words

  type Word = Words.Word

  const N := 624
  const M := 397
  const MATRIX_A: bv32 := 0x9908b0df
  const UPPER_MASK: bv32 := 0x80000000
  const LOWER_MASK: bv32 := 0x7fffffff
  const TEMPERING_MASK_B: bv32 := 0x9d2c5680
  const TEMPERING_MASK_C: bv32 := 0xefc60000

  /** The product with the matrix of the upper bit of u joined to the lower bits of v, onto w. */
  function Twist(u: bv32, v: bv32, w: bv32): bv32 {
    var y := (u & UPPER_MASK) | (v & LOWER_MASK);
    w ^ (y >> 1) ^ (if y & 1 == 1 then MATRIX_A else 0)
  }

  function ShiftU(y: bv32): bv32 { y ^ (y >> 11) }

  function ShiftS(y: bv32): bv32 { y ^ ((y << 7) & TEMPERING_MASK_B) }

  function ShiftT(y: bv32): bv32 { y ^ ((y << 15) & TEMPERING_MASK_C) }

  function ShiftL(y: bv32): bv32 { y ^ (y >> 18) }

  function Temper(x: bv32): bv32 { ShiftL(ShiftT(ShiftS(ShiftU(x)))) }

  // ----- The two functions, bit by bit -----

  // Each bit of the tempered word is the parity of these bits of the term.

  lemma TemperBits0(x: bv32)
    ensures Temper(x) & 1 == (x ^ (x >> 3) ^ (x >> 14) ^ (x >> 18) ^ (x >> 22) ^ (x >> 29)) & 1
    ensures (Temper(x) >> 1) & 1 == ((x >> 1) ^ (x >> 19) ^ (x >> 23) ^ (x >> 30)) & 1
    ensures (Temper(x) >> 2) & 1 == ((x >> 2) ^ (x >> 13) ^ (x >> 20) ^ (x >> 31)) & 1
    ensures (Temper(x) >> 3) & 1 == ((x >> 3) ^ (x >> 21) ^ (x >> 25)) & 1
  {
  }

  lemma TemperBits4(x: bv32)
    ensures (Temper(x) >> 4) & 1 == (x ^ (x >> 4) ^ (x >> 7) ^ (x >> 11) ^ (x >> 15) ^ (x >> 18) ^ (x >> 22)) & 1
    ensures (Temper(x) >> 5) & 1 == ((x >> 5) ^ (x >> 8) ^ (x >> 16) ^ (x >> 19) ^ (x >> 23)) & 1
    ensures (Temper(x) >> 6) & 1 == ((x >> 2) ^ (x >> 6) ^ (x >> 9) ^ (x >> 13) ^ (x >> 20) ^ (x >> 24) ^ (x >> 28)) & 1
    ensures (Temper(x) >> 7) & 1
            == (x ^ (x >> 3) ^ (x >> 7) ^ (x >> 10) ^ (x >> 11) ^ (x >> 14) ^ (x >> 18) ^ (x >> 21) ^ (x >> 25)) & 1
  {
  }

  lemma TemperBits8(x: bv32)
    ensures (Temper(x) >> 8) & 1 == ((x >> 8) ^ (x >> 11) ^ (x >> 22) ^ (x >> 26) ^ (x >> 30)) & 1
    ensures (Temper(x) >> 9) & 1
            == ((x >> 2) ^ (x >> 5) ^ (x >> 9) ^ (x >> 12) ^ (x >> 13) ^ (x >> 16) ^ (x >> 23) ^ (x >> 27)
                ^ (x >> 31)) & 1
    ensures (Temper(x) >> 10) & 1 == ((x >> 3) ^ (x >> 10) ^ (x >> 14) ^ (x >> 28)) & 1
    ensures (Temper(x) >> 11) & 1
            == ((x >> 7) ^ (x >> 11) ^ (x >> 14) ^ (x >> 18) ^ (x >> 22) ^ (x >> 25) ^ (x >> 29)) & 1
  {
  }

  lemma TemperBits12(x: bv32)
    ensures (Temper(x) >> 12) & 1
            == ((x >> 5) ^ (x >> 12) ^ (x >> 15) ^ (x >> 16) ^ (x >> 23) ^ (x >> 26) ^ (x >> 30)) & 1
    ensures (Temper(x) >> 13) & 1 == ((x >> 13) ^ (x >> 16) ^ (x >> 27) ^ (x >> 31)) & 1
    ensures (Temper(x) >> 14) & 1 == ((x >> 7) ^ (x >> 14) ^ (x >> 18) ^ (x >> 25)) & 1
    ensures (Temper(x) >> 15) & 1 == ((x >> 15) ^ (x >> 26)) & 1
  {
  }

  lemma TemperBits16(x: bv32)
    ensures (Temper(x) >> 16) & 1 == ((x >> 16) ^ (x >> 27)) & 1
    ensures (Temper(x) >> 17) & 1 == ((x >> 2) ^ (x >> 13) ^ (x >> 17) ^ (x >> 28)) & 1
    ensures (Temper(x) >> 18) & 1 == ((x >> 3) ^ (x >> 11) ^ (x >> 14) ^ (x >> 18) ^ (x >> 22) ^ (x >> 29)) & 1
    ensures (Temper(x) >> 19) & 1 == ((x >> 12) ^ (x >> 19) ^ (x >> 23) ^ (x >> 30)) & 1
  {
  }

  lemma TemperBits20(x: bv32)
    ensures (Temper(x) >> 20) & 1 == ((x >> 20) ^ (x >> 31)) & 1
    ensures (Temper(x) >> 21) & 1 == ((x >> 14) ^ (x >> 21) ^ (x >> 25)) & 1
    ensures (Temper(x) >> 22) & 1 == (x ^ (x >> 7) ^ (x >> 11) ^ (x >> 18) ^ (x >> 22)) & 1
    ensures (Temper(x) >> 23) & 1 == ((x >> 8) ^ (x >> 19) ^ (x >> 23)) & 1
  {
  }

  lemma TemperBits24(x: bv32)
    ensures (Temper(x) >> 24) & 1
            == ((x >> 2) ^ (x >> 9) ^ (x >> 13) ^ (x >> 17) ^ (x >> 20) ^ (x >> 24) ^ (x >> 28)) & 1
    ensures (Temper(x) >> 25) & 1 == ((x >> 3) ^ (x >> 10) ^ (x >> 14) ^ (x >> 21) ^ (x >> 25)) & 1
    ensures (Temper(x) >> 26) & 1 == ((x >> 11) ^ (x >> 19) ^ (x >> 22) ^ (x >> 26) ^ (x >> 30)) & 1
    ensures (Temper(x) >> 27) & 1
            == ((x >> 5) ^ (x >> 12) ^ (x >> 16) ^ (x >> 20) ^ (x >> 23) ^ (x >> 27) ^ (x >> 31)) & 1
  {
  }

  lemma TemperBits28(x: bv32)
    ensures (Temper(x) >> 28) & 1 == ((x >> 21) ^ (x >> 28)) & 1
    ensures (Temper(x) >> 29) & 1 == ((x >> 7) ^ (x >> 14) ^ (x >> 18) ^ (x >> 25) ^ (x >> 29)) & 1
    ensures (Temper(x) >> 30) & 1 == ((x >> 15) ^ (x >> 26) ^ (x >> 30)) & 1
    ensures (Temper(x) >> 31) & 1 == ((x >> 16) ^ (x >> 24) ^ (x >> 27) ^ (x >> 31)) & 1
  {
  }

  // Each bit of the next word: the bit of w; above it the bits of v, and on top the highest of u; and
  // the lowest bit of v wherever the row of the matrix has a one.

  lemma TwistBits0(u: bv32, v: bv32, w: bv32)
    ensures Twist(u, v, w) & 1 == (w ^ (v >> 1) ^ v) & 1
    ensures (Twist(u, v, w) >> 1) & 1 == ((w >> 1) ^ (v >> 2) ^ v) & 1
    ensures (Twist(u, v, w) >> 2) & 1 == ((w >> 2) ^ (v >> 3) ^ v) & 1
    ensures (Twist(u, v, w) >> 3) & 1 == ((w >> 3) ^ (v >> 4) ^ v) & 1
    ensures (Twist(u, v, w) >> 4) & 1 == ((w >> 4) ^ (v >> 5) ^ v) & 1
    ensures (Twist(u, v, w) >> 5) & 1 == ((w >> 5) ^ (v >> 6)) & 1
    ensures (Twist(u, v, w) >> 6) & 1 == ((w >> 6) ^ (v >> 7) ^ v) & 1
    ensures (Twist(u, v, w) >> 7) & 1 == ((w >> 7) ^ (v >> 8) ^ v) & 1
  {
  }

  lemma TwistBits8(u: bv32, v: bv32, w: bv32)
    ensures (Twist(u, v, w) >> 8) & 1 == ((w >> 8) ^ (v >> 9)) & 1
    ensures (Twist(u, v, w) >> 9) & 1 == ((w >> 9) ^ (v >> 10)) & 1
    ensures (Twist(u, v, w) >> 10) & 1 == ((w >> 10) ^ (v >> 11)) & 1
    ensures (Twist(u, v, w) >> 11) & 1 == ((w >> 11) ^ (v >> 12)) & 1
    ensures (Twist(u, v, w) >> 12) & 1 == ((w >> 12) ^ (v >> 13) ^ v) & 1
    ensures (Twist(u, v, w) >> 13) & 1 == ((w >> 13) ^ (v >> 14) ^ v) & 1
    ensures (Twist(u, v, w) >> 14) & 1 == ((w >> 14) ^ (v >> 15)) & 1
    ensures (Twist(u, v, w) >> 15) & 1 == ((w >> 15) ^ (v >> 16) ^ v) & 1
  {
  }

  lemma TwistBits16(u: bv32, v: bv32, w: bv32)
    ensures (Twist(u, v, w) >> 16) & 1 == ((w >> 16) ^ (v >> 17)) & 1
    ensures (Twist(u, v, w) >> 17) & 1 == ((w >> 17) ^ (v >> 18)) & 1
    ensures (Twist(u, v, w) >> 18) & 1 == ((w >> 18) ^ (v >> 19)) & 1
    ensures (Twist(u, v, w) >> 19) & 1 == ((w >> 19) ^ (v >> 20) ^ v) & 1
    ensures (Twist(u, v, w) >> 20) & 1 == ((w >> 20) ^ (v >> 21)) & 1
    ensures (Twist(u, v, w) >> 21) & 1 == ((w >> 21) ^ (v >> 22)) & 1
    ensures (Twist(u, v, w) >> 22) & 1 == ((w >> 22) ^ (v >> 23)) & 1
    ensures (Twist(u, v, w) >> 23) & 1 == ((w >> 23) ^ (v >> 24)) & 1
  {
  }

  lemma TwistBits24(u: bv32, v: bv32, w: bv32)
    ensures (Twist(u, v, w) >> 24) & 1 == ((w >> 24) ^ (v >> 25) ^ v) & 1
    ensures (Twist(u, v, w) >> 25) & 1 == ((w >> 25) ^ (v >> 26)) & 1
    ensures (Twist(u, v, w) >> 26) & 1 == ((w >> 26) ^ (v >> 27)) & 1
    ensures (Twist(u, v, w) >> 27) & 1 == ((w >> 27) ^ (v >> 28) ^ v) & 1
    ensures (Twist(u, v, w) >> 28) & 1 == ((w >> 28) ^ (v >> 29) ^ v) & 1
    ensures (Twist(u, v, w) >> 29) & 1 == ((w >> 29) ^ (v >> 30)) & 1
    ensures (Twist(u, v, w) >> 30) & 1 == ((w >> 30) ^ (u >> 31)) & 1
    ensures (Twist(u, v, w) >> 31) & 1 == ((w >> 31) ^ v) & 1
  {
  }

  /** Term k of the infinite sequence that starts with the seed words. */
  function Term(seed: seq<bv32>, k: nat): bv32
    requires |seed| == N
  {
    if k < N then seed[k]
    else Twist(Term(seed, k - N), Term(seed, k - N + 1), Term(seed, k - N + M))
  }

  /** The recurrence: 624 given words, and each further one from the words 624, 623 and 227 before it. */
  lemma TermIs(seed: seq<bv32>, k: nat)
    requires |seed| == 624
    ensures k < 624 ==> Term(seed, k) == seed[k]
    ensures Term(seed, k + 624) == Twist(Term(seed, k), Term(seed, k + 1), Term(seed, k + 397))
  {
    hide Twist;
    TermNext(seed, k);
  }

  // ----- Seeding by one word, which is taken as a number -----

  function Lcg(s: Word): Word { (69069 * s + 1) % 0x1_0000_0000 }

  /** The k-th number of the linear congruential generator that spreads a one-word seed. */
  function Spread(seed: Word, k: nat): Word {
    if k == 0 then seed else Lcg(Spread(seed, k - 1))
  }

  /** s & 0xffff0000 */
  function High(s: Word): (r: Word)
    ensures r % 0x1_0000 == 0 && r <= 0xffff_0000 && r / 0x1_0000 == s / 0x1_0000
  {
    s - s % 0x1_0000
  }

  /** (s & 0xffff0000) >> 16 */
  function Low(s: Word): (r: Word)
    ensures r <= 0xffff
  {
    s / 0x1_0000
  }

  /** Word i of the state seeded by one word: the upper halves of two numbers in a row. */
  function SeedWord(seed: Word, i: nat): Word {
    hide Spread, High, Low;
    High(Spread(seed, 2 * i)) + Low(Spread(seed, 2 * i + 1))
  }

  function SeedWords(seed: Word): seq<bv32> { seq(N, i requires 0 <= i < N => SeedWord(seed, i) as bv32) }

  lemma SeedWordsAre(seed: Word, i: nat)
    requires i < 624
    ensures |SeedWords(seed)| == 624 && SeedWords(seed)[i] == SeedWord(seed, i) as bv32
  {
    hide SeedWord;
  }

  /** 69069^k */
  function Factor(k: nat): nat { if k == 0 then 1 else 69069 * Factor(k - 1) }

  /** The sum of the powers below. */
  function Summand(k: nat): nat { if k == 0 then 0 else 69069 * Summand(k - 1) + 1 }

  lemma {:induction false} SummandIs(k: nat)
    ensures Factor(k) == 69068 * Summand(k) + 1
  {
    if k > 0 {
      SummandIs(k - 1);
    }
  }

  function Unreduced(seed: Word, k: nat): nat { Factor(k) * seed + Summand(k) }

  /** The k-th number in closed form. */
  lemma SpreadIs(seed: Word, k: nat)
    ensures Spread(seed, k) == (Factor(k) * seed + Summand(k)) % 0x1_0000_0000
  {
    hide Spread, Factor, Summand;
    SpreadIsReduced(seed, k);
  }

  lemma {:induction false} SpreadIsReduced(seed: Word, k: nat)
    ensures Spread(seed, k) == Unreduced(seed, k) % 0x1_0000_0000
  {
    hide Spread, Lcg, Factor, Summand, Unreduced;
    if k > 0 {
      SpreadIsReduced(seed, k - 1);
      SpreadNext(seed, k - 1);
      FactorStep(seed, k);
      LcgIs(Unreduced(seed, k - 1));
    } else {
      SpreadZero(seed);
      SmallMod(seed);
    }
  }

  lemma FactorStep(seed: Word, k: nat)
    requires k > 0
    ensures Unreduced(seed, k) == 69069 * Unreduced(seed, k - 1) + 1
  {
    assert (69069 * Factor(k - 1)) * seed == 69069 * (Factor(k - 1) * seed);
  }

  lemma LcgIs(x: int)
    ensures Lcg(x % 0x1_0000_0000) == (69069 * x + 1) % 0x1_0000_0000
  {
    StepOfSum(x);
  }

  lemma SmallMod(x: Word)
    ensures x % 0x1_0000_0000 == x == Unreduced(x, 0)
  {
  }

  lemma StepOfSum(x: int)
    ensures (69069 * (x % 0x1_0000_0000) + 1) % 0x1_0000_0000 == (69069 * x + 1) % 0x1_0000_0000
  {
    var q, r := x / 0x1_0000_0000, x % 0x1_0000_0000;
    Words.ModShift(69069 * r + 1, 69069 * q, 0x1_0000_0000);
  }

  /** A word of the state has the upper half of one number, and below it that of the next. */
  lemma SeedWordHalves(seed: Word, i: nat)
    ensures SeedWord(seed, i) / 0x1_0000 == Spread(seed, 2 * i) / 0x1_0000
    ensures SeedWord(seed, i) % 0x1_0000 == Spread(seed, 2 * i + 1) / 0x1_0000
  {
    SeedWordIs(seed, i);
    var h, l := High(Spread(seed, 2 * i)), Low(Spread(seed, 2 * i + 1));
    assert l == Spread(seed, 2 * i + 1) / 0x1_0000;
    hide Spread, High, Low, SeedWord;
    Halves(h, l);
  }

  lemma Halves(h: Word, l: Word)
    requires h % 0x1_0000 == 0 && l < 0x1_0000
    ensures (h + l) / 0x1_0000 == h / 0x1_0000 && (h + l) % 0x1_0000 == l
  {
  }

  class Generator {
    const mt: array<bv32>
    var mti: nat
    // the words that the state was seeded with, and how many numbers have been drawn since
    ghost var seed: seq<bv32>
    ghost var drawn: nat

    /** The state holds the 624 terms that the next number lies in, or has just gone past; N + 1
        in mti means that it has not been seeded. */
    ghost predicate Valid()
      reads this, mt
    {
      && mt.Length == N && |seed| == N && mti <= N + 1
      && if mti == N + 1 then seed == SeedWords(4357) && drawn == 0
         else forall i | 0 <= i < N :: mt[i] == Term(seed, drawn + N - mti + i)
    }

    constructor ()
      ensures Valid() && seed == SeedWords(4357) && drawn == 0
      ensures fresh(mt)
    {
      mt := new bv32[N];
      mti := N + 1;
      seed, drawn := SeedWords(4357), 0;
    }

    /** `sgenrand` */
    method Seed(s: Word)
      requires mt.Length == N
      modifies this, mt
      ensures Valid() && seed == SeedWords(s) && drawn == 0 && mti == N
    {
      hide Spread, Lcg, High, Low, SeedWord;
      var next := s;
      SpreadZero(s);
      for i := 0 to N
        invariant next == Spread(s, 2 * i)
        invariant forall k | 0 <= k < i :: mt[k] == SeedWord(s, k) as bv32
      {
        var word := High(next);
        SpreadNext(s, 2 * i);
        next := Lcg(next);
        SeedWordIs(s, i);
        mt[i] := (word + Low(next)) as bv32;
        SpreadNext(s, 2 * i + 1);
        next := Lcg(next);
      }
      mti := N;
      seed, drawn := SeedWords(s), 0;
    }

    /** `lsgenrand` */
    method SeedAll(words: array<bv32>)
      requires mt.Length == N && words.Length >= N && words != mt
      modifies this, mt
      ensures Valid() && seed == words[..N] && drawn == 0 && mti == N
    {
      for i := 0 to N
        invariant mt[..i] == words[..i]
      {
        mt[i] := words[i];
      }
      mti := N;
      seed, drawn := words[..N], 0;
      assert forall i | 0 <= i < N :: mt[i] == mt[..N][i];
    }

    /** The next 624 terms, computed in place in three stretches. */
    method Regenerate(ghost base: nat)
      requires mt.Length == N && |seed| == N && forall i | 0 <= i < N :: mt[i] == Term(seed, base + i)
      modifies mt
      ensures forall i | 0 <= i < N :: mt[i] == Term(seed, base + N + i)
    {
      hide Term, Twist;
      var kk := 0;
      while kk < N - M
        invariant 0 <= kk <= N - M
        invariant forall i | 0 <= i < kk :: mt[i] == Term(seed, base + N + i)
        invariant forall i | kk <= i < N :: mt[i] == Term(seed, base + i)
      {
        TermNext(seed, base + kk);
        mt[kk] := Twist(mt[kk], mt[kk + 1], mt[kk + M]);
        kk := kk + 1;
      }
      while kk < N - 1
        invariant N - M <= kk <= N - 1
        invariant forall i | 0 <= i < kk :: mt[i] == Term(seed, base + N + i)
        invariant forall i | kk <= i < N :: mt[i] == Term(seed, base + i)
      {
        TermNext(seed, base + kk);
        assert base + N + (kk + M - N) == base + kk + M;
        mt[kk] := Twist(mt[kk], mt[kk + 1], mt[kk + M - N]);
        kk := kk + 1;
      }
      TermNext(seed, base + N - 1);
      assert mt[0] == Term(seed, base + N - 1 + 1) && mt[M - 1] == Term(seed, base + N - 1 + M);
      mt[N - 1] := Twist(mt[N - 1], mt[0], mt[M - 1]);
    }

    /** `genrand`: call t after seeding, counted from 0, returns the tempered term 624 + t. */
    method Next() returns (y: bv32)
      requires Valid()
      modifies this, mt
      ensures Valid() && seed == old(seed) && drawn == old(drawn) + 1
      ensures y == Temper(Term(seed, N + old(drawn)))
    {
      hide Term, ShiftU, ShiftS, ShiftT, ShiftL, SeedWords;
      if mti >= N {
        if mti == N + 1 {
          Seed(4357);
        }
        Regenerate(drawn);
        mti := 0;
      }
      y := mt[mti];
      mti := mti + 1;
      drawn := drawn + 1;
      y := ShiftU(y);
      y := ShiftS(y);
      y := ShiftT(y);
      y := ShiftL(y);
    }

    /** Any number of calls: the numbers returned are the tempered terms in a row. */
    method Draw(n: nat) returns (ys: seq<bv32>)
      requires Valid()
      modifies this, mt
      ensures Valid() && seed == old(seed) && drawn == old(drawn) + n
      ensures |ys| == n && forall t | 0 <= t < n :: ys[t] == Temper(Term(seed, N + old(drawn) + t))
    {
      hide Term, Temper;
      ys := [];
      while |ys| < n
        invariant |ys| <= n && Valid() && seed == old(seed) && drawn == old(drawn) + |ys|
        invariant forall t | 0 <= t < |ys| :: ys[t] == Temper(Term(seed, N + old(drawn) + t))
      {
        var y := Next();
        ys := ys + [y];
      }
    }
  }

  lemma SpreadZero(s: Word)
    ensures Spread(s, 0) == s
  {
  }

  lemma SeedWordIs(s: Word, i: nat)
    ensures SeedWord(s, i) == High(Spread(s, 2 * i)) + Low(Spread(s, 2 * i + 1))
  {
  }

  lemma SpreadNext(s: Word, k: nat)
    ensures Spread(s, k + 1) == Lcg(Spread(s, k))
  {
  }

  lemma TermNext(seed: seq<bv32>, k: nat)
    requires |seed| == N
    ensures Term(seed, k + N) == Twist(Term(seed, k), Term(seed, k + 1), Term(seed, k + M))
  {
  }
}
