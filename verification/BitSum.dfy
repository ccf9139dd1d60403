/**
Addition and subtraction of four-state vectors, in place and word by word, with the carry test
that the code uses: `t < a || t < ap || t < acy`. The test misses the carry out of a word only
when both summands are all ones and a carry comes in; what this costs is stated exactly.
*/
module BitSum {
  import opened Words

  /** The carry as the code derives it from the word t that it has stored. */
  function CarryOf(t: Word, a: Word, ap: Word, acy: nat): (c: nat)
    ensures c <= 1
  {
    if t < a || t < ap || t < acy then 1 else 0
  }

  /** The words r, with the unused bits of the last cleared, stand for x modulo 2^s. */
  ghost predicate Exact(r: seq<Word>, x: int, s: nat)
    requires s > 0 && |r| == LastWord(s) + 1
  {
    Value(Masked(r, s)) == Reduce(x, s)
  }

  // ----- Addition -----

  /** The words that the addition loop stores, before the last is masked. */
  function LoopSum(a: seq<Word>, b: seq<Word>, acy: nat): (r: seq<Word>)
    requires |a| == |b| && acy <= 1
    ensures |r| == |a|
  {
    if a == [] then []
    else
      var t := Low(a[0] + b[0] + acy);
      [t] + LoopSum(a[1..], b[1..], CarryOf(t, b[0], a[0], acy))
  }

  /** A carry goes missing below the last word: somewhere both summands are all ones while the
      sum of the words below does not fit into them. */
  ghost predicate LosesCarry(a: seq<Word>, b: seq<Word>, c: nat)
    requires |a| == |b|
  {
    exists i | 0 <= i < |a| - 1 :: LostAt(a, b, c, i)
  }

  ghost predicate LostAt(a: seq<Word>, b: seq<Word>, c: nat, i: nat)
    requires |a| == |b| && i < |a|
  {
    a[i] == ONES && b[i] == ONES && Value(a[..i]) + Value(b[..i]) + c >= Pow(i)
  }

  lemma LostLater(a: seq<Word>, b: seq<Word>, c: nat, i: nat)
    requires |a| == |b| && 0 < i < |a| && c <= 1
    ensures var e := if a[0] + b[0] + c >= 0x1_0000_0000 then 1 else 0;
      LostAt(a, b, c, i) <==> LostAt(a[1..], b[1..], e, i - 1)
  {
    assert a[..i][1..] == a[1..][..i - 1] && b[..i][1..] == b[1..][..i - 1];
  }

  lemma LosesStep(a: seq<Word>, b: seq<Word>, c: nat)
    requires |a| == |b| > 1 && c <= 1
    ensures var e := if a[0] + b[0] + c >= 0x1_0000_0000 then 1 else 0;
      LosesCarry(a, b, c) <==> (a[0] == ONES && b[0] == ONES && c == 1) || LosesCarry(a[1..], b[1..], e)
  {
    hide Value;
    var e := if a[0] + b[0] + c >= 0x1_0000_0000 then 1 else 0;
    assert LostAt(a, b, c, 0) <==> a[0] == ONES && b[0] == ONES && c == 1 by {
      assert a[..0] == [] && b[..0] == [] && Value([]) == 0;
    }
    if LosesCarry(a, b, c) && !LostAt(a, b, c, 0) {
      var i: nat :| i < |a| - 1 && LostAt(a, b, c, i);
      LostLater(a, b, c, i);
    }
    if LosesCarry(a[1..], b[1..], e) {
      var i: nat :| i < |a[1..]| - 1 && LostAt(a[1..], b[1..], e, i);
      LostLater(a, b, c, i + 1);
      assert LostAt(a, b, c, i + 1);
    }
  }

  /** Addition is exact, modulo 2^s, if and only if no carry goes missing below the last word. */
  lemma {:induction false} AddIsExactIff(a: seq<Word>, b: seq<Word>, c: nat, s: nat)
    requires s > 0 && |a| == |b| == LastWord(s) + 1 && c <= 1
    ensures Exact(LoopSum(a, b, c), Value(a) + Value(b) + c, s) <==> !LosesCarry(a, b, c)
    decreases s
  {
    hide Pow, Pow2, Reduce, Masked, LosesCarry, Value;
    var r := LoopSum(a, b, c);
    MaskedValue(r, s);
    AddSplit(a, b, c, s);
    if s <= 32 {
      NothingBelow(a, b, c);
    } else {
      SizeDown(s);
      LosesStep(a, b, c);
      var e := if a[0] + b[0] + c >= 0x1_0000_0000 then 1 else 0;
      var acy := CarryOf(r[0], b[0], a[0], c);
      MaskedValue(r[1..], s - 32);
      AddIsExactIff(a[1..], b[1..], acy, s - 32);
      if acy != e {
        // the code goes on with carry 0 instead of 1
        OneLess(a[1..], b[1..], s - 32);
      }
    }
  }

  lemma AddSplit(a: seq<Word>, b: seq<Word>, c: nat, s: nat)
    requires s > 0 && |a| == |b| == LastWord(s) + 1 && c <= 1
    ensures var r := LoopSum(a, b, c);
      var e := if a[0] + b[0] + c >= 0x1_0000_0000 then 1 else 0;
      if s <= 32 then Reduce(Value(r), s) == Reduce(Value(a) + Value(b) + c, s)
      else
        && Reduce(Value(r), s) == r[0] + 0x1_0000_0000 * Reduce(Value(r[1..]), s - 32)
        && Reduce(Value(a) + Value(b) + c, s)
          == r[0] + 0x1_0000_0000 * Reduce(Value(a[1..]) + Value(b[1..]) + e, s - 32)
        && r[1..] == LoopSum(a[1..], b[1..], CarryOf(r[0], b[0], a[0], c))
  {
    hide Pow, Pow2, Reduce, CarryOf;
    var r := LoopSum(a, b, c);
    var e := if a[0] + b[0] + c >= 0x1_0000_0000 then 1 else 0;
    assert Value(r) == r[0] + 0x1_0000_0000 * Value(r[1..]);
    assert Value(a) + Value(b) + c == r[0] + 0x1_0000_0000 * (Value(a[1..]) + Value(b[1..]) + e);
    if s <= 32 {
      assert a[1..] == [] && b[1..] == [] && r[1..] == [];
      ReduceWord(e, r[0], s);
    } else {
      ReduceStep(r[0], Value(r[1..]), s);
      ReduceStep(r[0], Value(a[1..]) + Value(b[1..]) + e, s);
    }
  }

  lemma NothingBelow(a: seq<Word>, b: seq<Word>, c: nat)
    requires |a| == |b| == 1
    ensures !LosesCarry(a, b, c)
  {
  }

  /** A sum that starts one too low ends one too low. */
  lemma OneLess(a: seq<Word>, b: seq<Word>, s: nat)
    requires s > 0 && |a| == |b| == LastWord(s) + 1
    ensures Reduce(Value(LoopSum(a, b, 0)), s) != Reduce(Value(a) + Value(b) + 1, s)
  {
    hide Pow, Pow2, Reduce, CarryOf;
    var r := LoopSum(a, b, 0);
    var q := if a[0] as int + b[0] >= 0x1_0000_0000 then 1 else 0;
    var z := Value(r[1..]) - Value(a[1..]) - Value(b[1..]) - q;
    assert Value(r) - Value(a) - Value(b) == 0x1_0000_0000 * z;
    ReduceOdd(Value(r), Value(a) + Value(b) + 1, 0x8000_0000 * z - 1, s);
  }

  // ----- Subtraction -----

  /** The words that the subtraction loop stores, before the last is masked: the subtrahend is
      negated on the fly with carry cy, and added with carry acy. Above its last word a shorter
      subtrahend goes on with the sign of its negative. */
  function LoopDiff(a: seq<Word>, b: seq<Word>, cy: nat, acy: nat): (r: seq<Word>)
    requires cy <= 1 && acy <= 1
    ensures |r| == |a|
  {
    if a == [] then []
    else
      var n := NegWord(b, cy);
      var t := Low(a[0] + n + acy);
      [t] + LoopDiff(a[1..], if b == [] then [] else b[1..], NegCarry(b, cy), CarryOf(t, n, a[0], acy))
  }

  function NegWord(b: seq<Word>, cy: nat): Word
    requires cy <= 1
  {
    if b == [] then if cy == 1 then ONES else 0
    else Low(ONES - b[0] + cy)
  }

  function NegCarry(b: seq<Word>, cy: nat): (r: nat)
    requires cy <= 1
    ensures r <= 1
  {
    if b == [] then cy
    else if |b| == 1 then if NegWord(b, cy) >= 0x8000_0000 then 1 else 0
    else if NegWord(b, cy) == 0 then 1 else 0
  }

  /** A borrow is lost below the last word: at some word i above a non-zero part of the
      subtrahend, its word is all ones, or it is zero under an all-ones word of the minuend
      while the words below need no borrow. */
  ghost predicate LosesBorrow(a: seq<Word>, b: seq<Word>, cy: nat, g: nat)
    requires |a| == |b|
  {
    exists i | 0 <= i < |a| - 1 :: BorrowLostAt(a, b, cy, g, i)
  }

  /** `cy`: nothing but zeros so far in the subtrahend; `g`: no borrow so far. */
  ghost predicate BorrowLostAt(a: seq<Word>, b: seq<Word>, cy: nat, g: nat, i: nat)
    requires i < |a| == |b|
  {
    (cy == 0 || Value(b[..i]) != 0)
    && (b[i] == ONES || (b[i] == 0 && a[i] == ONES && Value(a[..i]) + g > Value(b[..i])))
  }

  lemma BorrowLater(a: seq<Word>, b: seq<Word>, cy: nat, g: nat, i: nat)
    requires 0 < i < |a| == |b| && cy <= 1 && g <= 1
    ensures BorrowLostAt(a, b, cy, g, i) <==>
            BorrowLostAt(a[1..], b[1..], if cy == 1 && b[0] == 0 then 1 else 0, if a[0] + g > b[0] then 1 else 0, i - 1)
  {
    assert a[..i][1..] == a[1..][..i - 1] && b[..i][1..] == b[1..][..i - 1];
  }

  lemma BorrowStep(a: seq<Word>, b: seq<Word>, cy: nat, g: nat)
    requires 1 < |a| == |b| && cy <= 1 && g <= 1
    ensures LosesBorrow(a, b, cy, g) <==>
            (cy == 0 && (b[0] == ONES || (b[0] == 0 && a[0] == ONES && g > 0)))
            || LosesBorrow(a[1..], b[1..], if cy == 1 && b[0] == 0 then 1 else 0, if a[0] + g > b[0] then 1 else 0)
  {
    hide Value;
    var cy1 := if cy == 1 && b[0] == 0 then 1 else 0;
    var g1 := if a[0] + g > b[0] then 1 else 0;
    assert BorrowLostAt(a, b, cy, g, 0) <==> cy == 0 && (b[0] == ONES || (b[0] == 0 && a[0] == ONES && g > 0)) by {
      assert a[..0] == [] && b[..0] == [] && Value([]) == 0;
    }
    if LosesBorrow(a, b, cy, g) && !BorrowLostAt(a, b, cy, g, 0) {
      var i: nat :| i < |a| - 1 && BorrowLostAt(a, b, cy, g, i);
      BorrowLater(a, b, cy, g, i);
    }
    if LosesBorrow(a[1..], b[1..], cy1, g1) {
      var i: nat :| i < |a[1..]| - 1 && BorrowLostAt(a[1..], b[1..], cy1, g1, i);
      BorrowLater(a, b, cy, g, i + 1);
      assert BorrowLostAt(a, b, cy, g, i + 1);
    }
  }

  /** A subtrahend with fewer words is taken for a signed number: it must not exceed half its range. */
  ghost predicate SignOk(b: seq<Word>, cy: nat) {
    2 * Value(b) + 1 <= Pow(|b|) + cy
  }

  /** Subtraction is exact, modulo 2^s, if and only if no borrow is lost below the last word and,
      should the subtrahend have fewer words, its sign bit does not get in the way. */
  lemma SubIsExactIff(a: seq<Word>, b: seq<Word>, s: nat)
    requires s > 0 && |a| == LastWord(s) + 1 && |b| > 0
    ensures var bb := Fit(b, |a|);
      Exact(LoopDiff(a, b, 1, 0), Value(a) - Value(bb), s)
      <==> !LosesBorrow(a, bb, 1, 1) && (|b| < |a| ==> SignOk(b, 1))
  {
    hide Exact, LosesBorrow, LoopDiff, Value, Pow, Pow2, SignOk;
    var bb := Fit(b, |a|);
    if |b| >= |a| || SignOk(b, 1) {
      FitSame(a, b, 1, 0);
      SubFrom(a, bb, 1, 0, s, Value(a) - Value(bb));
    } else {
      WrongSign(a, b, 1, 0, s, Value(a) - Value(bb));
    }
  }

  lemma {:induction false} SubFrom(a: seq<Word>, b: seq<Word>, cy: nat, acy: nat, s: nat, diff: int)
    requires s > 0 && |a| == |b| == LastWord(s) + 1 && cy + acy <= 1
    requires diff == Value(a) - Value(b) + cy + acy - 1
    ensures Exact(LoopDiff(a, b, cy, acy), diff, s) <==> !LosesBorrow(a, b, cy, cy + acy)
    decreases s
  {
    hide Pow, Pow2, Reduce, Masked, LosesBorrow, Value, CarryOf, NegCarry, NegWord;
    var r := LoopDiff(a, b, cy, acy);
    MaskedValue(r, s);
    assert Fit(b, |a|) == b;
    SubSplit(a, b, cy, acy, s, diff);
    if s <= 32 {
      NoBorrowBelow(a, b, cy, cy + acy);
    } else {
      SizeDown(s);
      BorrowStep(a, b, cy, cy + acy);
      assert Fit(b[1..], |a| - 1) == b[1..];
      var g1 := if a[0] + cy + acy > b[0] then 1 else 0;
      var diff1 := Value(a[1..]) - Value(b[1..]) + g1 - 1;
      var cy1, acy1 := NegCarry(b, cy), CarryOf(r[0], NegWord(b, cy), a[0], acy);
      MaskedValue(r[1..], s - 32);
      CarriesAgree(a, b, cy, acy);
      if cy1 + acy1 == g1 {
        SubFrom(a[1..], b[1..], cy1, acy1, s - 32, diff1);
      } else {
        OffByOne(a[1..], b[1..], cy1, acy1, g1, s - 32, diff1);
      }
    }
  }

  /** Past the last word of the subtrahend the loop goes on as over zeros, with the other carry. */
  lemma {:induction false} Extends(a: seq<Word>, c: nat, acy: nat)
    requires c <= 1 && acy <= 1
    ensures LoopDiff(a, [], c, acy) == LoopDiff(a, Zeros(|a|), 1 - c, acy)
    decreases |a|
  {
    hide CarryOf;
    if a != [] {
      var z := Zeros(|a|);
      assert z[1..] == Zeros(|a| - 1);
      var n := NegWord([], c);
      assert NegWord(z, 1 - c) == n;
      Extends(a[1..], c, CarryOf(Low(a[0] + n + acy), n, a[0], acy));
    }
  }

  /** The words of the subtrahend above those of the minuend do not matter; missing ones count
      as zero when the sign does not get in the way. */
  lemma {:induction false} FitSame(a: seq<Word>, b: seq<Word>, cy: nat, acy: nat)
    requires |b| > 0 && cy <= 1 && acy <= 1 && (|b| >= |a| || SignOk(b, cy))
    ensures LoopDiff(a, b, cy, acy) == LoopDiff(a, Fit(b, |a|), cy, acy)
    decreases |a|
  {
    hide CarryOf, Fit, Value, Pow, NegWord, NegCarry, SignOk, LoopDiff;
    var bb := Fit(b, |a|);
    if a == [] {
      assert LoopDiff(a, b, cy, acy) == LoopDiff(a, bb, cy, acy) == [];
    } else {
      var a1, b1, bb1 := a[1..], b[1..], bb[1..];
      SameHead(b, bb, cy);
      LoopDiffStep(a, b, cy, acy);
      LoopDiffStep(a, bb, cy, acy);
      var n := NegWord(b, cy);
      var acy1 := CarryOf(Low(a[0] + n + acy), n, a[0], acy);
      if |a| == 1 {
        assert a1 == [];
      } else if |b| == 1 {
        assert b1 == [] && bb1 == Zeros(|a1|);
        OppositeCarry(b, bb, cy);
        Extends(a1, NegCarry(b, cy), acy1);
      } else {
        assert bb1 == Fit(b1, |a1|);
        SignStep(b, cy);
        FitSame(a1, b1, NegCarry(b, cy), acy1);
      }
    }
  }

  lemma LoopDiffStep(a: seq<Word>, b: seq<Word>, cy: nat, acy: nat)
    requires a != [] && b != [] && cy <= 1 && acy <= 1
    ensures var n := NegWord(b, cy);
      var t := Low(a[0] + n + acy);
      LoopDiff(a, b, cy, acy) == [t] + LoopDiff(a[1..], b[1..], NegCarry(b, cy), CarryOf(t, n, a[0], acy))
  {
  }

  lemma SameHead(b: seq<Word>, bb: seq<Word>, cy: nat)
    requires b != [] && bb != [] && b[0] == bb[0] && cy <= 1
    ensures NegWord(b, cy) == NegWord(bb, cy)
    ensures |b| > 1 && |bb| > 1 ==> NegCarry(b, cy) == NegCarry(bb, cy)
  {
  }

  lemma OppositeCarry(b: seq<Word>, bb: seq<Word>, cy: nat)
    requires |b| == 1 < |bb| && b[0] == bb[0] && cy <= 1 && SignOk(b, cy)
    ensures NegCarry(bb, cy) == 1 - NegCarry(b, cy)
  {
    OneWordSign(b, cy);
    hide SignOk;
  }

  lemma OneWordSign(b: seq<Word>, cy: nat)
    requires |b| == 1 && cy <= 1
    ensures Value(b) == b[0] && Pow(1) == 0x1_0000_0000
    ensures SignOk(b, cy) <==> NegWord(b, cy) >= 0x8000_0000 || (cy == 1 && b[0] == 0)
  {
    assert b[1..] == [] && Pow(0) == 1;
  }

  lemma SignStep(b: seq<Word>, cy: nat)
    requires |b| > 1 && cy <= 1
    ensures SignOk(b, cy) <==> SignOk(b[1..], if cy == 1 && b[0] == 0 then 1 else 0)
    ensures SignOk(b, cy) ==> SignOk(b[1..], NegCarry(b, cy))
  {
    EvenPow(|b| - 1);
    var k: nat :| Pow(|b| - 1) == 2 * k;
    HalfRange(b[0], Value(b[1..]), k, cy);
    hide Value, Pow;
  }

  lemma HalfRange(d: Word, v: nat, k: nat, cy: nat)
    requires cy <= 1
    ensures 2 * (d + 0x1_0000_0000 * v) + 1 <= 0x1_0000_0000 * (2 * k) + cy
            <==> 2 * v + 1 <= 2 * k + if cy == 1 && d == 0 then 1 else 0
  {
  }

  lemma EvenPow(n: nat)
    requires n > 0
    ensures exists k: nat :: Pow(n) == 2 * k
  {
    assert Pow(n) == 2 * (0x8000_0000 * Pow(n - 1));
  }

  /** A shorter subtrahend above half its range is never subtracted rightly. */
  lemma {:induction false} WrongSign(a: seq<Word>, b: seq<Word>, cy: nat, acy: nat, s: nat, diff: int)
    requires s > 0 && |a| == LastWord(s) + 1 && 0 < |b| < |a| && cy + acy <= 1 && !SignOk(b, cy)
    requires diff == Value(a) - Value(Fit(b, |a|)) + cy + acy - 1
    ensures !Exact(LoopDiff(a, b, cy, acy), diff, s)
    decreases s
  {
    hide Pow, Pow2, Reduce, Masked, Value, CarryOf, Fit, NegWord, NegCarry, SignOk;
    var r := LoopDiff(a, b, cy, acy);
    MaskedValue(r, s);
    SubSplit(a, b, cy, acy, s, diff);
    SizeDown(s);
    var g1 := if a[0] + cy + acy > b[0] then 1 else 0;
    var diff1 := Value(a[1..]) - Value(Fit(b[1..], |a| - 1)) + g1 - 1;
    var cy1, acy1 := NegCarry(b, cy), CarryOf(r[0], NegWord(b, cy), a[0], acy);
    MaskedValue(r[1..], s - 32);
    if |b| == 1 {
      assert Fit(b[1..], |a| - 1) == Zeros(|a| - 1) == Fit(Zeros(|a| - 1), |a| - 1);
      CarryAlone(a, b, cy, acy);
      Extends(a[1..], 0, acy1);
      OffByOne(a[1..], Zeros(|a| - 1), 1, acy1, g1, s - 32, diff1);
    } else {
      CarriesAgree(a, b, cy, acy);
      SignStep(b, cy);
      if cy1 + acy1 == g1 {
        WrongSign(a[1..], b[1..], cy1, acy1, s - 32, diff1);
      } else {
        OffByOne(a[1..], b[1..], cy1, acy1, g1, s - 32, diff1);
      }
    }
  }

  lemma CarryAlone(a: seq<Word>, b: seq<Word>, cy: nat, acy: nat)
    requires |a| > 1 && |b| == 1 && cy + acy <= 1 && !SignOk(b, cy)
    ensures NegCarry(b, cy) == 0
    ensures CarryOf(LoopDiff(a, b, cy, acy)[0], NegWord(b, cy), a[0], acy) == if a[0] + cy + acy > b[0] then 1 else 0
  {
    OneWordSign(b, cy);
    hide SignOk, Value, Pow;
  }

  /** After one word the two carries add up to what they should, or they are one off. */
  lemma CarriesAgree(a: seq<Word>, b: seq<Word>, cy: nat, acy: nat)
    requires |a| > 1 && |b| > 1 && cy + acy <= 1
    ensures var n, cy1 := NegWord(b, cy), NegCarry(b, cy);
      var acy1 := CarryOf(LoopDiff(a, b, cy, acy)[0], n, a[0], acy);
      var g1 := if a[0] + cy + acy > b[0] then 1 else 0;
      if cy == 0 && (b[0] == ONES || (b[0] == 0 && a[0] == ONES && acy > 0))
      then g1 == cy1 + acy1 + 1 || g1 + 1 == cy1 + acy1
      else cy1 + acy1 == g1 && cy1 == if cy == 1 && b[0] == 0 then 1 else 0
  {
  }

  lemma NoBorrowBelow(a: seq<Word>, b: seq<Word>, cy: nat, g: nat)
    requires |a| == |b| == 1
    ensures !LosesBorrow(a, b, cy, g)
  {
  }

  lemma SubSplit(a: seq<Word>, b: seq<Word>, cy: nat, acy: nat, s: nat, diff: int)
    requires s > 0 && |a| == LastWord(s) + 1 && |b| > 0 && cy + acy <= 1
    requires diff == Value(a) - Value(Fit(b, |a|)) + cy + acy - 1
    ensures var r := LoopDiff(a, b, cy, acy);
      var g := if a[0] + cy + acy > b[0] then 1 else 0;
      if s <= 32 then Reduce(Value(r), s) == Reduce(diff, s)
      else
        && Reduce(Value(r), s) == r[0] + 0x1_0000_0000 * Reduce(Value(r[1..]), s - 32)
        && Reduce(diff, s) == r[0] + 0x1_0000_0000 * Reduce(Value(a[1..]) - Value(Fit(b[1..], |a| - 1)) + g - 1, s - 32)
        && r[1..] == LoopDiff(a[1..], b[1..], NegCarry(b, cy), CarryOf(r[0], NegWord(b, cy), a[0], acy))
  {
    hide Value, Pow, Pow2, Reduce, CarryOf, NegCarry, NegWord, LoopDiff, Fit;
    var r := LoopDiff(a, b, cy, acy);
    var g := if a[0] + cy + acy > b[0] then 1 else 0;
    var bb := Fit(b, |a|);
    DiffHead(a, b, cy, acy);
    assert bb[1..] == Fit(b[1..], |a| - 1) && bb[0] == b[0];
    ValueUp(a);
    ValueUp(bb);
    ValueUp(r);
    if s <= 32 {
      assert a[1..] == [] && bb[1..] == [] && r[1..] == [];
      NoValue();
      ReduceWord(g - 1, r[0], s);
    } else {
      ReduceStep(r[0], Value(r[1..]), s);
      ReduceStep(r[0], Value(a[1..]) - Value(bb[1..]) + g - 1, s);
    }
  }

  lemma NoValue()
    ensures Value([]) == 0
  {
  }

  /** The lowest word of the difference, and the rest. */
  lemma DiffHead(a: seq<Word>, b: seq<Word>, cy: nat, acy: nat)
    requires a != [] && b != [] && cy + acy <= 1
    ensures var r := LoopDiff(a, b, cy, acy);
      var g := if a[0] + cy + acy > b[0] then 1 else 0;
      && |r| == |a| && r[0] == a[0] - b[0] + cy + acy - 1 + 0x1_0000_0000 * (1 - g)
      && r[1..] == LoopDiff(a[1..], b[1..], NegCarry(b, cy), CarryOf(r[0], NegWord(b, cy), a[0], acy))
  {
    hide CarryOf, NegCarry;
  }

  /** A difference that starts one off ends one off. */
  lemma OffByOne(a: seq<Word>, b: seq<Word>, cy: nat, acy: nat, g: nat, s: nat, diff: int)
    requires s > 0 && |a| == LastWord(s) + 1 && |b| > 0 && cy <= 1 && acy <= 1
    requires diff == Value(a) - Value(Fit(b, |a|)) + g - 1
    requires g == cy + acy + 1 || g + 1 == cy + acy
    ensures Reduce(Value(LoopDiff(a, b, cy, acy)), s) != Reduce(diff, s)
  {
    hide Pow, Pow2, Reduce, CarryOf, NegCarry, Fit;
    var r := LoopDiff(a, b, cy, acy);
    var bb := Fit(b, |a|);
    assert bb[0] == b[0];
    var n := NegWord(b, cy);
    var p := if ONES - b[0] + cy >= 0x1_0000_0000 then 1 else 0;
    var q := if a[0] + n + acy >= 0x1_0000_0000 then 1 else 0;
    var z := Value(r[1..]) - Value(a[1..]) + Value(bb[1..]) + 1 - p - q;
    assert Value(r) - Value(a) + Value(bb) == 0x1_0000_0000 * z - 1 + cy + acy;
    ReduceOdd(Value(r), diff, 0x8000_0000 * z + (if g > cy + acy then -1 else 0), s);
  }

  // ----- The loops -----

  /** The sum loop of `add` and of `plus`; m is the range to which the loop of `plus` cuts its last
      word, and 2^32 in `add`. A1 may be A0 itself. */
  method SumLoop(a0: array<Word>, w0: nat, a1: array<Word>, w1: nat, m: nat)
    requires w0 < a0.Length && w1 < a1.Length && 0 < m <= 0x1_0000_0000
    modifies a0
    ensures var sum := LoopSum(old(a0[..w0 + 1]), Fit(old(a1[..w1 + 1]), w0 + 1), 0);
      a0[..] == sum[w0 := sum[w0] % m] + old(a0[w0 + 1..])
  {
    hide Value, Pow, CarryOf;
    ghost var n, above := w0 + 1, a0[w0 + 1..];
    ghost var a, b := a0[..n], Fit(a1[..w1 + 1], n);
    ghost var sum := LoopSum(a, b, 0);
    var acy, i := 0, 0;
    assert sum[0..] == sum && a[0..] == a && b[0..] == b;
    while i <= w0
      invariant 0 <= i <= n && 0 <= acy <= 1
      invariant forall k | 0 <= k < i :: a0[k] == if k == w0 then sum[k] % m else sum[k]
      invariant forall k | i <= k < n :: a0[k] == a[k]
      invariant forall k | i <= k <= w1 :: k < n ==> a1[k] == b[k]
      invariant a0[n..] == above
      invariant i <= w0 ==> sum[i..] == LoopSum(a[i..], b[i..], acy)
    {
      var x := if i <= w1 then a1[i] else 0;
      var ap := a0[i];
      assert a[i..][1..] == a[i + 1..] && b[i..][1..] == b[i + 1..] && sum[i..][1..] == sum[i + 1..];
      var t := Low(ap as int + x + acy);
      assert sum[i] == sum[i..][0] == t;
      if i == w0 {
        t := t % m;
      }
      a0[i] := t;
      acy := CarryOf(t, x, ap, acy);
      i := i + 1;
    }
  }

  /** `add`: A0 becomes the sum; the words above the size of A0 stay. */
  method Add(a0: array<Word>, s0: nat, a1: array<Word>, s1: nat)
    requires s0 > 0 && s1 > 0 && LastWord(s0) < a0.Length && LastWord(s1) < a1.Length
    modifies a0
    ensures var n, m := LastWord(s0) + 1, LastWord(s1) + 1;
      var a, b := old(a0[..n]), Fit(old(a1[..m]), n);
      && a0[..] == Masked(LoopSum(a, b, 0), s0) + old(a0[n..])
      && (Exact(LoopSum(a, b, 0), Value(a) + Value(b), s0) <==> !LosesCarry(a, b, 0))
  {
    hide Value, Pow, Pow2, Exact, LosesCarry, Top, LastWord, LoopSum;
    var w0 := LastWord(s0);
    AddIsExactIff(a0[..w0 + 1], Fit(a1[..LastWord(s1) + 1], w0 + 1), 0, s0);
    SumLoop(a0, w0, a1, LastWord(s1), 0x1_0000_0000);
    a0[w0] := a0[w0] % Top(s0);
  }

  lemma {:induction false} OnesValue(n: nat)
    ensures Value(seq(n, _ => ONES)) == Pow(n) - 1
  {
    if n > 0 {
      OnesValue(n - 1);
      assert seq(n, _ => ONES)[1..] == seq(n - 1, _ => ONES);
    }
  }

  /** Ones in all bits of a vector of s bits. */
  lemma MaskedOnes(s: nat)
    requires s > 0
    ensures Value(Masked(seq(LastWord(s) + 1, _ => ONES), s)) == Pow2(s) - 1
  {
    hide Value, Pow, Pow2, Masked, Reduce;
    var n := LastWord(s) + 1;
    OnesValue(n);
    MaskedValue(seq(n, _ => ONES), s);
    PowIsPow2(n);
    Pow2Add(s, 32 * n - s);
    LastBelow(Pow2(s), Pow2(32 * n - s), s);
  }

  lemma LastBelow(p: nat, k: nat, s: nat)
    requires p == Pow2(s) && k > 0
    ensures Reduce(p * k - 1, s) == p - 1
  {
    assert p * k - 1 == p * (k - 1) + (p - 1);
    ModOf(p - 1, k - 1, p);
  }

  /** The test of `plus` and `minus` for an x or z: of the second operand it sees as many words as
      the first one has. */
  method FindUnknown(b0: array<Word>, w0: nat, b1: array<Word>, w1: nat) returns (found: bool)
    requires w0 < b0.Length && w1 < b1.Length
    ensures found <==> Value(b0[..w0 + 1]) != 0 || Value(Fit(b1[..w1 + 1], w0 + 1)) != 0
  {
    hide Value, Fit;
    found := false;
    ghost var x, y := b0[..w0 + 1], Fit(b1[..w1 + 1], w0 + 1);
    ValueZero(x);
    ValueZero(y);
    for i := 0 to w0 + 1
      invariant forall k | 0 <= k < i :: b0[k] == 0 && (k <= w1 ==> b1[k] == 0)
    {
      if b0[i] != 0 || (i <= w1 && b1[i] != 0) {
        assert x[i] == b0[i] && (i <= w1 ==> y[i] == b1[i]);
        found := true;
        break;
      }
    }
  }

  method SetAllX(a0: array<Word>, b0: array<Word>, s0: nat)
    requires s0 > 0 && LastWord(s0) < a0.Length && LastWord(s0) < b0.Length && a0 != b0
    modifies a0, b0
    ensures Value(a0[..LastWord(s0) + 1]) == Value(b0[..LastWord(s0) + 1]) == Pow2(s0) - 1
    ensures a0[LastWord(s0) + 1..] == old(a0[LastWord(s0) + 1..])
    ensures b0[LastWord(s0) + 1..] == old(b0[LastWord(s0) + 1..])
  {
    hide Top, Value, Pow2;
    var w0 := LastWord(s0);
    MaskedOnes(s0);
    for i := 0 to w0 + 1
      invariant forall k | 0 <= k < i :: a0[k] == ONES && b0[k] == ONES
      invariant forall k | i <= k < a0.Length :: a0[k] == old(a0[k])
      invariant forall k | i <= k < b0.Length :: b0[k] == old(b0[k])
    {
      a0[i] := ONES;
      b0[i] := ONES;
    }
    a0[w0] := a0[w0] % Top(s0);
    b0[w0] := b0[w0] % Top(s0);
    assert a0[..w0 + 1] == b0[..w0 + 1] == Masked(seq(w0 + 1, _ => ONES), s0);
  }

  /** `plus`: all x, a and b set in every bit of the size, if an operand has an x or z in the words
      that are looked at, and else the sum. */
  method Plus(a0: array<Word>, b0: array<Word>, s0: nat, a1: array<Word>, b1: array<Word>, s1: nat)
    requires s0 > 0 && LastWord(s0) < a0.Length && LastWord(s0) < b0.Length
    requires s1 > 0 && LastWord(s1) < a1.Length && LastWord(s1) < b1.Length
    requires a0 != b0 && a1 != b0
    modifies a0, b0
    ensures var n, m := LastWord(s0) + 1, LastWord(s1) + 1;
      var a, b := old(a0[..n]), Fit(old(a1[..m]), n);
      if Value(old(b0[..n])) != 0 || Value(Fit(old(b1[..m]), n)) != 0 then
        && Value(a0[..n]) == Value(b0[..n]) == Pow2(s0) - 1
        && a0[n..] == old(a0[n..]) && b0[n..] == old(b0[n..])
      else
        && a0[..] == Masked(LoopSum(a, b, 0), s0) + old(a0[n..]) && b0[..] == old(b0[..])
        && (Exact(LoopSum(a, b, 0), Value(a) + Value(b), s0) <==> !LosesCarry(a, b, 0))
  {
    hide Value, Pow, Pow2, Exact, LosesCarry, Top, LastWord, LoopSum;
    var w0, w1 := LastWord(s0), LastWord(s1);
    var unknown := FindUnknown(b0, w0, b1, w1);
    if unknown {
      SetAllX(a0, b0, s0);
    } else {
      AddIsExactIff(a0[..w0 + 1], Fit(a1[..w1 + 1], w0 + 1), 0, s0);
      SumLoop(a0, w0, a1, w1, Top(s0));
      TwiceMasked(LoopSum(old(a0[..w0 + 1]), Fit(old(a1[..w1 + 1]), w0 + 1), 0)[w0], Top(s0));
      a0[w0] := a0[w0] % Top(s0);
    }
  }

  lemma TwiceMasked(x: nat, m: nat)
    requires m > 0
    ensures (x % m) % m == x % m
  {
    ModOf(x % m, 0, m);
  }

  /** What is left of the subtrahend from word i on. */
  function Rest(b: seq<Word>, i: nat): seq<Word> { if i <= |b| then b[i..] else [] }

  /** One word of the negated subtrahend, with the next carry of the negation. */
  method NegStep(a1: array<Word>, w1: nat, i: nat, cy: nat, ghost b: seq<Word>) returns (x: Word, cy': nat)
    requires w1 < a1.Length && cy <= 1 && |b| == w1 + 1 && (i <= w1 ==> b[i] == a1[i])
    ensures x == NegWord(Rest(b, i), cy) && cy' == NegCarry(Rest(b, i), cy)
  {
    cy' := cy;
    if i <= w1 {
      x := Low(0xffff_ffff - a1[i] as int + cy);
      if i == w1 {
        cy' := if x >= 0x8000_0000 then 1 else 0;
      } else {
        cy' := if x == 0 then 1 else 0;
      }
    } else {
      x := if cy == 1 then 0xffff_ffff else 0;
    }
  }

  lemma DiffStep(a: seq<Word>, b: seq<Word>, diff: seq<Word>, i: nat, cy: nat, acy: nat)
    requires i < |a| == |diff| && cy <= 1 && acy <= 1 && diff[i..] == LoopDiff(a[i..], Rest(b, i), cy, acy)
    ensures var x := NegWord(Rest(b, i), cy);
      var t := Low(a[i] as int + x + acy);
      && diff[i] == t
      && diff[i + 1..] == LoopDiff(a[i + 1..], Rest(b, i + 1), NegCarry(Rest(b, i), cy), CarryOf(t, x, a[i], acy))
  {
    hide CarryOf, NegWord, NegCarry;
    var rest := Rest(b, i);
    assert a[i..][1..] == a[i + 1..] && diff[i..][1..] == diff[i + 1..] && diff[i] == diff[i..][0];
    assert (if rest == [] then [] else rest[1..]) == Rest(b, i + 1);
  }

  /** The difference loop of `sub` and of `minus`. A1 may be A0 itself. */
  method DiffLoop(a0: array<Word>, w0: nat, a1: array<Word>, w1: nat)
    requires w0 < a0.Length && w1 < a1.Length
    modifies a0
    ensures a0[..] == LoopDiff(old(a0[..w0 + 1]), old(a1[..w1 + 1]), 1, 0) + old(a0[w0 + 1..])
  {
    hide Value, Pow, CarryOf, NegWord, NegCarry;
    ghost var n := w0 + 1;
    ghost var a, b := a0[..n], a1[..w1 + 1];
    ghost var diff := LoopDiff(a, b, 1, 0);
    var cy, acy, i := 1, 0, 0;
    assert diff[0..] == diff && a[0..] == a && Rest(b, 0) == b;
    hide LoopDiff, Rest;
    while i <= w0
      invariant 0 <= i <= n && 0 <= acy <= 1 && 0 <= cy <= 1
      invariant forall k | 0 <= k < i :: a0[k] == diff[k]
      invariant forall k | i <= k < n :: a0[k] == a[k]
      invariant forall k | i <= k <= w1 :: k < n ==> a1[k] == b[k]
      invariant forall k | n <= k < a0.Length :: a0[k] == old(a0[k])
      invariant diff[i..] == LoopDiff(a[i..], Rest(b, i), cy, acy)
    {
      var ap := a0[i];
      DiffStep(a, b, diff, i, cy, acy);
      var x;
      x, cy := NegStep(a1, w1, i, cy, b);
      var t := Low(ap as int + x + acy);
      a0[i] := t;
      acy := CarryOf(t, x, ap, acy);
      i := i + 1;
    }
  }

  /** `sub`: A0 becomes the difference. */
  method Sub(a0: array<Word>, s0: nat, a1: array<Word>, s1: nat)
    requires s0 > 0 && s1 > 0 && LastWord(s0) < a0.Length && LastWord(s1) < a1.Length
    modifies a0
    ensures var n, m := LastWord(s0) + 1, LastWord(s1) + 1;
      var a, b := old(a0[..n]), old(a1[..m]);
      && a0[..] == Masked(LoopDiff(a, b, 1, 0), s0) + old(a0[n..])
      && (Exact(LoopDiff(a, b, 1, 0), Value(a) - Value(Fit(b, n)), s0)
          <==> !LosesBorrow(a, Fit(b, n), 1, 1) && (m < n ==> SignOk(b, 1)))
  {
    hide Value, Pow, Pow2, Exact, LosesBorrow, SignOk, Fit, Top, LastWord, LoopDiff;
    var w0, w1 := LastWord(s0), LastWord(s1);
    SubIsExactIff(a0[..w0 + 1], a1[..w1 + 1], s0);
    DiffLoop(a0, w0, a1, w1);
    a0[w0] := a0[w0] % Top(s0);
  }

  /** `minus`: all x as for `plus`, and else the difference. */
  method Minus(a0: array<Word>, b0: array<Word>, s0: nat, a1: array<Word>, b1: array<Word>, s1: nat)
    requires s0 > 0 && LastWord(s0) < a0.Length && LastWord(s0) < b0.Length
    requires s1 > 0 && LastWord(s1) < a1.Length && LastWord(s1) < b1.Length
    requires a0 != b0 && a1 != b0
    modifies a0, b0
    ensures var n, m := LastWord(s0) + 1, LastWord(s1) + 1;
      var a, b := old(a0[..n]), old(a1[..m]);
      if Value(old(b0[..n])) != 0 || Value(Fit(old(b1[..m]), n)) != 0 then
        && Value(a0[..n]) == Value(b0[..n]) == Pow2(s0) - 1
        && a0[n..] == old(a0[n..]) && b0[n..] == old(b0[n..])
      else
        && a0[..] == Masked(LoopDiff(a, b, 1, 0), s0) + old(a0[n..]) && b0[..] == old(b0[..])
        && (Exact(LoopDiff(a, b, 1, 0), Value(a) - Value(Fit(b, n)), s0)
          <==> !LosesBorrow(a, Fit(b, n), 1, 1) && (m < n ==> SignOk(b, 1)))
  {
    hide Value, Pow, Pow2, Exact, LosesBorrow, SignOk, Fit, Top, LastWord, LoopDiff;
    var unknown := FindUnknown(b0, LastWord(s0), b1, LastWord(s1));
    if unknown {
      SetAllX(a0, b0, s0);
    } else {
      Sub(a0, s0, a1, s1);
    }
  }

  // ----- What exactness comes to for narrow operands -----

  /** Up to two words addition never goes wrong. */
  lemma NarrowAddIsExact(a: seq<Word>, b: seq<Word>, s: nat)
    requires 0 < s <= 64 && |a| == |b| == LastWord(s) + 1
    ensures Exact(LoopSum(a, b, 0), Value(a) + Value(b), s)
  {
    hide Exact, LoopSum, Pow2;
    AddIsExactIff(a, b, 0, s);
    assert !LostAt(a, b, 0, 0);
  }

  /** Up to two words subtraction never goes wrong. */
  lemma NarrowSubIsExact(a: seq<Word>, b: seq<Word>, s: nat)
    requires 0 < s <= 64 && |a| == |b| == LastWord(s) + 1
    ensures Exact(LoopDiff(a, b, 1, 0), Value(a) - Value(b), s)
  {
    hide Exact, LoopDiff, Fit, SignOk, Pow, Pow2;
    SubIsExactIff(a, b, s);
    assert Fit(b, |a|) == b;
    assert !BorrowLostAt(a, b, 1, 1, 0);
  }

  /** Three words are enough to lose a carry: (2^64 - 2^32 + 1) + (2^64 - 1). */
  lemma WideAddCanFail()
    ensures !Exact(LoopSum([1, ONES, 0], [ONES, ONES, 0], 0), Value([1, ONES, 0]) + Value([ONES, ONES, 0]), 96)
  {
    hide Exact;
    var a: seq<Word>, b: seq<Word> := [1, ONES, 0], [ONES, ONES, 0];
    AddIsExactIff(a, b, 0, 96);
    assert a[..1] == [1] && b[..1] == [ONES];
    assert LostAt(a, b, 0, 1);
  }

  /** 2^64 - (2^64 - 2^32 + 1), the subtrahend having an all-ones word above a non-zero one. */
  lemma WideSubCanFail()
    ensures !Exact(LoopDiff([0, 0, 1], [1, ONES, 0], 1, 0), Value([0, 0, 1]) - Value([1, ONES, 0]), 96)
  {
    hide Exact;
    var a: seq<Word>, b: seq<Word> := [0, 0, 1], [1, ONES, 0];
    SubIsExactIff(a, b, 96);
    assert Fit(b, 3) == b && b[..1] == [1];
    assert BorrowLostAt(a, b, 1, 1, 1);
  }
}
