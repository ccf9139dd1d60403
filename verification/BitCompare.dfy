/**
Comparison of four-state vectors of any two widths: -1 as soon as either operand has an x or z,
and otherwise the order of the numbers, whatever the widths.
*/
module BitCompare {
  import opened Words

  ghost predicate AnySet(b: seq<Word>) {
    exists i | 0 <= i < |b| :: b[i] != 0
  }

  /** `below`, `above` or `equal`, as the first number compares with the second. */
  function Verdict(x: int, y: int, below: int, above: int, equal: int): int {
    if x < y then below else if x > y then above else equal
  }

  /** The words in use of a vector of s bits. */
  ghost function Used(a: array<Word>, s: nat): seq<Word>
    requires s > 0 && LastWord(s) < a.Length
    reads a
  {
    a[..LastWord(s) + 1]
  }

  method FindSet(b: array<Word>, s: nat) returns (found: bool)
    requires s > 0 && LastWord(s) < b.Length
    ensures found == AnySet(Used(b, s))
  {
    found := false;
    for i := 0 to LastWord(s) + 1
      invariant forall k | 0 <= k < i :: b[k] == 0
    {
      if b[i] != 0 {
        assert Used(b, s)[i] != 0;
        found := true;
        break;
      }
    }
  }

  lemma FirstDifference(a: seq<Word>, b: seq<Word>, i: nat)
    requires |a| == |b| && i < |a| && a[i] < b[i] && forall k | i < k < |a| :: a[k] == b[k]
    ensures Value(a) < Value(b)
  {
    assert a[i..][1..] == b[i..][1..];
    UpperDecides(a, b, i);
  }

  lemma UpperNonZero(a: seq<Word>, b: seq<Word>, i: nat)
    requires |a| == |b| && i < |a| && a[i..] == Zeros(|a| - i) && b[i] != 0
    ensures Value(a) < Value(b)
  {
    ValueZero(a[i..]);
    ValueZero(b[i..]);
    assert b[i..][0] != Zeros(|b| - i)[0];
    UpperDecides(a, b, i);
  }

  /** Whether the second vector has a bit set above the words of the first. */
  method UpperSet(a0: array<Word>, w0: nat, a1: array<Word>, w1: nat, ghost a: seq<Word>, ghost b: seq<Word>)
    returns (found: bool)
    requires w0 < a0.Length && w1 < a1.Length && |a| == |b| > w0 && |b| > w1
    requires a == Fit(a0[..w0 + 1], |a|) && b == Fit(a1[..w1 + 1], |b|) && (|a| == w0 + 1 || |a| == w1 + 1)
    ensures if found then Value(a) < Value(b) else forall k | w0 < k < |a| :: a[k] == b[k]
  {
    hide Value, Fit;
    var i := w0 + 1;
    while i <= w1
      invariant w0 < i && forall k | w0 < k < i && k <= w1 :: a1[k] == 0
    {
      if a1[i] != 0 {
        UpperNonZero(a, b, i);
        return true;
      }
      i := i + 1;
    }
    found := false;
  }

  /** The descending word loop, when the second vector has nothing above the first. */
  method Descend(a0: array<Word>, w0: nat, a1: array<Word>, w1: nat, below: int, above: int, equal: int,
                 ghost a: seq<Word>, ghost b: seq<Word>) returns (ret: int)
    requires w0 < a0.Length && w1 < a1.Length && |a| == |b| > w0 && |b| > w1
    requires a == Fit(a0[..w0 + 1], |a|) && b == Fit(a1[..w1 + 1], |b|) && forall k | w0 < k < |a| :: a[k] == b[k]
    ensures ret == Verdict(Value(a), Value(b), below, above, equal)
  {
    hide Value, Fit;
    var i := w0;
    while i >= 0
      invariant -1 <= i <= w0 && forall k | i < k < |a| :: a[k] == b[k]
    {
      var x, y := a0[i], if i > w1 then 0 else a1[i];
      assert a[i] == x && b[i] == y;
      if x > y {
        FirstDifference(b, a, i);
        return above;
      }
      if x < y {
        FirstDifference(a, b, i);
        return below;
      }
      i := i - 1;
    }
    assert a == b;
    ret := equal;
  }

  /** The word loops common to all comparisons. */
  method Compare(a0: array<Word>, s0: nat, a1: array<Word>, s1: nat, below: int, above: int, equal: int)
    returns (ret: int)
    requires s0 > 0 && LastWord(s0) < a0.Length && s1 > 0 && LastWord(s1) < a1.Length
    ensures ret == Verdict(Value(Used(a0, s0)), Value(Used(a1, s1)), below, above, equal)
  {
    hide Value, Fit, LastWord;
    var w0, w1 := LastWord(s0), LastWord(s1);
    ghost var n := 1 + if w0 > w1 then w0 else w1;
    ghost var a, b := Fit(Used(a0, s0), n), Fit(Used(a1, s1), n);
    FitValue(Used(a0, s0), n);
    FitValue(Used(a1, s1), n);
    var longer := UpperSet(a0, w0, a1, w1, a, b);
    if longer {
      ret := below;
    } else {
      ret := Descend(a0, w0, a1, w1, below, above, equal, a, b);
    }
  }

  /** A comparison: -1 when an operand has an x or z, and else as the numbers compare. */
  method CompareKnown(a0: array<Word>, b0: array<Word>, s0: nat, a1: array<Word>, b1: array<Word>, s1: nat,
                      below: int, above: int, equal: int) returns (ret: int)
    requires s0 > 0 && LastWord(s0) < a0.Length && LastWord(s0) < b0.Length
    requires s1 > 0 && LastWord(s1) < a1.Length && LastWord(s1) < b1.Length
    ensures ret == if AnySet(Used(b0, s0)) || AnySet(Used(b1, s1)) then -1
                   else Verdict(Value(Used(a0, s0)), Value(Used(a1, s1)), below, above, equal)
  {
    var unknown := FindSet(b0, s0);
    if !unknown {
      unknown := FindSet(b1, s1);
    }
    if unknown {
      return -1;
    }
    ret := Compare(a0, s0, a1, s1, below, above, equal);
  }

  method Lt(a0: array<Word>, b0: array<Word>, s0: nat, a1: array<Word>, b1: array<Word>, s1: nat) returns (ret: int)
    requires s0 > 0 && LastWord(s0) < a0.Length && LastWord(s0) < b0.Length
    requires s1 > 0 && LastWord(s1) < a1.Length && LastWord(s1) < b1.Length
    ensures ret == if AnySet(Used(b0, s0)) || AnySet(Used(b1, s1)) then -1
                   else if Value(Used(a0, s0)) < Value(Used(a1, s1)) then 1 else 0
  {
    ret := CompareKnown(a0, b0, s0, a1, b1, s1, 1, 0, 0);
  }

  method Gt(a0: array<Word>, b0: array<Word>, s0: nat, a1: array<Word>, b1: array<Word>, s1: nat) returns (ret: int)
    requires s0 > 0 && LastWord(s0) < a0.Length && LastWord(s0) < b0.Length
    requires s1 > 0 && LastWord(s1) < a1.Length && LastWord(s1) < b1.Length
    ensures ret == if AnySet(Used(b0, s0)) || AnySet(Used(b1, s1)) then -1
                   else if Value(Used(a0, s0)) > Value(Used(a1, s1)) then 1 else 0
  {
    ret := CompareKnown(a0, b0, s0, a1, b1, s1, 0, 1, 0);
  }

  method EqEq(a0: array<Word>, b0: array<Word>, s0: nat, a1: array<Word>, b1: array<Word>, s1: nat) returns (ret: int)
    requires s0 > 0 && LastWord(s0) < a0.Length && LastWord(s0) < b0.Length
    requires s1 > 0 && LastWord(s1) < a1.Length && LastWord(s1) < b1.Length
    ensures ret == if AnySet(Used(b0, s0)) || AnySet(Used(b1, s1)) then -1
                   else if Value(Used(a0, s0)) == Value(Used(a1, s1)) then 1 else 0
  {
    ret := CompareKnown(a0, b0, s0, a1, b1, s1, 0, 0, 1);
  }

  method Le(a0: array<Word>, b0: array<Word>, s0: nat, a1: array<Word>, b1: array<Word>, s1: nat) returns (ret: int)
    requires s0 > 0 && LastWord(s0) < a0.Length && LastWord(s0) < b0.Length
    requires s1 > 0 && LastWord(s1) < a1.Length && LastWord(s1) < b1.Length
    ensures ret == if AnySet(Used(b0, s0)) || AnySet(Used(b1, s1)) then -1
                   else if Value(Used(a0, s0)) <= Value(Used(a1, s1)) then 1 else 0
  {
    ret := CompareKnown(a0, b0, s0, a1, b1, s1, 1, 0, 1);
  }

  method Ge(a0: array<Word>, b0: array<Word>, s0: nat, a1: array<Word>, b1: array<Word>, s1: nat) returns (ret: int)
    requires s0 > 0 && LastWord(s0) < a0.Length && LastWord(s0) < b0.Length
    requires s1 > 0 && LastWord(s1) < a1.Length && LastWord(s1) < b1.Length
    ensures ret == if AnySet(Used(b0, s0)) || AnySet(Used(b1, s1)) then -1
                   else if Value(Used(a0, s0)) >= Value(Used(a1, s1)) then 1 else 0
  {
    ret := CompareKnown(a0, b0, s0, a1, b1, s1, 0, 1, 1);
  }

  method Ne(a0: array<Word>, b0: array<Word>, s0: nat, a1: array<Word>, b1: array<Word>, s1: nat) returns (ret: int)
    requires s0 > 0 && LastWord(s0) < a0.Length && LastWord(s0) < b0.Length
    requires s1 > 0 && LastWord(s1) < a1.Length && LastWord(s1) < b1.Length
    ensures ret == if AnySet(Used(b0, s0)) || AnySet(Used(b1, s1)) then -1
                   else if Value(Used(a0, s0)) != Value(Used(a1, s1)) then 1 else 0
  {
    ret := CompareKnown(a0, b0, s0, a1, b1, s1, 1, 1, 0);
  }

  /** The check inside division, which does not look at the b words. */
  method IsAtLeast(a0: array<Word>, s0: nat, a1: array<Word>, s1: nat) returns (ret: int)
    requires s0 > 0 && LastWord(s0) < a0.Length && s1 > 0 && LastWord(s1) < a1.Length
    ensures ret == if Value(Used(a0, s0)) >= Value(Used(a1, s1)) then 1 else 0
  {
    ret := Compare(a0, s0, a1, s1, 0, 1, 1);
  }
}
