/**
Four-state constants in binary notation, size'b digits: how they are printed, how they are
scanned, and which of them survive both.
*/
module BinaryConst {
  import opened BitLogic

  // ----- Decimal sizes -----

  function ToDecimal(n: nat): (s: string)
    ensures |s| > 0 && forall k | 0 <= k < |s| :: IsDigit(s[k])
  {
    if n < 10 then [DecimalDigit(n)] else ToDecimal(n / 10) + [DecimalDigit(n % 10)]
  }

  function DecimalDigit(d: nat): (c: char)
    requires d < 10
    ensures IsDigit(c) && DigitValue(c) == d
  {
    '0' + d as char
  }

  predicate IsDigit(c: char) { '0' <= c <= '9' }

  function DigitValue(c: char): nat
    requires IsDigit(c)
  {
    (c - '0') as nat
  }

  /** `atoi` of a string of digits. */
  function FromDecimal(s: string): nat
    requires forall k | 0 <= k < |s| :: IsDigit(s[k])
  {
    if s == "" then 0 else 10 * FromDecimal(s[..|s| - 1]) + DigitValue(s[|s| - 1])
  }

  lemma {:induction false} DecimalRoundTrip(n: nat)
    ensures FromDecimal(ToDecimal(n)) == n
    decreases n
  {
    var s := ToDecimal(n);
    if n >= 10 {
      DecimalRoundTrip(n / 10);
      assert s[..|s| - 1] == ToDecimal(n / 10);
    } else {
      assert s[..0] == "";
    }
  }

  /** 10^n */
  function Pow10(n: nat): nat { if n == 0 then 1 else 10 * Pow10(n - 1) }

  /** Decimal: a text in front counts as many powers of ten more as there are characters behind it,
      and the ten digits count 0 to 9. */
  lemma {:induction false} DecimalSplits(s: string, t: string)
    requires forall k | 0 <= k < |s| :: IsDigit(s[k])
    requires forall k | 0 <= k < |t| :: IsDigit(t[k])
    ensures FromDecimal(s + t) == FromDecimal(s) * Pow10(|t|) + FromDecimal(t)
    decreases |t|
  {
    hide FromDecimal, DigitValue, Pow10, IsDigit;
    if t == "" {
      assert s + t == s;
      NoDigitsIsZero();
    } else {
      var last := |t| - 1;
      assert (s + t)[..|s + t| - 1] == s + t[..last] && (s + t)[|s + t| - 1] == t[last];
      DecimalSplits(s, t[..last]);
      LastDigit(s + t);
      LastDigit(t);
      Pow10Up(last);
      TenTimes(FromDecimal(s), Pow10(last));
    }
  }

  lemma NoDigitsIsZero()
    ensures FromDecimal("") == 0 && Pow10(0) == 1
  {
  }

  lemma LastDigit(s: string)
    requires s != "" && forall k | 0 <= k < |s| :: IsDigit(s[k])
    ensures FromDecimal(s) == 10 * FromDecimal(s[..|s| - 1]) + DigitValue(s[|s| - 1])
  {
  }

  lemma Pow10Up(n: nat)
    ensures Pow10(n + 1) == 10 * Pow10(n)
  {
  }

  lemma TenTimes(f: int, p: int)
    ensures 10 * (f * p) == f * (10 * p)
  {
  }

  lemma DecimalDigits()
    ensures FromDecimal("") == 0 && FromDecimal("0") == 0 && FromDecimal("1") == 1 && FromDecimal("2") == 2
    ensures FromDecimal("3") == 3 && FromDecimal("4") == 4 && FromDecimal("5") == 5 && FromDecimal("6") == 6
    ensures FromDecimal("7") == 7 && FromDecimal("8") == 8 && FromDecimal("9") == 9 && FromDecimal("10") == 10
  {
    assert "10"[..1] == "1";
    assert forall c: char :: [c][..0] == "";
  }

  // ----- Digits and characters -----

  function DigitChar(d: Digit): char {
    match d
    case D0 => '0'
    case D1 => '1'
    case DZ => 'z'
    case DX => 'x'
  }

  predicate IsBinary(c: char) { c in {'0', '1', 'x', 'X', 'z', 'Z', '_'} }

  function CharDigit(c: char): Digit {
    if c == '1' then D1 else if c == 'x' || c == 'X' then DX else if c == 'z' || c == 'Z' then DZ else D0
  }

  /** The digits of a constant from the highest down, without leading zeros. */
  function Suppressed(v: seq<Digit>): (s: seq<Digit>)
    ensures |s| <= |v|
  {
    if v == [] then []
    else if v[|v| - 1] == D0 then Suppressed(v[..|v| - 1])
    else Downward(v)
  }

  function Downward(v: seq<Digit>): (s: seq<Digit>)
    ensures |s| == |v| && forall k | 0 <= k < |v| :: s[k] == v[|v| - 1 - k]
  {
    seq(|v|, k requires 0 <= k < |v| => v[|v| - 1 - k])
  }

  function Chars(ds: seq<Digit>): (s: string)
    ensures |s| == |ds| && forall k | 0 <= k < |ds| :: s[k] == DigitChar(ds[k])
  {
    seq(|ds|, k requires 0 <= k < |ds| => DigitChar(ds[k]))
  }

  /** What is printed for the digits v, lowest first. */
  function Printed(v: seq<Digit>): string {
    ToDecimal(|v|) + "'b" + if Suppressed(v) == [] then "0" else Chars(Suppressed(v))
  }

  /** The digits of a text, highest first, without the underscores. */
  function Read(text: string): seq<Digit> {
    if text == "" then []
    else
      var c := text[|text| - 1];
      Read(text[..|text| - 1]) + if c == '_' then [] else [CharDigit(c)]
  }

  /** What each character stands for; upper case is read as lower case. */
  lemma CharsAre()
    ensures Read("0") == [D0] && Read("1") == [D1] && Read("_") == []
    ensures Read("x") == Read("X") == [DX] && Read("z") == Read("Z") == [DZ]
  {
    forall c: char ensures Read([c]) == if c == '_' then [] else [CharDigit(c)] {
      assert [c][..0] == "";
    }
  }

  /** A text is read character by character. */
  lemma {:induction false} ReadSplits(s: string, t: string)
    ensures Read(s + t) == Read(s) + Read(t)
    decreases |t|
  {
    if t == "" {
      assert s + t == s;
    } else {
      var last := |t| - 1;
      assert (s + t)[..|s + t| - 1] == s + t[..last];
      ReadSplits(s, t[..last]);
    }
  }

  /** The text with its letters in lower case. */
  function Lower(s: string): string {
    if s == "" then ""
    else
      var c := s[0];
      [if c == 'X' then 'x' else if c == 'Z' then 'z' else c] + Lower(s[1..])
  }

  lemma {:induction false} CaseDoesNotMatter(s: string)
    ensures Read(Lower(s)) == Read(s)
    decreases s
  {
    if s != "" {
      CaseDoesNotMatter(s[1..]);
      CharsAre();
      ReadSplits([s[0]], s[1..]);
      ReadSplits(Lower(s)[..1], Lower(s[1..]));
      assert s == [s[0]] + s[1..] && Lower(s) == Lower(s)[..1] + Lower(s[1..]);
    }
  }

  /** Position k, the lowest being 0, before any extension. */
  function Placed(ds: seq<Digit>, k: nat): Digit {
    if k < |ds| then ds[|ds| - 1 - k] else D0
  }

  /** How many digits there are without the leading zeros. */
  function Significant(ds: seq<Digit>): (n: nat)
    ensures n <= |ds| && (n > 0 ==> ds[|ds| - n] != D0) && forall k | 0 <= k < |ds| - n :: ds[k] == D0
  {
    if ds == [] then 0 else if ds[0] != D0 then |ds| else Significant(ds[1..])
  }

  /** The significant digits fit into the words of a constant of that size. */
  predicate FitsWords(ds: seq<Digit>, size: nat) {
    size > 0 && Significant(ds) <= 32 * (LastWord(size) + 1)
  }

  /** A constant with one significant digit too many: the first 32 are lost when a word is added, and
      the extension brings them back. All of them are x, and the next has an a bit; or the first is z,
      and none of them has one. */
  predicate Restored(ds: seq<Digit>, size: nat)
    requires size > 0
  {
    && |ds| == Significant(ds) == 32 * (LastWord(size) + 1) + 1
    && if ds[0] == DX then HasA(ds[32]) && forall i | 0 <= i < 32 :: ds[i] == DX
       else ds[0] == DZ && forall i | 0 <= i < 32 :: !HasA(ds[i])
  }

  /** The size that a constant of that size gets: it grows with the significant digits. */
  function Grown(ds: seq<Digit>, size: nat): nat {
    if Significant(ds) > size then Significant(ds) else size
  }

  predicate HasA(d: Digit) { d == D1 || d == DX }

  /** No digit from position k up has its a bit set. */
  predicate ClearFrom(ds: seq<Digit>, k: nat) {
    forall j | k <= j < |ds| :: !HasA(Placed(ds, j))
  }

  /** What scanning makes of position k: a leading x or z extends downward as far as no a bit is set. */
  function Scanned(ds: seq<Digit>, k: nat): Digit {
    if ds != [] && ds[0].Unknown() && ClearFrom(ds, k) then ds[0] else Placed(ds, k)
  }

  /** The same when only the lowest m digits are left. */
  function Extended(ds: seq<Digit>, m: nat, k: nat): Digit {
    if ds != [] && ds[0].Unknown() && forall j | k <= j < m :: !HasA(Placed(ds, j)) then ds[0]
    else if k < m then Placed(ds, k)
    else D0
  }

  // ----- Printing -----

  function DigitsOf(a: seq<Bits>, b: seq<Bits>, size: nat): (v: seq<Digit>)
    requires |a| == |b|
    ensures |v| == size && forall k | 0 <= k < size :: v[k] == DigitAt(a, b, k)
  {
    seq(size, k requires 0 <= k < size => DigitAt(a, b, k))
  }

  /** What the loop still writes for the digits v. */
  function Rest(v: seq<Digit>, supress: bool): string {
    if v == [] then ""
    else
      var d := v[|v| - 1];
      if supress && d == D0 then Rest(v[..|v| - 1], true) else [DigitChar(d)] + Rest(v[..|v| - 1], false)
  }

  lemma {:induction false} RestIsDigits(v: seq<Digit>)
    ensures Rest(v, true) == Chars(Suppressed(v)) && Rest(v, false) == Chars(Downward(v))
    decreases |v|
  {
    if v != [] {
      var w := v[..|v| - 1];
      RestIsDigits(w);
      assert Downward(v) == [v[|v| - 1]] + Downward(w);
      CharsCons(v[|v| - 1], Downward(w));
      hide Chars, Downward;
    }
  }

  lemma CharsCons(d: Digit, ds: seq<Digit>)
    ensures Chars([d] + ds) == [DigitChar(d)] + Chars(ds)
  {
  }

  lemma RestStep(v: seq<Digit>, i: nat, supress: bool)
    requires i < |v|
    ensures Rest(v[..i + 1], supress) ==
            if supress && v[i] == D0 then Rest(v[..i], true) else [DigitChar(v[i])] + Rest(v[..i], false)
  {
    assert v[..i + 1][..i] == v[..i];
  }

  /** One turn of the loop moves one character from what is still to be written to the text. */
  lemma WriteStep(v: seq<Digit>, i: nat, supress: bool, text: string)
    requires i < |v|
    ensures var still := supress && v[i] == D0;
            (if still then text else text + [DigitChar(v[i])]) + Rest(v[..i], still)
            == text + Rest(v[..i + 1], supress)
  {
    RestStep(v, i, supress);
    hide Rest;
    assert (text + [DigitChar(v[i])]) + Rest(v[..i], false) == text + ([DigitChar(v[i])] + Rest(v[..i], false));
  }

  lemma DigitsAre(a: seq<Bits>, b: seq<Bits>, size: nat, i: nat)
    requires i < size <= 32 * |a| && |a| == |b|
    ensures DigitsOf(a, b, size)[i] == DigitOf(a[i / 32][i % 32], b[i / 32][i % 32])
  {
  }

  /** `print_bit` */
  method PrintBit(a: array<Bits>, b: array<Bits>, size: nat) returns (out: string)
    requires size > 0 && LastWord(size) < a.Length && LastWord(size) < b.Length && a.Length == b.Length
    ensures out == Printed(DigitsOf(a[..], b[..], size))
  {
    hide ToDecimal, Rest, Suppressed, Chars, DigitsOf, DigitAt, DigitOf, DigitChar, Downward, Printed;
    ghost var v := DigitsOf(a[..], b[..], size);
    var supress := true;
    var i := size - 1;
    var text := "";
    assert v[..size] == v;
    while i >= 0
      invariant -1 <= i < size && (supress <==> text == "")
      invariant text + Rest(v[..i + 1], supress) == Rest(v, true)
    {
      WriteStep(v, i, supress, text);
      DigitsAre(a[..], b[..], size, i);
      var d := DigitOf(a[i / 32][i % 32], b[i / 32][i % 32]);
      if d != D0 {
        supress := false;
      }
      if !supress {
        text := text + [DigitChar(d)];
      }
      i := i - 1;
    }
    RestEnd(supress);
    assert v[..0] == [];
    RestIsDigits(v);
    NoChars(v);
    if supress {
      text := text + "0";
    }
    out := ToDecimal(size) + "'b" + text;
    PrintedIs(v, text);
  }

  lemma PrintedIs(v: seq<Digit>, text: string)
    requires text == if Suppressed(v) == [] then "0" else Chars(Suppressed(v))
    ensures Printed(v) == ToDecimal(|v|) + "'b" + text
  {
  }

  lemma RestEnd(supress: bool)
    ensures Rest([], supress) == ""
  {
  }

  lemma NoChars(v: seq<Digit>)
    ensures Chars(Suppressed(v)) == "" <==> Suppressed(v) == []
  {
  }

  // ----- Scanning -----

  function BitAt(a: seq<Bits>, k: nat): bool
    requires k < 32 * |a|
  {
    a[k / 32][k % 32]
  }

  /** (data[k] << 1) with the highest bit of the word below coming in. */
  function ShiftedWord(data: seq<Bits>, k: nat): Bits
    requires k < |data|
  {
    [k > 0 && data[k - 1][31]] + data[k][..31]
  }

  /** `lshift_bit` by one. */
  method ShiftLeft(data: array<Bits>)
    modifies data
    ensures forall k | 0 <= k < 32 * data.Length :: BitAt(data[..], k) == (k > 0 && BitAt(old(data[..]), k - 1))
  {
    ghost var was := data[..];
    var j := data.Length - 1;
    while j >= 0
      invariant -1 <= j < data.Length
      invariant forall k | 0 <= k <= j :: data[k] == was[k]
      invariant forall k | j < k < data.Length :: data[k] == ShiftedWord(was, k)
    {
      data[j] := [j > 0 && data[j - 1][31]] + data[j][..31];
      j := j - 1;
    }
    ShiftedBits(was, data[..]);
  }

  lemma ShiftedBits(was: seq<Bits>, now: seq<Bits>)
    requires |was| == |now| && forall k | 0 <= k < |now| :: now[k] == ShiftedWord(was, k)
    ensures forall k | 0 <= k < 32 * |now| :: BitAt(now, k) == (k > 0 && BitAt(was, k - 1))
  {
    forall k | 0 <= k < 32 * |now| ensures BitAt(now, k) == (k > 0 && BitAt(was, k - 1)) {
      assert now[k / 32] == ShiftedWord(was, k / 32);
    }
  }

  /** `data[0] |= c` after a shift. */
  function SetLow(a: seq<Bits>, c: bool): (r: seq<Bits>)
    requires |a| > 0
    ensures |r| == |a|
  {
    a[0 := [c] + a[0][1..]]
  }

  lemma SetLowBit(a: seq<Bits>, c: bool, k: nat)
    requires k < 32 * |a|
    ensures BitAt(SetLow(a, c), k) == if k == 0 then c else BitAt(a, k)
  {
  }

  /** Shifts one more digit into both vectors. */
  method ShiftIn(a: array<Bits>, b: array<Bits>, d: Digit)
    requires a != b && a.Length == b.Length > 0
    modifies a, b
    ensures forall k | 0 <= k < 32 * a.Length ::
      DigitAt(a[..], b[..], k) == if k == 0 then d else DigitAt(old(a[..]), old(b[..]), k - 1)
  {
    ghost var a0, b0 := a[..], b[..];
    ShiftLeft(a);
    ShiftLeft(b);
    ghost var a1, b1 := a[..], b[..];
    a[0] := [HasA(d)] + a[0][1..];
    b[0] := [d.Unknown()] + b[0][1..];
    ghost var a2, b2 := a[..], b[..];
    assert a2 == SetLow(a1, HasA(d)) && b2 == SetLow(b1, d.Unknown());
    hide BitAt, DigitAt, SetLow;
    forall k | 0 <= k < 32 * a.Length ensures DigitAt(a2, b2, k) == if k == 0 then d else DigitAt(a0, b0, k - 1) {
      SetLowBit(a1, HasA(d), k);
      SetLowBit(b1, d.Unknown(), k);
      BitDigit(a2, b2, k);
      if k > 0 {
        BitDigit(a0, b0, k - 1);
      }
    }
  }

  lemma BitDigit(a: seq<Bits>, b: seq<Bits>, k: nat)
    requires |a| == |b| && k < 32 * |a|
    ensures DigitAt(a, b, k) == DigitOf(BitAt(a, k), BitAt(b, k))
  {
  }

  // ----- Extension -----

  /** The a bits from position k up are all clear. */
  predicate NoneFrom(a: seq<Bits>, k: nat) {
    forall j | k <= j < 32 * |a| :: !BitAt(a, j)
  }

  /** How many of the highest bits of a word are clear. */
  method LeadingZeros(w: Bits) returns (j: nat)
    requires w != NONE
    ensures j < 32 && w[31 - j] && forall i | 32 - j <= i < 32 :: !w[i]
  {
    j := 0;
    SomeBit(w);
    while !w[31 - j]
      invariant j < 32 && forall i | 32 - j <= i < 32 :: !w[i]
      decreases 32 - j
    {
      j := j + 1;
    }
  }

  lemma SomeBit(w: Bits)
    ensures (forall i | 0 <= i < 32 :: !w[i]) ==> w == NONE
  {
  }

  /** 0xffffffff << (32 - j) */
  function TopBits(j: nat): (m: Bits)
    requires j <= 32
    ensures forall i | 0 <= i < 32 :: m[i] == (i >= 32 - j)
  {
    seq(32, i requires 0 <= i < 32 => i >= 32 - j)
  }

  /** Fills the words above the highest that has an a bit set; returns that one, or -1. */
  method ExtendZeroWords(a: array<Bits>, b: array<Bits>, isX: bool) returns (i: int)
    requires a != b && a.Length == b.Length
    modifies a, b
    ensures -1 <= i < a.Length && (i >= 0 ==> a[i] != NONE)
    ensures forall k | 0 <= k <= i :: a[k] == old(a[k]) && b[k] == old(b[k])
    ensures forall k | i < k < a.Length :: old(a[k]) == NONE && Filled(old(a[k]), old(b[k]), a[k], b[k], 32, isX)
  {
    hide Filled, Or, TopBits;
    i := a.Length - 1;
    while i >= 0 && a[i] == NONE
      invariant -1 <= i < a.Length
      invariant forall k | 0 <= k <= i :: a[k] == old(a[k]) && b[k] == old(b[k])
      invariant forall k | i < k < a.Length :: old(a[k]) == NONE && Filled(old(a[k]), old(b[k]), a[k], b[k], 32, isX)
    {
      FilledAll(b[i], isX);
      b[i] := TopBits(32);
      if isX {
        a[i] := TopBits(32);
      }
      i := i - 1;
    }
  }

  /** The loop that extends a leading x or z: from the top it sets b, and for x also a, down to the
      highest a bit. */
  method Extend(a: array<Bits>, b: array<Bits>, isX: bool)
    requires a != b && a.Length == b.Length
    modifies a, b
    ensures forall k | 0 <= k < 32 * a.Length ::
      var up := NoneFrom(old(a[..]), k);
      && BitAt(b[..], k) == (up || BitAt(old(b[..]), k))
      && BitAt(a[..], k) == ((up && isX) || BitAt(old(a[..]), k))
  {
    hide Filled, NoneFrom, BitAt, Or, TopBits;
    ghost var a0, b0 := a[..], b[..];
    var i := ExtendZeroWords(a, b, isX);
    ghost var top := 0;
    if i >= 0 {
      var j := LeadingZeros(a[i]);
      top := j;
      FilledNone(a[i], b[i], isX);
      FilledSome(a[i], b[i], j, isX);
      if j > 0 {
        b[i] := Or(b[i], TopBits(j));
        if isX {
          a[i] := Or(a[i], TopBits(j));
        }
      }
    }
    ghost var a1, b1 := a[..], b[..];
    forall k | 0 <= k < 32 * a.Length
      ensures var up := NoneFrom(a0, k);
        BitAt(b1, k) == (up || BitAt(b0, k)) && BitAt(a1, k) == ((up && isX) || BitAt(a0, k))
    {
      ExtendedBit(a0, b0, a1, b1, i, top, isX, k);
    }
  }

  /** The highest j bits of a word have been filled. */
  predicate Filled(a0: Bits, b0: Bits, a: Bits, b: Bits, j: nat, isX: bool)
    requires j <= 32
  {
    b == Or(b0, TopBits(j)) && a == if isX then Or(a0, TopBits(j)) else a0
  }

  lemma FilledAll(b: Bits, isX: bool)
    ensures Filled(NONE, b, if isX then TopBits(32) else NONE, TopBits(32), 32, isX)
  {
  }

  lemma FilledSome(a: Bits, b: Bits, j: nat, isX: bool)
    requires j <= 32
    ensures Filled(a, b, if isX then Or(a, TopBits(j)) else a, Or(b, TopBits(j)), j, isX)
  {
  }

  lemma FilledNone(a: Bits, b: Bits, isX: bool)
    ensures Filled(a, b, a, b, 0, isX)
  {
  }

  /** The a bits are clear exactly from the position on that the search has found. */
  lemma ClearEdge(a0: seq<Bits>, i: int, j: nat, k: nat)
    requires -1 <= i < |a0| && k < 32 * |a0|
    requires forall n | i < n < |a0| :: a0[n] == NONE
    requires i >= 0 ==> j < 32 && a0[i][31 - j] && forall n | 32 - j <= n < 32 :: !a0[i][n]
    ensures NoneFrom(a0, k) <==> k >= if i >= 0 then 32 * i + 32 - j else 0
  {
    if i >= 0 {
      assert BitAt(a0, 32 * i + 31 - j);
    }
    if k >= (if i >= 0 then 32 * i + 32 - j else 0) {
      forall n | k <= n < 32 * |a0| ensures !BitAt(a0, n) {
      }
    }
  }

  lemma ExtendedBit(a0: seq<Bits>, b0: seq<Bits>, a: seq<Bits>, b: seq<Bits>, i: int, j: nat, isX: bool, k: nat)
    requires |a0| == |b0| == |a| == |b| && -1 <= i < |a| && k < 32 * |a|
    requires forall n | i < n < |a| :: a0[n] == NONE && Filled(a0[n], b0[n], a[n], b[n], 32, isX)
    requires i >= 0 ==> j < 32 && a0[i][31 - j] && (forall n | 32 - j <= n < 32 :: !a0[i][n])
                        && Filled(a0[i], b0[i], a[i], b[i], j, isX)
    requires forall n | 0 <= n < i :: a[n] == a0[n] && b[n] == b0[n]
    ensures var up := NoneFrom(a0, k);
      BitAt(b, k) == (up || BitAt(b0, k)) && BitAt(a, k) == ((up && isX) || BitAt(a0, k))
  {
    hide NoneFrom;
    ClearEdge(a0, i, j, k);
    var w := k / 32;
    if w > i {
      assert Filled(a0[w], b0[w], a[w], b[w], 32, isX);
    }
  }

  // ----- The scanner -----

  /** The kind of the first digit: 0 none yet, 1 a number, 2 z, 3 x. */
  function ExtFlag(ds: seq<Digit>): int {
    if ds == [] then 0 else if ds[0] == DX then 3 else if ds[0] == DZ then 2 else 1
  }

  ghost predicate ShowsDigits(a: seq<Bits>, b: seq<Bits>, ds: seq<Digit>) {
    |a| == |b| && forall k | 0 <= k < 32 * |a| :: DigitAt(a, b, k) == Placed(ds, k)
  }

  /** Only the lowest m digits are there; the others are zero. */
  ghost predicate ShowsLow(a: seq<Bits>, b: seq<Bits>, ds: seq<Digit>, m: nat) {
    |a| == |b| && forall k | 0 <= k < 32 * |a| :: DigitAt(a, b, k) == if k < m then Placed(ds, k) else D0
  }

  /** Where the loop is after the digits ds: all of them are there while they fit; with one more the
      first 32 are lost; from then on the size stays behind the digits. */
  ghost predicate Follows(a: seq<Bits>, b: seq<Bits>, size: nat, ds: seq<Digit>, size0: nat)
    requires size0 > 0
  {
    var n, room := Significant(ds), 32 * (LastWord(size0) + 1);
    && size > 0 && |a| == |b| == LastWord(size) + 1
    && if n <= room then size == Grown(ds, size0) && ShowsDigits(a, b, ds)
       else if n == room + 1 then size == room + 1 && ShowsLow(a, b, ds, room - 31)
       else room < size < n
  }

  lemma ReadNext(text: string, i: nat)
    requires i < |text|
    ensures Read(text[..i + 1]) == if text[i] == '_' then Read(text[..i]) else Read(text[..i]) + [CharDigit(text[i])]
  {
    assert text[..i + 1][..i] == text[..i];
  }

  /** One more word; the last old word is cleared with the new one. */
  function Enlarged(a: seq<Bits>): (r: seq<Bits>)
    requires a != []
    ensures |r| == |a| + 1
  {
    a[..|a| - 1] + [NONE, NONE]
  }

  /** Makes room for one more word. */
  method Grow(a: array<Bits>, words: nat) returns (r: array<Bits>)
    requires 0 < a.Length && words == a.Length + 1
    ensures fresh(r) && r[..] == Enlarged(a[..])
  {
    r := new Bits[words](_ => NONE);
    for i := 0 to a.Length - 1
      invariant forall k | 0 <= k < i :: r[k] == a[k]
      invariant forall k | i <= k < words :: r[k] == NONE
    {
      r[i] := a[i];
    }
  }

  lemma {:induction false} SignificantNext(ds: seq<Digit>, d: Digit)
    ensures Significant(ds + [d]) == if Significant(ds) > 0 then Significant(ds) + 1 else if d == D0 then 0 else 1
    decreases ds
  {
    if ds != [] {
      assert (ds + [d])[1..] == ds[1..] + [d];
      SignificantNext(ds[1..], d);
    }
  }

  /** The words after the size has grown, if the highest digit in use is set. */
  function Widened(a: seq<Bits>, size: nat): seq<Bits>
    requires a != [] && size > 0
  {
    if LastWord(size) + 1 > |a| then Enlarged(a) else a
  }

  /** One turn of the digit loop: room for the digit if the highest one in use is set, and the shift. */
  method NextDigit(a: array<Bits>, b: array<Bits>, size: nat, d: Digit, ghost ds: seq<Digit>, ghost size0: nat)
    returns (size2: nat, a2: array<Bits>, b2: array<Bits>)
    requires size0 > 0 && size > 0 && a != b && a.Length == b.Length == LastWord(size) + 1
    requires Follows(a[..], b[..], size, ds, size0)
    modifies a, b
    ensures size2 > 0 && a2 != b2 && a2.Length == b2.Length == LastWord(size2) + 1
    ensures (a2 == a && b2 == b) || (fresh(a2) && fresh(b2))
    ensures Follows(a2[..], b2[..], size2, ds + [d], size0)
  {
    hide Follows, BitAt, LastWord, Enlarged, DigitAt;
    size2, a2, b2 := size, a, b;
    ghost var a1, b1 := a[..], b[..];
    LastBit(size);
    if BitAt(a[..], size - 1) || BitAt(b[..], size - 1) {
      size2 := size + 1;
      NextSize(size2);
      if LastWord(size2) + 1 > a.Length {
        a2 := Grow(a, LastWord(size2) + 1);
        b2 := Grow(b, LastWord(size2) + 1);
      }
    }
    ghost var a3, b3 := a2[..], b2[..];
    assert a3 == Widened(a1, size2) && b3 == Widened(b1, size2);
    ShiftIn(a2, b2, d);
    FollowStep(a1, b1, size, a3, b3, size2, a2[..], b2[..], ds, d, size0);
  }

  /** The digit loop of `scan_binary`. */
  method ScanDigits(size0: nat, number: string) returns (size: nat, a: array<Bits>, b: array<Bits>, ext: int)
    requires size0 > 0 && forall c | c in number :: IsBinary(c)
    ensures fresh(a) && fresh(b) && a != b && size > 0 && a.Length == b.Length == LastWord(size) + 1
    ensures ext == ExtFlag(Read(number)) && Follows(a[..], b[..], size, Read(number), size0)
  {
    hide Read, Follows, LastWord, CharDigit;
    size := size0;
    a := NewBits(LastWord(size) + 1);
    b := NewBits(LastWord(size) + 1);
    ext := 0;
    assert number[..0] == "";
    FollowStart(a[..], b[..], size0);
    var i := 0;
    while i < |number|
      invariant 0 <= i <= |number| && fresh(a) && fresh(b) && a != b && size > 0
      invariant a.Length == b.Length == LastWord(size) + 1
      invariant ext == ExtFlag(Read(number[..i])) && Follows(a[..], b[..], size, Read(number[..i]), size0)
    {
      ReadNext(number, i);
      var c := number[i];
      if c != '_' {
        size, a, b := NextDigit(a, b, size, CharDigit(c), Read(number[..i]), size0);
        if ext == 0 {
          ext := if CharDigit(c) == DX then 3 else if CharDigit(c) == DZ then 2 else 1;
        }
      }
      i := i + 1;
    }
    assert number[..|number|] == number;
  }

  method NewBits(n: nat) returns (a: array<Bits>)
    ensures fresh(a) && a.Length == n && forall k | 0 <= k < n :: a[k] == NONE
  {
    a := new Bits[n](_ => NONE);
  }

  lemma FollowStart(a: seq<Bits>, b: seq<Bits>, size: nat)
    requires size > 0 && |a| == |b| == LastWord(size) + 1
    requires forall k | 0 <= k < |a| :: a[k] == NONE && b[k] == NONE
    ensures Read("") == [] && Follows(a, b, size, [], size)
  {
    NoDigits(a, b);
  }

  lemma NoDigits(a: seq<Bits>, b: seq<Bits>)
    requires |a| == |b| && forall k | 0 <= k < |a| :: a[k] == NONE && b[k] == NONE
    ensures ShowsDigits(a, b, [])
  {
  }

  lemma LastBit(size: nat)
    requires size > 0
    ensures size - 1 < 32 * (LastWord(size) + 1)
  {
  }

  lemma NextSize(size: nat)
    requires size > 1
    ensures LastWord(size - 1) <= LastWord(size) <= LastWord(size - 1) + 1
  {
  }

  /** The highest bit is in use exactly when one more digit needs a greater size. */
  lemma FullIff(a: seq<Bits>, b: seq<Bits>, ds: seq<Digit>, size0: nat)
    requires size0 > 0 && Significant(ds) <= 32 * (LastWord(size0) + 1)
    requires ShowsDigits(a, b, ds) && |a| == LastWord(Grown(ds, size0)) + 1
    ensures var size := Grown(ds, size0);
      && size > 0 && size - 1 < 32 * |a| && LastWord(size) == LastWord(size0)
      && (BitAt(a, size - 1) || BitAt(b, size - 1) <==> Significant(ds) == size)
  {
    hide BitAt, DigitAt;
    var size := Grown(ds, size0);
    BitDigit(a, b, size - 1);
    assert DigitAt(a, b, size - 1) == Placed(ds, size - 1);
  }

  /** One turn of the loop: the size grows if its highest digit is set, perhaps with a word, and the
      next digit is shifted in. */
  ghost predicate Turned(a: seq<Bits>, b: seq<Bits>, size: nat, a2: seq<Bits>, b2: seq<Bits>, size2: nat,
                         a3: seq<Bits>, b3: seq<Bits>, d: Digit)
    requires |a| == |b| > 0 && 0 < size <= 32 * |a|
  {
    && size2 == (if BitAt(a, size - 1) || BitAt(b, size - 1) then size + 1 else size)
    && a2 == Widened(a, size2) && b2 == Widened(b, size2) && |a3| == |b3| == |a2| == LastWord(size2) + 1
    && forall k | 0 <= k < 32 * |a3| :: DigitAt(a3, b3, k) == if k == 0 then d else DigitAt(a2, b2, k - 1)
  }

  lemma FollowStep(a: seq<Bits>, b: seq<Bits>, size: nat, a2: seq<Bits>, b2: seq<Bits>, size2: nat,
                   a3: seq<Bits>, b3: seq<Bits>, ds: seq<Digit>, d: Digit, size0: nat)
    requires size0 > 0 && Follows(a, b, size, ds, size0) && |a| == |b| > 0 && 0 < size <= 32 * |a|
    requires Turned(a, b, size, a2, b2, size2, a3, b3, d)
    ensures Follows(a3, b3, size2, ds + [d], size0)
  {
    hide BitAt, DigitAt, ShowsDigits, ShowsLow, Significant, Placed, Enlarged;
    SignificantNext(ds, d);
    var n, room := Significant(ds), 32 * (LastWord(size0) + 1);
    if n <= room {
      FullIff(a, b, ds, size0);
      if Significant(ds + [d]) <= room {
        assert a2 == a && b2 == b;
        ShiftedDigits(a, b, a3, b3, ds, d);
      } else {
        LowEnlarged(a, b, ds);
        ShiftedLow(a2, b2, a3, b3, ds, d, room - 32);
      }
    } else if n == room + 1 {
      TopLost(a, b, ds, room);
    }
  }

  lemma LowEnlarged(a: seq<Bits>, b: seq<Bits>, ds: seq<Digit>)
    requires |a| == |b| > 0 && ShowsDigits(a, b, ds)
    ensures ShowsLow(Enlarged(a), Enlarged(b), ds, 32 * |a| - 32)
  {
    hide Placed, DigitOf;
    var a2, b2 := Enlarged(a), Enlarged(b);
    forall k | 0 <= k < 32 * |a2|
      ensures DigitAt(a2, b2, k) == if k < 32 * |a| - 32 then Placed(ds, k) else D0
    {
      if k < 32 * |a| - 32 {
        assert a2[k / 32] == a[k / 32] && b2[k / 32] == b[k / 32];
        assert DigitAt(a2, b2, k) == DigitAt(a, b, k);
      } else {
        EmptyDigit(a2, b2, k);
      }
    }
  }

  lemma EmptyDigit(a: seq<Bits>, b: seq<Bits>, k: nat)
    requires |a| == |b| && k < 32 * |a| && a[k / 32] == NONE && b[k / 32] == NONE
    ensures DigitAt(a, b, k) == D0
  {
  }

  lemma TopLost(a: seq<Bits>, b: seq<Bits>, ds: seq<Digit>, room: nat)
    requires room >= 32 && room < 32 * |a| && ShowsLow(a, b, ds, room - 31)
    ensures !BitAt(a, room) && !BitAt(b, room)
  {
    hide BitAt, DigitAt, Placed;
    BitDigit(a, b, room);
    assert DigitAt(a, b, room) == D0;
  }

  lemma ShiftedLow(a0: seq<Bits>, b0: seq<Bits>, a: seq<Bits>, b: seq<Bits>, ds: seq<Digit>, d: Digit, m: nat)
    requires |a| == |b| == |a0| == |b0| && ShowsLow(a0, b0, ds, m)
    requires forall k | 0 <= k < 32 * |a| :: DigitAt(a, b, k) == if k == 0 then d else DigitAt(a0, b0, k - 1)
    ensures ShowsLow(a, b, ds + [d], m + 1)
  {
    hide DigitAt;
  }

  lemma ShiftedDigits(a0: seq<Bits>, b0: seq<Bits>, a: seq<Bits>, b: seq<Bits>, ds: seq<Digit>, d: Digit)
    requires |a| == |b| == |a0| == |b0| && ShowsDigits(a0, b0, ds)
    requires forall k | 0 <= k < 32 * |a| :: DigitAt(a, b, k) == if k == 0 then d else DigitAt(a0, b0, k - 1)
    ensures ShowsDigits(a, b, ds + [d])
  {
    hide DigitAt;
  }

  /** Clears the bits beyond the size. */
  method CutToSize(a: array<Bits>, size: nat)
    requires size > 0 && a.Length == LastWord(size) + 1
    modifies a
    ensures forall k | 0 <= k < 32 * a.Length :: BitAt(a[..], k) == (k < size && BitAt(old(a[..]), k))
  {
    ghost var a0 := a[..];
    if size % 32 != 0 {
      a[a.Length - 1] := And(a[a.Length - 1], Mask(size));
    }
    ghost var a1 := a[..];
    forall k | 0 <= k < 32 * a.Length ensures BitAt(a1, k) == (k < size && BitAt(a0, k)) {
    }
  }

  /** The constant is what the text says: of the size asked for, or as many bits as there are
      significant digits, with every digit as the extension rule has it. */
  ghost predicate IsScanned(a: seq<Bits>, b: seq<Bits>, size: nat, ds: seq<Digit>, size0: nat)
    requires |a| == |b|
  {
    size == Grown(ds, size0) && forall k | 0 <= k < size :: DigitAt(a, b, k) == Scanned(ds, k)
  }

  /** `scan_binary`: the constant is what the text says if and only if the significant digits fit into
      the words of the size, or there is one more and the extension restores what is lost. What comes
      of one more is stated as well; beyond the size all is clear. */
  method ScanBinary(size0: nat, number: string) returns (size: nat, a: array<Bits>, b: array<Bits>)
    requires size0 > 0 && forall c | c in number :: IsBinary(c)
    ensures fresh(a) && fresh(b) && size > 0 && a.Length == b.Length == LastWord(size) + 1
    ensures Clean(a[..], b[..], size)
    ensures var ds := Read(number);
      IsScanned(a[..], b[..], size, ds, size0) <==> FitsWords(ds, size0) || Restored(ds, size0)
    ensures var ds, room := Read(number), 32 * (LastWord(size0) + 1);
      Significant(ds) == room + 1 ==>
        size == room + 1 && forall k | 0 <= k < size :: DigitAt(a[..], b[..], k) == Extended(ds, room - 31, k)
  {
    hide Read, BitAt, DigitAt, NoneFrom, Scanned, LastWord, FitsWords, Grown, Significant, Follows, Restored,
      Extended, IsScanned;
    var ext: int;
    size, a, b, ext := ScanDigits(size0, number);
    ghost var ds, a0, b0 := Read(number), a[..], b[..];
    if ext > 1 {
      Extend(a, b, ext == 3);
    }
    ghost var a1, b1 := a[..], b[..];
    CutToSize(a, size);
    CutToSize(b, size);
    ghost var a2, b2 := a[..], b[..];
    forall k | 0 <= k < 32 * a.Length
      ensures DigitAt(a2, b2, k) == if k < size then DigitAt(a1, b1, k) else D0
    {
      BitDigit(a1, b1, k);
      BitDigit(a2, b2, k);
    }
    LastBit(size);
    ScanOutcome(a0, b0, a1, b1, a2, b2, size, ds, size0);
  }

  /** The bits after the extension. */
  ghost predicate IsExtended(a0: seq<Bits>, b0: seq<Bits>, a: seq<Bits>, b: seq<Bits>, ext: int)
    requires |a0| == |b0| == |a| == |b|
  {
    if ext <= 1 then a == a0 && b == b0
    else forall k | 0 <= k < 32 * |a| ::
      var up := NoneFrom(a0, k);
      BitAt(b, k) == (up || BitAt(b0, k)) && BitAt(a, k) == ((up && ext == 3) || BitAt(a0, k))
  }

  lemma ScanOutcome(a0: seq<Bits>, b0: seq<Bits>, a1: seq<Bits>, b1: seq<Bits>, a: seq<Bits>, b: seq<Bits>,
                    size: nat, ds: seq<Digit>, size0: nat)
    requires |a| == |b| == |a1| == |b1| == |a0| == |b0| && size <= 32 * |a|
    requires size0 > 0 && Follows(a0, b0, size, ds, size0) && IsExtended(a0, b0, a1, b1, ExtFlag(ds))
    requires forall k | 0 <= k < size :: DigitAt(a, b, k) == DigitAt(a1, b1, k)
    ensures IsScanned(a, b, size, ds, size0) <==> FitsWords(ds, size0) || Restored(ds, size0)
    ensures var room := 32 * (LastWord(size0) + 1);
      Significant(ds) == room + 1 ==>
        size == room + 1 && forall k | 0 <= k < size :: DigitAt(a, b, k) == Extended(ds, room - 31, k)
  {
    hide BitAt, DigitAt, NoneFrom, Scanned, Significant, Extended, IsExtended, ShowsDigits, ShowsLow;
    var n, room := Significant(ds), 32 * (LastWord(size0) + 1);
    if n <= room {
      GrownFits(ds, size0);
      forall k | 0 <= k < size ensures DigitAt(a, b, k) == Scanned(ds, k) {
        ScannedDigit(a0, b0, a1, b1, ds, k);
      }
    } else if n == room + 1 {
      forall k | 0 <= k < size ensures DigitAt(a, b, k) == Extended(ds, room - 31, k) {
        ExtendedDigit(a0, b0, a1, b1, ds, room - 31, k);
      }
      RestoredIff(ds, size0);
    }
  }

  lemma GrownFits(ds: seq<Digit>, size: nat)
    requires size > 0
    ensures Significant(ds) <= 32 * (LastWord(Grown(ds, size)) + 1)
  {
  }

  lemma ExtendedDigit(a0: seq<Bits>, b0: seq<Bits>, a: seq<Bits>, b: seq<Bits>, ds: seq<Digit>, m: nat, k: nat)
    requires |a| == |b| == |a0| == |b0| && ShowsLow(a0, b0, ds, m) && k < 32 * |a| && m <= 32 * |a|
    requires IsExtended(a0, b0, a, b, ExtFlag(ds))
    ensures DigitAt(a, b, k) == Extended(ds, m, k)
  {
    hide BitAt, DigitAt, Placed;
    BitDigit(a, b, k);
    BitDigit(a0, b0, k);
    forall j | 0 <= j < 32 * |a| ensures BitAt(a0, j) == (j < m && HasA(Placed(ds, j))) {
      BitDigit(a0, b0, j);
    }
    assert NoneFrom(a0, k) <==> forall j | k <= j < m :: !HasA(Placed(ds, j));
  }

  lemma ScannedDigit(a0: seq<Bits>, b0: seq<Bits>, a: seq<Bits>, b: seq<Bits>, ds: seq<Digit>, k: nat)
    requires |a| == |b| == |a0| == |b0| && ShowsDigits(a0, b0, ds) && k < 32 * |a|
    requires Significant(ds) <= 32 * |a| && IsExtended(a0, b0, a, b, ExtFlag(ds))
    ensures DigitAt(a, b, k) == Scanned(ds, k)
  {
    hide BitAt, DigitAt, Significant;
    BitDigit(a, b, k);
    BitDigit(a0, b0, k);
    forall j | 0 <= j < 32 * |a| ensures BitAt(a0, j) == HasA(Placed(ds, j)) {
      BitDigit(a0, b0, j);
    }
    if ds != [] && ds[0].Unknown() {
      UnknownFirst(ds);
      assert NoneFrom(a0, k) <==> ClearFrom(ds, k);
    }
  }

  lemma UnknownFirst(ds: seq<Digit>)
    requires ds != [] && ds[0].Unknown()
    ensures Significant(ds) == |ds|
  {
  }

  /** With one digit too many. */
  lemma RestoredIff(ds: seq<Digit>, size: nat)
    requires size > 0 && Significant(ds) == 32 * (LastWord(size) + 1) + 1
    ensures var room := 32 * (LastWord(size) + 1);
      (forall k | 0 <= k < room + 1 :: Extended(ds, room - 31, k) == Scanned(ds, k)) <==> Restored(ds, size)
  {
    var room := 32 * (LastWord(size) + 1);
    assert Placed(ds, room) != D0;
    if !ds[0].Unknown() {
      assert Extended(ds, room - 31, room) == D0 && Scanned(ds, room) == Placed(ds, room);
    } else {
      UnknownFirst(ds);
      if ds[0] == DX {
        RestoredX(ds, room);
      } else {
        RestoredZ(ds, room);
      }
    }
  }

  lemma RestoredX(ds: seq<Digit>, room: nat)
    requires |ds| == room + 1 > 32 && ds[0] == DX
    ensures (forall k | 0 <= k < room + 1 :: Extended(ds, room - 31, k) == Scanned(ds, k))
            <==> HasA(ds[32]) && forall i | 0 <= i < 32 :: ds[i] == DX
  {
    hide Extended, Scanned;
    var m := room - 31;
    forall k | 0 <= k < room + 1 ensures Scanned(ds, k) == ds[room - k] {
      ScannedX(ds, k);
    }
    forall k | m <= k < room + 1 ensures Extended(ds, m, k) == DX {
      ExtendedHigh(ds, m, k);
    }
    if forall k | 0 <= k < room + 1 :: Extended(ds, room - 31, k) == Scanned(ds, k) {
      forall i | 0 <= i < 32 ensures ds[i] == DX {
        assert Scanned(ds, room - i) == ds[i];
      }
      assert Scanned(ds, room - 32) == ds[32];
      if !HasA(ds[32]) {
        ExtendedEdge(ds, room - 31);
      }
    }
    if HasA(ds[32]) && forall i | 0 <= i < 32 :: ds[i] == DX {
      forall k | 0 <= k < room + 1 ensures Extended(ds, room - 31, k) == Scanned(ds, k) {
        if k < room - 31 {
          ExtendedBelow(ds, room - 31, k);
        }
      }
    }
  }

  lemma ScannedX(ds: seq<Digit>, k: nat)
    requires k < |ds| && ds[0] == DX
    ensures Scanned(ds, k) == ds[|ds| - 1 - k]
  {
    assert HasA(Placed(ds, |ds| - 1));
  }

  lemma ExtendedHigh(ds: seq<Digit>, m: nat, k: nat)
    requires ds != [] && ds[0].Unknown() && m <= k
    ensures Extended(ds, m, k) == ds[0]
  {
  }

  lemma ExtendedEdge(ds: seq<Digit>, m: nat)
    requires 0 < m <= |ds| && ds[0] == DX && !HasA(ds[|ds| - m])
    ensures Extended(ds, m, m - 1) == DX
  {
  }

  lemma ExtendedBelow(ds: seq<Digit>, m: nat, k: nat)
    requires k < m <= |ds| && HasA(ds[|ds| - m])
    ensures Extended(ds, m, k) == ds[|ds| - 1 - k]
  {
    assert HasA(Placed(ds, m - 1));
  }

  lemma RestoredZ(ds: seq<Digit>, room: nat)
    requires |ds| == room + 1 > 32 && ds[0] == DZ
    ensures (forall k | 0 <= k < room + 1 :: Extended(ds, room - 31, k) == Scanned(ds, k))
            <==> forall i | 0 <= i < 32 :: !HasA(ds[i])
  {
    var m := room - 31;
    forall k | m <= k < room + 1 ensures Extended(ds, m, k) == DZ {
      ExtendedHigh(ds, m, k);
    }
    if forall k | 0 <= k < room + 1 :: Extended(ds, room - 31, k) == Scanned(ds, k) {
      forall i | 0 <= i < 32 ensures !HasA(ds[i]) {
        assert Extended(ds, room - 31, room - i) == Scanned(ds, room - i);
        assert Placed(ds, room - i) == ds[i];
      }
    }
    if forall i | 0 <= i < 32 :: !HasA(ds[i]) {
      forall k | 0 <= k < room + 1 ensures Extended(ds, room - 31, k) == Scanned(ds, k) {
        ClearSplit(ds, room - 31, k);
      }
    }
  }

  lemma ClearSplit(ds: seq<Digit>, m: nat, k: nat)
    requires m <= |ds| && forall i | 0 <= i < |ds| - m :: !HasA(ds[i])
    ensures ClearFrom(ds, k) <==> forall j | k <= j < m :: !HasA(Placed(ds, j))
  {
  }

  /** 32'b with 33 ones comes out as the number 1, of 33 bits. */
  method OnesAreLost() returns (size: nat, a: array<Bits>, b: array<Bits>)
    ensures size == 33 && a.Length == b.Length == 2
    ensures forall k | 0 <= k < size :: DigitAt(a[..], b[..], k) == if k == 0 then D1 else D0
  {
    hide Read, DigitAt;
    ReadOnes(33);
    size, a, b := ScanBinary(32, Ones(33));
    assert Significant(Read(Ones(33))) == 33;
  }

  function Ones(n: nat): (s: string)
    ensures |s| == n && forall c | c in s :: c == '1'
  {
    seq(n, _ => '1')
  }

  lemma {:induction false} ReadOnes(n: nat)
    ensures var ds := Read(Ones(n)); |ds| == n && forall k | 0 <= k < n :: ds[k] == D1
    decreases n
  {
    if n > 0 {
      ReadOnes(n - 1);
      assert Ones(n)[..n - 1] == Ones(n - 1);
    }
  }

  // ----- Sized constants -----

  /** How many decimal digits a token starts with. */
  function QuoteAt(token: string): (q: nat)
    ensures q <= |token| && forall k | 0 <= k < q :: IsDigit(token[k])
  {
    if token != "" && IsDigit(token[0]) then 1 + QuoteAt(token[1..]) else 0
  }

  /** size'b digits, or 'b digits. */
  predicate IsToken(token: string) {
    var q := QuoteAt(token);
    && q + 1 < |token| && token[q] == '\'' && (token[q + 1] == 'b' || token[q + 1] == 'B')
    && forall c | c in token[q + 2..] :: IsBinary(c)
  }

  /** The size that a token asks for. */
  function SizeOf(token: string): nat {
    if QuoteAt(token) == 0 then 32 else FromDecimal(token[..QuoteAt(token)])
  }

  /** The size of a sized token is the number in front of the quote; an unsized one has 32 bits. */
  lemma SizesAre(digits: string, rest: string)
    requires rest != "" && rest[0] == '\'' && forall k | 0 <= k < |digits| :: IsDigit(digits[k])
    ensures SizeOf(digits + rest) == if digits == "" then 32 else FromDecimal(digits)
  {
    hide FromDecimal;
    QuoteAfter(digits, rest);
    assert (digits + rest)[..|digits|] == digits;
  }

  /** `scan_v_binary`: a size of zero is an error. */
  method ScanVBinary(token: string) returns (ok: bool, size: nat, a: array<Bits>, b: array<Bits>)
    requires IsToken(token)
    ensures ok == (SizeOf(token) != 0)
    ensures ok ==> size > 0 && a.Length == b.Length == LastWord(size) + 1 && Clean(a[..], b[..], size)
    ensures var ds, size0 := Read(token[QuoteAt(token) + 2..]), SizeOf(token);
      ok ==> (IsScanned(a[..], b[..], size, ds, size0) <==> FitsWords(ds, size0) || Restored(ds, size0))
  {
    hide Read, IsScanned, Clean, FromDecimal, FitsWords, Restored, Extended, Significant, DigitAt;
    var cp := 0;
    QuoteStart(token);
    if token[0] == '\'' {
      size := 32;
    } else {
      while IsDigit(token[cp])
        invariant cp <= QuoteAt(token)
        decreases QuoteAt(token) - cp
      {
        QuoteStep(token, cp);
        cp := cp + 1;
      }
      QuoteStep(token, cp);
      size := FromDecimal(token[..cp]);
    }
    ok := size != 0;
    if ok {
      size, a, b := ScanBinary(size, token[cp + 2..]);
    } else {
      a := NewBits(0);
      b := NewBits(0);
    }
  }

  lemma QuoteStart(token: string)
    requires IsToken(token)
    ensures token[0] == '\'' <==> QuoteAt(token) == 0
  {
  }

  lemma {:induction false} QuoteStep(token: string, cp: nat)
    requires cp <= QuoteAt(token) < |token|
    ensures IsDigit(token[cp]) <==> cp < QuoteAt(token)
    decreases cp
  {
    if cp > 0 {
      QuoteStep(token[1..], cp - 1);
    }
  }

  // ----- What survives printing and scanning -----

  /** The text of the digits that is printed for v. */
  function DigitText(v: seq<Digit>): string {
    if Suppressed(v) == [] then "0" else Chars(Suppressed(v))
  }

  lemma {:induction false} ReadChars(ds: seq<Digit>)
    ensures Read(Chars(ds)) == ds
    decreases |ds|
  {
    if ds != [] {
      var last := |ds| - 1;
      ReadChars(ds[..last]);
      assert Chars(ds)[..last] == Chars(ds[..last]);
      assert ds == ds[..last] + [ds[last]];
    }
  }

  lemma {:induction false} QuoteAfter(digits: string, rest: string)
    requires (forall k | 0 <= k < |digits| :: IsDigit(digits[k])) && rest != "" && !IsDigit(rest[0])
    ensures QuoteAt(digits + rest) == |digits|
    decreases |digits|
  {
    if digits == "" {
      assert digits + rest == rest;
    } else {
      QuoteAfter(digits[1..], rest);
      assert (digits + rest)[1..] == digits[1..] + rest;
    }
  }

  /** What is printed is a token of the right size, with the digits that were printed. */
  lemma PrintedIsToken(v: seq<Digit>)
    requires v != []
    ensures var token := Printed(v);
      IsToken(token) && SizeOf(token) == |v| && token[QuoteAt(token) + 2..] == DigitText(v)
      && Read(DigitText(v)) == (if Suppressed(v) == [] then [D0] else Suppressed(v)) && |Read(DigitText(v))| <= |v|
  {
    hide ToDecimal, FromDecimal, QuoteAt, IsToken, Read, Suppressed;
    TokenParts(ToDecimal(|v|), DigitText(v));
    DecimalRoundTrip(|v|);
    ReadDigitText(v);
    SuppressedParts(v);
    TextIsBinary(v);
    assert Printed(v) == ToDecimal(|v|) + "'b" + DigitText(v);
  }

  lemma TextIsBinary(v: seq<Digit>)
    ensures forall c | c in DigitText(v) :: IsBinary(c)
  {
  }

  lemma TokenParts(digits: string, text: string)
    requires forall k | 0 <= k < |digits| :: IsDigit(digits[k])
    ensures var token := digits + "'b" + text;
      && QuoteAt(token) == |digits| && token[..|digits|] == digits && token[|digits| + 2..] == text
      && ((forall c | c in text :: IsBinary(c)) ==> IsToken(token))
  {
    hide QuoteAt, IsBinary;
    var rest := "'b" + text;
    QuoteAfter(digits, rest);
    assert digits + "'b" + text == digits + rest;
    assert (digits + rest)[..|digits|] == digits && (digits + rest)[|digits| + 2..] == text;
    assert (digits + rest)[|digits|] == rest[0];
  }

  lemma ReadDigitText(v: seq<Digit>)
    ensures Read(DigitText(v)) == if Suppressed(v) == [] then [D0] else Suppressed(v)
  {
    ReadChars(Suppressed(v));
    if Suppressed(v) == [] {
      assert "0"[..0] == "";
    }
  }

  lemma {:induction false} SuppressedParts(v: seq<Digit>)
    ensures var n := |Suppressed(v)|;
      n <= |v| && Suppressed(v) == Downward(v[..n]) && (n > 0 ==> v[n - 1] != D0)
        && forall k | n <= k < |v| :: v[k] == D0
    decreases |v|
  {
    if v != [] {
      var w := v[..|v| - 1];
      SuppressedParts(w);
      if v[|v| - 1] == D0 {
        assert w[..|Suppressed(w)|] == v[..|Suppressed(w)|];
      } else {
        assert v[..|v|] == v;
      }
    }
  }

  /** The digits that scanning makes of the printed text of v. */
  function ScannedBack(v: seq<Digit>): seq<Digit> {
    seq(|v|, k requires 0 <= k < |v| => Scanned(Read(DigitText(v)), k))
  }

  /** All digits are zero; or the highest that is not is 1; or the very highest is x; or it is z, and
      so is every digit above the highest 1 or x. */
  predicate Survives(v: seq<Digit>)
    requires v != []
  {
    var n := |Suppressed(v)|;
    || n == 0
    || v[n - 1] == D1
    || v[|v| - 1] == DX
    || (v[|v| - 1] == DZ && forall k | 0 <= k < |v| && ClearAbove(v, k) :: v[k] == DZ)
  }

  predicate ClearAbove(v: seq<Digit>, k: nat) {
    forall j | k <= j < |v| :: !HasA(v[j])
  }

  lemma PlacedBack(v: seq<Digit>, k: nat)
    requires k < |v|
    ensures Placed(Read(DigitText(v)), k) == v[k]
  {
    hide Downward, DigitText;
    ReadDigitText(v);
    SuppressedParts(v);
    hide Read, Suppressed;
  }

  /** A constant is scanned back as it was printed if and only if it survives. */
  lemma RoundTripIff(v: seq<Digit>)
    requires v != []
    ensures ScannedBack(v) == v <==> Survives(v)
  {
    ReadDigitText(v);
    SuppressedParts(v);
    hide Read, Suppressed;
    var ds, n := Read(DigitText(v)), |Suppressed(v)|;
    forall k | 0 <= k < |v| ensures Placed(ds, k) == v[k] {
      PlacedBack(v, k);
    }
    if n > 0 && ds[0].Unknown() {
      assert ds[0] == v[n - 1] == Placed(ds, n - 1);
      forall k | 0 <= k < |v| ensures ClearFrom(ds, k) <==> ClearAbove(v, k) {
        ClearSame(ds, v, k);
      }
      assert !HasA(v[|v| - 1]) ==> ClearAbove(v, |v| - 1);
      if ScannedBack(v) == v {
        forall k | 0 <= k < |v| && ClearAbove(v, k) ensures v[k] == ds[0] {
          assert ScannedBack(v)[k] == Scanned(ds, k);
        }
      }
      if Survives(v) {
        forall k | 0 <= k < |v| ensures Scanned(ds, k) == v[k] {
        }
        assert ScannedBack(v) == v;
      }
    } else {
      assert ScannedBack(v) == v;
    }
  }

  lemma ClearSame(ds: seq<Digit>, v: seq<Digit>, k: nat)
    requires |ds| <= |v| && forall j | 0 <= j < |v| :: Placed(ds, j) == v[j]
    ensures ClearFrom(ds, k) <==> ClearAbove(v, k)
  {
    if ClearFrom(ds, k) {
      forall j | k <= j < |v| ensures !HasA(v[j]) {
        assert Placed(ds, j) == v[j];
      }
    }
    if ClearAbove(v, k) {
      forall j | k <= j < |ds| ensures !HasA(Placed(ds, j)) {
        assert !HasA(v[j]);
      }
    }
  }

  /** A z below a zero does not survive: 0z0 comes back as zz0. */
  lemma ZeroAboveZIsLost()
    ensures ScannedBack([D0, DZ, D0]) != [D0, DZ, D0]
  {
    var v := [D0, DZ, D0];
    assert v[..2] == [D0, DZ];
    assert Suppressed(v) == Suppressed(v[..2]) == Downward([D0, DZ]);
    assert ClearAbove(v, 2) && v[2] != DZ;
    RoundTripIff(v);
  }

  // ----- Printing and scanning in a row -----

  /** Equal digits are equal words. */
  lemma DigitsDetermine(a0: seq<Bits>, b0: seq<Bits>, a: seq<Bits>, b: seq<Bits>)
    requires |a0| == |b0| == |a| == |b|
    requires forall k | 0 <= k < 32 * |a| :: DigitAt(a0, b0, k) == DigitAt(a, b, k)
    ensures a0 == a && b0 == b
  {
    forall i | 0 <= i < |a| ensures a0[i] == a[i] && b0[i] == b[i] {
      forall j | 0 <= j < 32 ensures a0[i][j] == a[i][j] && b0[i][j] == b[i][j] {
        assert DigitAt(a0, b0, 32 * i + j) == DigitAt(a, b, 32 * i + j);
      }
    }
  }

  lemma PrintedFits(v: seq<Digit>)
    requires v != []
    ensures FitsWords(Read(DigitText(v)), |v|) && Grown(Read(DigitText(v)), |v|) == |v|
  {
    hide Read, Suppressed, Printed, Significant;
    PrintedIsToken(v);
  }

  /** Printing a constant and scanning the text rebuilds size and words if and only if it survives. */
  method PrintAndScan(a: array<Bits>, b: array<Bits>, size: nat)
    returns (size1: nat, a1: array<Bits>, b1: array<Bits>)
    requires size > 0 && a.Length == b.Length == LastWord(size) + 1 && Clean(a[..], b[..], size)
    ensures size1 == size && a1.Length == b1.Length == a.Length
    ensures a1[..] == a[..] && b1[..] == b[..] <==> Survives(DigitsOf(a[..], b[..], size))
  {
    hide Printed, IsToken, QuoteAt, Read, Suppressed, Scanned, Survives, FitsWords, Grown, DigitsOf, DigitAt,
      DigitText, SizeOf;
    ghost var v := DigitsOf(a[..], b[..], size);
    var text := PrintBit(a, b, size);
    PrintedIsToken(v);
    PrintedFits(v);
    var ok;
    ok, size1, a1, b1 := ScanVBinary(text);
    RoundTripIff(v);
    SameDigits(a[..], b[..], a1[..], b1[..], v);
  }

  lemma SameDigits(a: seq<Bits>, b: seq<Bits>, a1: seq<Bits>, b1: seq<Bits>, v: seq<Digit>)
    requires v != [] && |a| == |b| == |a1| == |b1| == LastWord(|v|) + 1 && v == DigitsOf(a, b, |v|)
    requires Clean(a, b, |v|) && Clean(a1, b1, |v|)
    requires forall k | 0 <= k < |v| :: DigitAt(a1, b1, k) == Scanned(Read(DigitText(v)), k)
    ensures a1 == a && b1 == b <==> ScannedBack(v) == v
  {
    hide Read, DigitText, Scanned, DigitAt;
    if ScannedBack(v) == v {
      forall k | 0 <= k < 32 * |a| ensures DigitAt(a, b, k) == DigitAt(a1, b1, k) {
        if k < |v| {
          assert ScannedBack(v)[k] == v[k];
        }
      }
      DigitsDetermine(a, b, a1, b1);
    }
    if a1 == a && b1 == b {
      assert ScannedBack(v) == v;
    }
  }
}
