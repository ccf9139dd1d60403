/**
The operand stack of the runtime: a ring of eight cached entries in front of a plain stack, into
which they are spilled oldest first. Small integers are spilled as tagged words. Bit vectors of
more than 32 bits stay in buffers that are exchanged with those of the accumulator.
*/
module VStack {
  import opened Words
  import opened Machine

  const VSP_LIMIT := 8

  // ----- Tagged integers -----

  /** The two highest bits of the word are equal. */
  predicate FitsSmall(x: Int32) {
    var u := if x < 0 then x + 0x1_0000_0000 else x;
    u < 0x4000_0000 || u >= 0xc000_0000
  }

  /** (x & 0x80000000) | (x << 1) | 1 */
  function Tag(x: Int32): Int32 {
    var u := if x < 0 then x + 0x1_0000_0000 else x;
    var shifted := (2 * u) % 0x1_0000_0000;
    var sign := if u >= 0x8000_0000 && shifted < 0x8000_0000 then 0x8000_0000 else 0;
    Wrap(sign + shifted + 1)
  }

  /** x >> 1, keeping the sign */
  function Untag(w: Int32): Int32 { w / 2 }

  predicate IsTagged(w: Int32) { w % 2 == 1 }

  /** The tag is odd, and it gives the integer back if and only if the code would tag it. */
  lemma TagRoundTrip(x: Int32)
    ensures IsTagged(Tag(x))
    ensures Untag(Tag(x)) == x <==> FitsSmall(x)
    ensures FitsSmall(x) <==> -0x4000_0000 <= x < 0x4000_0000
    ensures FitsSmall(x) ==> Tag(x) == 2 * x + 1
  {
  }

  // ----- Values and their two representations -----

  /** A value on the stack; a bit vector has the words of its size. */
  datatype Val = IntVal(i: Int32) | BitVal(a: seq<Word>, b: seq<Word>, size: nat) | NullVal

  predicate ValOk(v: Val) {
    v.BitVal? ==> v.size > 0 && |v.a| == |v.b| == LastWord(v.size) + 1
  }

  predicate IsWide(v: Val) { v.BitVal? && v.size > 32 }

  /** A cached entry. A wide vector lies in the two buffers of its place in the ring. */
  datatype Entry =
    | EInt(i: Int32)
    | ESbit(a: Word, b: Word, size: nat)
    | EVbit(bufA: array<Word>, bufB: array<Word>, size: nat)
    | ENull

  /** A word of the plain stack: a tagged integer, or a pointer to a copy of the value. */
  datatype Cell = Tagged(w: Int32) | Boxed(v: Val)

  function Decode(c: Cell): Val {
    match c
    case Tagged(w) => IntVal(Untag(w))
    case Boxed(v) => v
  }

  function DecodeAll(cells: seq<Cell>): (vals: seq<Val>)
    ensures |vals| == |cells| && forall k | 0 <= k < |cells| :: vals[k] == Decode(cells[k])
  {
    seq(|cells|, k requires 0 <= k < |cells| => Decode(cells[k]))
  }

  lemma DecodeOneMore(cells: seq<Cell>, c: Cell)
    ensures DecodeAll(cells + [c]) == DecodeAll(cells) + [Decode(c)]
  {
  }

  /** The index i places after start in the ring. */
  function Around(start: nat, i: nat): (k: nat)
    ensures k < VSP_LIMIT
  {
    (start + i) % VSP_LIMIT
  }

  /** The n values of the ring from index start on. */
  function Ring(vals: seq<Val>, start: nat, n: nat): (r: seq<Val>)
    requires |vals| == VSP_LIMIT
    ensures |r| == n && forall i | 0 <= i < n :: r[i] == vals[Around(start, i)]
  {
    seq(n, i requires 0 <= i < n => vals[Around(start, i)])
  }

  lemma NextIndex(k: nat)
    requires k < VSP_LIMIT
    ensures Around(k, 1) == if k + 1 == VSP_LIMIT then 0 else k + 1
  {
  }

  lemma RingSame(vals: seq<Val>, vals': seq<Val>, start: nat, n: nat, k: nat)
    requires |vals| == |vals'| == VSP_LIMIT
    requires forall j | 0 <= j < VSP_LIMIT && j != k :: vals'[j] == vals[j]
    requires forall i | 0 <= i < n :: Around(start, i) != k
    ensures Ring(vals', start, n) == Ring(vals, start, n)
  {
  }

  /** Writing the place behind the last of n < 8 entries adds its value. */
  lemma RingPush(vals: seq<Val>, vals': seq<Val>, start: nat, n: nat)
    requires |vals| == |vals'| == VSP_LIMIT && start < VSP_LIMIT && n < VSP_LIMIT
    requires forall k | 0 <= k < VSP_LIMIT && k != Around(start, n) :: vals'[k] == vals[k]
    ensures Ring(vals', start, n + 1) == Ring(vals, start, n) + [vals'[Around(start, n)]]
  {
    forall i | 0 <= i < n ensures Around(start, i) != Around(start, n) {
    }
  }

  lemma RingTail(vals: seq<Val>, start: nat, n: nat)
    requires |vals| == VSP_LIMIT && start < VSP_LIMIT && n > 0
    ensures Ring(vals, start, n) == [vals[start]] + Ring(vals, Around(start, 1), n - 1)
  {
    hide Around;
    AroundZero(start);
    var tail := Ring(vals, Around(start, 1), n - 1);
    forall i | 0 <= i < n - 1 ensures tail[i] == Ring(vals, start, n)[i + 1] {
      AroundNext(start, i);
    }
  }

  lemma AroundZero(start: nat)
    requires start < VSP_LIMIT
    ensures Around(start, 0) == start
  {
  }

  lemma AroundNext(start: nat, i: nat)
    ensures Around(Around(start, 1), i) == Around(start, i + 1)
  {
  }

  // ----- The machine with one plain stack -----

  datatype Cmd = Load(v: Val) | Push | Pop | Flush | PopN(n: nat)

  /** Besides the stack: how many of the newest values are cached, what the accumulator shows, and
      the size it has last had as a bit vector. `known` is false while that size is of no use: after
      the pop of a cached wide vector with fewer words than it asks for. */
  datatype Plain = Plain(stack: seq<Val>, cached: nat, acc: Val, size: nat, known: bool)

  predicate Legal(p: Plain, c: Cmd) {
    match c
    case Load(v) => ValOk(v)
    case Push => p.known
    case Pop => |p.stack| > 0
    case Flush => true
    case PopN(n) => n <= |p.stack|
  }

  /** The vector v taken to have the given size. */
  predicate CanResize(v: Val, size: nat) {
    v.BitVal? && size > 0 && LastWord(size) < |v.a| && LastWord(size) < |v.b|
  }

  function Resized(v: Val, size: nat): Val
    requires CanResize(v, size)
  {
    BitVal(v.a[..LastWord(size) + 1], v.b[..LastWord(size) + 1], size)
  }

  function SizeAfter(v: Val, size: nat): nat { if v.BitVal? then v.size else size }

  /** A pop of v: a cached wide vector comes with the size that the accumulator had. */
  function PlainPop(p: Plain): Plain
    requires |p.stack| > 0
  {
    var v, rest := p.stack[|p.stack| - 1], p.stack[..|p.stack| - 1];
    if p.cached == 0 then Plain(rest, 0, v, SizeAfter(v, p.size), true)
    else if !IsWide(v) then Plain(rest, p.cached - 1, v, SizeAfter(v, p.size), true)
    else if CanResize(v, p.size) then Plain(rest, p.cached - 1, Resized(v, p.size), p.size, true)
    else Plain(rest, p.cached - 1, v, p.size, false)
  }

  function PlainStep(p: Plain, c: Cmd): Plain
    requires Legal(p, c)
  {
    match c
    case Load(v) => p.(acc := v, size := SizeAfter(v, p.size), known := true)
    case Push => p.(stack := p.stack + [p.acc], cached := if p.cached < VSP_LIMIT then p.cached + 1 else p.cached)
    case Pop => PlainPop(p)
    case Flush => p.(cached := 0)
    case PopN(n) => p.(stack := p.stack[..|p.stack| - n], cached := if n < p.cached then p.cached - n else 0)
  }

  predicate AllLegal(p: Plain, cmds: seq<Cmd>)
    decreases cmds
  {
    cmds != [] ==> Legal(p, cmds[0]) && AllLegal(PlainStep(p, cmds[0]), cmds[1..])
  }

  function PlainRun(p: Plain, cmds: seq<Cmd>): Plain
    requires AllLegal(p, cmds)
    decreases cmds
  {
    if cmds == [] then p else PlainRun(PlainStep(p, cmds[0]), cmds[1..])
  }

  /** The height of the stack of n values never falls below m. */
  predicate StaysAbove(n: nat, m: nat, cmds: seq<Cmd>)
    decreases cmds
  {
    m <= n && (cmds != [] ==>
      match cmds[0]
      case Load(_) => StaysAbove(n, m, cmds[1..])
      case Push => StaysAbove(n + 1, m, cmds[1..])
      case Pop => n > 0 && StaysAbove(n - 1, m, cmds[1..])
      case Flush => StaysAbove(n, m, cmds[1..])
      case PopN(k) => k <= n && StaysAbove(n - k, m, cmds[1..]))
  }

  ghost predicate AllNarrow(p: Plain) {
    p.known && !IsWide(p.acc) && forall k | 0 <= k < |p.stack| :: !IsWide(p.stack[k])
  }

  /** As long as no wide vector is loaded, every run is legal that takes off no more than there is; and
      below the lowest height that it comes to, it leaves the stack as it was. */
  lemma {:induction false} NarrowRunsAreLegal(p: Plain, cmds: seq<Cmd>, m: nat)
    requires AllNarrow(p) && StaysAbove(|p.stack|, m, cmds)
    requires forall c | c in cmds && c.Load? :: ValOk(c.v) && !IsWide(c.v)
    ensures AllLegal(p, cmds) && AllNarrow(PlainRun(p, cmds))
    ensures m <= |PlainRun(p, cmds).stack| && PlainRun(p, cmds).stack[..m] == p.stack[..m]
    decreases cmds
  {
    if cmds != [] {
      assert cmds[0] in cmds && forall c | c in cmds[1..] :: c in cmds;
      var p1 := PlainStep(p, cmds[0]);
      assert m <= |p1.stack| by {
        assert StaysAbove(|p1.stack|, m, cmds[1..]);
      }
      assert p1.stack[..m] == p.stack[..m];
      NarrowRunsAreLegal(p1, cmds[1..], m);
    }
  }

  /** What has been pushed comes back when the values on top of it have been taken off again. */
  lemma PushedComesBack(p: Plain, v: Val, cmds: seq<Cmd>)
    requires AllNarrow(p) && ValOk(v) && !IsWide(v) && StaysAbove(|p.stack| + 1, |p.stack| + 1, cmds)
    requires forall c | c in cmds && c.Load? :: ValOk(c.v) && !IsWide(c.v)
    ensures var p1 := PlainStep(PlainStep(p, Load(v)), Push);
      && AllLegal(p1, cmds)
      && (|PlainRun(p1, cmds).stack| == |p.stack| + 1 ==>
          var end := PlainStep(PlainRun(p1, cmds), Cmd.Pop);
          end.acc == v && end.stack == p.stack && end.known)
  {
    var p1 := PlainStep(PlainStep(p, Load(v)), Push);
    var n := |p.stack|;
    assert p1.stack == p.stack + [v];
    NarrowRunsAreLegal(p1, cmds, n + 1);
    var q := PlainRun(p1, cmds);
    if |q.stack| == n + 1 {
      assert q.stack[..n + 1] == q.stack && p1.stack[..n + 1] == p1.stack;
      assert q.stack[..n] == p.stack;
    }
    hide AllLegal, PlainRun;
  }

  // ----- The buffers -----

  /** No two of the buffers of the ring and of the accumulator are the same array. */
  predicate Separate(a: seq<array<Word>>, b: seq<array<Word>>, x: array<Word>, y: array<Word>)
    requires |a| == |b| == VSP_LIMIT
  {
    && x != y
    && (forall i | 0 <= i < VSP_LIMIT :: a[i] != x && a[i] != y && b[i] != x && b[i] != y)
    && (forall i, j | 0 <= i < VSP_LIMIT && 0 <= j < VSP_LIMIT :: a[i] != b[j])
    && (forall i, j | 0 <= i < j < VSP_LIMIT :: a[i] != a[j] && b[i] != b[j])
  }

  lemma SeparateAcc(a: seq<array<Word>>, b: seq<array<Word>>, x: array<Word>, y: array<Word>)
    requires |a| == |b| == VSP_LIMIT && Separate(a, b, x, y)
    ensures x != y && forall j | 0 <= j < VSP_LIMIT :: a[j] !in {x, y} && b[j] !in {x, y}
  {
  }

  lemma SeparateParts(a: seq<array<Word>>, b: seq<array<Word>>, x: array<Word>, y: array<Word>, k: nat)
    requires |a| == |b| == VSP_LIMIT && Separate(a, b, x, y) && k < VSP_LIMIT
    ensures a[k] != b[k] && a[k] !in {x, y} && b[k] !in {x, y}
    ensures forall j | 0 <= j < VSP_LIMIT && j != k :: a[j] !in {a[k], b[k]} && b[j] !in {a[k], b[k]}
  {
  }

  lemma SeparateNew(a: seq<array<Word>>, b: seq<array<Word>>, x: array<Word>, y: array<Word>, k: nat,
                    p: array<Word>, q: array<Word>)
    requires |a| == |b| == VSP_LIMIT && Separate(a, b, x, y) && k < VSP_LIMIT
    requires p != q && p !in a && p !in b && p !in {x, y} && q !in a && q !in b && q !in {x, y}
    ensures Separate(a[k := p], b[k := q], x, y)
  {
  }

  lemma SeparateAccNew(a: seq<array<Word>>, b: seq<array<Word>>, x: array<Word>, y: array<Word>, p: array<Word>,
                       q: array<Word>)
    requires |a| == |b| == VSP_LIMIT && Separate(a, b, x, y)
    requires p != q && p !in a && p !in b && p !in {x, y} && q !in a && q !in b && q !in {x, y}
    ensures Separate(a, b, p, q)
  {
  }

  lemma SeparateSwap(a: seq<array<Word>>, b: seq<array<Word>>, x: array<Word>, y: array<Word>, k: nat)
    requires |a| == |b| == VSP_LIMIT && Separate(a, b, x, y) && k < VSP_LIMIT
    ensures Separate(a[k := x], b[k := y], a[k], b[k])
  {
  }

  datatype AccType = AInt | ABit | ANull

  class VStack {
    var slots: seq<Entry>
    var vsTop: nat
    var vsp: nat
    var vsA: seq<array<Word>>
    var vsB: seq<array<Word>>
    var stack: seq<Cell>
    var accType: AccType
    var accInt: Int32
    var accA: array<Word>
    var accB: array<Word>
    var accSize: nat

    /** An empty stack, with buffers of wd words. */
    constructor (wd: nat)
      requires wd > 0
      ensures Valid() && Contents() == [] && accType == ANull && vsp == 0
    {
      var bufs := NewBuffers(18, wd);
      slots := [ENull, ENull, ENull, ENull, ENull, ENull, ENull, ENull];
      vsTop, vsp, stack := 0, 0, [];
      vsA, vsB, accA, accB := bufs[..8], bufs[8..16], bufs[16], bufs[17];
      accType, accInt, accSize := ANull, 0, 0;
      new;
      assert forall i | 0 <= i < 8 :: vsA[i] == bufs[i] && vsB[i] == bufs[8 + i];
    }

    static method NewBuffers(n: nat, wd: nat) returns (bufs: seq<array<Word>>)
      ensures |bufs| == n && forall i | 0 <= i < n :: fresh(bufs[i]) && bufs[i].Length == wd
      ensures forall i, j | 0 <= i < j < n :: bufs[i] != bufs[j]
    {
      bufs := [];
      while |bufs| < n
        invariant |bufs| <= n && forall i | 0 <= i < |bufs| :: fresh(bufs[i]) && bufs[i].Length == wd
        invariant forall i, j | 0 <= i < j < |bufs| :: bufs[i] != bufs[j]
      {
        var b := new Word[wd](_ => 0);
        bufs := bufs + [b];
      }
    }

    /** The ring index of the oldest cached entry. */
    function Oldest(): (p: nat)
      requires vsTop < VSP_LIMIT && vsp <= VSP_LIMIT
      reads this`vsTop, this`vsp
      ensures p < VSP_LIMIT
    {
      if vsTop < vsp then VSP_LIMIT + vsTop - vsp else vsTop - vsp
    }

    ghost predicate EntryOk(k: nat)
      requires k < |slots| && k < |vsA| && k < |vsB|
      reads this`slots, this`vsA, this`vsB
    {
      match slots[k]
      case ESbit(_, _, size) => 0 < size <= 32
      case EVbit(bufA, bufB, size) =>
        size > 32 && bufA == vsA[k] && bufB == vsB[k] && LastWord(size) < vsA[k].Length
          && LastWord(size) < vsB[k].Length
      case _ => true
    }

    /** The buffers never alias, and a wide entry in use lies in the buffers of its place. */
    ghost predicate Valid()
      reads this
    {
      && |slots| == |vsA| == |vsB| == VSP_LIMIT && vsTop < VSP_LIMIT && vsp <= VSP_LIMIT
      && Separate(vsA, vsB, accA, accB)
      && (forall k | 0 <= k < VSP_LIMIT :: vsA[k].Length == vsB[k].Length >= 1)
      && accA.Length == accB.Length >= 1
      && (forall k | 0 <= k < |stack| :: ValOk(Decode(stack[k])))
      && Live(Oldest(), vsp)
    }

    /** The n entries from index start on are well formed. */
    ghost predicate Live(start: nat, n: nat)
      requires |slots| == |vsA| == |vsB| == VSP_LIMIT
      reads this`slots, this`vsA, this`vsB
    {
      forall i | 0 <= i < n :: EntryOk(Around(start, i))
    }

    lemma LiveTail(start: nat, n: nat)
      requires |slots| == |vsA| == |vsB| == VSP_LIMIT && start < VSP_LIMIT && n > 0 && Live(start, n)
      ensures EntryOk(start) && Live(Around(start, 1), n - 1)
    {
      hide EntryOk, Around;
      AroundZero(start);
      assert EntryOk(Around(start, 0));
      forall i | 0 <= i < n - 1 ensures EntryOk(Around(Around(start, 1), i)) {
        AroundNext(start, i);
        assert EntryOk(Around(start, i + 1));
      }
    }

    ghost function EntryVal(k: nat): Val
      requires k < |slots| && k < |vsA| && k < |vsB|
      reads this`slots, this`vsA, this`vsB, vsA, vsB
    {
      if !EntryOk(k) then NullVal
      else
        match slots[k]
        case EInt(i) => IntVal(i)
        case ESbit(a, b, size) => BitVal([a], [b], size)
        case EVbit(bufA, bufB, size) => BitVal(vsA[k][..LastWord(size) + 1], vsB[k][..LastWord(size) + 1], size)
        case ENull => NullVal
    }

    ghost function Vals(): (vals: seq<Val>)
      requires |slots| == |vsA| == |vsB| == VSP_LIMIT
      reads this`slots, this`vsA, this`vsB, vsA, vsB
      ensures |vals| == VSP_LIMIT && forall k | 0 <= k < VSP_LIMIT :: vals[k] == EntryVal(k)
    {
      [EntryVal(0), EntryVal(1), EntryVal(2), EntryVal(3), EntryVal(4), EntryVal(5), EntryVal(6), EntryVal(7)]
    }

    /** The one plain stack that the two parts stand for. */
    ghost function Contents(): (s: seq<Val>)
      requires Valid()
      reads this, vsA, vsB
      ensures |s| == |stack| + vsp
    {
      DecodeAll(stack) + Ring(Vals(), Oldest(), vsp)
    }

    /** The accumulator holds as many words as its size says. */
    ghost predicate AccOk()
      reads this`accType, this`accSize, this`accA, this`accB
    {
      accType == ABit ==> accSize > 0 && LastWord(accSize) < accA.Length && LastWord(accSize) < accB.Length
    }

    ghost function AccVal(): Val
      requires AccOk()
      reads this`accType, this`accInt, this`accSize, this`accA, this`accB, accA, accB
    {
      match accType
      case AInt => IntVal(accInt)
      case ABit => BitVal(accA[..LastWord(accSize) + 1], accB[..LastWord(accSize) + 1], accSize)
      case ANull => NullVal
    }

    /** What is spilled for an entry: a tagged word, or a copy. */
    method CellOf(k: nat) returns (c: Cell)
      requires |slots| == |vsA| == |vsB| == VSP_LIMIT && k < VSP_LIMIT && EntryOk(k)
      ensures Decode(c) == EntryVal(k) && ValOk(Decode(c))
    {
      match slots[k]
      case EInt(i) =>
        TagRoundTrip(i);
        c := if FitsSmall(i) then Tagged(Tag(i)) else Boxed(IntVal(i));
      case ESbit(a, b, size) => c := Boxed(BitVal([a], [b], size));
      case EVbit(bufA, bufB, size) =>
        c := Boxed(BitVal(bufA[..LastWord(size) + 1], bufB[..LastWord(size) + 1], size));
      case ENull => c := Boxed(NullVal);
    }

    /** Moves the oldest cached entry to the plain stack. */
    method SpillOldest()
      requires Valid() && vsp > 0
      modifies this`stack, this`vsp
      ensures Valid() && vsp == old(vsp) - 1 && Contents() == old(Contents())
    {
      hide EntryOk, EntryVal, Decode, DecodeAll, Around, Ring, Live, Separate, Vals;
      var k := Oldest();
      ghost var vals := Vals();
      RingTail(vals, k, vsp);
      LiveTail(k, vsp);
      var c := CellOf(k);
      ghost var before := stack;
      stack := stack + [c];
      vsp := vsp - 1;
      DecodeOneMore(before, c);
      NextIndex(k);
      assert Vals() == vals && Oldest() == Around(k, 1);
      assert Contents() == (DecodeAll(before) + [Decode(c)]) + Ring(vals, Oldest(), vsp);
    }

    /** Flush: nothing stays cached. */
    method Flush()
      requires Valid()
      modifies this`stack, this`vsp
      ensures Valid() && vsp == 0 && Contents() == old(Contents())
      ensures DecodeAll(stack) == old(Contents())
    {
      while vsp > 0
        invariant Valid() && Contents() == old(Contents())
        decreases vsp
      {
        SpillOldest();
      }
    }

    /** Takes the newest entry out of the ring. */
    method DropCached()
      requires Valid() && vsp > 0
      modifies this`vsp, this`vsTop
      ensures Valid() && vsp == old(vsp) - 1 && vsTop == old(if vsTop > 0 then vsTop - 1 else VSP_LIMIT - 1)
      ensures vsTop == Around(old(Oldest()), vsp) && Oldest() == old(Oldest())
      ensures EntryOk(vsTop) && EntryVal(vsTop) == old(Contents())[|old(Contents())| - 1]
      ensures Contents() == old(Contents())[..|old(Contents())| - 1]
    {
      hide EntryOk, EntryVal;
      vsTop := if vsTop > 0 then vsTop - 1 else VSP_LIMIT - 1;
      vsp := vsp - 1;
    }

    /** Pop-n: drops cached entries first, then words of the plain stack. */
    method PopN(n: nat)
      requires Valid() && n <= |Contents()|
      modifies this`stack, this`vsp, this`vsTop
      ensures Valid() && Contents() == old(Contents())[..|old(Contents())| - n]
      ensures vsp == if n < old(vsp) then old(vsp) - n else 0
    {
      hide EntryOk, EntryVal, Ring, Decode;
      var left := n;
      ghost var all := Contents();
      while vsp > 0 && left > 0
        invariant Valid() && 0 <= left <= n <= |all| && Contents() == all[..|all| - (n - left)]
        invariant vsp == old(vsp) - (n - left)
        decreases left
      {
        DropCached();
        left := left - 1;
      }
      if left > 0 {
        PopStack(left);
      }
    }

    /** The loop over the plain stack. */
    method PopStack(n: nat)
      requires Valid() && vsp == 0 && n <= |stack|
      modifies this`stack
      ensures Valid() && Contents() == old(Contents())[..|old(Contents())| - n]
    {
      var left := n;
      while left > 0
        invariant 0 <= left <= n && stack == old(stack)[..|old(stack)| - (n - left)]
      {
        stack := stack[..|stack| - 1];
        left := left - 1;
      }
    }

    // ----- Push -----

    /** The place for the next entry, none of the cached ones. */
    lemma FreePlace(k: nat)
      requires vsTop < VSP_LIMIT && vsp < VSP_LIMIT && k == vsTop
      ensures k == Around(Oldest(), vsp) && forall i | 0 <= i < vsp :: Around(Oldest(), i) != k
    {
    }

    /** Everything that the cached entries but k depend on. */
    twostate predicate SameBut(k: nat)
      reads this, vsA, vsB
    {
      old(Shape()) && Shape() && forall j | 0 <= j < VSP_LIMIT && j != k ::
        slots[j] == old(slots[j]) && vsA[j] == old(vsA[j]) && vsB[j] == old(vsB[j])
        && vsA[j][..] == old(vsA[j][..]) && vsB[j][..] == old(vsB[j][..])
    }

    predicate Shape()
      reads this`slots, this`vsA, this`vsB
    {
      |slots| == |vsA| == |vsB| == VSP_LIMIT
    }

    twostate lemma SameEntries(k: nat)
      requires SameBut(k)
      ensures forall j | 0 <= j < VSP_LIMIT && j != k :: EntryOk(j) == old(EntryOk(j)) && Vals()[j] == old(Vals())[j]
    {
    }

    /** Gives place k buffers of at least n words. */
    method MakeRoom(k: nat, n: nat)
      requires Valid() && vsp < VSP_LIMIT && k == vsTop && n > 0
      modifies this`vsA, this`vsB
      ensures Valid() && vsA[k].Length >= n && SameBut(k)
      ensures (vsA[k] == old(vsA[k]) && vsB[k] == old(vsB[k])) || (fresh(vsA[k]) && fresh(vsB[k]))
    {
      hide EntryOk, EntryVal, Separate, Around, Ring;
      if n > vsA[k].Length {
        var newA := new Word[n](_ => 0);
        var newB := new Word[n](_ => 0);
        SeparateNew(vsA, vsB, accA, accB, k, newA, newB);
        vsA, vsB := vsA[k := newA], vsB[k := newB];
        FreePlace(k);
        SameEntries(k);
      }
    }

    /** Copies the first n words of the accumulator into the buffers of place k. */
    method CopyAcc(k: nat, n: nat)
      requires Shape() && k < VSP_LIMIT && n <= accA.Length && n <= accB.Length && n <= vsA[k].Length
               && n <= vsB[k].Length
      requires vsA[k] != vsB[k] && vsA[k] !in {accA, accB} && vsB[k] !in {accA, accB}
      modifies vsA[k], vsB[k]
      ensures vsA[k][..n] == accA[..n] && vsB[k][..n] == accB[..n]
    {
      var tabA, tabB := vsA[k], vsB[k];
      for i := 0 to n
        invariant tabA[..i] == accA[..i] && tabB[..i] == accB[..i]
      {
        tabA[i] := accA[i];
        tabB[i] := accB[i];
      }
    }

    /** A wide value goes into the buffers of the free place k. */
    method StoreWide(k: nat)
      requires Valid() && AccOk() && vsp < VSP_LIMIT && k == vsTop && accType == ABit && accSize > 32
      modifies this`slots, this`vsA, this`vsB, vsA[k], vsB[k]
      ensures Shape() && Separate(vsA, vsB, accA, accB) && vsA[k].Length == vsB[k].Length >= 1
      ensures SameBut(k) && AccOk() && AccVal() == old(AccVal())
      ensures EntryOk(k) && EntryVal(k) == AccVal()
      ensures (vsA[k] == old(vsA[k]) && vsB[k] == old(vsB[k])) || (fresh(vsA[k]) && fresh(vsB[k]))
    {
      hide Separate, Around, Ring, Live;
      SeparateParts(vsA, vsB, accA, accB, k);
      var n := LastWord(accSize) + 1;
      MakeRoom(k, n);
      SeparateParts(vsA, vsB, accA, accB, k);
      CopyAcc(k, n);
      slots := slots[k := EVbit(vsA[k], vsB[k], accSize)];
    }

    /** Any other value fits into the entry itself. */
    method StoreSmall(k: nat)
      requires Valid() && AccOk() && k < VSP_LIMIT && !(accType == ABit && accSize > 32)
      modifies this`slots
      ensures Shape() && SameBut(k) && AccOk() && AccVal() == old(AccVal())
      ensures EntryOk(k) && EntryVal(k) == AccVal()
    {
      hide Separate, Around, Ring, Live;
      var e := match accType
        case AInt => EInt(accInt)
        case ABit => ESbit(accA[0], accB[0], accSize)
        case ANull => ENull;
      slots := slots[k := e];
    }

    /** Puts the value of the accumulator into the free place k. */
    method Store(k: nat)
      requires Valid() && AccOk() && vsp < VSP_LIMIT && k == vsTop
      modifies this`slots, this`vsA, this`vsB, vsA[k], vsB[k]
      ensures Valid() && Contents() == old(Contents()) && AccOk() && AccVal() == old(AccVal())
      ensures EntryOk(k) && EntryVal(k) == AccVal()
      ensures forall j | 0 <= j < VSP_LIMIT ::
                (vsA[j] == old(vsA[j]) && vsB[j] == old(vsB[j])) || (fresh(vsA[j]) && fresh(vsB[j]))
    {
      hide Separate, Around, Ring, Decode, EntryOk, EntryVal, AccVal, AccOk;
      if accType == ABit && accSize > 32 {
        StoreWide(k);
      } else {
        StoreSmall(k);
      }
      FreePlace(k);
      SameEntries(k);
      RingSame(old(Vals()), Vals(), Oldest(), vsp, k);
    }

    /** Counts the entry that has been put into the free place. */
    method Advance()
      requires Valid() && vsp < VSP_LIMIT && EntryOk(vsTop)
      modifies this`vsTop, this`vsp
      ensures Valid() && Contents() == old(Contents()) + [old(EntryVal(vsTop))] && vsp == old(vsp) + 1
    {
      hide EntryVal, EntryOk, Separate, Around, Ring, Decode, Vals;
      FreePlace(vsTop);
      RingPush(Vals(), Vals(), Oldest(), vsp);
      vsTop := (vsTop + 1) % VSP_LIMIT;
      vsp := vsp + 1;
    }

    /** Push: the value of the accumulator comes on top; the accumulator keeps it. */
    method Push()
      requires Valid() && AccOk()
      modifies this`slots, this`vsA, this`vsB, this`vsTop, this`vsp, this`stack, vsA, vsB
      ensures Valid() && AccOk() && AccVal() == old(AccVal())
      ensures Contents() == old(Contents()) + [AccVal()] && Kept()
      ensures vsp == if old(vsp) < VSP_LIMIT then old(vsp) + 1 else VSP_LIMIT
    {
      hide EntryVal, EntryOk, Separate, Live, DecodeAll, Decode, Ring, Around, AccVal, AccOk, Contents;
      if vsp == VSP_LIMIT {
        SpillOldest();
      }
      Store(vsTop);
      Advance();
    }

    // ----- Pop -----

    /** The accumulator shows the value v; of a bit vector, its words. */
    ghost predicate Holds(v: Val)
      reads this, accA, accB
    {
      match v
      case IntVal(i) => accType == AInt && accInt == i
      case NullVal => accType == ANull
      case BitVal(a, b, _) =>
        accType == ABit && |a| <= accA.Length && |b| <= accB.Length && accA[..|a|] == a && accB[..|b|] == b
    }

    method TakeSmall(a: Word, b: Word, size: nat)
      requires Valid() && 0 < size <= 32
      modifies this`accSize, this`accType, accA, accB
      ensures Valid() && Contents() == old(Contents())
      ensures AccOk() && AccVal() == BitVal([a], [b], size) && Holds(AccVal())
    {
      hide EntryOk, EntryVal, Around, Ring, Live, Separate, Decode, DecodeAll, AccVal, AccOk, Holds;
      SeparateAcc(vsA, vsB, accA, accB);
      FillAcc([a], [b], size);
      AccIsApart();
    }

    /** The buffers of place k change places with those of the accumulator. */
    method SwapFields(k: nat)
      requires Valid() && k < VSP_LIMIT && slots[k].EVbit? && EntryOk(k)
      modifies this`slots, this`vsA, this`vsB, this`accA, this`accB, this`accType
      ensures Shape() && Separate(vsA, vsB, accA, accB) && accA.Length == accB.Length >= 1
      ensures forall k | 0 <= k < VSP_LIMIT :: vsA[k].Length == vsB[k].Length >= 1
      ensures SameBut(k) && Holds(old(EntryVal(k))) && Kept()
    {
      hide Separate, Live;
      SeparateSwap(vsA, vsB, accA, accB, k);
      var tabA, tabB := vsA[k], vsB[k];
      vsA, vsB := vsA[k := accA], vsB[k := accB];
      accA, accB, accType := tabA, tabB, ABit;
      slots := slots[k := EInt(0)];
    }

    method SwapBuffers(k: nat)
      requires Valid() && vsp < VSP_LIMIT && k == vsTop && slots[k].EVbit? && EntryOk(k)
      modifies this`slots, this`vsA, this`vsB, this`accA, this`accB, this`accType
      ensures Valid() && Contents() == old(Contents()) && Holds(old(EntryVal(k))) && Kept()
    {
      hide Around, Ring, Separate, Decode, EntryOk, EntryVal, Holds, Kept;
      SwapFields(k);
      FreePlace(k);
      SameEntries(k);
      RingSame(old(Vals()), Vals(), Oldest(), vsp, k);
    }

    /** Takes a value that lies in the entry itself. */
    method TakeOther(e: Entry)
      requires Valid() && !e.EVbit? && (e.ESbit? ==> 0 < e.size <= 32)
      modifies this`accType, this`accInt, this`accSize, accA, accB
      ensures Valid() && Contents() == old(Contents()) && AccOk() && Holds(AccVal())
      ensures AccVal() == match e
        case EInt(i) => IntVal(i)
        case ESbit(a, b, size) => BitVal([a], [b], size)
        case _ => NullVal
      ensures accSize == SizeAfter(AccVal(), old(accSize))
    {
      hide EntryOk, Around, Ring, Live, Separate, Decode, EntryVal, DecodeAll;
      match e
      case EInt(i) => accInt, accType := i, AInt;
      case ENull => accType := ANull;
      case ESbit(a, b, size) => TakeSmall(a, b, size);
    }

    /** Takes the value of the entry that has been dropped from the ring; the size of a wide one
        does not reach the accumulator. */
    method TakeEntry(k: nat)
      requires Valid() && vsp < VSP_LIMIT && k == vsTop && EntryOk(k)
      modifies this`slots, this`vsA, this`vsB, this`accA, this`accB, this`accType, this`accInt, this`accSize, accA, accB
      ensures Valid() && Contents() == old(Contents()) && Holds(old(EntryVal(k))) && Kept()
      ensures if IsWide(old(EntryVal(k))) then accSize == old(accSize)
              else AccOk() && AccVal() == old(EntryVal(k)) && accSize == SizeAfter(AccVal(), old(accSize))
    {
      hide Around, Ring, Separate, Decode, Live, Holds, AccVal, AccOk, Contents;
      if slots[k].EVbit? {
        SwapBuffers(k);
      } else {
        TakeOther(slots[k]);
      }
    }

    /** Pops the newest cached value. */
    method PopCached()
      requires Valid() && vsp > 0
      modifies this, accA, accB
      ensures Valid() && Contents() == old(Contents())[..|old(Contents())| - 1] && Kept()
      ensures var v := old(Contents())[|old(Contents())| - 1];
        && Holds(v)
        && (if IsWide(v) then accSize == old(accSize)
            else AccOk() && AccVal() == v && accSize == SizeAfter(v, old(accSize)))
      ensures vsp == old(vsp) - 1
    {
      hide EntryOk, EntryVal, Around, Ring, Live, Decode, Separate, Holds;
      DropCached();
      TakeEntry(vsTop);
    }

    /** Gives the accumulator buffers of at least n words. */
    method GrowAcc(n: nat)
      requires Valid() && n > 0
      modifies this`accA, this`accB
      ensures Valid() && accA.Length >= n && Contents() == old(Contents()) && Kept()
      ensures (accA == old(accA) && accB == old(accB)) || (fresh(accA) && fresh(accB))
    {
      hide EntryOk, EntryVal, Around, Ring, Live, Separate, Decode, Vals;
      if accA.Length < n {
        var newA := new Word[n](_ => 0);
        var newB := new Word[n](_ => 0);
        SeparateAccNew(vsA, vsB, accA, accB, newA, newB);
        accA, accB := newA, newB;
      }
    }

    method FillAcc(a: seq<Word>, b: seq<Word>, size: nat)
      requires Valid() && size > 0 && |a| == |b| == LastWord(size) + 1 && LastWord(size) < accA.Length
      modifies this`accSize, this`accType, accA, accB
      ensures AccOk() && AccVal() == BitVal(a, b, size) && Holds(AccVal())
    {
      hide EntryOk, EntryVal, Around, Ring, Live, Decode;
      var n := LastWord(size) + 1;
      var tabA, tabB := accA, accB;
      for i := 0 to n
        invariant tabA[..i] == a[..i] && tabB[..i] == b[..i]
        modifies tabA, tabB
      {
        tabA[i], tabB[i] := a[i], b[i];
      }
      accSize, accType := size, ABit;
    }

    /** What is written to the accumulator does not reach the stack. */
    twostate lemma AccIsApart()
      requires old(Valid())
      requires slots == old(slots) && vsA == old(vsA) && vsB == old(vsB) && accA == old(accA) && accB == old(accB)
      requires vsTop == old(vsTop) && vsp == old(vsp) && stack == old(stack)
      requires forall j | 0 <= j < |vsA| :: vsA[j][..] == old(vsA[j][..])
      requires forall j | 0 <= j < |vsB| :: vsB[j][..] == old(vsB[j][..])
      ensures Valid() && Contents() == old(Contents())
    {
      hide Around, Ring, Separate, Decode;
      SameEntries(VSP_LIMIT);
      assert Vals() == old(Vals());
    }

    /** A boxed bit vector is copied into the accumulator, which grows when it is too short. */
    method LoadBits(a: seq<Word>, b: seq<Word>, size: nat)
      requires Valid() && size > 0 && |a| == |b| == LastWord(size) + 1
      modifies this`accSize, this`accType, this`accA, this`accB, accA, accB
      ensures Valid() && Contents() == old(Contents()) && Kept()
      ensures AccOk() && AccVal() == BitVal(a, b, size) && Holds(AccVal())
    {
      hide EntryOk, EntryVal, Around, Ring, Live, Separate, Decode, AccVal, AccOk, Holds, DecodeAll;
      GrowAcc(LastWord(size) + 1);
      label L:
      SeparateAcc(vsA, vsB, accA, accB);
      FillAcc(a, b, size);
      AccIsApart@L();
    }

    /** Pops a word of the plain stack. */
    method PopPlain()
      requires Valid() && vsp == 0 && |stack| > 0
      modifies this, accA, accB
      ensures Valid() && Contents() == old(Contents())[..|old(Contents())| - 1] && Kept()
      ensures AccOk() && AccVal() == old(Contents())[|old(Contents())| - 1] && Holds(AccVal())
      ensures vsp == 0 && accSize == SizeAfter(AccVal(), old(accSize))
    {
      hide EntryOk, EntryVal, Around, Ring, Live, Separate, Vals;
      var c := stack[|stack| - 1];
      PopStack(1);
      match c {
        case Tagged(w) => accInt, accType := Untag(w), AInt;
        case Boxed(IntVal(i)) => accInt, accType := i, AInt;
        case Boxed(NullVal) => accType := ANull;
        case Boxed(BitVal(a, b, size)) => LoadBits(a, b, size);
      }
    }

    /** Pop: the newest value goes to the accumulator, with its size unless it is a cached wide one. */
    method Pop()
      requires Valid() && |Contents()| > 0
      modifies this, accA, accB
      ensures Valid() && Contents() == old(Contents())[..|old(Contents())| - 1] && Kept()
      ensures var v := old(Contents())[|old(Contents())| - 1];
        && Holds(v)
        && (if old(vsp) > 0 && IsWide(v) then accSize == old(accSize)
            else AccOk() && AccVal() == v && accSize == SizeAfter(v, old(accSize)))
        && (AccOk() && AccVal() == v <==> !(old(vsp) > 0 && IsWide(v)) || old(accSize) == v.size)
      ensures vsp == if old(vsp) > 0 then old(vsp) - 1 else 0
    {
      hide EntryOk, EntryVal, Around, Ring, Live, Separate, Holds, Kept, AccVal, AccOk;
      ghost var v := Contents()[|Contents()| - 1];
      if vsp > 0 {
        NewestOk();
        PopCached();
        if IsWide(v) {
          CompleteIff(v);
        }
      } else {
        PopPlain();
      }
    }

    /** The newest cached value is well formed. */
    lemma NewestOk()
      requires Valid() && vsp > 0
      ensures ValOk(Contents()[|Contents()| - 1])
    {
      hide Separate, DecodeAll;
      var k := Around(Oldest(), vsp - 1);
      assert EntryOk(k) && Contents()[|Contents()| - 1] == Vals()[k];
    }

    /** The accumulator has the value v, whose words it shows, exactly when it has its size. */
    lemma CompleteIff(v: Val)
      requires Holds(v) && ValOk(v) && v.BitVal?
      ensures AccOk() && AccVal() == v <==> accSize == v.size
      ensures CanResize(v, accSize) ==> AccOk() && AccVal() == Resized(v, accSize) && Holds(Resized(v, accSize))
    {
    }

    /** No buffer has come in from elsewhere, unless newly allocated. */
    twostate predicate Kept()
      reads this
    {
      && old(Shape()) && Shape()
      && KeptOne(accA) && KeptOne(accB)
      && forall j | 0 <= j < VSP_LIMIT :: KeptOne(vsA[j]) && KeptOne(vsB[j])
    }

    twostate predicate KeptOne(new b: array<Word>)
    {
      b in old(vsA) || b in old(vsB) || b == old(accA) || b == old(accB) || fresh(b)
    }

    lemma HoldsAcc()
      requires AccOk()
      ensures Holds(AccVal())
    {
    }

    /** Shows the accumulator and the stack as the plain machine has them. */
    ghost predicate Shows(p: Plain)
      reads this, vsA, vsB, accA, accB
    {
      && Valid() && Contents() == p.stack && vsp == p.cached && accSize == p.size && Holds(p.acc)
      && (p.known ==> AccOk() && AccVal() == p.acc)
    }

    /** An instruction that sets the accumulator. */
    method DoLoad(v: Val)
      requires Valid() && ValOk(v)
      modifies this`accType, this`accInt, this`accSize, this`accA, this`accB, accA, accB
      ensures Valid() && Contents() == old(Contents()) && Kept() && AccOk() && AccVal() == v && Holds(v)
      ensures accSize == SizeAfter(v, old(accSize))
    {
      hide EntryOk, EntryVal, Around, Ring, Live, Separate, Decode, DecodeAll;
      match v
      case IntVal(i) => accInt, accType := i, AInt;
      case NullVal => accType := ANull;
      case BitVal(a, b, size) => LoadBits(a, b, size);
    }

    method DoPop(ghost p: Plain)
      requires Shows(p) && |p.stack| > 0
      modifies this, accA, accB
      ensures Shows(PlainPop(p)) && Kept()
    {
      hide EntryOk, EntryVal, Around, Ring, Live, Separate, Decode, DecodeAll, AccVal, AccOk, Contents, Holds, Valid,
        CanResize;
      ghost var v := Contents()[|Contents()| - 1];
      if vsp > 0 {
        NewestOk();
      }
      Pop();
      if p.cached > 0 && IsWide(v) {
        CompleteIff(v);
      }
    }

    method Do(c: Cmd, ghost p: Plain)
      requires Shows(p) && Legal(p, c)
      modifies this, vsA, vsB, accA, accB
      ensures Shows(PlainStep(p, c)) && Kept()
    {
      hide EntryOk, EntryVal, Around, Ring, Live, Separate, Decode, DecodeAll, AccVal, AccOk, Contents;
      match c
      case Load(v) => DoLoad(v);
      case Push =>
        Push();
        HoldsAcc();
      case Pop => DoPop(p);
      case Flush => Flush();
      case PopN(n) => PopN(n);
    }

    /** The ring in front of the stack refines the plain machine, over every run. */
    method Run(cmds: seq<Cmd>, ghost p: Plain)
      requires Shows(p) && AllLegal(p, cmds)
      modifies this, vsA, vsB, accA, accB
      ensures Shows(PlainRun(p, cmds))
    {
      hide PlainStep, Legal, EntryOk, EntryVal, Around, Ring, Live, Separate, Contents, Holds, AccVal, AccOk, Decode,
        ValOk;
      ghost var q := p;
      var i := 0;
      while i < |cmds|
        invariant 0 <= i <= |cmds| && Shows(q) && AllLegal(q, cmds[i..]) && PlainRun(q, cmds[i..]) == PlainRun(p, cmds)
        invariant Kept()
      {
        Do(cmds[i], q);
        q := PlainStep(q, cmds[i]);
        assert cmds[i..][1..] == cmds[i + 1..];
        i := i + 1;
      }
    }
  }
}
