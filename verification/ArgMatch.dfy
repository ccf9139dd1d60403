/**
Matching of actual arguments against the argument pattern of a function: a greedy walk over a
regular expression, which may return early, give up or go round for ever. What it accepts
belongs to the language of the pattern.
*/
module ArgMatch {

  /** An actual argument: left to its default, or an expression. */
  datatype Arg = DefaultArg | Given(e: int)

  /** Whether an expression has the type that the numbered formal argument asks for. */
  type Types = (nat, Arg) -> bool

  datatype Pattern =
    | Wildcard
    // a declared variable: passed by reference or with an initial value
    | Variable(id: nat, isVar: bool, hasInit: bool)
    | Formal(id: nat)
    | Optional(body: Patterns)
    | ZeroOrMore(body: Patterns)
    | OneOrMore(body: Patterns)
    // the alternatives, each cut off from the next one
    | OneOf(choices: Choices)

  datatype Patterns = Nil | Cons(head: Pattern, next: Patterns)

  datatype Choices = NoChoice | Choice(first: Patterns, others: Choices)

  predicate Accepts(types: Types, p: Pattern, a: Arg) {
    match p
    case Wildcard => true
    case Variable(id, isVar, hasInit) => if !isVar && a.DefaultArg? then hasInit else types(id, a)
    case Formal(id) => types(id, a)
    case _ => false
  }

  /** `arg_end_check`: the rest of the pattern can do without further arguments. */
  predicate EndCheck(ps: Patterns) {
    match ps
    case Nil => true
    case Cons(ZeroOrMore(_), next) => EndCheck(next)
    case Cons(OneOrMore(body), next) => EndCheck(body) && EndCheck(next)
    case Cons(Optional(_), next) => EndCheck(next)
    case Cons(Variable(_, isVar, hasInit), next) => hasInit && !isVar && EndCheck(next)
    case _ => false
  }

  // ----- The language of a pattern -----

  /** The pattern generates the arguments; `last` tells whether they are the last of the call, so
      that variables with an initial value may be left out behind them. */
  ghost predicate Generates(types: Types, ps: Patterns, args: seq<Arg>, last: bool)
    decreases ps, 1, 0
  {
    match ps
    case Nil => args == []
    case Cons(Optional(body), next) =>
      Generates(types, next, args, last)
      || exists k | 0 <= k <= |args| ::
           Generates(types, body, args[..k], last && k == |args|) && Generates(types, next, args[k..], last)
    case Cons(ZeroOrMore(_), _) => Repeats(types, ps, args, last)
    case Cons(OneOrMore(body), _) =>
      exists k | 0 <= k <= |args| ::
        Generates(types, body, args[..k], last && k == |args|) && Repeats(types, ps, args[k..], last)
    case Cons(OneOf(choices), next) =>
      exists k | 0 <= k <= |args| ::
        GeneratesOne(types, choices, args[..k], last && k == |args|) && Generates(types, next, args[k..], last)
    case Cons(p, next) =>
      || (args != [] && Accepts(types, p, args[0]) && Generates(types, next, args[1..], last))
      || (args == [] && last && p.Variable? && p.hasInit && !p.isVar && Generates(types, next, args, last))
  }

  ghost predicate Repeats(types: Types, ps: Patterns, args: seq<Arg>, last: bool)
    requires ps.Cons? && (ps.head.ZeroOrMore? || ps.head.OneOrMore?)
    decreases ps, 0, |args|
  {
    Generates(types, ps.next, args, last)
    || exists k | 1 <= k <= |args| ::
         Generates(types, ps.head.body, args[..k], last && k == |args|) && Repeats(types, ps, args[k..], last)
  }

  ghost predicate GeneratesOne(types: Types, choices: Choices, args: seq<Arg>, last: bool)
    decreases choices, 2, 0
  {
    choices.Choice?
    && (Generates(types, choices.first, args, last) || GeneratesOne(types, choices.others, args, last))
  }

  lemma {:induction false} EndCheckGenerates(types: Types, ps: Patterns)
    requires EndCheck(ps)
    ensures Generates(types, ps, [], true)
    decreases ps
  {
    if ps.Cons? {
      EndCheckGenerates(types, ps.next);
      if ps.head.OneOrMore? {
        EndCheckGenerates(types, ps.head.body);
        var none: seq<Arg> := [];
        assert none[..0] == none && none[0..] == none;
      }
    }
  }

  /** Without alternatives the end check is exact: the rest can do without further arguments if and
      only if the pattern generates the empty list. */
  lemma {:induction false} EndCheckIff(types: Types, ps: Patterns)
    requires NoAlternatives(ps)
    ensures EndCheck(ps) <==> Generates(types, ps, [], true)
    decreases ps
  {
    if EndCheck(ps) {
      EndCheckGenerates(types, ps);
    } else if ps.Cons? {
      EndCheckIff(types, ps.next);
      if ps.head.OneOrMore? {
        EndCheckIff(types, ps.head.body);
        NoneRepeated(types, ps);
      } else if ps.head.ZeroOrMore? {
        NoneRepeated(types, ps);
      } else if ps.head.Optional? {
        NoneTaken(types, ps);
      }
    }
  }

  lemma NoneRepeated(types: Types, ps: Patterns)
    requires ps.Cons? && (ps.head.ZeroOrMore? || ps.head.OneOrMore?)
    ensures Repeats(types, ps, [], true) == Generates(types, ps.next, [], true)
    ensures Generates(types, ps, [], true) ==
            ((ps.head.OneOrMore? ==> Generates(types, ps.head.body, [], true)) && Generates(types, ps.next, [], true))
  {
    var none: seq<Arg> := [];
    assert none[..0] == none && none[0..] == none;
  }

  lemma NoneTaken(types: Types, ps: Patterns)
    requires ps.Cons? && ps.head.Optional?
    ensures Generates(types, ps, [], true) == Generates(types, ps.next, [], true)
  {
    var none: seq<Arg> := [];
    assert none[..0] == none && none[0..] == none;
  }

  // ----- The walk -----

  /** How a walk ends: with a return code and the number of arguments gone past, or never. */
  datatype Result = Returns(code: int, used: nat) | Hangs

  function Past(n: nat, r: Result): Result {
    if r.Hangs? then Hangs else Returns(r.code, n + r.used)
  }

  /** What the main loop of `check_arg_type` comes to from here; `ret` is 1 once something has matched. */
  function Walk(types: Types, ps: Patterns, args: seq<Arg>, ret: int): (r: Result)
    requires ret == 0 || ret == 1
    ensures r.Returns? ==> r.code in {-2, -1, 0, 1} && r.used <= |args|
    ensures r.Returns? && r.code == 1 && ret == 0 && args != [] ==> r.used > 0
    ensures r.Returns? && r.code == 0 ==> ret == 0 && r.used == 0 && args != []
    decreases ps, 1, 0
  {
    if args == [] then Returns(if EndCheck(ps) then 1 else -2, 0)
    else
      match ps
      case Nil => Returns(ret, 0)
      case Cons(Optional(body), next) =>
        var r := Walk(types, body, args, 0);
        if r.Hangs? then Hangs
        else if r.code > 0 then Past(r.used, Walk(types, next, args[r.used..], 1))
        else Walk(types, next, args, ret)
      case Cons(ZeroOrMore(_), _) => WalkRepeat(types, ps, args, ret)
      case Cons(OneOrMore(body), _) =>
        var r := Walk(types, body, args, 0);
        if r.Hangs? then Hangs
        else if r.code > 0 then Past(r.used, WalkRepeat(types, ps, args[r.used..], 1))
        else Returns(-1, 0)
      case Cons(OneOf(choices), next) =>
        var r := WalkChoices(types, choices, args);
        if r.Hangs? then Hangs else Past(r.used, Walk(types, next, args[r.used..], 1))
      case Cons(p, next) =>
        if Accepts(types, p, args[0]) then Past(1, Walk(types, next, args[1..], 1)) else Returns(-1, 0)
  }

  /** The inner loop of a repetition. Without arguments left it goes round for ever when the body
      needs none. */
  function WalkRepeat(types: Types, ps: Patterns, args: seq<Arg>, ret: int): (r: Result)
    requires ps.Cons? && (ps.head.ZeroOrMore? || ps.head.OneOrMore?) && (ret == 0 || ret == 1)
    ensures r.Returns? ==> r.code in {-2, -1, 0, 1} && r.used <= |args|
    ensures r.Returns? && r.code == 1 && ret == 0 && args != [] ==> r.used > 0
    ensures r.Returns? && r.code == 0 ==> ret == 0 && r.used == 0 && args != []
    decreases ps, 0, |args|
  {
    if args == [] then
      if EndCheck(ps.head.body) then Hangs else Walk(types, ps.next, args, ret)
    else
      var r := Walk(types, ps.head.body, args, 0);
      if r.Hangs? then Hangs
      else if r.code > 0 then Past(r.used, WalkRepeat(types, ps, args[r.used..], 1))
      else Walk(types, ps.next, args, ret)
  }

  /** The loop over alternatives goes round for ever when none of them matches. */
  function WalkChoices(types: Types, choices: Choices, args: seq<Arg>): (r: Result)
    requires args != []
    ensures r.Returns? ==> r.code == 1 && 0 < r.used <= |args|
    decreases choices, 2, 0
  {
    match choices
    case NoChoice => Hangs
    case Choice(first, others) =>
      var r := Walk(types, first, args, 0);
      if r.Hangs? then Hangs else if r.code > 0 then r else WalkChoices(types, others, args)
  }

  // ----- What the walk accepts is in the language -----

  lemma {:induction false} WalkIsSound(types: Types, ps: Patterns, args: seq<Arg>, ret: int)
    requires ret == 0 || ret == 1
    ensures var r := Walk(types, ps, args, ret);
      r.Returns? && r.code >= 0 ==> Generates(types, ps, args[..r.used], r.used == |args|)
    decreases ps, 2, 0
  {
    hide Walk, WalkRepeat, Generates, Repeats, GeneratesOne, Accepts, EndCheck;
    if args == [] {
      EmptyIsSound(types, ps, args, ret);
    } else {
      match ps
      case Nil => EmptyIsSound(types, ps, args, ret);
      case Cons(Optional(_), _) => OptionalIsSound(types, ps, args, ret);
      case Cons(ZeroOrMore(_), _) => ZeroOrMoreIsSound(types, ps, args, ret);
      case Cons(OneOrMore(_), _) => OneOrMoreIsSound(types, ps, args, ret);
      case Cons(OneOf(_), _) => OneOfIsSound(types, ps, args, ret);
      case Cons(_, _) => SingleIsSound(types, ps, args, ret);
    }
  }

  lemma EmptyIsSound(types: Types, ps: Patterns, args: seq<Arg>, ret: int)
    requires (ret == 0 || ret == 1) && (args == [] || ps.Nil?)
    ensures var r := Walk(types, ps, args, ret);
      r.Returns? && r.code >= 0 ==> Generates(types, ps, args[..r.used], r.used == |args|)
  {
    hide Generates, Accepts, EndCheck;
    assert args[..0] == [];
    if args != [] {
      NilGenerates(types, args[..0], false);
    } else if EndCheck(ps) {
      EndCheckGenerates(types, ps);
    }
  }

  lemma {:induction false} ZeroOrMoreIsSound(types: Types, ps: Patterns, args: seq<Arg>, ret: int)
    requires (ret == 0 || ret == 1) && ps.Cons? && ps.head.ZeroOrMore? && args != []
    ensures var r := Walk(types, ps, args, ret);
      r.Returns? && r.code >= 0 ==> Generates(types, ps, args[..r.used], r.used == |args|)
    decreases ps, 1, 0
  {
    hide WalkRepeat, Generates, Repeats, GeneratesOne, Accepts, EndCheck;
    var r := Walk(types, ps, args, ret);
    RepeatIsSound(types, ps, args, ret);
    if r.Returns? && r.code >= 0 {
      ZeroGenerates(types, ps, args[..r.used], r.used == |args|);
    }
  }

  lemma {:induction false} SingleIsSound(types: Types, ps: Patterns, args: seq<Arg>, ret: int)
    requires (ret == 0 || ret == 1) && args != []
    requires ps.Cons? && (ps.head.Wildcard? || ps.head.Variable? || ps.head.Formal?)
    ensures var r := Walk(types, ps, args, ret);
      r.Returns? && r.code >= 0 ==> Generates(types, ps, args[..r.used], r.used == |args|)
    decreases ps, 0, 0
  {
    hide Walk, Generates, Repeats, GeneratesOne, Accepts, EndCheck;
    SingleStep(types, ps, args, ret);
    var r := Walk(types, ps, args, ret);
    if r.Returns? && r.code >= 0 {
      WalkIsSound(types, ps.next, args[1..], 1);
      Joined(args, 1, r.used);
      SingleGenerates(types, ps, args[..r.used], r.used == |args|);
    }
  }

  lemma {:induction false} OptionalIsSound(types: Types, ps: Patterns, args: seq<Arg>, ret: int)
    requires (ret == 0 || ret == 1) && ps.Cons? && ps.head.Optional? && args != []
    ensures var r := Walk(types, ps, args, ret);
      r.Returns? && r.code >= 0 ==> Generates(types, ps, args[..r.used], r.used == |args|)
    decreases ps, 0, 0
  {
    hide Walk, Generates, Repeats, GeneratesOne, Accepts, EndCheck;
    OptionalStep(types, ps, args, ret);
    var r := Walk(types, ps, args, ret);
    if r.Returns? && r.code >= 0 {
      var r1 := Walk(types, ps.head.body, args, 0);
      if r1.code > 0 {
        WalkIsSound(types, ps.head.body, args, 0);
        WalkIsSound(types, ps.next, args[r1.used..], 1);
        Joined(args, r1.used, r.used);
        OptionalTaken(types, ps, args[..r.used], r1.used, r.used == |args|);
      } else {
        WalkIsSound(types, ps.next, args, ret);
        OptionalSkipped(types, ps, args[..r.used], r.used == |args|);
      }
    }
  }

  lemma {:induction false} OneOrMoreIsSound(types: Types, ps: Patterns, args: seq<Arg>, ret: int)
    requires (ret == 0 || ret == 1) && ps.Cons? && ps.head.OneOrMore? && args != []
    ensures var r := Walk(types, ps, args, ret);
      r.Returns? && r.code >= 0 ==> Generates(types, ps, args[..r.used], r.used == |args|)
    decreases ps, 1, 0
  {
    hide Generates, Repeats, GeneratesOne, Accepts, EndCheck;
    var r := Walk(types, ps, args, ret);
    if r.Returns? && r.code >= 0 {
      var r1 := Walk(types, ps.head.body, args, 0);
      WalkIsSound(types, ps.head.body, args, 0);
      RepeatIsSound(types, ps, args[r1.used..], 1);
      Joined(args, r1.used, r.used);
      OneGenerates(types, ps, args[..r.used], r1.used, r.used == |args|);
    }
  }

  lemma {:induction false} OneOfIsSound(types: Types, ps: Patterns, args: seq<Arg>, ret: int)
    requires (ret == 0 || ret == 1) && ps.Cons? && ps.head.OneOf? && args != []
    ensures var r := Walk(types, ps, args, ret);
      r.Returns? && r.code >= 0 ==> Generates(types, ps, args[..r.used], r.used == |args|)
    decreases ps, 0, 0
  {
    hide Generates, Repeats, GeneratesOne, Accepts, EndCheck;
    var r := Walk(types, ps, args, ret);
    if r.Returns? && r.code >= 0 {
      var r1 := WalkChoices(types, ps.head.choices, args);
      ChoiceIsSound(types, ps.head.choices, args);
      WalkIsSound(types, ps.next, args[r1.used..], 1);
      Joined(args, r1.used, r.used);
      ChoiceGenerates(types, ps, args[..r.used], r1.used, r.used == |args|);
    }
  }

  lemma SingleStep(types: Types, ps: Patterns, args: seq<Arg>, ret: int)
    requires (ret == 0 || ret == 1) && args != []
    requires ps.Cons? && (ps.head.Wildcard? || ps.head.Variable? || ps.head.Formal?)
    ensures Walk(types, ps, args, ret) ==
            if Accepts(types, ps.head, args[0]) then Past(1, Walk(types, ps.next, args[1..], 1)) else Returns(-1, 0)
  {
  }

  lemma OptionalStep(types: Types, ps: Patterns, args: seq<Arg>, ret: int)
    requires (ret == 0 || ret == 1) && ps.Cons? && ps.head.Optional? && args != []
    ensures var r := Walk(types, ps.head.body, args, 0);
      Walk(types, ps, args, ret) ==
        if r.Hangs? then Hangs
        else if r.code > 0 then Past(r.used, Walk(types, ps.next, args[r.used..], 1))
        else Walk(types, ps.next, args, ret)
  {
  }

  lemma RepeatStep(types: Types, ps: Patterns, args: seq<Arg>, ret: int)
    requires ps.Cons? && (ps.head.ZeroOrMore? || ps.head.OneOrMore?) && (ret == 0 || ret == 1)
    ensures var r := Walk(types, ps.head.body, args, 0);
      WalkRepeat(types, ps, args, ret) ==
        if r.Hangs? || (args == [] && r.code > 0) then Hangs
        else if r.code > 0 then Past(r.used, WalkRepeat(types, ps, args[r.used..], 1))
        else Walk(types, ps.next, args, ret)
  {
    EmptyBody(types, ps.head.body);
    hide Walk;
  }

  lemma EmptyBody(types: Types, body: Patterns)
    ensures forall ret | ret == 0 || ret == 1 ::
              Walk(types, body, [], ret) == Returns(if EndCheck(body) then 1 else -2, 0)
  {
  }

  lemma Joined(args: seq<Arg>, m: nat, n: nat)
    requires m <= n <= |args|
    ensures args[..n][..m] == args[..m] && args[..n][m..] == args[m..][..n - m]
  {
  }

  lemma NilGenerates(types: Types, args: seq<Arg>, last: bool)
    requires args == []
    ensures Generates(types, Nil, args, last)
  {
  }

  lemma OptionalTaken(types: Types, ps: Patterns, args: seq<Arg>, k: nat, last: bool)
    requires ps.Cons? && ps.head.Optional? && k <= |args|
    requires Generates(types, ps.head.body, args[..k], last && k == |args|)
             && Generates(types, ps.next, args[k..], last)
    ensures Generates(types, ps, args, last)
  {
  }

  lemma OptionalSkipped(types: Types, ps: Patterns, args: seq<Arg>, last: bool)
    requires ps.Cons? && ps.head.Optional? && Generates(types, ps.next, args, last)
    ensures Generates(types, ps, args, last)
  {
  }

  lemma ZeroGenerates(types: Types, ps: Patterns, args: seq<Arg>, last: bool)
    requires ps.Cons? && ps.head.ZeroOrMore? && Repeats(types, ps, args, last)
    ensures Generates(types, ps, args, last)
  {
  }

  lemma OneGenerates(types: Types, ps: Patterns, args: seq<Arg>, k: nat, last: bool)
    requires ps.Cons? && ps.head.OneOrMore? && k <= |args|
    requires Generates(types, ps.head.body, args[..k], last && k == |args|) && Repeats(types, ps, args[k..], last)
    ensures Generates(types, ps, args, last)
  {
  }

  lemma ChoiceGenerates(types: Types, ps: Patterns, args: seq<Arg>, k: nat, last: bool)
    requires ps.Cons? && ps.head.OneOf? && k <= |args|
    requires GeneratesOne(types, ps.head.choices, args[..k], last && k == |args|)
             && Generates(types, ps.next, args[k..], last)
    ensures Generates(types, ps, args, last)
  {
  }

  lemma SingleGenerates(types: Types, ps: Patterns, args: seq<Arg>, last: bool)
    requires ps.Cons? && args != [] && Accepts(types, ps.head, args[0]) && Generates(types, ps.next, args[1..], last)
    ensures Generates(types, ps, args, last)
  {
  }

  lemma {:induction false} RepeatIsSound(types: Types, ps: Patterns, args: seq<Arg>, ret: int)
    requires ps.Cons? && (ps.head.ZeroOrMore? || ps.head.OneOrMore?) && (ret == 0 || ret == 1)
    ensures var r := WalkRepeat(types, ps, args, ret);
      r.Returns? && r.code >= 0 ==> Repeats(types, ps, args[..r.used], r.used == |args|)
    decreases ps, 0, |args|
  {
    hide Generates, Accepts, Walk, WalkRepeat, EndCheck;
    RepeatStep(types, ps, args, ret);
    EmptyBody(types, ps.head.body);
    var r := WalkRepeat(types, ps, args, ret);
    if r.Returns? && r.code >= 0 {
      if args != [] && Walk(types, ps.head.body, args, 0).code > 0 {
        var r1 := Walk(types, ps.head.body, args, 0);
        WalkIsSound(types, ps.head.body, args, 0);
        RepeatIsSound(types, ps, args[r1.used..], 1);
        Joined(args, r1.used, r.used);
      } else {
        WalkIsSound(types, ps.next, args, ret);
      }
    }
  }

  lemma {:induction false} ChoiceIsSound(types: Types, choices: Choices, args: seq<Arg>)
    requires args != []
    ensures var r := WalkChoices(types, choices, args);
      r.Returns? ==> GeneratesOne(types, choices, args[..r.used], r.used == |args|)
    decreases choices, 2, 0
  {
    hide Generates, Accepts, Walk;
    if choices.Choice? {
      WalkIsSound(types, choices.first, args, 0);
      ChoiceIsSound(types, choices.others, args);
    }
  }

  // ----- The check of a call -----

  /** `actual_arg_checking`: the return code, and the number of arguments gone past. */
  function CheckCall(types: Types, ps: Patterns, args: seq<Arg>): Result {
    var r := Walk(types, ps, args, 0);
    if r.Hangs? || r.code < 0 then r
    else if r.code == 0 && !EndCheck(ps) then Returns(0, r.used)
    else if r.used < |args| then Returns(-2, r.used)
    else Returns(1, r.used)
  }

  /** When nothing has matched although there are arguments, the whole pattern can do without. */
  lemma {:induction false} SkippedCanEnd(types: Types, ps: Patterns, args: seq<Arg>)
    ensures var r := Walk(types, ps, args, 0); r.Returns? && r.code == 0 ==> EndCheck(ps)
    decreases ps
  {
    hide Walk, WalkRepeat, Accepts, EndCheck;
    EmptyBody(types, ps);
    if args != [] {
      match ps
      case Nil => EndOfNil();
      case Cons(Optional(body), next) =>
        OptionalStep(types, ps, args, 0);
        SkippedCanEnd(types, next, args);
        OptionalCanEnd(ps);
        LaterCode(types, next, args, body);
      case Cons(ZeroOrMore(body), next) =>
        ZeroOrMoreStep(types, ps, args, 0);
        RepeatStep(types, ps, args, 0);
        SkippedCanEnd(types, next, args);
        OptionalCanEnd(ps);
        RepeatedCode(types, ps, args);
      case Cons(_, _) => TakenCode(types, ps, args);
    }
  }

  lemma OptionalCanEnd(ps: Patterns)
    requires ps.Cons? && (ps.head.Optional? || ps.head.ZeroOrMore?)
    ensures EndCheck(ps) == EndCheck(ps.next)
  {
  }

  /** Once something has matched the code is not 0. */
  lemma LaterCode(types: Types, next: Patterns, args: seq<Arg>, body: Patterns)
    ensures var r := Walk(types, body, args, 0);
      r.Returns? && r.code > 0 ==>
        var r' := Walk(types, next, args[r.used..], 1); r'.Returns? ==> r'.code != 0
  {
  }

  lemma RepeatedCode(types: Types, ps: Patterns, args: seq<Arg>)
    requires ps.Cons? && (ps.head.ZeroOrMore? || ps.head.OneOrMore?)
    ensures var r := Walk(types, ps.head.body, args, 0);
      r.Returns? && r.code > 0 ==>
        var r' := WalkRepeat(types, ps, args[r.used..], 1); r'.Returns? ==> r'.code != 0
  {
  }

  lemma TakenCode(types: Types, ps: Patterns, args: seq<Arg>)
    requires ps.Cons? && !ps.head.Optional? && !ps.head.ZeroOrMore? && args != []
    ensures var r := Walk(types, ps, args, 0); r.Returns? ==> r.code != 0
  {
  }

  /** The code for too few arguments is never returned: what is missing is reported as -2, whether
      there are too many or too few. */
  lemma NeverTooFew(types: Types, ps: Patterns, args: seq<Arg>)
    ensures var r := CheckCall(types, ps, args); r.Returns? ==> r.code != 0
  {
    hide Walk, EndCheck;
    SkippedCanEnd(types, ps, args);
  }

  /** An accepted call has all its arguments in the language of the pattern. */
  lemma AcceptedIsInLanguage(types: Types, ps: Patterns, args: seq<Arg>)
    requires var r := CheckCall(types, ps, args); r.Returns? && r.code == 1
    ensures CheckCall(types, ps, args).used == |args| && Generates(types, ps, args, true)
  {
    hide Walk, Generates;
    WalkIsSound(types, ps, args, 0);
    assert args[..|args|] == args;
  }

  // ----- Single arguments -----

  predicate IsSingle(p: Pattern) { p.Wildcard? || p.Variable? || p.Formal? }

  /** What a single argument needs: a wildcard takes anything; a formal argument the right type; a
      variable an expression of the right type, and it is left to its default if it has one, or, when
      it is passed by reference, if the type check lets that pass. */
  lemma SingleCall(types: Types, p: Pattern, a: Arg)
    requires IsSingle(p)
    ensures CheckCall(types, Cons(p, Nil), [a]) ==
      var taken := match p
        case Wildcard => true
        case Formal(id) => types(id, a)
        case Variable(id, isVar, hasInit) => if a.Given? || isVar then types(id, a) else hasInit;
      if taken then Returns(1, 1) else Returns(-1, 0)
  {
    OneArgument(types, p, a);
    hide Walk;
  }

  /** Without an argument only a variable does that has an initial value and is passed by value. */
  lemma SingleLeftOut(types: Types, p: Pattern)
    requires IsSingle(p)
    ensures CheckCall(types, Cons(p, Nil), []) ==
            if p.Variable? && p.hasInit && !p.isVar then Returns(1, 0) else Returns(-2, 0)
  {
    EmptyBody(types, Cons(p, Nil));
    hide Walk;
    assert EndCheck(Nil);
  }

  function RowOf(ps: seq<Pattern>): Patterns {
    if ps == [] then Nil else Cons(ps[0], RowOf(ps[1..]))
  }

  /** A call in which the argument alone would be accepted for the part alone. */
  ghost predicate Takes(types: Types, p: Pattern, a: Arg) {
    CheckCall(types, Cons(p, Nil), [a]) == Returns(1, 1)
  }

  ghost predicate LeavesOut(types: Types, p: Pattern) {
    CheckCall(types, Cons(p, Nil), []) == Returns(1, 0)
  }

  /** The first m arguments are taken one by one. */
  ghost predicate TakesFirst(types: Types, ps: seq<Pattern>, args: seq<Arg>, m: nat) {
    m <= |ps| && m <= |args| && forall i | 0 <= i < m :: Takes(types, ps[i], args[i])
  }

  ghost predicate LeavesOutFrom(types: Types, ps: seq<Pattern>, m: nat) {
    forall i | m <= i < |ps| :: LeavesOut(types, ps[i])
  }

  /** The return code for a row of single arguments, and where the check stops. An argument of the
      wrong type is -1 at that argument; too many are -2 behind the last that has a place; too few
      are -2 at the end, unless what is missing may be left out. */
  lemma RowCodes(types: Types, ps: seq<Pattern>, args: seq<Arg>, m: nat)
    requires forall p | p in ps :: IsSingle(p)
    requires m <= |ps| && m <= |args| && forall i | 0 <= i < m :: Takes(types, ps[i], args[i])
    ensures var r := CheckCall(types, RowOf(ps), args);
      && (m < |ps| && m < |args| && !Takes(types, ps[m], args[m]) ==> r == Returns(-1, m))
      && (m == |ps| < |args| ==> r == Returns(-2, m))
      && (m == |args| ==> r == Returns(if LeavesOutFrom(types, ps, m) then 1 else -2, m))
  {
    hide Walk, Takes, LeavesOut, EndCheck;
    RowWalk(types, ps, args, m, 0);
    var ret := if m > 0 then 1 else 0;
    if m == |args| {
      RestLeftOut(types, ps, m);
      EmptyBody(types, RowOf(ps[m..]));
      assert args[m..] == [];
    } else if m == |ps| {
      NilAtEnd(types, args[m..]);
      EndOfNil();
      assert ps[m..] == [] && RowOf([]) == Nil;
      assert m == 0 ==> RowOf(ps) == Nil;
    } else if !Takes(types, ps[m], args[m]) {
      assert ps[m] in ps;
      RestRefused(types, ps, args, m, ret);
    }
  }

  lemma RestRefused(types: Types, ps: seq<Pattern>, args: seq<Arg>, m: nat, ret: int)
    requires m < |ps| && m < |args| && IsSingle(ps[m]) && !Takes(types, ps[m], args[m]) && (ret == 0 || ret == 1)
    ensures Walk(types, RowOf(ps[m..]), args[m..], ret) == Returns(-1, 0)
  {
    hide Walk, Accepts;
    OneArgument(types, ps[m], args[m]);
    SingleStep(types, RowOf(ps[m..]), args[m..], ret);
  }

  lemma RestLeftOut(types: Types, ps: seq<Pattern>, m: nat)
    requires m <= |ps| && forall p | p in ps :: IsSingle(p)
    ensures EndCheck(RowOf(ps[m..])) <==> LeavesOutFrom(types, ps, m)
  {
    hide LeavesOut, EndCheck;
    assert forall p | p in ps[m..] :: p in ps;
    RowEnds(types, ps[m..]);
    assert forall i | 0 <= i < |ps[m..]| :: ps[m..][i] == ps[m + i];
    assert forall i | m <= i < |ps| :: ps[i] == ps[m..][i - m];
  }

  /** A repetition that needs its body once refuses a call that the body refuses, at its first argument. */
  lemma RepetitionRefuses(types: Types, body: Patterns, next: Patterns, args: seq<Arg>)
    requires args != [] && Walk(types, body, args, 0).Returns? && Walk(types, body, args, 0).code <= 0
    ensures CheckCall(types, Cons(OneOrMore(body), next), args) == Returns(-1, 0)
    ensures CheckCall(types, Cons(Optional(body), Nil), args) == Returns(-2, 0)
    ensures CheckCall(types, Cons(ZeroOrMore(body), Nil), args) == Returns(-2, 0)
  {
    hide Walk, WalkRepeat, EndCheck;
    NilAtEnd(types, args);
    EndOfNil();
    OptionalStep(types, Cons(Optional(body), Nil), args, 0);
    ZeroOrMoreStep(types, Cons(ZeroOrMore(body), Nil), args, 0);
    RepeatStep(types, Cons(ZeroOrMore(body), Nil), args, 0);
    OptionalCanEnd(Cons(Optional(body), Nil));
    OptionalCanEnd(Cons(ZeroOrMore(body), Nil));
    OneRefused(types, body, next, args);
  }

  lemma OneRefused(types: Types, body: Patterns, next: Patterns, args: seq<Arg>)
    requires args != [] && Walk(types, body, args, 0).Returns? && Walk(types, body, args, 0).code <= 0
    ensures Walk(types, Cons(OneOrMore(body), next), args, 0) == Returns(-1, 0)
  {
    hide WalkRepeat;
  }

  lemma NilAtEnd(types: Types, rest: seq<Arg>)
    ensures forall ret | ret == 0 || ret == 1 ::
              Walk(types, Nil, rest, ret) == Returns(if rest == [] then 1 else ret, 0)
  {
    assert EndCheck(Nil);
  }

  /** The rest of the row can be left out. */
  lemma {:induction false} RowEnds(types: Types, ps: seq<Pattern>)
    requires forall p | p in ps :: IsSingle(p)
    ensures EndCheck(RowOf(ps)) <==> LeavesOutFrom(types, ps, 0)
    decreases ps
  {
    if ps != [] {
      assert forall p | p in ps[1..] :: p in ps;
      RowEnds(types, ps[1..]);
      assert ps[0] in ps;
      SingleLeftOut(types, ps[0]);
      assert forall i | 0 <= i < |ps[1..]| :: ps[1..][i] == ps[i + 1];
      assert forall i | 1 <= i < |ps| :: ps[i] == ps[1..][i - 1];
      hide LeavesOut;
    }
  }

  /** The walk goes past the arguments that are taken, and then does what it does with the rest. */
  lemma {:induction false} RowWalk(types: Types, ps: seq<Pattern>, args: seq<Arg>, m: nat, ret: int)
    requires (forall p | p in ps :: IsSingle(p)) && TakesFirst(types, ps, args, m) && (ret == 0 || ret == 1)
    ensures Walk(types, RowOf(ps), args, ret)
            == Past(m, Walk(types, RowOf(ps[m..]), args[m..], if m > 0 then 1 else ret))
    decreases m
  {
    hide Walk, Accepts;
    if m == 0 {
      assert ps[0..] == ps && args[0..] == args;
    } else {
      assert ps[0] in ps && forall p | p in ps[1..] :: p in ps;
      assert TakesFirst(types, ps[1..], args[1..], m - 1) by {
        hide Takes;
        forall i | 0 <= i < m - 1 ensures Takes(types, ps[1..][i], args[1..][i]) {
          assert Takes(types, ps[i + 1], args[i + 1]);
        }
      }
      RowWalk(types, ps[1..], args[1..], m - 1, 1);
      assert ps[1..][m - 1..] == ps[m..] && args[1..][m - 1..] == args[m..];
      assert Takes(types, ps[0], args[0]);
      OneArgument(types, ps[0], args[0]);
      SingleStep(types, RowOf(ps), args, ret);
    }
  }

  // ----- When the walk comes to an end -----

  /** The pattern matches whatever comes: any arguments at all once something has matched (`begun`),
      else any but none. */
  predicate Fits(ps: Patterns, begun: bool)
    decreases ps
  {
    match ps
    case Nil => begun
    case Cons(Wildcard, next) => !begun && Fits(next, true)
    case Cons(Optional(body), next) => Fits(next, true) && (begun || Fits(body, false) || Fits(next, false))
    case Cons(ZeroOrMore(body), next) => Fits(next, true) && (begun || Fits(body, false) || Fits(next, false))
    case Cons(OneOrMore(body), next) => !begun && Fits(body, false) && Fits(next, true)
    case Cons(OneOf(_), next) => !begun && Fits(next, true)
    case _ => false
  }

  /** A repetition that leaves no arguments, as its body matches whatever comes. */
  predicate Swallows(p: Pattern) {
    (p.ZeroOrMore? || p.OneOrMore?) && Fits(p.body, false)
  }

  /** No repetition of something that can do without arguments, and among alternatives one that
      matches whatever comes; what stands behind a repetition that leaves no arguments is free. */
  predicate Settled(ps: Patterns)
    decreases ps
  {
    ps.Cons? ==>
      && (Settled(ps.next) || Swallows(ps.head))
      && match ps.head
         case Optional(body) => Settled(body)
         case ZeroOrMore(body) => Settled(body) && !EndCheck(body)
         case OneOrMore(body) => Settled(body) && !EndCheck(body)
         case OneOf(choices) => Covered(choices)
         case _ => true
  }

  predicate Covered(choices: Choices)
    decreases choices
  {
    choices.Choice? && Settled(choices.first) && (Fits(choices.first, false) || Covered(choices.others))
  }

  /** For such patterns every walk comes to an end. */
  lemma {:induction false} SettledReturns(types: Types, ps: Patterns, args: seq<Arg>, ret: int)
    requires Settled(ps) && (ret == 0 || ret == 1)
    ensures Walk(types, ps, args, ret).Returns?
    decreases ps, 1, 0
  {
    hide EndCheck, Accepts, WalkRepeat, WalkChoices, Fits;
    if args != [] && ps.Cons? {
      match ps.head
      case Optional(body) =>
        SettledReturns(types, body, args, 0);
        var r := Walk(types, body, args, 0);
        SettledReturns(types, ps.next, args[r.used..], 1);
        SettledReturns(types, ps.next, args, ret);
      case ZeroOrMore(_) => SettledRepeats(types, ps, args, ret);
      case OneOrMore(body) =>
        SettledReturns(types, body, args, 0);
        SettledRepeats(types, ps, args[Walk(types, body, args, 0).used..], 1);
      case OneOf(choices) =>
        CoveredReturns(types, choices, args);
        SettledReturns(types, ps.next, args[WalkChoices(types, choices, args).used..], 1);
      case _ => SettledReturns(types, ps.next, args[1..], 1);
    }
  }

  lemma {:induction false} SettledRepeats(types: Types, ps: Patterns, args: seq<Arg>, ret: int)
    requires ps.Cons? && (ps.head.ZeroOrMore? || ps.head.OneOrMore?) && Settled(ps) && (ret == 0 || ret == 1)
    ensures WalkRepeat(types, ps, args, ret).Returns?
    decreases ps, 0, |args|
  {
    hide EndCheck, Accepts, Walk, Fits;
    EmptyBody(types, ps.next);
    if args != [] {
      SettledReturns(types, ps.head.body, args, 0);
      var r := Walk(types, ps.head.body, args, 0);
      if r.code > 0 {
        SettledRepeats(types, ps, args[r.used..], 1);
      } else if Settled(ps.next) {
        SettledReturns(types, ps.next, args, ret);
      } else {
        FitsMatches(types, ps.head.body, args, 0);
      }
    }
  }

  lemma {:induction false} CoveredReturns(types: Types, choices: Choices, args: seq<Arg>)
    requires Covered(choices) && args != []
    ensures WalkChoices(types, choices, args).Returns?
    decreases choices, 0, 0
  {
    hide Walk, Fits, Settled;
    SettledReturns(types, choices.first, args, 0);
    if Fits(choices.first, false) {
      FitsMatches(types, choices.first, args, 0);
    } else {
      CoveredReturns(types, choices.others, args);
    }
  }

  lemma {:induction false} FitsEnds(ps: Patterns)
    requires Fits(ps, true)
    ensures EndCheck(ps)
    decreases ps
  {
    if ps.Cons? {
      FitsEnds(ps.next);
    }
  }

  /** What fits always is matched always. */
  lemma {:induction false} FitsMatches(types: Types, ps: Patterns, args: seq<Arg>, ret: int)
    requires Settled(ps) && (ret == 0 || ret == 1) && Fits(ps, ret == 1) && (ret == 0 ==> args != [])
    ensures Walk(types, ps, args, ret).Returns? && Walk(types, ps, args, ret).code == 1
    decreases ps, 2, 0
  {
    hide EndCheck, Accepts, WalkRepeat, WalkChoices;
    SettledReturns(types, ps, args, ret);
    if args == [] {
      FitsEnds(ps);
    } else if ps.Cons? {
      match ps.head
      case Optional(body) =>
        SettledReturns(types, body, args, 0);
        if Walk(types, body, args, 0).code > 0 {
          FitsMatches(types, ps.next, args[Walk(types, body, args, 0).used..], 1);
        } else if ret == 1 || Fits(ps.next, false) {
          FitsMatches(types, ps.next, args, ret);
        } else {
          FitsMatches(types, body, args, 0);
        }
      case ZeroOrMore(_) => FitsRepeats(types, ps, args, ret);
      case OneOrMore(body) =>
        FitsMatches(types, body, args, 0);
        FitsRepeats(types, ps, args[Walk(types, body, args, 0).used..], 1);
      case OneOf(choices) =>
        CoveredReturns(types, choices, args);
        FitsMatches(types, ps.next, args[WalkChoices(types, choices, args).used..], 1);
      case Wildcard => WildcardStep(types, ps, args, ret); FitsMatches(types, ps.next, args[1..], 1);
      case _ =>
    }
  }

  lemma WildcardStep(types: Types, ps: Patterns, args: seq<Arg>, ret: int)
    requires (ret == 0 || ret == 1) && ps.Cons? && ps.head.Wildcard? && args != []
    ensures Walk(types, ps, args, ret) == Past(1, Walk(types, ps.next, args[1..], 1))
  {
  }

  lemma {:induction false} FitsRepeats(types: Types, ps: Patterns, args: seq<Arg>, ret: int)
    requires ps.Cons? && (ps.head.ZeroOrMore? || ps.head.OneOrMore?) && Settled(ps) && (ret == 0 || ret == 1)
    requires Fits(ps.next, true) && (ret == 0 ==> args != [] && (Fits(ps.head.body, false) || Fits(ps.next, false)))
    ensures WalkRepeat(types, ps, args, ret).Returns? && WalkRepeat(types, ps, args, ret).code == 1
    decreases ps, 1, |args|
  {
    hide EndCheck, Accepts, Walk, Fits;
    var body := ps.head.body;
    SettledReturns(types, body, args, 0);
    if args == [] {
      FitsEnds(ps.next);
      EmptyBody(types, ps.next);
    } else if Walk(types, body, args, 0).code > 0 {
      FitsRepeats(types, ps, args[Walk(types, body, args, 0).used..], 1);
    } else if Swallows(ps.head) {
      FitsMatches(types, body, args, 0);
    } else {
      FitsMatches(types, ps.next, args, ret);
    }
  }

  // ----- When it does not -----

  /** How many arguments the body takes when it is matched again and again. */
  function Taken(types: Types, body: Patterns, args: seq<Arg>): (n: nat)
    ensures n <= |args|
    decreases |args|
  {
    if args == [] then 0
    else
      var r := Walk(types, body, args, 0);
      if r.Returns? && r.code > 0 then r.used + Taken(types, body, args[r.used..]) else 0
  }

  predicate TakesAll(types: Types, body: Patterns, args: seq<Arg>) {
    Taken(types, body, args) == |args|
  }

  /** The alternatives from the first on that is not refused. */
  function Chosen(types: Types, choices: Choices, args: seq<Arg>): Choices
    decreases choices
  {
    match choices
    case NoChoice => NoChoice
    case Choice(first, others) =>
      var r := Walk(types, first, args, 0);
      if r.Returns? && r.code <= 0 then Chosen(types, others, args) else choices
  }

  /** Every alternative is tried and none matches. */
  predicate NoneFits(types: Types, choices: Choices, args: seq<Arg>) {
    Chosen(types, choices, args).NoChoice?
  }

  /** The walk over a repetition goes on for ever if and only if its body takes all arguments and can
      do without, or the walk over what the body does not take does, by the body or by what follows. */
  lemma RepetitionHangsIff(types: Types, ps: Patterns, args: seq<Arg>, ret: int)
    requires ps.Cons? && (ps.head.ZeroOrMore? || ps.head.OneOrMore?) && (ret == 0 || ret == 1) && args != []
    ensures var rest := args[Taken(types, ps.head.body, args)..];
      Walk(types, ps, args, ret).Hangs? <==>
        if rest == [] then EndCheck(ps.head.body)
        else
          || Walk(types, ps.head.body, rest, 0).Hangs?
          || ((ps.head.ZeroOrMore? || rest != args)
              && Walk(types, ps.next, rest, if rest == args then ret else 1).Hangs?)
  {
    hide WalkRepeat, EndCheck, Taken;
    TakenStep(types, ps.head.body, args);
    if ps.head.ZeroOrMore? {
      RepeatHangsIff(types, ps, args, ret);
      ZeroOrMoreStep(types, ps, args, ret);
    } else {
      var r := Walk(types, ps.head.body, args, 0);
      if r.Returns? && r.code > 0 {
        RepeatHangsIff(types, ps, args[r.used..], 1);
      }
    }
  }

  lemma TakenStep(types: Types, body: Patterns, args: seq<Arg>)
    requires args != []
    ensures var r := Walk(types, body, args, 0);
      if r.Returns? && r.code > 0 then
        && Taken(types, body, args) == r.used + Taken(types, body, args[r.used..])
        && args[Taken(types, body, args)..] == args[r.used..][Taken(types, body, args[r.used..])..]
        && args[Taken(types, body, args)..] != args
      else args[Taken(types, body, args)..] == args
  {
    hide Walk;
  }

  lemma {:induction false} RepeatHangsIff(types: Types, ps: Patterns, args: seq<Arg>, ret: int)
    requires ps.Cons? && (ps.head.ZeroOrMore? || ps.head.OneOrMore?) && (ret == 0 || ret == 1)
    ensures var rest := args[Taken(types, ps.head.body, args)..];
      WalkRepeat(types, ps, args, ret).Hangs? <==>
        if rest == [] then EndCheck(ps.head.body)
        else
          || Walk(types, ps.head.body, rest, 0).Hangs?
          || Walk(types, ps.next, rest, if rest == args then ret else 1).Hangs?
    decreases |args|
  {
    hide Walk, EndCheck;
    EmptyBody(types, ps.next);
    var r := Walk(types, ps.head.body, args, 0);
    if args != [] && r.Returns? && r.code > 0 {
      RepeatHangsIff(types, ps, args[r.used..], 1);
    }
  }

  /** The walk over alternatives goes on for ever if and only if none of them matches, or the walk
      over the first that is not refused does, or over what follows. */
  lemma AlternativesHangIff(types: Types, ps: Patterns, args: seq<Arg>, ret: int)
    requires ps.Cons? && ps.head.OneOf? && (ret == 0 || ret == 1) && args != []
    ensures var chosen := Chosen(types, ps.head.choices, args);
      Walk(types, ps, args, ret).Hangs? <==>
        || chosen.NoChoice?
        || var r := Walk(types, chosen.first, args, 0);
           r.Hangs? || Walk(types, ps.next, args[r.used..], 1).Hangs?
  {
    hide WalkChoices, Chosen;
    ChosenIsWalked(types, ps.head.choices, args);
  }

  lemma {:induction false} ChosenIsWalked(types: Types, choices: Choices, args: seq<Arg>)
    requires args != []
    ensures var chosen := Chosen(types, choices, args);
      WalkChoices(types, choices, args) == if chosen.NoChoice? then Hangs else Walk(types, chosen.first, args, 0)
    decreases choices
  {
    hide Walk;
    if choices.Choice? {
      ChosenIsWalked(types, choices.others, args);
    }
  }

  /** What keeps a walk going for ever: alternatives none of which matches, or a repetition whose
      body can do without arguments and takes all that there are. */
  ghost predicate Cause(types: Types, q: Patterns, args: seq<Arg>) {
    q.Cons? &&
      match q.head
      case ZeroOrMore(body) => EndCheck(body) && TakesAll(types, body, args)
      case OneOrMore(body) => EndCheck(body) && TakesAll(types, body, args)
      case OneOf(choices) => args != [] && NoneFits(types, choices, args)
      case _ => false
  }

  lemma NoneIsCause(types: Types, ps: Patterns, args: seq<Arg>)
    requires ps.Cons? && ps.head.OneOf? && args != [] && NoneFits(types, ps.head.choices, args)
    ensures Cause(types, ps, args)
  {
  }

  // ----- Exactly when the walk does not end -----

  /** On its way the walk of ps over args comes to the part q with the arguments `rest` left. */
  ghost predicate Comes(types: Types, ps: Patterns, args: seq<Arg>, ret: int, q: Patterns, rest: seq<Arg>)
    requires ret == 0 || ret == 1
    decreases ps, 1, 0
  {
    || (q == ps && rest == args)
    || (args != [] && ps.Cons? &&
        match ps.head
        case Optional(body) =>
          var r := Walk(types, body, args, 0);
          || Comes(types, body, args, 0, q, rest)
          || (r.Returns? &&
              if r.code > 0 then Comes(types, ps.next, args[r.used..], 1, q, rest)
              else Comes(types, ps.next, args, ret, q, rest))
        case ZeroOrMore(_) => ComesRepeating(types, ps, args, ret, q, rest)
        case OneOrMore(body) =>
          var r := Walk(types, body, args, 0);
          || Comes(types, body, args, 0, q, rest)
          || (r.Returns? && r.code > 0 && ComesRepeating(types, ps, args[r.used..], 1, q, rest))
        case OneOf(choices) =>
          var r := WalkChoices(types, choices, args);
          || ComesChoosing(types, choices, args, q, rest)
          || (r.Returns? && Comes(types, ps.next, args[r.used..], 1, q, rest))
        case _ => Accepts(types, ps.head, args[0]) && Comes(types, ps.next, args[1..], 1, q, rest))
  }

  ghost predicate ComesRepeating(types: Types, ps: Patterns, args: seq<Arg>, ret: int, q: Patterns, rest: seq<Arg>)
    requires ps.Cons? && (ps.head.ZeroOrMore? || ps.head.OneOrMore?) && (ret == 0 || ret == 1)
    decreases ps, 0, |args|
  {
    args != [] &&
      var r := Walk(types, ps.head.body, args, 0);
      || Comes(types, ps.head.body, args, 0, q, rest)
      || (r.Returns? &&
          if r.code > 0 then ComesRepeating(types, ps, args[r.used..], 1, q, rest)
          else Comes(types, ps.next, args, ret, q, rest))
  }

  ghost predicate ComesChoosing(types: Types, choices: Choices, args: seq<Arg>, q: Patterns, rest: seq<Arg>)
    decreases choices, 2, 0
  {
    choices.Choice? &&
      var r := Walk(types, choices.first, args, 0);
      || Comes(types, choices.first, args, 0, q, rest)
      || (r.Returns? && r.code <= 0 && ComesChoosing(types, choices.others, args, q, rest))
  }

  /** The walk over a pattern goes on for ever if and only if, on its way, it comes to alternatives
      none of which matches, or to a repetition whose body can do without arguments and takes all. */
  lemma HangsIff(types: Types, ps: Patterns, args: seq<Arg>, ret: int)
    requires ret == 0 || ret == 1
    ensures Walk(types, ps, args, ret).Hangs? <==>
            exists q, rest :: Comes(types, ps, args, ret, q, rest) && rest != [] && Cause(types, q, rest)
  {
    hide Walk, Comes, Cause;
    if Walk(types, ps, args, ret).Hangs? {
      var q, rest := HangComes(types, ps, args, ret);
    }
    if exists q, rest :: Comes(types, ps, args, ret, q, rest) && rest != [] && Cause(types, q, rest) {
      var q, rest :| Comes(types, ps, args, ret, q, rest) && rest != [] && Cause(types, q, rest);
      CauseHangs(types, ps, args, ret, q, rest);
    }
  }

  lemma ComesToItself(types: Types, ps: Patterns, args: seq<Arg>, ret: int)
    requires ret == 0 || ret == 1
    ensures Comes(types, ps, args, ret, ps, args)
  {
  }

  lemma {:induction false} HangComes(types: Types, ps: Patterns, args: seq<Arg>, ret: int)
    returns (q: Patterns, rest: seq<Arg>)
    requires (ret == 0 || ret == 1) && Walk(types, ps, args, ret).Hangs?
    ensures Comes(types, ps, args, ret, q, rest) && rest != [] && Cause(types, q, rest)
    decreases ps, 2, 0
  {
    hide WalkRepeat, WalkChoices, EndCheck, ComesRepeating, ComesChoosing, Cause;
    ComesToItself(types, ps, args, ret);
    match ps.head
    case Optional(body) =>
      var r := Walk(types, body, args, 0);
      if r.Hangs? {
        q, rest := HangComes(types, body, args, 0);
      } else if r.code > 0 {
        q, rest := HangComes(types, ps.next, args[r.used..], 1);
      } else {
        q, rest := HangComes(types, ps.next, args, ret);
      }
    case ZeroOrMore(body) =>
      var all;
      all, q, rest := RepeatComes(types, ps, args, ret);
      if all {
        q, rest := ps, args;
        RepetitionIsCause(types, ps, args);
      }
    case OneOrMore(body) =>
      var r := Walk(types, body, args, 0);
      if r.Hangs? {
        q, rest := HangComes(types, body, args, 0);
      } else {
        var all;
        all, q, rest := RepeatComes(types, ps, args[r.used..], 1);
        if all {
          q, rest := ps, args;
          RepetitionIsCause(types, ps, args);
        }
      }
    case OneOf(choices) =>
      var r := WalkChoices(types, choices, args);
      if r.Hangs? {
        var none;
        none, q, rest := ChoicesCome(types, choices, args);
        if none {
          q, rest := ps, args;
          NoneIsCause(types, ps, args);
        }
      } else {
        q, rest := HangComes(types, ps.next, args[r.used..], 1);
      }
    case _ => q, rest := HangComes(types, ps.next, args[1..], 1);
  }

  lemma RepetitionIsCause(types: Types, ps: Patterns, args: seq<Arg>)
    requires ps.Cons? && (ps.head.ZeroOrMore? || ps.head.OneOrMore?) && EndCheck(ps.head.body)
    requires TakesAll(types, ps.head.body, args)
    ensures Cause(types, ps, args)
  {
  }

  lemma {:induction false} RepeatComes(types: Types, ps: Patterns, args: seq<Arg>, ret: int)
    returns (all: bool, q: Patterns, rest: seq<Arg>)
    requires ps.Cons? && (ps.head.ZeroOrMore? || ps.head.OneOrMore?) && (ret == 0 || ret == 1)
    requires WalkRepeat(types, ps, args, ret).Hangs?
    ensures if all then EndCheck(ps.head.body) && TakesAll(types, ps.head.body, args)
            else ComesRepeating(types, ps, args, ret, q, rest) && rest != [] && Cause(types, q, rest)
    decreases ps, 1, |args|
  {
    hide Walk, EndCheck, Comes, Cause;
    EmptyBody(types, ps.next);
    var body := ps.head.body;
    all, q, rest := true, ps, args;
    if args != [] {
      var r := Walk(types, body, args, 0);
      if r.Hangs? {
        all := false;
        q, rest := HangComes(types, body, args, 0);
      } else if r.code > 0 {
        all, q, rest := RepeatComes(types, ps, args[r.used..], 1);
      } else {
        all := false;
        q, rest := HangComes(types, ps.next, args, ret);
      }
    }
  }

  lemma {:induction false} ChoicesCome(types: Types, choices: Choices, args: seq<Arg>)
    returns (none: bool, q: Patterns, rest: seq<Arg>)
    requires args != [] && WalkChoices(types, choices, args).Hangs?
    ensures if none then NoneFits(types, choices, args)
            else ComesChoosing(types, choices, args, q, rest) && rest != [] && Cause(types, q, rest)
    decreases choices, 0, 0
  {
    hide Walk, Cause, Comes;
    none, q, rest := true, Nil, args;
    if choices.Choice? {
      if Walk(types, choices.first, args, 0).Hangs? {
        none := false;
        q, rest := HangComes(types, choices.first, args, 0);
      } else {
        none, q, rest := ChoicesCome(types, choices.others, args);
      }
    }
  }

  /** Coming to a cause is enough. */
  lemma {:induction false} CauseHangs(types: Types, ps: Patterns, args: seq<Arg>, ret: int, q: Patterns, rest: seq<Arg>)
    requires (ret == 0 || ret == 1) && Comes(types, ps, args, ret, q, rest) && rest != [] && Cause(types, q, rest)
    ensures Walk(types, ps, args, ret).Hangs?
    decreases ps, 2, 0
  {
    hide WalkRepeat, WalkChoices, EndCheck, Accepts, ComesRepeating, ComesChoosing, Cause;
    if q == ps && rest == args {
      CauseIsHang(types, ps, args, ret);
    } else {
      match ps.head
      case Optional(body) =>
        var r := Walk(types, body, args, 0);
        if Comes(types, body, args, 0, q, rest) {
          CauseHangs(types, body, args, 0, q, rest);
        } else if r.code > 0 {
          CauseHangs(types, ps.next, args[r.used..], 1, q, rest);
        } else {
          CauseHangs(types, ps.next, args, ret, q, rest);
        }
      case ZeroOrMore(_) => RepeatCauseHangs(types, ps, args, ret, q, rest);
      case OneOrMore(body) =>
        if Comes(types, body, args, 0, q, rest) {
          CauseHangs(types, body, args, 0, q, rest);
        } else {
          RepeatCauseHangs(types, ps, args[Walk(types, body, args, 0).used..], 1, q, rest);
        }
      case OneOf(choices) =>
        if ComesChoosing(types, choices, args, q, rest) {
          ChoiceCauseHangs(types, choices, args, q, rest);
        } else {
          CauseHangs(types, ps.next, args[WalkChoices(types, choices, args).used..], 1, q, rest);
        }
      case _ => CauseHangs(types, ps.next, args[1..], 1, q, rest);
    }
  }

  lemma CauseIsHang(types: Types, ps: Patterns, args: seq<Arg>, ret: int)
    requires (ret == 0 || ret == 1) && args != [] && Cause(types, ps, args)
    ensures Walk(types, ps, args, ret).Hangs?
  {
    hide WalkRepeat, WalkChoices, EndCheck;
    match ps.head
    case ZeroOrMore(body) => TakingAllHangs(types, ps, args, ret);
    case OneOrMore(body) => TakingAllHangs(types, ps, args[Walk(types, body, args, 0).used..], 1);
    case OneOf(choices) => NoneFitsHangs(types, choices, args);
  }

  lemma {:induction false} TakingAllHangs(types: Types, ps: Patterns, args: seq<Arg>, ret: int)
    requires ps.Cons? && (ps.head.ZeroOrMore? || ps.head.OneOrMore?) && (ret == 0 || ret == 1)
    requires EndCheck(ps.head.body) && TakesAll(types, ps.head.body, args)
    ensures WalkRepeat(types, ps, args, ret).Hangs?
    decreases |args|
  {
    hide Walk, EndCheck;
    if args != [] {
      TakingAllHangs(types, ps, args[Walk(types, ps.head.body, args, 0).used..], 1);
    }
  }

  lemma {:induction false} NoneFitsHangs(types: Types, choices: Choices, args: seq<Arg>)
    requires args != [] && NoneFits(types, choices, args)
    ensures WalkChoices(types, choices, args).Hangs?
    decreases choices
  {
    hide Walk;
    if choices.Choice? {
      NoneFitsHangs(types, choices.others, args);
    }
  }

  lemma {:induction false} RepeatCauseHangs(types: Types, ps: Patterns, args: seq<Arg>, ret: int, q: Patterns,
                                            rest: seq<Arg>)
    requires ps.Cons? && (ps.head.ZeroOrMore? || ps.head.OneOrMore?) && (ret == 0 || ret == 1)
    requires ComesRepeating(types, ps, args, ret, q, rest) && rest != [] && Cause(types, q, rest)
    ensures WalkRepeat(types, ps, args, ret).Hangs?
    decreases ps, 1, |args|
  {
    hide Walk, EndCheck, Comes, Cause;
    var body := ps.head.body;
    var r := Walk(types, body, args, 0);
    if Comes(types, body, args, 0, q, rest) {
      CauseHangs(types, body, args, 0, q, rest);
    } else if r.code > 0 {
      RepeatCauseHangs(types, ps, args[r.used..], 1, q, rest);
    } else {
      CauseHangs(types, ps.next, args, ret, q, rest);
    }
  }

  lemma {:induction false} ChoiceCauseHangs(types: Types, choices: Choices, args: seq<Arg>, q: Patterns, rest: seq<Arg>)
    requires args != [] && ComesChoosing(types, choices, args, q, rest) && rest != [] && Cause(types, q, rest)
    ensures WalkChoices(types, choices, args).Hangs?
    decreases choices, 0, 0
  {
    hide Walk, Comes, Cause;
    if Comes(types, choices.first, args, 0, q, rest) {
      CauseHangs(types, choices.first, args, 0, q, rest);
    } else {
      ChoiceCauseHangs(types, choices.others, args, q, rest);
    }
  }

  lemma OneArgument(types: Types, p: Pattern, a: Arg)
    requires p.Wildcard? || p.Variable? || p.Formal?
    ensures Walk(types, Cons(p, Nil), [a], 0) == if Accepts(types, p, a) then Returns(1, 1) else Returns(-1, 0)
  {
    hide Accepts;
    EmptyBody(types, Nil);
    assert [a][1..] == [];
  }

  /** Alternatives none of which fits keep the walk going for ever. */
  lemma AlternativesCanHang(types: Types, id: nat, next: Patterns, a: Arg)
    requires !types(id, a)
    ensures Walk(types, Cons(OneOf(Choice(Cons(Formal(id), Nil), NoChoice)), next), [a], 0).Hangs?
  {
    OneArgument(types, Formal(id), a);
    NoChoiceHangs(types, [a]);
    ChoicesStep(types, Cons(Formal(id), Nil), NoChoice, [a]);
    hide WalkChoices;
  }

  lemma NoChoiceHangs(types: Types, args: seq<Arg>)
    requires args != []
    ensures WalkChoices(types, NoChoice, args).Hangs?
  {
  }

  lemma ChoicesStep(types: Types, first: Patterns, others: Choices, args: seq<Arg>)
    requires args != [] && Walk(types, first, args, 0).Returns? && Walk(types, first, args, 0).code <= 0
    ensures WalkChoices(types, Choice(first, others), args) == WalkChoices(types, others, args)
  {
    hide Walk;
  }

  /** So does the repetition of a body that needs no argument, when it takes the last one. */
  lemma RepetitionCanHang(types: Types, body: Patterns, next: Patterns, args: seq<Arg>)
    requires args != [] && EndCheck(body) && Walk(types, body, args, 0) == Returns(1, |args|)
    ensures Walk(types, Cons(ZeroOrMore(body), next), args, 0).Hangs?
  {
    hide EndCheck;
    var ps := Cons(ZeroOrMore(body), next);
    assert args[|args|..] == [];
    assert WalkRepeat(types, ps, [], 1).Hangs?;
    RepeatStep(types, ps, args, 0);
    hide WalkRepeat;
  }

  // ----- Patterns that are matched exactly -----

  /** The pattern takes exactly one argument. */
  predicate OnlyOne(ps: Patterns) { ps.Cons? && IsSingle(ps.head) && ps.next.Nil? }

  /** Only optional single arguments and repetitions of one; what is repeated needs its argument. */
  predicate Tail(ps: Patterns)
    decreases ps
  {
    ps.Cons? ==>
      && Tail(ps.next)
      && match ps.head
         case Optional(body) => OnlyOne(body)
         case ZeroOrMore(body) => OnlyOne(body) && !EndCheck(body)
         case _ => false
  }

  /** Alternatives each of which takes one argument, and needs it. */
  predicate EachOne(choices: Choices)
    decreases choices
  {
    choices.Choice? ==> OnlyOne(choices.first) && !EndCheck(choices.first) && EachOne(choices.others)
  }

  predicate IsTaker(p: Pattern) { IsSingle(p) || (p.OneOf? && EachOne(p.choices)) }

  /** Single arguments and alternatives of them. */
  predicate Row(ps: Patterns)
    decreases ps
  {
    ps.Cons? ==> IsTaker(ps.head) && Row(ps.next)
  }

  predicate NoAlternatives(ps: Patterns)
    decreases ps
  {
    ps.Cons? ==>
      && NoAlternatives(ps.next)
      && match ps.head
         case Optional(body) => NoAlternatives(body)
         case ZeroOrMore(body) => NoAlternatives(body)
         case OneOrMore(body) => NoAlternatives(body)
         case OneOf(_) => false
         case _ => true
  }

  /** The repetition of a row, at the end of the pattern. */
  predicate LastRows(ps: Patterns) {
    && ps.Cons? && ps.next.Nil? && (ps.head.ZeroOrMore? || ps.head.OneOrMore?)
    && Row(ps.head.body) && !EndCheck(ps.head.body)
  }

  /** A row, and then nothing else, or a repetition of a row, or perhaps a repetition that takes at
      least one argument and a tail. */
  predicate Ordinary(ps: Patterns)
    decreases ps
  {
    || Tail(ps)
    || LastRows(ps)
    || (IsTaker(ps.head) && Ordinary(ps.next))
    || (ps.head.OneOrMore? && OnlyOne(ps.head.body) && !EndCheck(ps.head.body) && Tail(ps.next))
  }

  /** Rows of single arguments are ordinary, and so are alternatives of them in front of one. */
  lemma {:induction false} RowsAreOrdinary(ps: seq<Pattern>, first: Pattern, second: Pattern)
    requires forall p | p in ps :: IsSingle(p)
    requires first.Wildcard? || first.Formal?
    requires second.Wildcard? || second.Formal?
    ensures Ordinary(RowOf(ps)) && NoAlternatives(RowOf(ps))
    ensures Ordinary(Cons(OneOf(Choice(Cons(first, Nil), Choice(Cons(second, Nil), NoChoice))), RowOf(ps)))
    decreases ps
  {
    if ps != [] {
      assert ps[0] in ps && forall p | p in ps[1..] :: p in ps;
      RowsAreOrdinary(ps[1..], first, second);
    }
    assert !EndCheck(Cons(first, Nil)) && !EndCheck(Cons(second, Nil));
    var both := Choice(Cons(first, Nil), Choice(Cons(second, Nil), NoChoice));
    assert EachOne(both.others.others) && EachOne(both.others) && EachOne(both);
  }

  /** Ordinary patterns are matched exactly: the check accepts the call if and only if it is in the
      language. Without alternatives it always comes to an end. */
  lemma OrdinaryIsExact(types: Types, ps: Patterns, args: seq<Arg>)
    requires Ordinary(ps)
    ensures CheckCall(types, ps, args) == Returns(1, |args|) <==> Generates(types, ps, args, true)
    ensures NoAlternatives(ps) ==> CheckCall(types, ps, args).Returns?
  {
    hide Walk, Generates, Ordinary, Settled, NoAlternatives;
    if NoAlternatives(ps) {
      OrdinaryIsSettled(ps);
      SettledReturns(types, ps, args, 0);
    }
    if CheckCall(types, ps, args) == Returns(1, |args|) {
      AcceptedIsInLanguage(types, ps, args);
    }
    if Generates(types, ps, args, true) {
      OrdinaryIsComplete(types, ps, args, 0);
    }
  }

  lemma {:induction false} OrdinaryIsSettled(ps: Patterns)
    requires Ordinary(ps) && NoAlternatives(ps)
    ensures Settled(ps)
    decreases ps
  {
    hide EndCheck, Covered, Fits;
    if Tail(ps) {
      TailIsSettled(ps);
    } else if LastRows(ps) {
      RowIsSettled(ps.head.body);
    } else if IsSingle(ps.head) {
      OrdinaryIsSettled(ps.next);
    } else {
      OnlyOneIsSettled(ps.head.body);
      TailIsSettled(ps.next);
    }
  }

  lemma {:induction false} RowIsSettled(ps: Patterns)
    requires Row(ps) && NoAlternatives(ps)
    ensures Settled(ps)
    decreases ps
  {
    if ps.Cons? {
      RowIsSettled(ps.next);
    }
  }

  lemma {:induction false} TailIsSettled(ps: Patterns)
    requires Tail(ps)
    ensures Settled(ps)
    decreases ps
  {
    hide EndCheck, Covered;
    if ps.Cons? {
      OnlyOneIsSettled(ps.head.body);
      TailIsSettled(ps.next);
    }
  }

  lemma OnlyOneIsSettled(ps: Patterns)
    requires OnlyOne(ps)
    ensures Settled(ps)
  {
  }

  /** A single argument generates one argument that it accepts, or, where that is allowed, none. */
  lemma OneGeneratesOne(types: Types, body: Patterns, args: seq<Arg>, last: bool)
    requires OnlyOne(body) && args != []
    ensures Generates(types, body, args, last) <==> |args| == 1 && Accepts(types, body.head, args[0])
  {
  }

  lemma OneNeedsOne(types: Types, body: Patterns, args: seq<Arg>)
    requires OnlyOne(body) && args == []
    ensures !Generates(types, body, args, false) && (!EndCheck(body) ==> !Generates(types, body, args, true))
  {
    assert EndCheck(body.next);
  }

  lemma OneIsTaken(types: Types, body: Patterns, args: seq<Arg>)
    requires OnlyOne(body) && args != []
    ensures Walk(types, body, args, 0) == if Accepts(types, body.head, args[0]) then Returns(1, 1) else Returns(-1, 0)
  {
    hide Accepts, EndCheck, Walk;
    SingleStep(types, body, args, 0);
    WalkEnds(types, Nil, args[1..], 1);
    EndOfNil();
  }

  lemma EndOfNil()
    ensures EndCheck(Nil)
  {
  }

  lemma TailEnds(ps: Patterns)
    requires Tail(ps)
    ensures EndCheck(ps)
    decreases ps
  {
    if ps.Cons? {
      TailEnds(ps.next);
    }
  }

  /** What a repetition of one argument generates, argument by argument. */
  lemma RepeatsSplit(types: Types, ps: Patterns, args: seq<Arg>)
    requires ps.Cons? && (ps.head.ZeroOrMore? || ps.head.OneOrMore?) && OnlyOne(ps.head.body) && args != []
    ensures Repeats(types, ps, args, true) <==>
            || Generates(types, ps.next, args, true)
            || (Accepts(types, ps.head.body.head, args[0]) && Repeats(types, ps, args[1..], true))
  {
    hide Generates, Accepts;
    var body := ps.head.body;
    forall k | 1 <= k <= |args|
      ensures Generates(types, body, args[..k], true && k == |args|) <==> k == 1 && Accepts(types, body.head, args[0])
    {
      OneGeneratesOne(types, body, args[..k], k == |args|);
    }
  }

  lemma OptionalSplit(types: Types, ps: Patterns, args: seq<Arg>)
    requires ps.Cons? && ps.head.Optional? && OnlyOne(ps.head.body) && args != []
    ensures Generates(types, ps, args, true) <==>
            || Generates(types, ps.next, args, true)
            || (Accepts(types, ps.head.body.head, args[0]) && Generates(types, ps.next, args[1..], true))
  {
    var body := ps.head.body;
    forall k | 0 <= k <= |args|
      ensures Generates(types, body, args[..k], true && k == |args|) <==> k == 1 && Accepts(types, body.head, args[0])
    {
      if k > 0 {
        OneGeneratesOne(types, body, args[..k], k == |args|);
      } else {
        OneNeedsOne(types, body, args[..k]);
      }
    }
    hide Accepts, OnlyOne;
  }

  lemma ZeroSplit(types: Types, ps: Patterns, args: seq<Arg>)
    requires ps.Cons? && ps.head.ZeroOrMore?
    ensures Generates(types, ps, args, true) == Repeats(types, ps, args, true)
  {
  }

  /** The language of a tail is closed under leaving out the first argument. */
  lemma {:induction false} TailDropsFirst(types: Types, ps: Patterns, args: seq<Arg>)
    requires Tail(ps) && args != [] && Generates(types, ps, args, true)
    ensures Generates(types, ps, args[1..], true)
    decreases ps, 1, 0
  {
    if ps.Cons? && ps.head.Optional? {
      OptionalSplit(types, ps, args);
      hide Generates, Accepts;
      if Generates(types, ps.next, args, true) {
        TailDropsFirst(types, ps.next, args);
      }
      OptionalSkipped(types, ps, args[1..], true);
    } else if ps.Cons? {
      hide Generates, Accepts;
      ZeroSplit(types, ps, args);
      RepeatDropsFirst(types, ps, args);
      ZeroSplit(types, ps, args[1..]);
    }
  }

  lemma {:induction false} RepeatDropsFirst(types: Types, ps: Patterns, args: seq<Arg>)
    requires ps.Cons? && (ps.head.ZeroOrMore? || ps.head.OneOrMore?) && OnlyOne(ps.head.body) && Tail(ps.next)
    requires args != [] && Repeats(types, ps, args, true)
    ensures Repeats(types, ps, args[1..], true)
    decreases ps, 0, 0
  {
    hide Generates, Accepts;
    RepeatsSplit(types, ps, args);
    if Generates(types, ps.next, args, true) {
      TailDropsFirst(types, ps.next, args);
    }
  }

  lemma NilNeedsNone(types: Types, args: seq<Arg>)
    ensures Generates(types, Nil, args, true) ==> args == []
  {
  }

  lemma ZeroOrMoreStep(types: Types, ps: Patterns, args: seq<Arg>, ret: int)
    requires ps.Cons? && ps.head.ZeroOrMore? && (ret == 0 || ret == 1) && args != []
    ensures Walk(types, ps, args, ret) == WalkRepeat(types, ps, args, ret)
  {
    hide WalkRepeat;
  }

  /** Taking an argument as early as possible loses nothing in a tail. */
  lemma {:induction false} TailIsComplete(types: Types, ps: Patterns, args: seq<Arg>, ret: int)
    requires Tail(ps) && (ret == 0 || ret == 1) && Generates(types, ps, args, true)
    ensures Walk(types, ps, args, ret) == Returns(1, |args|)
    decreases ps, 1, 0
  {
    hide Generates, Repeats, Walk, WalkRepeat, Accepts, EndCheck;
    if args == [] {
      TailEnds(ps);
      EmptyBody(types, ps);
    } else if ps.Nil? {
      NilNeedsNone(types, args);
    } else if ps.head.Optional? {
      OptionalSplit(types, ps, args);
      OptionalStep(types, ps, args, ret);
      OneIsTaken(types, ps.head.body, args);
      if Accepts(types, ps.head.body.head, args[0]) {
        if Generates(types, ps.next, args, true) {
          TailDropsFirst(types, ps.next, args);
        }
        TailIsComplete(types, ps.next, args[1..], 1);
      } else {
        TailIsComplete(types, ps.next, args, ret);
      }
    } else {
      ZeroSplit(types, ps, args);
      RepeatIsComplete(types, ps, args, ret);
      ZeroOrMoreStep(types, ps, args, ret);
    }
  }

  lemma {:induction false} RepeatIsComplete(types: Types, ps: Patterns, args: seq<Arg>, ret: int)
    requires ps.Cons? && (ps.head.ZeroOrMore? || ps.head.OneOrMore?) && OnlyOne(ps.head.body) && !EndCheck(ps.head.body)
    requires Tail(ps.next) && (ret == 0 || ret == 1) && Repeats(types, ps, args, true)
    ensures WalkRepeat(types, ps, args, ret) == Returns(1, |args|)
    decreases ps, 0, |args|
  {
    hide Generates, Walk, Accepts, WalkRepeat, EndCheck;
    RepeatStep(types, ps, args, ret);
    if args == [] {
      EmptyBody(types, ps.head.body);
      TailIsComplete(types, ps.next, args, ret);
    } else {
      OneIsTaken(types, ps.head.body, args);
      RepeatsSplit(types, ps, args);
      hide Repeats;
      if Accepts(types, ps.head.body.head, args[0]) {
        RepeatDropsFirst(types, ps, args);
        RepeatIsComplete(types, ps, args[1..], 1);
      } else {
        TailIsComplete(types, ps.next, args, ret);
      }
    }
  }

  lemma OneOrMoreSplit(types: Types, ps: Patterns, args: seq<Arg>)
    requires ps.Cons? && ps.head.OneOrMore? && OnlyOne(ps.head.body) && !EndCheck(ps.head.body)
    requires Generates(types, ps, args, true)
    ensures Repeats(types, ps, args, true)
    ensures args != [] ==> Accepts(types, ps.head.body.head, args[0]) && Repeats(types, ps, args[1..], true)
    ensures args != []
  {
    var body := ps.head.body;
    var k :| 0 <= k <= |args| && Generates(types, body, args[..k], true && k == |args|)
      && Repeats(types, ps, args[k..], true);
    if k > 0 {
      OneGeneratesOne(types, body, args[..k], k == |args|);
    } else {
      OneNeedsOne(types, body, args[..k]);
    }
  }

  lemma OneOrMoreStep(types: Types, ps: Patterns, args: seq<Arg>, ret: int)
    requires ps.Cons? && ps.head.OneOrMore? && (ret == 0 || ret == 1) && args != []
    requires Walk(types, ps.head.body, args, 0) == Returns(1, 1)
    ensures Walk(types, ps, args, ret) == Past(1, WalkRepeat(types, ps, args[1..], 1))
  {
    hide WalkRepeat;
  }

  /** A single argument that is left out has an initial value. */
  lemma LeftOut(types: Types, ps: Patterns, args: seq<Arg>)
    requires ps.Cons? && IsSingle(ps.head) && args == [] && Generates(types, ps, args, true)
    ensures Generates(types, ps.next, args, true) && (EndCheck(ps.next) ==> EndCheck(ps))
  {
  }

  lemma SinglePresent(types: Types, ps: Patterns, args: seq<Arg>)
    requires ps.Cons? && IsSingle(ps.head) && args != [] && Generates(types, ps, args, true)
    ensures Accepts(types, ps.head, args[0]) && Generates(types, ps.next, args[1..], true)
  {
  }

  predicate AcceptsAny(types: Types, choices: Choices, a: Arg)
    requires EachOne(choices)
    decreases choices
  {
    choices.Choice? && (Accepts(types, choices.first.head, a) || AcceptsAny(types, choices.others, a))
  }

  lemma {:induction false} ChoicesTakeOne(types: Types, choices: Choices, args: seq<Arg>)
    requires EachOne(choices) && args != []
    ensures WalkChoices(types, choices, args) == if AcceptsAny(types, choices, args[0]) then Returns(1, 1) else Hangs
    decreases choices
  {
    hide Walk, Accepts, EndCheck;
    if choices.Choice? {
      OneIsTaken(types, choices.first, args);
      ChoicesTakeOne(types, choices.others, args);
    }
  }

  lemma {:induction false} ChoicesGenerateOne(types: Types, choices: Choices, args: seq<Arg>, last: bool)
    requires EachOne(choices) && GeneratesOne(types, choices, args, last)
    ensures |args| == 1 && AcceptsAny(types, choices, args[0])
    decreases choices
  {
    hide Generates, Accepts, EndCheck;
    if Generates(types, choices.first, args, last) {
      if args == [] {
        OneNeedsOne(types, choices.first, args);
      } else {
        OneGeneratesOne(types, choices.first, args, last);
      }
    } else {
      ChoicesGenerateOne(types, choices.others, args, last);
    }
  }

  lemma AlternativePresent(types: Types, ps: Patterns, args: seq<Arg>, m: nat, ret: int)
    requires ps.Cons? && ps.head.OneOf? && EachOne(ps.head.choices) && (ret == 0 || ret == 1)
    requires m <= |args| && Generates(types, ps, args[..m], m == |args|)
    ensures m > 0 && Generates(types, ps.next, args[1..][..m - 1], m == |args|)
    ensures Walk(types, ps, args, ret) == Past(1, Walk(types, ps.next, args[1..], 1))
  {
    hide WalkChoices, EachOne, AcceptsAny, GeneratesOne;
    var choices, xs, last := ps.head.choices, args[..m], m == |args|;
    var k :| 0 <= k <= |xs| && GeneratesOne(types, choices, xs[..k], last && k == |xs|)
      && Generates(types, ps.next, xs[k..], last);
    ChoicesGenerateOne(types, choices, xs[..k], last && k == |xs|);
    ChoicesTakeOne(types, choices, args);
    assert xs[1..] == args[1..][..m - 1];
  }

  /** A row takes what it generates, and nothing else. */
  lemma {:induction false} RowIsTaken(types: Types, ps: Patterns, args: seq<Arg>, m: nat, ret: int)
    requires Row(ps) && (ret == 1 || (ret == 0 && ps.Cons? && args != []))
    requires m <= |args| && Generates(types, ps, args[..m], m == |args|)
    ensures Walk(types, ps, args, ret) == Returns(1, m)
    decreases ps
  {
    hide Generates, Walk, Accepts, EndCheck;
    if ps.Nil? {
      NilIsEmpty(types, args[..m], m == |args|);
      WalkEnds(types, ps, args, ret);
      EndOfNil();
    } else if ps.head.OneOf? {
      AlternativePresent(types, ps, args, m, ret);
      RowIsTaken(types, ps.next, args[1..], m - 1, 1);
    } else if args != [] {
      SingleInRow(types, ps, args, m);
      SingleStep(types, ps, args, ret);
      RowIsTaken(types, ps.next, args[1..], m - 1, 1);
    } else {
      assert args[..m] == args;
      LeftOut(types, ps, args);
      RowIsTaken(types, ps.next, args, m, 1);
      EmptyBody(types, ps.next);
      EmptyBody(types, ps);
    }
  }

  lemma NilIsEmpty(types: Types, args: seq<Arg>, last: bool)
    requires Generates(types, Nil, args, last)
    ensures args == []
  {
  }

  lemma SingleInRow(types: Types, ps: Patterns, args: seq<Arg>, m: nat)
    requires ps.Cons? && IsSingle(ps.head) && args != [] && m <= |args|
    requires Generates(types, ps, args[..m], m == |args|)
    ensures m > 0 && Accepts(types, ps.head, args[0]) && Generates(types, ps.next, args[1..][..m - 1], m == |args|)
  {
    hide Accepts;
    if m > 0 {
      assert args[..m][1..] == args[1..][..m - 1];
    }
  }

  /** What a row generates is its first block of arguments. */
  lemma RowNeedsOne(types: Types, ps: Patterns, args: seq<Arg>, m: nat)
    requires Row(ps) && !EndCheck(ps) && m <= |args| && Generates(types, ps, args[..m], m == |args|)
    ensures m > 0 && Walk(types, ps, args, 0) == Returns(1, m)
  {
    hide Generates, Walk, EndCheck;
    EndOfNil();
    if args == [] {
      RowIsTaken(types, ps, args, m, 1);
      EmptyBody(types, ps);
    } else {
      RowIsTaken(types, ps, args, m, 0);
    }
  }

  /** Taking block after block loses nothing at the end of a pattern. */
  lemma {:induction false} RowsAreComplete(types: Types, ps: Patterns, args: seq<Arg>, ret: int)
    requires LastRows(ps) && (ret == 0 || ret == 1) && Repeats(types, ps, args, true)
    ensures WalkRepeat(types, ps, args, ret) == Returns(1, |args|)
    decreases |args|
  {
    hide Generates, Walk, WalkRepeat, EndCheck, Row;
    RepeatStep(types, ps, args, ret);
    EmptyBody(types, ps.head.body);
    EndOfNil();
    if args == [] {
      EmptyBody(types, ps.next);
    } else {
      NilNeedsNone(types, args);
      var k :| 1 <= k <= |args| && Generates(types, ps.head.body, args[..k], true && k == |args|)
        && Repeats(types, ps, args[k..], true);
      RowNeedsOne(types, ps.head.body, args, k);
      RowsAreComplete(types, ps, args[k..], 1);
    }
  }

  lemma LastRowsAreComplete(types: Types, ps: Patterns, args: seq<Arg>, ret: int)
    requires LastRows(ps) && (ret == 0 || ret == 1) && Generates(types, ps, args, true)
    ensures Walk(types, ps, args, ret) == Returns(1, |args|)
  {
    hide WalkRepeat, EndCheck, Row;
    if ps.head.ZeroOrMore? {
      ZeroSplit(types, ps, args);
      RowsAreComplete(types, ps, args, ret);
      EmptyRepetition(types, ps, args, ret);
    } else {
      var k :| 0 <= k <= |args| && Generates(types, ps.head.body, args[..k], true && k == |args|)
        && Repeats(types, ps, args[k..], true);
      hide Generates, Repeats;
      RowNeedsOne(types, ps.head.body, args, k);
      RowsAreComplete(types, ps, args[k..], 1);
    }
  }

  lemma EmptyRepetition(types: Types, ps: Patterns, args: seq<Arg>, ret: int)
    requires LastRows(ps) && ps.head.ZeroOrMore? && (ret == 0 || ret == 1)
    ensures Walk(types, ps, args, ret) == WalkRepeat(types, ps, args, ret)
  {
    EndOfNil();
    EmptyBody(types, ps.next);
    hide Row;
  }

  lemma {:induction false} OrdinaryIsComplete(types: Types, ps: Patterns, args: seq<Arg>, ret: int)
    requires Ordinary(ps) && (ret == 0 || ret == 1) && Generates(types, ps, args, true)
    ensures Walk(types, ps, args, ret) == Returns(1, |args|)
    decreases ps
  {
    hide Generates, Walk, WalkRepeat, Repeats, Accepts, EndCheck;
    if Tail(ps) {
      TailIsComplete(types, ps, args, ret);
    } else if LastRows(ps) {
      LastRowsAreComplete(types, ps, args, ret);
    } else if ps.head.OneOrMore? {
      OneOrMoreSplit(types, ps, args);
      OneIsTaken(types, ps.head.body, args);
      RepeatIsComplete(types, ps, args[1..], 1);
      OneOrMoreStep(types, ps, args, ret);
    } else if ps.head.OneOf? {
      assert args[..|args|] == args;
      AlternativePresent(types, ps, args, |args|, ret);
      assert args[1..][..|args| - 1] == args[1..];
      OrdinaryIsComplete(types, ps.next, args[1..], 1);
    } else if args != [] {
      SinglePresent(types, ps, args);
      SingleStep(types, ps, args, ret);
      OrdinaryIsComplete(types, ps.next, args[1..], 1);
    } else {
      LeftOut(types, ps, args);
      OrdinaryIsComplete(types, ps.next, args, 1);
      EmptyBody(types, ps.next);
      EmptyBody(types, ps);
    }
  }

  /** With operators the greedy walk misses calls that the pattern allows: an optional part takes
      the arguments that the same part, not optional, needs after it. */
  lemma GreedyIsIncomplete(types: Types, part: Patterns, args: seq<Arg>)
    requires args != [] && !EndCheck(part) && Walk(types, part, args, 0) == Returns(1, |args|)
    ensures var ps := Cons(Optional(part), part);
      Generates(types, ps, args, true) && CheckCall(types, ps, args) == Returns(-2, |args|)
  {
    hide Walk, WalkRepeat, Generates, EndCheck;
    var ps := Cons(Optional(part), part);
    WalkIsSound(types, part, args, 0);
    assert args[..|args|] == args && args[|args|..] == [];
    OptionalSkipped(types, ps, args, true);
    EmptyBody(types, part);
    OptionalStep(types, ps, args, 0);
  }

  // ----- Ordinary patterns that always return -----

  const GOOD := Given(1)

  const BAD := Given(0)

  /** Types that take one argument and refuse all others. */
  function OnlyGood(): Types {
    (id, a) => a == GOOD
  }

  /** Every walk over an ordinary pattern comes to an end, for all types and arguments, if and only if
      it is settled: among alternatives there is always one that matches whatever comes. */
  lemma OrdinaryReturnsIff(ps: Patterns)
    requires Ordinary(ps)
    ensures (forall types: Types, args: seq<Arg> :: Walk(types, ps, args, 0).Returns?) <==> Settled(ps)
  {
    hide Walk, Settled, Ordinary;
    if Settled(ps) {
      forall types: Types, args ensures Walk(types, ps, args, 0).Returns? {
        SettledReturns(types, ps, args, 0);
      }
    } else {
      var args := OrdinaryHangs(ps, 0);
    }
  }

  lemma {:induction false} OrdinaryHangs(ps: Patterns, ret: int) returns (args: seq<Arg>)
    requires Ordinary(ps) && !Settled(ps) && (ret == 0 || ret == 1)
    ensures args != [] && Walk(OnlyGood(), ps, args, ret).Hangs?
    decreases ps
  {
    hide EndCheck, Accepts, Walk, WalkChoices, Covered, Fits, OnlyGood;
    if Tail(ps) {
      TailIsSettled(ps);
      args := [];
    } else if LastRows(ps) {
      RowIsOrdinary(ps.head.body);
      args := OrdinaryHangs(ps.head.body, 0);
      BodyHangs(OnlyGood(), ps, args, ret);
    } else if ps.head.OneOrMore? {
      OnlyOneIsSettled(ps.head.body);
      TailIsSettled(ps.next);
      args := [];
    } else if ps.head.OneOf? && !Covered(ps.head.choices) {
      args := [BAD];
      NoneTakesBad(ps.head.choices);
      ChoicesTakeOne(OnlyGood(), ps.head.choices, args);
      RefusedHangs(OnlyGood(), ps, args, ret);
    } else {
      var rest := OrdinaryHangs(ps.next, 1);
      args := [GOOD] + rest;
      assert args[1..] == rest;
      GoodIsTaken(ps, args, ret);
    }
  }

  lemma {:induction false} RowIsOrdinary(ps: Patterns)
    requires Row(ps)
    ensures Ordinary(ps)
    decreases ps
  {
    if ps.Cons? {
      RowIsOrdinary(ps.next);
    }
  }

  lemma BodyHangs(types: Types, ps: Patterns, args: seq<Arg>, ret: int)
    requires LastRows(ps) && (ret == 0 || ret == 1) && args != [] && Walk(types, ps.head.body, args, 0).Hangs?
    ensures Walk(types, ps, args, ret).Hangs?
  {
    hide Row, EndCheck;
  }

  lemma RefusedHangs(types: Types, ps: Patterns, args: seq<Arg>, ret: int)
    requires ps.Cons? && ps.head.OneOf? && (ret == 0 || ret == 1) && args != []
    requires WalkChoices(types, ps.head.choices, args).Hangs?
    ensures Walk(types, ps, args, ret).Hangs?
  {
    hide WalkChoices;
  }

  lemma {:induction false} NoneTakesBad(choices: Choices)
    requires EachOne(choices) && !Covered(choices)
    ensures !AcceptsAny(OnlyGood(), choices, BAD)
    decreases choices
  {
    if choices.Choice? {
      OnlyOneIsSettled(choices.first);
      NoneTakesBad(choices.others);
    }
  }

  lemma SomeTakesGood(choices: Choices)
    requires EachOne(choices) && choices.Choice?
    ensures AcceptsAny(OnlyGood(), choices, GOOD)
  {
    assert Accepts(OnlyGood(), choices.first.head, GOOD);
  }

  lemma GoodIsTaken(ps: Patterns, args: seq<Arg>, ret: int)
    requires ps.Cons? && IsTaker(ps.head) && (ps.head.OneOf? ==> Covered(ps.head.choices))
    requires (ret == 0 || ret == 1) && args != [] && args[0] == GOOD
    ensures Walk(OnlyGood(), ps, args, ret) == Past(1, Walk(OnlyGood(), ps.next, args[1..], 1))
  {
    hide Walk, WalkChoices, EndCheck, Fits, Settled;
    if ps.head.OneOf? {
      SomeTakesGood(ps.head.choices);
      ChoicesTakeOne(OnlyGood(), ps.head.choices, args);
      ChosenStep(OnlyGood(), ps, args, ret);
    } else {
      SingleStep(OnlyGood(), ps, args, ret);
    }
  }

  lemma ChosenStep(types: Types, ps: Patterns, args: seq<Arg>, ret: int)
    requires ps.Cons? && ps.head.OneOf? && (ret == 0 || ret == 1) && args != []
    requires WalkChoices(types, ps.head.choices, args).Returns?
    ensures var n := WalkChoices(types, ps.head.choices, args).used;
      Walk(types, ps, args, ret) == Past(n, Walk(types, ps.next, args[n..], 1))
  {
    hide WalkChoices;
  }

  // ----- The walk, as the code makes it -----

  /** `check_arg_type`, when it returns. */
  method CheckArgType(types: Types, first: Patterns, args: seq<Arg>) returns (code: int, location: nat)
    requires Walk(types, first, args, 0).Returns?
    ensures Walk(types, first, args, 0) == Returns(code, location)
    decreases first, 2
  {
    hide EndCheck, Accepts, Walk;
    var farg, arg, ret := first, args, 0;
    location := 0;
    while arg != [] && farg.Cons?
      invariant ret == 0 || ret == 1
      invariant farg == first || (first decreases to farg)
      invariant Walk(types, first, args, 0) == Past(location, Walk(types, farg, arg, ret))
      decreases farg
    {
      var fits, count;
      fits, ret, arg, count := MatchOne(types, farg, arg, ret);
      if !fits {
        return -1, location;
      }
      location := location + count;
      farg := farg.next;
    }
    WalkEnds(types, farg, arg, ret);
    code := if arg != [] then ret else if EndCheck(farg) then 1 else -2;
  }

  lemma WalkEnds(types: Types, ps: Patterns, args: seq<Arg>, ret: int)
    requires (ret == 0 || ret == 1) && (args == [] || ps.Nil?)
    ensures Walk(types, ps, args, ret) == Returns(if args != [] then ret else if EndCheck(ps) then 1 else -2, 0)
  {
  }

  /** One statement of the pattern. */
  method MatchOne(types: Types, farg: Patterns, from: seq<Arg>, ret0: int)
    returns (fits: bool, ret: int, arg: seq<Arg>, count: nat)
    requires from != [] && farg.Cons? && (ret0 == 0 || ret0 == 1) && Walk(types, farg, from, ret0).Returns?
    ensures ret == 0 || ret == 1
    ensures Walk(types, farg, from, ret0) == if fits then Past(count, Walk(types, farg.next, arg, ret))
            else Returns(-1, 0)
    decreases farg, 1
  {
    hide EndCheck, Accepts;
    fits, ret, arg, count := true, ret0, from, 0;
    match farg.head {
      case OneOf(choices) =>
        count := MatchChoice(types, choices, from);
        arg, ret := from[count..], 1;
      case Optional(body) =>
        var tmp, n := CheckArgType(types, body, from);
        if tmp > 0 {
          ret, arg, count := 1, from[n..], n;
        }
      case ZeroOrMore(body) => ret, arg, count := MatchRepeat(types, farg, from, ret0, 0);
      case OneOrMore(body) =>
        var tmp, n := CheckArgType(types, body, from);
        if tmp > 0 {
          ret, arg, count := MatchRepeat(types, farg, from[n..], 1, n);
        } else {
          fits := false;
        }
      case p =>
        if Accepts(types, p, from[0]) {
          arg, ret, count := from[1..], 1, 1;
        } else {
          fits := false;
        }
    }
  }

  /** The loop of a repetition: goes on until its body does not match. */
  method MatchRepeat(types: Types, farg: Patterns, from: seq<Arg>, ret0: int, location0: nat)
    returns (ret: int, arg: seq<Arg>, location: nat)
    requires farg.Cons? && (farg.head.ZeroOrMore? || farg.head.OneOrMore?) && (ret0 == 0 || ret0 == 1)
    requires WalkRepeat(types, farg, from, ret0).Returns?
    ensures (ret == 0 || ret == 1) && |arg| <= |from|
    ensures Past(location0, WalkRepeat(types, farg, from, ret0)) == Past(location, Walk(types, farg.next, arg, ret))
    decreases farg, 0
  {
    hide EndCheck, Accepts, Walk, WalkRepeat;
    ret, arg, location := ret0, from, location0;
    var tmp := 1;
    while tmp > 0
      invariant (ret == 0 || ret == 1) && |arg| <= |from|
      invariant Past(location0, WalkRepeat(types, farg, from, ret0)) ==
                if tmp > 0 then Past(location, WalkRepeat(types, farg, arg, ret))
                  else Past(location, Walk(types, farg.next, arg, ret))
      decreases |arg|, tmp
    {
      var count;
      RepeatStep(types, farg, arg, ret);
      tmp, count := CheckArgType(types, farg.head.body, arg);
      if tmp > 0 {
        arg, location, ret := arg[count..], location + count, 1;
      }
    }
  }

  /** The loop over alternatives, when one of them matches. */
  method MatchChoice(types: Types, choices: Choices, arg: seq<Arg>) returns (count: nat)
    requires arg != [] && WalkChoices(types, choices, arg).Returns?
    ensures WalkChoices(types, choices, arg) == Returns(1, count)
    decreases choices, 2
  {
    hide Walk;
    var child := choices;
    while true
      invariant child == choices || (choices decreases to child)
      invariant WalkChoices(types, child, arg) == WalkChoices(types, choices, arg)
      decreases child
    {
      var tmp;
      tmp, count := CheckArgType(types, child.first, arg);
      if tmp > 0 {
        return;
      }
      child := child.others;
    }
  }
}
