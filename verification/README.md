# Verification of the Jeda compiler and runtime

Jeda is a language for hardware verification: structured programs over integers and four-state bit
vectors, compiled to an accumulator/stack machine. This project models the parts of the compiler
and of its runtime where a mistake is easy to make and hard to see, and proves what they promise.
Words have 32 bits throughout.

**The code generator.** `Source` gives the int-valued language and its meaning, with an allowance
of loop turns instead of divergence; `Machine` the machine, step by step; `CodeGen` the text that is
generated, as functions of the program; `Emitter` the generator as it works, writing lines while it
takes label numbers, keeps the stack of enclosing loops and hands out slots. `ExprCorrect`,
`StmtCorrect` and `CompilerCorrect` prove that the machine ends exactly when the source program
does, and in the same state, and `Compiler` that this holds for what a new generator writes;
`Passes` counts how often the machine comes to the head of a `repeat`; `Laws` fixes the meaning of
the language by what its constructs have to do with each other, and carries such laws over to the
emitted texts; `Labels` proves that no label is written twice; `Discipline` that the frame has one height at every position, whatever jumps led
there, and `Levels` that at every statement this height is the level that the generator counts
along. `Timed` shows that timed expressions decide a quantifier over clock samples. The arithmetic
of the ALU and the values of ports are parameters: everything holds for all of them.

**Four-state arithmetic.** `Words` has the numbers that vectors of words stand for. `BitSum`,
`BitTimes`, `BitDiv` with `Divider`, `BitCompare` and `BitLogic` model the word loops over arrays,
in place. Addition, subtraction and division are not always right beyond 64 bits, because the
carry tests of the loops miss some carries; for each there is the exact condition on the operands
under which the result is right, with a concrete failing input. With operands of different widths
there is more. A shorter subtrahend above half its range is taken for a negative number, so a
shorter divisor above half its range divides wrongly. The test for a zero divisor looks at as many
words as the dividend has, so that 1 / 2^32, of 32 and 64 bits, is reported as a division by zero.
Division clears only as many words of its scratch register as the divisor has, and compares what
an earlier division has left in the others.

**The runtime.** `VStack` is the ring of eight cached entries in front of the operand stack, with
tagged small integers and exchanged buffers; it refines one plain stack over every run.
`MersenneTwister` is the random number generator, proved against the infinite recurrence.

**The front end.** `ArgMatch` is the greedy matcher of actual arguments, `BinaryConst` the printer
and the scanner of binary constants, `ScopeTree` the scope tree that the second pass walks again,
and `Inheritance` the checks and walks along the chain of superclasses.

Where the code departs from what its name or comments suggest, the model follows the code. In
particular: the carry test in addition and the negation carry in subtraction lose information
(`BitSum`); the matcher goes round for ever when no alternative matches, or when the body of a
repetition can do without arguments and takes them all, and for no other reason
(`ArgMatch.HangsIff`), and its comment speaks of a code 0 for too few arguments, which is never
returned: too few and too many are both -2 (`ArgMatch.RowCodes`, `ArgMatch.NeverTooFew`); a
leading z is extended over zeros that follow it (`BinaryConst.RoundTripIff`), and a word added to a
binary constant clears the last old one (`BinaryConst.OnesAreLost`); the superclass check
does not end below a cycle that it is not part of (`Inheritance.ForeignCycle`); popping a cached wide
vector does not load its size (`VStack.VStack.Pop`). The second pass over a program replays the first
(`ScopeTree.ProgramReplays`); it would go astray only if a scope were entered in the name of the
built-in class, which the grammar enters by `enter_class_scope` alone (`ScopeTree.ClashExists`).

## Model

| member | source | states |
|---|---|---|
| CodeGen.FoundIsMeant | src/compiler/parse_tree.c:748-758 | the search gives the entry that a break or continue means, the last or the last with the name, and nothing only when there is none |
| Emitter.Generator.FindLabelData | src/compiler/parse_tree.c:748-758 | without a name the last entry; with a name the last entry that has it, and nothing if and only if none has it |
| Emitter.Generator.EvalExpression | src/compiler/expression.c:3527-3700 | writes exactly the text that is proved to compute the expression, and takes exactly its labels |
| Emitter.Generator.EvalBinaryExp | src/compiler/expression.c:2544-2900 | the text of a binary operation, its left operand kept on the stack while the right one is computed |
| Emitter.Generator.EvalAssignOpExp | src/compiler/expression.c:3095-3188 | the text of a compound assignment, which reads the variable before the operand |
| Emitter.Generator.EvalLandExp | src/compiler/expression.c:2687-2706 | the text of a short-circuit and, with its two labels taken before the operands |
| Emitter.Generator.EvalLorExp | src/compiler/expression.c:2708-2729 | the text of a short-circuit or |
| Emitter.Generator.EvalConditionalExp | src/compiler/expression.c:2986-3002 | the text of a conditional expression |
| Emitter.Generator.EvalTillLoop | src/compiler/expression.c:3304-3325 | the sampling loop of a "till" with its four labels |
| Emitter.Generator.EvalWhileLoop | src/compiler/expression.c:3358-3380 | the sampling loop of a "while" with its four labels |
| Emitter.Generator.OutputStatement | src/compiler/output.c:1414-1510 | writes exactly the text that is proved to run the statement, leaves the label stack and the slots as they were |
| Emitter.Generator.OutputRepeatStatement | src/compiler/output.c:885-918 | a repeat with its counter on the stack, one level up |
| Emitter.Generator.OutputCaseStatement | src/compiler/output.c:966-1024 | a case with the compared value dropped before any body |
| Emitter.Generator.OutputBreakStatement | src/compiler/output.c:1026-1046 | pops what lies above the frame of the target loop, and jumps to the break label of the innermost loop, or of the innermost with the name |
| Emitter.Generator.OutputContinueStatement | src/compiler/output.c:1048-1090 | the same with the continue label, but the counter of a repeat stays |
| Emitter.Generator.OutputBlockStatement | src/compiler/output.c:475-534 | a block takes the next slots for its variables and gives them back |
| ExprCorrect.ExprRuns | src/compiler/expression.c:2362-2729 | running the code of an expression yields the source value, the same updates in the same order, and the rest of the stack untouched |
| ExprCorrect.TimedRuns | src/compiler/expression.c:3277-3384 | the same for timed expressions: value, clock and balanced stack on all exits |
| StmtCorrect.StmtRuns | src/compiler/output.c:475-1090 | running the code of a statement lands where the source statement ends: behind it, or at the label of the loop that is left or continued, or it runs on for as many steps as allowed |
| StmtCorrect.BreakRuns | src/compiler/output.c:1026-1046 | a break lands at its loop with the frame of that loop |
| StmtCorrect.RepeatLoopRuns | src/compiler/output.c:896-916 | a repeat loop with its counter in the stack follows the source loop turn by turn |
| StmtCorrect.ItemsRun | src/compiler/output.c:976-1023 | case items are tried in order and the first match runs |
| CompilerCorrect.CompilationIsExact | src/compiler/output.c:475-1090 | the machine stops in a frame at a time if and only if the source program ends with those locals at that time |
| CompilerCorrect.SourceEnds | src/compiler/output.c:475-1090 | a terminating program compiles to code that stops at its end; a longer and longer source run to a longer and longer machine run |
| CompilerCorrect.MachineStops | src/compiler/output.c:475-1090 | the machine stops nowhere but at the end of the code, and then the source program has ended |
| CompilerCorrect.RepeatTurns | src/compiler/output.c:885-918 | in the meaning of the source, without a break a repeat body runs exactly as often as its counter says, also with continue |
| Passes.RepeatPasses | src/compiler/output.c:896-916 | the machine comes to the head of the emitted loop after every one of these turns, the counter on the stack lower by the number of turns, and is there at no other time |
| Passes.RepeatRunsExactly | src/compiler/output.c:885-918 | between the head and the end of the loop the machine is at the head exactly once more than the counter says, when every turn goes through or is continued |
| Compiler.Compile | src/compiler/output.c:1414-1510 | what a new generator writes for a program stops exactly as the program ends, for every arithmetic, every frame and every start |
| Laws.BreakEnds | src/compiler/output.c:1026-1046 | a named break ends the loop of that name, an unnamed one the innermost, any other goes on outward unchanged |
| Laws.ContinueGoesOn | src/compiler/output.c:1048-1090 | a continue goes on with the loop that it names as if the body had gone through, any other goes on outward unchanged |
| Laws.AndIsChoice | src/compiler/expression.c:2687-2706 | && is a choice between 0 and 1 that leaves its right operand alone when the left one is zero |
| Laws.OrIsChoice | src/compiler/expression.c:2708-2729 | the same for two bars, when the left operand is not zero |
| Laws.ChoiceTakes | src/compiler/expression.c:2986-3002 | a choice takes its first branch on every value but zero |
| Laws.LeftFirst | src/compiler/expression.c:2544-2900 | the right operand sees what the left one has stored |
| Laws.AssignOpIsAssign | src/compiler/expression.c:3095-3188 | v op= e is v = v op e |
| Laws.AssignStores | src/compiler/expression.c:2362-2370 | a store changes that variable only and yields what it stores |
| Laws.CountsBy | src/compiler/expression.c:2362-2400 | ++ and -- before and behind a variable: new value, old value, the same change, wrapping round at either end |
| Laws.WindowLeftOut | src/compiler/expression.c:3277-3384 | a missing window is 0 in a "till" and 1 in a "while" |
| Laws.PortIsSampled | src/compiler/expression.c:3277-3384 | of a port a "till" asks whether it is non-zero at some clock sample from the end of the delay to the end of the window, and a "while" whether it is at all of them |
| Laws.SeqSplits | src/compiler/output.c:475-534 | a sequence ends at the first statement that does not go through |
| Laws.IfTakes | src/compiler/output.c:785-812 | an if goes into its first branch on every value but zero |
| Laws.ElsifIsNested | src/compiler/output.c:772-812 | an elsif is an if in the else |
| Laws.FreshIsZero | src/compiler/output.c:475-534 | a local without initialiser is zero |
| Laws.BlockInitialises | src/compiler/output.c:475-534 | the initialisers of a block are assignments at its start, in order |
| Laws.EmptyBlock | src/compiler/output.c:475-534 | a block takes its own locals away and leaves the others in their places |
| Laws.CaseTakes | src/compiler/output.c:966-1024 | a case runs the item with the constant |
| Laws.CondsSplit | src/compiler/output.c:976-1023 | the conditions of a case are tried in order, up to the first that is equal |
| Laws.CaseIs | src/compiler/output.c:966-1024 | a case has one value for all items; without a match nothing is run, unless there is a default |
| Laws.WhileIsFor | src/compiler/output.c:827-883 | a while is a for with a test only |
| Laws.ForeverIsFor | src/compiler/output.c:844-964 | a forever is a for with nothing but a body |
| Laws.ForStarts | src/compiler/output.c:844-883 | the expressions in front of a for are statements in front of it |
| Laws.ForTurns | src/compiler/output.c:844-883 | the expressions at the end of a for are evaluated before the next test |
| Laws.MoreTurns | src/compiler/output.c:827-964 | a greater allowance of turns never changes how a program ends |
| Laws.OneEnd | src/compiler/output.c:827-964 | a program ends in one way only |
| Laws.WhileIsRotated | src/compiler/output.c:827-943 | a while is a do loop behind its test |
| Laws.SameTextsStopAlike | src/compiler/output.c:475-1090 | the texts of programs that mean the same stop in the same frames at the same times |
| Laws.RotatedTextsStopAlike | src/compiler/output.c:827-943 | so do the text of a while and that of the do loop behind its test |
| Labels.GeneratedLabelsUnique | src/compiler/output.c:785-1024 | no label number is written twice in the whole text of a program |
| Discipline.TargetHeight | src/compiler/output.c:1048-1090 | the pop counts of break and continue are never negative and reach the height of the target label |
| Discipline.StmtFlows | src/compiler/output.c:475-1090 | the text of a statement takes the height in front of it to the same height behind it, on every path to every label |
| Discipline.FrameHeights | src/compiler/output.c:475-1090 | on every run the frame has the one height that belongs to the position, and the machine is never stuck |
| Levels.LevelIsHeight | src/compiler/output.c:475-1090 | wherever the text of a statement stands in the text of a program, every run that comes there finds a frame as high as the level with which the statement was generated |
| Timed.TillIsExists | src/compiler/expression.c:3277-3329 | a "till" is 1 if and only if at some sample of the window all conditions are non-zero, with what earlier samples changed; it stops at the first |
| Timed.WhilstIsForall | src/compiler/expression.c:3331-3384 | a "while" is 1 if and only if they are at every sample; it stops at the first where they are not |
| Timed.TimedCodeDecides | src/compiler/expression.c:3277-3384 | the emitted code decides the quantifier within the window and leaves the frame as the samples it has looked at left it |
| Timed.PureSamples | src/compiler/expression.c:3304-3325 | conditions without effects are asked of the store as it was, k samples later |
| BitSum.AddIsExactIff | src/compiler/bit_operations.c:751-763 | addition is exact modulo 2^S0 if and only if no word below the last meets all ones, all ones and a carry |
| BitSum.NarrowAddIsExact | src/compiler/bit_operations.c:769-791 | up to 64 bits addition is always exact |
| BitSum.WideAddCanFail | src/compiler/bit_operations.c:760 | at 96 bits it is not |
| BitSum.Plus | src/compiler/bit_operations.c:727-767 | if a word that is looked at is unknown, a and b are set in every bit of the size and in none beyond; else the sum, exact as characterised |
| BitSum.Add | src/compiler/bit_operations.c:769-791 | the sum in place, exact as characterised, nothing above touched |
| BitSum.SubIsExactIff | src/compiler/bit_operations.c:703-721 | subtraction is exact, for any two widths, if and only if no borrow is lost below the last word and a shorter subtrahend does not exceed half its range |
| BitSum.WrongSign | src/compiler/bit_operations.c:706-715 | a shorter subtrahend above half its range never subtracts rightly |
| BitSum.NarrowSubIsExact | src/compiler/bit_operations.c:692-724 | up to 64 bits and equal widths subtraction is always exact |
| BitSum.WideSubCanFail | src/compiler/bit_operations.c:711 | at 96 bits it is not |
| BitSum.MaskedOnes | src/compiler/bit_operations.c:746-751 | all ones, cut to the size, are the number 2^S0 - 1 |
| BitSum.Minus | src/compiler/bit_operations.c:642-690 | the same for the difference |
| BitSum.Sub | src/compiler/bit_operations.c:692-724 | the difference in place, exact as characterised |
| BitTimes.Times | src/compiler/bit_operations.c:797-874 | on an unknown operand a and b are set in every bit of the size; else exactly the product, whenever it fits into the result |
| BitTimes.AddProduct | src/compiler/bit_operations.c:847-865 | one partial product is added with its carry, which never reaches the end of the result |
| BitTimes.ProductFits | src/compiler/bit_operations.c:794-796 | normalised operands and a result as wide as both always fit |
| BitTimes.SetHalfValue | src/include/compiler_macro.h:58-60 | storing a half word changes the number by the difference, at its place |
| BitTimes.AllHalves | src/include/compiler_macro.h:56 | the half words make up the number |
| BitDiv.DivisionIsExactIff | src/compiler/bit_operations.c:993-1005 | from a clear Y the loop gives quotient and remainder of every dividend if and only if the divisor, of any width, is sound: with as many words as the dividend it is not awkward or lies beyond all dividends, with more it has something set above or its low words are such, with fewer it is not above half its range and not awkward |
| BitDiv.OperationIsRightIff | src/compiler/bit_operations.c:986-1005 | with the test for zero in front, the operation is right for every dividend if and only if the divisor is zero, or is sound and has something set in the words that the test looks at |
| BitDiv.FalseZero | src/compiler/bit_operations.c:986-992 | 1 / 2^32, of 32 and 64 bits, is taken for a division by zero |
| BitDiv.StaleYMisleads | src/compiler/bit_operations.c:995-1000 | a word of Y above a one-word divisor, left by an earlier division, makes the first comparison come out wrong |
| BitDiv.Divides | src/compiler/bit_operations.c:993-1005 | after every turn quotient and remainder are those of the dividend bits so far |
| BitDiv.SelfDivisionCanFail | src/compiler/bit_operations.c:993-1005 | a 96-bit number that is not divided rightly by itself |
| BitDiv.HalvedValue | src/include/compiler_macro.h:62-66 | the right shift macro divides by the power of two |
| BitDiv.DoubledValue | src/include/compiler_macro.h:69-73 | the left shift macro doubles, losing at most the top bit |
| Divider.LongEnoughIff | src/compiler/bit_operations.c:899-910 | Y is long enough for the dividend if and only if it was recorded so, or it is new and the dividend has at most 256 words |
| Divider.TooShort | src/compiler/bit_operations.c:900-903 | a first dividend of 257 words gets a Y of 256 |
| Divider.ShortIff | src/compiler/bit_operations.c:936-972 | the divisors of one word that do not come to the loop are zero and the 32 powers of two |
| Divider.DivUnit.AlwaysReady | src/compiler/bit_operations.c:899-910 | no earlier division can have left anything in Y that matters when Y is new, is replaced, or has no word above the divisor |
| Divider.DivUnit.Allocate | src/compiler/bit_operations.c:899-910 | Y and its recorded length afterwards; a new Y has all words clear |
| Divider.DivUnit.Div | src/compiler/bit_operations.c:881-1017 | for operands of any two widths: a and b set in every bit of the size on an unknown bit or a zero divisor, the error flag exactly when the test finds the divisor zero, and the quotient for every sound divisor; else what the loop leaves |
| Divider.DivUnit.Mod | src/compiler/bit_operations.c:1063-1194 | the same for the remainder |
| Divider.DivByPower | src/compiler/bit_operations.c:973-979 | the shift path divides, whatever the width of the result from that of the dividend on |
| Divider.ModByPower | src/compiler/bit_operations.c:1151-1155 | the mask path gives the remainder |
| BitCompare.Lt | src/compiler/bit_operations.c:36-86 | -1 on any unknown bit, else the order of the numbers for any two widths |
| BitCompare.Gt | src/compiler/bit_operations.c:88-138 | the same for greater |
| BitCompare.EqEq | src/compiler/bit_operations.c:140-190 | the same for equality |
| BitCompare.Le | src/compiler/bit_operations.c:192-242 | the same for less or equal |
| BitCompare.Ge | src/compiler/bit_operations.c:244-293 | the same for greater or equal |
| BitCompare.IsAtLeast | src/compiler/bit_operations.c:296-324 | the comparison that division uses |
| BitCompare.Ne | src/compiler/bit_operations.c:327-376 | the same for inequality |
| BitLogic.Compare | src/compiler/bit_operations.c:379-558 | case equality and the three wildcard comparisons hold if and only if all digits match, the shorter operand filled up with zeros |
| BitLogic.NotSame | src/compiler/bit_operations.c:415-448 | the opposite of case equality |
| BitLogic.ComparisonsAgree | src/compiler/bit_operations.c:379-558 | which comparison implies which, symmetry, and that ?== is ==? exchanged |
| BitLogic.Apply | src/compiler/bit_operations.c:1372-1489 | every digit follows the four-state table, and none beyond the size is set |
| BitLogic.WordTable | src/compiler/bit_operations.c:1372-1489 | the word formulas of a and b are the tables, bit by bit |
| BitLogic.Tilde | src/compiler/bit_operations.c:1556-1569 | every digit is inverted, z and x becoming x |
| BitLogic.TablesAgree | src/compiler/bit_operations.c:1372-1489 | nand and nor invert and and or; De Morgan's laws up to z and x |
| BitLogic.TableIsForced | src/compiler/bit_operations.c:1372-1489 | the tables give 0 or 1 exactly when the gate does whatever the unknown digits turn out to be, and else x |
| BitLogic.InverseIsForced | src/compiler/bit_operations.c:1556-1569 | the same for the inverse |
| BitLogic.MatchesAre | src/compiler/bit_operations.c:379-558 | which digits match in which comparison |
| VStack.TagRoundTrip | src/include/exec_macro.h:36-61 | a tag is odd, is twice the integer and one, and gives it back, if and only if the integer lies between -2^30 and 2^30 |
| VStack.VStack.Push | src/include/code_exec_macro.h:13-118 | the stack as a whole grows by the value of the accumulator, which keeps it |
| VStack.VStack.SpillOldest | src/include/code_exec_macro.h:18-32 | spilling moves the oldest entry without changing the stack as a whole |
| VStack.VStack.Flush | src/include/code_exec_macro.h:124-149 | after a flush the plain stack alone is the stack as a whole |
| VStack.VStack.Pop | src/include/code_exec_macro.h:198-341 | the newest value is off the stack and its words are in the accumulator; it is there as a whole if and only if it was not a cached wide vector, or has the size that the accumulator had |
| VStack.VStack.SwapBuffers | src/include/code_exec_macro.h:221-243 | the buffers change places and still none is used twice |
| VStack.VStack.PopN | src/include/code_exec_macro.h:353-371 | exactly n values go, cached ones first |
| VStack.VStack.Run | src/include/code_exec_macro.h:13-371 | over every run the ring in front of the stack shows what one plain stack shows, with the size that the accumulator is left with |
| VStack.NarrowRunsAreLegal | src/include/code_exec_macro.h:13-371 | without wide vectors every run is legal that takes off no more than there is, and it leaves alone what lies below the lowest height it comes to |
| VStack.PushedComesBack | src/include/code_exec_macro.h:13-371 | what has been pushed comes back into the accumulator when the values on top of it are off again |
| VStack.RingPush | src/include/code_exec_macro.h:115-116 | the place at the top of the ring, wrapping round, is the next in order |
| MersenneTwister.TemperBits0 | src/MT/mt19937int.c:121-124 | bits 0 to 3 of the tempered word, each the parity of named bits of the term |
| MersenneTwister.TemperBits4 | src/MT/mt19937int.c:121-124 | bits 4 to 7 of the tempered word, each the parity of named bits of the term |
| MersenneTwister.TemperBits8 | src/MT/mt19937int.c:121-124 | bits 8 to 11 of the tempered word, each the parity of named bits of the term |
| MersenneTwister.TemperBits12 | src/MT/mt19937int.c:121-124 | bits 12 to 15 of the tempered word, each the parity of named bits of the term |
| MersenneTwister.TemperBits16 | src/MT/mt19937int.c:121-124 | bits 16 to 19 of the tempered word, each the parity of named bits of the term |
| MersenneTwister.TemperBits20 | src/MT/mt19937int.c:121-124 | bits 20 to 23 of the tempered word, each the parity of named bits of the term |
| MersenneTwister.TemperBits24 | src/MT/mt19937int.c:121-124 | bits 24 to 27 of the tempered word, each the parity of named bits of the term |
| MersenneTwister.TemperBits28 | src/MT/mt19937int.c:121-124 | bits 28 to 31 of the tempered word, each the parity of named bits of the term |
| MersenneTwister.TwistBits0 | src/MT/mt19937int.c:104-114 | bits 0 to 7 of the next word, from bits of the three words and the row of the matrix |
| MersenneTwister.TwistBits8 | src/MT/mt19937int.c:104-114 | bits 8 to 15 of the next word, from bits of the three words and the row of the matrix |
| MersenneTwister.TwistBits16 | src/MT/mt19937int.c:104-114 | bits 16 to 23 of the next word, from bits of the three words and the row of the matrix |
| MersenneTwister.TwistBits24 | src/MT/mt19937int.c:104-114 | bits 24 to 31 of the next word, from bits of the three words and the row of the matrix |
| MersenneTwister.TermIs | src/MT/mt19937int.c:104-114 | 624 given words, and each further one from the words 624, 623 and 227 before it |
| MersenneTwister.SpreadIs | src/MT/mt19937int.c:64-68 | the k-th number of the congruential generator in closed form |
| MersenneTwister.SeedWordHalves | src/MT/mt19937int.c:64-68 | a word of the state has the upper halves of two numbers in a row |
| MersenneTwister.SeedWordsAre | src/MT/mt19937int.c:57-70 | the seeded state is these 624 words |
| MersenneTwister.Generator.Next | src/MT/mt19937int.c:93-127 | call t after seeding returns the tempered term 624 + t of the recurrence |
| MersenneTwister.Generator.Draw | src/MT/mt19937int.c:93-127 | so do any number of calls in a row |
| MersenneTwister.Generator.Regenerate | src/MT/mt19937int.c:104-114 | the three in-place loops compute the next 624 terms |
| MersenneTwister.Generator.Seed | src/MT/mt19937int.c:57-70 | the state is spread from one word by the congruential generator |
| MersenneTwister.Generator.SeedAll | src/MT/mt19937int.c:81-91 | the state is the given words |
| ArgMatch.AcceptedIsInLanguage | src/compiler/parse_tree.c:2403-2432 | an accepted call has all its arguments in the language of the pattern |
| ArgMatch.WalkIsSound | src/compiler/parse_tree.c:2237-2358 | whatever the walk has gone past is generated by the pattern |
| ArgMatch.EndCheckGenerates | src/compiler/parse_tree.c:2212-2235 | a rest accepted at the end generates the empty list |
| ArgMatch.EndCheckIff | src/compiler/parse_tree.c:2212-2235 | without alternatives the end check accepts if and only if the rest generates the empty list |
| ArgMatch.SingleCall | src/compiler/parse_tree.c:2165-2210 | what a wildcard, a formal argument and a variable need, for an expression and for a default |
| ArgMatch.SingleLeftOut | src/compiler/parse_tree.c:2212-2235 | only a variable by value with an initial value may be left out |
| ArgMatch.RowCodes | src/compiler/parse_tree.c:2403-2432 | for a row of single arguments, the return code and where the check stops: the first of the wrong type, too many, too few, or accepted |
| ArgMatch.RepetitionRefuses | src/compiler/parse_tree.c:2272-2319 | a body that refuses a call makes a repetition that needs it refuse at the first argument; left out, it leaves too many arguments |
| ArgMatch.NeverTooFew | src/compiler/parse_tree.c:2396-2425 | the code 0 is never returned |
| ArgMatch.SettledReturns | src/compiler/parse_tree.c:2237-2358 | every walk ends when nothing is repeated that may be empty and among alternatives one matches whatever comes; what stands behind a repetition that leaves no arguments is free |
| ArgMatch.OrdinaryReturnsIff | src/compiler/parse_tree.c:2237-2358 | for ordinary patterns this is exact: every walk ends, for all types and arguments, if and only if the pattern is settled |
| ArgMatch.RepetitionHangsIff | src/compiler/parse_tree.c:2283-2319 | for every pattern, a walk over a repetition does not end if and only if its body can do without arguments and, matched again and again, takes all of them, or the walk over what it leaves does not end, by the body or by what follows |
| ArgMatch.AlternativesHangIff | src/compiler/parse_tree.c:2252-2271 | for every pattern, a walk over alternatives does not end if and only if all are refused, or the walk over the first that is not refused does not end, or over what follows |
| ArgMatch.HangsIff | src/compiler/parse_tree.c:2237-2358 | whatever the pattern and the arguments, a walk does not end if and only if on its way it comes to alternatives or to a repetition of which this holds |
| ArgMatch.AlternativesCanHang | src/compiler/parse_tree.c:2252-2271 | alternatives none of which fits are tried for ever |
| ArgMatch.RepetitionCanHang | src/compiler/parse_tree.c:2283-2296 | a body that may be empty is repeated for ever after it has taken the last argument |
| ArgMatch.OrdinaryIsExact | src/compiler/parse_tree.c:2403-2432 | single arguments and alternatives of them in a row, then nothing, or repeated rows, or perhaps a repetition of one and then optional and repeated single arguments in any order: a call is accepted if and only if it is in the language |
| ArgMatch.RowsAreOrdinary | src/compiler/parse_tree.c:2237-2358 | rows of single arguments are ordinary, and so are alternatives of them in front of one |
| ArgMatch.GreedyIsIncomplete | src/compiler/parse_tree.c:2272-2282 | with an optional part a call of the language can be refused |
| ArgMatch.CheckArgType | src/compiler/parse_tree.c:2237-2358 | the loops return the code, and as location the length of the prefix gone past |
| BinaryConst.RoundTripIff | src/compiler/headergen.c:216-236 | scanning gives back what was printed if and only if the constant is zero, starts with 1, has x on top, or z on top down to the highest 1 or x |
| BinaryConst.PrintAndScan | src/compiler/headergen.c:216-236 | printing a constant and scanning the text rebuilds size, a and b if and only if the constant survives |
| BinaryConst.ZeroAboveZIsLost | src/compiler/parse_tree.c:1319-1342 | 0z0 comes back as zz0 |
| BinaryConst.PrintBit | src/compiler/headergen.c:216-236 | prints the size and the digits without leading zeros |
| BinaryConst.ScanBinary | src/compiler/parse_tree.c:1264-1365 | size and all digits are what the text says, with the extension of a leading x or z, if and only if the significant digits fit into the words of the size, or there is one more and the extension restores the 32 that are lost; nothing is set beyond the size |
| BinaryConst.RestoredIff | src/compiler/parse_tree.c:1287-1296 | with one digit too many: the first 32 are all x and the next is 1 or x, or the first is z and none of the 32 is 1 or x |
| BinaryConst.OnesAreLost | src/compiler/parse_tree.c:1287-1296 | 32'b with 33 ones comes out as the number 1, of 33 bits |
| BinaryConst.ScanVBinary | src/compiler/parse_tree.c:1368-1394 | the same for a sized or unsized token; size zero is an error |
| BinaryConst.Extend | src/compiler/parse_tree.c:1319-1342 | a leading x or z fills exactly the positions above the highest a bit |
| BinaryConst.ShiftLeft | src/compiler/parse_tree.c:790-796 | the shift moves every bit up by one across words |
| BinaryConst.PrintedIsToken | src/compiler/headergen.c:216-236 | what is printed is a token of the right size with the printed digits |
| BinaryConst.DecimalRoundTrip | src/compiler/parse_tree.c:1380-1384 | the size is read back as it was written |
| BinaryConst.DecimalSplits | src/compiler/parse_tree.c:1380-1384 | decimal notation: digits in front count as many powers of ten more as there are behind |
| BinaryConst.DecimalDigits | src/compiler/parse_tree.c:1380-1384 | the ten digits and 10 |
| BinaryConst.SizesAre | src/compiler/parse_tree.c:1373-1384 | the size is the number in front of the quote, and 32 without one |
| BinaryConst.CharsAre | src/compiler/parse_tree.c:1300-1314 | what each character stands for, upper case as lower case |
| BinaryConst.ReadSplits | src/compiler/parse_tree.c:1279-1317 | a text is read character by character |
| BinaryConst.CaseDoesNotMatter | src/compiler/parse_tree.c:1300-1314 | a text in lower case is read as the text |
| ScopeTree.SecondPassReplaysIff | src/compiler/symtab.c:79-162 | the second pass is in the same node after every step, and ends with the same table, if and only if no scope is entered whose parent has an older child with the same id |
| ScopeTree.FollowsIff | src/compiler/symtab.c:85-162 | the same from any pair of tables in step |
| ScopeTree.LeftAloneReplays | src/compiler/symtab.c:79-162 | it does whenever no scope is entered in a parent that had a child with an id before the first pass |
| ScopeTree.ProgramReplays | src/compiler/symtab.c:47-162 | from the table that a program starts with, the second pass is in the same node after every step and leaves the same table, unless a scope is entered in the name of the built-in class |
| ScopeTree.ClashExists | src/compiler/parse_init.c:54-73 | the exception is needed: a scope entered in that name would be given the id that the scope of the class has |
| ScopeTree.StartIsMade | src/compiler/parse_init.c:54-73 | the table that a program starts with is what entering and leaving the scope of the built-in class makes of the top scope |
| ScopeTree.EnterMakes | src/compiler/symtab.c:85-103 | pass 1 enters a new node: last child of the named or current scope, with that scope as parent, the current one as way back, and the counter as id |
| ScopeTree.EnterClassMakes | src/compiler/symtab.c:125-141 | a class has one scope, made when it has none, with the class as parent |
| ScopeTree.EnterFinds | src/compiler/symtab.c:104-122 | pass 2 goes into a child of the same scope that carries the counter, and notes the way back |
| ScopeTree.ExitReturns | src/compiler/symtab.c:155-162 | leaving goes to where the scope was entered from |
| ScopeTree.RunKeepsTree | src/compiler/symtab.c:79-162 | over every run of pass 1 each child has the scope whose child it is as parent, none is a child twice, and nodes keep parent and id |
| ScopeTree.ScopeTable.EnterScope | src/compiler/symtab.c:85-123 | one step of either pass, or the broken-link error; parent, way back, id and place of the node that becomes the current one |
| ScopeTree.ScopeTable.EnterClassScope | src/compiler/symtab.c:125-153 | the same for class scopes, whose parent is the class |
| ScopeTree.ScopeTable.ExitScope | src/compiler/symtab.c:155-162 | back to where the scope was entered from |
| ScopeTree.ScopeTable.FindChild | src/compiler/symtab.c:106-113 | the first child that carries the id, and none if and only if no child does |
| Inheritance.AllAcceptedIff | src/compiler/parse_tree.c:569-574 | all classes are accepted if and only if there is no cycle and no class descends from a final one |
| Inheritance.AnswersIff | src/compiler/parse_tree.c:569-574 | when the check says yes, when no, and when nothing at all |
| Inheritance.ForeignCycle | src/compiler/parse_tree.c:569-574 | below two classes that are above each other the check of a third never answers |
| Inheritance.CycleIsRefused | src/compiler/parse_tree.c:569-574 | a class above itself is always refused |
| Inheritance.LinkingKeepsAcyclicIff | src/compiler/parse_tree.c:569-574 | linking one class keeps the hierarchy in order if and only if the check accepts |
| Inheritance.CheckExtention | src/compiler/parse_tree.c:569-574 | the recursion returns the answer |
| Inheritance.IsParentClass | src/compiler/parse_tree.c:2073-2080 | true if and only if the class lies on the chain, whenever the walk ends |
| Inheritance.GetParentClassOffset | src/compiler/parse_tree.c:2082-2107 | the offset in either direction, or the fatal error, whenever the walks end |
| Inheritance.OffsetNames | src/compiler/parse_tree.c:2082-2107 | an offset k names the class k parent steps up |
| Inheritance.OffsetsOppose | src/compiler/parse_tree.c:2082-2107 | exchanging the classes negates the offset |
| Inheritance.OffsetsAdd | src/compiler/parse_tree.c:2082-2107 | offsets of related classes add |
| Inheritance.FindMember | src/compiler/symtab.c:252-269 | the nearest class with the member, a constructor only in the class itself, with its offset |

## Left out

- Types other than int in the code generator; floats, strings, objects and lists; function calls and return; class members; static and global variables; ports are read only.
- fork/join, p_or and p_and, non-blocking assignment, signals and clock edges other than "wait this many samples"; the scheduler.
- casex, casez, randcase, shifts and reductions as separate forms: the ALU is a parameter of the machine.
- Comments, debug lines and statement ids in the generated text; the leaf-function analysis.
- Labels.GeneratedLabelsUnique: takes it that the parser gave the loops distinct label numbers below the generator's counter; name resolution in the parser is not modelled either.
- `Machine.Label`: carries the intended frame height beside the number; the height is not part of the text and no step reads it.
- Timed.TimedCodeDecides: the code tests the window with the type of the last condition; only int conditions are modelled, where the two agree. A negative window counts as its unsigned value.
- Source.Exec: a run that does not end is one that ends for no allowance of loop turns.
- BitTimes.Times: takes it that the product fits into the result, as the comment above the code demands; with a shorter result the code writes beyond it.
- Divider.DivUnit.Div: the result is clear and has no fewer words than the dividend, whose bits beyond its size are clear; Y is long enough for both operands when the loop is entered, and the test for zero stays within the divisor's array. When words of Y above a shorter divisor are left set, only the error flag and the x result are stated.
- Divider.DivUnit.Mod: the same.
- BitLogic.Apply: for `or` with a shorter second operand the upper words stay as they are, z included.
- Bit routines that do not do what their names say: unary minus, `^~`, `!`, `!?=`; the remaining reductions.
- VStack.VStack.Pop: the size of a cached wide vector is whatever the accumulator had; only its words are claimed.
- VStack.VStack.Run: a push after such a pop is covered while the words that have been popped are enough for the size that the accumulator had; else the code copies words that nothing has set. Floats, strings, objects and lists on the stack are not modelled, nor is the debugger build, which tags nothing.
- BinaryConst.ScanBinary: with two or more significant digits than fit into the words, only that the result is not what the text says. Decimal, octal and hexadecimal constants are not modelled.
- ScopeTree.ScopeTable.EnterScope: nodes are numbers in a table and the chain of brothers is a sequence, so aliasing of C pointers is not captured; the nodes of the names of a program are in the table from the start; push_scope, pop_scope and the names in a scope are left out.
- ArgMatch.OrdinaryReturnsIff: a condition on the pattern alone is exact for ordinary patterns; for the others `HangsIff` follows the walk over the arguments, and whether some call can hang depends on which types exclude each other.
- ArgMatch.OrdinaryIsExact: what follows an optional part or a repetition of several arguments is not covered, where the greedy walk can refuse a call of the language (`GreedyIsIncomplete`).
- ArgMatch.CheckArgType: the type checks are a parameter; the flag that marks an argument as passed by reference is not modelled; the method covers the calls that return.
- Inheritance.CheckExtention: covers the calls that answer; AnswersIff says which do.
- Inheritance.FindMember: covers the walks that end, as IsParentClass and GetParentClassOffset do; a class has a set of member names; overwriting and access rights are left out.
- MersenneTwister.Generator.Next: the words are 32 bits wide, while `unsigned long` may be wider.
- Memory that runs out, error texts and file output.
