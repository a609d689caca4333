# Verified models of the V8 benchmark algorithms and the array library

This project models seven algorithmic cores of the repository in Dafny and proves what they are for.
Each part follows the form of its source: classes and arrays where the code updates objects in place,
functions where it only computes, loops with invariants where it loops. Integer widths, 32-bit shifts and
the 53-bit limit of exact doubles are written out where they matter.

| part | files | main theorem |
|---|---|---|
| Big integers (`benchmarks/crypto.js`) | `Digits` `JsWord` `BignumMath` `BigInteger` `Kernels` `NumberBits` `DivisionMath` `Division` `Doubles` `QuotientEstimate` `MontgomeryMath` `Montgomery` `PartialProducts` `Barrett` `ModArith` `Reducers` `WindowMath` `ModPow` `ModPowInt` | `ModPow` returns `x^e mod m`: digit loops, long division, Montgomery and Barrett reduction and the sliding window, end to end, for every estimate of quotient digits in range and so for the double-precision one of the code |
| Rewriting prover (`benchmarks/earley-boyer.js`) | `Options` `BoyerTerms` `BoyerRewrite` `BoyerDerivation` `BoyerTautology` `BoyerIfNormal` `BoyerProver` | a term the prover accepts holds in every interpretation of the lemmas; it accepts exactly the terms from which the lemmas derive a propositionally valid one |
| Earley parser (`benchmarks/earley-boyer.js`) | `EarleyGrammar` `EarleyTables` `EarleySets` `EarleyState` `EarleyClosure` `EarleyParser` `EarleyRecognizer` | the recogniser accepts an input exactly when the grammar derives it |
| Task scheduler (`benchmarks/richards.js`) | `Options` `RichardsSeed` `Richards` `RichardsRun` `RichardsTurns` `RichardsTrace` `PacketLinks` `PacketLists` `TaskBlocks` `RichardsScheduler` | every run on the linked packets and blocks ends, keeps every packet in exactly one place and only dispatches the highest unblocked task; every turn is described field by field, and the letters reach each device in the order of the alphabet |
| Splay tree (`benchmarks/splay.js`) | `SplayShape` `SplayDepth` `SplayStep` `SplayTree` | the pointer structure refines a sorted map, and splaying halves the depth of the search path |
| Array library (`src/array.js`) | `SortOrder` `QuickSort` `ArraySort` `ArrayModel` `ArraySplice` `ArrayReverse` | sort and reverse meet ECMA-262, splice does exactly outside two classes of calls, and the sparse paths agree with the dense ones |
| Constraint plans (`benchmarks/deltablue.js`) | `DeltaBluePlan` | a plan is exactly what is downstream of the edits, in order, and executing it makes its equalities hold |

How the parts are modelled:

- A big integer is the code's digit array, length and sign; `Value()` is its two's complement value in base 2^28.
  Bitwise operators (`JsWord`) can only be applied to numbers already in 32-bit range, so every use is a proof
  that no bit is lost. The quotient digit estimate of the division is any function
  between the true digit and 2^28 (`Estimate`), and everything built on division is proved for all of them. The
  formula of the code, with a rounding of every operation to a nearest double, is proved to be one of them.
- Terms of the prover are trees; the lemma list of every operator is a sequence in the order in which the code
  searches it. Rewriting is given fuel, and the answer is proved not to depend on it.
- The Earley chart keeps the code's vectors with their two linked lists; ghost fields hold the lists.
- The scheduler is a state machine whose step is one turn of the loop, and a class that works on the heap objects of
  the code: control blocks with three state bits, and packets threaded through their links. The variables that hold
  packets (six queues, the two lists of each handler, the two device slots) are numbered places; `Lists.Valid` says
  that every packet is in exactly one of them, linked from the head of the place, and `Shows` relates the objects to
  a state of the state machine. A packet has a name that stands for its identity. The seed of the idle task is a
  number; its shift and exclusive or are proved bit by bit.
- Nodes of the splay tree are heap objects. A ghost tree says how they hang together.
- An array is a map from indices to elements and a length; for sorting, where the length is fixed, a row of cells.
- What the engine computes natively (the keys of a sparse array, the estimate of its elements) is a parameter with
  the contract the code relies on. Input tokens, keys, values and idle counts are parameters.

Where the code and its own comments disagree, or where a property does not hold, the model follows the code:

- `bnCompareTo` answers with the wrong sign for two negative numbers of different lengths (`CompareTo` states exactly when it is right, `CompareToFails` compares -1 with -5).
- `bnpDivRemTo` with the quotient in place of the dividend returns the wrong remainder exactly when the dividend is not
  0 and has fewer digits than the divisor (`DivRemTo`); dividing 1 by 2^28 does it (`QuotientOverDividendFails`).
- `ArraySplice` with a single argument deletes everything from the start on, which its own comment says is not what
  ECMA-262 asks for, and it fixes the length of the array of deleted elements, which is then too long if the last of
  them is a hole. `SpliceFollows` says exactly when the array and the deleted elements are those of section 15.4.4.12;
  `OneArgumentDeviates` and `TrailingHoleDeviates` give the inputs.
- The comment above `am1` allows a carry up to 3B, with which a digit step can exceed 2^53 (`Am1ExactIff`); every caller stays within the bound.
- `is_parsed` with a start position beyond its end position reads past the vector and takes that for a yes (`OriginBeyondState`).
- The tautology test decides validity on conditionals whose tests are not conditionals (`TautologyDecides`). Called
  directly on another term it can miss a valid one (`TautologyIncomplete`); the prover never does, because its lemma
  list rewrites a conditional in a test away (`ProverDecides`).
- Converting 0 for Montgomery reduction divides a number made of zero digits, shifts by a negative count and stores a
  quotient digit 1 that is shifted out again; the remainder is 0 all the same (`DivideZero`).
- The comment on `makePlan` says edit constraints are not included in the plan; the code includes them, and executing them does nothing.
- The comment in `SafeRemoveArrayHoles` counts the hole at `first_undefined` from the start of a round; it is counted only when the scan stops there (`Compacting`).

## Model

| member | source | states |
|---|---|---|
| `Bignum.BigInteger.FromInt` | benchmarks/crypto.js:190-198 | the number holds x, for -1 <= x < 2^28, normalised, with its sign |
| `Bignum.BigInteger.Clamp` | benchmarks/crypto.js:243-247 | dropping leading sign digits keeps the value and leaves none |
| `Bignum.BigInteger.CopyTo` | benchmarks/crypto.js:180-187 | the copy has the same digits, length and sign, also when it is the number itself |
| `Bignum.BigInteger.DlShiftTo` | benchmarks/crypto.js:319-327 | the value times B^n, with n zero digits below, also in place; for a negative n the digits from -n up, in another number |
| `Bignum.BigInteger.DrShiftTo` | benchmarks/crypto.js:330-336 | the digits from n up, also in place |
| `Bignum.BigInteger.LShiftTo` | benchmarks/crypto.js:339-355 | the value times 2^n, for both signs and in place, with all shifts in 32-bit range |
| `Bignum.BigInteger.RShiftTo` | benchmarks/crypto.js:358-375 | the value divided by 2^n, rounded down, for both signs and in place |
| `Bignum.BigInteger.CompareTo` | benchmarks/crypto.js:287-298 | the sign of the difference, if and only if the numbers are not two negatives of different lengths |
| `Bignum.CompareToFails` | benchmarks/crypto.js:287-298 | -1 and -5 compare as if -1 were smaller |
| `Bignum.BigInteger.SubTo` | benchmarks/crypto.js:378-411 | the difference, for all signs and with the result aliasing an operand |
| `Bignum.BigInteger.Negate` | benchmarks/crypto.js:281-281 | the value negated |
| `Bignum.BigInteger.Abs` | benchmarks/crypto.js:284-284 | the absolute value, the number itself when it is not negative |
| `Bignum.BigInteger.Am3` | benchmarks/crypto.js:108-123 | w' + c'*B^n = w + x*this + c over the n digits for x < 2B and c < 3B, everything else untouched, all intermediates in 32-bit range; also onto the number itself at the same digits |
| `Bignum.BigInteger.DMultiply` | benchmarks/crypto.js:993-998 | the value times n, by adding n - 1 times the number to itself |
| `Bignum.BigInteger.MultiplyTo` | benchmarks/crypto.js:415-428 | the product, for all signs |
| `Bignum.BigInteger.SquareDigits` | benchmarks/crypto.js:431-448 | the digits of the square; the carry stored as 1 falls on a zero digit, so nothing is overwritten |
| `Bignum.BigInteger.SquareTo` | benchmarks/crypto.js:431-448 | the square, that is the product of multiplyTo with itself |
| `Bignum.BigInteger.DAddOffset` | benchmarks/crypto.js:1001-1010 | the value plus n*B^w, the carry going as far as it has to |
| `Kernels.Am1` | benchmarks/crypto.js:77-86 | the multiply-accumulate equation in base 2^26 with every sum an exact double, whenever the first sum is, also onto the number itself |
| `Kernels.Am1ExactIff` | benchmarks/crypto.js:71-86 | a digit step is exact for all digits if and only if (x+1)(B-1)+c is at most 2^53, which it is for every carry up to x; the comment's bounds exceed it |
| `Kernels.Am4` | benchmarks/crypto.js:126-140 | the multiply-accumulate equation in base 2^26 from 13-bit halves, all intermediates in range, also onto the number itself |
| `NumberBits.NBits` | benchmarks/crypto.js:301-309 | the position above the highest set bit of a 32-bit number, 1 for 0 |
| `Division.DivRemTo` | benchmarks/crypto.js:452-502 | for all signs and every estimate between the true digit and B, the quotient rounded towards zero and the remainder with the sign of the dividend; the remainder is right if and only if q is not a dividend other than 0 with fewer digits than the divisor; a zero divisor changes nothing |
| `Division.QuotientOverDividendFails` | benchmarks/crypto.js:452-460 | 1 divided by B with the quotient in place of the 1 has a wrong remainder |
| `Division.TruncDivision` | benchmarks/crypto.js:452-502 | that quotient and remainder make up the dividend, the remainder smaller than the divisor |
| `Division.DivideZero` | benchmarks/crypto.js:452-502 | an un-normalised dividend of zero digits leaves the remainder 0, although the code shifts by a negative count and stores a digit 1 |
| `Division.LongDivide` | benchmarks/crypto.js:462-501 | quotient and remainder when the dividend is at least as long, with q as scratch |
| `Division.Normalise` | benchmarks/crypto.js:462-466 | both operands shifted by the same power of two, the divisor's top bit set |
| `Division.LeadingDigit` | benchmarks/crypto.js:474-481 | the leading quotient digit, stored above the remainder |
| `Division.DivStep` | benchmarks/crypto.js:485-493 | one more quotient digit in place: remainder plus divisor times quotient stays the dividend |
| `Division.TryDigit` | benchmarks/crypto.js:487-488 | adding qd complemented divisors makes the digit above count towards qd |
| `Division.AddBack` | benchmarks/crypto.js:489-491 | the add-back loop ends with the true quotient digit |
| `Division.Extract` | benchmarks/crypto.js:494-500 | the finished quotient digits in the top of r are the quotient, the rest shifted back is the remainder |
| `Doubles.RoundingError` | benchmarks/crypto.js:473-487 | a correctly rounded result of at most 2^53/p is off by at most 1/2p |
| `Doubles.RoundsAbove` | benchmarks/crypto.js:473-487 | rounding does not take a number below an integer that it is not below |
| `Doubles.NearestExists` | benchmarks/crypto.js:473-487 | every real number has a nearest double, so that there are roundings to a nearest one (`RoundingExists`) |
| `QuotientEstimate.SumOfNear` | benchmarks/crypto.js:472-487 | the sum x*d1 + (x'+16)*d2 of rounded products with rounded factors is off by less than 3*2^-26 + 2*2^-52 |
| `QuotientEstimate.SumAtLeast` | benchmarks/crypto.js:472-487 | which is less than what adding 16 to the second digit gains |
| `QuotientEstimate.DoubleEstimateIsEstimate` | benchmarks/crypto.js:470-487 | with every operation rounded to a nearest double, however ties go, the estimate of the code lies between the true digit and B |
| `QuotientEstimate.EstimateClose` | benchmarks/crypto.js:470-491 | with its five roundings the estimate is the true quotient digit or one more, so that at most one divisor is added back |
| `MontgomeryReducer.InvDigit` | benchmarks/crypto.js:539-553 | -1/m modulo B for an odd first digit, 0 for an even one |
| `MontgomeryReducer.Montgomery.Multiplier` | benchmarks/crypto.js:587-589 | the product from 15-bit halves is the multiplier that clears the digit |
| `MontgomeryReducer.Montgomery.AddMultiple` | benchmarks/crypto.js:590-592 | x plus u0*m*B^i with digit i zero and the carry at digit i+t |
| `MontgomeryReducer.PropagateCarry` | benchmarks/crypto.js:594-594 | the carry moves up without leaving the 2t+1 digits, the value unchanged |
| `MontgomeryReducer.Montgomery.ClearDigits` | benchmarks/crypto.js:583-595 | the low t digits are zero and the value is x0 + m*u with 0 <= u < B^t |
| `MontgomeryReducer.Montgomery.Reduce` | benchmarks/crypto.js:583-600 | for 0 <= x < m*B^t the result r has 0 <= r < m and r*B^t congruent to x |
| `PartialProducts.MultiplyLowerTo` | benchmarks/crypto.js:1028-1039 | the product modulo B^n |
| `PartialProducts.MultiplyUpperTo` | benchmarks/crypto.js:1043-1053 | the product without its n lower digits, never too large and short by less than n |
| `BarrettReducer.BarrettEstimate` | benchmarks/crypto.js:1075-1083 | the estimated quotient does not exceed the true one and leaves less than (k+3)m |
| `BarrettReducer.Reciprocal` | benchmarks/crypto.js:1057-1063 | mu is floor(B^2k / m) |
| `BarrettReducer.WrapSub` | benchmarks/crypto.js:1080-1081 | adding B^(k+1) while x is smaller, then subtracting, gives the true difference |
| `BarrettReducer.SubtractDown` | benchmarks/crypto.js:1082-1082 | the last correction loop ends with the remainder |
| `BarrettReducer.Barrett.Reduce` | benchmarks/crypto.js:1075-1083 | x mod m for all 0 <= x < B^2k with k+4 <= B, although low partial products are dropped |
| `Reducers.ConvertClassic` | benchmarks/crypto.js:514-517 | x mod m for either sign of x, the number itself when it is already reduced |
| `Reducers.Mod` | benchmarks/crypto.js:505-510 | x modulo m, between 0 and m, for either sign of x |
| `Reducers.ConvertBarrett` | benchmarks/crypto.js:1066-1070 | x mod m for either sign of x, by whichever of the three ways applies |
| `Reducers.ConvertMontgomery` | benchmarks/crypto.js:566-572 | x*B^t mod m for either sign of x, and for 0 |
| `Reducers.Convert` | benchmarks/crypto.js:514-572 | for each of the three reducers, the residue of x in its representation |
| `Reducers.MulTo` | benchmarks/crypto.js:520-606 | for each of the three reducers, the representation of the product |
| `Reducers.SqrTo` | benchmarks/crypto.js:521-603 | for each of the three reducers, the representation of the square |
| `Reducers.Revert` | benchmarks/crypto.js:518-580 | for each of the three reducers, v mod m from the representation of v |
| `ModularExponentiation.BuildTable` | benchmarks/crypto.js:1115-1126 | the odd powers base^1, base^3, ..., base^(2^k-1) in reduced form |
| `ModularExponentiation.ReadWindow` | benchmarks/crypto.js:1131-1135 | the next k bits of the exponent, also across two digits and padded below bit 0 |
| `ModularExponentiation.Strip` | benchmarks/crypto.js:1137-1138 | trailing zeros dropped: the window is odd and lies within the bits that are left |
| `ModularExponentiation.SquareTimes` | benchmarks/crypto.js:1145-1146 | n squarings, for odd and even n, in the accumulator the code multiplies next |
| `ModularExponentiation.WindowStep` | benchmarks/crypto.js:1130-1153 | after a window the accumulator holds base to the exponent bits read so far |
| `ModularExponentiation.ModPow` | benchmarks/crypto.js:1098-1155 | x^e mod m for either sign of x and every e >= 1, every window width and reducer the code picks and every estimate of quotient digits in range; 1 for e = 0 |
| `ModularExponentiation.ModPowInDoubles` | benchmarks/crypto.js:1098-1155 | the same with the estimate of the code, in double precision |
| `SmallExponentiation.Exp` | benchmarks/crypto.js:621-631 | x^e mod m in the arithmetic of each of the three reducers for 1 <= e < 2^32, bit by bit; 1 otherwise, for every estimate in range |
| `SmallExponentiation.PowInt` | benchmarks/crypto.js:1013-1024 | with the reducer that does nothing, x^e itself, for either sign of x |
| `SmallExponentiation.ModPowInt` | benchmarks/crypto.js:634-638 | x^e mod m, the same value as the sliding window, for every estimate in range |
| `BoyerTerms.EqualIsEquality` | benchmarks/earley-boyer.js:3686-3719 | the structural comparison is equality of terms |
| `BoyerTerms.UnifySound` | benchmarks/earley-boyer.js:3635-3679 | success means the bindings turn the pattern into the term; earlier bindings stand, whatever the outcome |
| `BoyerTerms.UnifyComplete` | benchmarks/earley-boyer.js:3635-3679 | unification succeeds whenever some substitution that agrees with the bindings matches |
| `BoyerTerms.UnifyIffInstance` | benchmarks/earley-boyer.js:3635-3679 | from no bindings it succeeds exactly on instances of the pattern |
| `BoyerRewrite.SubstitutionLemma` | benchmarks/earley-boyer.js:3555-3563 | a substituted term has the value of the term in the substituted assignment |
| `BoyerRewrite.RewriteSound` | benchmarks/earley-boyer.js:3604-3633 | in every interpretation that validates the lemmas a rewritten term keeps its value |
| `BoyerRewrite.RewriteNormalizes` | benchmarks/earley-boyer.js:3604-3633 | what rewriting returns has no subterm that is an instance of a left-hand side |
| `BoyerRewrite.NormalIffUnchanged` | benchmarks/earley-boyer.js:3604-3633 | the terms returned unchanged without a lemma step are exactly the normal forms |
| `BoyerRewrite.RewriteIdempotent` | benchmarks/earley-boyer.js:3604-3633 | rewriting the result again changes nothing |
| `BoyerRewrite.RewriteFuel` | benchmarks/earley-boyer.js:3604-3633 | an answer does not depend on the fuel |
| `BoyerRewrite.SetupFiles` | benchmarks/earley-boyer.js:3745-3763 | a lemma is filed under an operator exactly when it is in the list and its left-hand side has that operator; in which order, SetupOrder says |
| `BoyerRewrite.SetupEquations` | benchmarks/earley-boyer.js:3745-3763 | whatever is filed is an equation |
| `BoyerDerivation.SetupOrder` | benchmarks/earley-boyer.js:3745-3763 | the lemmas of an operator are, in the store, those of the list with that operator, the last one first |
| `BoyerDerivation.SetupSucceeds` | benchmarks/earley-boyer.js:3745-3763 | setting up fails exactly on a list with an entry that is not an equation for an operator |
| `BoyerDerivation.AppliesIffUnifies` | benchmarks/earley-boyer.js:3635-3679 | unification succeeds exactly when the left-hand side has the term as an instance |
| `BoyerDerivation.TurnsUnique` | benchmarks/earley-boyer.js:3555-3563 | there is only one way to apply a lemma to a term |
| `BoyerDerivation.FirstMatchIndex` | benchmarks/earley-boyer.js:3612-3629 | the lemma applied is the first one in the store that applies |
| `BoyerDerivation.RewriteIffDerives` | benchmarks/earley-boyer.js:3604-3633 | rewriting answers u, with enough fuel, if and only if u is derived from the term: arguments first, then the first lemma that applies, until none does |
| `BoyerDerivation.DerivesUnique` | benchmarks/earley-boyer.js:3604-3633 | a term derives at most one result |
| `BoyerTautology.TautologySound` | benchmarks/earley-boyer.js:3564-3601 | a true answer holds under every assignment that makes the assumed terms true and false |
| `BoyerTautology.TautologyDecides` | benchmarks/earley-boyer.js:3564-3601 | on if-normal form the test answers true exactly for the propositionally valid terms |
| `BoyerTautology.TautologyIncomplete` | benchmarks/earley-boyer.js:3564-3601 | a valid term, with a conditional inside a test, that a direct call of the test refuses |
| `BoyerIfNormal.NestedTestReduces` | benchmarks/earley-boyer.js:3466 | a conditional with a conditional as its test is an instance of the lemma on nested conditionals |
| `BoyerIfNormal.IrreducibleIsIfNormal` | benchmarks/earley-boyer.js:3466-3633 | so a normal form of a lemma list with that lemma has no conditional in a test |
| `BoyerIfNormal.RewriteThreeArmed` | benchmarks/earley-boyer.js:3604-3633 | rewriting keeps every conditional at three arguments |
| `BoyerIfNormal.ProverDecides` | benchmarks/earley-boyer.js:3767-3799 | on every term it finishes rewriting the prover answers true exactly when every valuation makes the rewritten term true |
| `BoyerIfNormal.ProverAccepts` | benchmarks/earley-boyer.js:3767-3799 | the prover accepts a term, with enough fuel, if and only if the lemmas derive from it a term that every valuation makes true |
| `BoyerTautology.ProverSound` | benchmarks/earley-boyer.js:3767-3799 | if the rewritten term passes the test, the term holds in every model of the lemmas |
| `BoyerProver.IsTermEqualLoop` | benchmarks/earley-boyer.js:3686-3719 | the loop over arguments decides equality |
| `BoyerProver.IsTermMemberLoop` | benchmarks/earley-boyer.js:3720-3732 | the loop decides membership |
| `BoyerProver.TautologypLoop` | benchmarks/earley-boyer.js:3564-3601 | the loop that reassigns its arguments computes the test |
| `BoyerProver.Prover.OneWayUnify1` | benchmarks/earley-boyer.js:3635-3679 | the loop with the global substitution computes unification, bindings included |
| `BoyerProver.Prover.SetupLemmas` | benchmarks/earley-boyer.js:3745-3763 | the loop files the list, the last lemma of an operator first, or stops at an entry that is not an equation |
| `BoyerProver.Prover.RewriteTerm` | benchmarks/earley-boyer.js:3604-3629 | the loop over the lemmas computes rewriting, which is derivation by the lemmas (RewriteIffDerives) |
| `BoyerProver.Prover.Test` | benchmarks/earley-boyer.js:3767-3799 | the answer is that of the test on the rewritten term, and a true answer means that the term holds in every model of the lemmas that were set up |
| `EarleyTables.BuildTables` | benchmarks/earley-boyer.js:3903-3963 | starters, enders, predictors and steps describe the grammar, both ways |
| `EarleyTables.AddRule` | benchmarks/earley-boyer.js:3924-3962 | one rule more is described, those before it still are |
| `EarleyGrammar.StarterItem` | benchmarks/earley-boyer.js:4156-4168 | a predicted configuration is a derivation item |
| `EarleyGrammar.AdvanceItem` | benchmarks/earley-boyer.js:4169-4216 | an item waiting for a nonterminal and a complete item for it give the next item |
| `EarleySets.SlotIffListed` | benchmarks/earley-boyer.js:4056-4067 | a slot of the vector is filled exactly when the processed or the new list reaches it |
| `EarleySets.AppendedIsSet` | benchmarks/earley-boyer.js:4064-4067 | adjoining appends to the new list inside the vector |
| `EarleySets.MergedIsSet` | benchmarks/earley-boyer.js:4061-4063 | merging appends the new list to the processed one and empties it |
| `EarleyState.State.Get` | benchmarks/earley-boyer.js:4056-4060 | the set of a configuration, made empty on first use, all others unchanged |
| `EarleyState.State.Adjoin` | benchmarks/earley-boyer.js:4064-4067 | the origin is new, and the configuration is on the worklist exactly if it has new origins |
| `EarleyState.State.Pop` | benchmarks/earley-boyer.js:4145-4149 | the first configuration leaves the worklist with its new origins processed |
| `EarleyState.State.Union` | benchmarks/earley-boyer.js:4099-4114 | exactly the processed origins of the other set that were missing are added |
| `EarleyParser.AdjoinAll` | benchmarks/earley-boyer.js:4068-4090 | the origin is recorded for every configuration of the list, nothing is lost |
| `EarleyParser.ProcessWaiting` | benchmarks/earley-boyer.js:4151-4180 | the rules are predicted, and the step past an empty derivation is taken if there is one |
| `EarleyParser.ProcessComplete` | benchmarks/earley-boyer.js:4182-4216 | everything waiting where the configuration begins has stepped past it |
| `EarleyClosure.ProcessKeeps` | benchmarks/earley-boyer.js:4141-4216 | a round keeps every recorded origin a derivation item and all consequences of processed ones recorded |
| `EarleyParser.Forw` | benchmarks/earley-boyer.js:4115-4224 | the worklist loop ends with nothing left to process and the chart closed |
| `EarleyRecognizer.Parse` | benchmarks/earley-boyer.js:4474-4486 | the chart is finished: sound, closed and seeded with the goal and the tokens |
| `EarleyClosure.ChartDecides` | benchmarks/earley-boyer.js:4115-4253 | in a finished chart an expected nonterminal derives i..j exactly when a complete configuration has origin i in state j |
| `EarleyRecognizer.IsParsed` | benchmarks/earley-boyer.js:4225-4253 | a yes in range is a derivation, and for an expected nonterminal a no means there is none; out of range the answer is that of any set |
| `EarleyRecognizer.OriginBeyondState` | benchmarks/earley-boyer.js:4225-4253 | an input for which a start beyond the end is answered with yes |
| `EarleyRecognizer.Recognize` | benchmarks/earley-boyer.js:3903-4486 | tables, chart and query together accept exactly the inputs the grammar derives |
| `Richards.StepInv` | benchmarks/richards.js:188-248 | every turn of the loop keeps: runnable exactly if the queue is not empty, a filled device slot not suspended, everything ahead of the current task blocked |
| `Richards.EnqueueInv` | benchmarks/richards.js:241-248 | queueing keeps the invariant, including the preemption by a higher task |
| `Richards.HandlerRunInv` | benchmarks/richards.js:465-491 | a handler's run keeps the invariant in all its cases |
| `Richards.DeviceInv` | benchmarks/richards.js:401-411 | a device's run keeps the invariant; no packet in its slot is overwritten |
| `Richards.WorkerInv` | benchmarks/richards.js:430-448 | the worker's run keeps the invariant |
| `RichardsRun.InitialInv` | benchmarks/richards.js:47-91 | the initial tasks, with the seed 1 and the worker's first handler and letter, satisfy the invariant for every idle count and any packets of the right kinds |
| `RichardsRun.StepDecreases` | benchmarks/richards.js:188-248 | every turn lowers the lexicographic measure of idle count, device packets, work packets, awake tasks and list position |
| `RichardsRun.StepConserves` | benchmarks/richards.js:188-491 | no turn loses, duplicates or overwrites a packet; Schedule carries this over to the linked cells |
| `RichardsRun.LettersCycle` | benchmarks/richards.js:430-448 | the data letters are the ones after the last letter used, going round after 26, and the last one is remembered |
| `RichardsRun.RunConserves` | benchmarks/richards.js:188-491 | along every run each packet stays in as many places as it started in |
| `RichardsRun.EachInOnePlace` | benchmarks/richards.js:188-491 | a packet that starts in one place is in exactly one place in every state |
| `RichardsRun.DispatchesHighest` | benchmarks/richards.js:188-233 | a task that runs is the highest unblocked one, in every state of every run; Schedule goes through such a run |
| `RichardsSeed.SeedShifts` | benchmarks/richards.js:374-384 | every bit of the next seed is the one above it, exchanged by an odd seed exactly where 0xD008 has a 1 |
| `RichardsTurns.IdleTurn` | benchmarks/richards.js:374-384 | with a count above 1, the device named by the low bit of the seed is not held any more and goes on, and only the seed and the count change besides; at the end the idle task is held |
| `RichardsTurns.WorkerTurn` | benchmarks/richards.js:430-448 | a packet the worker is woken with goes behind the queue of the handler that did not get the last one, with a1 = 0 and the next four letters; without one the worker is suspended |
| `RichardsTurns.HandlerTurn` | benchmarks/richards.js:465-491 | the handler waits, or the next letter goes with its first device packet to its own device, or a finished work packet goes back to the worker; all fields are given |
| `RichardsTurns.DeviceTurn` | benchmarks/richards.js:401-411 | a device keeps the packet it is woken with and is held, or passes on what is in its slot, or is suspended; all fields are given |
| `RichardsTurns.StepIsTurn` | benchmarks/richards.js:188-248 | every turn of the loop is one of these, or passes over a blocked task |
| `RichardsTrace.ReleasedDeviceRuns` | benchmarks/richards.js:204-213 | along every run, a device released over a full slot runs next, and its packet is then the last in the queue of the handler it is addressed to |
| `RichardsTrace.IdleProgress` | benchmarks/richards.js:374-384 | the n-th run of the idle task uses the n-th value of the seed, and the count goes down by one each time |
| `RichardsTrace.WorkerAlternates` | benchmarks/richards.js:430-448 | along every run the work packets go to handler B, A, B, A and so on, the n-th with the letters from the 4n-th on |
| `RichardsTrace.CountersCount` | benchmarks/richards.js:220-248 | holdCount counts the turns in which a task is put on hold, queueCount those in which a packet is queued |
| `RichardsTrace.LettersArrive` | benchmarks/richards.js:430-491 | along every run, the letters arrive at a device in the order in which its handler was given them, none lost and none twice |
| `RichardsTrace.DeviceGetsAlphabet` | benchmarks/richards.js:47-491 | from the start of the program, what has arrived at a device and what its handler has left are together the letters of every other work packet, in order |
| `PacketLinks.Packet.AddTo` | benchmarks/richards.js:527-535 | walking the links to the end, the packet becomes the last cell of the list; cells before the old last one are unchanged |
| `PacketLists.Lists.PutLast` | benchmarks/richards.js:340-491 | the packet in hand becomes the last cell of one list, linked behind the others; every other place has the cells and the contents it had, although every cell may be written |
| `PacketLists.Lists.TakeFirst` | benchmarks/richards.js:324-338 | the cell at the head is in hand and in no place any more, with its stale link; the remaining cells are linked from the head, and the other places have the cells they had |
| `PacketLists.Lists.PutInSlot` | benchmarks/richards.js:401-411 | an empty slot takes the cell in hand, whatever its link still points to; the other places have the cells they had |
| `PacketLists.Lists.WriteHand` | benchmarks/richards.js:241-248 | the packet in hand can be rewritten, its link included, without changing any list |
| `PacketLists.Lists.TakeWithLetter` | benchmarks/richards.js:465-491 | one letter goes from the first work packet to the first device packet, which leaves its list; nothing else changes |
| `PacketLists.Lists.OnePlace` | benchmarks/richards.js:188-491 | every cell is in one place and in no other |
| `TaskBlocks.TaskControlBlock.IsHeldOrSuspended` | benchmarks/richards.js:305-307 | one comparison of the state word decides: held, or suspended and not runnable |
| `RichardsScheduler.AddTasks` | benchmarks/richards.js:47-175 | the blocks are linked in descending priority, suspended, and runnable if they have a queue; the idle task is running |
| `RichardsScheduler.Scheduler.CheckPriorityAdd` | benchmarks/richards.js:345-355 | the packet is linked behind the queue; exactly an empty queue makes the task runnable, and it goes on if its priority is higher |
| `RichardsScheduler.Scheduler.Queue` | benchmarks/richards.js:241-248 | the packet in hand, renamed to its sender, ends up linked behind the queue of the task it was addressed to |
| `RichardsScheduler.Scheduler.RunDevice` | benchmarks/richards.js:401-411 | the slot swallows the packet, or gives it up to be linked into a queue; no packet is overwritten |
| `RichardsScheduler.Scheduler.RunWorker` | benchmarks/richards.js:430-448 | on the linked cells, the worker's turn: the packet ends up behind the queue of the other handler with the next four letters (WorkerTurn) |
| `RichardsScheduler.Scheduler.RunHandler` | benchmarks/richards.js:465-491 | the packet given joins one of the two lists, and what their heads say decides between waiting, sending a letter and returning the work packet |
| `RichardsScheduler.Scheduler.RunCurrent` | benchmarks/richards.js:324-338 | a task that is woken has its first packet unlinked from its queue; then it runs as the state machine says |
| `RichardsScheduler.Scheduler.Schedule` | benchmarks/richards.js:188-198 | from the head of the list, the loop ends with the idle count used up and every task blocked; the states the objects show are a run of the state machine, so that every turn of it is as described, each dispatching the highest unblocked task, and every cell is in exactly one place, every packet as often as before |
| `RichardsScheduler.RunRichards` | benchmarks/richards.js:47-91 | for any idle count and any packets of the right kinds the program ends after a run of the state machine from the packets it was given, with exactly these cells in the lists |
| `SplayStep.SearchLeft` | benchmarks/splay.js:306-323 | one round is a rotation and a link for two steps in one direction, a link for one; the nodes stay in order over the three trees, those moved above the key |
| `SplayStep.SearchRight` | benchmarks/splay.js:324-341 | the mirror image |
| `SplayDepth.LeftCounted` | benchmarks/splay.js:306-323 | after c nodes of the search path each of the two outer trees has got at most about c/2 steps |
| `SplayDepth.LeftLevel` | benchmarks/splay.js:306-323 | every node moved is settled: on the path at half its depth or less, up to a constant, elsewhere at most two deeper |
| `SplayDepth.Settles` | benchmarks/splay.js:346-352 | so is every node once the trees are put together |
| `SplayStep.Assemble` | benchmarks/splay.js:346-352 | the assembled tree has all nodes in order, split at the key |
| `SplayStep.SplayRoot` | benchmarks/splay.js:293-352 | splaying ends, keeps the in-order sequence of nodes, brings the last node on the search path to the root, takes a node of depth d on the path to at most d/2 + 3 and no other more than two deeper |
| `SplayTrees.SplayTree.Splay` | benchmarks/splay.js:293-352 | the in-order sequence of nodes is kept and split at the key; the root is the last node on the search path; a node of depth d on that path ends at depth at most d/2 + 3, and no other node sinks by more than two |
| `SplayTrees.SplayTree.Insert` | benchmarks/splay.js:160-184 | the map with the pair added, unless the key was there; the key is at the root |
| `SplayTrees.SplayTree.Remove` | benchmarks/splay.js:193-215 | the node with the key is taken out of the map; an error and no change exactly when there is none |
| `SplayTrees.SplayTree.Find` | benchmarks/splay.js:224-230 | the node with the key exactly when the map has it, the nodes unchanged |
| `SplayTrees.SplayTree.FindMax` | benchmarks/splay.js:236-245 | the node with the largest key of the tree or of the given subtree |
| `SplayTrees.SplayTree.FindGreatestLessThan` | benchmarks/splay.js:252-268 | the node with the greatest key below the given one, null exactly when no key is below |
| `SplayTrees.Traverse` | benchmarks/splay.js:386-394 | the keys from left to right after those visited before |
| `SplayTrees.SplayTree.ExportKeys` | benchmarks/splay.js:274-280 | exactly the keys of the map, strictly increasing |
| `SplayTrees.SplayTree.Replace` | benchmarks/splay.js:112-120 | a round of the benchmark puts one key in and takes its predecessor out; the size stays |
| `QuickSort.InsertionSort` | src/array.js:747-761 | the range is rearranged for any comparison; for one that is consistent on its elements it is sorted, and elements that compare equal keep their order |
| `QuickSort.SortThree` | src/array.js:770-797 | the three values in order for a consistent comparison, the same three for any |
| `QuickSort.PlacePivot` | src/array.js:769-805 | the median placed, the ends on their sides of it, the range rearranged |
| `QuickSort.Partition` | src/array.js:801-828 | not greater, equal and not less than the pivot, in bounds for any comparison |
| `QuickSort.Sort` | src/array.js:763-831 | quicksort ends and rearranges for any comparison, and sorts for one that is consistent on the elements of the range, stably up to ten of them |
| `ArraySort.SafeRemoveArrayHoles` | src/array.js:893-948 | values, then undefined elements, then holes, with all counts preserved |
| `ArraySort.Sort` | src/array.js:950-985 | the same rearrangement, sorted by the comparison among values when it is consistent on them |
| `ArraySplice.SimpleSlice` | src/array.js:327-338 | the deleted elements with their holes |
| `ArraySplice.SmartSlice` | src/array.js:221-259 | the deleted elements with their holes, for any list of keys and intervals covering them |
| `ArraySplice.SimpleMove` | src/array.js:340-377 | the kept elements in their places, both directions, holes included |
| `ArraySplice.SmartMove` | src/array.js:264-321 | the kept elements in their places, for any list of keys and intervals covering them |
| `ArraySplice.Splice` | src/array.js:648-721 | on whichever path, the same array and the same deleted elements; those of section 15.4.4.12 if and only if the call does not delete the rest for want of a count and, for the deleted elements, the last one is not a hole |
| `ArraySplice.CountFollows` | src/array.js:657-678 | the start is that of section 15.4.4.12, the delete count exactly unless a single argument leaves something to delete |
| `ArraySplice.SpliceFollows` | src/array.js:648-721 | exactly when the array, and when the deleted elements, are those of the section |
| `ArraySplice.OneArgumentDeviates` | src/array.js:665-673 | splice(0) empties an array of one element, where the section leaves it alone |
| `ArraySplice.TrailingHoleDeviates` | src/array.js:680-681 | two deleted elements of which the second is a hole: length 2 where the section has 1 |
| `ArraySplice.SplicedUnique` | src/array.js:221-377 | so the two paths leave the same array |
| `ArraySplice.SlicedUnique` | src/array.js:221-338 | and the same deleted elements |
| `ArrayReverse.GetSortedArrayKeys` | src/array.js:41-67 | the keys of the elements in order, possibly repeated |
| `ArrayReverse.NextPair` | src/array.js:479-497 | the outermost pair left; every repetition of its keys is skipped |
| `ArrayReverse.DenseReverse` | src/array.js:531-549 | every slot exchanged with its mirror image |
| `ArrayReverse.SparseReverse` | src/array.js:475-515 | the same array, although pairs without elements are never visited and the keys are never refreshed |
| `ArrayReverse.ReversedUnique` | src/array.js:475-549 | so the two paths leave the same array |
| `ArrayReverse.ReversedTwice` | src/array.js:475-549 | reversing twice gives back the array |
| `ArrayReverse.Reverse` | src/array.js:518-551 | the reversal on either path |
| `DeltaBluePlan.AddConstraintsConsumingTo` | benchmarks/deltablue.js:738-746 | exactly the constraints that compute from the variable |
| `DeltaBluePlan.PendingKnown` | benchmarks/deltablue.js:434-437 | the inputs of whatever gets on the list are known |
| `DeltaBluePlan.Planner.MakePlan` | benchmarks/deltablue.js:648-661 | ends with distinct outputs, inputs computed earlier, nothing downstream missing, and exactly the outputs marked |
| `DeltaBluePlan.Planner.ExtractPlanFromConstraints` | benchmarks/deltablue.js:667-676 | the plan for exactly the satisfied edit constraints |
| `DeltaBluePlan.PlanLeast` | benchmarks/deltablue.js:648-661 | nothing is in a plan that is not downstream of its sources |
| `DeltaBluePlan.Planner.Execute` | benchmarks/deltablue.js:773-778 | every equality in the plan holds afterwards, and no other variable has changed |

## Left out

- The transactional memory: the repository only declares it (src/stm.h), so there is no protocol to model.
- V8's public and internal headers, accessors, API glue, samples and the remaining benchmarks: handles, I/O, rendering and data.
- `am2`, which nothing refers to.
- Bignum.BigInteger.FromInt: does not model x < -1, where the code names an undefined variable.
- Bignum.BigInteger.DlShiftTo: does not model negative counts beyond the length, nor in place, where digits overwrite each other; nothing passes either.
- Division.DivRemTo: does not model un-normalised operands other than a zero dividend as long as the divisor (`DivideZero`); nothing else is passed.
- QuotientEstimate.DoubleEstimateIsEstimate: does not model the limits of the exponent of a double, which none of the five operations comes near.
- ModularExponentiation.ModPow: does not model negative exponents, moduli below 1, or even moduli of more than B - 4 digits; the table of odd powers is stored without gaps.
- SmallExponentiation.Exp: does not model a reducer of the caller's own; the three that reduce are cases of one datatype, and the one that does not is `PowInt`.
- Random numbers, padding, key generation, primality, greatest common divisors, radix conversion and bitwise operations on big integers.
- The rewrite counter and the concrete lemma list of the prover; a conditional without an argument that the test needs, or a malformed lemma, on which the code fails, is the answer None.
- The names of nonterminals and the lexer of the parser, the second pass over the chart and the trees extracted from it.
- Two vectors of the parser never share storage, so sets are objects holding sequences; the vector of states is a sequence.
- Queueing to and releasing a task that does not exist, and the benchmark's expected counts of 2322 and 928; a packet's data fields are a sequence, and the task objects' variables are fields of the scheduler.
- The amortised cost of splaying; keys are real numbers, so NaN is left out.
- ArraySplice.Splice: does not model receivers that are not arrays; slice, shift and unshift use the same moves and are left out.
- QuickSort.Sort: does not model a comparison that answers NaN.
- ArraySort.Sort: runs SafeRemoveArrayHoles, where the code first tries the native %RemoveArrayHoles, which is left out; does not model inherited elements, accessors, or comparison functions that change the array; the default comparison is left out.
- The two cells that encode an interval in a list of keys are one entry of a datatype.
- DeltaBlue's incremental planner, strengths and scale constraints; constraints and variables are numbered rather than linked.
