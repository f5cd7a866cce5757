# Verified model of the engine's compiler tier, tables and built-ins

A Dafny 4.11 model of the parts of the JavaScript engine whose correctness is least visible in any one function, with proofs of what they promise. `dafny verify dfyconfig.toml` checks everything.

| files | what they model |
|---|---|
| `Options`, `Values`, `Nodes`, `Graphs`, `Pipeline`, `Arithmetic` | runtime values, the Sea-of-Nodes graph as an object, its plain recursive meaning and the memoised evaluator, and what every operation returns in terms of the real numbers its operands stand for |
| `Rewrites`, `DeadCode`, `Optimizer`, `PassExactness`, `FixedPoints` | constant folding, algebraic reductions and dead-code elimination, in place, to a fixed point, exactly when they preserve meaning, and which shapes of nodes are left |
| `Bytecodes`, `GraphBuilder`, `BuiltGraphs`, `Compiler` | the straight-line register machine of the graph tier, and the decoder that builds a graph from the same bytes |
| `Comparisons`, `Interpreter`, `InterpreterAgreement`, `TierDifferences`, `ShortCode`, `Opcodes` | the interpreter on the same bytes: its operators, register file and dispatch loop with fused instructions, when it returns what compiled code returns, code on which it does not, and what every opcode does in both tiers, by its number |
| `Bits`, `FiniteSets`, `HashTables`, `HashMap` | linear probing with backward-shift deletion |
| `PromiseWorld`, `PromiseSafety`, `PromiseOrder`, `PromiseAll`, `PromiseMachine`, `PromiseRuns`, `PromiseClaims`, `PromiseChildren`, `PromiseElements`, `PromiseCheckpoints`, `PromiseScript`, `PromiseRealm` | promises and the microtask queue as a machine, and the objects that implement its steps |
| `Properties`, `ObjectGraphs`, `StructuredClone` | the deep copy of a cyclic heap with a table of visited addresses |
| `JsonText`, `JsonGrammar`, `JsonParsing`, `JsonReading`, `JsonRoundTrip` | JSON printing and parsing, and that parsing undoes printing |
| `JsonConformance`, `JsonSyntax`, `JsonAcceptance`, `JsonSoundness`, `JsonOutline`, `JsonLayout` | a grammar of JSON that reads nothing from left to right, the parser as its recogniser, and where printed text has white space |
| `Bytes`, `Base64`, `Base64Conformance`, `Utf8`, `Query`, `QueryConformance` | Base64, percent coding and query strings |
| `CivilDate`, `CivilInverse` | the Gregorian day number, and the date of a day number |
| `DisposableStacks`, `DisposableFamily`, `DisposableRuns` | resource stacks, alone and as a family with moves and nested disposals |

Where the source changes an object in place, the model has a class with methods. The methods are tied to functions of the old state, and the laws are proved about those functions.

Findings, each stated in the model as code and proved:

- The algebraic reductions do not preserve meaning for every value. `Rewrites.RuleIsExactWhen` says exactly for which operands each rule does, `PassExactness.PassKeepsAllMeaningsIff` exactly when a whole pass does, and `Optimizer.OptimizeChangesUndefinedTimesZero` is a graph whose result changes. The optimizer's correctness carries one of two premises: that the operations the result depends on have operands on which the rules that could fire are exact (`Safe`; it holds for all arguments where no operand can become a constant, and where the arithmetic sees small integers), or that the rules that do fire are exact.
- Code that reads the accumulator before loading it is accepted; the builder then drops the instruction (`BuiltGraphs.UnloadedReadDiffers`). What every accepted code computes, and for which code that is what a machine with an undefined accumulator computes, are separate theorems.
- The graph tier and the interpreter do not return the same for all accepted code. `InterpreterAgreement.CompiledCodeIsInterpretedCode` states when they do, for the calling convention of functions: the graph is executed on the receiver followed by the arguments, because its parameter 0 is `this` (src/objects/function.rs:243-257), and the interpreter gets the two apart. There is a lemma for each way in which they do not:
  - The interpreter's `Negate` has no feedback operand, so the two decoders fall out of step (`TierDifferences.NegateDiffers`); they agree on instruction boundaries exactly for code without `Negate` (`InterpreterAgreement.SameBoundariesIff`).
  - `===` is evaluated like `==`, and strings and big integers are compared as doubles. `Comparisons.TiersAgreeIff` is the exact condition on the operands, `Comparisons.OtherKindsDiffer` shows the table of kinds exact, and `TierDifferences.OperationCodeAgreesIff` lifts it to code.
  - The interpreter runs `Ldar x; Add y; Star x` on strings or small integers in place and leaves the accumulator stale (`TierDifferences.InPlaceAdditionDiffers`, `InterpreterAgreement.InPlaceIsExactIff`). All its other fusions are unobservable (`Interpreter.InterpreterFrame.Run`).
  - Its register file gives some registers one slot: the fourth argument and the thirteenth local, for instance (`TierDifferences.SharedSlotDiffers`, `InterpreterAgreement.SharedSlotIff`).
  - Handed one and the same list, without a receiver in front, the two tiers read different parameters (`TierDifferences.SharedArgumentsDiffer`). Only the empty list means the same to both (`InterpreterAgreement.CompiledCodeIsInterpretedWithoutArguments`).
- The count that a microtask checkpoint returns leaves out the tasks that handlers run by awaiting (`PromiseScript.CheckpointCountsOneOfTwo`); it is the number of tasks taken if and only if no handler ran any (`PromiseRealm.Realm.RunMicrotasks`).
- A promise that script resolves with a pending promise can still be settled by a second call of its resolving functions (`PromiseChildren.ResolvedTwiceDiffers`); the standard locks it to the first. It ends like the promise it was resolved with if script leaves it alone from then on (`PromiseChildren.ResolvedOnce`); in general, when the adoption runs, if and only if it is still pending or already ended alike (`PromiseChildren.AdoptionDecidesIff`).
- The JSON parser, documented as compliant with RFC 8259 (src/builtins/json.rs:3), accepts every text of the standard (`JsonSoundness.StandardIsAccepted`) and some that are none: numbers with leading zeros (`JsonSoundness.LeadingZeroIsAccepted`, `JsonSoundness.LeadingZeroIsNotStandard`), control characters in strings other than the two line ends, and a plus sign as the first hexadecimal digit of an escape. `JsonSoundness.AcceptsIff` is exactly what it accepts. An escaped surrogate pair reads as two U+FFFD.
- The date of a day number is wrong for some dates of January, February and 1 March (`CivilInverse.LeapDaysAreMistaken`): the estimate of the year divides by 1020 and 1461. `CivilInverse.DecodingUndoesEncodingIff` says exactly for which dates it is right, `CivilInverse.NoDateIff` for which the unsigned day of the year goes below zero: there a debug build stops. From 2 March to 31 December it is right in every year (`CivilInverse.MostDatesAreFound`).
- `encodeURI` output is not safe to decode with plus signs read as spaces: `Query.PlusBecomesSpace` is a string, and `Query.DecodeUndoesEncodeIff` says exactly when decoding undoes encoding.
- `atob` accepts text that `btoa` never produces: padding before the last quad (`Base64.AtobAcceptsInnerPadding`), and unused bits that are not zero (`Base64.AtobAcceptsUnusedBits`). `Base64.AtobAcceptsIff` is what it accepts, and `Base64.BtoaUndoesAtobIff` the texts on which the two are inverse.
- A hash map asked for more than 2^31 slots gets fewer, or a table that is no power of two and cannot be probed (`HashMap.FirstCapacitySufficesIff`, `HashMap.FirstCapacityIsPow2Iff`).

## Model

| member | source | states |
|---|---|---|
| Values.AddZeroOnTheRight | src/objects/value.rs:169-200 | adding a value that converts to zero gives back the other operand exactly for the operands the condition names: strings, booleans, null and inexact conversions are out |
| Values.AddZeroOnTheLeft | src/objects/value.rs:169-200 | the same with the zero on the left |
| Values.SubtractZero | src/objects/value.rs:204-218 | subtracting a zero gives back the operand exactly under the stated condition on the operand and the sign of the zero |
| Values.SubtractItself | src/objects/value.rs:204-218 | `x - x` is the small integer 0 exactly if `x` is a small integer |
| Values.MultiplyByOneOnTheRight | src/objects/value.rs:222-236 | `x * 1` is `x` exactly under the stated condition |
| Values.MultiplyByOneOnTheLeft | src/objects/value.rs:222-236 | the same with the one on the left |
| Values.MultiplyByZero | src/objects/value.rs:222-236 | a product with a zero is the small integer 0 exactly if both operands are small integers |
| Graphs.Graph.AddNode | src/compiler/graph.rs:33-46 | appends one node with the next id and lists it among the returns if it is one; the graph stays valid if the inputs are older nodes |
| Graphs.Graph.ReplaceNode | src/compiler/graph.rs:49-54 | overwrites operation and inputs of one node, keeps its control edge and every other node; an unknown id changes nothing |
| Graphs.Graph.Get | src/compiler/graph.rs:56-58 | finds exactly the ids below the length |
| Pipeline.Execute | src/compiler/pipeline.rs:39-51 | evaluates the first input of the last return node, `undefined` without one, and never fails on a valid graph |
| Pipeline.EvaluateNode | src/compiler/pipeline.rs:53-171 | with any memo table whose entries are right, returns the plain recursive meaning of the node, and keeps the table right; fails exactly on unknown ids |
| Pipeline.EvaluateOperation | src/compiler/pipeline.rs:64-167 | the value of one node from the values of its inputs, with the memo kept right |
| Pipeline.ResultIsReturnMeaning | src/compiler/pipeline.rs:39-51 | the result of a graph is the meaning of its last return node |
| Arithmetic.FiniteSum | src/objects/value.rs:169-200 | executing `a0 + a1` on finite doubles gives their real sum where that is a double, else the rounded sum; a sum of zero is negative only from two negative zeros |
| Arithmetic.InfiniteSum | src/objects/value.rs:169-200 | sums with a NaN or an infinity |
| Arithmetic.SumCommutes | src/objects/value.rs:169-200 | without strings the operands of `+` can be swapped |
| Arithmetic.FiniteDifference | src/objects/value.rs:204-218 | the same for `a0 - a1` |
| Arithmetic.InfiniteDifference | src/objects/value.rs:204-218 | differences with a NaN or an infinity |
| Arithmetic.FiniteProduct | src/objects/value.rs:222-236 | the real product of finite doubles where that is a double, else the rounded product; the sign of a zero is the product of the signs |
| Arithmetic.InfiniteProduct | src/objects/value.rs:222-236 | products with an infinity: NaN with a zero, and else the infinity with the product of the signs |
| Arithmetic.ProductOfNaN | src/objects/value.rs:222-236 | a product with a NaN is NaN |
| Arithmetic.ProductCommutes | src/objects/value.rs:222-236 | the operands of `*` can be swapped |
| Arithmetic.SmallIntegers | src/objects/value.rs:169-236 | sums, differences and products of small integers are small integers within 32 bits, and the doubles beyond |
| Arithmetic.BigIntegers | src/objects/value.rs:169-236 | those of big integers are exact |
| Arithmetic.Concatenates | src/objects/value.rs:183-196 | with a string on either side `+` concatenates the texts in order |
| Arithmetic.Converts | src/objects/value.rs:169-236 | operands of other kinds count as the numbers that are listed for them |
| Arithmetic.Compares | src/compiler/pipeline.rs:139-158 | `<`, `>`, `<=` and `>=` are the order of the extended reals, with all of them false on a NaN |
| Arithmetic.StrictEqualityIff | src/objects/value.rs:413-441 | `===`: the same number, NaN apart, or the same value of another kind |
| Arithmetic.LooseEqualityIff | src/objects/value.rs:38-80 | `==`, symmetric: that, and null with undefined; the graph evaluates `===` like it |
| Arithmetic.BigIntegerEqualityIff | src/objects/value.rs:38-80 | what `==` says of a big integer against every kind, with the limb read as signed |
| Arithmetic.HostOperations | src/compiler/pipeline.rs:86-120 | division, remainder and bit operations are those of the host, the left operand first |
| Arithmetic.Negates | src/compiler/pipeline.rs:121-124 | the negated number, zeros, infinities and NaN included |
| Arithmetic.NotIff | src/compiler/pipeline.rs:125-128 | `!x` is true exactly for the values listed as falsy |
| Rewrites.OptimizerTableIsTheEvaluators | src/compiler/optimizer.rs:57-98 | folding computes with the same operation the evaluator applies, for every operator and all values |
| Rewrites.RuleIsExactWhen | src/compiler/optimizer.rs:132-181 | a reduction rule that may fire keeps the value of the node if and only if its operands meet the condition for the rule |
| Rewrites.SmallIntegersAreSafe | src/compiler/optimizer.rs:132-181 | with small-integer operands every rule that may fire is exact |
| Rewrites.OtherOperationsAreSafe | src/compiler/optimizer.rs:132-181 | no rule touches an operation other than addition, subtraction and multiplication |
| Rewrites.PutKeepsMeanings | src/compiler/graph.rs:49-54 | replacing one node by one of equal meaning preserves the meaning of every node |
| Rewrites.RewriteMeans | src/compiler/optimizer.rs:41-186 | one rewrite of a node that is safe keeps its meaning and its safety, and the graph well formed |
| Rewrites.RewriteKeepsSafeNodes | src/compiler/optimizer.rs:41-186 | one rewrite anywhere keeps meaning and safety of every safe node |
| Rewrites.RewriteMakesNoCandidate | src/compiler/optimizer.rs:41-186 | no rewrite adds to the nodes that can become constants, so what is safe stays safe |
| Rewrites.FoldKeepsAllMeanings | src/compiler/optimizer.rs:41-109 | folding one node preserves the meaning of every node, with no premise on the values |
| Rewrites.ReductionKeepsAllMeaningsIff | src/compiler/optimizer.rs:112-186 | reducing one node preserves the meaning of every node if and only if the rule is exact for the values of its two operands |
| Rewrites.PassLowers | src/compiler/optimizer.rs:41-186 | a pass keeps the graph well formed, and the sum of node heights falls by at least one for each rewrite it counts |
| Rewrites.IdlePass | src/compiler/optimizer.rs:31-33 | a pass counts nothing if and only if it can rewrite no node, and then leaves the graph alone |
| Rewrites.PassKeepsSafeNodes | src/compiler/optimizer.rs:41-186 | a whole pass, in place, keeps the meaning and the safety of every safe node |
| DeadCode.ReachableIffTrail | src/compiler/optimizer.rs:200-213 | the recursive notion of being reachable from a return is the existence of a chain of input and control edges |
| DeadCode.MarkedIsLive | src/compiler/optimizer.rs:190-213 | with an empty worklist, what is marked is exactly what is live |
| DeadCode.SweepKeepsLive | src/compiler/optimizer.rs:215-229 | live nodes are untouched by the sweep, with their meaning and safety |
| DeadCode.SweepKillsOthers | src/compiler/optimizer.rs:219-227 | every other node is dead afterwards |
| DeadCode.SweepKeepsLiveness | src/compiler/optimizer.rs:189-232 | the sweep changes nothing about what is reachable |
| DeadCode.SweepIsIdempotent | src/compiler/optimizer.rs:189-232 | a second sweep changes nothing and counts nothing |
| DeadCode.KillCountCounts | src/compiler/optimizer.rs:215-231 | the count is the number of nodes that were neither live nor dead already |
| DeadCode.SweepAddsNoRewrite | src/compiler/optimizer.rs:22-38 | the sweep enables no rewrite, so the fixed point survives it |
| Optimizer.ConstantFolding | src/compiler/optimizer.rs:41-109 | the loop performs one folding pass in place and counts its rewrites |
| Optimizer.AlgebraicReductions | src/compiler/optimizer.rs:112-186 | the loop performs one reduction pass in place and counts its rewrites |
| Optimizer.MarkLive | src/compiler/optimizer.rs:190-213 | the worklist loop terminates and marks exactly the live nodes |
| Optimizer.DeadCodeElimination | src/compiler/optimizer.rs:189-232 | sweeps the graph in place and returns the number of nodes it killed |
| Optimizer.Optimize | src/compiler/optimizer.rs:22-38 | the loop of passes terminates, keeps the graph valid and its returns, and yields the optimized graph with its statistics |
| Optimizer.RoundsReachFixedPoint | src/compiler/optimizer.rs:25-34 | the rounds end in a graph neither pass can rewrite, after at most as many rewrites as the initial sum of heights |
| Optimizer.RoundsKeepSafeNodes | src/compiler/optimizer.rs:25-34 | all rounds together keep the meaning of every safe node |
| Optimizer.OptimizeKeepsResult | src/compiler/optimizer.rs:22-38 | executing the optimized graph gives the result of the original for all arguments for which the returned value is safe: no rule that could fire on constant operands below it is inexact |
| Optimizer.SmallIntegerArithmeticIsSafe | src/compiler/optimizer.rs:112-186 | a value whose additions, subtractions and multiplications see small integers is safe |
| Optimizer.OptimizeChangesUndefinedTimesZero | src/compiler/optimizer.rs:174-178 | without that premise the result can change: `undefined * 0` is NaN, and 0 after optimizing |
| Optimizer.OptimizeIsIdempotent | src/compiler/optimizer.rs:22-38 | optimizing again changes nothing and reports zero for all three statistics |
| FixedPoints.RewritableIff | src/compiler/optimizer.rs:41-186 | a pass rewrites exactly the operators on constants, and exactly the sums, differences and products with an operand one of the rules removes, told by the shape of the nodes |
| FixedPoints.NothingLeftIff | src/compiler/optimizer.rs:25-34 | a round counts nothing if and only if no such node is there |
| FixedPoints.OptimizedHasNothingLeft | src/compiler/optimizer.rs:22-38 | after the rounds, and after dead-code elimination, no unary node has a constant input, no binary node two, and no sum, difference or product an operand to be removed |
| FixedPoints.ChangedIff | src/compiler/optimizer.rs:41-186 | a pass changes a node if and only if it has that shape when its turn comes |
| FixedPoints.CountIsChanged | src/compiler/optimizer.rs:41-186 | the count of a pass is the number of nodes it has changed |
| FixedPoints.FoldsAreCounted | src/compiler/optimizer.rs:41-109 | the count of a folding pass is the number of nodes that were no constants before and are afterwards |
| PassExactness.PassKeepsAllMeaningsIff | src/compiler/optimizer.rs:112-186 | the reducing pass keeps the meaning of every node if and only if each rule it fires is exact on the values its operands have in the graph it was given |
| PassExactness.FoldingPassKeepsAllMeanings | src/compiler/optimizer.rs:41-109 | the folding pass keeps every meaning on all graphs and arguments |
| PassExactness.EveryPassKeepsMeaningsIff | src/compiler/optimizer.rs:22-38 | every pass of the driver's loop keeps every meaning if and only if all rules fired in all rounds are exact |
| PassExactness.ExactOptimizingKeepsResult | src/compiler/optimizer.rs:22-38 | then executing the optimized graph gives the result of the original, in particular where nothing is rewritten |
| PassExactness.OutOfReachIsSafe | src/compiler/optimizer.rs:112-186 | where no operand can become a constant and none is used twice, every argument is safe |
| PassExactness.SumIsSafe | src/compiler/optimizer.rs:132-147 | so `a0 + a1` is safe for all arguments, strings and zeros included |
| Bytecodes.OperandRoundTrip | src/interpreter/bytecode_register.rs:147-157 | operand bytes and registers name each other one to one |
| Bytecodes.AcceptedCodeReturns | src/compiler/graph_builder.rs:37-121 | every accepted code ends with a return value |
| Bytecodes.LoadedBeforeReadDecides | src/compiler/graph_builder.rs:124-553 | if the accumulator is loaded before it is read, dropping unloaded reads and reading `undefined` are the same machine |
| GraphBuilder.InstructionSimulates | src/compiler/graph_builder.rs:128-549 | translating one instruction keeps graph, accumulator, registers and parameters in step with the machine |
| GraphBuilder.BuildSimulates | src/compiler/graph_builder.rs:124-553 | the same over the whole remaining code |
| BuiltGraphs.BuiltGraphRunsTheCode | src/compiler/graph_builder.rs:124-553 | for every accepted code and all arguments, executing the built graph is running the code on the machine that decodes like the builder, computes like the evaluator and drops unloaded reads |
| BuiltGraphs.BuiltGraphRunsLoadedCode | src/compiler/graph_builder.rs:124-553 | for code that loads the accumulator first, on the machine whose accumulator starts undefined |
| BuiltGraphs.UnloadedReadDiffers | src/compiler/graph_builder.rs:124-553 | a code on which the two machines differ |
| Compiler.CanCompile | src/compiler/graph_builder.rs:37-121 | answers yes exactly for the accepted codes |
| GraphBuilder.InstructionContinues | src/compiler/graph_builder.rs:124-553 | the operands an instruction reads lie within the code, and building goes on after it with the same end |
| Compiler.BytecodeGraphBuilder.Build | src/compiler/graph_builder.rs:124-553 | on any code that holds the operands it reads, also code that `can_compile` refuses or that ends before a feedback byte, the decode loop stays within the bytes, builds the specified graph and keeps it valid |
| Compiler.BytecodeGraphBuilder.TranslateNext | src/compiler/graph_builder.rs:128-549 | one iteration moves to the next instruction boundary, over a byte that decodes to nothing too |
| Compiler.BytecodeGraphBuilder.Translate | src/compiler/graph_builder.rs:132-548 | one instruction changes the builder's fields as specified |
| Compiler.BytecodeGraphBuilder.GetRegisterNode | src/compiler/graph_builder.rs:556-584 | finds or creates the node of a register: parameters by position, unset locals `undefined` |
| Compiler.BytecodeGraphBuilder.SetRegisterNode | src/compiler/graph_builder.rs:586-593 | later reads of the register see the node, parameters too |
| Compiler.Compile | src/compiler/pipeline.rs:18-23 | builds, then optimizes |
| Compiler.CompiledCodeRunsTheCode | src/compiler/pipeline.rs:18-51 | compiling and executing accepted code gives what the machine gives, for all arguments on which the rules that could fire, or the rules that do fire, are exact |
| Comparisons.TiersAgreeIff | src/objects/value.rs:446-526 | operation by operation, the graph tier computes what the interpreter computes if and only if the stated condition on the operands holds: strings ordered as the numbers they spell, no two big integers that are one double, nothing equal only across kinds |
| Comparisons.EqualityAgreesIff | src/objects/value.rs:38-80 | `==` says no more than `===` exactly off `null` against `undefined` and a big integer against an equal small integer, double or text |
| Comparisons.LessAgreesIff | src/objects/value.rs:446-463 | `<` is the comparison of doubles exactly on the operands the condition names |
| Comparisons.AtMostAgreesIff | src/objects/value.rs:488-505 | the same for `<=` |
| Comparisons.KindsAgreeSuffices | src/objects/value.rs:413-526 | between these kinds of operands the tiers agree on every operation |
| Comparisons.OtherKindsDiffer | src/objects/value.rs:413-526 | between all others some values make them differ |
| Comparisons.NegateAgreesIff | src/interpreter/interpreter.rs:2326-2340 | the tiers negate into the same value exactly what is no big integer and no small integer with a small negative |
| Comparisons.NegateAgreesAsNumberIff | src/interpreter/interpreter.rs:2326-2340 | as numbers the results differ only for big integers whose conversion does not commute with negation |
| Interpreter.InterpreterFrame.Run | src/interpreter/interpreter.rs:1470-2341 | the dispatch loop with all its fused pairs and triples returns what running one instruction at a time returns, the addition in place being one of them |
| Interpreter.InterpreterFrame.FuseStar | src/interpreter/interpreter.rs:1425-1460 | running a store or a return along is running it next |
| Interpreter.InterpreterFrame.LoadRegister | src/interpreter/interpreter.rs:1560-1685 | so is what a register load runs along, except that the addition in place keeps the accumulator |
| Interpreter.InterpreterFrame.Execute | src/interpreter/interpreter.rs:1511-2341 | one instruction changes accumulator and slots as specified |
| Interpreter.ExecuteWithReceiver | src/interpreter/interpreter.rs:1216-1400 | a fresh frame with receiver and arguments in their slots, then the loop |
| Interpreter.FusedImmediate | src/interpreter/interpreter.rs:1610-1658 | an immediate addition or remainder fused with its load and store is the three instructions |
| InterpreterAgreement.SameBoundariesIff | src/interpreter/interpreter.rs:2326-2340 | builder and interpreter begin their instructions at the same positions of accepted code if and only if it contains no `Negate` |
| InterpreterAgreement.SharedSlotIff | src/interpreter/interpreter.rs:188-208 | two registers share a slot of the frame exactly if one is a frame slot and the other one of r4 to r11, or one a late parameter and the other the late local of the same offset |
| InterpreterAgreement.InPlaceIsExactIff | src/interpreter/interpreter.rs:1564-1609 | the addition in place is the three instructions if and only if the accumulator already holds the sum |
| InterpreterAgreement.BaseCaseIsRefused | src/interpreter/bytecode_array.rs:265-285 | code with the shortcut for small arguments is never accepted |
| InterpreterAgreement.StepMirrors | src/interpreter/interpreter.rs:1470-2170 | one instruction keeps frame and machine in step |
| InterpreterAgreement.RunsAgree | src/interpreter/interpreter.rs:1470-2170 | so does the whole remaining code, also with a stale accumulator that the code reloads |
| InterpreterAgreement.MachineAgreesWithInterpreter | src/interpreter/interpreter.rs:1286-1400 | the machine of the graph tier returns what the interpreter returns, for all accepted code without `Negate` that names one bank of registers and reloads the accumulator after an addition in place, on all arguments whose tests see operands on which the tiers agree |
| InterpreterAgreement.BuiltGraphIsInterpretedCode | src/compiler/pipeline.rs:39-51 | so does the built graph, if the accumulator is loaded before it is read |
| InterpreterAgreement.CompiledCodeIsInterpretedCode | src/objects/function.rs:236-273 | the same for compiled and optimized code, executed on the receiver followed by the arguments, where the rewrite rules are exact |
| InterpreterAgreement.UndefinedReceiverMeans | src/compiler/pipeline.rs:76-79 | every node means the same on an undefined receiver as on no parameters |
| InterpreterAgreement.CompiledCodeIsInterpretedWithoutArguments | tests/differential_tests.rs:2490-2507 | compiler and interpreter results match on the empty list handed to both, under the same premises |
| TierDifferences.OperationCodeAgreesIff | src/compiler/pipeline.rs:132-160 | for code that applies one operation to two arguments the results match if and only if the tiers agree on the operands |
| TierDifferences.NegateDiffers | src/interpreter/interpreter.rs:2326-2340 | `LdaSmi 5; Negate; Ldar r0; Return` is `undefined` compiled and -5 interpreted |
| TierDifferences.InPlaceAdditionDiffers | src/interpreter/interpreter.rs:1564-1609 | `Ldar a1; Add a2; Star a1; Return` is the sum compiled and `undefined` interpreted, for all strings and all small integers with a small sum |
| TierDifferences.SharedArgumentsDiffer | src/objects/function.rs:243-257 | `Ldar a1; Return` handed the same one-element list is `undefined` in the graph tier and the element interpreted; with the receiver in front it is the element in both |
| TierDifferences.SharedSlotDiffers | src/interpreter/interpreter.rs:188-208 | with four arguments, reading the unwritten r12 is `undefined` compiled and the last argument interpreted |
| Opcodes.RegisterArithmetic | src/compiler/graph_builder.rs:246-356 | `Ldar a1; <code> a2; Return` returns in both tiers, for every value of the arguments, what the table of the opcodes 37 to 47 says |
| Opcodes.SmallIntegerArithmetic | src/interpreter/bytecodes.rs:57-59 | opcodes 37, 38 and 39 on small integers return sum, difference and product where they are in range |
| Opcodes.RegisterComparisons | src/compiler/graph_builder.rs:467-534 | opcodes 71 to 76 return the comparison of the graph tier compiled and that of the interpreter interpreted |
| Opcodes.SmallIntegerComparisons | src/interpreter/bytecodes.rs:95-100 | on small integers both return the comparison of the integers |
| Opcodes.ImmediateOpcodes | src/compiler/graph_builder.rs:358-457 | the opcodes with an immediate are 12 more, with the operand byte as a signed integer, in both tiers |
| Opcodes.ConstantLoads | src/interpreter/bytecodes.rs:14-20 | opcodes 2, 4, 5, 7 and 8 load zero, undefined, null, true and false |
| Opcodes.OperandLoads | src/interpreter/bytecodes.rs:15-21 | opcode 3 loads the signed byte, opcode 9 the entry of the constant pool, undefined past its end |
| Opcodes.RegisterLoads | src/interpreter/bytecode_register.rs:147-157 | opcode 10 with operand 4 and up loads the arguments in order, with 250 and down the locals, undefined at first |
| Opcodes.ReceiverLoads | src/objects/function.rs:243-257 | with operand 3 it loads the receiver |
| Opcodes.LongStore | src/compiler/graph_builder.rs:226-233 | opcode 14 stores where opcode 10 with the same operand reads |
| Opcodes.ShortStores | src/interpreter/bytecodes.rs:36-51 | opcodes 20 to 35 store into the registers of operands 250 down to 235 |
| Opcodes.Moves | src/compiler/graph_builder.rs:234-245 | opcode 36 copies its first register into its second |
| Opcodes.Negations | src/interpreter/interpreter.rs:2326-2340 | opcode 63 returns the negated double compiled, and interpreted a small integer, a negative zero, a double or a big integer by the kind of its operand |
| Opcodes.AcceptedIff | src/compiler/graph_builder.rs:37-121 | `can_compile` says yes exactly to supported instructions, told by number and length, up to the only return at the very end |
| Opcodes.OthersAreRefused | src/compiler/graph_builder.rs:37-121 | code that starts with any other byte is refused; from 131 on the interpreter knows no such opcode |
| Opcodes.EndsWithoutReturn | src/interpreter/interpreter.rs:1470-1510 | code that ends without a return returns the accumulator, and a byte that is no opcode stops it at its position |
| Opcodes.TextLessIff | src/objects/value.rs:446-463 | the interpreter orders strings by their first difference |
| Opcodes.ExactOrder | src/objects/value.rs:446-505 | it orders big integers exactly, also against small ones |
| Bits.MaskIsRemainder | src/hashmap.rs:105-112 | masking with a power of two less one is the remainder |
| Bits.PowerOfTwoTest | src/bits.rs:147-149 | the bit trick is true exactly for powers of two |
| Bits.RoundUpIsLeast | src/bits.rs:172-176 | rounding up gives the least power of two that is not below the value |
| HashMap.FirstCapacityIsPow2Iff | src/hashmap.rs:65-71 | the first capacity is a power of two, at least 2, unless the request is 2^32 or more and its low 32 bits are a power of two |
| HashMap.FirstCapacitySufficesIff | src/hashmap.rs:65-71 | it is a power of two and not below the request if and only if the request is at most 2^31 |
| HashMap.FirstCapacityIsLeast | src/hashmap.rs:65-71 | up to 2^31 it is the least power of two, from 2 on, that is not below the request |
| HashMap.MaskKeepsLowBits | src/hashmap.rs:105-112 | hashes are told apart by their low 31 bits |
| HashMap.LoadIsFourFifths | src/hashmap.rs:142-158 | a table is due to grow exactly from four fifths of its capacity on |
| HashTables.BoundIff | src/hashmap.rs:105-121 | what the table binds is what some slot holds |
| HashTables.StoppedAtFree | src/hashmap.rs:105-121 | a probe that stops at a free slot proves that no slot holds the key |
| HashTables.InsertKeepsLayout | src/hashmap.rs:132-165 | filling the slot the probe stopped at keeps every entry findable |
| HashTables.InsertBinds | src/hashmap.rs:152-165 | and adds exactly that binding |
| HashTables.MoveBackKeepsLayout | src/hashmap.rs:178-193 | moving an entry back into the hole keeps every other entry findable with the hole at its old slot |
| HashTables.CloseHole | src/hashmap.rs:178-199 | once the next slot is free, clearing the hole leaves a well laid out table with the other bindings |
| HashTables.CountIsSize | src/hashmap.rs:84-86 | in a well laid out table the number of occupied slots is the number of bindings |
| HashTables.IterationMeetsEachBindingOnce | src/hashmap.rs:218-233 | `start_index` and `next_index` enumerate every binding exactly once |
| HashMap.V8HashMap.constructor | src/hashmap.rs:65-81 | an empty table of the first capacity, for every request for which that is a power of two |
| HashMap.V8HashMap.Clear | src/hashmap.rs:98-103 | no bindings, the same capacity |
| HashMap.V8HashMap.ProbeIndex | src/hashmap.rs:105-112 | probing terminates and stops at the key's slot exactly if the key is bound |
| HashMap.V8HashMap.Lookup | src/hashmap.rs:114-130 | finds exactly the bound keys, with their values |
| HashMap.V8HashMap.LookupOrInsert | src/hashmap.rs:132-150 | adds a binding only if there is none, doubling the capacity exactly if the table is then four fifths full, and returns the slot of the key also after growing; a bound key changes nothing |
| HashMap.V8HashMap.InsertNew | src/hashmap.rs:152-165 | adds the binding of an absent key, doubles the capacity exactly if the table is then four fifths full, and returns the slot of the key also after growing |
| HashMap.V8HashMap.Fill | src/hashmap.rs:152-165 | fills the slot and grows at most once |
| HashMap.V8HashMap.Resize | src/hashmap.rs:201-215 | doubles the capacity with the same bindings, and never grows again while it rebuilds |
| HashMap.V8HashMap.Remove | src/hashmap.rs:167-199 | removes exactly the binding for the key and the 31-bit hash, returns its value, and keeps all others findable |
| HashMap.V8HashMap.ShiftBack | src/hashmap.rs:178-193 | the shifting loop terminates and ends at a slot that can be cleared |
| HashMap.V8HashMap.NextIndex | src/hashmap.rs:218-233 | the next occupied slot, if there is one; none past the end |
| PromiseSafety.SettleKeepsCore | src/builtins/promise.rs:72-252 | settling keeps the invariant and changes no settled promise |
| PromiseSafety.RegisterKeepsCore | src/builtins/promise.rs:177-308 | attaching reactions keeps it, before and after settlement |
| PromiseSafety.ResolveKeepsCore | src/builtins/promise.rs:72-156 | resolving, also with a promise, keeps it: adoption goes one level deep |
| PromiseOrder.ExecutedInRegistrationOrder | src/builtins/promise.rs:177-308 | reactions on one promise are enqueued in the order of registration, whether registered before or after settlement |
| PromiseOrder.EnqueuedAtMostOnce | src/builtins/promise.rs:205-252 | a registration is enqueued at most once, for fulfilment or for rejection, never for both |
| PromiseOrder.EnqueuedIffSettled | src/builtins/promise.rs:177-252 | a registration is enqueued if and only if its promise is settled |
| PromiseOrder.ExecutedExactlyOnce | src/builtins/promise.rs:205-252 | once the queue is empty, a registration on a settled promise has run once, with the handler for the outcome and its value |
| PromiseAll.FiringHasRemaining | src/builtins/promise.rs:446-458 | when an element's handler fires, `remaining` is not zero |
| PromiseAll.FireKeepsInv | src/builtins/promise.rs:446-458 | firing an element's handler keeps the invariant of every `Promise.all` call |
| PromiseAll.RejectAllKeepsInv | src/builtins/promise.rs:461-467 | so does firing a rejection handler |
| PromiseMachine.StepKeepsInv | src/builtins/promise.rs:72-308 | every step of the machine keeps the invariant and forgets nothing |
| PromiseMachine.RunsOnlyExtend | src/builtins/promise.rs:72-308 | so does every run |
| PromiseRuns.SettledIsFinal | src/builtins/promise.rs:72-174 | in every run a settled promise keeps state and result, has no reactions left, and is not fulfilled with a promise |
| PromiseRuns.ReactionsRunAtMostOnceInOrder | src/execution/microtask_queue.rs:98-177 | in every run, reactions on one promise run in registration order and each registration runs at most once |
| PromiseRuns.DrainedRunsEachRegistrationOnce | src/execution/microtask_queue.rs:98-177 | with an empty queue each registration has run exactly once if its promise is settled, and not at all otherwise |
| PromiseChildren.ThenRunsItsHandler | src/builtins/promise.rs:258-307 | whatever runs for a call of `then`, in every run: its first handler if the promise was fulfilled, its second if rejected, on the result and for the child of the call |
| PromiseChildren.HandlerSettlesItsChild | src/execution/microtask_queue.rs:126-153 | when it enters script, the child of the call is the promise that its outcome settles |
| PromiseChildren.HandlerHasPendingChild | src/execution/microtask_queue.rs:126-153 | and is pending until then, in every run |
| PromiseChildren.ThrowRejectsChild | src/execution/microtask_queue.rs:143-151 | a handler that throws rejects its child with the message as text, and it stays so in every later run |
| PromiseChildren.ReturnFulfilsChild | src/execution/microtask_queue.rs:134-142 | a handler that returns a plain value fulfils its child with it |
| PromiseChildren.ReturnedPromiseDecidesChild | src/execution/microtask_queue.rs:134-142 | a handler that returns a promise: once the queue is empty with nothing dropped, the child has its state and result; its own child is rejected with the chaining-cycle error |
| PromiseChildren.MissingHandlerPassesOn | src/execution/microtask_queue.rs:154-169 | without a handler for the outcome the child has the state and the result of the promise; while that is pending so is the child |
| PromiseChildren.ScriptSettles | src/builtins/promise.rs:72-174 | rejecting a pending promise, or resolving it with a plain value, settles it at once and for good |
| PromiseChildren.ResolvedOnce | src/builtins/promise.rs:72-156 | a pending promise that script resolves with another one and then leaves alone ends in the state of the other with its result |
| PromiseChildren.AdoptionDecidesIff | src/builtins/promise.rs:113-150 | in general, once the adoption has run, the two ended alike if and only if the promise was still pending or had ended alike before |
| PromiseChildren.ResolvedTwiceDiffers | src/builtins/promise.rs:113-150 | a promise resolved with a pending one and then with a plain value ends with that value |
| PromiseElements.AllFollowsTheArray | src/builtins/promise.rs:414-496 | in every run after a call of `Promise.all` on any array, a fulfilled result holds as many values as the array, at each index the value of the element at that index: the element itself, or what the promise there was fulfilled with; a rejected one has the reason of a rejected promise of the array |
| PromiseElements.DrainedAllDecides | src/builtins/promise.rs:414-496 | once the queue is empty, with no task dropped, the result is fulfilled if and only if every promise in the array is, and rejected if and only if some is |
| PromiseElements.CallAllIsOn | src/builtins/promise.rs:439-492 | the call attaches closure i to the promise of element i, for every i |
| PromiseRuns.AllFollowsItsElements | src/builtins/promise.rs:444-468 | in every run, for every call, `remaining` counts the fulfilment closures that have not run; the result is fulfilled if and only if all have, each entry being the result of the promise its closure stands on, and is rejected with the first reason if a rejection closure has run |
| PromiseRealm.Realm.Enqueue | src/execution/microtask_queue.rs:79-81 | appends to the queue |
| PromiseRealm.Realm.DrainReactions | src/builtins/promise.rs:205-252 | empties both lists of the promise and enqueues the list for the outcome in order |
| PromiseRealm.Realm.RejectPromiseInternal | src/builtins/promise.rs:159-174 | settles a pending promise, and leaves a settled one alone |
| PromiseRealm.Realm.ResolvePromiseInternal | src/builtins/promise.rs:72-156 | fulfils, or adopts the state of a promise; a promise resolved with itself is rejected |
| PromiseRealm.Realm.AddReaction | src/builtins/promise.rs:177-202 | appends to one list of one promise |
| PromiseRealm.Realm.Then | src/builtins/promise.rs:258-307 | a child promise and a pair of reactions, kept or enqueued at once |
| PromiseRealm.Realm.All | src/builtins/promise.rs:414-496 | on an array, wires up every element as specified and returns the child; on anything else fails with the error of the source and changes nothing |
| PromiseRealm.Realm.FireAll | src/builtins/promise.rs:446-458 | records the value at the element's index, counts down, and fulfils at zero |
| PromiseRealm.Realm.PopFront | src/execution/microtask_queue.rs:105-114 | takes the oldest task |
| PromiseRealm.Realm.RunMicrotasks | src/execution/microtask_queue.rs:98-177 | whatever handlers do, awaiting included, state and result are those of the checkpoint as a function of what they do; tasks are taken in order from the initial queue and all tasks enqueued meanwhile, and the rest stays queued; success means an empty queue and at most 100000 tasks taken by this checkpoint, the others having been taken by nested ones; failure means one popped unexecuted; the count is the number of tasks taken if and only if no handler took any |
| PromiseRealm.Realm.AwaitValue | src/interpreter/interpreter.rs:5429-5476 | its loop terminates; it leaves the state in which running the queue until the promise is settled or nothing runs ends, and evaluates to what a fulfilled promise holds, throws what a rejected one does, and is any other value itself |
| PromiseRealm.Realm.RunNext | src/execution/microtask_queue.rs:122-173 | one task is taken at this depth, all further ones deeper, and the script calls in progress are as before; what becomes of its child is stated by the rows of `PromiseChildren` |
| PromiseScript.CheckpointCountsOneOfTwo | src/execution/microtask_queue.rs:98-177 | on two queued functions, the first of which awaits, the checkpoint executes both, empties the queue and returns the count 1 |
| PromiseScript.CheckpointIsBounded | src/execution/microtask_queue.rs:98-177 | whatever handlers do, a checkpoint that succeeds counts at most 100000 tasks |
| PromiseScript.LimitIsReached | src/execution/microtask_queue.rs:102-120 | a checkpoint fails only after more than 100000 tasks |
| PromiseCheckpoints.NestedTaskIsNotCounted | src/interpreter/interpreter.rs:5470-5474 | two queued functions, the first of which awaits: two tasks taken, one of them by the nested checkpoint |
| Properties.GetAfterSet | src/objects/js_object.rs:514-560 | setting a property changes what is found for its name and for no other |
| Properties.SetKeepsNamesDistinct | src/objects/js_object.rs:514-560 | properties keep distinct names |
| ObjectGraphs.EdgesAreCopied | src/builtins/structured_clone.rs:14-128 | every edge of the original is an edge between the copies |
| ObjectGraphs.EdgesComeFromOriginal | src/builtins/structured_clone.rs:14-128 | every edge of the clone comes from one of the original, so the table is an isomorphism |
| ObjectGraphs.ClonesAreCloneable | src/builtins/structured_clone.rs:27-32 | a clone exists only where no function or symbol can be reached |
| StructuredClone.Clone | src/builtins/structured_clone.rs:14-139 | a result is a faithful clone: the table is one-to-one from exactly the reachable addresses to new ones, every cell is copied with its values, the source is unchanged; it fails if and only if a function or symbol is reachable, with the message for a kind that is |
| StructuredClone.CloneIsFaithful | src/builtins/structured_clone.rs:14-128 | a finished table covers all that is reachable, because its domain is closed under edges |
| StructuredClone.Cloner.CloneValue | src/builtins/structured_clone.rs:14-128 | terminates by the number of unvisited addresses, adds copies of what the value reaches and disturbs nothing visited before |
| StructuredClone.Cloner.CloneArray | src/builtins/structured_clone.rs:34-52 | enters the new array in the table before its elements, so cycles end |
| StructuredClone.Cloner.CloneElements | src/builtins/structured_clone.rs:44-49 | copies element by element, and stops at the first that cannot be cloned |
| StructuredClone.Cloner.CloneSealed | src/builtins/structured_clone.rs:62-87 | dates, regular expressions and array buffers are rebuilt and entered |
| StructuredClone.Cloner.CloneView | src/builtins/structured_clone.rs:89-104 | the buffer of a typed array is cloned first, and shared with other views of it |
| StructuredClone.Cloner.ClonePlain | src/builtins/structured_clone.rs:106-126 | enters the new object first, then sets every property in order |
| JsonText.EscapeJsonString | src/builtins/json.rs:423-443 | the loop writes the escaped text between quotes |
| JsonParsing.JsonParser.SkipWhitespace | src/builtins/json.rs:35-43 | stops at the first character that is no white space |
| JsonParsing.JsonParser.Parse | src/builtins/json.rs:45-59 | the parser returns what the grammar says for the text, errors and their positions included |
| JsonParsing.JsonParser.ParseValue | src/builtins/json.rs:61-77 | the same for one value, from wherever the parser stands |
| JsonParsing.JsonParser.ParseObject | src/builtins/json.rs:79-135 | the member loop, in which a repeated name replaces the earlier value |
| JsonParsing.JsonParser.ParseArray | src/builtins/json.rs:137-177 | the element loop, in which a trailing comma is an error |
| JsonParsing.JsonParser.ParseString | src/builtins/json.rs:179-230 | the character loop with all escapes; surrogate escapes become U+FFFD |
| JsonParsing.JsonParser.ParseNumber | src/builtins/json.rs:253-323 | integers that fit 32 bits, everything else as a float literal |
| JsonSoundness.AcceptsIff | src/builtins/json.rs:45-323 | for every text, parsing succeeds with a value if and only if the text, with white space around it, is one of the grammar of `JsonSyntax` that denotes the value |
| JsonSoundness.StandardIsAccepted | src/builtins/json.rs:45-323 | in particular every text of RFC 8259 is read as what it denotes |
| JsonSoundness.LeadingZeroIsAccepted | src/builtins/json.rs:253-323 | `07` is accepted |
| JsonSoundness.LeadingZeroIsNotStandard | src/builtins/json.rs:253-323 | and is no text of the standard |
| JsonSoundness.LastMemberCounts | src/builtins/json.rs:106-107 | of members with one name the last gives the value |
| JsonSoundness.OnlyNamesCount | src/builtins/json.rs:106-107 | and no other name is there |
| JsonConformance.HexEscapeReads | src/builtins/json.rs:200-214 | four hexadecimal digits of either case read as the character with their code, a surrogate as U+FFFD |
| JsonConformance.OtherHexEscapeFails | src/builtins/json.rs:209-217 | any other four characters are an error that names them, but for a plus sign and three digits |
| JsonConformance.ShortEscapeReads | src/builtins/json.rs:192-199 | the eight escapes of one character, the escaped slash among them |
| JsonConformance.OtherEscapeFails | src/builtins/json.rs:219 | any other is an error |
| JsonConformance.PlainCharacterReads | src/builtins/json.rs:182-230 | every other character stands for itself, but for the two line ends |
| JsonConformance.NumeralReads | src/builtins/json.rs:253-323 | a numeral reads as the number that its digits denote, or as a float beyond 32 bits |
| JsonConformance.EscapeWritten | src/builtins/json.rs:423-443 | only what has to be is escaped; control characters with lower-case digits |
| JsonConformance.IntegerWritten | src/builtins/json.rs:335 | an integer is written with its digits and no leading zero |
| JsonConformance.MalformedStructures | src/builtins/json.rs:45-177 | errors and positions for texts that are no values |
| JsonConformance.MalformedNumbers | src/builtins/json.rs:253-323 | errors and positions for incomplete numbers |
| JsonConformance.MissingComma | src/builtins/json.rs:137-177 | the error for a missing comma |
| JsonConformance.CommaBeforeBracket | src/builtins/json.rs:137-177 | and for one before the bracket |
| JsonRoundTrip.Hex4Value | src/builtins/json.rs:435-437 | reading back four hexadecimal digits |
| JsonRoundTrip.IntegerRoundTrip | src/builtins/json.rs:253-316 | an integer's decimal text is read back, wherever it stands and no number could go on |
| JsonRoundTrip.QuotedRoundTrip | src/builtins/json.rs:179-230 | reading a string undoes escaping it, for every string |
| JsonRoundTrip.ArrayRoundTrip | src/builtins/json.rs:137-177 | a printed array is read back if its items are |
| JsonRoundTrip.ObjectRoundTrip | src/builtins/json.rs:79-135 | a printed object is read back, in order, if its members are |
| JsonRoundTrip.ValueRoundTrip | src/builtins/json.rs:327-421 | wherever the text of a tree stands, the parser reads the tree and stops behind it |
| JsonRoundTrip.ParseUndoesStringify | src/builtins/json.rs:45-421 | parsing the printed text returns the tree and consumes all of it, compact or with any indentation of white space |
| JsonRoundTrip.ParseUndoesSpacedStringify | src/builtins/json.rs:478-487 | in particular for every integer given as the third argument |
| JsonLayout.CompactHasNoSpace | src/builtins/json.rs:346-421 | compact text has no white space outside its strings: without them it is the bare structure of the value |
| JsonLayout.IndentedHasSpacedColons | src/builtins/json.rs:400-404 | indented text has exactly one space after each colon outside its strings, and is the compact text but for white space |
| JsonLayout.IndentedLines | src/builtins/json.rs:360-372 | every item on a line of its own, one step further in than its brackets |
| JsonLayout.SpacesAreClamped | src/builtins/json.rs:478-487 | an integer third argument is that many spaces, ten at most; none gives compact text |
| JsonRoundTrip.ParsedNamesAreDistinct | src/builtins/json.rs:79-135 | whatever the text, objects of a parsed tree have distinct names at every depth |
| JsonRoundTrip.ParsePrintParse | src/builtins/json.rs:45-421 | parsing, printing and parsing again gives the first tree for every text without floats and raw marks |
| Base64.BtoaEncode | src/builtins/base64.rs:12-22 | fails exactly as specified, and otherwise encodes the bytes |
| Base64.Base64Encode | src/builtins/base64.rs:25-56 | the chunk loop computes the specified text |
| Base64.AtobDecode | src/builtins/base64.rs:70-115 | the decoding loop, with the error of the first quad that cannot be decoded |
| Base64.Strip | src/builtins/base64.rs:71-75 | removes exactly the five white-space characters |
| Base64.OnlyLatin1HasBytes | src/builtins/base64.rs:12-22 | exactly the strings with a character above U+00FF are refused |
| Base64.DecodeUndoesEncode | src/builtins/base64.rs:25-110 | decoding returns the bytes that were encoded |
| Base64.AtobUndoesBtoa | src/builtins/base64.rs:12-115 | for every Latin-1 string, also with white space put in anywhere |
| Base64.AtobUndoesBtoaDirectly | src/builtins/base64.rs:12-115 | in particular on the text as `btoa` returns it |
| Base64.StrippedInsert | src/builtins/base64.rs:71-75 | one more white-space character anywhere makes no difference |
| Base64.EncodeUndoesDecode | src/builtins/base64.rs:25-110 | encoding the decoded bytes returns every canonical text |
| Base64.BtoaUndoesAtobIff | src/builtins/base64.rs:12-115 | `btoa` undoes `atob` if and only if the text is canonical: padding only in the last quad and unused bits zero |
| Base64.AtobAcceptsIff | src/builtins/base64.rs:70-115 | `atob` accepts exactly quads of symbols, each of which may end in padding, with white space anywhere |
| Base64.AtobAcceptsInnerPadding | src/builtins/base64.rs:70-115 | it accepts `AA==AAAA`, which `btoa` does not give back |
| Base64.AtobAcceptsUnusedBits | src/builtins/base64.rs:70-115 | and `AB==` |
| Base64Conformance.ChunkWritten | src/builtins/base64.rs:29-38 | three bytes are written as the four characters that stand for their 24 bits in table 1 of RFC 4648 |
| Base64Conformance.TwoWritten | src/builtins/base64.rs:48-53 | two bytes at the end as three characters and an equals sign |
| Base64Conformance.OneWritten | src/builtins/base64.rs:42-47 | one as two characters and two equals signs |
| Base64Conformance.ChunkRead | src/builtins/base64.rs:80-103 | four characters are read as the three bytes with their 24 bits |
| Base64Conformance.TwoRead | src/builtins/base64.rs:80-103 | three and an equals sign as the first two bytes, in any quad |
| Base64Conformance.OneRead | src/builtins/base64.rs:80-103 | two and two equals signs as the first byte, in any quad |
| Base64Conformance.SpaceIsSkipped | src/builtins/base64.rs:71-75 | space, tab, line feed, form feed and carriage return are skipped, and nothing else |
| Base64Conformance.FirstError | src/builtins/base64.rs:80-107 | which of two errors the first bad quad gives |
| Base64Conformance.LengthError | src/builtins/base64.rs:77-79 | the error for the length, exactly if what is left without white space is no multiple of four |
| Utf8.CutAtAscii | src/builtins/url.rs:57-75 | cutting a well-formed text at an ASCII character leaves well-formed texts |
| Utf8.TextHasScalars | src/builtins/url.rs:50 | what counts as well formed is the encoding of some sequence of scalar values (section 3 of RFC 3629) |
| Utf8.ScalarsAreText | src/builtins/url.rs:50 | and the encoding of every sequence of scalar values is well formed |
| Query.PercentEncode | src/builtins/url.rs:14-28 | the byte loop computes the specified encoding |
| Query.PercentDecode | src/builtins/url.rs:31-51 | the byte loop, with both errors, and a plus sign accepted as first hexadecimal digit |
| Query.DecodedEncoded | src/builtins/url.rs:14-51 | what decoding makes of encoded text in each mode |
| Query.DecodeUndoesEncodeIff | src/builtins/url.rs:14-51 | decoding undoes encoding for every string, but in non-component mode with plus signs as spaces exactly for strings without plus signs |
| Query.PlusBecomesSpace | src/builtins/url.rs:14-51 | a plus sign encoded by `encodeURI` comes back as a space |
| QueryConformance.ByteWritten | src/builtins/url.rs:14-28 | letters, digits, the four marks and, for `encodeURI`, the eleven reserved characters are written as they are, every other byte as a percent sign and two upper-case digits |
| QueryConformance.EscapeDecodes | src/builtins/url.rs:38-44 | a percent sign and two digits of either case are the byte they spell |
| QueryConformance.PlusEscapeDecodes | src/builtins/url.rs:38-44 | so are a percent sign, a plus sign and one digit |
| QueryConformance.OtherEscapeFails | src/builtins/url.rs:38-44 | anything else behind a percent sign is an error |
| QueryConformance.PlainByteDecodes | src/builtins/url.rs:36-47 | a plus sign is a space on request, and every other byte is itself |
| QueryConformance.DecodedIff | src/builtins/url.rs:50 | the decoded bytes are a result exactly if they are the encoding of scalar values |
| Query.ParseQueryPairs | src/builtins/url.rs:57-75 | the splitting loop; parts that cannot be decoded are kept as they are |
| Query.PairsToQueryString | src/builtins/url.rs:77-85 | the joining loop |
| QueryConformance.KeyParses | src/builtins/url.rs:57-75 | a part without an equals sign is a key with an empty value, an empty part is no pair |
| QueryConformance.PairParses | src/builtins/url.rs:57-75 | the first equals sign separates key and value |
| QueryConformance.AmpersandSeparates | src/builtins/url.rs:57-75 | an ampersand separates parts |
| QueryConformance.QuestionIsSkipped | src/builtins/url.rs:57-75 | a leading question mark is skipped |
| QueryConformance.PairsPrint | src/builtins/url.rs:77-85 | an equals sign within a pair and an ampersand between pairs |
| Query.ParseUndoesPrint | src/builtins/url.rs:57-85 | parsing the printed query gives the pairs back for all keys and values |
| Query.ParsePrintParse | src/builtins/url.rs:57-85 | for every query, parsing, printing and parsing again gives the same pairs |
| CivilDate.EpochIsZero | src/builtins/date.rs:32-39 | 1 January 1970 is day 0 |
| CivilDate.IntermediatesAreUnsigned | src/builtins/date.rs:32-39 | for every date the values the source casts to unsigned integers are not negative |
| CivilDate.IntermediatesFitIff | src/builtins/date.rs:32-39 | for dates of 32-bit years every intermediate fits its type if and only if the year, counted from March, is at least -2147483249 |
| CivilDate.NextDateIsOneMore | src/builtins/date.rs:32-39 | the next date has the next number, for every date of every year, also negative ones |
| CivilDate.FirstOfJanuaryIsDayFromYear | src/builtins/date.rs:32-39 | 1 January is DayFromYear of section 15.9.1.3 of ECMA-262 5.1 |
| CivilDate.FirstOfMonthIsDayWithinYear | src/builtins/date.rs:32-39 | the first of each month has the day within the year of section 15.9.1.4 of ECMA-262 5.1 |
| CivilDate.EveryNumberIsADate | src/builtins/date.rs:32-39 | every integer is the number of a date |
| CivilDate.EarlierIffLess | src/builtins/date.rs:32-39 | dates and numbers are in the same order, so no two dates share a number |
| CivilInverse.DecodingUndoesEncodingIff | src/builtins/date.rs:17-29 | the date computed for the number of a date is that date if and only if the estimate of the year fits: the days of the era as the source counts them, without those of 365-day years, are fewer than a year and not negative |
| CivilInverse.NoDateIff | src/builtins/date.rs:17-29 | the unsigned day of the year goes below zero if and only if the estimate is too high, the last day of an era apart |
| CivilInverse.LeapDaysAreMistaken | src/builtins/date.rs:17-29 | there is no date for 29 February 2008, that of 2000 is taken for 1 March, and 1 March 2003 for a 29 February |
| CivilInverse.MostDatesAreFound | src/builtins/date.rs:17-29 | from 2 March to 31 December the date is found in every year |
| DisposableStacks.DisposableStack.Use | src/builtins/disposable_stack.rs:42-85 | registers what can be disposed, looks up the three method names in order, and refuses on a disposed stack |
| DisposableStacks.DisposableStack.Adopt | src/builtins/disposable_stack.rs:89-111 | registers a value with a callback, or fails as specified |
| DisposableStacks.DisposableStack.Defer | src/builtins/disposable_stack.rs:115-136 | registers a callback alone |
| DisposableStacks.DisposableStack.Move | src/builtins/disposable_stack.rs:141-160 | hands all entries to a new stack and counts as disposed |
| DisposableStacks.DisposableStack.Dispose | src/builtins/disposable_stack.rs:164-215 | calls every entry in reverse order of registration whatever the calls return, and nests all failures in one error, the latest outermost |
| DisposableStacks.NestedHoldsEveryFailure | src/builtins/disposable_stack.rs:200-206 | every failure's text is part of the error |
| DisposableStacks.NestedWraps | src/builtins/disposable_stack.rs:200-206 | a later failure wraps the error of the earlier ones |
| DisposableStacks.UsedIff | src/builtins/disposable_stack.rs:52-82 | `use` registers an object exactly with the first method found under the three names in order, and refuses what has none |
| DisposableRuns.StepConserves | src/builtins/disposable_stack.rs:42-215 | every step keeps the number of places of every registration |
| DisposableRuns.EachRegistrationIsInOnePlace | src/builtins/disposable_stack.rs:42-215 | over every run on any family of stacks, each registration is in exactly one place: on a stack, taken by a running disposal, or called once |
| DisposableRuns.AtRestPendingOrCalled | src/builtins/disposable_stack.rs:42-215 | with no disposal running, it has been called once or waits on a stack that is not disposed |
| DisposableRuns.CallsLatestFirst | src/builtins/disposable_stack.rs:180-208 | every call goes to the latest registration left, also across moves |
| DisposableRuns.DisposedForGood | src/builtins/disposable_stack.rs:141-180 | once moved or disposed, a stack is empty and disposed for good, in every run |
| DisposableRuns.FinishedFrameHasCalledAll | src/builtins/disposable_stack.rs:180-215 | a disposal ends only when everything it took has been called |
| DisposableRuns.FinishedFrameReports | src/builtins/disposable_stack.rs:180-215 | a disposal that ends has had a reply from every entry it took, latest registration first, and reports the texts of those that failed, in that order, whatever other disposals its calls started |

## Left out

- Values: division, remainder, bit operations, number parsing and printing and the rounding of inexact results are functions of a `Host` record, any deterministic functions; addition, subtraction, multiplication and the comparisons are spelled out. `Host.divide` and `Host.remainder` are total, where the source panics on the small integers `i32::MIN / -1` (src/objects/value.rs:248) and `i32::MIN % -1` (src/objects/value.rs:301), at compile time too when it folds them. Objects, arrays, functions and symbols are compared by identity.
- Bytecodes: register indices and constant-pool sizes are unbounded where the source uses machine words; the operators are grouped into binary and unary ones.
- HashMap.V8HashMap.constructor: requires that the first capacity is a power of two, without which the table could not be probed; `FirstCapacityIsPow2Iff` says when that is. Rounding is that of a release build; a debug build stops at requests whose low bits exceed 2^31.
- Hash map: keys are compared by equality; the source asks for `PartialEq` only, under which a key that is not equal to itself, such as a NaN, is never found and is inserted again. The packed word of hash and exists bit is two fields; writing through the reference that `lookup_mut` and the insertions return is not modelled; capacities do not overflow.
- Promises: user-defined thenables, the paths without a current queue, which overwrite state unguarded, `race`, `any`, `allSettled`, `finally`, and property writes from script. Handlers are arbitrary: a run may let them do anything the machine allows, return or throw. A handler's behaviour is any finite tree of operations and awaits, so checkpoints nest finitely deep. Registration numbers, the log of enqueued tasks and the roles of promises are bookkeeping.
- Structured clone: dictionary-mode objects, shared array buffers, and regular expressions that fail to recompile, which the source then copies as plain objects. Dates, regular expressions and buffers are copied by a payload, and a typed array's buffer is taken to be one of these.
- Optimizer.OptimizeKeepsResult: requires that the returned value is safe, because the reductions are not exact for all values; `PassExactness.ExactOptimizingKeepsResult` requires exactness of the rules fired instead.
- Compiler.CompiledCodeRunsTheCode: requires one of the two, and that the accumulator is loaded before it is read.
- InterpreterAgreement.CompiledCodeIsInterpretedCode: requires the premises named in its row; each is needed, as the lemmas of `TierDifferences` and `BuiltGraphs.UnloadedReadDiffers` show. Its condition on big integers takes their conversion to doubles to be in order and exact up to 2^53.
- Pipeline.Execute: requires a valid graph, as the builder and the optimizer leave it; on other graphs the source reports an unknown node, panics on a missing input or does not end.
- Compiler.BytecodeGraphBuilder.Build: requires that the operands it reads are there; the source panics otherwise. A missing feedback byte is stepped over, as in the source.
- Interpreter: the bytecodes the optimizing tier does not take, whose outcome here is `BeyondModel`, exception handlers, generators, rest parameters, the global object, and the shortcut for recursive functions of small integers. The register file, an array and a boxed extension, is one map from slots.
- PromiseRealm.Realm.ResolvePromiseInternal: takes values that are promises or plain; thenables that are no promises are not modelled.
- StructuredClone.Cloner.CloneSealed: copies a payload; truncating a date's time, recompiling a pattern and dropping `lastIndex` are not modelled.
- JsonParsing.JsonParser.ParseNumber: keeps a float as its text; the conversion to a double is not modelled.
- JsonRoundTrip.ValueRoundTrip, `ParseUndoesSpacedStringify` and `ParsePrintParse`: require the same trees as `ParseUndoesStringify`.
- DisposableStacks.DisposableStack.Dispose: the called functions are outcomes; functions that use stacks themselves are the subject of `DisposableRuns`.
- JsonRoundTrip.ParseUndoesStringify: requires trees without floats and raw marks, which the printer here does not cover.
- JSON: printing of floats, raw JSON text, indentation that is no white space, dictionary-mode objects, and members that are undefined, functions, symbols or BigInts. A float literal is recognised by the parser and kept as text. Error messages are constructors with the same data.
- Query: the objects of `URLSearchParams` and `URL` that hold the pairs.
- Calendar: what a release build makes of the day of the year once it has wrapped around (`CivilInverse.NoDateIff` says where it does), and the parts of a timestamp below the day. Years are integers; `CivilDate.IntermediatesFitIff` says for which 32-bit years the day number is what the source computes.
- Disposable stacks: the asynchronous variant, which differs in the names it looks up and in wrapping results in promises; calling a method on something that is no stack, and script that overwrites the property `disposed`.
- src/compiler/sparkplug.rs, src/compiler/osr.rs and native code generation.
- The rest of `bits.rs`, `SmallVector`, `BitField`, and the wiring of built-ins to objects would add only easier members.
