# A verified model of the ClaudeC99 compiler

ClaudeC99 translates C99 to x86_64 assembly text. This project models the stages of it that carry
compiler-correctness obligations and proves them:

- **Code generation** (`src/codegen.c`). Integer expressions are compiled to a small x86 machine with
  registers, flags, a byte memory and labels, and shown to compute the C value (`Codegen`,
  `CodegenCorrect`, `ExprTheorem`, `ExprLabels`, `ExprScopes`, `ExprMeaning` over `Machine`, `Words` and `WordLaws`), also after the
  peephole pass (`ExprPeephole`). Calls follow the System V AMD64
  ABI, from argument placement to variable argument lists (`CallLayout`, `CallOrder`, `VarArgs`). The stack discipline
  of all emitted code and the labels of all statements are proved over every path
  (`Emission`, `EmissionShapes`, `EmissionDepth`, `EmissionStatements`, `EmissionPaths`, `EmissionLabels`, `EmissionTargets`,
  `EmissionJumps`, and the generator itself in `EmissionCode`). Running the code of a function body does the work that structured
  execution demands and ends where it ends, loops, switches, break, continue and goto included (`Flow`, `FlowMachine`,
  `FlowExpressions`, `FlowDispatch`, `FlowStatements`, `FlowTheorem`). Frame slots are proved complete, disjoint and inside
  the frame (`Frame`, `FrameSound`, `FrameSlots`).
- **Peephole pass** (`src/peephole.c`). The in-place engine refines a pure rewriter (`Peephole`); the six
  rewrites preserve the runs of programs with labels and jumps (`PeepholeRules`, `PeepholeCorrect`,
  `PeepholeWindows`, `PeepholeTheorem`, `PeepholeFaults`, `PeepholeLimits`, `PeepholeEquations`); and the line matchers recognise exactly the
  lines that those instructions print as (`AsmText`, `PeepholeText`).
- **Optimiser** (`src/optimize.c`, `src/ast.c`). Expression folding, statement rewriting and constant
  propagation preserve meaning and leave nothing undone (`Optimizer`, `OptimizerCorrect`, `OptimizerLimits`, `OptimizerNormal`,
  `Statements`, `StatementsOk`, `StoreRelation`, `StatementsCorrect`, `StatementsTheorem`, `StatementsMain`,
  `StatementsLimits`, `StatementsNormal`, `ConstTable` over `Stores`). The same optimiser is modelled as it runs, by rearranging
  and freeing heap nodes, and shown to compute those functions and to conserve ownership (`AstHeap`,
  `AstSurgery`, `AstOptimize`, `AstOptimizeCode`, `AstStatements`, `AstStatementsCode`).
- **Preprocessor** (`src/preprocessor.c`, with the string decoder of `src/lexer.c`). Conditional
  compilation (`Conditionals`, `ConditionalsCorrect`, `ConditionalsBalance`), the `#if` evaluator
  (`CondExpr`, `CondExprCorrect`, `CondExprPrint`), compared with C's own value of the same text (`CondExprLimits`,
  `CondExprStandard`), macro expansion (`MacroExpand`, `MacroTokens`, `MacroTheorem`),
  the three together (`IfLines`), stringification (`Stringify`, `StringifyTheorem`, `StringifyQuotes`) and the decoding of
  string literals (`LexerTheorem`).

Several promises hold only on part of the domain. Where the code breaks one, the model keeps the code as it
is, a lemma gives the failing input, and the condition under which the promise holds is proved, as an
if-and-only-if where the table says so.

## Model

| member | source | states |
|---|---|---|
| `ExprTheorem.GenCorrect` | src/codegen.c:4403-5050 | Running the code of any expression over int and long (literals, locals, unary - + ~ !, all binary operators, && and \|\|, assignment) from any state that represents the variables ends with the C value in eax or rax, rsp and the other registers restored, and only the assigned slots and memory below rsp changed; a trapping division faults |
| `ExprLabels.GenLabels` | src/codegen.c:4403-4470 | The labels of the code are pairwise distinct, numbered from the generator's counter, and every jump goes to one of them |
| `ExprLabels.StandsAlone` | src/codegen.c:4724-5050 | The code of an expression is correct as a program of its own: no surrounding code is needed for its jumps |
| `ExprLabels.NarrowAssignment` | src/codegen.c:3094-3113 | The value of an assignment to a char or short local is the stored value if and only if the low 32 bits of the assigned value, read as an int, fit the local |
| `ExprLabels.NarrowAssignmentExample` | src/codegen.c:3094-3113 | Running the code of `c = 300` for a char c stores 44 and leaves 300 in eax |
| `Codegen.CodegenFindVar` | src/codegen.c:702-710 | The backward scan finds the local that the theorems speak of |
| `ExprScopes.FindVarExact` | src/codegen.c:702-710 | A local is found if and only if it has the name and none declared after it has |
| `ExprScopes.ShadowRead` | src/codegen.c:702-710 | Whatever is declared before it, running the code of the newest local's name loads the value in that local's slot |
| `ExprScopes.ShadowAssign` | src/codegen.c:3094-3113 | Running an assignment to the name stores into the newest local and leaves every older local of that name as it was |
| `ExprMeaning.EvalExact` | src/codegen.c:4724-5050 | Where every operation's exact integer result fits the size of its type, the C value is that integer, computed without types or wrap-around, and the variables change as assigned |
| `WordLaws.BitLaw` | src/optimize.c:170-172 | Bit i of and, or and xor of two words is the boolean and, or and inequality of their bits i |
| `WordLaws.BitSums` | src/optimize.c:170-172 | or plus and is the sum of the words, and xor plus twice and is too |
| `ExprPeephole.GenAdmissible` | src/codegen.c:4403-5050 | The code of every expression meets all side conditions of the peephole pass, from every state: flags are dead at each zeroed mov, no reload or self-move fires, overwritten stores have equal widths, labels fit the parser |
| `ExprPeephole.RewrittenCorrect` | src/peephole.c:554-613 | If C defines a value for an expression, the rewritten code stops with that value, the variables updated, and rsp, the callee-saved registers and all other memory unchanged |
| `ExprPeephole.RewrittenTraps` | src/peephole.c:554-613 | If a division of the expression traps, the rewritten code faults |
| `Instances.SumRuns` | src/peephole.c:554-613 | The rewritten code of 1 + 2 stops with 3 in eax |
| `Codegen.CodeGen.Expression` | src/codegen.c:2520-2534 | The emitting method appends exactly the code, takes exactly the label numbers and reports exactly the type that the theorem is about |
| `Codegen.CodeGen.BinaryExpression` | src/codegen.c:4724-5050 | The same for left operand, push, right operand, pop and operate |
| `Codegen.CodeGen.ShortCircuit` | src/codegen.c:4403-4470 | The same for && and \|\| with their fresh labels |
| `CodegenCorrect.OperateCorrect` | src/codegen.c:4724-5050 | After the operands are in rcx and rax, the instruction sequence of each operator leaves its C value or faults exactly where C traps |
| `CodegenCorrect.ShiftCorrect` | src/codegen.c:4724-5050 | Shifts leave the C value for every count below the width, whatever the type of the count |
| `CodegenCorrect.UnaryCorrect` | src/codegen.c:3618-3700 | Unary operators leave their C value |
| `Peephole.Listing.Apply` | src/peephole.c:554-613 | The in-place loop leaves exactly the lines of the left-to-right first-match rewriter without rescan, for any table with windows of at least one line and outputs of at most four |
| `Peephole.RewriteMirrored` | src/peephole.c:554-613 | Rewriting commutes with any translation of lines under which two tables correspond |
| `PeepholeTheorem.PassCorrect` | src/peephole.c:126-511 | Each step of the rewritten program is matched by steps of the original on registers, rsp and memory at or above rsp, at every jump and label |
| `PeepholeTheorem.PassPreservesResults` | src/peephole.c:126-511 | Programs with unique labels that meet the side conditions finish with the same results before and after the pass, in both directions, and gain no fault |
| `PeepholeFaults.FaultsExact` | src/peephole.c:126-511 | If no push that the pass removes overflows the stack, the rewritten program faults if and only if the original does |
| `PeepholeTheorem.NoNewFaults` | src/peephole.c:126-511 | If the original never faults, no number of steps of the rewritten program faults |
| `PeepholeTheorem.ResultKept` | src/peephole.c:126-511 | A result of the original is a result of the rewritten program within the same number of steps |
| `PeepholeTheorem.ResultFound` | src/peephole.c:126-511 | A result of the rewritten program is a result of the original |
| `PeepholeWindows.SelfMoveEffect` | src/peephole.c:196-240 | A self-move does nothing if and only if it is not a 32-bit move over a non-zero upper half |
| `PeepholeWindows.ReloadEffect` | src/peephole.c:295-420 | A reload after its store does nothing if and only if it is not a 32-bit reload over a non-zero upper half |
| `PeepholeWindows.CollapseEffects` | src/peephole.c:242-295 | push and pop together move the register and leave memory at or above rsp as it was |
| `PeepholeWindows.OverwriteEffects` | src/peephole.c:483-511 | A store followed by one at least as wide to the same slot leaves only the second |
| `PeepholeWindows.ZeroEffects` | src/peephole.c:126-195 | Zeroing by xor differs from mov 0 in the flags only |
| `PeepholeLimits.StoreDeletable` | src/peephole.c:483-511 | A store is dead before the next one to its slot if and only if it is no wider |
| `PeepholeLimits.JumpDeletable` | src/peephole.c:422-482 | A matched jump goes to the next line if and only if its label has at most 63 characters |
| `PeepholeLimits.LongLabelLost` | src/peephole.c:422-482 | Two labels that agree on 63 characters: the deleted jump went elsewhere |
| `PeepholeLimits.LiveFlagsLost` | src/peephole.c:126-195 | With live flags the zero idiom changes the outcome of a following sete |
| `PeepholeText.FindZeroReg` | src/peephole.c:126-165 | The scan finds the table entry whose zeroing line it is, and none otherwise |
| `PeepholeText.TablesMirror` | src/peephole.c:518-552 | On printed instructions every line pattern matches and replaces exactly as the instruction pattern does |
| `PeepholeText.TextPassCorrect` | src/peephole.c:518-613 | The pass over text is the pass over instructions, printed |
| `PeepholeEquations.UnchangedExact` | src/peephole.c:126-511 | The pass leaves code as it is if and only if no zeroed register, self-move, push before pop, reload or store after a store to its slot, or jump to the next line stands in it |
| `PeepholeEquations.ListingRewritten` | src/peephole.c:518-613 | A listing with all six patterns is rewritten, line by line of text, as the source documents |
| `AsmText.NameInjective` | src/peephole.c:126-142 | Register names of all widths are distinct |
| `AsmText.Scan` | src/peephole.c:250-272 | The pointer loops of the parsers stop at the first character that fails the test |
| `CallLayout.ComputeCallLayout` | src/codegen.c:131-210 | The loop over counters computes the layout function for every argument list and rejects those beyond the fixed table |
| `CallLayout.LayoutSound` | src/codegen.c:131-210 | General registers within the six (from the second under a hidden pointer), xmm registers within the eight, stack intervals aligned and inside the area, and all places pairwise disjoint |
| `CallOrder.EachInTurn` | src/codegen.c:131-210 | Every argument of every list stands where the ABI puts it after the earlier ones: the next register of its kind while there is one, an aggregate of at most 16 bytes as a whole, else the next words of the stack |
| `CallOrder.AreaExact` | src/codegen.c:166-210 | The outgoing area is as large as the words of the arguments in it |
| `CallOrder.MixedCall` | src/codegen.c:131-210 | The places of a call that mixes integers, a double and structs of 12, 16 and 24 bytes, with a hidden return pointer |
| `CallLayout.StackOnlyWhenFull` | src/codegen.c:131-210 | An argument goes to the stack if and only if its class requires memory or its registers have run out |
| `CallLayout.CalleeAgrees` | src/codegen.c:6817-6931 | The callee's layout of its parameters is the caller's, whatever extra arguments follow |
| `CallLayout.SpillsSound` | src/codegen.c:3985-4073 | At most 14 words are spilled, each for its own register |
| `CallLayout.Reload` | src/codegen.c:4052-4073 | Reloading from the spill area gives each register the word pushed for it |
| `CallLayout.PassInRegisters` | src/codegen.c:3985-4073 | Evaluating, spilling and reloading delivers every register argument and the hidden pointer |
| `CallLayout.PassOnStack` | src/codegen.c:3951-3984 | Every memory argument of known size lies at its offset in the outgoing area |
| `CallLayout.UnsizedExact` | src/codegen.c:166-210 | For a struct argument of unknown size no bytes are reserved: the bytes copied for all stack arguments are disjoint and inside the area if and only if none of those structs has bytes to copy |
| `CallLayout.PassIntegers` | src/codegen.c:4106-4164 | The push and pop protocol for plain arguments, six or fewer and more than six, delivers the same places |
| `CallLayout.IntegerPlace` | src/codegen.c:4106-4164 | That protocol uses the places the layout gives to integer arguments |
| `VarArgs.SaveRegisters` | src/codegen.c:6643-6678 | The prologue stores all argument registers in the save area and touches nothing above the frame pointer |
| `VarArgs.VaList.Start` | src/codegen.c:5126-5152 | va_start sets the four fields as computed from the named parameters |
| `VarArgs.VaList.Arg` | src/codegen.c:5178-5360 | va_arg returns the address and the new fields of the fetch function for every class |
| `VarArgs.VaList.CopyFrom` | src/codegen.c:5157-5177 | va_copy makes an equal list |
| `VarArgs.StartExact` | src/codegen.c:5126-5152 | After va_start the list points at the first extra argument if and only if there is no hidden return pointer, at most 8 named floating parameters, and no named aggregate beyond 8 bytes |
| `VarArgs.VaArgExact` | src/codegen.c:5178-5360 | Every va_arg of every list of extras reads where the caller put the argument if and only if that condition holds |
| `VarArgs.VaArgBytes` | src/codegen.c:5178-5360 | The i-th matching va_arg finds exactly the bytes of the i-th extra argument, across save area and overflow area |
| `VarArgs.VariadicCall` | src/codegen.c:3935-4100 | The whole protocol with laid-out arguments, caller placing, callee saving and va_arg reading, returns the values passed |
| `VarArgs.IntegerCall` | src/codegen.c:4106-4164 | The same with the push and pop protocol, for any number of integer and pointer arguments |
| `Optimizer.ConstPropLookup` | src/optimize.c:71-78 | The backward scan finds the most recent entry |
| `Optimizer.ShiftCount` | src/optimize.c:405-412 | The halving loop computes the exact logarithm |
| `OptimizerCorrect.PowerFound` | src/optimize.c:396-412 | v & (v - 1) == 0 with v > 1 holds if and only if v is the power of two given by the shift count |
| `OptimizerCorrect.CastExact` | src/optimize.c:82-104 | A cast is folded if and only if the conversion keeps the value |
| `OptimizerCorrect.EvalSettled` | src/optimize.c:136-577 | Evaluation stays within long and leaves recorded constants alone |
| `OptimizerCorrect.OptimizeCorrect` | src/optimize.c:136-593 | In every store with which the const table agrees, an expression that has a value has the same value and the same effects after folding, provided no dropped operand assigns |
| `OptimizerCorrect.PureDropsOnlyPure` | src/optimize.c:366-383 | For expressions without assignments that proviso always holds |
| `OptimizerCorrect.DroppedAssignment` | src/optimize.c:366-383 | (x = 5) * 0 loses its assignment |
| `OptimizerCorrect.VanishExact` | src/optimize.c:366-383 | A rule that throws both operands away keeps the meaning if and only if evaluating them changes no variable |
| `OptimizerLimits.CrashExact` | src/optimize.c:162-169 | For every expression and table, folding crashes the compiler if and only if some division or remainder in it, evaluated or not, has operands that fold to LONG_MIN and -1 |
| `OptimizerLimits.CrashWithValue` | src/optimize.c:162-169 | An expression without assignments that has a value crashes the compiler only through such divisions that C does not evaluate |
| `OptimizerLimits.CrashOnlyIfTrap` | src/optimize.c:162-169 | Folding crashes the compiler on an expression that evaluates all its operands only if that expression traps |
| `OptimizerLimits.CrashWithoutTrap` | src/optimize.c:162-169 | 0 && (LONG_MIN / -1) has the value 0 and still crashes the compiler |
| `OptimizerNormal.FixedExact` | src/optimize.c:136-596 | Folding returns an expression as it is if and only if no rule applies anywhere in it (no operator on literals but division by zero, no identity, zero or power-of-two operand, no decided condition, no cast that keeps a literal, no recorded name), and folding twice is folding once |
| `OptimizerNormal.KnownFolds` | src/optimize.c:136-593 | An expression over literals and recorded constants that has a value, and whose evaluated casts keep theirs, is folded to that value |
| `OptimizerNormal.ConvertExact` | src/optimize.c:82-104 | The conversion against which casts are judged lies in the type, keeps the values of the type, and differs from its operand by a multiple of the number of values |
| `StatementsMain.StmtCorrect` | src/optimize.c:608-775 | For every bound on iterations a statement and its optimised form have the same outcome (normal, break, continue, return value) in corresponding stores, loops, switch entry at any label and fall-through included |
| `StatementsMain.SeqCorrect` | src/optimize.c:614-640 | The same for a block, whose unreachable siblings are gone |
| `StatementsNormal.OptFinal` | src/optimize.c:608-775 | The optimised statement has no if with a literal condition, no while or for whose condition is zero, no sibling behind a return, break or continue but a label, and no expression to which a rule applies |
| `StatementsNormal.ConstReaches` | src/optimize.c:579-593 | const x = e; return f; with e known and x the only name in f becomes a return of the literal value of f |
| `StatementsNormal.CapacityExact` | src/optimize.c:729-746 | A declaration is recorded if and only if it is const, its initialiser folds to a literal, and fewer than 64 are recorded |
| `StatementsLimits.FunctionCorrect` | src/optimize.c:608-775 | An optimised function body returns the same value and leaves parameters and globals the same |
| `StatementsTheorem.EntryOpt` | src/optimize.c:713-763 | Every case label is reached after optimisation with the same code after it and a right const table |
| `StatementsTheorem.MergeRel` | src/optimize.c:687-711 | The declarations that a removed for loop leaves behind hide nothing, if they are new names |
| `StatementsLimits.ShadowedConst` | src/optimize.c:579-593 | A variable that shadows a recorded const is replaced by the const |
| `StatementsLimits.LeakedInit` | src/optimize.c:687-711 | The init of a loop that never runs is left behind and hides an outer variable |
| `StatementsLimits.UnfittingConst` | src/optimize.c:729-746 | A const char initialised with 300 is propagated as 300 |
| `StatementsLimits.RemovedDeclaration` | src/optimize.c:614-640 | A declaration removed as unreachable is missing where a case jumps past it |
| `ConstTable.FunctionTableRight` | src/optimize.c:43-78 | At every expression evaluated in any execution of a function, each name in the table is in scope and its value, once it has one, is the recorded literal |
| `ConstTable.TraceRight` | src/optimize.c:614-746 | The same for every statement, across nested blocks, loops and switch entries |
| `StatementsCorrect.RecordedDeclCorrect` | src/optimize.c:729-746 | A const whose literal fits its type has the recorded value at run time |
| `StatementsCorrect.RecordedExact` | src/optimize.c:729-746 | The run-time value of a recorded const is the recorded one if and only if it fits the declared type |
| `AstHeap.Heap.Free` | src/ast.c:61-68 | ast_free takes away exactly the nodes of the tree, each once, and no other |
| `AstHeap.Heap.New` | src/ast.c:6-15 | ast_new adds one node at an address not in use |
| `AstHeap.Heap.AddChild` | src/ast.c:17-30 | ast_add_child appends one child slot and changes nothing else |
| `AstSurgery.KeepKid` | src/optimize.c:343-364 | Detaching a child and freeing its parent leaves the child's tree, without double free or leak |
| `AstSurgery.MoveRight` | src/optimize.c:426-437 | Moving the right operand left, with the pointer shared for a moment, frees only the left operand |
| `AstSurgery.KeepGrandkid` | src/optimize.c:265-321 | Removing a double negation frees both operators and keeps the operand |
| `AstSurgery.DropKids` | src/optimize.c:614-640 | Freeing unreachable siblings and closing the gap keeps exactly the others |
| `AstSurgery.Conserved` | src/optimize.c:136-775 | A node of the old tree or made since is reachable exactly once or gone, nothing gone is reachable, every other node is unchanged |
| `AstOptimizeCode.OptimizeExpr` | src/optimize.c:136-596 | The recursion over heap nodes returns a tree, owned without sharing, that means the folded expression, and conserves ownership |
| `AstOptimizeCode.SimplifyNode` | src/optimize.c:136-596 | The rules at one node, on nodes as they lie in memory, agree with the pure rules and conserve ownership |
| `Instances.FoldsOnHeap` | src/optimize.c:136-596 | Building 2 + 3 on the heap and optimising it leaves exactly one node, the literal 5 |
| `AstStatementsCode.OptimizeStmt` | src/optimize.c:608-775 | The same for statements, with the const table it leaves |
| `AstStatementsCode.BlockNode` | src/optimize.c:614-640 | The same for the block loop with its changing child count |
| `ConditionalsCorrect.BalancedCorrect` | src/preprocessor.c:1331-1640 | For every tree of groups nested at most 64 deep the streaming stack emits the text, ends with the macro table, and evaluates the conditions of the recursive meaning, in that order and no others |
| `ConditionalsBalance.AcceptsExactly` | src/preprocessor.c:1331-1640 | It accepts a line sequence if and only if that is such a tree whose meaning is defined |
| `IfLines.GroupEmits` | src/preprocessor.c:1391-1634 | A group of #if, #ifdef or #ifndef with any number of #elif branches and an #else emits exactly the lines of the first branch whose test holds, else those of #else |
| `IfLines.IfdefEmits` | src/preprocessor.c:1391-1433 | For every table, #ifdef x emits its lines if x is in the table, else those of #else |
| `IfLines.IfndefEmits` | src/preprocessor.c:1391-1433 | #ifndef the other way round |
| `ConditionalsCorrect.RunTail` | src/preprocessor.c:1481-1635 | From any sane state the rest of a group takes the first true branch, else #else, and skips everything after a taken branch |
| `Conditionals.Preprocessor.Run` | src/preprocessor.c:1331-1640 | The loop with its fixed array of 64 frames computes the step function and reports a missing #endif |
| `Conditionals.Preprocessor.OpenGroup` | src/preprocessor.c:1391-1479 | #if, #ifdef and #ifndef push a frame or fail, and evaluate a condition only when active |
| `Conditionals.Preprocessor.NextBranch` | src/preprocessor.c:1481-1599 | #elif, #elifdef and #elifndef evaluate only while no branch of an active group is taken |
| `Conditionals.Preprocessor.ElseBranch` | src/preprocessor.c:1601-1620 | #else switches the frame, once |
| `Conditionals.Preprocessor.CloseGroup` | src/preprocessor.c:1622-1634 | #endif pops the frame and restores the state around it |
| `CondExprCorrect.TernaryCorrect` | src/preprocessor.c:852-1244 | For every well-formed text, with any blanks and parentheses, the evaluator returns the strict value of the expression and consumes exactly the text and the blanks after it; it is a fatal error if and only if the first operation without a value, in the strict order, is fatal |
| `CondExprCorrect.LevelCorrect` | src/preprocessor.c:972-1217 | Each of the ten precedence levels parses its operands left to right and hands over to its loop |
| `CondExprPrint.PrintEval` | src/preprocessor.c:852-1244 | Evaluating the minimally parenthesised print of any tree gives the tree's value and consumes the print |
| `CondExprPrint.ConditionCorrect` | src/preprocessor.c:1439-1479 | An #if line holds exactly when its expression has a non-zero strict value, and is a fatal error exactly when its strict value is |
| `CondExprStandard.PrecedenceExact` | src/preprocessor.c:972-1217 | The levels at which the evaluator reads its eighteen binary operators are those of C's table |
| `CondExprStandard.NumberPositional` | src/preprocessor.c:886-903 | The digits of a literal are read positionally, in base ten or sixteen |
| `CondExprLimits.LeadingZeroExact` | src/preprocessor.c:886-903 | A literal with a leading zero gets its octal C value if and only if all its digits but the last are zero, whatever suffix and blanks follow |
| `CondExprLimits.OctalExact` | src/preprocessor.c:886-903 | As decimal, octal digits are never worth less than in C, and the same if and only if the number is below 8 |
| `CondExprLimits.OctalIsDecimal` | src/preprocessor.c:886-903 | 010 is ten, where C makes it eight |
| `CondExprStandard.ConditionExact` | src/preprocessor.c:1180-1244 | C's value has octal literals, uintmax_t, names worth 0 and operands left unevaluated. For every condition of plain literals and of names that read 0, and that C defines, the evaluator agrees with C if and only if each operand that C leaves out has a value; otherwise it has no value at all |
| `CondExprStandard.AgreementExact` | src/preprocessor.c:845-1244 | For every table, set of literals and set of names: all conditions over them agree with C, the operands left out having values, if and only if each literal C accepts has no u, no digit but the last after a leading zero and no value beyond long, and each name is no macro or its replacement starts with zero |
| `CondExprStandard.NamesExact` | src/preprocessor.c:905-927 | The same for names alone, among plain literals |
| `CondExprStandard.NameZeroExact` | src/preprocessor.c:905-927 | A name is read as 0 if and only if it is no object-like macro or its replacement starts with an integer that is all zeros |
| `CondExprStandard.OctalEquals` | src/preprocessor.c:886-903 | 010 == 8 is 1 in C and 0 here |
| `CondExprStandard.UnsignedWraps` | src/preprocessor.c:886-903 | 0u - 1 > 0 is 1 in C and 0 here |
| `CondExprStandard.UnusedDivision` | src/preprocessor.c:1180-1197 | 0 && 1 / 0 is a fatal error, where C defines it as 0 |
| `IfLines.EvaluateIf` | src/preprocessor.c:1447-1479 | Expanding the macros of a condition, evaluating the result and checking for extra tokens gives the value of the condition, with every disabled flag as before |
| `IfLines.IfCorrect` | src/preprocessor.c:1447-1479 | A condition that expands to an expression has its strict value; when its literals are plain and the macro names left in it read 0, that is C's value if and only if the operands that C leaves out have values |
| `IfLines.SelfReference` | src/preprocessor.c:905-927 | With A defined as 1-A the condition A is 1 in C and 0 here |
| `IfLines.RealAccepts` | src/preprocessor.c:1331-1640 | With these conditions the preprocessor accepts exactly the balanced inputs whose meaning is defined, and every condition evaluated on the way had a value |
| `CondExpr.EvalUnary` | src/preprocessor.c:945-968 | Collecting the operators and applying them from the right is the recursive meaning |
| `CondExpr.EvalPrimary` | src/preprocessor.c:852-942 | defined, literals with suffixes, identifiers and parentheses |
| `CondExpr.EvalLevel` | src/preprocessor.c:972-1217 | The loop of a level computes the level function and terminates |
| `CondExpr.EvalTernary` | src/preprocessor.c:1221-1244 | The same for ?: |
| `MacroExpand.ExpandMacrosText` | src/preprocessor.c:625-687 | For every table, mutually recursive ones included, expansion terminates, restores every disabled flag, and is the expansion in which no name is replaced inside its own expansion |
| `MacroExpand.ExpandName` | src/preprocessor.c:676-690 | The same for one identifier, with the flag set around the recursion |
| `MacroExpand.MacroFind` | src/preprocessor.c:131-138 | The scan finds the definition of a name if and only if there is one |
| `MacroExpand.TokensJoin` | src/preprocessor.c:625-670 | Splitting into names and copied text loses no character |
| `MacroTokens.PiecesBack` | src/preprocessor.c:625-690 | Scanning a line written as literals, identifiers, other characters and defined with its operand gives back exactly these pieces, and only the identifiers may be macros |
| `MacroTokens.LiteralVerbatim` | src/preprocessor.c:634-655 | For every table, a string or character literal where scanning has arrived comes out as it is |
| `MacroTokens.ExpandIsSubstitution` | src/preprocessor.c:676-690 | For every table without cycles expansion is plain repeated substitution |
| `MacroTokens.SelfStays` | src/preprocessor.c:679-687 | A macro that names itself is replaced once |
| `MacroTokens.SiteNames` | src/preprocessor.c:656-677 | __LINE__ gives the line in decimal and __FILE__ the quoted name, whatever the table says |
| `MacroTheorem.OrderIrrelevant` | src/preprocessor.c:679-687 | Whatever the order in which names are replaced, if none is left the result is the full expansion, after exactly as many replacements |
| `MacroTheorem.Finite` | src/preprocessor.c:679-687 | Every sequence of replacements is finite, and all have the same end |
| `MacroTheorem.Reached` | src/preprocessor.c:679-687 | The full expansion is reached by replacements and nothing in it can be replaced |
| `MacroTheorem.ExpansionUnique` | src/preprocessor.c:2191-2201 | The returned text is the end of every complete sequence of replacements |
| `StringifyTheorem.RoundTrip` | src/preprocessor.c:481-520 | Lexing the literal made by # gives the argument with runs of blanks collapsed and its ends trimmed, whatever quotes and backslashes it holds, if and only if the argument has no newline or NUL |
| `StringifyTheorem.RoundTripWords` | src/lexer.c:285-366 | The same for an argument given as words and blanks |
| `StringifyTheorem.HasLayout` | src/preprocessor.c:481-520 | Every argument is such words and blanks |
| `LexerTheorem.PrintLex` | src/lexer.c:285-366 | Any bytes, each printed as itself, by a letter escape, by three octal digits or by two hexadecimal ones of either case, lex back to exactly those bytes |
| `LexerTheorem.EscapeRejected` | src/lexer.c:285-366 | Any other character after a backslash is an error |
| `StringifyQuotes.LiteralExact` | src/preprocessor.c:481-520 | # makes the very literal that section 6.10.3.2 of ISO/IEC 9899:1999 makes if and only if every run of blanks inside the argument's string literals and character constants is one space and does not end it, and no backslash stands outside them |
| `StringifyQuotes.QuotedBlanksExact` | src/preprocessor.c:481-520 | Reading the literal gives the spelling of the argument with those blanks kept if and only if the first of these two holds |
| `StringifyQuotes.BareBackslash` | src/preprocessor.c:481-520 | A backslash and an n outside a literal read as a newline in C and as two characters here |
| `StringifyQuotes.LiteralBlanksLost` | src/preprocessor.c:481-520 | Two blanks inside a string literal of the argument become one, where C keeps both |
| `Stringify.StringifyArg` | src/preprocessor.c:481-520 | The loop with its two flags makes the escaped, collapsed and trimmed text |
| `Stringify.Lexer.StringLiteral` | src/lexer.c:285-366 | The decoding loop computes the decoder, hexadecimal and octal escapes and the three errors included |
| `EmissionPaths.FunctionAligned` | src/codegen.c:3941-3949 | On every path through the code of a function in which no continue leaves a switch and no goto changes the switch depth, rsp is where push_depth puts it at every instruction, a multiple of 16 at every call, and back at the frame at the end |
| `EmissionPaths.DepthExact` | src/codegen.c:6405-6465 | The depths of the emitted code are consistent if and only if no continue leaves a switch and every goto goes to a label at its own switch depth |
| `EmissionPaths.ContinueDrifts` | src/codegen.c:6405-6465 | A loop that continues from inside a switch reaches a call with rsp misaligned |
| `EmissionDepth.GoodExpression` | src/codegen.c:4106-4391 | Every expression, with direct and indirect calls of any number of register, stack and floating arguments, restores push_depth and calls at even depth |
| `EmissionDepth.OutgoingArea` | src/codegen.c:3941-3949 | A call with stack arguments is made at even depth with room for their bytes, and less than 16 more |
| `EmissionStatements.GoodStatement` | src/codegen.c:6276-6510 | Every statement restores push_depth; labels and jumps agree on their depth |
| `EmissionTargets.CollectExact` | src/codegen.c:662-692 | The pre-walk records exactly the sections of a switch, each once, none of a nested switch |
| `EmissionStatements.CollectNumbers` | src/codegen.c:662-692 | Their labels are consecutive fresh numbers, so pairwise distinct |
| `EmissionTargets.SwitchLookupLabel` | src/codegen.c:694-700 | The scan finds a label if and only if the node was recorded |
| `EmissionTargets.LookupAt` | src/codegen.c:694-700 | Every recorded node resolves to its own label |
| `EmissionJumps.StatementFacts` | src/codegen.c:6276-6510 | A statement defines each of its labels once, its sections get the labels of the pre-walk, and its jumps go to labels it defines or to the enclosing loop, switch or user label |
| `EmissionJumps.OneTarget` | src/codegen.c:6380-6484 | In a function every jump, every dispatch jump included, has exactly one target |
| `FlowTheorem.CodeExact` | src/codegen.c:6276-6510 | For every accepted function body and whatever values its expressions take: the code returns, or runs off its end, if and only if structured execution does, after exactly the same leaf expressions, operations and calls in the same order |
| `FlowTheorem.WholeRuns` | src/codegen.c:6276-6510 | From the start and from every label; where structured execution goes on beyond a number of iterations, so does the code |
| `FlowStatements.StmtRuns` | src/codegen.c:6276-6510 | The code of every statement, entered at its start, at a case or at a label, goes to its end or to the target of the break, continue, goto or return that structured execution ends with |
| `FlowDispatch.DispatchRuns` | src/codegen.c:6405-6442 | With the value of a switch pushed, compare and branch goes to the first case equal to it in the width of the expression, else to the last default, else to the end |
| `Flow.ChosenExact` | src/codegen.c:6405-6442 | With distinct values a section is entered if and only if its value is the one, or it is the default and no value is |
| `FlowExpressions.ExprRuns` | src/codegen.c:3935-4470 | The code of every expression evaluates the operands C evaluates, in source order, and calls after their arguments |
| `FlowTheorem.SwitchReturns` | src/codegen.c:6380-6465 | switch (x) { case 1: return a; } return b; returns after a if x is 1 and after b if not |
| `EmissionCode.CodeGen.Expression` | src/codegen.c:3935-4391 | The generator appends exactly the code those theorems are about and leaves push_depth as it was |
| `EmissionCode.CodeGen.Statement` | src/codegen.c:6276-6510 | The same for statements, with break_stack and switch_stack restored |
| `EmissionCode.CodeGen.SwitchStatement` | src/codegen.c:6380-6465 | The same for a switch with its pre-walk, dispatch and body |
| `EmissionCode.CodeGen.CollectSwitchLabels` | src/codegen.c:662-692 | The walk appends exactly the collected entries to the innermost context |
| `FrameSound.FrameSound` | src/codegen.c:6585-6608 | Saved registers, save area, struct-return temporaries, hidden pointer, parameters, literals and locals are pairwise disjoint, aligned, and inside the frame reserved beforehand, when every slot is affordable |
| `FrameSound.Amortised` | src/codegen.c:1639-1657 | stack_offset rounded up to 8 grows by at most the budget of each slot |
| `FrameSound.UsuallyAffordable` | src/codegen.c:1639-1657 | Scalars, arrays, statics and parameters are always affordable |
| `FrameSound.WideAffordable` | src/codegen.c:1639-1657 | So are structs and unions of 8-byte alignment |
| `FrameSound.AggregateExact` | src/codegen.c:1639-1657 | A struct type is safe if and only if its size rounded up to 8 is at most its size plus its alignment minus 1: otherwise sixteen of them, each followed by a long, run out of the frame |
| `FrameSlots.EverySlot` | src/codegen.c:727-747 | Every named parameter, compound literal and automatic variable of a function has a slot of its size and alignment, in the order of emission |
| `Frame.Allocator.AddVar` | src/codegen.c:727-747 | One slot is added below the others at the requested alignment |
| `Frame.Allocator.AddAll` | src/codegen.c:727-747 | The slots of a list of declarations are those the theorem is about |
| `Frame.BudgetIsTotal` | src/codegen.c:1639-1657 | The pre-walk budgets exactly the declarations met during emission |
| `FrameSound.TempsStacked` | src/codegen.c:1690-1755 | Struct-return temporaries stay inside the scratch area |

## Left out

- Parser, type constructors, global and static data, bit-fields, designated initialisers, file reading and writing, include search and the driver: they would add mostly easy members.
- Floating-point values: arguments are opaque eight-byte words; floating arithmetic is not modelled.
- Function-like macros, token pasting, `#define` and `#include`: what an active line other than a conditional does is a parameter of `Conditionals`; rescanning of function-like macros has no guard against recursion in the source.
- ast_clone: the optimiser does not call it.
- Allocation failure and exit(1) diagnostics: errors are outcomes; running out of memory is not modelled.
- ExprTheorem.GenCorrect: covers signed int and long; unsigned operators, pointers, ?:, ++ and -- are not in the expression language, and the code is assumed to have room for its pushes.
- PeepholeTheorem.PassPreservesResults: assumes dead flags at each zeroed mov, no deleted 32-bit move over a non-zero upper half and no deleted store wider than the kept one; each condition has its own if-and-only-if or counterexample in the table.
- OptimizerCorrect.OptimizeCorrect: values are of signed 64-bit type; folding of unsigned and mixed operands and of sizeof is not modelled.
- ExprPeephole.RewrittenCorrect: label numbers fit an int, as in the source; the code stands alone, PeepholeTheorem.PassPreservesResults speaks about whole programs.
- StatementsMain.StmtCorrect: assumes no goto, case sections directly in the block of their switch, no use of removed declarations, new names in the init of a loop that never runs, consts declared only as children of a block with fitting initialisers, and no declaration that shadows a recorded const without being recorded; the counterexamples in the table show the last four are needed.
- ConditionalsCorrect.BalancedCorrect: works on logical lines; splitting text into lines and comments that span lines are not modelled.
- CondExprCorrect.TernaryCorrect: a left shift of a negative number is given its arithmetic value where the result fits, which C leaves undefined.
- CondExprStandard.ConditionExact: character constants, which C allows in conditions and the evaluator rejects, are not expressions of the model; C's value of a shift of a negative number to the right is the arithmetic one.
- IfLines.IfCorrect: comments are stripped from the condition before; the table holds object-like macros only; C's value is that of the expression the expanded text spells, although C expands tokens, so that replacements which only meet in the text (L<1 with L defined as <) stay apart in C.
- EmissionPaths.FunctionAligned: a leaf expression and an operation are one instruction each; va_arg, which jumps only between labels of its own, and struct copies are not in the expression language.
- FlowTheorem.CodeExact: what an expression computes is ExprTheorem.GenCorrect's subject; here its value may be any function of the work done before. Case values are taken as they are, where the assembler cuts an immediate operand to 32 bits.
- MacroTokens.ExpandIsSubstitution: no macro of the table is named defined.
- LexerTheorem.PrintLex: a hexadecimal escape of other than two digits, and an octal one of fewer than three, are read by the decoder and not printed.
- FrameSound.FrameSound: rounding is by division where the source masks bits; the two agree on the alignments 1, 2, 4 and 8 that occur.
- AstOptimizeCode.OptimizeExpr: children are always present in expressions, and replacing a child frees the old leaf before allocating the new one, where the source does it the other way round.
- AstStatementsCode.OptimizeStmt: the value of a case label is part of its node, not a child.
