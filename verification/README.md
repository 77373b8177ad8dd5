# Ahorn, modelled and proved

Ahorn compiles programs in IEC 61131-3 Structured Text to labelled goto code, builds control-flow
graphs from it, rewrites these graphs in several passes, and executes them symbolically, cycle by
cycle, merging paths where they meet. Every stage has to keep the meaning of the program while it
updates maps, stacks and counters in place. This project models the stages and proves that they do:

| stage | files | main results |
|---|---|---|
| source and plan | `Ir`, `StructuredText`, `Plan`, `CaseExpression`, `Faithful`, `Deviations` | what the statements mean; which programs the compiler keeps the meaning of, and exactly when it does not |
| compiler | `GotoCode`, `PouCompiler`, `Simulation`, `Correctness`, `CopiedJumps` | backpatching emits code that computes what the source computes, in both directions |
| graphs | `Machines`, `Cfg`, `Builder`, `CallEdges`, `BasicBlocks`, `BlockShape`, `DecisionSplitting` | the graph follows the code, basic blocks and split decisions follow the graph, loops and calls included |
| stages joined | `Origins`, `Pipeline` | what one stage leaves behind is what the next one needs; source to blocks, source to cycles |
| three-address code | `Tac`, `TacShape` | flattening keeps values and runs, and everything in an instruction but its expression |
| SSA | `SsaTable`, `SsaNames`, `SsaLog`, `SsaBlocks`, `SsaPass`, `SsaMeaning`, `SsaShape` | reads are reaching definitions, the worklist fills every block once, the SSA form computes the same results |
| symbolic execution | `Symbolic`, `Execution`, `Merging`, `Merger`, `Exploration`, `Scheduling`, `Cycles`, `Engine` | merging is exact; a cycle ends in one context that describes exactly the runs of the cycle |
| coverage | `Coverage` | marking is exact, the counts grow with it, and test cases are bounded by the branches |
| machine words | `WrapInt` | the word arithmetic is exact on two's complement numbers, and exactly when it wraps |

`dafny verify dfyconfig.toml` checks the project.

**Numbers.** Values are unbounded integers; the numeric operators, negation, the external inputs and
the effect of a callee are functions in `Ir.Env` about which nothing is assumed, so the results hold
for wrapped integers too. A call is one opaque step on the state. `WrapInt` models one such
arithmetic by itself: words of 1 to 64 bits with their reduction, sign handling and conversions, and
what each operation means for the two's complement number that a word stands for.

**Sorts.** The symbolic encoder distinguishes boolean and integer expressions and reads one operand
of a sum twice when the left operand is boolean. This is modelled as it is: `Symbolic.BooleanSumFails`
encodes TRUE + FALSE as 0 and FALSE + TRUE as 2, and `Symbolic.BooleanSumExactly` says when the
encoding of such a sum has its value. The results about the engine are for well-sorted programs in
which no sum has a boolean left operand (`Execution.WellTyped`, a check on the text).

**How the compiler is proved.** `Plan` says in a small structured language what the compiler keeps of
a statement list; `GotoCode.CodedList` lays a plan out in labels. The class `PouCompiler` updates
the instruction map, the free label, the placeholder stack and the last-statement flag as the source
does, and every visit is proved to add exactly the layout of its plan. `Simulation` shows that a
layout runs as its plan, and `Faithful` that the plan of a well-formed body means what the source
means. Four families of programs are compiled to something else, and all are kept as the compiler has them:

- an IF or CASE without ELSE whose last emitted list ends in a loop: the jump of its last condition is
  copied from the last instruction, which is then the back edge of that loop; if the last ELSIF list
  has no code, the jump is that of the list before it;
- lists that are empty where the compiler expects code, whose conditions are dropped with them;
- nested lists that end in a statement without code: the jump of the statement before it goes to the
  next label, so the list falls into whatever is laid out behind it, and a loop over it is left after
  one iteration;
- an IF without ELSE whose THEN list has no code at all: its jump is copied from the instruction in
  front of the statement, so the code waits there for a condition that may never hold.

`Deviations.IfMeans` says for the first three what the code does: what the source does, followed by a
list of source statements (`Extra`) that run by mistake. From this follow the exact conditions
(`IfAgreesExactly`, `CaseAgreesExactly`, `TrailingLoopAgreesExactly`, `CopyAgreesExactly`,
`FallingLoopAgreesExactly`, `EmptyLoopAgreesExactly`), and every family has a smallest program whose
compiled form ends in a different state or not at all (`TrailingLoopFails`, `CopiedLoopFails`,
`CopiedFallFails`, `EmptyThenFails`, `EmptyElsifFails`, `OnlyElseFails`, `FallingThenFails`,
`FallingLoopFails`). `CopiedJumps` does the same for the fourth, on the labelled code.

**How SSA is proved.** `SsaTable.Resolve` follows phi operands back along a path, and
`SsaTable.LastDefinition` looks for the last definition on the path. The invariant of the tables says
that these agree for every recorded value; each change of the tables (placing a phi, appending an
operand, keeping or dropping a phi, copying a value, defining one) is a lemma on values, and the
class `SsaPass` is proved against them, down to the final graph. `SsaMeaning` then runs the SSA form,
with phis taking the operands of the edge that was taken, in lockstep with the original graph.

**How the engine is proved.** `Symbolic.World` is every definition ever made, in order. The live
contexts are a multiset with three properties: they exclude each other, under every model of all
definitions one of them is active, and an active one is where the program is, with the store it
describes. Executing and merging replace some contexts by others, and `Exploration.Replaced` keeps
the properties. `Scheduling` shows why a label is executed, and a merge point merged, at most once.
`Cycles` turns the last context of a cycle into the statement about runs.

**What runs do not see.** A run follows edges, so it does not show which labels an instruction names,
which vertices start a block, or where a call edge leads. `CallEdges`, `BlockShape`, `TacShape` and
`SsaShape`, the lemmas named `...Exactly` of `DecisionSplitting`, `Coverage` and `Merger`, say this in
terms of edges and instructions alone. One of them is a finding: two calls with the same return site,
as at the ends of the branches of an IF, have two return edges into it, and looking for the edge of a
call finds the first one (`CallEdges.OwnReturnExactly`), which basic blocks then copy.

**Where names matter.** Three-address code and SSA invent names. A program variable called `temp0`
would be overwritten (`Tac.TempClash`), and one called `const` followed by digits would be mistaken
for the variable of a constant; the results below require that no program variable has such a name.

## Model

| member | source | states |
|---|---|---|
| StructuredText.OneResult | ahorn/src/compiler/compiler.cpp:127-564 | the meaning of IF, ELSIF, ELSE, CASE, WHILE and invocations, defined without the compiler and compared with its output below, gives at most one final state, however many iterations are allowed |
| CaseExpression.CompileCaseExpression | ahorn/src/compiler/ast.cpp:1344-1371 | the expression grown in the loop is complete, and is true exactly when the selector equals a listed value |
| Plan.CaseConditionSelects | ahorn/src/compiler/ast.cpp:1344-1371 | the lowered condition of a CASE arm holds exactly when the arm is selected |
| PouCompiler.PouCompiler.VisitAssignment | ahorn/src/compiler/compiler.cpp:127-142 | an assignment and the goto behind it are added, to the next label or, for the last statement, to the placeholder on top of the stack |
| PouCompiler.PouCompiler.BackPatch | ahorn/src/compiler/compiler.cpp:276-308 | scanning the map replaces the placeholder in every goto, IF, WHILE and call, and changes nothing else |
| PouCompiler.PouCompiler.VisitIf | ahorn/src/compiler/compiler.cpp:148-312 | an IF with any ELSIFs and ELSE adds exactly the layout of its plan behind the code so far and leaves the placeholder stack as it was |
| PouCompiler.PouCompiler.VisitElseIf | ahorn/src/compiler/compiler.cpp:201-264 | an ELSIF becomes the next arm of the nested selection, and the branch before it jumps to it |
| PouCompiler.PouCompiler.LastJumpTarget | ahorn/src/compiler/compiler.cpp:186-231 | the target copied from the last instruction is where the list emitted last would go on |
| PouCompiler.PouCompiler.VisitLastArm | ahorn/src/compiler/compiler.cpp:179-239 | the last condition without ELSE behind it leads, when it is false, where its list goes on, or, if this list has no code, where the list before it does |
| PouCompiler.PouCompiler.VisitCase | ahorn/src/compiler/compiler.cpp:540-564 | a CASE is laid out like the IF it is lowered to |
| PouCompiler.PouCompiler.VisitWhile | ahorn/src/compiler/compiler.cpp:476-538 | a loop adds its header, its body continuing at the header, and the exit of the header at the next statement; its placeholder is gone |
| PouCompiler.PouCompiler.VisitInvocation | ahorn/src/compiler/compiler.cpp:319-462 | bindings before the call, the call of a known entry, bindings after it |
| PouCompiler.PouCompiler.Visit | ahorn/src/compiler/compiler.cpp:123-564 | every statement adds exactly the layout of its plan, continues where the flag for the last statement says, and leaves the stack as it was |
| PouCompiler.PouCompiler.CompilePou | ahorn/src/compiler/compiler.cpp:68-121 | callees first; the module is laid out between a fresh entry and a fresh exit, behind its callees, and modules stay apart |
| PouCompiler.PouCompiler.CompileProject | ahorn/src/compiler/compiler.cpp:59-66 | all units get modules in disjoint label intervals, callees entirely below callers, and earlier modules stay as they are |
| GotoCode.CodedPatch | ahorn/src/compiler/compiler.cpp:276-308 | patching a placeholder turns code that continues at it into code that continues at the patched label, and leaves every other layout alone |
| GotoCode.LastJump | ahorn/src/compiler/compiler.cpp:186-200 | the instruction emitted last jumps where the plan of the last branch goes on |
| GotoCode.CodedListClosed | ahorn/src/compiler/compiler.cpp:484-533 | every jump of a layout leads to an instruction of it that is no goto, or to its continuation |
| GotoCode.ArmsNest | ahorn/src/compiler/compiler.cpp:201-272 | arms laid out one behind the other, followed by the ELSE list, are the code of the nested IF |
| Simulation.CodeMatchesPlan | ahorn/src/compiler/compiler.cpp:148-312 | a layout, run from its first label, reaches its continuation with a state iff the plan terminates with it |
| Simulation.HaltsRun | ahorn/src/compiler/compiler.cpp:148-312 | a run of the code that halts has passed the continuation of each statement with the state that its plan computes |
| Faithful.StatementEffect | ahorn/src/compiler/compiler.cpp:123-564 | the plan of a well-formed statement does what the statement means |
| Faithful.ListEffect | ahorn/src/compiler/compiler.cpp:123-564 | the same for lists |
| Plan.LoweredMeans | ahorn/src/compiler/compiler.cpp:540-564 | the IF that a CASE is lowered to means what the CASE means |
| Deviations.IfMeans | ahorn/src/compiler/compiler.cpp:148-312 | for every IF over well-formed lists, empty, looping or falling ones included, the plan does what the source does and then runs the statements of `Extra` |
| Deviations.IfAgreesExactly | ahorn/src/compiler/compiler.cpp:148-312 | hence the plan means what the source means iff these statements change nothing in the state where the source ends |
| Deviations.CaseAgreesExactly | ahorn/src/compiler/compiler.cpp:540-564 | the same for CASE |
| Deviations.FaithfulHasNoExtra | ahorn/src/compiler/compiler.cpp:148-312 | a selection with the syntactic shape that `WellFormed` demands has no such statements, in any state |
| Deviations.TrailingLoopsDecide | ahorn/src/compiler/compiler.cpp:186-231 | for the loops that a list ends in: the meaning is kept if the condition of the IF holds or no loop condition does, and without the former only if the last loop condition does not hold |
| Deviations.TrailingLoopsRun | ahorn/src/compiler/compiler.cpp:186-231 | what such an IF does instead: when its condition is false, it runs the loops at the end of its list |
| Deviations.TrailingLoopAgreesExactly | ahorn/src/compiler/compiler.cpp:186-231 | an IF without ELSE whose list ends in one loop keeps its meaning iff its condition holds or the condition of the loop does not |
| Deviations.CopyAgreesExactly | ahorn/src/compiler/compiler.cpp:223-231 | behind a THEN list, an ELSIF without code at the end: where the IF condition fails, the meaning is kept iff the ELSIF condition holds or the THEN list does not fall and its trailing loop, if it has one, would not start |
| Deviations.CopiedLoopFails | ahorn/src/compiler/compiler.cpp:223-231 | a program whose compiled form runs the loop of its THEN list although neither condition holds, with both final states |
| Deviations.CopiedFallFails | ahorn/src/compiler/compiler.cpp:223-231 | a program whose compiled form never ends, since the copied jump leads back to the ELSIF condition |
| Deviations.FallingLoopAgreesExactly | ahorn/src/compiler/compiler.cpp:163-168 | a loop whose list ends in a statement without code keeps its meaning iff it is not entered or is left after one iteration |
| Deviations.EmptyLoopAgreesExactly | ahorn/src/compiler/compiler.cpp:476-538 | a loop with an empty body keeps its meaning iff its condition is false |
| Deviations.TrailingLoopFails | ahorn/src/compiler/compiler.cpp:223-231 | a program whose compiled form runs a loop that the source skips, with both final states |
| Deviations.EmptyThenFails | ahorn/src/compiler/compiler.cpp:163-264 | an empty THEN list drops its condition, so the code enters ELSIF instead |
| Deviations.EmptyElsifFails | ahorn/src/compiler/compiler.cpp:201-264 | an empty ELSIF list drops its condition, so the code enters ELSE instead |
| Deviations.OnlyElseFails | ahorn/src/compiler/compiler.cpp:236-272 | with statements in ELSE only, the code asks the last condition and forgets the first |
| Deviations.FallingThenFails | ahorn/src/compiler/compiler.cpp:163-168 | a THEN list that falls makes the code run ELSE as well |
| Deviations.FallingLoopFails | ahorn/src/compiler/compiler.cpp:535-537 | a loop body that falls makes the code leave the loop after one iteration |
| PouCompiler.PouCompiler.VisitSilentIf | ahorn/src/compiler/compiler.cpp:148-202 | an IF whose THEN list has no code adds one header, whose false branch goes where the instruction in front of it goes; anything but a goto or a call there is the error |
| CopiedJumps.CompileBehind | ahorn/src/compiler/compiler.cpp:148-202 | visiting statements and then such an IF lays them out one behind the other, with the false branch leading where the last statement goes on |
| CopiedJumps.SilentIfMeans | ahorn/src/compiler/compiler.cpp:185-202 | such an IF behind other statements: the code computes what these statements and a loop compute that runs their trailing loops until the condition holds |
| CopiedJumps.SilentIfAgreesExactly | ahorn/src/compiler/compiler.cpp:185-202 | behind statements without trailing loops: the code ends, and then as the source does, iff the condition holds where the IF is reached |
| CopiedJumps.SilentIfFails | ahorn/src/compiler/compiler.cpp:185-202 | two statements after which the source ends and the code never does |
| Correctness.CompiledBodyCorrect | ahorn/src/compiler/compiler.cpp:68-121 | for every well-formed body: the source takes st to t iff the emitted code, run from the label after the entry, reaches the exit with t |
| Correctness.CompiledBodyRuns | ahorn/src/compiler/compiler.cpp:68-121 | the same for every supported body and its plan |
| Correctness.NoPlaceholderLeft | ahorn/src/compiler/compiler.cpp:484-533 | no negative target is left, and every jump leads to the exit or to an instruction of the module that is no goto |
| Builder.Builder.Build | ahorn/src/cfg/builder.cpp:19-76 | the loop over the code builds exactly the vertices and typed edges of the module |
| Builder.Builder.Visit | ahorn/src/cfg/builder.cpp:78-132 | each instruction adds its vertex and the edges of its kind; a goto adds no vertex |
| Builder.OutgoingOfGraph | ahorn/src/cfg/builder.cpp:60-132 | the edges out of a label are those that its own instruction, or the goto behind it, gives |
| Builder.GraphIsWellShaped | ahorn/src/cfg/builder.cpp:60-132 | every assignment or havoc has one successor, every IF and WHILE one true and one false edge to its goto targets, every call its return site, all within the graph |
| Builder.GraphComputesCode | ahorn/src/cfg/builder.cpp:19-132 | the graph takes st to t iff the code does |
| CallEdges.VerticesExactly | ahorn/src/cfg/builder.cpp:60-132 | the vertices are the entry, the exit and every instruction that is no goto, as it is in the code |
| CallEdges.ReturnEdgesExactly | ahorn/src/cfg/builder.cpp:84-102 | an edge returns iff it leads from the exit of the callee of a call to the return site of this call, and names the call and the caller |
| CallEdges.CallEdgesExactly | ahorn/src/cfg/builder.cpp:84-102 | the call edges are those from a call to the label that it enters, the call-to-return edges those to its return site |
| CallEdges.CallsStem | ahorn/src/compiler/compiler.cpp:319-462 | every call in a module stems from an invocation of the same instance and unit in its body, and enters the module of this unit |
| CallEdges.CallsEnterModules | ahorn/src/cfg/builder.cpp:84-102 | in a compiled project a call edge leads to the entry of the module that the call names, and a return edge comes from its exit |
| CallEdges.OwnReturnExactly | ahorn/src/cfg/cfg.cpp:557-567 | the return edge found for a call is its own iff no call in front of it has the same return site |
| BasicBlocks.FindLeaders | ahorn/src/pass/basic_block_pass.cpp:26-88 | the computed set is exactly the merge points, entry, exit, loop headers and targets of branches and calls |
| BlockShape.LeadersExactly | ahorn/src/pass/basic_block_pass.cpp:26-88 | a vertex leads iff it is the entry, the exit or a loop header, has two edges in, or is entered from the entry, by a branch or behind a call |
| BlockShape.StaysInBlock | ahorn/src/pass/basic_block_pass.cpp:113-139 | an instruction whose only edge in comes from an assignment or havoc lies in the block of that vertex, right behind it |
| BlockShape.BlockVerticesExactly | ahorn/src/pass/basic_block_pass.cpp:92-160 | the vertex of a block holds the instructions of its vertices, one by one and unchanged |
| BlockShape.BlockEdgesExactly | ahorn/src/pass/basic_block_pass.cpp:92-232 | the edges out of a block are those of its last vertex, with their kinds and targets |
| BlockShape.ReturnEdgesExactly | ahorn/src/pass/basic_block_pass.cpp:167-204 | the edges from outside are those of blocks that end in a call: the first edge into its return site, naming the call, or the leader of a longer block |
| BasicBlocks.WalkBlock | ahorn/src/pass/basic_block_pass.cpp:113-139 | the walk from a leader terminates, never revisits a vertex, and gives a maximal block |
| BasicBlocks.Apply | ahorn/src/pass/basic_block_pass.cpp:92-232 | the rebuilt graph has one vertex for each leader, with the instructions of its block and the edges of the block's last vertex; return edges into a block keep their source, target and caller and name the first label of the calling block |
| BasicBlocks.BlocksPreserveRuns | ahorn/src/pass/basic_block_pass.cpp:92-232 | the block graph takes st to t iff the original graph does, loops and calls included |
| BasicBlocks.BlocksCover | ahorn/src/pass/basic_block_pass.cpp:26-88 | every vertex on a path from the entry lies in a block |
| BasicBlocks.BlocksDisjoint | ahorn/src/pass/basic_block_pass.cpp:113-139 | no vertex lies in two blocks, or twice in one |
| DecisionSplitting.DecisionTransformationPass.Apply | ahorn/src/pass/decision_transformation_pass.cpp:28-120 | the pass rejects exactly the graphs with a loop header or an instruction sequence; otherwise each decision gets two fresh vertices of its own, each branch edge becomes two, and everything else stays |
| DecisionSplitting.MiddleBetween | ahorn/src/pass/decision_transformation_pass.cpp:92-107 | an intermediate vertex has exactly one edge in, from its decision with the kind of the branch, and one edge out, to the old target |
| DecisionSplitting.VerticesExactly | ahorn/src/pass/decision_transformation_pass.cpp:28-75 | old vertices stay as they are, new ones are empty and belong to decisions, and every decision has two |
| DecisionSplitting.EdgesExactly | ahorn/src/pass/decision_transformation_pass.cpp:77-116 | the edges are the old ones that are no branches, and for each branch the two over the intermediate vertex of its kind |
| DecisionSplitting.SplitPreservesRuns | ahorn/src/pass/decision_transformation_pass.cpp:28-120 | the split graph takes st to t iff the original does |
| DecisionSplitting.PathsCorrespond | ahorn/src/pass/decision_transformation_pass.cpp:77-116 | paths from entry to exit in both graphs correspond one to one, by inserting and erasing intermediate vertices |
| Origins.ModuleInstructions | ahorn/src/compiler/compiler.cpp:123-564 | whatever holds for the instructions a body asks for, and for gotos, holds for every instruction of its module |
| Origins.ModuleIsLinked | ahorn/src/compiler/compiler.cpp:59-121 | every call in a compiled module enters a module whose exit is known and lies apart, as building its graph needs |
| Origins.GraphCallsReturn | ahorn/src/cfg/builder.cpp:78-132 | in a built graph every call has the return edge to its return site, from outside the graph, as basic blocks need |
| Origins.GraphIsExecutable | ahorn/src/cfg/builder.cpp:60-132 | the graph of a body without loops and calls whose expressions are well-sorted is one the engine takes, with labels that increase along every edge, if no condition leads back to itself or the body has no copied jumps |
| Origins.WellFormedNoCopies | ahorn/src/compiler/compiler.cpp:148-312 | well-formed bodies have no copied jumps |
| Pipeline.GraphIsReady | ahorn/src/cfg/builder.cpp:19-132 | every graph built from a compiled module can be formed into basic blocks; without loops and calls the engine can run it iff no condition leads back to itself, which holds for every well-formed body |
| Pipeline.CyclesRunSource | ahorn/src/se/ahorn/engine.cpp:176-245 | a cycle of the graph that the engine explores is a run of the source body on the state of the cycle, and the reverse |
| Pipeline.SourceToSplit | ahorn/src/pass/decision_transformation_pass.cpp:28-120 | from Structured Text to split decisions in one statement: the split graph takes st to t iff the source does |
| Pipeline.SourceToTac | ahorn/src/pass/tac/tac_pass.cpp:22-157 | from Structured Text to three-address code: both end for the same states, with results that differ in temporaries only |
| Pipeline.SourceToBlocks | ahorn/src/compiler/compiler.cpp:51-121 | from Structured Text to basic blocks in one statement: the block graph takes st to t iff the source does |
| Tac.TacPass.Encode | ahorn/src/pass/tac/encoder.cpp:21-28 | the stack nets exactly one expression, and code, counter and result are those of the flattening |
| Tac.TacPass.VisitBinary | ahorn/src/pass/tac/encoder.cpp:30-74 | both operands are encoded left to right, and operations among them are moved to fresh temporaries |
| Tac.TacPass.IntroduceTemporaryVariableExpression | ahorn/src/pass/tac/tac_pass.cpp:159-196 | one fresh temporary, assigned at the current label behind what is there |
| Tac.TacPass.Apply | ahorn/src/pass/tac/tac_pass.cpp:22-157 | every vertex is rewritten by flattening its instructions, no two vertices share a temporary, the recorded temporaries are exactly those introduced, and edges stay |
| Tac.FlattenSound | ahorn/src/pass/tac/encoder.cpp:21-97 | for every expression that reads none of the temporaries emitted for it: running them and then evaluating what is left gives its value; nothing but these temporaries changes |
| Tac.FlattenIsTac | ahorn/src/pass/tac/encoder.cpp:30-97 | every binary operator that is left or emitted has atomic operands, and each temporary is assigned once, in order |
| TacShape.VerticesKept | ahorn/src/pass/tac/tac_pass.cpp:198-247 | calls, havocs and branches stay in order with all that they name, entry and exit stay, and the last instruction stays last |
| TacShape.BranchesKept | ahorn/src/pass/tac/tac_pass.cpp:218-241 | a call or a havoc is the same instruction, and an IF keeps its labels, which are the targets of its true and its false edge |
| TacShape.CodeExactly | ahorn/src/pass/tac/encoder.cpp:21-97 | how many temporaries an instruction gets; a condition is left with a variable or constant, an assignment keeps its outermost operation |
| Tac.TacPreservesRuns | ahorn/src/pass/tac/tac_pass.cpp:159-241 | the rewritten graph reaches the exit with the same program variables, in both directions |
| Tac.TempClash | ahorn/src/pass/tac/tac_pass.cpp:159-196 | an expression over a variable called temp0 changes its value when it is flattened |
| SsaTable.PhiCompleted | ahorn/src/pass/ssa/ssa_pass.cpp:400-430 | a phi with all its operands, two of which differ, resolves on every path to the definition that reaches its block |
| SsaTable.PhiDropped | ahorn/src/pass/ssa/ssa_pass.cpp:420-460 | so does the only operand of a trivial phi, and nothing refers to the phi any more |
| SsaTable.ResolveStable | ahorn/src/pass/ssa/ssa_pass.cpp:338-460 | what a settled value resolves to is not changed by later reads |
| SsaPass.SsaPass.ReadVariable | ahorn/src/pass/ssa/ssa_pass.cpp:324-336 | on every path from the entry to the block, following the phi operands of the returned value gives exactly the last definition of the variable; older facts stay |
| SsaPass.SsaPass.ReadVariableRecursive | ahorn/src/pass/ssa/ssa_pass.cpp:338-367 | the same for the global case, with the value recorded at the block |
| SsaPass.SsaPass.PlaceOperandlessPhi | ahorn/src/pass/ssa/ssa_pass.cpp:386-398 | a fresh value with a variable of its own and a phi without operands |
| SsaPass.SsaPass.AddPhiOperands | ahorn/src/pass/ssa/ssa_pass.cpp:400-418 | one operand for each incoming edge, each the value at the end of the block in front; then the phi is kept or replaced |
| SsaPass.SsaPass.TryRemoveTrivialPhi | ahorn/src/pass/ssa/ssa_pass.cpp:420-460 | the phi is kept iff two operands other than itself differ; otherwise it and its variable are gone, and the only operand is returned |
| SsaPass.SsaPass.VisitExpression | ahorn/src/pass/ssa/ssa_encoder.cpp:17-136 | the stack nets one expression with every read replaced by the variable of a reaching definition and every constant by a fresh variable assigned in front |
| SsaPass.SsaPass.VisitInstruction | ahorn/src/pass/ssa/ssa_pass.cpp:462-672 | the renamed instruction is emitted behind its constants, and defines a fresh value |
| SsaPass.SsaPass.VisitLabel | ahorn/src/pass/ssa/ssa_pass.cpp:124-156 | one round of the worklist keeps its invariant and makes progress: a block is filled, or the queue gets shorter, or its first movable label comes nearer |
| SsaPass.SsaPass.FillBlocks | ahorn/src/pass/ssa/ssa_pass.cpp:106-157 | the worklist terminates with every block filled and the exit sealed |
| SsaPass.SsaPass.Apply | ahorn/src/pass/ssa/ssa_pass.cpp:20-311 | the result has the original edges and, for every block, the renaming of all its instructions, with consistent tables |
| SsaBlocks.MovableExists | ahorn/src/pass/ssa/ssa_pass.cpp:106-157 | while a block is not filled, some queued label can be filled or dropped |
| SsaBlocks.AllFilled | ahorn/src/pass/ssa/ssa_pass.cpp:106-157 | an empty queue means that every block is filled and the exit is sealed |
| SsaNames.NamesInjective | ahorn/src/pass/ssa/ssa_pass.cpp:386-398 | different values have different variable names |
| SsaMeaning.SsaPreservesRuns | ahorn/src/pass/ssa/ssa_pass.cpp:20-311 | the SSA form, with phis reading the operand of the edge taken, reaches the exit exactly when the original graph does, and its final variables hold the original results |
| SsaShape.PlacedExactly | ahorn/src/pass/ssa/ssa_pass.cpp:386-398 | the new phi has no operands, its variable is named after the original one and the value, and nothing else changes |
| SsaShape.VerticesRenamed | ahorn/src/pass/ssa/ssa_pass.cpp:462-672 | every vertex holds the renamings of its instructions in order, over variables only, and assignments of constants between them |
| SsaShape.BranchesRenamed | ahorn/src/pass/ssa/ssa_pass.cpp:620-628 | a vertex ends in an IF iff it did before, and the IF keeps its labels |
| SsaMeaning.PhiHygiene | ahorn/src/pass/ssa/ssa_pass.cpp:386-460 | each phi has one operand for each edge, two of them differ, none is itself; every entry has a variable, so none refers to a dropped phi; no two values share a variable |
| Symbolic.EncodeMeans | ahorn/src/se/ahorn/execution/encoder.cpp:11-215 | an encoded expression has, under a valuation, the value of the expression in the store that the context describes, if it is well-sorted and no sum in it has a boolean left operand |
| Symbolic.SumValue | ahorn/src/se/ahorn/execution/encoder.cpp:39-64 | the value of an encoded sum for any sorts: with a boolean left operand it is the sum of the right operand with itself |
| Symbolic.BooleanSumExactly | ahorn/src/se/ahorn/execution/encoder.cpp:55-61 | the encoding of a sum of booleans has its value iff both operands are equal |
| Symbolic.BooleanSumFails | ahorn/src/se/ahorn/execution/encoder.cpp:55-61 | TRUE + FALSE is encoded as 0 and FALSE + TRUE as 2 |
| Symbolic.ModelExists | ahorn/src/se/ahorn/engine.cpp:134-174 | the definitions of a run have a model for every choice of the inputs |
| Execution.Executor.Execute | ahorn/src/se/ahorn/execution/executor.cpp:36-98 | the context after one step, by kind of vertex, and the forked one if the solver finds the other branch feasible |
| Engine.Engine.ExecuteRound | ahorn/src/se/ahorn/engine.cpp:204-245 | the label that is executed and logged was not executed before in this cycle |
| Execution.Executor.VisitIf | ahorn/src/se/ahorn/execution/executor.cpp:289-322 | the branch of the concrete store comes first with its condition, the other one with the negated condition if it is feasible |
| Execution.Executor.HandleProgramExitVertex | ahorn/src/se/ahorn/execution/executor.cpp:151-197 | the context of the next cycle: inputs unconstrained, other variables at their newest definition, versions and path constraint reset |
| Exploration.AssignmentExecuted | ahorn/src/se/ahorn/execution/executor.cpp:212-249 | an assignment replaces a live context by one that stands for it, with a version that is globally fresh |
| Exploration.IfExecuted | ahorn/src/se/ahorn/execution/executor.cpp:289-322 | the contexts after a branch are exclusive, cover the models of the one before, and are where the program goes |
| Exploration.Replaced | ahorn/src/se/ahorn/engine.cpp:176-245 | exclusiveness, coverage and agreement with the program survive any replacement of live contexts |
| Merging.MergedContextOk | ahorn/src/se/ahorn/merger.cpp:157-184 | the merged context, like the two that are merged, holds definitions of the common world only; so live contexts agree on every definition that they share |
| Merging.FreshVersionMerged | ahorn/src/se/ahorn/merger.cpp:187-238 | a variable with two versions gets a globally fresh one that stands for the newest version of the active context |
| Merging.MergeRepresents | ahorn/src/se/ahorn/merger.cpp:122-248 | under every model of the merged store: the merge is active iff one of two exclusive contexts is, and then has its program store |
| Merger.FoldRepresents | ahorn/src/se/ahorn/merger.cpp:112-119 | the same for the fold over any number of contexts |
| Merger.Merger.Select | ahorn/src/se/ahorn/merger.cpp:80-106 | the selected merge point is among the deepest non-empty ones, there among those with the lowest return label, and there the one with the lowest label |
| Merger.JoinsExactly | ahorn/src/se/ahorn/merger.cpp:261-297 | a merge point is the exit, or a regular vertex with two edges in, all of which are plain or branch edges |
| Merger.Merger.Merge | ahorn/src/se/ahorn/merger.cpp:80-120 | the selected queue is emptied, the others stay, and the result represents all its contexts; global versions bound every stored version |
| Merger.Merger.MergePair | ahorn/src/se/ahorn/merger.cpp:122-248 | the merge of two exclusive contexts represents both |
| Merger.Merger.Initialize | ahorn/src/se/ahorn/merger.cpp:250-299 | the merge points are exactly the exit and the regular vertices with several plain incoming edges, each with an empty queue |
| Scheduling.SuccessorFresh | ahorn/src/se/ahorn/engine.cpp:204-240 | a label that is no merge point is reached once: it was not executed and is not in the explorer |
| Scheduling.MergeScheduled | ahorn/src/se/ahorn/merger.cpp:80-106 | merged labels increase, and a merged label was not executed before |
| Scheduling.ExitAlone | ahorn/src/se/ahorn/engine.cpp:232-240 | when the exit is executed, no other context is left |
| Cycles.CycleEnds | ahorn/src/se/ahorn/execution/executor.cpp:151-197 | every model of the next cycle's definitions is a run of the program from the cycle's start to its exit |
| Cycles.CycleExact | ahorn/src/se/ahorn/engine.cpp:176-245 | the context of the next cycle describes exactly the pairs of start and final stores of the program, apart from the inputs of the next cycle |
| Engine.Engine.Step | ahorn/src/se/ahorn/engine.cpp:176-245 | a cycle terminates with exactly one context, of the next cycle; what it adds to the executor's log of executed labels has no label twice, what it adds to the merger's log increases, and each of these labels is the exit or has two plain edges in; every model of the result is a run of the cycle |
| Cycles.InitialValues | ahorn/src/se/ahorn/engine.cpp:134-174 | under every model of definitions that extend the first ones, each variable but the inputs starts with its initial value |
| Engine.Engine.Initialize | ahorn/src/se/ahorn/engine.cpp:134-174 | the first context: inputs are free, every other variable is defined as its initial value, and nothing else is defined |
| Engine.Engine.Run | ahorn/src/se/ahorn/engine.cpp:22-60 | after any number of cycles, every model of all definitions starts with the initial values and is a run over all cycles |
| Engine.EveryRunIsDescribed | ahorn/src/se/ahorn/engine.cpp:22-60 | every choice of inputs for every cycle has such a model, again from the initial values |
| Coverage.Explorer.UpdateCoverage | ahorn/src/se/experimental/explorer.cpp:107-165 | exactly the executed label and the branches towards the next label are marked in addition, and the two results say whether any of them is new |
| Coverage.Explorer.CoverAll | ahorn/src/se/experimental/engine.cpp:379-389 | the loop over the steps covers exactly their branches, and makes as many test cases as `TestCases` counts |
| Coverage.TestCasesExactly | ahorn/src/se/experimental/engine.cpp:379-389 | the number of test cases is the number of steps that take a branch neither covered at the start nor taken by an earlier step |
| Coverage.NoTestCaseExactly | ahorn/src/se/experimental/engine.cpp:379-389 | no test case is made iff no branch is newly covered |
| Coverage.OneCaseEach | ahorn/src/se/experimental/engine.cpp:379-389 | if each step takes at most one branch, there is one test case for each newly covered branch |
| Coverage.TakenExactly | ahorn/src/se/experimental/explorer.cpp:118-128 | a step takes a branch iff the edge of this branch leads from its label to the next one |
| Coverage.CoveredExactly | ahorn/src/se/experimental/explorer.cpp:107-165 | covered are the branches covered before and those that some step takes |
| Coverage.FlagsExactly | ahorn/src/se/experimental/explorer.cpp:116-128 | a branch or statement counts as covered iff its own flag is set |
| Coverage.CoverageGrows | ahorn/src/se/experimental/explorer.cpp:107-165 | over any run coverage never shrinks, and each test case stands for at least one new branch |
| Coverage.TestCasesBounded | ahorn/src/se/experimental/engine.cpp:384-389 | no run creates more test cases than there are branches |
| Coverage.MarksBranchExactly | ahorn/src/se/experimental/explorer.cpp:118-128 | a step marks its own branch and no other iff the branches of the decision have different targets |
| Coverage.SplitMarksBranch | ahorn/src/pass/decision_transformation_pass.cpp:47-57 | after decision splitting a step marks exactly its own branch at every decision |
| WrapInt.FromNumberExact | ahorn/extern/crab/lib/wrapint.cpp:61-76 | a number is rejected iff the width or its 64-bit range is wrong; otherwise the word stands for it modulo the width, and for itself iff it is in range |
| WrapInt.SignedRoundTrip | ahorn/extern/crab/lib/wrapint.cpp:176-183 | reading a word as a signed number and converting back gives the word |
| WrapInt.PlusExact | ahorn/extern/crab/lib/wrapint.cpp:200-205 | the sum is exact modulo the width for both the unsigned and the signed reading, and is the sum itself iff that is in range; only different widths are an error |
| WrapInt.MinusExact | ahorn/extern/crab/lib/wrapint.cpp:214-219 | the same for the difference, whose word may be negative before the reduction |
| WrapInt.TimesExact | ahorn/extern/crab/lib/wrapint.cpp:207-212 | the same for the product |
| WrapInt.NegateExact | ahorn/extern/crab/lib/wrapint.cpp:221-225 | complement and increment negate, except for the least number; negating twice gives the word back |
| WrapInt.SDivExact | ahorn/extern/crab/lib/wrapint.cpp:230-240 | signed division truncates; it fails for width mismatch, zero, and the overflow at 64 bits only |
| WrapInt.SRemExact | ahorn/extern/crab/lib/wrapint.cpp:258-269 | the signed remainder is exact and never overflows |
| WrapInt.DivisionExact | ahorn/extern/crab/lib/wrapint.cpp:230-269 | quotient and remainder divide the signed numbers towards zero iff the least number is not divided by -1, and that case gives the dividend |
| WrapInt.SExtExact | ahorn/extern/crab/lib/wrapint.cpp:405-425 | sign extension keeps the signed number; it has no result beyond 64 bits, nor for a negative 64-bit word, where the code shifts by the word size |
| WrapInt.ZExtExact | ahorn/extern/crab/lib/wrapint.cpp:427-434 | zero extension keeps the unsigned number |
| WrapInt.WrapInt.AddAssign | ahorn/extern/crab/lib/wrapint.cpp:282-288 | adding in place leaves the sum, or the old word if the widths differ |
| WrapInt.WrapInt.SubtractAssign | ahorn/extern/crab/lib/wrapint.cpp:298-304 | the same for subtracting |
| WrapInt.WrapInt.MultiplyAssign | ahorn/extern/crab/lib/wrapint.cpp:290-296 | the same for multiplying |
| WrapInt.WrapInt.Decrement | ahorn/extern/crab/lib/wrapint.cpp:306-311 | the word is one lower modulo the width |
| WrapInt.WrapInt.Increment | ahorn/extern/crab/lib/wrapint.cpp:313-318 | the word is one higher modulo the width |

## Left out

- StructuredText.OneResult: statements are those the compiler takes; ASSERT and ASSUME, which it rejects (ahorn/src/compiler/compiler.cpp:123-146), have no meaning here.
- PouCompiler.PouCompiler.VisitInvocation: the bindings before and after a call are given as complete lists; completing them with the interface of the callee (ahorn/src/compiler/compiler.cpp:355-368 and 428-447) is not modelled.
- Plan.Supported: bodies are excluded in which an ELSIF list is empty beside one that is not (the compiler takes the last instruction of an empty list, which is undefined), or in which a false branch copies its jump from a loop header or from the header of a condition without code (it throws or asserts), or, behind ELSIF and ELSE, from a call (it asserts). Also excluded are selections whose only list with a copied jump has no code and no list of the same selection in front of it: THEN, the first ELSIF behind an empty THEN, or ELSE alone. There the jump comes from the instruction in front of the selection, whatever statement that belongs to; for THEN this is the subject of `CopiedJumps`.
- PouCompiler.PouCompiler.VisitSilentIf: the dispatch in `Visit` does not lead here, so bodies with such a statement in the middle have no plan.
- CopiedJumps.SilentIfAgreesExactly: the IF is followed by another statement of its list or by the exit; at the end of a nested list, its true branch leads into whatever is laid out behind that list.
- Deviations.IfAgreesExactly: whether the statements of `Extra` change nothing can depend on running them; for a trailing loop, a falling loop and an empty loop the conditions are on the loop conditions alone.
- Deviations.FallingLoopAgreesExactly: stated for one iteration's worth of fuel or more; without fuel neither side runs the body.
- Tac.FlattenSound: an expression that reads a temporary emitted for it is excluded; `Tac.TempClash` shows that such a name changes a value. Whether a clash matters depends on the surrounding values, so no equivalence is stated.
- Tac.TacPass.Apply: the types of temporaries are not modelled.
- SsaPass.SsaPass.Apply: calls and record fields, and the rule that variables whose name contains `_input` or `_output` keep their name, are not modelled; phis are kept per incoming edge instead of being written out per label (ahorn/src/pass/ssa/ssa_pass.cpp:169-206). That a compiled graph meets the precondition, all of whose blocks are reachable, is not derived from the compiler.
- SsaPass.SsaPass.VisitInstruction: call instructions and assignments to record fields are not modelled.
- SsaPass.SsaPass.TryRemoveTrivialPhi: the loops over the users of a removed phi have nothing to do on graphs without loops, where a phi has no users before its operands are complete; that is a precondition here, and `Collecting` establishes it.
- Execution.Executor.Execute: calls, havoc and timers are not modelled.
- Execution.Executor.VisitIf: the concrete store is not modelled, so which branch comes first is arbitrary, and the shortcut that skips the solver for conditions without inputs is part of the assumption that a branch which is not forked has no model.
- Merger.Merger.MergePair: the concrete store, of which the merger keeps either side, is not modelled.
- Merger.Merger.Initialize: merge points inside callees are not modelled.
- Engine.Engine.Step: time-outs are not modelled, so a cycle is never cut short; the explorer may pop any context. Coverage and test cases are a module of their own and not part of the cycle.
- Symbolic.EncodeMeans: programs with a boolean left operand in a sum are excluded from the results about the engine, since their encoding has another value.
- DecisionSplitting.DecisionTransformationPass.Apply: the labels of the graph must lie below the counter of the pass, as its caller arranges; callees are graphs of their own.
- Coverage.Explorer.CoverAll: the steps are given; that they are the ones the engine takes is not modelled.
- Coverage.Explorer.UpdateCoverage: coverage is counted instead of divided by the number of labels and branches.
- WrapInt.SExtExact: the shift by 64 bits in the extension of a negative 64-bit word, undefined in C++, is modelled as no result.
- The remaining operators of `wrapint` (shifts, comparisons, unsigned division), call transformation, and the CRAB and CBMC front ends are not modelled.
- Parsing, printing, command line, logging and z3 are not modelled; simplification is any rewriting that keeps values and adds no symbols.
