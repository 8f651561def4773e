# A verified model of five LLVM/MLIR components

This project models, in Dafny, the core logic of five files of the LLVM project and
proves what they promise:

- **The MLIR data-flow framework** (`DataFlowFramework.h`): the `ChangeResult` algebra;
  program points and their uniquing; generic lattice anchors; the solver's state table
  keyed by leader anchors of per-state-type equivalence classes; `getOrCreateState`,
  `lookupState`, `eraseState`, `eraseAllStates` and `unionLatticeAnchors`; analysis states
  with insertion-ordered dependents; the FIFO worklist; and `initializeAndRun` as far as
  its documentation describes it.
- **The LLVM IR translation tables** (`ModuleTranslation.h`): the write-once maps from MLIR
  functions, values, blocks, OpenMP loops, branches, calls and block addresses to their
  LLVM counterparts, and the read-only global, alias and ifunc tables; and any sequence
  of writes through them, with the frame and write-once properties it keeps.
- **The SystemZ post-rewrite pass** (`SystemZPostRewrite.cpp`): selection of the
  `LOCRMux`, `SELRMux` and memory-folding pseudo instructions, the branch sequence built
  by `expandCondMove`, and the walk of `selectMBB`. An instruction-level semantics shows
  that every selection path leaves the registers as the pseudo would.
- **Promotion of buffer results to out-params** (`BufferResultsToOutParams.cpp`): the
  signature rewrite of `updateFuncOp`, the copies and return rewrite of `updateReturnOps`,
  the allocations and call rewrite of `updateCalls`, and the driver
  `promoteBufferResultsToOutParams`.
- **Bufferization utilities** (`BufferUtils.cpp`): `getStartOperation`, the allocation
  filter of `BufferPlacementAllocs::build`, and `getGlobalFor` (the reuse search and the
  name of a new global).

State that the source updates in place is modelled as Dafny classes with `modifies`
frames: the solver, analysis states, the translation tables, machine basic blocks and
functions, `func.func` and the module. The pure parts are functions with lemmas. Each
method is specified by a function of its old state, and the source's promises are proved
about those functions.

Files:

- `wrappers.dfy`: the `Option` and `Result` types.
- `change_result.dfy`, `uniquer.dfy`, `program_point.dfy`, `lattice_anchor.dfy`,
  `equivalence_classes.dfy`, `solver_tables.dfy` and `dataflow_framework.dfy`: the data-flow
  framework.
- `module_translation.dfy`: the translation tables.
- `systemz_post_rewrite.dfy`: the SystemZ pass.
- `buffer_results_to_out_params.dfy` and `buffer_utils.dfy`: the two bufferization files.

## Model

| member | source | states |
|---|---|---|
| ChangeResults.Or | mlir/include/mlir/Analysis/DataFlowFramework.h:41-43 | `lhs \| rhs` is `Change` iff either operand is `Change` |
| ChangeResults.OrAssign | mlir/include/mlir/Analysis/DataFlowFramework.h:44-47 | `lhs \|= rhs` stores and returns `lhs \| rhs`: `Change` iff either side is |
| ChangeResults.And | mlir/include/mlir/Analysis/DataFlowFramework.h:48-50 | `lhs & rhs` is `Change` iff both operands are |
| ChangeResults.OrAssociativeCommutative | mlir/include/mlir/Analysis/DataFlowFramework.h:41-47 | `\|` is associative and commutative, `NoChange` is its unit and `Change` absorbs it |
| ChangeResults.AndAssociativeCommutative | mlir/include/mlir/Analysis/DataFlowFramework.h:48-50 | `&` is associative and commutative, `Change` is its unit and `NoChange` absorbs it |
| ChangeResults.OrAllIsExists | mlir/include/mlir/Analysis/DataFlowFramework.h:44-47 | accumulating `changed \|= r` over a sequence of results gives `Change` iff some result is `Change` |
| Uniquers.Find | mlir/include/mlir/Analysis/DataFlowFramework.h:216-220 | the uniquer's search finds the first stored equal object, and finds none iff none is stored |
| Uniquers.Get | mlir/include/mlir/Analysis/DataFlowFramework.h:216-220 | `get` answers the stored object equal to the key, else appends the newly built object and answers it |
| Uniquers.GetTwice | mlir/include/mlir/Analysis/DataFlowFramework.h:216-220 | asking twice for the same key answers one handle, stores nothing the second time and keeps the arena duplicate-free |
| LatticeAnchors.GetGeneric | mlir/include/mlir/Analysis/DataFlowFramework.h:216-232 | a generic anchor is uniqued by its concrete type and its value: the stored one, or a new one at the end |
| LatticeAnchors.GetGenericTwice | mlir/include/mlir/Analysis/DataFlowFramework.h:216-236 | two requests for the same generic anchor answer the same handle and store one anchor |
| ProgramPoints.Ir.PositionOf | mlir/include/mlir/Analysis/DataFlowFramework.h:397-398 | `Block::iterator(op)` is the position of the operation in its parent block |
| ProgramPoints.KeyContent | mlir/include/mlir/Analysis/DataFlowFramework.h:92-95 | equality with a key holds iff block, iterator and operation all coincide |
| ProgramPoints.Construct | mlir/include/mlir/Analysis/DataFlowFramework.h:79-86 | `construct` builds the block form for a key with a block, otherwise the parentless form; the result equals its key iff the key is of a shape the solver builds |
| ProgramPoints.ConstructIsNull | mlir/include/mlir/Analysis/DataFlowFramework.h:89 | a constructed point is null iff its key has neither a block nor an operation |
| ProgramPoints.ParentlessIsNeitherStartNorEnd | mlir/include/mlir/Analysis/DataFlowFramework.h:134-136 | `isBlockStart` and `isBlockEnd` are false for the parentless form |
| ProgramPoints.GetNextOp | mlir/include/mlir/Analysis/DataFlowFramework.h:111-121 | defined only away from the block end; the parentless form answers its own operation, the block form the operation of that block at the point's position |
| ProgramPoints.GetPrevOp | mlir/include/mlir/Analysis/DataFlowFramework.h:123-132 | defined only away from the block start; the parentless form answers its own operation, the block form the operation of that block one before the point's position |
| ProgramPoints.OpKeysWellFormed | mlir/include/mlir/Analysis/DataFlowFramework.h:395-416 | the keys built before and after an operation are well formed and lie in the IR; for a parentless operation before and after are the same key |
| ProgramPoints.BlockKeysWellFormed | mlir/include/mlir/Analysis/DataFlowFramework.h:404-421 | the point before a block is at its start and the point after it at its end |
| ProgramPoints.NextOfBeforeAndPrevOfAfter | mlir/include/mlir/Analysis/DataFlowFramework.h:395-416 | the next operation of the point before `op` is `op`, and the previous operation of the point after `op` is `op` |
| ProgramPoints.AdjacentPointsCoincide | mlir/include/mlir/Analysis/DataFlowFramework.h:395-421 | after an operation is at the iterator one past it: it is the point before the next operation, and after the last operation is after the block |
| ProgramPoints.GetPoint | mlir/include/mlir/Analysis/DataFlowFramework.h:79-99 | uniquing a program point answers a stored point equal to the key, else appends the constructed point |
| ProgramPoints.GetPointTwice | mlir/include/mlir/Analysis/DataFlowFramework.h:395-421 | for every key the solver builds, a second request answers the first handle and stores nothing |
| ProgramPoints.MalformedKeyIsNeverShared | mlir/include/mlir/Analysis/DataFlowFramework.h:79-99 | a key with both a block and an operation never equals the point built from it, so each request stores a new point |
| SolverTables.LeaderOrSelf | mlir/include/mlir/Analysis/DataFlowFramework.h:715-729 | `getLeaderAnchorOrSelf` answers its input when the anchor is in no class of that state type |
| SolverTables.LeaderLaws | mlir/include/mlir/Analysis/DataFlowFramework.h:715-729 | the leader is its own leader and equivalent to the anchor, and equivalent anchors share their leader |
| SolverTables.Lookup | mlir/include/mlir/Analysis/DataFlowFramework.h:342-353 | `lookupState` is null iff the leader has no entry or its entry has no state of that type |
| SolverTables.Publish | mlir/include/mlir/Analysis/DataFlowFramework.h:736-737 | storing into `analysisStates[x][t]` sets that one slot and keeps every other slot |
| SolverTables.LookupAfterPublish | mlir/include/mlir/Analysis/DataFlowFramework.h:731-745 | after a state is stored under the anchor's leader, the anchor and every equivalent anchor look it up; lookups of other state types are unchanged |
| SolverTables.EquivalentIffSameClass | mlir/include/mlir/Analysis/DataFlowFramework.h:747-757 | (about `SolverTables.Equivalent`) `isEquivalent<T>` is false when `T` has no classes or an anchor is no member, and otherwise holds iff both anchors are in one class |
| SolverTables.UnionMakesEquivalent | mlir/include/mlir/Analysis/DataFlowFramework.h:759-764 | after `unionLatticeAnchors<T>(a, b)`, `a` and `b` are equivalent for `T`; earlier equivalences stay and other state types are untouched |
| SolverTables.ErasedClasses | mlir/include/mlir/Analysis/DataFlowFramework.h:360-377 | erasing an anchor from the classes keeps the set of state types |
| SolverTables.EraseStep | mlir/include/mlir/Analysis/DataFlowFramework.h:360-377 | one iteration of the `eraseState` loop extends the erasure by one state type |
| SolverTables.EraseDone | mlir/include/mlir/Analysis/DataFlowFramework.h:357-380 | once every state type is handled, the classes and slots are those of the whole erasure |
| SolverTables.EraseKeepsLookupAt | mlir/include/mlir/Analysis/DataFlowFramework.h:357-380 | after `eraseState(a)` every other anchor looks up the same state of a given type as before |
| SolverTables.EraseKeepsOtherLookups | mlir/include/mlir/Analysis/DataFlowFramework.h:357-380 | `eraseState(a)` takes `a` out of every class and leaves no state reachable from it; the member after a leading `a` receives its state and becomes the leader; nothing else changes for other anchors |
| EquivalenceClasses.ClassIndex | mlir/include/mlir/Analysis/DataFlowFramework.h:747-757 | finds the class holding a value, and finds none iff no class holds it |
| EquivalenceClasses.FindLeader | mlir/include/mlir/Analysis/DataFlowFramework.h:715-729 | `findLeader` is defined iff the value is a member, and answers the head of its class |
| EquivalenceClasses.Insert | mlir/include/mlir/Analysis/DataFlowFramework.h:759-764 | `insert` adds a new value as a singleton class and leaves a present one alone |
| EquivalenceClasses.InsertProperties | mlir/include/mlir/Analysis/DataFlowFramework.h:759-764 | insertion keeps the classes well formed, adds exactly the value and moves no other member |
| EquivalenceClasses.EquivalentIffSameClass | mlir/include/mlir/Analysis/DataFlowFramework.h:747-757 | (about `IsEquivalent`) with distinct members, `isEquivalent` is equality or membership of one class |
| EquivalenceClasses.MergeProperties | mlir/include/mlir/Analysis/DataFlowFramework.h:759-764 | merging two classes keeps the structure well formed and moves exactly the members of the second class into the first |
| EquivalenceClasses.UnionProperties | mlir/include/mlir/Analysis/DataFlowFramework.h:759-764 | (about `UnionSets`) after `unionSets(a, b)` the structure is well formed, holds the old members plus `a` and `b`, and `a` and `b` share one class led by `a`'s leader |
| EquivalenceClasses.UnionSameClass | mlir/include/mlir/Analysis/DataFlowFramework.h:759-764 | (about `UnionSets`) `unionSets(a, b)` joins exactly the class of `a` and the class of `b` |
| EquivalenceClasses.SecondMember | mlir/include/mlir/Analysis/DataFlowFramework.h:369-373 | the member after the leader, when there is one, is another member of the leader's class |
| EquivalenceClasses.EraseProperties | mlir/include/mlir/Analysis/DataFlowFramework.h:369-376 | (about `Erase`) `erase(x)` removes only `x`; a class it led is now led by the next member, other leaders stay and the classes of the other values are the same |
| DataFlowFramework.SetVectorInsertLaws | mlir/include/mlir/Analysis/DataFlowFramework.h:553-557 | the dependents stay duplicate-free and in insertion order, and an item already present is not added again |
| DataFlowFramework.AnalysisState.constructor | mlir/include/mlir/Analysis/DataFlowFramework.h:514-515 | a new state records its anchor and has no dependents |
| DataFlowFramework.AnalysisState.AddDependency | mlir/include/mlir/Analysis/DataFlowFramework.h:524-527 | `addDependency` inserts the work item into the set vector of dependents |
| DataFlowFramework.AnalysisState.OnUpdate | mlir/include/mlir/Analysis/DataFlowFramework.h:534-537 | `onUpdate` appends every dependent, in order, to the back of the worklist |
| DataFlowFramework.DataFlowAnalysis.constructor | mlir/include/mlir/Analysis/DataFlowFramework.h:586-587 | an analysis refers to its solver |
| DataFlowFramework.DataFlowAnalysis.GetOrCreateFor | mlir/include/mlir/Analysis/DataFlowFramework.h:662-671 | answers the state under the anchor's leader, creating it if absent; adds the dependency iff the anchor and the dependent point are not equivalent for that state type; no other state changes |
| DataFlowFramework.DataFlowAnalysis.PropagateIfChanged | mlir/include/mlir/Analysis/DataFlowFramework.h:632-633 | a changed state enqueues its dependents at the back of the worklist; an unchanged one enqueues nothing |
| DataFlowFramework.DataFlowAnalysis.Apply | mlir/include/mlir/Analysis/DataFlowFramework.h:598-617 | a transfer function's queries and updates keep the solver valid and leave the equivalence classes unchanged |
| DataFlowFramework.DataFlowSolver.constructor | mlir/include/mlir/Analysis/DataFlowFramework.h:326-329 | a new solver is idle, with an empty worklist, no analyses, empty arenas and empty tables |
| DataFlowFramework.DataFlowSolver.Load | mlir/include/mlir/Analysis/DataFlowFramework.h:706-713 | `load` appends a new analysis on this solver to the analyses, in load order |
| DataFlowFramework.DataFlowSolver.GetOrCreateState | mlir/include/mlir/Analysis/DataFlowFramework.h:731-745 | maps the anchor to its leader; creates a state, recording the anchor actually passed, only when that slot is empty; answers the existing state otherwise; lookup of the anchor then finds it |
| DataFlowFramework.DataFlowSolver.EraseState | mlir/include/mlir/Analysis/DataFlowFramework.h:355-380 | the classes lose the anchor in every state type; each slot is as the erasure says, a leading anchor's state moving to the next member; the anchor's entry is gone |
| DataFlowFramework.DataFlowSolver.EraseFromType | mlir/include/mlir/Analysis/DataFlowFramework.h:360-377 | one loop iteration erases the anchor from one state type's classes and touches no other state type |
| DataFlowFramework.DataFlowSolver.HandOver | mlir/include/mlir/Analysis/DataFlowFramework.h:369-372 | the leading anchor's state of that type moves to the next member, and a null state moves as a null |
| DataFlowFramework.DataFlowSolver.EraseEntry | mlir/include/mlir/Analysis/DataFlowFramework.h:379 | `analysisStates.erase(anchor)` drops exactly the anchor's entry |
| DataFlowFramework.DataFlowSolver.EraseAllStates | mlir/include/mlir/Analysis/DataFlowFramework.h:381-385 | `eraseAllStates` empties both the state table and the equivalence map |
| DataFlowFramework.DataFlowSolver.UnionLatticeAnchors | mlir/include/mlir/Analysis/DataFlowFramework.h:759-764 | the classes of the state type are joined, and the two anchors are then equivalent |
| DataFlowFramework.DataFlowSolver.UniquePoint | mlir/include/mlir/Analysis/DataFlowFramework.h:395-421 | uniquing a solver-built key answers a point equal to the key |
| DataFlowFramework.DataFlowSolver.GetProgramPointBeforeOp | mlir/include/mlir/Analysis/DataFlowFramework.h:395-402 | the point at the operation's position in its block, or the parentless point |
| DataFlowFramework.DataFlowSolver.GetProgramPointBeforeBlock | mlir/include/mlir/Analysis/DataFlowFramework.h:404-407 | the point at the block's `begin()` |
| DataFlowFramework.DataFlowSolver.GetProgramPointAfterOp | mlir/include/mlir/Analysis/DataFlowFramework.h:409-416 | the point one past the operation's position, or the same parentless point as before it |
| DataFlowFramework.DataFlowSolver.GetProgramPointAfterBlock | mlir/include/mlir/Analysis/DataFlowFramework.h:418-421 | the point at the block's `end()` |
| DataFlowFramework.DataFlowSolver.GetLatticeAnchor | mlir/include/mlir/Analysis/DataFlowFramework.h:388-392 | a uniqued generic anchor of that type and value |
| DataFlowFramework.DataFlowSolver.Enqueue | mlir/include/mlir/Analysis/DataFlowFramework.h:428 | `enqueue` pushes to the back of the FIFO worklist |
| DataFlowFramework.DataFlowSolver.PropagateIfChanged | mlir/include/mlir/Analysis/DataFlowFramework.h:449-453 | a changed state enqueues its dependents at the back of the queue, an unchanged one nothing |
| DataFlowFramework.DataFlowSolver.InitializeAndRun | mlir/include/mlir/Analysis/DataFlowFramework.h:312-338 | the run ends idle with the same analyses; it reports an initialization failure iff some analysis fails to initialize; on convergence the worklist is empty, and when the bound runs out it is not |
| DataFlowFramework.DataFlowSolver.DeclareEquivalences | mlir/include/mlir/Analysis/DataFlowFramework.h:618-625 | each analysis's `unionLatticeAnchors` calls keep the classes well formed |
| DataFlowFramework.DataFlowSolver.InitializeAll | mlir/include/mlir/Analysis/DataFlowFramework.h:589-597 | initializing the analyses in load order keeps the solver valid, every state in the table afterwards is an old or a new one, and it succeeds iff every analysis initializes |
| DataFlowFramework.DataFlowSolver.RunWorklist | mlir/include/mlir/Analysis/DataFlowFramework.h:598-617 | the worklist loop ends converged, with a failed visit, or when the model's bound runs out |
| ModuleTranslations.ModuleTranslation.constructor | mlir/include/mlir/Target/LLVMIR/ModuleTranslation.h:423-484 | a translation starts with the global, alias and ifunc tables given, so `LookupGlobal`, `LookupAlias` and `LookupIFunc` answer from them, and the other tables empty, so `LookupFunction` and `LookupValue` answer null |
| ModuleTranslations.ModuleTranslation.MapFunction | mlir/include/mlir/Target/LLVMIR/ModuleTranslation.h:71-81 | the name must be unmapped; afterwards `LookupFunction` of it answers the function and every other table is unchanged |
| ModuleTranslations.ModuleTranslation.MapValue | mlir/include/mlir/Target/LLVMIR/ModuleTranslation.h:84-98 | the entry must be null; afterwards `LookupValue` answers the stored value and every other table is unchanged |
| ModuleTranslations.ModuleTranslation.MapBlock | mlir/include/mlir/Target/LLVMIR/ModuleTranslation.h:104-113 | the block must be unmapped; afterwards `LookupBlock` answers the stored block and every other table is unchanged |
| ModuleTranslations.ModuleTranslation.InvalidateOmpLoop | mlir/include/mlir/Target/LLVMIR/ModuleTranslation.h:128 | the loop's mapping is removed and nothing else changes |
| ModuleTranslations.ModuleTranslation.MapOmpLoop | mlir/include/mlir/Target/LLVMIR/ModuleTranslation.h:137-142 | the loop info must be non-null and the loop unmapped; afterwards `LookupOmpLoop` answers it and every other table is unchanged |
| ModuleTranslations.ModuleTranslation.MapBranch | mlir/include/mlir/Target/LLVMIR/ModuleTranslation.h:152-163 | the operation must be unmapped; afterwards `LookupBranch` answers the instruction and every other table is unchanged |
| ModuleTranslations.ModuleTranslation.MapCall | mlir/include/mlir/Target/LLVMIR/ModuleTranslation.h:167-177 | the operation must be unmapped; afterwards `LookupCall` answers the call and every other table is unchanged |
| ModuleTranslations.ModuleTranslation.MapUnresolvedBlockAddress | mlir/include/mlir/Target/LLVMIR/ModuleTranslation.h:181-186 | the operation must be unmapped; afterwards it maps to the constant and every other table is unchanged |
| ModuleTranslations.ModuleTranslation.MapBlockAddress | mlir/include/mlir/Target/LLVMIR/ModuleTranslation.h:189-199 | the attribute must be unmapped; afterwards `LookupBlockAddress` answers the block and every other table is unchanged |
| ModuleTranslations.Target | mlir/include/mlir/Target/LLVMIR/ModuleTranslation.h:71-199 | each write changes exactly one table, never the global, alias or ifunc table |
| ModuleTranslations.RunFrame | mlir/include/mlir/Target/LLVMIR/ModuleTranslation.h:71-199 | for ANY sequence of writes, a table that no write of it targets ends exactly as it began |
| ModuleTranslations.RunKeepsGlobalTables | mlir/include/mlir/Target/LLVMIR/ModuleTranslation.h:255-272 | any sequence of writes leaves the tables `LookupGlobal`, `LookupAlias` and `LookupIFunc` read as they were |
| ModuleTranslations.RunGrows | mlir/include/mlir/Target/LLVMIR/ModuleTranslation.h:71-199 | a sequence of writes that passes every method's assertion never changes an entry once written (a value entry once non-null) |
| ModuleTranslations.NoWriteToFilledSlot | mlir/include/mlir/Target/LLVMIR/ModuleTranslation.h:71-199 | in such a sequence no write goes to a key that was already mapped before it |
| ModuleTranslations.WriteOnce | mlir/include/mlir/Target/LLVMIR/ModuleTranslation.h:71-199 | in such a sequence no key of a write-once table is written twice; a value may be written null and then once more |
| ModuleTranslations.RunShowsWrites | mlir/include/mlir/Target/LLVMIR/ModuleTranslation.h:71-199 | after such a sequence every write is still what its lookup answers (`LookupFunction`, `LookupValue` for non-null values, `LookupBlock`, `LookupBranch`, `LookupCall`, `LookupBlockAddress`) |
| ModuleTranslations.ApplyWrite | mlir/include/mlir/Target/LLVMIR/ModuleTranslation.h:71-199 | one admissible write through its `map*` or `invalidateOmpLoop` method leaves the tables `Apply` describes |
| ModuleTranslations.ApplyWrites | mlir/include/mlir/Target/LLVMIR/ModuleTranslation.h:71-199 | making the writes through the `map*` and `invalidateOmpLoop` methods leaves the tables that `Run` describes, so the lemmas above hold of the class |
| SystemZPostRewrite.SelectInstrOf | llvm/lib/Target/SystemZ/SystemZPostRewrite.cpp:228-262 | `selectMI` leaves an instruction unselected iff it is neither a memory-folding pseudo nor `LOCRMux` nor `SELRMux` |
| SystemZPostRewrite.LOCRMuxChoice | llvm/lib/Target/SystemZ/SystemZPostRewrite.cpp:76-92 | (about `SelectLOCRMuxOf`) both registers low gives the low opcode, both high the high opcode, mixed the branch sequence; operands are untouched |
| SystemZPostRewrite.SELRMuxSameSources | llvm/lib/Target/SystemZ/SystemZPostRewrite.cpp:118-125 | with equal sources the instruction is replaced by one COPY of the source into the destination, and only then |
| SystemZPostRewrite.SELRMuxCopies | llvm/lib/Target/SystemZ/SystemZPostRewrite.cpp:130-146 | (about `SelectSELRMuxOf`) at most one COPY is inserted, only when the destination is neither source; it copies the first source, in operand order, whose class differs from the destination's, and that operand becomes the destination |
| SystemZPostRewrite.ChoiceShape | llvm/lib/Target/SystemZ/SystemZPostRewrite.cpp:158-165 | the final choice keeps the copies and the operands of the instruction |
| SystemZPostRewrite.SELRMuxSimplified | llvm/lib/Target/SystemZ/SystemZPostRewrite.cpp:130-157 | after the copy and the commute the destination is unchanged and, when the classes are still mixed, equals the first source |
| SystemZPostRewrite.SELRMuxOpcodeFitsRegisters | llvm/lib/Target/SystemZ/SystemZPostRewrite.cpp:152-165 | `SELR` is chosen only for all-low registers, `SELFHR` only for all-high ones, the branch sequence only for mixed destination and second source |
| SystemZPostRewrite.ExpandedOperandIsDest | llvm/lib/Target/SystemZ/SystemZPostRewrite.cpp:181-182 | whenever selection reaches `expandCondMove`, the destination equals operand 1, so its assertion holds |
| SystemZPostRewrite.MemFoldSelection | llvm/lib/Target/SystemZ/SystemZPostRewrite.cpp:237-250 | (about `SelectMemFoldOf`) a memory-folding pseudo takes the target opcode, ties operands 0 and 1 and makes them equal, with one COPY exactly when they differed |
| SystemZPostRewrite.Exec | llvm/lib/Target/SystemZ/SystemZPostRewrite.cpp:167-169 | executing an instruction keeps the condition code |
| SystemZPostRewrite.InvertedCondition | llvm/lib/Target/SystemZ/SystemZPostRewrite.cpp:206-207 | the BRC mask `CCMask ^ CCValid` holds exactly when the move's condition fails, for every valid condition code |
| SystemZPostRewrite.CommutePreserves | llvm/lib/Target/SystemZ/SystemZPostRewrite.cpp:152-156 | (about `Commute`) commuting a conditional move leaves its effect unchanged |
| SystemZPostRewrite.ExpansionPreserves | llvm/lib/Target/SystemZ/SystemZPostRewrite.cpp:170-224 | the branch sequence of `expandCondMove` has the effect of the conditional move it replaces |
| SystemZPostRewrite.CopyPreserves | llvm/lib/Target/SystemZ/SystemZPostRewrite.cpp:130-146 | copying a source into a destination that is neither source, and reading the destination instead, keeps the effect |
| SystemZPostRewrite.CopyStagePreserves | llvm/lib/Target/SystemZ/SystemZPostRewrite.cpp:130-146 | the COPY stage of `selectSELRMux` keeps what the instruction computes |
| SystemZPostRewrite.OpcodeChangePreserves | llvm/lib/Target/SystemZ/SystemZPostRewrite.cpp:158-161 | giving a conditional move another conditional-move opcode keeps its effect |
| SystemZPostRewrite.ChoicePreserves | llvm/lib/Target/SystemZ/SystemZPostRewrite.cpp:158-165 | the final opcode choice, or the expansion, keeps the effect of the instruction |
| SystemZPostRewrite.LOCRMuxPreserves | llvm/lib/Target/SystemZ/SystemZPostRewrite.cpp:76-92 | selecting `LOCRMux` leaves every register as the pseudo would |
| SystemZPostRewrite.SELRMuxPreserves | llvm/lib/Target/SystemZ/SystemZPostRewrite.cpp:97-165 | (about `SelectSELRMuxOf`) selecting `SELRMux` leaves every register as the pseudo would |
| SystemZPostRewrite.SelectionPreservesSemantics | llvm/lib/Target/SystemZ/SystemZPostRewrite.cpp:72-165 | whatever path the selection of a conditional-move pseudo takes, every register ends as the pseudo would leave it |
| SystemZPostRewrite.ChoiceAfterCopies | llvm/lib/Target/SystemZ/SystemZPostRewrite.cpp:130-165 | choosing the opcode at the moved position after the copies is selecting the original instruction with those copies |
| SystemZPostRewrite.SelectAllStep | llvm/lib/Target/SystemZ/SystemZPostRewrite.cpp:266-277 | one step of the walk: the instruction's piece is emitted and the walk goes on, or an expansion ends the walk over the block |
| SystemZPostRewrite.ModifiedIffPseudo | llvm/lib/Target/SystemZ/SystemZPostRewrite.cpp:266-277 | `selectMBB` reports a change iff the block holds a pseudo |
| SystemZPostRewrite.NoSplitVisitsAll | llvm/lib/Target/SystemZ/SystemZPostRewrite.cpp:266-277 | without an expansion every original instruction is visited once, in order |
| SystemZPostRewrite.MachineBasicBlock.constructor | llvm/lib/Target/SystemZ/SystemZPostRewrite.cpp:190-191 | a new block has no instructions and no successors |
| SystemZPostRewrite.MachineBasicBlock.InsertBefore | llvm/lib/Target/SystemZ/SystemZPostRewrite.cpp:131-133 | `BuildMI` before a position inserts exactly one instruction there |
| SystemZPostRewrite.MachineBasicBlock.SetInstr | llvm/lib/Target/SystemZ/SystemZPostRewrite.cpp:158-161 | an in-place change replaces exactly one instruction |
| SystemZPostRewrite.MachineBasicBlock.Erase | llvm/lib/Target/SystemZ/SystemZPostRewrite.cpp:123 | `eraseFromParent` removes exactly that instruction |
| SystemZPostRewrite.PostRewritePass.constructor | llvm/lib/Target/SystemZ/SystemZPostRewrite.cpp:279-281 | the pass holds the target description |
| SystemZPostRewrite.PostRewritePass.SplitBlock | llvm/lib/Target/SystemZ/SystemZPostRewrite.cpp:190-193 | the instructions from the split point on and the successors move into a new block placed right after the old one |
| SystemZPostRewrite.PostRewritePass.ExpandCondMove | llvm/lib/Target/SystemZ/SystemZPostRewrite.cpp:170-224 | the block ends in a BRC to the rest block on `CCMask ^ CCValid`; its successors are the rest and move blocks; the move block holds one COPY and falls through to the rest block; the instruction is erased and the walk continues at the block's end |
| SystemZPostRewrite.PostRewritePass.SetOpcode | llvm/lib/Target/SystemZ/SystemZPostRewrite.cpp:86-89 | `setDesc` changes the opcode of that one instruction in place |
| SystemZPostRewrite.PostRewritePass.SelectLOCRMux | llvm/lib/Target/SystemZ/SystemZPostRewrite.cpp:76-92 | the block afterwards is the one `LOCRMuxChoice` describes |
| SystemZPostRewrite.PostRewritePass.CopySourceIntoDest | llvm/lib/Target/SystemZ/SystemZPostRewrite.cpp:130-146 | the copy stage inserts its COPY before the instruction and rewrites the operand; the sources are reported afterwards |
| SystemZPostRewrite.PostRewritePass.PreferDestFirst | llvm/lib/Target/SystemZ/SystemZPostRewrite.cpp:151-156 | a destination equal to the second source only is moved first by commuting; the swapped sources are reported |
| SystemZPostRewrite.PostRewritePass.SimplifySELRMux | llvm/lib/Target/SystemZ/SystemZPostRewrite.cpp:130-156 | both simplifications leave the copies and the simplified instruction in the block |
| SystemZPostRewrite.PostRewritePass.SELRMuxChooseOpcode | llvm/lib/Target/SystemZ/SystemZPostRewrite.cpp:158-165 | the final choice: all low, all high, or the branch sequence |
| SystemZPostRewrite.PostRewritePass.SelectSELRMux | llvm/lib/Target/SystemZ/SystemZPostRewrite.cpp:97-165 | the block afterwards is the one the `SELRMux` selection describes |
| SystemZPostRewrite.PostRewritePass.SelectMI | llvm/lib/Target/SystemZ/SystemZPostRewrite.cpp:228-262 | answers true iff the instruction is a pseudo, and the block afterwards is as its selection describes |
| SystemZPostRewrite.PostRewritePass.SelectMBB | llvm/lib/Target/SystemZ/SystemZPostRewrite.cpp:266-277 | the answer is the OR of every selection, and the block holds the selected pieces in order, or the splice after the first expansion |
| BufferResultsToOutParams.FullyDynamicLayoutMeaning | mlir/lib/Dialect/Bufferization/Transforms/BufferResultsToOutParams.cpp:28-44 | (about `HasFullyDynamicLayoutMap` and `HasStaticIdentityLayout`) a layout is fully dynamic iff strides and offset are computable and all dynamic; the identity layout never is |
| BufferResultsToOutParams.MemRefTypes | mlir/lib/Dialect/Bufferization/Transforms/BufferResultsToOutParams.cpp:60-72 | the erased result types are memref types |
| BufferResultsToOutParams.OtherTypes | mlir/lib/Dialect/Bufferization/Transforms/BufferResultsToOutParams.cpp:93-95 | the kept result types are not memref types |
| BufferResultsToOutParams.TypePartition | mlir/lib/Dialect/Bufferization/Transforms/BufferResultsToOutParams.cpp:57-95 | the memref and other results partition the results, each in order, with ascending positions, every position in exactly one list according to its type |
| BufferResultsToOutParams.MemRefIndices | mlir/lib/Dialect/Bufferization/Transforms/BufferResultsToOutParams.cpp:57-73 | the positions of the memref results, one per erased result type, each within the results |
| BufferResultsToOutParams.OtherIndices | mlir/lib/Dialect/Bufferization/Transforms/BufferResultsToOutParams.cpp:93-95 | the positions of the kept results, one per kept result type, each within the results |
| BufferResultsToOutParams.MemRefValues | mlir/lib/Dialect/Bufferization/Transforms/BufferResultsToOutParams.cpp:116-121 | the memref-typed operands of a return, in order |
| BufferResultsToOutParams.OtherValues | mlir/lib/Dialect/Bufferization/Transforms/BufferResultsToOutParams.cpp:116-121 | the non-memref operands of a return, in order |
| BufferResultsToOutParams.PartitionLengths | mlir/lib/Dialect/Bufferization/Transforms/BufferResultsToOutParams.cpp:57-95 | the erased and the kept results together are as many as the results |
| BufferResultsToOutParams.PartitionPositions | mlir/lib/Dialect/Bufferization/Transforms/BufferResultsToOutParams.cpp:57-95 | each erased or kept type is the result type at its recorded position |
| BufferResultsToOutParams.PartitionAscending | mlir/lib/Dialect/Bufferization/Transforms/BufferResultsToOutParams.cpp:57-95 | the erased and the kept positions are each strictly ascending, so the order of results is kept |
| BufferResultsToOutParams.PartitionMembership | mlir/lib/Dialect/Bufferization/Transforms/BufferResultsToOutParams.cpp:57-95 | a position is erased iff its result is a memref, and kept iff it is not |
| BufferResultsToOutParams.MemRefMembership | mlir/lib/Dialect/Bufferization/Transforms/BufferResultsToOutParams.cpp:57-73 | a position is among the erased ones iff its result type is a memref |
| BufferResultsToOutParams.OtherMembership | mlir/lib/Dialect/Bufferization/Transforms/BufferResultsToOutParams.cpp:93-95 | a position is among the kept ones iff its result type is not a memref |
| BufferResultsToOutParams.MemRefValuesFrom | mlir/lib/Dialect/Bufferization/Transforms/BufferResultsToOutParams.cpp:116-121 | every memref operand picked is an operand of the return |
| BufferResultsToOutParams.ValuePartitionTypes | mlir/lib/Dialect/Bufferization/Transforms/BufferResultsToOutParams.cpp:116-121 | partitioning values partitions their types the same way |
| BufferResultsToOutParams.ValuePartitionIndices | mlir/lib/Dialect/Bufferization/Transforms/BufferResultsToOutParams.cpp:116-121 | the partitioned operands sit at the positions the partition of their types gives |
| BufferResultsToOutParams.PartitionOfUniformLists | mlir/lib/Dialect/Bufferization/Transforms/BufferResultsToOutParams.cpp:116-121 | a list without memrefs is kept whole, and a list of only memrefs is moved whole |
| BufferResultsToOutParams.Zip | mlir/lib/Dialect/Bufferization/Transforms/BufferResultsToOutParams.cpp:123 | `llvm::zip` pairs the `i`-th elements up to the shorter list |
| BufferResultsToOutParams.MovedResultAttrs | mlir/lib/Dialect/Bufferization/Transforms/BufferResultsToOutParams.cpp:83-91 | one attribute dictionary per moved result |
| BufferResultsToOutParams.KeptResultAttrs | mlir/lib/Dialect/Bufferization/Transforms/BufferResultsToOutParams.cpp:93-95 | one attribute dictionary per kept result |
| BufferResultsToOutParams.FreshValues | mlir/lib/Dialect/Bufferization/Transforms/BufferResultsToOutParams.cpp:101-102 | new values of the given types with consecutive fresh identifiers |
| BufferResultsToOutParams.FuncOp.constructor | mlir/lib/Dialect/Bufferization/Transforms/BufferResultsToOutParams.cpp:51-55 | a function with its signature, attributes and return operations, and no copies yet |
| BufferResultsToOutParams.ModuleOp.constructor | mlir/lib/Dialect/Bufferization/Transforms/BufferResultsToOutParams.cpp:213-216 | a module with its functions and calls, and nothing created yet |
| BufferResultsToOutParams.ModuleOp.NewValue | mlir/lib/Dialect/Bufferization/Transforms/BufferResultsToOutParams.cpp:101-102 | a value with a fresh identifier |
| BufferResultsToOutParams.CollectErasedResults | mlir/lib/Dialect/Bufferization/Transforms/BufferResultsToOutParams.cpp:57-73 | fails iff some memref result has a layout that is neither the identity nor fully dynamic; otherwise answers the memref results and their positions, in order |
| BufferResultsToOutParams.TransferResultAttrs | mlir/lib/Dialect/Bufferization/Transforms/BufferResultsToOutParams.cpp:83-91 | argument `numInputs + i` receives the attributes of the `i`-th erased result, with `bufferize.result` when asked; earlier arguments keep theirs |
| BufferResultsToOutParams.MoveResultAttrs | mlir/lib/Dialect/Bufferization/Transforms/BufferResultsToOutParams.cpp:76-91 | the appended arguments carry the moved results' attributes, in order |
| BufferResultsToOutParams.EraseResults | mlir/lib/Dialect/Bufferization/Transforms/BufferResultsToOutParams.cpp:93-95 | the memref results go with their attributes; the others stay in order |
| BufferResultsToOutParams.AppendEntryArgs | mlir/lib/Dialect/Bufferization/Transforms/BufferResultsToOutParams.cpp:101-102 | one new entry-block argument per erased result type, in order |
| BufferResultsToOutParams.UpdateFuncOp | mlir/lib/Dialect/Bufferization/Transforms/BufferResultsToOutParams.cpp:51-105 | fails, changing nothing, iff a memref result has an unsupported layout; otherwise the inputs gain the memref result types in order, the results are the other results, the attributes move, and only a function with a body gets new entry arguments |
| BufferResultsToOutParams.AcceptedCopiesMeaning | mlir/lib/Dialect/Bufferization/Transforms/BufferResultsToOutParams.cpp:123-134 | the copies made are those before the first refused one, and they are all of them iff none is refused |
| BufferResultsToOutParams.CopyIntoOutParams | mlir/lib/Dialect/Bufferization/Transforms/BufferResultsToOutParams.cpp:123-134 | copies the `i`-th memref operand into the `i`-th appended argument in order, stopping at the first refused copy |
| BufferResultsToOutParams.RewrittenReturns | mlir/lib/Dialect/Bufferization/Transforms/BufferResultsToOutParams.cpp:113-138 | there are as many return operations after the rewrite as before |
| BufferResultsToOutParams.FirstFailingReturn | mlir/lib/Dialect/Bufferization/Transforms/BufferResultsToOutParams.cpp:113-138 | the position where the walk stops lies within the return operations |
| BufferResultsToOutParams.FirstFailingReturnMeaning | mlir/lib/Dialect/Bufferization/Transforms/BufferResultsToOutParams.cpp:113-139 | the walk stops at the first return with a refused copy, and succeeds iff it reaches the end |
| BufferResultsToOutParams.KeptOperands | mlir/lib/Dialect/Bufferization/Transforms/BufferResultsToOutParams.cpp:116-121 | each replacing return holds its non-memref operands |
| BufferResultsToOutParams.RewrittenReturnAt | mlir/lib/Dialect/Bufferization/Transforms/BufferResultsToOutParams.cpp:113-138 | returns before the stopping point return only their non-memref operands; the rest keep theirs |
| BufferResultsToOutParams.SuccessfulReturnRewrite | mlir/lib/Dialect/Bufferization/Transforms/BufferResultsToOutParams.cpp:113-139 | on success every return returns exactly its non-memref operands and every copy of every return is made, in order |
| BufferResultsToOutParams.ReturnRewriteMeaning | mlir/lib/Dialect/Bufferization/Transforms/BufferResultsToOutParams.cpp:116-135 | the `i`-th copy goes from the `i`-th memref operand, at the position the partition gives, to the `i`-th appended argument; the new return has the non-memref operand types |
| BufferResultsToOutParams.RewriteReturn | mlir/lib/Dialect/Bufferization/Transforms/BufferResultsToOutParams.cpp:114-137 | one return: its copies, and iff all are accepted its replacement by a return of its non-memref operands |
| BufferResultsToOutParams.ReturnsAt | mlir/lib/Dialect/Bufferization/Transforms/BufferResultsToOutParams.cpp:113-138 | the walk from one return either stops there, when a copy is refused, or goes on with the next |
| BufferResultsToOutParams.UpdateReturnOps | mlir/lib/Dialect/Bufferization/Transforms/BufferResultsToOutParams.cpp:110-140 | succeeds iff every copy of every return is accepted; returns up to the first failure keep only their non-memref operands; the copies made are those up to it |
| BufferResultsToOutParams.LookupFunc | mlir/lib/Dialect/Bufferization/Transforms/BufferResultsToOutParams.cpp:150-156 | the symbol lookup answers a function of that name, and none iff there is none |
| BufferResultsToOutParams.CreatedOutParamsCount | mlir/lib/Dialect/Bufferization/Transforms/BufferResultsToOutParams.cpp:169-186 | the memref loop stops at the first result with a dynamic shape or a refused allocation, and succeeds iff every result can have an out-param |
| BufferResultsToOutParams.CreatedOutParamAt | mlir/lib/Dialect/Bufferization/Transforms/BufferResultsToOutParams.cpp:176-196 | the `j`-th out-param has the `j`-th memref result's type, and is its identity-layout buffer or a cast of it |
| BufferResultsToOutParams.CreatedOutParamsTyped | mlir/lib/Dialect/Bufferization/Transforms/BufferResultsToOutParams.cpp:169-197 | every out-param made is as the layout of its result requires |
| BufferResultsToOutParams.CreatedOutParamsFresh | mlir/lib/Dialect/Bufferization/Transforms/BufferResultsToOutParams.cpp:180-193 | the out-params have fresh, ascending identifiers |
| BufferResultsToOutParams.CreateOutParams | mlir/lib/Dialect/Bufferization/Transforms/BufferResultsToOutParams.cpp:167-197 | allocates the out-params in order, replaces each memref result's uses by its out-param, and fails at the first result that cannot have one |
| BufferResultsToOutParams.NewOutParam | mlir/lib/Dialect/Bufferization/Transforms/BufferResultsToOutParams.cpp:176-194 | one allocation, cast to the result's type when the layout is not the identity |
| BufferResultsToOutParams.RewrittenCallMeaning | mlir/lib/Dialect/Bufferization/Transforms/BufferResultsToOutParams.cpp:199-206 | the new call has the old operands followed by one out-param per memref result, of its type, and one result per other result; the memref results are replaced by the out-params and the others by the new results |
| BufferResultsToOutParams.UpdateCall | mlir/lib/Dialect/Bufferization/Transforms/BufferResultsToOutParams.cpp:149-208 | fails iff the callee is missing or a selected call's memref result cannot have an out-param; a filtered-out call is kept; a rewritten call replaces the old one; supported layouts are required only of a selected call, the one that reaches the assertion at lines 188-191 |
| BufferResultsToOutParams.RewriteCall | mlir/lib/Dialect/Bufferization/Transforms/BufferResultsToOutParams.cpp:159-207 | succeeds iff every memref result can have an out-param, and then replaces the call |
| BufferResultsToOutParams.ReplaceCall | mlir/lib/Dialect/Bufferization/Transforms/BufferResultsToOutParams.cpp:199-207 | the new call appends the out-params to the operands and returns fresh values for the kept results, which replace the old ones |
| BufferResultsToOutParams.NewCallResults | mlir/lib/Dialect/Bufferization/Transforms/BufferResultsToOutParams.cpp:201-204 | fresh results of the kept results' types |
| BufferResultsToOutParams.UpdateCalls | mlir/lib/Dialect/Bufferization/Transforms/BufferResultsToOutParams.cpp:144-211 | succeeds iff every call's update does; the walk goes on after a failure; each selected successful call becomes the rewritten call (old operands followed by its out-params, fresh results for the kept results), every other call is kept; on success the use replacements are those of the rewritten calls, in walk order; its precondition `SelectedCallsSupported` is the condition of the assertion at lines 188-191, for selected calls only |
| BufferResultsToOutParams.PromoteFunc | mlir/lib/Dialect/Bufferization/Transforms/BufferResultsToOutParams.cpp:219-227 | succeeds iff the result layouts are supported and, for a function with a body, every return accepts the copy of each memref operand into the entry argument appended for it; on success the function is promoted, a function with a body gets one fresh entry argument per memref result, and every copy of every return is made, in order |
| BufferResultsToOutParams.PromoteFuncs | mlir/lib/Dialect/Bufferization/Transforms/BufferResultsToOutParams.cpp:216-228 | the function loop stops at the first selected function whose update fails: on failure some selected function's update failed, every function before it is done as on success, and every function after it is untouched; it succeeds iff every selected function's update does; on success every selected function had supported result types, is promoted and copies its memref results into its new entry arguments, every other keeps its signature, and the calls are untouched |
| BufferResultsToOutParams.SelectedCallsSupportedFrom | mlir/lib/Dialect/Bufferization/Transforms/BufferResultsToOutParams.cpp:186-191 | when every selected function's result types before the rewrite are supported and the calls are well typed against them, the results of every selected call have supported layouts, the condition of the assertion |
| BufferResultsToOutParams.Promote | mlir/lib/Dialect/Bufferization/Transforms/BufferResultsToOutParams.cpp:213-232 | needs only a well-typed module (`CallsTyped`: a call's result types are its callee's); succeeds iff every selected function's update (layouts supported, every copy accepted) and every call's update does; on success every selected function is promoted and copies its memref results into its new entry arguments, which establishes the layout assertion of `updateCalls`; every other function keeps its signature; every selected call is the rewritten call and every other is kept; the use replacements are those of the rewritten calls, in walk order; when a selected function's update fails, the calls and the use replacements are untouched |
| BufferUtils.GetStartOperation | mlir/lib/Dialect/Bufferization/Transforms/BufferUtils.cpp:31-49 | the liveness start operation when it lies in the placement block, else its ancestor there, else the block's terminator |
| BufferUtils.StartOperationInPlacementBlock | mlir/lib/Dialect/Bufferization/Transforms/BufferUtils.cpp:31-49 | the chosen start operation always lies in the placement block |
| BufferUtils.AllocateResultEffects | mlir/lib/Dialect/Bufferization/Transforms/BufferUtils.cpp:62-71 | the filter keeps exactly the allocations of operation results outside the automatic allocation scope resource |
| BufferUtils.TwoQualifyingEffects | mlir/lib/Dialect/Bufferization/Transforms/BufferUtils.cpp:62-75 | two qualifying effects leave at least two after filtering, so the operation is skipped |
| BufferUtils.NoQualifyingEffect | mlir/lib/Dialect/Bufferization/Transforms/BufferUtils.cpp:62-75 | no qualifying effect, an empty filter result |
| BufferUtils.OnlyQualifyingEffect | mlir/lib/Dialect/Bufferization/Transforms/BufferUtils.cpp:62-77 | a single qualifying effect is exactly what the filter keeps |
| BufferUtils.SingleAllocationMeaning | mlir/lib/Dialect/Bufferization/Transforms/BufferUtils.cpp:57-77 | an operation yields an allocation iff exactly one of its effects qualifies, and the allocation is that effect's value |
| BufferUtils.AllocEntriesAppend | mlir/lib/Dialect/Bufferization/Transforms/BufferUtils.cpp:56-85 | entries follow the walk order |
| BufferUtils.AllocEntriesSound | mlir/lib/Dialect/Bufferization/Transforms/BufferUtils.cpp:56-85 | every entry comes from a walked operation |
| BufferUtils.AllocEntriesComplete | mlir/lib/Dialect/Bufferization/Transforms/BufferUtils.cpp:56-85 | every walked operation's entry is recorded |
| BufferUtils.AllocEntriesMembership | mlir/lib/Dialect/Bufferization/Transforms/BufferUtils.cpp:74-83 | an entry is recorded iff it is the single allocation of a walked operation with a unique or absent deallocation, paired with it |
| BufferUtils.BufferPlacementAllocs.constructor | mlir/lib/Dialect/Bufferization/Transforms/BufferUtils.cpp:53 | the constructor records the entries of the walk |
| BufferUtils.BufferPlacementAllocs.Build | mlir/lib/Dialect/Bufferization/Transforms/BufferUtils.cpp:56-85 | `build` appends the entries of the walk, in order |
| BufferUtils.FirstReusable | mlir/lib/Dialect/Bufferization/Transforms/BufferUtils.cpp:111-121 | the first global with the constant's initial value and the requested alignment, a missing one counting as 0; none before it qualifies |
| BufferUtils.FirstReusableAt | mlir/lib/Dialect/Bufferization/Transforms/BufferUtils.cpp:111-121 | the search loop stops exactly at the first reusable position |
| BufferUtils.Decimal | mlir/lib/Dialect/Bufferization/Transforms/BufferUtils.cpp:131 | a printed dimension is a non-empty string of digits |
| BufferUtils.DecimalRoundTrip | mlir/lib/Dialect/Bufferization/Transforms/BufferUtils.cpp:131 | the printed dimension reads back as the dimension |
| BufferUtils.JoinDims | mlir/lib/Dialect/Bufferization/Transforms/BufferUtils.cpp:131 | the joined shape is empty iff the shape is, and holds `x` iff there are two or more dimensions |
| BufferUtils.JoinDimsInjective | mlir/lib/Dialect/Bufferization/Transforms/BufferUtils.cpp:131 | different shapes join differently |
| BufferUtils.GlobalNameExamples | mlir/lib/Dialect/Bufferization/Transforms/BufferUtils.cpp:129-146 | (worked example of `GlobalName`) a 2x3 tensor of i32 is named `__constant_2x3xi32`, a rank-0 f32 tensor `__constant_xf32` |
| BufferUtils.GlobalNameDeterminesShape | mlir/lib/Dialect/Bufferization/Transforms/BufferUtils.cpp:129-146 | (about `GlobalName`) two new globals of one element type have the same name only for the same shape |
| BufferUtils.NewGlobalShape | mlir/lib/Dialect/Bufferization/Transforms/BufferUtils.cpp:134-151 | (about `GlobalName`) a new global holds the constant, is private and constant, has the tensor's shape and element type in the requested memory space, carries an alignment iff one above 0 was asked for, and is reusable for that request |
| BufferUtils.GetGlobalFor | mlir/lib/Dialect/Bufferization/Transforms/BufferUtils.cpp:100-157 | fails without an enclosing module; otherwise answers the first reusable global, changing nothing, or puts a new global at the front of the module body |

## Left out

- `llvm/ADT/EquivalenceClasses.h` is not part of this model. `EquivalenceClasses` follows LLVM's documented behaviour: a class is a member list led by its head; `unionSets` appends the second list behind the first; `erase` promotes the next member. An emptied class keeps its slot, so that slot numbers do not shift.
- `StorageUniquer` is modelled as an arena searched in order, with handles as indices; hashing, `DenseMapInfo` empty/tombstone keys and allocation are left out.
- The bodies of `initializeAndRun`, `propagateIfChanged` and `addDependency` are not in the header. They follow the documentation: `propagateIfChanged` enqueues `dependents` when the state changed; `addDependency` inserts into the set vector.
- Initialization, visits and equivalence declarations are the virtual `initialize`, `visit` and `initializeEquivalentLatticeAnchor`. They are parameters of `InitializeAndRun`, which reports whether each step succeeds.
- Only the base `AnalysisState::onUpdate` is modelled, which enqueues the dependents. Subclass overrides that also enqueue the users of a value or the successors of a block are outside the model.
- The "nudging" of uninitialized states when the worklist runs dry is not modelled.
- DataFlowFramework.DataFlowSolver.RunWorklist: the fixed-point loop runs at most `fuel` visits, because termination depends on the analyses' lattices; `OutOfFuel` reports an unfinished run.
- DataFlowFramework.DataFlowSolver.InitializeAndRun: states only that the run ends idle with its analyses, fails to initialize exactly when some analysis does, and converges with an empty worklist; the analyses' results are abstract.
- DataFlowFramework.DataFlowSolver.DeclareEquivalences: promises only that the solver stays valid; the classes it builds are described by UnionLatticeAnchors and UnionMakesEquivalent for each call.
- DataFlowFramework.DataFlowSolver.InitializeAll: states validity, where the states come from and when it succeeds, but not what the states hold, because `initialize` is abstract.
- DataFlowFramework.DataFlowSolver.PropagateIfChanged: has no `isRunning` requirement, since the assertion on it lies in the `.cpp` file, which is not part of this model.
- `print`, `dump`, `debugName`, `getLoc` and `DataFlowConfig` beyond `interprocedural` are left out.
- LLVM IR construction in `ModuleTranslation` (`convert*`, metadata, debug info, the OpenMP IR builder, type translation, `StateStack`) is left out; LLVM entities are opaque handles. `forgetMapping` is only declared, so it is left out too.
- The `Value` overloads of `lookupOMPLoop`, `invalidateOmpLoop` and `mapOmpLoop` (`getDefiningOp<omp::NewCliOp>()`) are left out: the model keys loops by the defining operation.
- `LivePhysRegs` liveness and live-in lists, debug-value substitution, statistics and kill flags in the SystemZ pass are left out.
- `SystemZ::isHighReg` and `SystemZ::getTargetMemOpcode` are uninterpreted functions.
- `commuteInstruction(MI, false, 1, 2)` on a conditional move swaps the sources and inverts the mask within the valid mask; the target's implementation is not part of this model.
- SystemZPostRewrite.Exec: the semantics gives a conditional move its second source when the condition holds and its first otherwise; memory-folding pseudos and other instructions have no semantics here.
- `runOnMachineFunction` is not modelled separately: it ORs `selectMBB` over the blocks.
- After an expansion the model's `selectMBB` stops walking the original block, as `NextMBBI = MBB.end()` makes it; the machine function's later visit of the new rest block is not modelled.
- `hoistStaticAllocs` is modelled as off: the option's replacement of a static allocation by the out-param is left out.
- `memCpyFn` and `allocationFn` are parameters (`memCpy`, `allocate`) that only accept or refuse; the IR they build is recorded as copies and allocations.
- `filterFn` is a predicate on the function name.
- `emitError` diagnostics are not modelled; the failure result is.
- `eraseResults` is assumed to succeed.
- Symbol-table renaming and insertion are left out.
- The new call results and entry-block arguments are fresh value identifiers; `replaceAllUsesWith` is recorded as a list of (old, new) replacements.
- BufferResultsToOutParams.UpdateCalls: requires that the results of every selected call (callee present and accepted by the filter) have supported layouts. This is the condition of the source's assertion at lines 188-191, which only selected calls reach; `Promote` proves it from the success of `updateFuncOp` on every selected callee and the typing of the calls.
- BufferResultsToOutParams.UpdateCalls: the allocations and casts made for the out-params are stated per call (`CreateOutParams`), not gathered over the whole call walk; the same holds for `Promote`.
- BufferResultsToOutParams.PromoteFunc: on failure the function may be partly rewritten, as in the source; the model states exactly when it fails, but not the partial state it leaves.
- `findDealloc`, `Liveness`, `findAncestorOpInBlock` and `getEffects` are parameters or inputs of the bufferization utilities.
- Attributes are compared by identity (`ElementsAttr` is a number), and element types are named by their printed form.
- `removeSymbol` and `insertSymbol` are thin wrappers over the symbol table, so they are left out.
- The `mlir-c` C API, the Python binding tests, and the libc, libcxx, NVPTX and clang-tidy files are outside this model: they hold declarations, tests or wrappers over code that is not part of it.
