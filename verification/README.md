# Verified model of the program generator's analyses

HIPSmith generates random programs that are meant to be free of undefined behaviour. This project models the
parts of the generator that carry that promise, and the exhaustive search that drives it, and proves what they
guarantee. `dafny verify dfyconfig.toml` checks everything.

## What is modelled

**The points-to analysis and the effect system** (`Variables`, `Facts`, `PointsTo`, `Expressions`, `CGContexts`,
`ExprSound`, `OrderIndependence`, `Acceptance`, `Scopes`, `Statements`, `ScopeSound`, `Analysis`, `FixedPoint`, `Precision`,
`AnalysisRuns`, `RecordedEffects`, `Outcomes`, `LinkedRecords`, `FactMgrs`, `RunAccesses`, `RunEffects`, `Shortcut`,
`PostCreations`, `Repairs`).
A small pointer language has typed variables with any number of pointer levels, arrays analysed through one
collective variable, null, dead storage, dereference chains, embedded assignments, commas, `&&`/`||`,
n-ary operators with unsequenced operands, blocks with initialised locals, `if`, `for`, `break` and `continue`.
It has a concrete store semantics. Evaluation is undefined when a null or dead pointer is followed, a dead pointer
value is read, or two unsequenced evaluations conflict (section 6.5 paragraph 2 of ISO/IEC 9899:2011). The abstract
side is the generator's own: fact vectors with `merge_fact` and `renew_fact`, the effect checks, and the fact manager
with its memoised in- and out-facts, its fixed-point loop and the repair of new blocks. `AnalysisRuns` describes a run of
the analysis, successful or failing, as a relation between records, and the manager follows it. The two sides are connected by `Covers`: every pointer in the
store holds one of the pointees its fact lists. Soundness asks for enough facts and effects; `Acceptance`, `Precision` and
`Outcomes` say exactly what is accepted and exactly which facts there are. `RecordedEffects` says what the recorded effects
are made of, and `RunEffects` that they cover every access of every run.

**The exhaustive search** (`Dfs`): the replaying random-number generator over an array of search states, and the loop
around it.

**The odometer** (`Enumerators`), **the guarded vector arithmetic** (`SafeMath`), **the caller-to-callee handover**
(`Handover`), **the call-graph walk** (`CallGraph`), **weighted choice** (`Distribution`), **union-write facts**
(`UnionFacts`, `UnionPrecision`), **read and write sets over nested variables** (`EffectSets`) and **statement removal** (`ControlFlow`, `Removals`,
`RemoveStmts`).
The points-to part uses plain sets of variables as effects, because its variables have no members; `EffectSets` models the
same class with nested ones. `Collections` holds what several modules share.

Code that updates state is modelled by classes and by methods with loops, each tied to a specification function or
to the property itself. The specification functions are what the lemmas speak about.

## What the proofs found

- `shortcut_analysis` takes a statement without recorded in-facts for analysed when the incoming fact vector is empty,
  because the map entry it compares with is then created empty (`SkipNullWrite`); what it skips can be undefined
  (`SkippedStatementIsUndefined`). "The same facts" means "recorded" if and only if there is a record or a pointer is in
  scope (`SameMeansRecorded`), and that is what the soundness theorems ask for. The generator records in-facts when it
  creates a statement (src/Statement.cpp:902), so nothing here says that it gets into the state of the example.
- A dereference of a single array element is always rejected: the pointer test looks for a fact about the element,
  while facts are about the whole array (`ElementDereferenceRejected`).
- The main loop of the exhaustive search ends exactly when a run starts with a choice and at least one choice is
  allowed (`FirstRunEnds`, `NeverEnds`).
- A depth guard compares with one choice more than is left, so it prunes less than it could: a walk is cut off exactly if,
  from the second choice on, a guard on its way asks for at least two choices more than are left (`GuardBound`, `OneGuard`). It loses
  nothing exactly when no firing guard stands above an accepted walk (`EagerIsLossless`, `GuardLosesWalk`).
- Without a pointer in scope and without records, no block is looked at and its recorded effect is empty
  (`NothingLookedAt`), for the reason above. With a pointer in scope the recorded effect covers every access of every run
  (`FunctionEffect`).
- Parameters take their facts one after the other. Each gets exactly those of its own argument if no argument and no fact
  refers to a parameter (`ParamsExactly`); otherwise the order counts (`SwappedArguments`).
- On variables of the types that the generator makes, where no union is a member of anything (src/Type.cpp:676-738,
  src/Type.cpp:1151-1174), both partial queries of the effect sets find every overlapping access, and besides only accesses to the
  same member of a union (`GeneratedTypesNestNoUnion`, `GeneratedOverlapsFound`). This rests on the types: the class
  itself would miss overlaps with unions inside structures or unions (`WriteMissedExactly`, `ReadMissedExactly`, with
  `NestedUnionsAreMissed` and `ReadOfStructIsMissed` as examples). The structure of all globals, which may hold unions, is
  put together when no more effects are computed (src/HIPSmith/Globals.cpp:189-210).
- `consolidate` forgets a read exactly if a read entry lies directly inside a union that counts as read, and then only
  inside such entries (`EffectSets.Effect.Consolidate`, `LoseRead`). Nothing calls it.
- Deleting a statement deletes the gotos into it, and the gotos into those. The count that `remove_stmt` returns is the
  number of statements its block loses if and only if no goto of that block goes because of one in another block
  (`CountIsExact`, `CountCanBeTooSmall`); only `remove_stmt` itself uses it, its caller does not (src/Block.cpp:738). The repair
  step deletes exactly the statements from the failing one on, as the comment above the code says, if and only if no
  earlier statement of the block is swept away with them (`DeletesTheRest`); in a block `[w, goto x, x, y]` that fails at
  `x`, the goto, which was inserted behind `w`, goes with `x` and `y` stays (`LaterStatementStays`). The analysis is then repeated, so what stays is analysed.
- In the union analysis `TOP` is no unit of the join: joined with anything else it gives `BOTTOM` (`JoinFidIsJoin`).
- `key_to_prob` looks only at the first entry of a key, so it is the number of draws exactly if later entries of that
  key have no weight (`LookupMatchesDraws`). Nothing calls it.
- The left-shift guard is exact for signed operands and stricter than the standard for unsigned ones; the right-shift
  guard also rejects negative operands, whose shift is implementation-defined (`GuardMeansDefined`).

## Model

| member | source | states |
|---|---|---|
| Facts.JoinIsLeastUpperBound | src/FactPointTo.cpp:553-608 | The join of two facts about a variable is above both and below everything that is above both, for points-to and for union-write facts |
| Facts.SubVarsIsSubset | src/FactPointTo.cpp:541-608 | The size tests in `equal` and `imply` decide set equality and inclusion for lists without duplicates |
| Facts.JoinPointees | src/FactPointTo.cpp:553-570 | The in-place join of point-to lists computes the join and reports a change exactly when there is one |
| Facts.MergeFact | src/Fact.cpp:155-178 | Merges a fact into the first related one, or appends it; without a change the vector is the same |
| Facts.RenewFact | src/Fact.cpp:180-196 | Replaces the first related fact, or appends the new one; reports a change exactly when the facts differed |
| Facts.MergeFacts | src/Fact.cpp:198-208 | Merges a whole vector, fact by fact |
| Facts.FindRelatedFact | src/Fact.cpp:131-139 | Finds the first fact of the same category about the same variable |
| Facts.SameFacts | src/Fact.cpp:248-259 | Decides equal length and a matching fact for every entry |
| Facts.MergedMeaning | src/Fact.cpp:155-178 | After a merge the pointees of a variable are the union of the old and the new ones; other variables are untouched |
| Facts.RenewedMeaning | src/Fact.cpp:180-196 | After a renewal the pointees of the variable are exactly the new ones; other variables are untouched |
| Facts.MergedWellFormed | src/Fact.cpp:155-196 | Merging and renewing keep at most one fact per category and variable and no duplicate pointee |
| Facts.MergedAllMeaning | src/Fact.cpp:198-208 | Merging vectors keeps every pointee of both and loses no variable |
| PointsTo.MergePointeesOfPointers | src/FactPointTo.cpp:678-704 | One dereference step computes `PointeesOfAll` |
| PointsTo.PointeesOfAllMembers | src/FactPointTo.cpp:678-704 | A variable results from one dereference step exactly if some ordinary pointer in the list may point to it |
| PointsTo.MergePointeesOfPointer | src/FactPointTo.cpp:667-676 | A chain of any number of dereferences is the repeated step |
| PointsTo.DerefNoDup | src/FactPointTo.cpp:667-704 | Dereferencing never lists a variable twice |
| PointsTo.UpdateFactsForOosVars | src/FactMgr.cpp:141-175 | The erase-while-walking loops compute the facts without the retired variables |
| PointsTo.MarkedDeadMeaning | src/FactPointTo.cpp:110-127 | Marking a variable dead removes it from the pointees and puts the garbage pointer there once |
| PointsTo.ScopeExitIsExact | src/FactMgr.cpp:141-175 | After scope exit no fact is about or points to a retired variable, a fact that did contains the garbage pointer exactly once, and all other pointees survive |
| CGContexts.CGContext.CheckReadVar | src/CGContext.cpp:219-242 | Accepts a read and records it exactly if it is not written by the surroundings and no pointer that may be dead |
| CGContexts.CGContext.CheckWriteVar | src/CGContext.cpp:353-377 | Accepts a write and records it exactly if the surroundings neither read nor write it and writing is not forbidden |
| CGContexts.CGContext.AccessPointed | src/CGContext.cpp:244-332 | Follows a dereference chain level by level; a rejected chain restores the accumulated effect |
| CGContexts.CGContext.PtrModifiedInRhs | src/Lhs.cpp:245-267 | Decides whether a pointer on the way to the target was written by the right-hand side |
| CGContexts.CGContext.VisitVariable | src/ExpressionVariable.cpp:224-259 | The three rules for reading, dereferencing and taking an address |
| CGContexts.CGContext.VisitLeft | src/Lhs.cpp:305-358 | The rules for the target of an assignment |
| CGContexts.CGContext.MergeParamContext | src/CGContext.cpp:421-428 | Adds the effect of a subexpression to the accumulated and statement effects |
| CGContexts.CGContext.InConflict | src/CGContext.cpp:563-597 | Reports a clash exactly if the recorded effect does not fit the surroundings |
| CGContexts.FitsMeaning | src/CGContext.cpp:563-597 | A recorded effect fits exactly if every read and write in it would pass its own check again in the surroundings |
| CGContexts.CGContext.VisitFacts | src/FunctionInvocation.cpp:562-590 | The visit of any expression with its running effect context computes `Visit`, and on failure leaves the surroundings as they were; `Acceptance.VisitFactors` and `OperandsAccepted` say exactly when that is a success and with which accesses |
| CGContexts.UpdateFactForAssign | src/FactMgr.cpp:373-398 | The facts after an assignment: a single target that is no array is renewed, otherwise facts are merged; `StrongUpdateExactly` and `WeakUpdateExactly` give the pointees |
| ExprSound.VisitReadOk | src/ExpressionVariable.cpp:224-259 | An accepted read reaches a live location without following null or dead storage, and every location read is accounted for in the effects |
| ExprSound.VisitLhsOk | src/Lhs.cpp:305-358 | An accepted target is a live location, its path avoids what the right-hand side wrote, and the write is accounted for |
| ExprSound.FollowOk | src/CGContext.cpp:244-332 | Along an accepted chain the concrete pointers never leave live storage and every one is among the checked pointees |
| ExprSound.ChaseCovered | src/FactPointTo.cpp:667-704 | Where a concrete chain of pointers leads is among the pointees computed for it |
| ExprSound.AssignmentTransferSound | src/FactMgr.cpp:373-398 | For any dereference depth on both sides, facts that cover the store before an assignment cover it afterwards |
| ExprSound.RecoverableAfterWrite | src/FactPointTo.cpp:258-264 | The value of an embedded assignment can still be read off its innermost source after the write, because target and path have different pointer levels |
| ExprSound.RecoverableCovered | src/FactPointTo.cpp:162-266 | The pointees computed for a right-hand side include its concrete value, through nested assignments and commas |
| ExprSound.MergeCovers | src/Fact.cpp:198-208 | Merged facts cover every store that either vector covers |
| OrderIndependence.VisitSound | src/FunctionInvocation.cpp:562-590 | An accepted expression has defined behaviour in every covered store, the resulting facts cover the resulting store, its footprint is accounted for, and it evaluates like its canonical order |
| OrderIndependence.EvaluationOrderIndependence | src/FunctionInvocation.cpp:562-590 | Two orders of evaluating all unsequenced operands of an accepted expression give the same values and the same final store |
| OrderIndependence.AnyOrder | src/FunctionInvocation.cpp:562-590 | Operands without races give the same footprints and the same merged store in every permutation |
| OrderIndependence.LogicalSound | src/FunctionInvocationBinary.cpp:604-624 | Short-circuit operators are covered whether or not the second operand is evaluated |
| OrderIndependence.VisitKeeps | src/CGContext.cpp:219-377 | A visit only adds effects, keeps the surroundings, and keeps the fact vector well formed |
| OrderIndependence.VisitIgnoresOrder | src/FunctionInvocation.cpp:562-590 | The analysis does not look at the evaluation order |
| Acceptance.VisitFactors | src/FunctionInvocation.cpp:562-590 | An expression is accepted in some surroundings if and only if it is accepted alone and what it accumulates there does not clash with them; facts and accesses are the same |
| Acceptance.EnlargedSurroundings | src/FunctionInvocation.cpp:562-590 | With an effect added to the surroundings it is accepted if and only if it is without, and reads nothing that effect writes and writes nothing it accesses |
| Acceptance.OperandsAccepted | src/FunctionInvocation.cpp:562-590 | Unsequenced operands are accepted if and only if each is accepted in the surroundings alone, from the facts its predecessors leave, and none clashes with an earlier one; the result is the last facts with all accesses added |
| Acceptance.FollowAccepted | src/CGContext.cpp:244-332 | A chain of dereferences is accepted exactly if no level can be null or dead and what is read on the way cannot dangle |
| Acceptance.FollowExactly | src/CGContext.cpp:244-332 | It records exactly the variables of every level, the last one as written if it is |
| Acceptance.ReadExactly | src/ExpressionVariable.cpp:224-259 | When a read is accepted, and exactly which variables it records |
| Acceptance.PtrModifiedExactly | src/Lhs.cpp:245-267 | A pointer on the way to the target counts as modified exactly if one strictly between the two ends of the chain was written |
| Acceptance.LhsExactly | src/Lhs.cpp:305-358 | When the target of an assignment is accepted, and exactly what it records as read, as written and as target |
| Acceptance.AssignExactly | src/StatementAssign.cpp:353-386 | An assignment is accepted exactly if its right-hand side is and then its target; it records the accesses of both |
| Acceptance.CommaExactly | src/ExpressionComma.cpp:86-92 | Both parts of a comma are visited, one after the other, and both are recorded |
| Acceptance.LogicalExactly | src/FunctionInvocationBinary.cpp:604-624 | So are both operands of a short-circuit operator, and their facts are merged |
| Precision.DerefIsChains | src/FactPointTo.cpp:667-704 | Dereferencing lists exactly the variables where a chain of facts of that length ends |
| Precision.RhsExactly | src/FactPointTo.cpp:162-266 | What a right-hand side may point to, exactly: null, garbage, an address, the end of a chain, or what the inner right-hand side may point to |
| Precision.StrongUpdateExactly | src/FactMgr.cpp:373-398 | After an assignment to one certain location that is no array, it has exactly the pointees of the right-hand side, and all other variables keep theirs |
| Precision.WeakUpdateExactly | src/FactMgr.cpp:373-398 | Otherwise every possible target has the union of its old pointees and those of the right-hand side, and nothing else changes |
| Precision.NoUpdate | src/FactMgr.cpp:373-398 | Assigning to no pointer, or from something without pointees, changes nothing |
| Precision.MergedAllExactly | src/Fact.cpp:198-208 | After a merge every variable has exactly the pointees of both vectors |
| Scopes.DerefScoped | src/FactPointTo.cpp:678-704 | Dereferencing stays in scope, goes down one pointer level at a time and always meets a fact |
| Scopes.VisitScoped | src/FactMgr.cpp:373-398 | A visit keeps exactly one fact per pointer in scope, with pointees of the right level |
| Scopes.VisitFits | src/CGContext.cpp:563-597 | The effect recorded for an accepted expression never conflicts with its surroundings |
| Scopes.VisitAlike | src/CGContext.cpp:219-377 | Whether a visit succeeds, and the facts it leads to, depend on the surroundings and the write restrictions only, not on the effects accumulated before |
| Scopes.ElementDereferenceRejected | src/ExpressionVariable.cpp:224-243 | No dereference of an array element is ever accepted |
| Statements.MustJumpMeaning | src/Block.cpp:355-361 | A statement that must jump never completes normally |
| Statements.MustJumpExactly | src/StatementIf.cpp:209-211 | A statement must jump exactly if every statement it can end with is a jump that is always taken |
| ScopeSound.AddNewVarFact | src/FactMgr.cpp:118-132 | The fact of a new local, with all array initialisers merged, is added only if there is none |
| ScopeSound.EnterFacts | src/Block.cpp:570-575 | Adding the facts of the locals gives the facts of the inner scope |
| ScopeSound.EnterCovers | src/FactMgr.cpp:118-132 | The facts with the locals added cover the store with the locals allocated |
| ScopeSound.ExitCovers | src/FactMgr.cpp:141-175 | The facts without the locals cover the store in which those locals are dead |
| ScopeSound.ExitFacts | src/FactMgr.cpp:141-175 | Removing the facts of the locals gives the facts of the outer scope |
| Precision.LocalExactly | src/FactMgr.cpp:118-132 | A new local may point to exactly what its initialisers name, and nothing else changes |
| Precision.KnownLocalExactly | src/FactMgr.cpp:118-132 | One that has a fact already keeps it |
| Precision.LocalsExactly | src/Block.cpp:570-575 | So may each of the locals of a block |
| Analysis.IfSound | src/StatementIf.cpp:167-203 | The merged out-facts of both branches account for every run of an `if` |
| Analysis.JumpSound | src/FactMgr.cpp:260-265 | The facts recorded for `break` and `continue` cover the store outside the locals of the loop body |
| Analysis.LoopSound | src/Block.cpp:537-595 | Any number of iterations from a covered store is free of undefined behaviour and ends covered by the head facts or by those of a `break` |
| Analysis.ForSound | src/StatementFor.cpp:424-468 | The out-facts of a `for` account for every run of it |
| Analysis.BlockFromSeq | src/Block.cpp:568-588 | A block whose statements are accounted for is accounted for with its locals retired |
| FixedPoint.MergedSourcesMeaning | src/Block.cpp:555-562 | After the back edges are merged the in-facts are above what they were and above the out-facts of every back edge |
| FixedPoint.PassMakesProgress | src/Block.cpp:547-593 | A pass that does not stop has in-facts with strictly more pointees in a finite universe |
| FixedPoint.GraphBounded | src/Block.cpp:547-593 | The pointees of a scope are bounded, so the iteration comes to an end |
| FixedPoint.MergeJumpFacts | src/FactMgr.cpp:576-598 | Merging the facts of a jump while walking over the vector computes `JumpMerged` |
| FixedPoint.JumpMergedMeaning | src/FactMgr.cpp:576-598 | Facts merged with those of a jump cover what either covered, and stay the facts of the scope |
| FixedPoint.SameFactsBelow | src/Fact.cpp:248-259 | Same facts cover the same stores |
| Precision.MergedSourcesExactly | src/Block.cpp:555-562 | After the back edges are merged a variable has exactly the pointees it had and those at the end of any back edge |
| Precision.JumpMergedExactly | src/FactMgr.cpp:576-598 | After a jump is merged, exactly those it had and those it was jumped with, or garbage if the jump does not know it |
| FactMgrs.FactMgr.ShortcutAnalysis | src/Statement.cpp:553-573 | Reuse happens exactly for the same in-facts and no control statement, and is refused exactly if the recorded effect conflicts |
| AnalysisRuns.RanOnce | src/Statement.cpp:582-614 | From given facts and records a successful analysis, with every reuse, branch, round and pass inside, has one result |
| AnalysisRuns.RanNotFailed | src/Statement.cpp:582-614 | An analysis that can succeed cannot fail |
| AnalysisRuns.SearchRanOnce | src/Block.cpp:537-595 | A fixed-point search that settles has one result |
| AnalysisRuns.SearchFailedOnce | src/Block.cpp:537-595 | A fixed-point search that fails does so at one statement and leaves one set of records |
| Outcomes.ExprExactly | src/Statement.cpp:616-632 | The expression of a statement is refused exactly if it is not allowed anywhere or clashes with the surroundings; otherwise facts and accesses are those it has alone |
| Outcomes.StatementRecords | src/FactMgr.cpp:251-282 | Exactly which facts are recorded for a statement, and for a jump without the locals of the loop body |
| Outcomes.SimpleExactly | src/Statement.cpp:616-632 | Any statement without a block ends with the facts that its expression leaves |
| Outcomes.IfExactly | src/StatementIf.cpp:198-202 | After an `if` a variable may point to exactly what it may at the end of either branch |
| Outcomes.BranchesStart | src/StatementIf.cpp:170-182 | Both branches are analysed from the facts the test leaves |
| Outcomes.ForExactly | src/StatementFor.cpp:447-464 | After a `for`, to exactly what it may at the head of the loop or brings along from a break |
| Outcomes.BodyStarts | src/StatementFor.cpp:424-440 | The body is analysed from the facts the initialiser leaves, with the induction variable write-protected |
| Outcomes.InductionKept | src/StatementFor.cpp:434-440 | The body never writes the induction variable |
| Outcomes.FedExactly | src/Block.cpp:546-562 | Before a round the in-facts are exactly the last ones and those of every back edge, if the block has been visited |
| Outcomes.HeadsExactly | src/Block.cpp:545-595 | In every round a variable has exactly the pointees it came with and those that came over a back edge so far |
| Outcomes.SettledAtOnce | src/Block.cpp:563-566 | A search that need not make a pass makes none if the in-facts are the recorded ones and the recorded effect fits |
| Outcomes.SettledFits | src/Block.cpp:563-566 | When a search ends, its in-facts are the recorded ones and the recorded effect fits |
| Outcomes.BlockEndExactly | src/Block.cpp:586-590 | A pass records its in-facts, and exactly the out-facts of the last statement without the locals |
| Outcomes.FailsInside | src/StatementFor.cpp:442-446 | A `for` with an allowed initialiser fails only in its body, and nothing simpler fails |
| Outcomes.FailsInBranch | src/StatementIf.cpp:174-182 | An `if` with an allowed test fails only in its first branch, or after it in its second one |
| Outcomes.FailsAtOnce | src/Statement.cpp:582-614 | A statement whose expression is not allowed fails |
| RecordedEffects.IfRecords | src/StatementIf.cpp:183-185 | The effect recorded for an `if` is exactly what its test and the records of both branches do |
| RecordedEffects.ForRecords | src/StatementFor.cpp:465-466 | That of a `for` is exactly what its initialiser and the record of its body do |
| RecordedEffects.SimpleRecords | src/StatementAssign.cpp:382-384 | That of any other statement is what its expression does |
| RecordedEffects.PassRecords | src/Block.cpp:597-606 | A pass leaves a block with exactly what its statements do |
| RecordedEffects.RanKeepsParts | src/Statement.cpp:523-528 | After every successful analysis the record of everything inside a statement is part of its own |
| RecordedEffects.PartsClash | src/Statement.cpp:563-567 | Surroundings that clash with the record of any part, however deep, clash with the record of the whole |
| RecordedEffects.AgainTheSame | src/Statement.cpp:560-572 | Analysed again from the same facts where its record fits, a statement has the same result and records |
| RecordedEffects.AgainRejected | src/Statement.cpp:563-567 | Where its record clashes it is rejected |
| LinkedRecords.RanLinked | src/Statement.cpp:582-614 | A successful analysis keeps all records linked: what reaches a program point is covered by what is recorded there |
| LinkedRecords.BlockRanLinked | src/Block.cpp:489-502 | So it is for blocks, through every round of the search |
| FactMgrs.FactMgr.ValidateAndUpdateFacts | src/Statement.cpp:582-614 | On success every run of the statement from a covered store is accounted for, all records inside stay sound and others are untouched; success and failure, with their results, are those of the relation |
| FactMgrs.FactMgr.StmVisitFacts | src/Statement.cpp:616-632 | The visit of one statement establishes what its record will promise, and follows the relation |
| FactMgrs.FactMgr.SetFacts | src/FactMgr.cpp:251-282 | Records in- and out-facts; `break` and `continue` record theirs without the locals of the loop body |
| FactMgrs.FactMgr.VisitIf | src/StatementIf.cpp:167-203 | Both branches are visited from the facts after the condition, one after the other, and their results merged; the merge accounts for every run; `IfExactly` and `IfRecords` give its facts and its recorded effect |
| FactMgrs.FactMgr.VisitFor | src/StatementFor.cpp:424-468 | The body is searched with the induction variable write-protected; the result is its recorded in-facts with the facts of every `break` merged in, and accounts for every run; `ForExactly` and `ForRecords` give its facts and its recorded effect |
| FactMgrs.FactMgr.VisitBlock | src/Block.cpp:489-502 | On success the in-facts are below the recorded ones and the recorded out-facts account for every run of the block; success and failure follow the relation |
| FactMgrs.FactMgr.FindFixedPoint | src/Block.cpp:537-595 | Terminates; on success the recorded in-facts are above the inputs and above every back edge and the record is sound for every run; every round starts from the merge of the last in-facts with the out-facts of all back edges, and on failure the statement at the index fails from what the statements before it led to |
| FactMgrs.FactMgr.FeedBackEdges | src/Block.cpp:555-562 | The next in-facts are the last ones with every back edge merged in, above all of them, with strictly less room to grow unless they are the same |
| FactMgrs.FactMgr.Pass | src/Block.cpp:568-592 | One pass over the statements makes the block's record sound for its in-facts, or ends at the first statement that fails |
| FactMgrs.Stabilised | src/Block.cpp:563-566 | When the in-facts are the recorded ones again, the record is closed under the back edges |
| FactMgrs.SameMeansRecorded | src/Statement.cpp:553-573 | Facts that are the recorded ones mean that there is a record if and only if there is one or a pointer is in scope |
| FactMgrs.AnalyseBody | src/Block.cpp:489-595 | A function body accepted from the facts of its surroundings never runs into undefined behaviour, for any number of iterations and from any covered store, and ends in a store the result covers; the manager may hold any sound records |
| FactMgrs.AnalyseNew | src/Block.cpp:489-595 | The same with a new manager, if a pointer is in scope |
| RunEffects.RunWithin | src/Statement.cpp:616-632 | Whatever a run of a statement reads or writes, from a store its record covers and for any number of iterations, is in its recorded effect |
| RunEffects.AnalysedWithin | src/FunctionInvocationUser.cpp:363-366 | After a successful visit of a function body, with records of earlier visits or without, its recorded effect covers every access of every run |
| RunEffects.FunctionEffect | src/Function.cpp:681-685 | The effect of a function, which is the one recorded for its body, covers every access of every run |
| RunEffects.NoRunClashes | src/CGContext.cpp:563-597 | So where the record fits, no run reads what the surroundings write or writes what they access |
| RunEffects.NothingLookedAt | src/Block.cpp:563-566 | Without a pointer in scope and without records no block is looked at, and its effect is empty |
| PostCreations.PostCreationAnalysis | src/Block.cpp:719-758 | Analysis and deletion alternate until the analysis succeeds, which it does; what is left is a front part of the block, every run of it is accounted for, and a loop body whose end is reached has its back edge |
| PostCreations.RepairRanOnce | src/Block.cpp:732-756 | The repair has one result |
| PostCreations.LoopHasEdges | src/Block.cpp:724-753 | What is left of a loop body has all the edges that the soundness of loops asks for |
| Repairs.NothingGoesInVain | src/Block.cpp:732-741 | If anything is deleted, some analysis failed at the statement right behind what is left |
| Repairs.RepairedRecords | src/Block.cpp:742-744 | After a deletion the recorded effect is exactly that of the statements that stayed |
| Repairs.DeletedExactly | src/Block.cpp:735-748 | Exactly which edges go with the deleted statements and which facts are forgotten |
| Repairs.ClosedExactly | src/Block.cpp:749-753 | Exactly when a loop body gets its back edge |
| Shortcut.UnvisitedIsSkipped | src/Statement.cpp:553-573 | A statement without recorded in-facts is taken for analysed exactly when no pointer is in scope |
| Shortcut.SkipNullWrite | src/Statement.cpp:553-573 | A manager without records takes the shortcut for a statement that writes through a null pointer |
| Shortcut.SkippedStatementIsUndefined | src/Statement.cpp:553-573 | That statement is undefined however long it runs |
| Dfs.AllMeansAccepted | src/DFSRndNumGenerator.cpp:245-356 | The walks of the search are exactly the accepted complete walks within the depth limit that no firing guard cuts off |
| Dfs.AllIncreasing | src/DFSRndNumGenerator.cpp:245-356 | The walks come in lexicographic order |
| Dfs.EachWalkOnce | src/DFSProgramGenerator.cpp:83-101 | No walk comes twice |
| Dfs.EagerIsLossless | src/DFSRndNumGenerator.cpp:190-214 | Searching with and without depth guards gives the same walks if and only if no firing guard stands above an accepted walk |
| Dfs.GuardLosesWalk | src/DFSRndNumGenerator.cpp:190-214 | A concrete walk lost to a guard |
| Dfs.GuardBound | src/DFSRndNumGenerator.cpp:190-214 | The walks produced are exactly the accepted ones on whose way every guard after two or more choices asks for at most one choice more than are left |
| Dfs.OneGuard | src/DFSRndNumGenerator.cpp:199-200 | A guard for `need` choices cuts off nothing if `need - 1` are left and everything if at most `need - 2` are, from the second choice on; longer walks are safe |
| Dfs.LowerBoundsAreHarmless | src/DFSRndNumGenerator.cpp:190-214 | Guards that state true lower bounds prune nothing |
| Dfs.FreshIsFirst | src/DFSRndNumGenerator.cpp:318-355 | A run below a new node outputs the first accepted walk there, if it reaches one, and leaves the others |
| Dfs.ResumeIsNext | src/DFSRndNumGenerator.cpp:286-317 | A run that replays the path and moves on at its end outputs the next accepted walk, if it reaches one, and leaves the others |
| Dfs.ResumeProgress | src/DFSRndNumGenerator.cpp:286-317 | Every replayed run leaves strictly less to do |
| Dfs.FirstRunEnds | src/DFSProgramGenerator.cpp:83-101 | A first run that leaves nothing reports the end exactly if it starts with a choice and one is allowed |
| Dfs.NeverEnds | src/DFSProgramGenerator.cpp:83-101 | Otherwise every run is a first run again and the end is never reported |
| Dfs.Generator.RandomChoice | src/DFSRndNumGenerator.cpp:245-356 | A request replays the path, moves on at its end or opens a new node, skipping filtered numbers; states are initialised exactly up to the decision depth; the search is done exactly when the first position is exhausted |
| Dfs.Generator.EagerBacktracking | src/DFSRndNumGenerator.cpp:190-214 | Gives up exactly if a choice was made before the last one and the depth limit less the current position is below what is needed, and then drops exactly the path behind the current position |
| Dfs.Generator.ResetState | src/DFSRndNumGenerator.cpp:381-385 | Starts the next run from the first position and keeps the path |
| Dfs.Generator.MakeChoice | src/DFSRndNumGenerator.cpp:245-356 | At a node the run either ends as specified or stands before the chosen subtree |
| Dfs.Generator.Walk | src/DFSRndNumGenerator.cpp:245-356 | A whole run leaves the path, the trace and the error of the specified run |
| Dfs.GoGenerator | src/DFSProgramGenerator.cpp:83-101 | The loop terminates with exactly the walks of the search, in order |
| Enumerators.Enumerator.Next | src/Enumerator.h:276-299 | The mixed-radix number rises by exactly one, one digit turns and only it is marked as changed, higher digits stay and lower ones are cleared; it fails exactly at the largest number |
| Enumerators.Enumerator.RollBackCurrentPos | src/Enumerator.h:231-255 | Turns the last digit that can rise, or reports that none can |
| Enumerators.Enumerator.ResetAfterBackwardPos | src/Enumerator.h:217-229 | Clears the digits behind the turned one and nothing else |
| Enumerators.Enumerator.GetElem | src/Enumerator.h:199-215 | What a digit reads as |
| Enumerators.BoolReadings | src/Enumerator.h:171-215 | A fixed probability has one reading, any other both; a flag reads as true only if set |
| Enumerators.TurnAddsOne | src/Enumerator.h:231-255 | Turning a digit and clearing the lower ones adds one to the number |
| Enumerators.LastValue | src/Enumerator.h:276-299 | No digit can turn exactly at the product of the bounds minus one |
| Enumerators.ValueInjective | src/Enumerator.h:276-299 | Different tuples stand for different numbers |
| Enumerators.VisitAll | src/CVQualifiers.cpp:623-623 | The usual loop visits as many tuples as the product of the bounds, the i-th standing for i |
| Enumerators.EveryTupleOnce | src/Enumerator.h:276-299 | Every tuple within the bounds is visited exactly once, in lexicographic order |
| SafeMath.CDivMeaning | runtime/HIPSmith.h:102-120 | The truncating quotient and remainder of section 6.5.5 |
| SafeMath.GuardIsExact | runtime/HIPSmith.h:30-84 | For every width no guard has an undefined intermediate, and each decides exactly whether its operation is allowed |
| SafeMath.MulGuard | runtime/HIPSmith.h:314-340 | The four-case multiplication guard is true exactly if the product is representable |
| SafeMath.DivGuard | runtime/HIPSmith.h:102-120 | The division and remainder guards are true exactly if the quotient exists and is representable |
| SafeMath.ShiftGuard | runtime/HIPSmith.h:172-192 | The left-shift guard is true exactly if no bit is lost |
| SafeMath.GuardMeansDefined | runtime/HIPSmith.h:172-192 | A passed guard means a defined operation; a defined operation fails it exactly for unsigned left shifts that lose bits and right shifts of negative numbers |
| SafeMath.MinusIsExact | runtime/HIPSmith.h:532-546 | Negation is allowed exactly if it is representable |
| SafeMath.CastMeaning | runtime/HIPSmith.h:774-805 | The conversion to the type of the location keeps values of that type and changes others by a multiple of the number of values |
| SafeMath.SafeMeaning | runtime/HIPSmith.h:53-84 | A wrapper of any number of lanes is never undefined; it computes every lane if all are allowed and returns its left operand otherwise |
| SafeMath.TreeIsDefined | runtime/HIPSmith.h:53-84 | Expression trees over the wrappers never overflow, divide by zero or shift too far, in any lane, for any width |
| SafeMath.SafeAtomic | runtime/HIPSmith.h:774-805 | With one thread the old contents are returned and the location changes only to a defined result of its type |
| Handover.CallerToCalleeHandover | src/FactMgr.cpp:314-356 | Each parameter has the facts of its own argument, under the same condition, and what is handed over is the least set with the facts of globals and parameters that is closed under pointing, each as often as before |
| Handover.KeepVisible | src/FactMgr.cpp:319-355 | The nested erase-while-walking loops terminate with that least closed set |
| Handover.LeastClosed | src/FactMgr.cpp:335-355 | What is left behind is not needed, because the kept facts are closed without it |
| Handover.KeptExactly | src/FactMgr.cpp:319-355 | What is handed over is exactly what a chain of facts, each about something the last one may point to, reaches from a global or parameter |
| Handover.RootsAreComplete | src/FactMgr.cpp:332-355 | The callee follows any chain of dereferences from a global or parameter to the same pointees as the caller |
| Handover.ParamsExactly | src/FactMgr.cpp:108-116 | Each parameter may point to exactly what its own argument may point to at the call, and all other variables keep their pointees, if parameters are distinct scalars that neither an argument nor a fact refers to |
| Handover.CalleeSeesArguments | src/FactMgr.cpp:314-356 | So it is in the facts handed over, for parameters and globals |
| Handover.CalleeCovered | src/FactMgr.cpp:108-116 | Facts that cover the store of the caller lead to facts that cover the store with each parameter initialised to its own argument's value |
| Handover.CalleeChaseCovered | src/FactMgr.cpp:314-356 | Wherever the callee gets from a parameter or a global, the facts handed over list it |
| Handover.SwappedArguments | src/FactMgr.cpp:108-116 | Two parameters given each other as arguments both end up with the pointees of one |
| Handover.AddParamFacts | src/FactMgr.cpp:108-116 | Each parameter gets the pointees of its own argument, and all other variables keep theirs, under the condition of `ParamsExactly` |
| CallGraph.CallsToFuncsRecursive | src/FunctionInvocationUser.cpp:126-140 | The recursion terminates on cyclic call graphs and extends the list by what is new, with all callees, nothing superfluous and nothing twice |
| CallGraph.ExactlyReachable | src/FunctionInvocationUser.cpp:126-140 | From an empty list the result is exactly the functions reachable from the calls, each once |
| Distribution.DistributionTable.AddEntry | src/Probabilities.cpp:1011-1015 | Appends an entry and keeps the maximum equal to the sum of the weights |
| Distribution.DistributionTable.RndNumToKey | src/Probabilities.cpp:1027-1038 | Every number below the maximum finds the key it falls on; the final assertion is never reached |
| Distribution.DistributionTable.KeyToProb | src/Probabilities.cpp:1017-1025 | The weight of the first entry of a key, or 0 |
| Distribution.DrawsMatchWeight | src/Probabilities.cpp:1027-1038 | Of all numbers below the maximum exactly as many fall on a key as the sum of its weights |
| Distribution.LookupMatchesDraws | src/Probabilities.cpp:1017-1025 | The looked-up weight is the number of draws if and only if later entries of the key have no weight |
| UnionFacts.FieldWriteSound | src/FactUnion.cpp:121-153 | A write to a union member with any number of possible targets keeps the facts covering the state |
| UnionFacts.PointerWriteSound | src/FactUnion.cpp:121-153 | The same through any chain of pointers, with the targets that the points-to facts list |
| UnionFacts.UnionExprSound | src/FactUnion.cpp:75-117 | Nested assignments of whole unions keep the facts covering the state |
| UnionFacts.JoinVarsMeaning | src/FactUnion.cpp:223-242 | The joined member of several unions is one that each of them allows, or none |
| UnionFacts.JoinVarFacts | src/FactUnion.cpp:223-242 | The loop over the variables computes that join |
| UnionFacts.AbstractFactForAssign | src/FactUnion.cpp:121-153 | The facts of a write to a member, one for each target that is one |
| UnionFacts.UpdateFactForMember | src/FactMgr.cpp:373-398 | A single target is renewed, several are merged |
| UnionFacts.JoinFidIsJoin | src/FactUnion.cpp:207-254 | Joining two different members, or `TOP` with anything else, gives `BOTTOM` |
| UnionFacts.MergedLookup | src/FactUnion.cpp:207-218 | Merging changes only the union concerned, to the join of old and new |
| UnionPrecision.MergedAllKnown | src/Fact.cpp:198-208 | After a merge the facts name a member of a union exactly if it is the only one that the union had or a new fact names |
| UnionPrecision.KnownMeaning | src/FactUnion.cpp:207-218 | A member is named if it is the only candidate, and none is if there are several |
| UnionPrecision.MemberWrittenExactly | src/FactUnion.cpp:121-153 | After a write to one certain member its union is known to have that member, and no other changes |
| UnionPrecision.SomeMemberWrittenExactly | src/FactUnion.cpp:121-153 | After a write to one of several, each union may have what it had or any of its members among them |
| UnionPrecision.RhsKnown | src/FactUnion.cpp:75-117 | Which member a right-hand side is known to carry, through nested assignments and commas |
| UnionPrecision.UnionAssignedExactly | src/FactUnion.cpp:121-153 | After an assignment to one certain union it is known to have exactly that, and no other changes |
| UnionPrecision.SomeUnionAssignedExactly | src/FactUnion.cpp:121-153 | After an assignment to one of several, each may have what it had or that |
| UnionPrecision.ReadableExactly | src/FactUnion.cpp:178-192 | A member may be read exactly if the facts name it |
| UnionFacts.ReadableWasWritten | src/FactUnion.cpp:178-192 | A member that may be read is the one written last |
| UnionFacts.ReadsAreOfLastWritten | src/FactUnion.cpp:178-192 | Along every run of writes, union assignments and merges, whatever pointers point to, a member that may be read is the one written last |
| UnionFacts.LoopReadsAreOfLastWritten | src/FactUnion.cpp:178-192 | The same after any number of rounds of a loop whose head facts are stable |
| EffectSets.PartialQueriesMeaning | src/Effect.cpp:398-462 | Exactly which recorded variables make a variable count as partially read or written |
| EffectSets.WriteMissedExactly | src/Effect.cpp:459-462 | An overlapping write is missed if and only if the variables lie apart and different unions are the innermost ones around them |
| EffectSets.ReadMissedExactly | src/Effect.cpp:455-457 | An overlapping read is missed if and only if neither contains the other, the read one within structures only, and different unions are the innermost ones around them |
| EffectSets.WriteConflictsFound | src/Effect.cpp:459-462 | So without nested unions no overlap with a written variable is missed |
| EffectSets.ReadConflictsMissed | src/Effect.cpp:455-457 | So without nested unions an overlapping read is missed if and only if it properly contains the union around the variable |
| EffectSets.ReadOfStructIsMissed | src/Effect.cpp:282-296 | A concrete missed read, of a structure with a union inside, which the generator does not make |
| EffectSets.NestedUnionsAreMissed | src/Effect.cpp:441-453 | A concrete missed overlap with nested unions, which the generator does not make either |
| EffectSets.GeneratedTypesNestNoUnion | src/Type.cpp:676-738 | Structures are made before unions and unions hold none, so no generated type has a union inside |
| EffectSets.GeneratedOverlapsFound | src/Effect.cpp:455-462 | On variables of generated types a query answers yes if and only if a recorded access overlaps or is to the same member of a union |
| EffectSets.Effect.AddEffect | src/Effect.cpp:162-193 | At every nesting depth a variable counts as read or written exactly if it did in one of the two effects |
| EffectSets.Effect.ReadVar | src/Effect.cpp:122-128 | Recording a read adds exactly what that read covers |
| EffectSets.Effect.WriteVar | src/Effect.cpp:142-151 | Recording a write adds exactly what that write covers |
| EffectSets.Effect.Consolidate | src/Effect.cpp:467-487 | No entry is covered by another afterwards; writes keep their meaning, and so do reads of variables nested in structures only; all reads do if and only if no read entry lies directly inside a union that counts as read, a lost read lies inside such an entry, and such an entry is lost if its union is nested in structures only |
| EffectSets.LoseRead | src/Effect.cpp:467-478 | A concrete read that is forgotten |
| RemoveStmts.Func.RemoveStmt | src/Block.cpp:612-699 | Terminates through cascading deletions and leaves exactly this: the statement and the least set of gotos that jump into something deleted are gone, an edge is left if neither end is inside anything deleted, break entries and blocks if they are not, all in the old order; the count is the number deleted from the block through gotos of the block |
| RemoveStmts.Func.EraseIncoming | src/Block.cpp:653-680 | Deletes every edge into the statement and the gotos they come from, and leaves the statement in place |
| RemoveStmts.Func.DeleteFrom | src/Block.cpp:732-741 | The inner loop of the repair step deletes the statement at the index until none is left there |
| RemoveStmts.Func.Repair | src/Block.cpp:719-758 | With gotos, and any analysis: analysis and deletion alternate until the analysis succeeds; that ends, nothing mentions what is gone, every live goto keeps its edge, and a loop body whose end is reached has its back edge |
| Removals.AfterIsClosed | src/Block.cpp:612-699 | After a removal no edge, live loop's break list or block list mentions anything dead |
| Removals.GotosStayLinked | src/Block.cpp:653-680 | After a removal every live goto still has its edge |
| Removals.LiveAfter | src/Block.cpp:690-697 | Exactly what is inside something deleted dies |
| Removals.DoomedAreGotos | src/Block.cpp:660-671 | Besides the statement only gotos outside it with an edge into something deleted are deleted |
| Removals.DoomedExactly | src/Block.cpp:653-678 | What goes is the statement and every goto from which a chain of gotos leads into it |
| Removals.StmsExactly | src/Block.cpp:690-697 | In a block exactly that is missing, and the order stays |
| Removals.EdgesExactly | src/Block.cpp:644-680 | An edge stays, in its place, exactly if neither end is inside the statement or goes with it |
| Removals.BreaksExactly | src/Block.cpp:625-640 | In a break list exactly what is inside the statement is missing |
| Removals.BlocksExactly | src/Block.cpp:680-688 | So it is in the list of blocks |
| Removals.CountIsExact | src/Block.cpp:667-671 | The count is the number of statements the block loses if and only if every goto deleted from it jumped into the statement or within the block |
| Removals.CountCanBeTooSmall | src/Block.cpp:667-671 | Two statements go from a block and one is counted |
| Removals.DeletesTheRest | src/Block.cpp:735-741 | Exactly the statements from the index on are deleted from the block if and only if no earlier one is a goto swept away with them |
| Removals.DeletesTheRestWithoutGotos | src/Block.cpp:735-741 | So they are if no earlier statement of the block is a goto with an edge |
| Removals.DeletedAgrees | src/Block.cpp:735-741 | Nothing else than what is swept away is deleted from any block, and the order stays |
| Removals.LaterStatementStays | src/Block.cpp:735-741 | In a block `[w, goto x, x, y]` that fails at `x`, `y` stays |
| ControlFlow.JumpFound | src/Statement.cpp:638-654 | Every live jump inside a statement is found |
| RemoveStmts.CascadeStep | src/Block.cpp:660-678 | Deleting a goto that jumped into a statement, with all that goes with it, leaves the removal of that statement under way |

## Left out

- Function calls, `return` and `goto` in the analysed language: call effects and return facts need the call-level tables; handover and statement removal are modelled on their own.
- The cap of eight passes in `find_fixed_point`: the model iterates until the facts are stable, and proves that this happens.
- Structure members and unions in the points-to part: variables there have no members; unions and nested members are modelled in `UnionFacts` and `EffectSets`.
- Array index expressions: an access names the element it goes to, and the effects of the index are not modelled.
- `tbd_ptr`, volatile and access-once rules, must-read and must-write directives, compound assignment operators, and dereference probabilities above 0.
- Test and increment expressions of `for`: the code does not visit them either, and their values are parameters of the model; in `RunEffects` they count as no access.
- CGContexts.CGContext.CheckReadVar: array indices, the readability of union members and volatile variables are not checked, because the variables of the points-to part have none.
- CGContexts.CGContext.CheckWriteVar: array indices, volatile variables and the option that forbids dangling pointers are not modelled.
- CGContexts.CGContext.VisitVariable: bit-fields and dereferences of volatile pointers are not modelled.
- CGContexts.CGContext.VisitLeft: compound assignment, indices and overlapping members of one union are not modelled.
- CGContexts.CGContext.VisitFacts: calls are not modelled, so neither is the treatment of operands that may call.
- FactMgrs.FactMgr.ShortcutAnalysis: the language has no `goto`, so the test for unfixed gotos is not modelled; the accumulated effect of each statement is kept in the surroundings only, not per statement.
- FactMgrs.FactMgr.SetFacts: the cases of `goto` and `return` are not modelled.
- RemoveStmts.Func.Repair: the analysis is a parameter that may answer differently in every round; with the analysis itself, but without gotos, the repair is `PostCreations.PostCreationAnalysis`.
- PostCreations.PostCreationAnalysis: needs a pointer in scope, because the records are reset between the rounds; models the branch that searches for a fixed point, without the final `return` statement.
- UnionFacts.FieldWriteSound: needs a fact for every union in the state, which variable initialisation provides; arrays of unions and members nested deeper than one level are not modelled.
- UnionFacts.UnionExprSound: what pointers to whole unions may point to is given with each expression.
- UnionFacts.AbstractFactForAssign: members nested inside a member, and the padding they bring, are not modelled.
- UnionFacts.UpdateFactForMember: arrays of unions, whose facts are always merged, are not modelled.
- UnionFacts.ReadsAreOfLastWritten: the possible targets are given with each step; `PointerWriteSound` derives them from points-to facts.
- EffectSets: purity and side-effect flags, queries by name and external effects.
- SafeMath.SafeAtomic: real concurrency; the function is documented as single-threaded.
- Filters that draw numbers themselves and the debug sequence of the exhaustive search.
- Digits of the odometer and search states are held by value in arrays, so aliasing between them is not captured; digits are addressed by their position in key order instead of by name.
- Text output, hashing, statistics, options, random heuristics, and HIP intrinsics whose meaning is not in the repository.
