# MetalTile code generation: a verified model

MetalTile compiles tile kernels, written as SSA blocks with nested loops and branches,
to Metal and CUDA source. This project models the parts of it whose correctness is not
visible from any single function, and proves them:

* **The optimisation passes** (`ir/`, `passes/`). `ir/Ir.dfy` is the kernel IR as values,
  `ir/Semantics.dfy` what one thread does when it runs a kernel: operators are
  uninterpreted, nested blocks have the scoping of the emitted `for` and `if`, and a run
  gets *stuck* if it uses an id that is out of scope; an operator outside its domain makes
  it *undefined*. An op that depends on more than its operands is a `Fetch`, which yields a
  value and changes nothing, or an `Effect`, which writes and yields nothing: no op of the
  IR both writes and has a result. `ir/RewritePlan.dfy` holds the one
  theorem all value passes use: a plan that replaces ops, redirects uses and drops
  results, all at once and over the whole kernel, preserves every run if each piece is
  right in the environment of the *original* program. Common-subexpression elimination,
  algebraic simplification, constant folding and copy propagation are instances; each also
  exists as the in-place loops of the source on mutable blocks (`ir/Blocks.dfy`), proved to
  compute the value-level pass. Dead-store elimination drops stores, which no such plan can
  justify, and has its own simulation (`DeadStoreSound`). That a pass preserves meaning says
  nothing about whether it acts: `CseRepeats`, `NormalForms` and `DeadStoreGone` state what is
  not there any more, pattern by pattern, and `FoldMeaning` what each fold computes.
* **The parallel schedules the generators emit** (`gpu/`). The threadgroup reduction and
  the double-buffered matrix product are protocols: a schedule says which warp or thread
  moves next, and the theorems hold for every schedule. Warp shuffles, strided loops,
  the scalar tiled product and the cooperative-tile product are loops over lanes, threads
  and shared arrays, in any thread order between barriers. Reductions are over any
  commutative monoid, products over the integers.
* **The shared-memory layout, include inlining, the cache lock and the date conversion**
  (`host/`).

`common/Arith.dfy` is division with remainder. `dafny verify dfyconfig.toml` checks everything.

## What the model shows about the code

Some properties hold only under a condition. Each condition is an assumption of the
theorem named, and a lemma gives an input on which it fails. `SampleKernel` shows that the
conditions of all pass theorems are met together, by one kernel and by 64-bit integers.

* CSE of loads leaves mask and fill out of the key, so a masked and an unmasked load of one
  cell are merged (`Cse.KeySoundIff`, `Cse.MaskedLoadsDiffer`). The pass is right wherever
  the one-index loads of a buffer agree on both (`Cse.PassPreserves`).
* `algebraic_simplify` and `copy_prop` redirect uses in their own block only; a nested block
  that used the dropped result is left dangling (`AlgebraicDangling.DanglingUse`,
  `CopyDangling.CopyDangles`). A round leaves nothing dangling exactly when no other block
  uses a result it drops (`AlgebraicCross.RoundClosedIff`, `CopyCross.RoundClosedIff`), and
  a dangling use is never mended. For the whole pass a condition on op kinds suffices
  (`AlgebraicCross.PassPreservesSafe`, `CopyCross.PassPreservesSafe`).
* `const_fold` folds `Xor` bitwise, the emitted operator is logical
  (`ConstFold.XorFoldsIff`).
* `dead_store_elim` collects loads from one block and from `Load` and `VectorLoad` only, so
  a store that a nested block, an effect or another op reads counts as dead
  (`DeadStoreNested.NestedReadLost`). The pass is right when none of these gets at the
  buffer before it is overwritten (`DeadStoreSound.PassPreserves`). For a kernel of one
  block that is the exact condition (`DeadStoreShows.PreservedIff`), and a fetch or effect
  in the entry block itself is always told apart by some interpretation
  (`DeadStoreShows.ExposedShows`); with nested blocks the condition is not exact, since a
  read that a block contains need not ever be reached
  (`DeadStoreNested.NestedReadUnreached`). The question arises for vector stores only:
  `type_check.rs:117-123`, earlier in the standard order (`passes/mod.rs:134-155`), rejects a
  `Store` to a non-output, and stores to outputs are never dropped
  (`DeadStoreElim.OutputsOnly`); `VectorStore` has no such check.
  The pass's documentation says a store is kept when it is read before being overwritten; the
  code keeps it when it is read anywhere in the block, which is what is modelled.
* The MSL two-level reduction has no trailing barrier and is wrong when re-entered in a loop
  (`ReduceProtocol.CorrectIff`).
* The mask form of rounding up is right for power-of-two element sizes only
  (`SharedLayout.MaskAgreesIff`), and the two warp counts differ for zero threads
  (`SharedLayout.WarpsAgree`).
* A build killed with the cache lock leaves it behind and all others wait for ever
  (`CacheLock.KillHolder`). It takes two builds and an invalid cache
  (`CacheLock.BlocksIff`); without a kill nothing gets stuck (`CacheLock.NoKillNoBlock`).

## Model

| member | source | states |
|---|---|---|
| Ir.UsesOfSubst | crates/metaltile-macros/src/derive/mod.rs:150-200 | the operands of a substituted op are exactly the images of its operands, for every op kind: `value_refs` and `for_each_value_id_mut` visit the same ids |
| Semantics.FuelMonotone | crates/metaltile-codegen/src/msl/emit_block.rs:462-487 | a run of loops and branches that finished is the same with more fuel, so fuel bounds nothing that is proved |
| WellScoped.ScopedNeverStuck | crates/metaltile-codegen/src/msl/emit_block.rs:809-843 | a kernel whose operands are in scope under the C scoping of the emitted `for`/`if` never uses an id out of scope, whatever the operators |
| ControlMeaning.LoopVisits | crates/metaltile-codegen/src/msl/emit_block.rs:809-843 | a loop whose body shows the induction variable shows start, start + step, ..., exactly the values below the end, through either of its two ids |
| ControlMeaning.BranchTakes | crates/metaltile-codegen/src/msl/emit_block.rs:809-843 | a branch runs its first block where the condition holds, else its second if it has one |
| RewritePlan.PlanPreserves | crates/metaltile-codegen/src/passes/cse.rs:68-176 | the theorem all passes share: a plan whose replacements evaluate to the old value in the original environment and whose redirects join equal ids, applied at once to a kernel with any nesting of loops and branches, preserves outcome, memory and store trace of every run, and the value of every surviving id |
| RewritePlan.RunSimulates | crates/metaltile-codegen/src/msl/emit_block.rs:462-487 | the simulation behind it, by induction on fuel and code, from any position of any block |
| Blocks.PlanKeepsDiscipline | crates/metaltile-codegen/src/passes/cse.rs:99-113 | after a plan ids are still defined once and read-only buffers still never stored, so passes compose |
| Cse.SameKeySameValue | crates/metaltile-codegen/src/passes/cse.rs:179-203 | two ops with one key evaluate alike under every interpretation commutative on the listed kinds, when masks agree |
| Cse.KeySoundIff | crates/metaltile-codegen/src/passes/cse.rs:196-201 | ops with one key are equal under every such interpretation if and only if loads among them have equal masks and fills: the exact condition under which the key may leave the mask out |
| Cse.MaskedLoadsDiffer | crates/metaltile-codegen/src/passes/cse.rs:196-201 | a concrete kernel on which the condition fails and the pass changes the stored value |
| Cse.DroppedIffDuplicate | crates/metaltile-codegen/src/passes/cse.rs:131-149 | an id is remapped exactly when an earlier instruction of the block has its key |
| Cse.RangeOutsideDomain | crates/metaltile-codegen/src/passes/cse.rs:144-146 | a remap never points at a removed id |
| Cse.StageSound | crates/metaltile-codegen/src/passes/cse.rs:99-113 | CSE of one block with its remap sent to all blocks is a sound plan |
| Cse.PassPreserves | crates/metaltile-codegen/src/passes/cse.rs:68-117 | body first, then every nested block, each remap propagated to all blocks: same outcome, memory and trace for every SSA kernel, memory and interpretation commutative on the listed kinds, where in each block the one-index loads of a read-only buffer agree on mask and fill |
| Cse.PassExact | crates/metaltile-codegen/src/passes/cse.rs:68-117 | the same in both directions for every well-scoped kernel, runs out of fuel included, as long as no operator is applied outside its domain |
| Cse.StageKeepsMasks | crates/metaltile-codegen/src/passes/cse.rs:99-113 | after a stage the loads still agree on mask and fill, so the condition on the input holds at every stage |
| Cse.NoDanglingUse | crates/metaltile-codegen/src/passes/cse.rs:80-113 | after all stages no use of any block refers to an id that the pass removed |
| CsePass.FindDuplicates | crates/metaltile-codegen/src/passes/cse.rs:127-148 | the table loop finds the duplicates and their leaders |
| CsePass.CseBlock | crates/metaltile-codegen/src/passes/cse.rs:123-176 | in place: the block becomes the rewrite of the old block by the remap, and the remap is returned |
| CsePass.ReplaceInBlocks | crates/metaltile-codegen/src/passes/cse.rs:104-111 | the remap is applied to every op of every block of the list, nothing else changes |
| CsePass.CseStage | crates/metaltile-codegen/src/passes/cse.rs:99-113 | one block and the propagation to all others is one stage of the value-level pass |
| CsePass.SortedIds | crates/metaltile-codegen/src/passes/cse.rs:97-98 | the block ids in strictly ascending order |
| CsePass.Run | crates/metaltile-codegen/src/passes/cse.rs:68-113 | the whole in-place pass equals the composition of the stages, body first, then ids ascending, for any parameters with distinct names and stores that go to outputs or to no parameter it leaves every run that does not fail as it was; and of two instructions that repeat each other the later is gone |
| Blocks.InputsNeverStored | crates/metaltile-codegen/src/passes/cse.rs:70-75 | with distinct parameter names, and stores that target outputs or no parameter, nothing the pass takes for read-only is ever stored |
| CseRepeats.RepeatedGoes | crates/metaltile-codegen/src/passes/cse.rs:179-227 | of two instructions of one block with the same op on the same operands, in either order for the commutative kinds, or two loads of one cell of an input, the later is defined nowhere after the pass, in whatever order the blocks come |
| BlockUtil.KeepUnmarked | crates/metaltile-codegen/src/passes/block_util.rs:16-35 | both arrays rebuilt without the marked positions, still aligned |
| BlockUtil.RemoveOps | crates/metaltile-codegen/src/passes/block_util.rs:16-35 | exactly the listed positions go, whatever order or repetition the list has |
| BlockUtil.KeptExactly | crates/metaltile-codegen/src/passes/block_util.rs:26-31 | slot i of the result is the i-th unmarked instruction and the length drops by the number of marks |
| BlockUtil.InsertOps | crates/metaltile-codegen/src/passes/block_util.rs:42-72 | the new instructions sit at the position, the others keep their order |
| BlockUtil.RebuildBlock | crates/metaltile-codegen/src/passes/block_util.rs:92-136 | the rebuild loop, including an insertion after the last op, gives the block the plan describes |
| BlockUtil.RebuildRemoves | crates/metaltile-codegen/src/passes/block_util.rs:92-136 | a plan of removals is `remove_ops` |
| BlockUtil.RebuildInserts | crates/metaltile-codegen/src/passes/block_util.rs:92-136 | a plan with one insertion is `insert_ops` |
| BlockUtil.RemoveUndoesInsert | crates/metaltile-codegen/src/passes/block_util.rs:16-73 | removing the positions just inserted gives the block back |
| BlockUtil.RedirectAndDrop | crates/metaltile-codegen/src/passes/algebraic_simplify.rs:175-197 | redirects applied to every op and redirected results dropped, in place |
| LocalRewrite.ResolveTransitive | crates/metaltile-codegen/src/passes/algebraic_simplify.rs:95-110 | the chase with its visited set terminates on every map, cyclic ones too, and computes the resolved map |
| LocalRewrite.ResolvedIffChainEnds | crates/metaltile-codegen/src/passes/copy_prop.rs:66-81 | a key is resolved outside the domain of the map if and only if its chain ends, and then to the unique end of the chain |
| LocalRewrite.ResolvedDescends | crates/metaltile-codegen/src/passes/algebraic_simplify.rs:95-110 | on redirects that point backwards in the block every key is resolved outside the map, to an earlier definition |
| LocalRewrite.LocalPlanSound | crates/metaltile-codegen/src/passes/algebraic_simplify.rs:120-200 | a round that rewrites one block by resolved redirects is a sound plan when no other block uses a dropped id |
| LocalRewrite.LocalApply | crates/metaltile-codegen/src/passes/algebraic_simplify.rs:120-200 | applying that plan changes that block only |
| LocalRewrite.ClosedIffNotUsedElsewhere | crates/metaltile-codegen/src/passes/algebraic_simplify.rs:120-200 | a round that drops ids of one block leaves no use of an undefined id anywhere in the kernel if and only if no other block uses a dropped id |
| LocalRewrite.LocalKeepsSsa | crates/metaltile-codegen/src/passes/algebraic_simplify.rs:120-200 | the rewritten block is in SSA form again |
| AlgebraicSimplify.SimplifiedEarly | crates/metaltile-codegen/src/passes/algebraic_simplify.rs:216-411 | every rewrite found refers only to ids at most as late as the operands of the op it replaces |
| AlgebraicSimplify.BinopKeepsValue | crates/metaltile-codegen/src/passes/algebraic_simplify.rs:289-379 | every binary pattern evaluates to the old value where the old op is defined |
| AlgebraicSimplify.SelectKeepsValue | crates/metaltile-codegen/src/passes/algebraic_simplify.rs:381-411 | every select pattern does, through either form of a negated condition |
| AlgebraicSimplify.RoundIsSound | crates/metaltile-codegen/src/passes/algebraic_simplify.rs:120-200 | overwrites, replacements and redirects of one round, taken together, satisfy the plan conditions |
| AlgebraicSimplify.NoUseOfDeleted | crates/metaltile-codegen/src/passes/algebraic_simplify.rs:172-197 | after a round no op of the block uses a deleted id |
| AlgebraicSimplify.RoundPreserves | crates/metaltile-codegen/src/passes/algebraic_simplify.rs:120-200 | one round preserves outcome, memory and store trace, and every surviving id has its old value (no other block uses a dropped id) |
| AlgebraicSimplify.RoundKeepsSsa | crates/metaltile-codegen/src/passes/algebraic_simplify.rs:120-200 | SSA form survives a round |
| AlgebraicFixpoint.RoundDescends | crates/metaltile-codegen/src/passes/algebraic_simplify.rs:112-200 | each round lowers (number of ops, weight of op kinds, sum of operand positions) lexicographically on every SSA block, all arms included |
| AlgebraicFixpoint.FixpointIsStable | crates/metaltile-codegen/src/passes/algebraic_simplify.rs:112-118 | at the end no pattern applies except to results nobody in the block uses |
| NormalForms.SimplifiedForm | crates/metaltile-codegen/src/passes/algebraic_simplify.rs:216-411 | in a simplified block none of the patterns that overwrite is left, and of the patterns that redirect none whose result the block uses, each pattern spelled out |
| NormalForms.OnlyPatterns | crates/metaltile-codegen/src/passes/algebraic_simplify.rs:216-411 | and on no other op does the simplifier act |
| NormalForms.OthersStay | crates/metaltile-codegen/src/passes/algebraic_simplify.rs:120-200 | an instruction that matches none of them is still there after a round, with its operation, on operands that may have been renamed |
| AlgebraicFixpoint.FixpointPreserves | crates/metaltile-codegen/src/passes/algebraic_simplify.rs:112-118 | the fixpoint of a block preserves every run, provided what other blocks use of it survives; `AlgebraicCross` gives that on the input |
| AlgebraicPass.Scan | crates/metaltile-codegen/src/passes/algebraic_simplify.rs:135-147 | the scan collects exactly the overwrites, replacements and redirects found in the old block |
| AlgebraicPass.Overwrite | crates/metaltile-codegen/src/passes/algebraic_simplify.rs:164-170 | written in place one after another they give the simultaneous replacement |
| AlgebraicPass.SimplifyBlockOnce | crates/metaltile-codegen/src/passes/algebraic_simplify.rs:120-200 | the in-place round equals the value-level round and reports whether it changed anything |
| AlgebraicPass.SimplifyBlockFixpoint | crates/metaltile-codegen/src/passes/algebraic_simplify.rs:112-118 | the loop terminates and reaches the fixpoint |
| AlgebraicPass.SimplifiedBlock | crates/metaltile-codegen/src/passes/algebraic_simplify.rs:73-86 | simplifying one block never touches another |
| AlgebraicPass.PassPreserves | crates/metaltile-codegen/src/passes/algebraic_simplify.rs:73-86 | the pass over all blocks, in any order, preserves every run, provided what other blocks use of each block survives |
| AlgebraicPass.Run | crates/metaltile-codegen/src/passes/algebraic_simplify.rs:73-86 | in place, every block ends at its own fixpoint |
| AlgebraicCross.RoundClosedIff | crates/metaltile-codegen/src/passes/algebraic_simplify.rs:120-200 | after a round of a block no use of an undefined id is left in the kernel if and only if no other block uses an id that the round drops, read off the block as it was |
| AlgebraicCross.FirstRoundDangles | crates/metaltile-codegen/src/passes/algebraic_simplify.rs:112-118 | a use that the first round leaves dangling stays dangling, whatever the later rounds do |
| AlgebraicCross.FixpointClosedIff | crates/metaltile-codegen/src/passes/algebraic_simplify.rs:112-118 | after the fixpoint of a block nothing dangles if and only if every id of it that another block uses is still defined |
| AlgebraicCross.PassPreservesSafe | crates/metaltile-codegen/src/passes/algebraic_simplify.rs:73-86 | the pass preserves every run of a kernel in which no id used in another block comes from a kind of op that a pattern may redirect (`Div`, `Min`, `Max`, `Select`, `Transpose`, `Reshape`, `ExpandDims`): a condition on the input alone |
| AlgebraicCross.RunPreserves | crates/metaltile-codegen/src/passes/algebraic_simplify.rs:73-86 | so does the in-place pass |
| AlgebraicDangling.DanglingUse | crates/metaltile-codegen/src/passes/algebraic_simplify.rs:112-200 | a concrete kernel whose nested block is left using a deleted id and gets stuck: why cross-block uses must survive |
| ConstFold.XorFoldsIff | crates/metaltile-codegen/src/passes/const_fold.rs:196 | the bitwise fold of `Xor` is what the emitted logical operator computes if and only if the operands agree on it (0/1 operands among others) |
| ConstFold.FoldMatchesMachine | crates/metaltile-codegen/src/passes/const_fold.rs:181-218 | on 64-bit operands every fold equals what the emitted operator computes if and only if, for `Xor`, the operands agree; where folding would panic the operator is undefined |
| FoldMeaning.FoldsExactly | crates/metaltile-codegen/src/passes/const_fold.rs:181-218 | which pairs of literals fold, which do not and which panic, for every kind |
| FoldMeaning.FoldComputes | crates/metaltile-codegen/src/passes/const_fold.rs:181-218 | the value of every fold, from the operands alone: residues modulo 2^64, quotients that truncate toward zero, shifts that floor, bits one by one, truth values |
| FoldMeaning.MachineComputes | crates/metaltile-codegen/src/passes/const_fold.rs:181-218 | the same of the emitted operators, remainders included |
| FoldMeaning.UnaryComputes | crates/metaltile-codegen/src/passes/const_fold.rs:239-252 | and of the folds of one literal |
| NormalForms.LiteralsFold | crates/metaltile-codegen/src/passes/const_fold.rs:117-123 | after folding an operation on two literals is the literal it computes |
| NormalForms.LiteralFolds | crates/metaltile-codegen/src/passes/const_fold.rs:149-155 | so is an integer-safe operation on one literal |
| NormalForms.IdentitiesGo | crates/metaltile-codegen/src/passes/const_fold.rs:126-141 | the result of adding or subtracting zero or multiplying by one is used no more, unless another such op passes it on |
| ConstFold.SubstEachIsSubst | crates/metaltile-codegen/src/passes/const_fold.rs:169-178 | redirects applied one after another to an already rewritten op amount to one simultaneous substitution |
| ConstFold.FoldKeepsValue | crates/metaltile-codegen/src/passes/const_fold.rs:113-162 | every literal fold and identity fold evaluates to the old value |
| ConstFold.FoldPreserves | crates/metaltile-codegen/src/passes/const_fold.rs:109-179 | folding one block leaves the whole outcome of the run unchanged: every SSA value, memory and store trace |
| ConstFoldPass.FoldedPreserves | crates/metaltile-codegen/src/passes/const_fold.rs:67-73 | folding all blocks, in any order, leaves the outcome unchanged |
| ConstFoldPass.NoDanglingUse | crates/metaltile-codegen/src/passes/const_fold.rs:75-99 | every id that the final kernel uses in any block and the original defined is still defined, although uses were counted before anything was dropped |
| NormalForms.UnusedGone | crates/metaltile-codegen/src/passes/const_fold.rs:269-297 | what a nested block still defines after the dead-code step was used somewhere before it |
| ConstFoldPass.PassPreserves | crates/metaltile-codegen/src/passes/const_fold.rs:51-99 | folding all blocks and then dropping the unused results preserves every run; ops that write have no result, so only ops without effect are dropped |
| ConstFoldRun.Scan | crates/metaltile-codegen/src/passes/const_fold.rs:113-162 | the scan collects the folds of the old block, and stops exactly when a literal operation panics |
| ConstFoldRun.FoldInPlace | crates/metaltile-codegen/src/passes/const_fold.rs:109-179 | the in-place fold equals the value-level fold |
| ConstFoldRun.DceBlock | crates/metaltile-codegen/src/passes/const_fold.rs:269-297 | in place, exactly the unused results go |
| ConstFoldRun.OrderIrrelevant | crates/metaltile-codegen/src/passes/const_fold.rs:67-73 | every order of the blocks gives the same folded kernel |
| ConstFoldRun.Run | crates/metaltile-codegen/src/passes/const_fold.rs:51-99 | the in-place pass panics exactly when a block has a panicking literal operation, and otherwise is fold-all then drop |
| ConstFoldRun.RunPreserves | crates/metaltile-codegen/src/passes/const_fold.rs:51-99 | the kernel it leaves behaves like the one it was given |
| MachineLaws.MachineCommutes | crates/metaltile-codegen/src/passes/cse.rs:206-223 | 64-bit integers are commutative on exactly what CSE assumes |
| MachineLaws.MachineSimplifies | crates/metaltile-codegen/src/passes/algebraic_simplify.rs:289-476 | wrapping 64-bit integers with partial division satisfy all laws of the simplifier at once |
| MachineLaws.MachineFolds | crates/metaltile-codegen/src/passes/const_fold.rs:113-248 | and all laws of the folder |
| MachineLaws.MachineCopies | crates/metaltile-codegen/src/passes/copy_prop.rs:140-205 | and those of copy propagation, given that casting twice is casting once |
| CopyProp.CopyShrinks | crates/metaltile-codegen/src/passes/copy_prop.rs:91-137 | every productive round drops an op, on any block, so the loop terminates |
| CopyProp.CastHolds | crates/metaltile-codegen/src/passes/copy_prop.rs:187-205 | casting an id to the dtype inferred for it changes nothing |
| CopyProp.CopyRoundPreserves | crates/metaltile-codegen/src/passes/copy_prop.rs:91-137 | one round preserves every run (no other block uses a dropped id) |
| CopyProp.CopyKeepsSsa | crates/metaltile-codegen/src/passes/copy_prop.rs:91-137 | SSA form survives a round |
| CopyProp.CopyBlockOnce | crates/metaltile-codegen/src/passes/copy_prop.rs:91-137 | the in-place round equals the value-level round |
| CopyProp.CopyBlockFixpoint | crates/metaltile-codegen/src/passes/copy_prop.rs:83-89 | the loop terminates on every block and reaches a block without identities |
| NormalForms.CopiesGone | crates/metaltile-codegen/src/passes/copy_prop.rs:140-205 | after it no copy with a result is left: no cast to the dtype a value was made with, no broadcast or reshape to a unit shape, no select between one id |
| NormalForms.OnlyCopies | crates/metaltile-codegen/src/passes/copy_prop.rs:140-205 | nothing else is taken for a copy |
| NormalForms.NonCopiesStay | crates/metaltile-codegen/src/passes/copy_prop.rs:91-137 | whatever is no copy is still there after a round |
| CopyProp.FixpointPreserves | crates/metaltile-codegen/src/passes/copy_prop.rs:83-89 | the fixpoint preserves every run, provided what other blocks use of the block survives |
| CopyProp.PassPreserves | crates/metaltile-codegen/src/passes/copy_prop.rs:48-59 | so does the pass over all blocks in any order, under the same proviso |
| CopyProp.PropagatedBlock | crates/metaltile-codegen/src/passes/copy_prop.rs:48-59 | propagating in one block never touches another |
| CopyProp.Run | crates/metaltile-codegen/src/passes/copy_prop.rs:48-59 | in place, every block ends at its own fixpoint |
| CopyCross.RoundClosedIff | crates/metaltile-codegen/src/passes/copy_prop.rs:91-137 | after a round nothing dangles if and only if no other block uses a copy that the round drops |
| CopyCross.FirstRoundDangles | crates/metaltile-codegen/src/passes/copy_prop.rs:83-89 | a use that the first round leaves dangling stays dangling |
| CopyCross.FixpointClosedIff | crates/metaltile-codegen/src/passes/copy_prop.rs:83-89 | after the fixpoint nothing dangles if and only if every id that another block uses is still defined |
| CopyCross.PassPreservesSafe | crates/metaltile-codegen/src/passes/copy_prop.rs:48-59 | the pass preserves every run of a kernel in which no id used in another block comes from a cast, a select, or a broadcast or reshape to a unit shape |
| CopyCross.RunPreserves | crates/metaltile-codegen/src/passes/copy_prop.rs:48-59 | so does the in-place pass |
| CopyDangling.CopyDangles | crates/metaltile-codegen/src/passes/copy_prop.rs:91-137 | a concrete kernel with a cast to its own dtype, used in its own and in a nested block: the nested use is left dangling and the run gets stuck |
| DeadStoreElim.KeptStores | crates/metaltile-codegen/src/passes/dead_store_elim.rs:128-158 | masked stores, stores to outputs, the last store of every key and every op that is no store are in the swept block, behind exactly what is kept of the ops before them |
| DeadStoreElim.OutputsOnly | crates/metaltile-codegen/src/passes/type_check.rs:117-123 | where every store targets an output, which type checking demands of `Store`, the pass changes nothing |
| DeadStoreGone.OutputStoresStay | crates/metaltile-codegen/src/passes/dead_store_elim.rs:45-49 | a store to a parameter marked as output is in the swept block |
| DeadStoreGone.NoPairLeft | crates/metaltile-codegen/src/passes/dead_store_elim.rs:117-158 | in the swept block no two unmasked stores go to one place of a buffer that is no output, unless the block loads from there |
| DeadStoreSound.EvalUnderOverlay | crates/metaltile-codegen/src/passes/dead_store_elim.rs:86-93 | an op that does not load the key evaluates alike with and without the superfluous write |
| DeadStoreSound.StoreUnderOverlay | crates/metaltile-codegen/src/passes/dead_store_elim.rs:124-158 | a later unmasked store of the key settles the difference, any other store carries it along |
| DeadStoreSound.RunNear | crates/metaltile-codegen/src/passes/dead_store_elim.rs:101-167 | code that never gets at a buffer, through any nesting of loops and branches, runs alike whatever the buffer holds |
| DeadStoreSound.RunUnderOverlay | crates/metaltile-codegen/src/passes/dead_store_elim.rs:117-158 | the rest of the block, loops, branches, fetches and effects included, computes the same values and ends with the same memory once the key is stored |
| DeadStoreSound.SweepPreserves | crates/metaltile-codegen/src/passes/dead_store_elim.rs:101-167 | all dead stores of a block can go: every id, the final memory and all that effects show are kept |
| DeadStoreSound.PassPreserves | crates/metaltile-codegen/src/passes/dead_store_elim.rs:45-62 | the pass on a kernel with any nesting: every id, the final memory and all that effects show are kept, when between a dead store and the store that overwrites it no loop, branch, fetch or effect gets at the buffer, and distinct keys denote disjoint locations |
| DeadStoreShows.ExposedShows | crates/metaltile-codegen/src/passes/dead_store_elim.rs:107-158 | the converse: when an effect or a fetch in the entry block sees a dead store before it is overwritten, some interpretation that obeys all the laws tells the swept kernel from the original (branches of the entry block without `else`; some operators keep distinct keys apart) |
| DeadStoreShows.PreservedIff | crates/metaltile-codegen/src/passes/dead_store_elim.rs:101-167 | for a kernel of one block the condition is exact: the pass is right under every lawful interpretation if and only if nothing gets in between |
| DeadStorePass.FindDead | crates/metaltile-codegen/src/passes/dead_store_elim.rs:107-158 | the backward scan, with the invariant that each recorded key has a later surviving store, finds exactly the dead stores, in ascending order |
| DeadStorePass.DseBlock | crates/metaltile-codegen/src/passes/dead_store_elim.rs:101-167 | in place the block becomes the swept block |
| DeadStorePass.Run | crates/metaltile-codegen/src/passes/dead_store_elim.rs:45-62 | in place the kernel becomes the swept kernel, which computes what the old one did when nothing gets in between, and is the old one when all stores target outputs |
| DeadStoreNested.NestedReadLost | crates/metaltile-codegen/src/passes/dead_store_elim.rs:107-115 | a concrete kernel in which a nested block reads between two vector stores: the pass changes what is stored, because reads are collected per block |
| DeadStoreNested.NestedReadUnreached | crates/metaltile-codegen/src/passes/dead_store_elim.rs:107-115 | a kernel whose nested read can never happen: the condition of `PassPreserves` fails, the pass is right all the same |
| Warp.FlipBit | crates/metaltile-codegen/src/cuda/mod.rs:807-811 | lane numbers differ by one power of two under `shfl_xor`, which pairs lanes inside blocks of twice the offset |
| Warp.Butterfly | crates/metaltile-codegen/src/cuda/mod.rs:802-818 | for any power-of-two lane count and commutative monoid, every lane ends with the fold of all lanes |
| Warp.ReduceDown | crates/metaltile-codegen/src/cuda/mod.rs:1277-1282 | the shuffle-down tree leaves the fold of all lanes in lane 0 |
| Warp.PreciseSum | crates/metaltile-codegen/src/cuda/mod.rs:783-801 | the reproducible sum is the left-to-right fold, no law used |
| Warp.Scan | crates/metaltile-codegen/src/cuda/mod.rs:822-851 | the shuffle-up scan leaves the inclusive prefix in each lane, or the exclusive one with the identity in lane 0 |
| Folds.FoldZip | crates/metaltile-codegen/src/cuda/mod.rs:1470-1477 | folding lane-wise combinations is combining the folds |
| ReduceProtocol.GatherFolds | crates/metaltile-codegen/src/cuda/mod.rs:1286-1295 | the published per-warp totals, padded with the identity, fold to the total of all threads |
| ReduceProtocol.Publish | crates/metaltile-codegen/src/cuda/mod.rs:1277-1285 | what a warp publishes in the protocol is what the shuffle tree over its lanes leaves in lane 0 |
| ReduceProtocol.CombineTotals | crates/metaltile-codegen/src/cuda/mod.rs:1286-1297 | and what warp 0 makes of the published totals |
| ReduceProtocol.EverySchedule | crates/metaltile-codegen/src/cuda/mod.rs:1262-1307 | the protocol invariant holds under every interleaving of the warps |
| ReduceProtocol.ReductionIsCorrect | crates/metaltile-codegen/src/cuda/mod.rs:1262-1307 | under every interleaving and for any number of iterations over one buffer, every warp reads in iteration t the fold of all threads' inputs of iteration t |
| ReduceProtocol.CorrectIff | crates/metaltile-codegen/src/msl/reduce.rs:95-116 | the reduction is right on every input and schedule if and only if it has the trailing barrier, or runs at most once, or has one warp |
| ReduceProtocol.GuardIsNeeded | crates/metaltile-codegen/src/cuda/mod.rs:1302-1305 | for all other sizes, a schedule in which a warp reads the next iteration's value |
| ReduceProtocol.NoDeadlock | crates/metaltile-codegen/src/cuda/mod.rs:1262-1307 | while a warp has iterations left some warp can move |
| StrideLoop.OwnedOnce | crates/metaltile-codegen/src/msl/emit_block.rs:407-427 | an index belongs to its owner's visits exactly once and to no other thread's |
| StrideLoop.Counters | crates/metaltile-codegen/src/msl/emit_block.rs:407-413 | the whole-group and left-over counters cover the row exactly |
| StrideLoop.QuadStride | crates/metaltile-codegen/src/msl/emit_block.rs:405-428 | a thread of the 4-wide loop folds exactly the indices it owns, in order, for every size and thread count |
| StrideLoop.GridStride | crates/metaltile-codegen/src/cuda/mod.rs:937-942 | so does a thread of the grid-stride loop |
| StrideLoop.SharesFold | crates/metaltile-codegen/src/msl/emit_block.rs:397-428 | folding the threads' results is folding the row |
| StrideLoop.BothLoopsFold | crates/metaltile-codegen/src/cuda/mod.rs:862-943 | both lowerings give the plain fold of the row |
| StrideLoop.RowIsReduced | crates/metaltile-codegen/src/msl/reduce.rs:90-117 | strided loop and two-level reduction together: every warp reads the fold of the row, under every schedule |
| StrideLoop.SingleWarp | crates/metaltile-codegen/src/msl/reduce.rs:71-88 | with one warp the two-level result is the warp's own fold: the one-line fast path |
| StrideLoop.QuadStore | crates/metaltile-codegen/src/msl/emit_block.rs:967-1003 | a thread of the 4-wide store writes exactly the cells it owns |
| StrideLoop.StoreRow | crates/metaltile-codegen/src/msl/emit_block.rs:967-1003 | all threads, in any order, write every cell of the row and no other |
| Matmul.DotPadded | crates/metaltile-codegen/src/msl/matmul.rs:102-116 | accumulating past k over zero padding changes nothing |
| Matmul.TileContributes | crates/metaltile-codegen/src/msl/matmul.rs:118-128 | a pair of full tiles contributes exactly the next block of terms |
| Matmul.ProductIsPlain | crates/metaltile-codegen/src/msl/matmul.rs:91-130 | the padded terms of a cell add up to the sum over l < k of a[k * i + l] * b[n * l + j] of the flat arrays |
| TiledScalar.LoadThread | crates/metaltile-codegen/src/msl/matmul.rs:103-116 | a thread loads exactly the tile cells whose index is its number modulo the thread count |
| TiledScalar.Load | crates/metaltile-codegen/src/msl/matmul.rs:102-117 | all threads, in any order: both tiles hold their block, zero-padded at the edges, with row strides TK + 1 and TN + 1 |
| TiledScalar.Accumulate | crates/metaltile-codegen/src/msl/matmul.rs:118-130 | a thread adds the block's terms to each of its cells |
| TiledScalar.StoreThread | crates/metaltile-codegen/src/msl/matmul.rs:133-141 | a thread stores its in-range cells and nothing else |
| TiledScalar.ThreadsCover | crates/metaltile-codegen/src/msl/matmul.rs:118-121 | the threads of a group cover exactly its rectangle |
| TiledScalar.OneWriter | crates/metaltile-codegen/src/msl/matmul.rs:133-141 | no cell has two writers: row and column determine threadgroup, thread and register pair |
| TiledScalar.ThreadGroup | crates/metaltile-codegen/src/msl/matmul.rs:91-141 | a threadgroup fills its rectangle with the product |
| TiledScalar.Run | crates/metaltile-codegen/src/msl/matmul.rs:91-141 | c[n * i + j] is the sum over l < k of a[k * i + l] * b[n * l + j] in every cell, for all m, n, k, with enough threadgroups in any order |
| DoubleBuffer.EveryCellOnce | crates/metaltile-codegen/src/msl/matmul.rs:301-318 | the fragment and lane mapping is a bijection onto the 64 by 64 tile |
| DoubleBuffer.WrittenA | crates/metaltile-codegen/src/msl/matmul.rs:199-212 | a thread's eight-cell load of A, whole or cell by cell, writes exactly its piece, zero-padded |
| DoubleBuffer.WrittenB | crates/metaltile-codegen/src/msl/matmul.rs:213-226 | the same for B |
| DoubleBuffer.PiecesCover | crates/metaltile-codegen/src/msl/matmul.rs:193-226 | the pieces of the 128 threads cover both tiles |
| DoubleBuffer.NoRace | crates/metaltile-codegen/src/msl/matmul.rs:229-294 | no thread is about to read a half of the tiles that another may still write |
| DoubleBuffer.TilesReady | crates/metaltile-codegen/src/msl/matmul.rs:229-294 | when a thread multiplies, the block pair is fully loaded |
| DoubleBuffer.EverySchedule | crates/metaltile-codegen/src/msl/matmul.rs:193-295 | the invariant, with each block consumed exactly once and in order, holds under every interleaving and for every k |
| DoubleBuffer.FinishedIsProduct | crates/metaltile-codegen/src/msl/matmul.rs:193-295 | a finished thread holds the product in all its cells, in terms of the flat arrays where they are in range |
| DoubleBuffer.NoDeadlock | crates/metaltile-codegen/src/msl/matmul.rs:227-295 | until all have finished some thread can move |
| FragmentStore.StoreTile | crates/metaltile-codegen/src/msl/matmul.rs:297-332 | the fragment stores, paired when rows are even, write the product to every in-range cell of the tile and touch nothing else |
| FragmentStore.StoreGrid | crates/metaltile-codegen/src/msl/matmul.rs:161-332 | the whole kernel: for any m, n, k and enough threadgroups, however the threads of each were interleaved and in whatever order the groups store, c[n * i + j] is the sum over l < k of a[k * i + l] * b[n * l + j] |
| FragmentStore.ProtocolFinishes | crates/metaltile-codegen/src/msl/matmul.rs:229-332 | what the protocol leaves is what the stores need |
| CoopTile.BlockElemA | crates/metaltile-codegen/src/cuda/mod.rs:1103-1109 | block pointers and transpose flags address the right element of A |
| CoopTile.BlockElemB | crates/metaltile-codegen/src/cuda/mod.rs:1124-1130 | and of B |
| CoopTile.LoadA | crates/metaltile-codegen/src/cuda/mod.rs:1092-1112 | the cooperative load stages the block of A in any thread order: row i, column l from off + ei * i + l, or from off + ei * l + i if A is transposed |
| CoopTile.LoadB | crates/metaltile-codegen/src/cuda/mod.rs:1113-1132 | and that of B: row l, column j from off + ei * l + j, or from off + ei * j + l if B is transposed |
| CoopTile.SlotOfCell | crates/metaltile-codegen/src/cuda/mod.rs:1147-1162 | slot lane + li * lw: every cell has exactly one slot, also when the lane count does not divide the tile |
| CoopTile.RunShared | crates/metaltile-codegen/src/cuda/mod.rs:1164-1182 | `Run` with C in shared memory gives the accumulated tile |
| CoopTile.RunLanes | crates/metaltile-codegen/src/cuda/mod.rs:1142-1163 | `Run` with C in the lanes' registers gives the same tile |
| CoopTile.BlockContributes | crates/metaltile-codegen/src/cuda/mod.rs:1133-1183 | a K block contributes its k terms |
| CoopTile.DestUnique | crates/metaltile-codegen/src/cuda/mod.rs:1193 | with rows at least n apart no two cells are stored to one place |
| CoopTile.StoreC | crates/metaltile-codegen/src/cuda/mod.rs:1184-1217 | every cell is stored to its place, everything else is untouched |
| CoopTile.StoreLanes | crates/metaltile-codegen/src/cuda/mod.rs:1194-1210 | the same from the lanes' registers, slot by slot up to the first past the tile |
| CoopTile.GemmShared | crates/metaltile-codegen/src/cuda/mod.rs:1066-1217 | zero, any number of K blocks, store: cell (i, j) is the sum over l of A(i, l) * B(l, j), each read at its address in the flat memory, for all four transpose settings, and nothing else is written |
| CoopTile.GemmLanes | crates/metaltile-codegen/src/cuda/mod.rs:1066-1217 | the lane-local variant computes that too, for any lane count |
| SharedLayout.MaskAgreesIff | crates/metaltile-codegen/src/cuda/mod.rs:466-469 | the mask form of rounding up agrees with the host's on every offset if and only if the element size is a power of two |
| SharedLayout.WarpsAgree | crates/metaltile-codegen/src/cuda/mod.rs:455-459 | the two warp counts agree if and only if there is a thread |
| SharedLayout.DeviceOffsets | crates/metaltile-codegen/src/cuda/mod.rs:454-474 | the device offsets, in wrapping 32-bit arithmetic, are the aligned bases, and the last one is the total |
| SharedLayout.HostBytes | crates/metaltile-codegen/src/cuda/mod.rs:532-546 | the host computes the same total; for one array it is count * bytes, times the number of warps that have a thread if it is per warp |
| SharedLayout.SliceInside | crates/metaltile-codegen/src/cuda/mod.rs:460-473 | every warp's copy of every array is aligned and inside the total |
| SharedLayout.SlicesDisjoint | crates/metaltile-codegen/src/cuda/mod.rs:460-473 | no two copies overlap |
| SharedLayout.BasesLaidOut | crates/metaltile-codegen/src/cuda/mod.rs:454-474 | for every warp w with 32 * w < threads its copy of a per-warp array, and the one copy of any other, is aligned and inside the total, and no two copies overlap |
| SharedLayout.Launch | crates/metaltile-codegen/src/cuda/mod.rs:454-546 | host and device together: the device places the arrays like that in what the host allocates |
| Includes.QuotedNameIff | crates/metaltile-std/bin/build.rs:223-225 | a line is a quoted include exactly when it is the directive, the name and a quote, up to surrounding blanks |
| Includes.TrimsBlanks | crates/metaltile-std/bin/build.rs:224 | trimming takes the blanks off both ends and nothing else |
| Includes.BesideWins | crates/metaltile-std/bin/build.rs:226-230 | a header beside the including file is inlined, whether or not one of that name is under the root |
| Includes.RootIsSecond | crates/metaltile-std/bin/build.rs:231-235 | otherwise the root is searched, and a name found nowhere leaves its line as it is |
| Includes.LinesOnce | crates/metaltile-std/bin/build.rs:196-220 | each newly visited header's own lines occur once, at every point of the recursion |
| Includes.VisitedIsClosed | crates/metaltile-std/bin/build.rs:196-220 | what a call visits includes all that it includes |
| Includes.ExactlyReachable | crates/metaltile-std/bin/build.rs:196-236 | from an empty visited set, exactly the headers reachable through resolvable includes are visited, and each one's own lines occur exactly once; cyclic graphs too |
| Includes.Resolve | crates/metaltile-std/bin/build.rs:196-220 | the recursion with its mutable visited set terminates and produces that output and that set |
| CacheLock.StepKeeps | crates/metaltile-std/bin/build.rs:56-142 | each step keeps the invariant and leaves a valid cache untouched |
| CacheLock.ProtocolIsSafe | crates/metaltile-std/bin/build.rs:56-142 | for any number of processes and any interleaving, with failing and killed ones: one rebuilds at a time, a valid marker means a complete checkout, a clone starts from nothing but its own leavings, a valid cache never changes again, and who returns normally sees it valid |
| CacheLock.StopsIff | crates/metaltile-std/bin/build.rs:129-142 | the builds stop moving exactly when all that still run wait for a lock whose holder is gone |
| CacheLock.NoKillNoBlock | crates/metaltile-std/bin/build.rs:110-142 | from a start, under every schedule without a kill, whatever fails, somebody can move until all have finished |
| CacheLock.BlocksIff | crates/metaltile-std/bin/build.rs:110-142 | from a start some schedule leaves the builds stuck if and only if there are at least two and the cache is invalid |
| CacheLock.KillHolder | crates/metaltile-std/bin/build.rs:121-142 | such a schedule, with a single kill |
| CacheLock.OnlyKillsOrphan | crates/metaltile-std/bin/build.rs:131-133 | a failing fetch releases the lock; only a killed process leaves it behind |
| CacheLock.GoAloneSucceeds | crates/metaltile-std/bin/build.rs:56-113 | where no step fails and nobody is killed, once all have finished all have returned and the cache is complete and marked |
| CacheLock.EveryBuildCanSucceed | crates/metaltile-std/bin/build.rs:56-142 | from a start there is such a schedule |
| Calendar.FromSeconds | crates/metaltile-cli/src/cmd/snap.rs:178-210 | the loops terminate on every input with a valid date and time, the one whose seconds since the Epoch, by the standard's closed form, is the input |
| Calendar.SecondsOrder | crates/metaltile-cli/src/cmd/snap.rs:178-211 | the closed form is strictly monotone in the calendar order, so the conversion is too |
| Calendar.NextYear | crates/metaltile-cli/src/cmd/snap.rs:187-194 | a year of the closed form has the length the leap rule gives it |
| Calendar.MonthTable | crates/metaltile-cli/src/cmd/snap.rs:196-204 | the day of the year on which each month starts and the number of its days, as numbers, in common and leap years |

## Left out

- Dead-value elimination, which ends each pass, and the passes not shown here (fusion, unrolling, vectorisation, type checking): each pass is modelled up to that call.
- Floating-point rounding and NaN: values are abstract, integers, or elements of a commutative monoid; `Mean` divides the modelled sum afterwards. The laws the passes rely on are explicit predicates (`Laws`), satisfied by 64-bit integers (`MachineLaws`).
- 32-bit overflow of index arithmetic in the emitted loops; the shared-memory layout does model 32-bit wrap-around.
- Other threads inside a kernel run: what a `Fetch` yields and what an `Effect` leaves in memory are arbitrary functions of the state, except that read-only buffers are left alone. Inline code with outputs is a `Fetch`, so it is taken to write nothing; without outputs it is an `Effect`.
- The shapes of values: a shape operation carries one value along. The squashing arms of the simplifier assume `ShapeLaws`, which the emitted scalar code satisfies.
- Ops with one op nested inside another (fused chains): they are `Pure`, `Fetch` or `Effect` ops with all their ids as operands.
- AlgebraicSimplify.RoundPreserves: assumes that no other block uses a dropped result, as the code does; `AlgebraicCross.RoundClosedIff` says that nothing else will do.
- CopyProp.CopyRoundPreserves: the same assumption, see `CopyCross.RoundClosedIff`.
- AlgebraicCross.PassPreservesSafe: the condition on op kinds is sufficient, not necessary; the exact one, per block, is `AlgebraicCross.FixpointClosedIff`.
- CopyCross.PassPreservesSafe: likewise, see `CopyCross.FixpointClosedIff`.
- ConstFoldPass.PassPreserves: assumes that folded `Xor` operands agree, see above.
- ConstFoldRun.Scan: a shift amount outside 0..63 panics, as it does with overflow checks; the release profile (`Cargo.toml:86`) has none and masks the amount.
- ConstFoldRun.Run: the same.
- DeadStoreSound.PassPreserves: distinct keys of one buffer must denote disjoint locations, as the pass compares keys only. The stores themselves are not compared one by one, since dead stores are among them: the final memory is, and what every effect sees.
- DeadStoreShows.PreservedIff: one block, and operators under which distinct keys are distinct locations; with branches the condition is sufficient only.
- Hash-map iteration order: the passes are proved for every order of the blocks; CSE, which sorts, for the ascending one.
- Name hints of values (`Block.names`), which only affect the emitted text.
- ReduceProtocol.ReductionIsCorrect: the unit that moves is a warp; what its lanes do between two of its steps is the warp-level computation of `Warp`.
- DoubleBuffer.FinishedIsProduct: the default tile (64 by 64 by 16, 128 threads) only, and a thread's multiply-accumulate on its own fragment cells is one step; `DoubleBuffer.NoRace` says why nothing can come in between. Alignment of the 16-byte copies is not modelled.
- TiledScalar.Run: between two barriers each thread's phase is run as a whole, in any thread order; threads write disjoint cells there.
- CoopTile.GemmShared: one scope at a time (a warp or a threadgroup) with its own slice of shared memory, all its threads taking part, and rows of C at least n apart; 32 lanes where the source fixes the step at 32.
- StrideLoop.QuadStride: the element expression (transforms, second operand) is one value per index.
- Includes.ExactlyReachable: a header's directory is a function of its canonical path, so no symbolic links between directories; every existing file is readable.
- CacheLock.ProtocolIsSafe: the git commands are one step that may be interrupted or fail; clocks and waiting times are not modelled.
- Calendar.FromSeconds: the formatting of the date as text.
- Product reductions in Metal, where the helper leaves the result in lane 0 only.
- Text emission: identifiers, preambles, Swift and HIP rewriting; the command line, configuration and runtime.
