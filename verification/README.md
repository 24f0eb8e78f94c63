# A verified model of the Tilde backend

Tilde turns functions built of basic blocks and nodes into machine code and object files. This
project models, in Dafny, the parts of it whose correctness is hardest to see from the code, and
proves what they are for. Line numbers refer to the files of the repository.

**The node graph and its runs.** `Cfg` holds the terminators and paths of a function, dominance and
immediate dominators as statements about paths. `Ir` holds the nodes and a run: block after block,
all phis of a block at once on arrival, then the nodes in order. What arithmetic, calls, loads and
stores do is a parameter (`Sem`), so the theorems hold of every meaning of these nodes. Sizes of
data types and volatile accesses stand beside the nodes (`Typing`). `Ssa` says that every use comes
after its definition on every path; `Equations` that in a run of such a graph each register keeps
equal to its own definition.

**Analyses.** `Predecessors`, `Postorder`, `DomTree`, `DomWalk`, `DomSweep`, `Dominators` and
`Frontiers` follow `tb_analysis.c`: the predecessor lists, the walk, the fixpoint over the `doms`
array and the runner loops.

**Promotion of stack slots.** `Coherency` chooses the slots by the sizes and kinds of their
accesses; `PhiInsertion` and `Mem2Reg.Promoter` are the two phases of `mem2reg.c`, with the phi
worklist and the stacks updated in place; `Promotion`, `Renaming` and `PlacedPhis` say what they
should make of a function, `PromotionRuns` that this runs as the original. `StackWalk` follows the
stacks and the storage of their heights through the walk, as written or as meant; `Leak` says when
the code as written comes to the same, `LeakExample`, `CrowdExample` and `ClearExample` hold
functions for which it does not. `Memory` runs a function with its slots in memory, where accesses
have sizes; `MixedExample` has one in which they differ.

**Passes.** `Replacing`, `Removal`, `Merging` and `Redefining` prove once what search-and-replace, a
killed node, a merge and a new definition do to runs. `Cse`, `CseComplete` and `CseExample`,
`DeadExpr`, `DeadBlocks`, `Passes`, `PassSweep` and `Rewrites` are the passes built on them.

**Machine code.** `X64Encode` is the two-operand encoder with a decoder written from sections 2.1.5
and 2.2.1 of volume 2A of the Intel manual. `X64Emit` is the block loop with its label and return
patches, `X64Flow` decodes the finished code and `X64Run` runs it instruction by instruction beside
the function.

**Arithmetic, tables, object files.** `Words`, `WordSums`, `WordShifts` and `BigInt`; `SymbolTable`
(the linker's probing table), `StringMap` (the bucketed map) and `SymbolList` (the list appended to
by many threads); `Bytes`, `Coff`, `CoffFields`, `CoffParse` and `CoffRoundTrip` (sections 3.3, 4,
5.2, 5.4, 5.5.5 and 5.6 of the Microsoft PE/COFF specification). `Finite` has what they share about finite collections.

Each imperative routine is a method, mostly of a class with the same fields as the source's context
structure, proved against a specification; the theorems are lemmas about that specification.
`None`, or a false result, stands for a place where the source stops at a `tb_todo()` or an `assert`.

## Findings

Where the code does not do what it is for, the model keeps the code, gives an input, and states
exactly when it is right.

- `src/tb/tb_analysis.c:234` starts from the first predecessor even when that has no dominator yet;
  `tb_get_dominators` stops at a `tb_todo()` exactly when some reachable block's first predecessor
  does not come later in postorder (`Dominators.GetDominators`); a loop of one block after another
  block suffices (`SelfLoopFails`).
- `src/tb/tb_analysis.c:144`: the runner loop ends exactly when every block with an unreachable
  predecessor beside another one is unreachable or has the entry for its immediate dominator
  (`Frontiers.AllRunnersStopIff`).
- `src/tb/tb_internal.c:366`: a switch can name a block more often than there are blocks, and the
  assert on the number of predecessors fails (`Predecessors.CrowdedFails`).
- `src/tb/opt/mem2reg.c:639` takes the size of the first load or store of a slot for that of every
  later one, so that slots with accesses of different sizes are promoted too
  (`Coherency.SizesUnseen`). `MixedExample` has a function that returns 5 and is made to return 261. A
  result does what the function does with its slots in memory when each slot's loads and stores get
  at one cell of one size (`Memory.PromotedInMemory`).
- `src/tb/opt/mem2reg.c:150` records the height of the stack after the phi was pushed, so that the
  phi stays for later siblings in the dominator tree; and line 475 turns the memset of a slot into a
  constant before line 168 can push it. With no more slots than blocks the renaming is right exactly
  when no load and no phi input is reached by such a phi or meant to get the zero of a memset
  (`Leak.LeakExact`). `LeakExample` has a function that returns 10 and is made to return 0,
  `ClearExample` one that returns 0 and is made to return 7.
- `src/tb/opt/mem2reg.c:143` makes room for a height per block, and lines 149 and 221 use one per
  slot. With more slots than blocks a call writes over heights of its caller, and values of another
  branch are read where no phi is left at all: `CrowdExample` has a function of four blocks and five
  slots. For any number of slots the renaming is right exactly if what is read is what is meant
  (`Leak.ReadExact`).
- `src/tb/opt/canonical.c:81-305` removes PASS nodes in one sweep; an operand that names a PASS
  which comes later, such as a phi input in a loop, keeps naming it. No operand does exactly when
  every PASS that is read was visited before, after all others on its chain
  (`PassSweep.SweepTidies`, `RoundUntidy`).
- `src/tb/opt/cse.h:193-229` follows a PASS to its source and lets the source take part, wherever
  that is. It may then be replaced by a node that its uses come before: `CseExample` has a function
  that changes. The merges keep every use defined exactly if each kept node is defined wherever the
  other is read, as they always do in a graph without PASS nodes (`Cse.CsePreservesRuns`).
- `src/tb/bigint/BigInt.c:205` takes any word that grew for a carry, and line 253 leaves the borrow
  out of the difference. Sums are right exactly if all words of the second operand but the last are
  zero, differences exactly if no word but the last needs a borrow (`WordSums.LiteralSumExact`,
  `LiteralDiffExact`). With one word the products and quotients are right; with two, products are
  exactly if the product of the lower words ends in a zero word, and divisions exactly if the quotient
  is and that product of quotient and divisor does (`BigInt.TwoProductExact`, `TwoDivModExact`).
  `DivModFails` has a dividend and a divisor for which they are not.
- `src/tb/x64/x64_emitter.h`: TEST with a memory second operand comes out as XCHG (lines 120-178); an
  index is lost on base RSP or R12 (line 30); MOVSX and MOVZX from SPL, BPL, SIL or DIL to 32 bits
  have no REX prefix, so that AH to BH are read (lines 141-143). For the operands that the
  model accepts nothing else goes wrong (`X64Encode.InstRoundTrip`).
- `src/tb/opt/canonical.c:441-444` adds offsets as unsigned numbers, so that the test for overflow
  never fails; right exactly if the sum fits 32 bits (`Rewrites.MemberIff`). Strides and offsets from
  2^31 on change sign (lines 501-510 and 522-534), and index arithmetic that wraps round at less than
  64 bits is folded as if it did not (`NarrowIndex`); `ArrayMulIff` and `ArrayAddIff` say when every
  address is kept. Zero extensions are
  dropped from signed comparisons too (line 361; `ZextIff`). The new array access is put behind the
  index, where the base need not be defined yet (line 525; `InsertIff`).
- `src/tb/x64/x64_fast.h:2717-2725` compares the sign-extended key of an entry with a constant key
  that was masked to its width: a negative constant of less than 64 bits goes to the entry of the
  number it is without a sign, mostly to the default (`X64Emit.WideTarget`, `MinusOneLost`).
- `src/tb/x64/x64_fast.h:2845-2856` compares a key that is not constant in 8, 16, 32 or 64 bits: an
  entry that the compare cuts off is taken for another key, and a negative entry is not found when
  the key has an odd width and was masked (`NarrowKeys`). An entry is taken for itself and nothing
  else exactly under the condition of `X64Emit.TakenItself`, and the chain goes where the function
  goes for every key exactly under that of `X64Run.ChainFindableIff`.
- `src/tb/opt/dead_code_elim.c:131`: an unused node of a kind that the switch does not list stops the
  pass, exactly when it is used only by what is deleted (`DeadExpr.DeadExprElim`).
- `src/tb/string_map.h:256` does not look whether the bucket is full; the keys stay visible exactly if
  the next bucket was empty (`StringMap.SpillKeeps`), and behind the last bucket the entry is written
  outside the table, exactly when `Insert` and `Put` say so.
- `src/tb/objects/pe.c:287-294`: a symbol with an empty name is counted and leaves its slot free, so
  that an empty table can be out of memory (`SymbolTable.BlankFills`), but only then (`FullMeans`).
- `src/tb/symbols.c:14-19`: two appenders that overtake each other leave `first` in the middle of the
  list (`SymbolList.HeadLost`); it is the head exactly if the thread that is the first to reach the
  compare-exchange is also the first to exchange `last` (`HeadExact`).
- `src/tb/objects/coff.c:238-247` makes room for a count when a section has 65535 relocations or more,
  but only the writer of the unwind section fills it, and the reader takes the count for a
  relocation. Names of 65535 bytes or more fail an assert (lines 584, 608 and 633). Modules come back
  exactly if no section has that many relocations and no name that many bytes
  (`CoffRoundTrip.CoffRoundTrip`).

## Model

| member | source | states |
|---|---|---|
| Predecessors.GetPredecessors | src/tb/tb_analysis.c:116-130 | stops exactly for a TRAP terminator in a function of several blocks or a block with more predecessors than there are blocks; otherwise gives the one table that the graph determines, with nothing for the entry |
| Predecessors.CrowdedFails | src/tb/tb_internal.c:366 | there is a well-formed function of the latter kind |
| Predecessors.PredsAreListed | src/tb/tb_internal.c:327-374 | each list is in block order and has a block as often as its terminator names the target |
| Postorder.PostorderWalk.Visit | src/tb/tb_analysis.c:11-42 | with its `visited` array, the walk appends exactly the walk of what was not seen before |
| Postorder.PostorderOfIsPostorder | src/tb/tb_analysis.c:11-42 | every reachable block once, the entry last, every other block before one of its predecessors |
| Postorder.FalseFirst | src/tb/tb_analysis.c:20-26 | where all ways to the true side of a branch go through the branch, and none comes from the false side, the false side stands before the true side |
| Postorder.LaterFirst | src/tb/tb_analysis.c:20-36 | likewise for a switch: the default stands before the entries, and later entries before earlier ones |
| Dominators.GetDominators | src/tb/tb_analysis.c:196-264 | terminates; succeeds if and only if every first predecessor comes later in postorder; then `doms` has the immediate dominator of every reachable block and 0 elsewhere |
| Dominators.SettledIsIdom | src/tb/tb_analysis.c:227-255 | once a sweep changes nothing, each entry is the closest strict dominator, in terms of paths |
| Dominators.IsDominatedBy | src/tb/tb_analysis.c:266-272 | for a reachable block, whether every path from the entry to it goes through x; for others, whether x is that block or the entry |
| Dominators.SelfPredFails | src/tb/tb_analysis.c:234 | a reachable block that is its own first predecessor makes the sweep stop |
| Dominators.SelfLoopFails | src/tb/tb_analysis.c:234 | there is a well-formed function of that kind |
| Dominators.CrossingSucceeds | src/tb/tb_analysis.c:20-26 | the analyses succeed on a graph on which they would stop if the true side were walked first |
| Frontiers.GetDominanceFrontiers | src/tb/tb_analysis.c:132-184 | the runner loops end and collect for each block the list that `FrontierExact` characterises |
| Frontiers.AllRunnersStopIff | src/tb/tb_analysis.c:139-152 | the loops end if and only if each block with several predecessors, one of them unreachable, hangs below the entry |
| Frontiers.FrontierExact | src/tb/tb_analysis.c:132-154 | y other than the entry is listed for a reachable x if and only if x dominates a predecessor of y and does not strictly dominate y |
| Frontiers.FrontierOften | src/tb/tb_analysis.c:132-154 | it is listed once for each mention of y by a block that x dominates, and the lists are in block order |
| Coherency.StackSlotCoherency | src/tb/opt/mem2reg.c:580-659 | the two loops give the verdict of the scan over loads, stores and memsets: volatile accesses and clashing sizes at once, then other uses of the address, then a slot never loaded or stored |
| Coherency.GoodIff | src/tb/opt/mem2reg.c:604-659 | a slot is found good if and only if its address has no other use, it is loaded or stored, never volatile, the first such access has a size and every memset clears as much |
| Coherency.VerdictIs | src/tb/opt/mem2reg.c:604-659 | each of the five answers: where no access is volatile and all sizes agree, another use of the address, then no load or store, then good; otherwise the first access at fault, and whether it is volatile, decides |
| Coherency.SizesUnseen | src/tb/opt/mem2reg.c:634-643 | the size of no load or store but the first has a part in the verdict |
| Coherency.ChooseSlots | src/tb/opt/mem2reg.c:359-415 | exactly the locals and parameter homes with a good verdict, by the sizes and volatile accesses of the function, each once, as `SlotList` has them |
| Coherency.SlotsInOrder | src/tb/opt/mem2reg.c:371-390 | the order is that of the blocks and of the nodes in them |
| Mem2Reg.Promoter.InsertPhis | src/tb/opt/mem2reg.c:502-548 | the worklist ends, and the phis of a slot are at exactly the iterated frontier of its store blocks if these are two or more, and nowhere otherwise; other slots keep their phis |
| PlacedPhis.JoinClosed | src/tb/opt/mem2reg.c:502-548 | the intersection of all sets closed under frontiers is itself closed, so the iterated frontier is the least fixed point |
| PlacedPhis.ExactIsPlaced | src/tb/opt/mem2reg.c:502-548 | phis at the iterated frontier are all that the frontiers of stores and phis ask for |
| PlacedPhis.FewStores | src/tb/opt/mem2reg.c:515-517 | a slot stored to in at most one block gets no phi; that none is needed is part of `PromotionPreservesRuns` |
| Mem2Reg.Promoter.SsaRename | src/tb/opt/mem2reg.c:141-225 | renames exactly the subtree of a block in the dominator tree, and leaves stacks, noted heights and storage in use as `StackWalk.Visit` says, as written or as meant |
| StackWalk.VisitApart | src/tb/opt/mem2reg.c:141-225 | when each call has room for its heights, a visit leaves every stack with the top it had, but for the last phi, if any, that is left on it as written |
| Mem2Reg.PromoteSlots | src/tb/opt/mem2reg.c:359-564 | stops exactly on the graphs that the analyses stop on; without a slot to promote changes nothing; else the result is the input with phis at the iterated frontiers, memsets of slots turned into zeros, and every load, store and phi input renamed to the definition on the stack, as written or as meant |
| PromotionRuns.PromotionPreservesRuns | src/tb/opt/mem2reg.c:141-225 | if a store or memset comes before each load on every path, after any number of blocks, through loops and phis, both functions are at the same block with the same world and registers, each former load holding what its slot held |
| Leak.ReadExact | src/tb/opt/mem2reg.c:141-225 | with any number of slots the result is renamed as meant if and only if every load and phi input that a definition reaches reads that definition |
| Leak.LeakExact | src/tb/opt/mem2reg.c:142-171 | with no more slots than blocks this holds of the code as written if and only if no load and no phi input is reached by a phi left in the way or meant to get the zero of a memset, a condition on the dominator tree and the iterated frontiers of the input |
| Leak.LeakFreeReads | src/tb/opt/mem2reg.c:142-151 | in particular when each later sibling of a block with a phi has one for the same slot |
| Leak.PassPreservesRuns | src/tb/opt/mem2reg.c:359-564 | a function with any placement and renaming that the pass can arrive at runs as the input, with the intended stack handling always and with the one written if it reads what is meant |
| Leak.PromotedRunsAlike | src/tb/opt/mem2reg.c:359-564 | in terms of the input and output of `PromoteSlots` alone, as meant always and as written under the condition of `LeakExact`: after any number of blocks the same block, outcome, world and registers |
| Memory.MemoryRunsAlike | src/tb/opt/mem2reg.c:578-659 | a run with the slots in memory does what the run with the slots apart does, if each slot's loads, stores and memsets get at one cell of one size and nothing else finds its address |
| Memory.PromotedInMemory | src/tb/opt/mem2reg.c:359-564 | then what the pass makes of a function does what the function does with its slots in memory, as meant always and as written under the condition of `LeakExact` |
| MixedExample.MixedGood | src/tb/opt/mem2reg.c:639 | a slot stored to with 64 bits and loaded with 8 is found good |
| MixedExample.MixedBreaksRuns | src/tb/opt/mem2reg.c:639 | every result of the pass on that function, as written or as meant, returns 261 where the function with its slot in memory returns 5 |
| MixedExample.MixedFails | src/tb/opt/mem2reg.c:359-564 | the pass, called on it, gives such a result |
| ClearExample.ClearBreaksRuns | src/tb/opt/mem2reg.c:460-487 | every result of the pass as written on a function that clears its slot returns 7 where the function returns 0; as meant it returns 0 |
| ClearExample.ClearFails | src/tb/opt/mem2reg.c:359-564 | and the pass, called on it |
| LeakExample.LeakBreaksRuns | src/tb/opt/mem2reg.c:142-151 | every result of the pass as written on one small function returns 0 where the function returns 10 |
| LeakExample.FanFails | src/tb/opt/mem2reg.c:359-564 | the pass, called on that function, gives such a result |
| CrowdExample.CrowdBreaksRuns | src/tb/opt/mem2reg.c:143-149 | so does every result on a function with more slots than blocks, in which no phi is left |
| CrowdExample.CrowdFails | src/tb/opt/mem2reg.c:359-564 | and the pass, called on it |
| Replacing.FindReplace | src/tb/tb_internal.c:36-238 | stops exactly on a graph with a kind of node that its switch does not list; else every operand of a listed node or terminator that names the one register names the other, and nothing else changes |
| Replacing.UnknownIff | src/tb/tb_internal.c:51-218 | a kind that is not listed can only be that of an operation or an effect: all kinds of nodes with an own place in the model are listed |
| Replacing.SwapPreservesRuns | src/tb/tb_internal.c:36-238 | replacing a register by one of equal definition that is defined at each of its uses changes no run |
| Removal.RemovalPreservesRuns | src/tb/tb_internal.h:618-628 | killing an unread node without effect leaves every run the same but for its register |
| Removal.DroppingPreservesRuns | src/tb/tb_internal.c:218-221 | leaving the killed node out of its block when it is the first changes no run |
| Merging.MergeIff | src/tb/opt/cse.h:207-209 | after replacing r by s and killing r, uses come after definitions if and only if s is defined wherever r was read |
| Merging.CoveredIff | src/tb/opt/cse.h:193-229 | after any number of merges likewise: the graph stays in SSA form throughout if and only if each merge is covered |
| Merging.CoveredPreservesRuns | src/tb/opt/cse.h:193-229 | covered merges leave every run the same but for the registers that are gone |
| Cse.GlobalLikeIs | src/tb/opt/cse.h:142-153 | the walk up the dominator tree returns an equal node of a block it looks into if there is one, and 0 if and only if there is none |
| Cse.RunCse | src/tb/opt/cse.h:165-250 | stops exactly on the graphs that the analyses stop on, and with the first merge in a graph that find-and-replace stops on; else the result is the merges of `CseAt`, in the order of the blocks and nodes |
| Cse.CseMergesSame | src/tb/opt/cse.h:193-229 | on any graph, with PASS nodes or not, every merge is of two nodes with the same operation and operands |
| Cse.CseIsClean | src/tb/opt/cse.h:193-229 | without PASS nodes the node that stays is always defined wherever the other was read |
| CseComplete.CseIsComplete | src/tb/opt/cse.h:142-229 | in a graph without PASS nodes whose blocks come after their dominators, no two nodes of a listed operation on the same operands are left where one stands before the other in a block, or in a dominator other than the entry, or in the entry just above |
| CseComplete.CseMergesAhead | src/tb/opt/cse.h:142-229 | without PASS nodes nothing gives way but to a node that is ahead in this sense |
| CseComplete.CseMergesListed | src/tb/opt/cse.h:3-100 | on any graph only nodes of a listed operation give way |
| Cse.CsePreservesRuns | src/tb/opt/cse.h:231-250 | SSA form is kept throughout if and only if every merge is covered; then all runs are kept; and this is so whenever there are no PASS nodes |
| CseExample.LateBreaksRuns | src/tb/opt/cse.h:193-196 | following a PASS makes one function read a register before it has a value, with a different effect on the world |
| CseExample.LateFails | src/tb/opt/cse.h:231-250 | the pass, called on that function, gives that result |
| DeadExpr.CalculateUseCount | src/tb/tb_internal.c:4-18 | for each register the number of operands of listed nodes and terminators that name it |
| DeadExpr.Pruner.Delete | src/tb/opt/dead_code_elim.c:120-129 | after a kill the counts are again those of the remaining graph, and one node less is alive |
| DeadExpr.DeadExprElim | src/tb/opt/dead_code_elim.c:3-141 | terminates; stops if and only if a node of an unlisted kind is used by nothing that stays; else the result comes about by deleting unused nodes, and none that `UnusedLeft` names is left |
| DeadExpr.UnusedLeft | src/tb/opt/dead_code_elim.c:19-131 | then no PASS, no local, no load but a volatile one and no operation that the switch deletes is left without a use; what is left of other operations is of a kind that it keeps |
| DeadExpr.KeptKinds | src/tb/opt/dead_code_elim.c:19-131 | volatile loads, stores, memsets, effects, phis, homes of parameters and operations that the switch does not delete are as before, used or not |
| DeadExpr.ListedGoesThrough | src/tb/opt/dead_code_elim.c:131 | the pass does not stop on a function whose operations are all listed |
| DeadExpr.PrunesExactly | src/tb/opt/dead_code_elim.c:3-141 | the nodes deleted are exactly those that fall when unused nodes are taken away again and again, whatever order the sweeps have |
| DeadExpr.PruningPreservesRuns | src/tb/opt/dead_code_elim.c:3-141 | if loads that are not volatile have no effect on the world, every run visits the same blocks with the same effects and outcome, and all other registers keep their values |
| DeadBlocks.DeadBlockElim | src/tb/opt/dead_code_elim.c:143-174 | terminates; what stays is the entry, the greatest set of blocks each with a predecessor in the set, and blocks that had no terminator |
| DeadBlocks.ReachableStays | src/tb/opt/dead_code_elim.c:156-165 | no block reachable from the entry is removed |
| DeadBlocks.ClearingPreservesRuns | src/tb/opt/dead_code_elim.c:163-166 | clearing the others changes no run |
| PassSweep.RemoveByTable | src/tb/opt/canonical.c:81-305 | the form with a table, with its loop along it: stops exactly on a kind of node that is not listed, else looks every operand up once in the table of the passes visited so far, which leads to the first register of the chain that is none of them |
| PassSweep.SweepTidies | src/tb/opt/canonical.c:81-305 | no operand names a PASS afterwards if and only if each PASS that is read was visited before, after all others on its chain |
| PassSweep.FirstSwept | src/tb/opt/canonical.c:81-305 | when no operand comes before the PASS it names, no chain is a circle, none is named, and the result is the one of the other form |
| PassSweep.ReachedStop | src/tb/opt/canonical.c:281-288 | in SSA form chains of reachable passes are no circles, so that the loop along the table ends |
| PassSweep.RoundUntidy | src/tb/opt/canonical.c:81-305 | there is a function in SSA form with a phi that still names a PASS |
| Passes.RemoveOneByOne | src/tb/opt/canonical.c:306-318 | the form by search and replace stops exactly on a graph with a PASS that find-and-replace stops on; else it kills exactly the passes, leaves no operand naming one that can be reached, and when no operand comes before the PASS it names ends with `Resolved` |
| Passes.ResolvedPreservesRuns | src/tb/opt/canonical.c:78-321 | that graph is in SSA form and runs as the original but for the registers of the passes |
| Redefining.RedefiningPreservesRuns | src/tb/opt/canonical.c:323-557 | giving a register another definition of the same value changes no run |
| Redefining.FilledPreservesRuns | src/tb/tb_internal.c:300-315 | a node inserted behind another one, whose operands are defined there, changes no run but for its own register |
| Rewrites.CombineNode | src/tb/opt/canonical.c:353-545 | finds the place of an insertion and applies to the graph the rewrite that the branches choose |
| Rewrites.CombineIff | src/tb/opt/canonical.c:353-545 | a node is rewritten if and only if it is one of: an offset of zero or of an offset, an access with a constant index below the bound, with a factor or a term that fits, a comparison of two extensions of one kind, a product with or a remainder by a power of two |
| Rewrites.CombinePreservesRuns | src/tb/opt/canonical.c:353-545 | one rewrite of addresses, comparisons, multiplication or remainder, under `Sound` if it can be reached, changes no run but for the register it may add |
| Rewrites.RewritesPreserveRuns | src/tb/opt/fold.h:517-563 | nor does any sequence of them |
| Rewrites.MemberIff | src/tb/opt/canonical.c:440-452 | folding two offsets keeps every address if and only if their sum fits 32 bits, signed |
| Rewrites.ArrayMulIff | src/tb/opt/canonical.c:489-512 | for indices of any width, folding a factor into the stride keeps every address if and only if the product is below 2^31 and either the factor is at most 1 or wrapping round moves no address |
| Rewrites.ArrayAddIff | src/tb/opt/canonical.c:514-543 | likewise for an added index turned into an offset below 2^31 |
| Rewrites.NarrowIndex | src/tb/opt/canonical.c:489-512 | a 32-bit index for which the folded address is another one |
| Rewrites.ZextIff | src/tb/opt/canonical.c:361-368 | dropping zero extensions keeps every comparison if and only if it is not a signed order |
| Rewrites.InsertIff | src/tb/opt/canonical.c:524-541 | the inserted node leaves the graph in SSA form if and only if its operands are defined behind the index |
| X64Encode.Coder.Inst2 | src/tb/x64/x64_emitter.h:93-213 | appends, byte by byte, the encoding of every accepted operation, operands and width |
| X64Encode.DecodeSeen | src/tb/x64/x64_emitter.h:93-213 | what a processor reads from these bytes, whatever bytes follow, for the wrong cases too |
| X64Encode.InstRoundTrip | src/tb/x64/x64_emitter.h:10-213 | the bytes are decoded to the operation, registers, base, index, scale, displacement, immediate and width meant if and only if the instruction is none of the three kinds that go wrong |
| X64Encode.EncodedSize | src/tb/x64/x64_emitter.h:10-213 | how many bytes an encoding has: a prefix, a REX byte, a SIB byte, a displacement and an immediate only where they are needed, each as short as the format has it |
| X64Encode.MemIff | src/tb/x64/x64_emitter.h:20-31 | an address is read as meant if and only if its index is not RSP and, on base RSP or R12, is R12 or missing |
| X64Encode.ListRoundTrip | src/tb/x64/x64_emitter.h:10-213 | decoding the encodings of a list one after the other gives back the list |
| X64Emit.Emitter.EmitBlock | src/tb/x64/x64_fast.h:2636-2858 | appends the pieces of a block's terminator: condition flipped for fallthrough, jumps left out, compare chain, constant key, with a patch recorded for each jump |
| X64Emit.FallsThrough | src/tb/x64/x64_fast.h:2648-2712 | no jump leads to the next block, a branch with a side there takes one jump, and the last block has none to the end |
| X64Emit.Emitter.PatchAll | src/tb/x64/x64_fast.h:2875-2886 | every recorded field gets the distance to its label or to the end, and no other byte changes |
| X64Emit.FindCase | src/tb/x64/x64_fast.h:2717-2725 | a constant key goes to the first entry whose sign-extended key is its word, or to the default |
| X64Emit.TakenIs | src/tb/x64/x64_fast.h:2717-2856 | a search that compares in a given width goes to the first entry that is taken for the key, whatever its sign and width |
| X64Emit.TakenItself | src/tb/x64/x64_fast.h:2845-2856 | an entry is taken for itself and for nothing else if and only if it is in range and not negative beside a masked key, or is out of range and keeps a bit that no key has |
| X64Emit.NarrowKeys | src/tb/x64/x64_fast.h:2845-2856 | the key -1 of 7 bits does not find its entry, and the key 1 of 8 bits finds that of 257 |
| X64Emit.WideTarget | src/tb/x64/x64_fast.h:2717-2725 | compared in 32 bits or more, a key finds the entry of the number it stands for if it is not negative or fills the width, and otherwise that of the number it is without a sign |
| X64Emit.MinusOneLost | src/tb/x64/x64_fast.h:2717-2725 | -1 of 32 bits does not find its entry |
| X64Flow.Compile | src/tb/x64/x64_fast.h:2632-2886 | the finished code is laid out block after block from the recorded labels, with all patches in place |
| X64Run.BlockRuns | src/tb/x64/x64_fast.h:2633-2886 | from the label of a block the machine gets to the label that the terminator picks, to the end of the code, or traps, on any processor whose compares set the zero flag by their operands and change no register |
| X64Run.RunFollows | src/tb/x64/x64_fast.h:2633-2886 | for every number of blocks n, the machine started at the first block is, after some number of instructions, at the label of the block where the function's run is after n blocks, or has returned or trapped with it, the points coming in order |
| X64Run.ConstSwitchRuns | src/tb/x64/x64_fast.h:2717-2725 | the machine's run through a switch on any constant key, negative ones included |
| X64Run.ChainSwitchRuns | src/tb/x64/x64_fast.h:2845-2856 | and through a chain of compares, with any key and any entries |
| X64Run.FindableIff | src/tb/x64/x64_fast.h:2717-2725 | a constant key goes where the function goes exactly under the hypothesis of `RunFollows` on it |
| X64Run.ChainFindableIff | src/tb/x64/x64_fast.h:2845-2856 | a chain goes where the function goes, with every key of its width, exactly under the hypothesis of `RunFollows` on its entries |
| WordSums.Add | src/tb/bigint/BigInt.c:165-223 | numbers of n words, also in place: the columns of `Sum` with the carry as written or as intended |
| WordSums.LiteralSumExact | src/tb/bigint/BigInt.c:202-207 | as written, the result is the sum modulo 2^(64n) if and only if all words of the second number but the last are zero |
| WordSums.Sub | src/tb/bigint/BigInt.c:225-284 | likewise, the columns of `Diff` with the borrow as written or as intended |
| WordSums.LiteralDiffExact | src/tb/bigint/BigInt.c:252-256 | as written, the result is the difference modulo 2^(64n) if and only if no word but the last needs a borrow |
| WordShifts.Cmp | src/tb/bigint/BigInt.c:491-504 | the order of the two numbers |
| BigInt.Mul64x128 | src/tb/bigint/BigInt.c:312-323 | the full product of two words in two words, no intermediate overflowing |
| BigInt.MulBasic | src/tb/bigint/BigInt.c:333-360 | the rows of `ProductOf` with the carry as written or as intended; as intended, or with one word, the product modulo 2^(64n) |
| BigInt.TwoProductExact | src/tb/bigint/BigInt.c:333-360 | as written, the product of two words each is right if and only if that of the lower words is zero modulo 2^64 |
| BigInt.Div | src/tb/bigint/BigInt.c:362-400 | for a divisor other than zero, as written or as intended: terminates with `DivOf`, also in place and when shifting reaches the top bit; as intended, or with one word, the quotient |
| BigInt.DivMod | src/tb/bigint/BigInt.c:448-461 | as intended, or with one word, A = C * B + D with D < B; as written `DivModOf` |
| BigInt.TwoDivModExact | src/tb/bigint/BigInt.c:448-461 | as written, with two words each, A = C * B + D with D < B if and only if C is the quotient and the product of the lower words of C and B is zero modulo 2^64 |
| BigInt.DivModFails | src/tb/bigint/BigInt.c:448-461 | called as written on two words, it can give something else |
| SymbolTable.ProbesDiffer | src/tb/objects/pe.c:261-266 | no slot is probed twice within 2^exp probes, as the step is odd |
| SymbolTable.ProbeAt | src/tb/objects/pe.c:261-266 | the k-th probe is the hash and k times its upper bits, made odd, modulo the size |
| SymbolTable.ProbesCover | src/tb/objects/pe.c:261-266 | so all slots are probed |
| SymbolTable.RoomIff | src/tb/objects/pe.c:287-294 | a slot is free if and only if fewer names are stored than there are slots |
| SymbolTable.Table.Search | src/tb/objects/pe.c:263-274 | ends, at the first probe that is free or has the name |
| SymbolTable.Table.Find | src/tb/objects/pe.c:260-274 | exactly the first symbol ever appended under the name, or nothing |
| SymbolTable.Table.Append | src/tb/objects/pe.c:277-304 | for any name: adds the symbol to the history and says whether the name was there, or gives up exactly when a free slot was found and the count is at its bound |
| SymbolTable.FullMeans | src/tb/objects/pe.c:287-294 | with a free slot the count is at its bound only if an empty name was appended |
| SymbolTable.BlankFills | src/tb/objects/pe.c:287-294 | and then it can be with nothing in the table |
| StringMap.SplitBucket | src/tb/string_map.h:187-222 | doubling splits bucket i into 2i and 2i + 1 |
| StringMap.FnvKnown | src/tb/string_map.h:148-160 | published values of the 32-bit FNV-1a hash |
| StringMap.IndexBijection | src/tb/string_map.h:248-262 | value indices are a bijection between the keys and 0 to load - 1 |
| StringMap.CountIs | src/tb/string_map.h:233-257 | the count of a bucket is the number of keys that share it |
| StringMap.SpillKeeps | src/tb/string_map.h:256-262 | an insertion into a full bucket leaves the new key visible, and all others if and only if the next bucket was empty |
| StringMap.StringMap.Resize | src/tb/string_map.h:187-222 | the same map in a table of twice the size; the assert never fails |
| StringMap.StringMap.Insert | src/tb/string_map.h:224-263 | with room in the bucket, the slot of the key and all other entries as they were, a new key with the next value index; else the entry behind the full bucket, `Spilled`; says exactly when that is outside the table; twice the size if and only if the bucket was three quarters full |
| StringMap.StringMap.Put | src/tb/string_map.h:224-269 | with room, the map with the key set to the value; else `Spilled`; says exactly when that is outside the table, and when the table doubles |
| StringMap.StringMap.Get | src/tb/string_map.h:276-289 | -1 if and only if the key is not seen, after a spill too; in a map the index of the key's value, or -1 if and only if there is none |
| SymbolList.FinishedList | src/tb/symbols.c:14-19 | under every interleaving of any number of appenders, when all are done: the count, one chain through every symbol once in the order of the exchanges, `last` its end, and `first` some place in it |
| SymbolList.HeadExact | src/tb/symbols.c:15-19 | a walk from `first` sees all symbols if and only if the thread that takes its second turn first is also the one that takes its third first |
| SymbolList.FirstTurns | src/tb/symbols.c:15-19 | `first` and the head of the chain after any schedule are the threads with the first second and the first third turn |
| SymbolList.HeadLost | src/tb/symbols.c:15-19 | two appenders can leave a list whose walk misses one |
| SymbolList.AllDoneIff | src/tb/symbols.c:14-19 | all are done if and only if each has had its four turns |
| SymbolList.TurnsTaken | src/tb/symbols.c:14-19 | nobody waits: every turn makes progress until the four are over |
| Coff.LayOut | src/tb/objects/coff.c:224-263 | the positions of raw data, relocations and symbol table |
| Coff.WriteOutput | src/tb/objects/coff.c:224-672 | fails an assert exactly when a section with too many relocations is not the one that writes their number or a name has 65535 bytes or more; else the file is headers, data, relocations, symbols and strings, each beginning where the layout put it |
| CoffFields.FieldsStand | src/tb/objects/coff.c:43-672 | in the file every field of the file header, the section headers, the section symbols with their auxiliary records, the symbols and the relocations has the number that the format gives it, at the place that the format gives it |
| CoffRoundTrip.WhereHeadersSay | src/tb/objects/coff.c:224-262 | the data, relocations and symbol of a section are at the positions in the headers |
| CoffParse.ParseCoff | src/tb/objects/coff_parse.c:5-133 | on any bytes, the loops read the object that the format describes, or stop exactly where it has none |
| CoffFields.ReadsIff | src/tb/objects/coff_parse.c:5-133 | on any bytes the reader succeeds if and only if each section, relocation and name that the file speaks of is there to be read |
| CoffFields.ReadFrom | src/tb/objects/coff_parse.c:5-133 | and then gives the sections, relocations and names that stand there, field by field |
| CoffRoundTrip.ImageRead | src/tb/objects/coff_parse.c:5-133 | a file with a section of 65535 relocations or more, if written at all, is not read |
| CoffRoundTrip.CoffRoundTrip | src/tb/objects/coff.c:224-672 | every section with its name, flags, bytes and relocations and every symbol name, short or in the string table, come back if and only if no section has 65535 relocations or more and no name 65535 bytes or more |
| CoffRoundTrip.WriteAndRead | src/tb/objects/coff_parse.c:5-133 | the writer and the reader, one after the other |

## Left out

- Mem2Reg.PromoteSlots: SROA (line 397) is not modelled; it would add easier members. A memset of something else than zero, or of a size that is not constant, is a node with an effect, which uses the address; a memset to zero has no value that another node names, as `tb_inst_memset` (`src/tb/tb_builder.c:579`) hands out none.
- Coherency.ChooseSlots: alignments have no part in the source's check and none here.
- Memory.MemoryRunsAlike: that no load, store or memset off the slots finds the address of a slot is a hypothesis on the run (`Honest`), and that a slot's accesses have one size one on the meaning of its nodes (`Tame`), which the source does not check; `MixedExample` shows a function without it.
- Mem2Reg.PromoteSlots: the input has no phis, as the source takes any phi for one of its own (lines 146 and 531), and its frontier loops end, as they do when every block is reachable.
- Mem2Reg.PromoteSlots: the parameter `asWritten` chooses between the stack handling as written (lines 143 and 150) and as intended, a height per slot taken before its phi; `junk` is the register read from an empty stack, where the source has an assert; in `LeakExact` it is not that of a memset.
- Predecessors.GetPredecessors: arrays grow as needed, and the assert on the number of predecessors is met after they were listed, as in the source.
- PhiInsertion: `src/tb/set.h` appears as arrays of booleans, not as words of bits.
- Cse.RunCse: a circle of PASS nodes, which the source would follow forever, is no input. LDMXCSR, which acts on the processor though the source treats it as a value, is no `Pure` node of the model.
- CseComplete.CseIsComplete: blocks listed before one that dominates them, whose equals the search may meet too late, and graphs with PASS nodes, whose sources take part, are outside the theorem.
- Cse.RunCse: the set `listed` holds the operations that `is_node_the_same` compares, and `known` those that find-and-replace lists, in place of the cases of their switches.
- Replacing.FindReplace: a node that gives way stays in the list of its block, as an empty node, where the source may move the start of the block past it; `Removal.DroppingPreservesRuns` says that this comes to the same.
- DeadExpr.DeadExprElim: `Kinds` holds the operations that the switch deletes and keeps, in place of its cases; the data type of an unused call, which becomes void, is not modelled.
- DeadExpr.PruningPreservesRuns: that a load which is not volatile has no effect on the world is a hypothesis on the meaning of nodes (`QuietLoads`).
- PassSweep.RemoveByTable: a circle of PASS nodes, which the source may follow forever, is no input; in SSA form there are none but among blocks that are never reached (`ReachedStop`).
- Rewrites.CombinePreservesRuns: constant folding, reassociation, phi motion, the comparison of a comparison with zero, extensions compared with constants, SMOD to a mask, and rewrites of INITIALIZE, INT2PTR and terminators are not modelled; several of them do not keep values.
- X64Run.RunFollows: that the bytes of a block's body, up to its first jump or compare, do what its nodes and the phis of the next block ask is a hypothesis (`BodyDoes`); register allocation, phi moves, prologue and epilogue are not modelled. A switch on a key that is not constant moves no phis in the source, and an `if` moves those of both targets. Switches with a key or entry that the search loses or takes for another (`Findable`) are outside the theorem; `ConstSwitchRuns` and `ChainSwitchRuns` say where they go. A key beyond 16 bits in a 16-bit compare fails an assert of the encoder.
- X64Flow.Compile: displacements are right for code of less than 2^31 bytes; the jump table, which no input reaches, is not modelled.
- X64Encode.Coder.Inst2: LDMXCSR, SSE and one-operand instructions are not modelled; the operands are those that the asserts and the callers admit.
- WordSums.Add: both numbers and the result have the same number of words, as in all calls (`src/tb/opt/fold.h:448` asserts it).
- WordSums.Sub: likewise; for a longer first number the source can read behind the second.
- BigInt.MulBasic: when the product of three words or more is right as written is not characterised; what it then is, is `ProductOf`.
- BigInt.Div: a divisor of zero, which the source never finishes with, is no input; the assert on the number of words is not modelled.
- SymbolTable.Table.Append: the hash is any function; a search in a full table without the name, which the source never finishes, is no input.
- StringMap.StringMap.Insert: what an entry written behind the last bucket does to other memory is not modelled, nor is the doubling of 2^32 buckets. Keys are the bytes of slices, and sizes are sixteen times a power of two, as the source only allocates such.
- SymbolList.FinishedList: one tag, and each atomic operation and the final store one step, in a sequentially consistent order.
- Coff.WriteOutput: the contents of sections are given bytes; debug sections, unwind data and the initialisers of globals are not modelled. The thread-local section is one section more.
- CoffParse.ParseCoff: a read outside the file, undefined in the source, gives nothing.
- Aarch64 and wasm code, CodeView, Mach-O and ELF output, archives, the JIT, printing, and platform calls are not modelled.
