# Proofs about the news chain

A model in Dafny 4.11 of the parts of this blockchain node on which its consistency rests, and proofs
about it: the undo engine, the chain controller over it, the block log, the 128-bit arithmetic with
its text forms, the Merkle root, the synchronisation bookkeeping and the message framing. Objects
that the C++ code updates in place are classes here, its loops are loops with invariants, and each
such method is proved against a specification whose own laws are lemmas.

Verify with `dafny verify dfyconfig.toml`.

## How the files build on each other

| files | what they hold |
|---|---|
| `Common` | what the modules share |
| `Undo`, `Delta` | a history of snapshots as the meaning of an undo stack; the deltas the code stores instead, and their composition |
| `GenericIndex`, `ChainbaseDatabase` | one table with its stack of deltas, carrying the snapshots as ghost state; all tables in lockstep, and scoped sessions |
| `ChainTypes`, `ChainState`, `Evaluators` | blocks, chains and transactions; applying them as a partial function on states, and the same step by step on a store |
| `OperationEffects`, `Admission` | what operations do to balances and keys, and what transactions and blocks have to meet, said without those functions; what follows for whole chains |
| `TransactionWindow` | the duplicate window and the conservation of balances over whole chains |
| `ForkTree`, `ForkDatabase` | branches, common ancestors and lookups as functions of the block index; the fork database that computes them |
| `MainChain` | what it means that an undo stack belongs to a chain |
| `ChainNode`, `Controller` | push, pop, switch and rollback as total functions on the node, every exception with the state it leaves; the controller that computes them in place |
| `ChainSafety`, `ChainLog` | what every push keeps, whatever the fork database has come to hold: state and undo stack, and the block log |
| `ForkSwitch`, `PushAtRest` | exactly what a push does to a node at rest |
| `LogPrefix` | exactly when the block log stays a prefix of the chain |
| `TransactionPool`, `NodeRuns` | pending transactions and block generation; whole runs of the node |
| `Incidents`, `LogStall` | runs on which the controller does not do what one would expect; what a lost block does to log and chain |
| `Words`, `UInt128Words`, `UInt128`, `Popcount` | machine words as bounded numbers; the operators of a number in two words |
| `Numerals`, `UInt128Text`, `RealText`, `Real128` | printing and parsing |
| `LittleEndian`, `LogLayout`, `BlockLog`, `Framing` | bytes: the log and its index, and messages on a stream |
| `Merkle` | the reduction in place and the tree |
| `Synopsis`, `SyncRequests`, `SyncNode`, `SyncRuns` | the block synopsis, who owes which block, the message handlers, whole runs of them |

The chain controller works on a `History`, the meaning that `GenericIndex.Index` and
`ChainbaseDatabase.Database` prove of their deltas (their `View()`), so what the undo engine promises
is what the controller uses. A block id stands for its block, so the id of the head block determines the
main chain (`ChainSafety.Main`).

## Main results

- Undo engine: `Index.Undo` rebuilds the snapshot before a session from the delta kept in place, with the
  exact condition under which it throws; `Index.Squash` merges two deltas cell by cell so that one undo does
  what two did (`Delta.MergeComposes`), and from any session, after any run of writes and nested sessions,
  unwinding restores where it started (`Undo.UnwindRestores`).
- Chain, every run: `NodeRuns.WhatEveryRunKeeps`, by what is asked of the pushes. Asked only that none misapplies
  a block (`ChainSafety.Misapplies`, a condition on node and block), the state stays the replay of a chain, and by
  `ChainSafety.PushKeepsReplay` exactly then. Asked also that none logs a block of another chain
  (`LogPrefix.LogsOwn`), the log stays a prefix of the chain, and by `LogPrefix.PushLogIff` and
  `NodeRuns.LogFollowsIff` exactly then; opening no gap in the fork database is enough (`LogPrefix.TidyLogsOwn`).
  Asked to be calm and to keep the blocks that are needed, undo stack, log and fork database meet at
  the irreversible block; `PushAtRest.StaysAtRest` says exactly which pushes keep that, `PushAtRest.CalmIff` which
  are calm.
- Chain, one push: `PushAtRest.PushAtRestIs` with `ForkSwitch.SwitchAtRest`, each outcome and the node it leaves,
  including switches that fail part way; `NodeRuns.GeneratedBlockExtends` for generated blocks.
- What is applied: `OperationEffects.OperationIff`, `Admission.TransactionIff` and `Admission.BlockIff` say of state, operation,
  transaction and block alone when they apply; along chains nobody owes (`OperationEffects.ChainNoDebts`), every
  transaction is signed with the posting keys and refers to a block of its chain (`Admission.ChainAllSigned`,
  `Admission.ChainRefers`), every root matches and the slot is accounted for (`Admission.ChainRootsAndSlots`).
- Pending transactions: exactly which ones are put back after a push (`TransactionPool.PushPutsBack`,
  `TransactionPool.PutBackOnce`), over every run (`NodeRuns.PendingOverRuns`), and which ones a block takes
  (`TransactionPool.SelectExactly`).
- Fork database: `ForkTree.BranchIsNearest`, the nearest common ancestor and disjoint branches; by
  `ForkTree.BranchFound` they are found whenever they are there.
- Arithmetic: `UInt128.MulAssign`, `UInt128.FullProduct` and `UInt128.Divide` for all inputs and all ways in
  which their arguments can be one object; `UInt128Text.RoundTrip`, `RealText.RoundTripIff`,
  `Popcount.PopCount64`.
- Block log: at the level of bytes, `BlockLog.ReopenRestoresIff` and `BlockLog.WalkMeetsIndex`.
- Network: over every run of the message handlers no block is outstanding at two peers and the lists
  of ids to get stay runs of consecutive numbers (`SyncRuns.RunEvents`, `SyncRequests.RunKeepsOwed`); which responses are
  taken and what they leave (`SyncNode.Node.OnBlockIdsInventory`); two loops in two libraries sample one synopsis
  (`Synopsis.Seamless`).
- Merkle root: the rounds in place compute the tree with the largest full left part
  (`Merkle.RoundKeepsTree`); when its roots tell transaction lists apart is `Merkle.SameRootIff` for lists of one
  length and `Merkle.RootsTellIff` for all.

## Where the code does not do what one would expect

Each point is a proved statement about the model; the code is modelled as it is.

- `squash` with a single session drops its snapshot without lowering the revision (`Undo.SquashThenUndo`).
- `undo` throws when modifiers have changed unique keys so that an old value clashes on its way back
  (`GenericIndex.UndoCanClash`); `Index.Undo` gives the exact condition, and stable keys exclude it.
- A modifier whose result clashes erases the row, and inside a session no undo state then describes the
  table (`GenericIndex.Index.Modify`).
- The duplicate assertion on transactions combines flags with `|` and can never fire
  (`ChainState.DupeAssertionHolds`). Duplicates are refused when the row is created
  (`TransactionWindow.ReplayedTransactionThrows`).
- The comment on `skip_tapos_check` says that it skips the expiration check as well; the code does not
  (`Admission.TransactionIff`).
- `fork_database::push_block` returns the head and not the pushed block, and the head is not moved back
  when the block turns out not to apply. A later block that does not extend the chain's head is then
  applied on top of it when its state checks pass, after which the state is the replay of no chain
  (`Incidents.StaleHeadMisapplies`, `ChainSafety.MisappliedBreaks`).
- In the same situation a block of the chain that is pushed again is erased from the fork database
  (`ChainLog.ChainBlockErased`).
- A switch that leaves the main chain at genesis and fails only at its last block cannot be rolled
  back: the last pop throws, for the fork database has no parent left, and the chain stays on the
  fork's first block (`Incidents.RollbackGetsStuck`).
- A longer fork that leaves the chain below its irreversible block is not refused: the blocks above that
  one are popped before a pop throws, and the chain stays there (`Incidents.DeepForkTruncates`).
- Applying the old branch again after a failed switch prunes the fork database by the height of the
  first block applied, against a head that stands higher. On young chains this removes blocks that are
  still needed: `ForkSwitch.SwitchAtRest` gives the exact condition, `Incidents.RollbackLosesBlocks` a run, and
  `TallForksKeep` says when it cannot happen.
- A block that is missing when it becomes irreversible makes the next block throw, after the commit
  (`ChainSafety.MissingBlockLogged`). A run leads from genesis to a chain that no push extends or leaves any
  more, but for blocks applied where they do not belong (`LogStall.LostBlockHalts`, `LogStall.HaltsForGood`).
- When just one item of another fork has the number of the missing block, that one is written to the log, which
  then is no prefix of the chain: `LogStall.RivalGetsLogged` is a run from genesis to a chain of 22 blocks with a
  log of one block that has never been on it. `LogPrefix.PushLogIff` says exactly which pushes do this.
- A fresh node whose first block is not number 1 makes it the head of its fork database, answers every later block
  with an exception and never leaves genesis (`Incidents.NeverStarts`).
- The list of popped transactions is never cleared, so every push tries all of them again
  (`ChainSafety.PushKeepsReplay`).
- `construct_index` writes no entry for a log of one block, so such a log does not recover a lost index
  and refuses block 2 (`BlockLog.ReopenRestoresIff`, `BlockLog.LostIndexStopsAppend`).
- The binary `operator|` on `uint128` returns its right operand (`Arithmetic128.BitOr`, `RightIsOr`).
- A `real128` whose integer part needs more than 64 bits does not survive printing and parsing
  (`RealText.RoundTripIff`).
- Reading a `real128` with 20 places or more can give a wrong number, and with 64 or more throws
  (`RealText.TwentyPlacesWrap`, `RealText.ParsedRealIff`).
- An item that a peer declares unavailable stays in the list of active requests for good, and so is never asked
  for again (`SyncNode.Node.OnItemNotAvailable`; in every run these are exactly the items that nobody owes,
  `SyncRuns.RunEvents`).
- Leaf digests and inner nodes of the Merkle tree are hashed alike, so a transaction whose digest is a tree over
  others has their root, and this is the only way in which lists of different lengths can have one root
  (`Merkle.OneRootTwoLengths`, `Merkle.RootsTellIff`).

## Model

| member | source | states |
|---|---|---|
| `Undo.UnwindRestores` | libraries/chainbase/include/chainbase/chainbase.hpp:307-348 | after a session is opened and any run of writes and nested sessions that are pushed, squashed, undone or committed inside it, undoing the sessions that are left gives the table and the revision it started from, on what is left of the older stack |
| `Undo.UnwindRestoresAll` | libraries/chainbase/include/chainbase/chainbase.hpp:307-348 | without commits in the run the whole history, stack included, is what it was |
| `Undo.InsideHolds` | libraries/chainbase/include/chainbase/chainbase.hpp:266-348 | every run inside a session keeps the snapshot the session started from reachable at its depth |
| `Undo.SquashThenUndo` | libraries/chainbase/include/chainbase/chainbase.hpp:356-362 | one undo after a squash gives what two undos gave; at depth 1 the squash drops the snapshot and keeps the revision, so a later undo does nothing to the table |
| `Undo.CommitKeepsLater` | libraries/chainbase/include/chainbase/chainbase.hpp:461-467 | commit drops exactly the snapshots of revisions up to the given one; the later ones keep their revisions and contents |
| `Delta.MergeIsCausal` | libraries/chainbase/include/chainbase/chainbase.hpp:375-398 | the N/A cells of the case matrix are unreachable for two consecutive deltas |
| `Delta.MergeComposes` | libraries/chainbase/include/chainbase/chainbase.hpp:375-455 | a delta whose every cell is the matrix entry of two consecutive deltas describes the step over both, and stays free of key changes |
| `Delta.RecordsIsFunctional` | libraries/chainbase/include/chainbase/chainbase.hpp:323-348 | a delta and the table after it determine the table before it |
| `Delta.OnCreateRecords` | libraries/chainbase/include/chainbase/chainbase.hpp:524-529 | noting a created row keeps the delta a description of the whole session |
| `Delta.OnModifyRecords` | libraries/chainbase/include/chainbase/chainbase.hpp:487-500 | noting a modified row keeps the delta a description of the whole session, for first and repeated changes and for rows new in the session |
| `Delta.OnRemoveRecords` | libraries/chainbase/include/chainbase/chainbase.hpp:502-522 | noting a removed row keeps the delta a description of the whole session, also for rows that were modified or created in it |
| `GenericIndex.Index.Emplace` | libraries/chainbase/include/chainbase/chainbase.hpp:218-236 | creates a row under the next id unless it clashes with a unique key; the delta stack keeps describing the snapshots |
| `GenericIndex.Index.Modify` | libraries/chainbase/include/chainbase/chainbase.hpp:238-243 | replaces one row and nothing else if and only if the result meets no other row's unique keys; otherwise the row is erased, and inside a session no undo state describes the table any more |
| `GenericIndex.Index.Remove` | libraries/chainbase/include/chainbase/chainbase.hpp:245-248 | drops one row and nothing else |
| `GenericIndex.Index.StartUndoSession` | libraries/chainbase/include/chainbase/chainbase.hpp:307-313 | pushes a snapshot of the current table under the next revision |
| `GenericIndex.Index.Undo` | libraries/chainbase/include/chainbase/chainbase.hpp:323-348 | rebuilds the newest snapshot from its delta, rows and next id; it fails exactly when an old value shares a unique key with another row whose id is higher or that has no old value, and then stops with the smaller ids restored and the row in question gone |
| `GenericIndex.CanUndoIff` | libraries/chainbase/include/chainbase/chainbase.hpp:328-333 | the checks of undo's first loop, each made against a partly restored table, all succeed if and only if no old value shares a unique key with another row whose id is higher or that has no old value |
| `GenericIndex.UndoCanClash` | libraries/chainbase/include/chainbase/chainbase.hpp:328-333 | with modifiers that hand a unique key from one row to another undo can fail |
| `GenericIndex.Index.Restore` | libraries/chainbase/include/chainbase/chainbase.hpp:328-344 | the three loops of undo, from any table the delta describes to the table before |
| `GenericIndex.Index.PutBackRemoved` | libraries/chainbase/include/chainbase/chainbase.hpp:341-344 | re-inserting the removed rows meets no clash at any intermediate table |
| `GenericIndex.Index.Squash` | libraries/chainbase/include/chainbase/chainbase.hpp:356-456 | the table is unchanged, the newest snapshot disappears and the merged delta still rebuilds the one below; the merged delta is the case matrix cell by cell |
| `GenericIndex.Index.MergeStates` | libraries/chainbase/include/chainbase/chainbase.hpp:400-453 | the merge loops in place compute the case matrix for every id, and neither assertion in them fires |
| `GenericIndex.Index.Commit` | libraries/chainbase/include/chainbase/chainbase.hpp:461-467 | drops exactly the snapshots of revisions up to the given one |
| `GenericIndex.Index.UndoAll` | libraries/chainbase/include/chainbase/chainbase.hpp:472-476 | ends with the oldest snapshot and an empty stack if and only if every undo on the way down meets free keys |
| `GenericIndex.Index.SetRevision` | libraries/chainbase/include/chainbase/chainbase.hpp:478-482 | sets the revision exactly when the stack is empty |
| `GenericIndex.StableKeysCanUndo` | libraries/chainbase/include/chainbase/chainbase.hpp:328-333 | old values whose unique keys are unchanged meet no clash with any other row |
| `ChainbaseDatabase.Database.StartUndoSession` | libraries/chainbase/src/chainbase.cpp:177-185 | all indexes open a session together; as one history it is one session |
| `ChainbaseDatabase.Database.Undo` | libraries/chainbase/src/chainbase.cpp:145-151 | all indexes go back together to the newest common snapshot if and only if none meets a clash; otherwise those before the one that throws are undone and those after it are not |
| `ChainbaseDatabase.Database.Squash` | libraries/chainbase/src/chainbase.cpp:153-159 | all indexes squash together |
| `ChainbaseDatabase.Database.Commit` | libraries/chainbase/src/chainbase.cpp:161-167 | all indexes commit together and stay in lockstep |
| `ChainbaseDatabase.Database.UndoAll` | libraries/chainbase/src/chainbase.cpp:169-175 | all indexes end together at the oldest common snapshot if and only if none meets a clash |
| `ChainbaseDatabase.Database.Create` | libraries/chainbase/include/chainbase/chainbase.hpp:218-236 | writes one row into one index, which is one write of the joint history |
| `ChainbaseDatabase.Database.Modify` | libraries/chainbase/include/chainbase/chainbase.hpp:238-243 | changes one row of one index, or erases it with an exception |
| `ChainbaseDatabase.Database.Remove` | libraries/chainbase/include/chainbase/chainbase.hpp:245-248 | drops one row of one index |
| `ChainbaseDatabase.ZipMoved` | libraries/chainbase/src/chainbase.cpp:145-175 | moving every index by one step is moving the joint history by that step, so every law of histories holds for the whole database |
| `ChainbaseDatabase.Session.Push` | libraries/chainbase/include/chainbase/chainbase.hpp:751-755 | the changes stay, and so does the snapshot |
| `ChainbaseDatabase.Session.Squash` | libraries/chainbase/include/chainbase/chainbase.hpp:757-761 | an armed session is merged into the one below, a used one does nothing |
| `ChainbaseDatabase.Session.Undo` | libraries/chainbase/include/chainbase/chainbase.hpp:763-767 | an armed session is undone in all indexes if and only if none meets a clash, and is used then; otherwise the indexes before the one that throws are undone, and its sub-session and those after it stay armed; a used one does nothing |
| `ChainState.LaterSlot` | libraries/chain/src/chain/database.cpp:81-104 | a time with a slot lies after the head block's, and in exactly that slot |
| `ChainState.BlockEffect` | libraries/chain/src/chain/database.cpp:287-315 | an applied block sets head number, id and time, raises the time strictly and moves the irreversible number as the constant says |
| `ChainState.ReplayHead` | libraries/chain/src/chain/database.cpp:287-315 | after any linked chain from genesis the state's head and irreversible number are those of the chain |
| `ChainState.ReplayTimes` | libraries/chain/src/chain/database.cpp:287-299 | block times strictly increase along every chain that applies |
| `Evaluators.Store.DoApply` | libraries/chain/src/chain/news_eveluator.cpp:16-69 | an operation is performed if and only if the accounts it names exist, or the new one does not, and the payer has the amount or the sum; then the payer is lower by it, every account higher by exactly the credits that name it, a new account has balance 0 and the given keys, and all else is as it was |
| `Evaluators.Store.DoTransfers` | libraries/chain/src/chain/news_eveluator.cpp:49-69 | the two loops over the recipients sum up, check and credit as the state function does |
| `Evaluators.Store.DoApplyTransaction` | libraries/chain/src/chain/database.cpp:692-763 | a transaction that applies had operations that validate, had not expired, named the noted block, was signed with exactly the posting keys of its responsible accounts and was not known, each as far as the skip flags ask for it; it is then remembered with its expiration, and its operations have all been performed in order; one that is not acceptable throws and changes nothing; the duplicate assertion never fires |
| `ChainState.DupeAssertionHolds` | libraries/chain/src/chain/database.cpp:702-702 | for every word of skip flags the duplicate assertion holds, whether or not the transaction is known |
| `OperationEffects.OperationIff` | libraries/chain/src/chain/news_eveluator.cpp:15-69 | when an operation is performed and what it does to every balance and key, as for the method above |
| `OperationEffects.OperationsIff` | libraries/chain/src/chain/database.cpp:755-761 | operations apply in order if and only if they can be performed one after the other, and they lead where that leads |
| `OperationEffects.SensibleIs` | libraries/chain/src/base/operation.cpp:23-44 | which operations validate: a transfer of a positive amount to another account, a batch transfer of at least one such credit, every account creation |
| `OperationEffects.ChainNoDebts` | libraries/chain/src/chain/news_eveluator.cpp:35-69 | with validation on, no balance is ever negative along a chain from a genesis without negative ones |
| `OperationEffects.ChainStays` | libraries/chain/src/chain/news_eveluator.cpp:15-33 | along a chain accounts stay, and their keys never change |
| `Admission.FlagBits` | libraries/chain/include/news/chain/database.hpp:64-80 | each check is on exactly when its bit of the skip flags is not set; the check of authority needs two bits unset |
| `Admission.SlotAtIs` | libraries/chain/src/chain/database.cpp:81-104 | the slot of a time is the number of intervals since genesis, or since the head block's slot, and 0 where there is none |
| `Admission.ValidatesIs` | libraries/chain/src/chain/transaction.cpp:26-31 | a transaction validates if and only if it has operations and each of them validates |
| `Admission.AuthorizedIs` | libraries/chain/src/chain/transaction.cpp:82-111 | the two loops over names and keys succeed if and only if every responsible account exists and the signing keys are exactly their posting keys |
| `Admission.TransactionIff` | libraries/chain/src/chain/database.cpp:692-763 | a transaction applies, with the state it leaves, if and only if it is acceptable, said of state and transaction alone, and once it is remembered its operations can be performed one after the other to that state |
| `Admission.BlockIff` | libraries/chain/src/chain/database.cpp:379-436 | a block applies if and only if its Merkle root matches or is not checked, its transactions apply in order and its slot lies ahead; what it leaves of slot, summaries, balances and keys |
| `Admission.EachApplied` | libraries/chain/src/chain/database.cpp:420-422 | each transaction of a block that applies is applied where those before it have led, and leads to where the next one is applied |
| `Admission.InTurnIff` | libraries/chain/src/chain/database.cpp:420-422 | the transactions of a block apply if and only if each does where those before it have led |
| `Admission.ChainRootsAndSlots` | libraries/chain/src/chain/database.cpp:287-299 | with the check on, every block of a chain has a matching root; the current slot is the genesis one plus the slots its blocks have passed |
| `Admission.SummariesAre` | libraries/chain/src/chain/database.cpp:537-544 | under every number below 65536 the state has noted the newest block of the chain whose number is that modulo 65536 |
| `Admission.ChainAccepted` | libraries/chain/src/chain/database.cpp:692-763 | every transaction of a chain was acceptable when its turn came, and its keys are those its responsible accounts had then and have now |
| `Admission.ChainRefers` | libraries/chain/src/chain/database.cpp:706-711 | with the reference check on, every transaction of a chain gives the prefix of the newest earlier block with the number it refers to, modulo 65536 |
| `Admission.ChainAllSigned` | libraries/chain/src/chain/transaction.cpp:82-111 | every transaction of a chain is signed with exactly the posting keys of its responsible accounts |
| `Evaluators.Store.ClearExpired` | libraries/chain/src/chain/database.cpp:807-813 | the loop from the earliest expiration removes exactly the rows that expired before the head block's time |
| `TransactionWindow.ChainHasNoDuplicates` | libraries/chain/src/chain/database.cpp:692-763 | with the duplicate check on, no transaction id occurs twice on a chain that applies, and every applied transaction is still indexed or expired |
| `TransactionWindow.IndexIsTheWindow` | libraries/chain/src/chain/database.cpp:745-752 | a transaction of the chain is in the index if and only if it has not expired before the head block's time |
| `TransactionWindow.ReplayedTransactionThrows` | libraries/chain/src/chain/database.cpp:702-752 | applying again any transaction of the chain throws, although the duplicate assertion lets it pass |
| `TransactionWindow.ChainConserves` | libraries/chain/src/chain/news_eveluator.cpp:35-69 | the total of all balances is the genesis total after every chain |
| `ForkTree.BranchShape` | libraries/chain/src/chain/fork_database.cpp:174-216 | the two branches start at the two blocks, follow parent links, end at equal height and with one parent, and have the lengths their heights say |
| `ForkTree.BranchFound` | libraries/chain/src/chain/fork_database.cpp:174-216 | whenever there are two ways down indexed blocks to one parent, the branches are found, and neither is longer than its way |
| `ForkTree.BranchIsNearest` | libraries/chain/src/chain/fork_database.cpp:174-216 | when neither block is below the other the branches share no block and every common ancestor is lower than both ends |
| `ForkTree.CommonParent` | libraries/chain/src/chain/fork_database.cpp:201-214 | the common parent of the two ends is an ancestor of both blocks |
| `ForkTree.BranchOnChain` | libraries/chain/src/chain/fork_database.cpp:174-216 | the branch from the head of a chain retraces the chain |
| `ForkTree.OnMainBranchFinds` | libraries/chain/src/chain/fork_database.cpp:229-237 | the lookup by number finds the block the walk from the head reaches, also through the shortcut for a single block of that number |
| `ForkTree.OnMainBranchMisses` | libraries/chain/src/chain/fork_database.cpp:229-237 | a number no block has is not found |
| `ForkTree.OnMainBranchFound` | libraries/chain/src/chain/fork_database.cpp:218-237 | what is found has that number, and is the only item that has or lies below the head |
| `ForkDatabase.ForkDb.PushBlock` | libraries/chain/src/chain/fork_database.cpp:41-83 | with a head, a block that lies max_size or more below it is refused, and so is one whose named parent is not indexed; refused ones change nothing, any other is indexed, and the head moves to it if and only if it is higher |
| `ForkDatabase.ForkDb.StartBlock` | libraries/chain/src/chain/fork_database.cpp:30-35 | the block is indexed and becomes the head |
| `ForkDatabase.ForkDb.PopBlock` | libraries/chain/src/chain/fork_database.cpp:22-28 | the head goes to its indexed parent, or the exception leaves everything |
| `ForkDatabase.ForkDb.SetMaxSize` | libraries/chain/src/chain/fork_database.cpp:100-129 | drops exactly the blocks more than the size below the head |
| `ForkDatabase.ForkDb.FetchBranchFrom` | libraries/chain/src/chain/fork_database.cpp:174-216 | the three loops end and compute the two branches, or stop at the first missing parent |
| `ForkDatabase.ForkDb.WalkMainBranchToNum` | libraries/chain/src/chain/fork_database.cpp:218-227 | the walk from the head to a number |
| `ForkDatabase.ForkDb.FetchBlockOnMainBranchByNumber` | libraries/chain/src/chain/fork_database.cpp:229-237 | the lookup by number equals its specification |
| `MainChain.AppliedOnChain` | libraries/chain/src/chain/database.cpp:522-526 | a block applied in a session and pushed extends the chain the undo stack describes, and the commit moves its base |
| `MainChain.PoppedOnChain` | libraries/chain/src/chain/database.cpp:589-603 | one undo leaves the state and the stack of the chain without its last block |
| `MainChain.SameHistory` | libraries/chain/src/chain/database.cpp:589-603 | a chain and the height of its undo stack determine the whole history, so applying popped blocks again gives back state and stack |
| `MainChain.LookupFromChain` | libraries/chain/src/chain/database.cpp:326-331 | while the fork database keeps a chain, the lookup by number from any of its blocks finds the chain's block |
| `MainChain.PrunedRetains` | libraries/chain/src/chain/fork_database.cpp:100-116 | pruning below what is needed loses nothing of the chain |
| `MainChain.PrunedLoses` | libraries/chain/src/chain/fork_database.cpp:100-116 | pruning above it always does |
| `ChainNode.GrowLogIff` | libraries/chain/src/chain/database.cpp:325-334 | the log is extended to the irreversible block if and only if a block is found for every number it lacks; up to the first that is not, the blocks found stay appended |
| `ChainNode.FetchIs` | libraries/chain/src/chain/database.cpp:605-618 | a block is found for an id if and only if the fork database has it, or it is the one logged under its number |
| `ChainSafety.MissingBlockLogged` | libraries/chain/src/chain/fork_database.cpp:229-237 | when no item has the next number for the log it stops there, and when exactly one item has it that block is appended, whatever chain it is on |
| `ChainSafety.TryApplyIs` | libraries/chain/src/chain/database.cpp:522-531 | what applying a block in a session leaves: nothing after an exception of the block itself; after one from the log the commit and the blocks appended before it; otherwise the block, the commit and a pruned fork database |
| `ChainSafety.MisappliedIff` | libraries/chain/src/chain/database.cpp:458-526 | a block is applied that does not extend the head exactly when the fork database accepts it and its head is a child of the chain's head but the block is not, the block applies to the current state, and a block is found for every number due for the log |
| `ChainSafety.PopsReplayed` | libraries/chain/src/chain/database.cpp:473-476 | however a run of pops ends, also where nothing is left to undo, state and undo stack are those of a lower part of the chain, and popped transactions are put before those popped earlier |
| `ChainSafety.BranchApplied` | libraries/chain/src/chain/database.cpp:479-489 | blocks of a branch applied on the parent of its lowest block make the chain of its highest one if and only if all of them apply, and otherwise a lower part of it |
| `ChainSafety.SwitchKeepsReplay` | libraries/chain/src/chain/database.cpp:471-516 | however a switch ends, the state is the replay of a chain: the new block's after a success, the old one with the old state after a rollback, a lower part of one of them after an exception in a pop |
| `ChainSafety.PushKeepsReplay` | libraries/chain/src/chain/database.cpp:455-534 | for every node and every block pushed: afterwards the state is the replay of a linked chain and the undo stack that of its prefixes if and only if the push does not misapply the block; log and popped transactions are only ever extended |
| `ChainSafety.MisappliedBreaks` | libraries/chain/src/chain/database.cpp:520-526 | after a block has been applied that does not extend the head the state is the replay of no chain |
| `ChainLog.GrowLogOnChain` | libraries/chain/src/chain/database.cpp:325-334 | while the fork database has no gap in the chain, whatever is found for the log is the chain's block |
| `ChainLog.SwitchKeepsLog` | libraries/chain/src/chain/database.cpp:471-516 | however a switch ends, the log stays a part of the chain that holds its irreversible blocks, and a rollback that reaches the common parent restores the old chain |
| `ChainLog.PushKeepsLog` | libraries/chain/src/chain/database.cpp:455-534 | the same of every push but two kinds that can open a gap: of a first block once the chain's is gone, and of a block of the chain while a failed child of the head is the fork database's head |
| `ChainLog.ChainBlockErased` | libraries/chain/src/chain/database.cpp:527-531 | a block of the chain that is pushed in that situation does not apply and is erased from the fork database, which leaves a gap if and only if an item is left that is not higher |
| `LogPrefix.GrownOwnIff` | libraries/chain/src/chain/database.cpp:325-334 | the log that has grown is a prefix of a chain if and only if for each number it lacks, as far as blocks are found, the lookup gives the chain's block |
| `LogPrefix.SwitchLogIff` | libraries/chain/src/chain/database.cpp:471-516 | however a switch ends, the log is a prefix of the chain it leaves if and only if the new branch is below what can be undone, or the lookups for the blocks that become irreversible while it is applied give its own; no rollback fails to restore |
| `LogPrefix.PushLogIff` | libraries/chain/src/chain/database.cpp:307-534 | the same of every push that misapplies no block, for every node: the log holds as many blocks as are irreversible and none above what can be undone, and a log that is a prefix of the chain stays one if and only if every block the push adds is the chain's own, a condition on node and block |
| `LogPrefix.ExtendedLogIff` | libraries/chain/src/chain/database.cpp:325-334 | for a block that extends the chain: if and only if the lookup for each number that becomes irreversible gives the chain's block of that number |
| `LogPrefix.TidyLogsOwn` | libraries/chain/src/chain/database.cpp:455-534 | with no gap in the fork database, a push that can open none adds only the chain's own blocks |
| `ForkSwitch.PopsDown` | libraries/chain/src/chain/database.cpp:473-476 | each pop takes one block off the chain, its transactions before those popped earlier, and moves the fork database's head to its parent |
| `ForkSwitch.ChainFetched` | libraries/chain/src/chain/database.cpp:605-618 | at rest every block of the chain can be fetched by its id, those pruned from the fork database out of the log |
| `ForkSwitch.ClimbExact` | libraries/chain/src/chain/database.cpp:479-489 | of a branch exactly the blocks up to the first that does not replay are applied; log and undo stack move as far as the height says |
| `ForkSwitch.Restored` | libraries/chain/src/chain/database.cpp:506-510 | applying the old branch again ends in the old state, revision and undo stack, logs nothing twice, and prunes the fork database by the first block applied against a head that stands higher |
| `ForkSwitch.SwitchAtRest` | libraries/chain/src/chain/database.cpp:471-516 | the outcome of a switch, by the height of the common parent and the height up to which the new chain replays, and exactly what it leaves: chain, state, log, fork database and popped transactions |
| `ForkSwitch.TallForksKeep` | libraries/chain/src/chain/database.cpp:340-340 | a rollback keeps all it needs when the common parent is 20 blocks up or more |
| `PushAtRest.PushAtRestIs` | libraries/chain/src/chain/database.cpp:455-534 | exactly when each outcome of a push happens at a node at rest, and the node it leaves |
| `PushAtRest.StaysAtRest` | libraries/chain/src/chain/database.cpp:455-534 | when the undo stack reaches down to the irreversible block, the log up to it and the fork database holds the chain from there, this is so again after a push if and only if it misapplies no block, tries no switch below the irreversible block, tries no block in place that the chain still needs, and a rollback of it prunes none; each a condition on node and block |
| `PushAtRest.CappedOneHigher` | libraries/chain/src/chain/database.cpp:463-471 | as long as no fork has been left higher than the chain, a fork that is switched to is one block higher |
| `PushAtRest.StaysCapped` | libraries/chain/src/chain/database.cpp:455-534 | after calm pushes no fork is higher than the chain |
| `PushAtRest.CalmIff` | libraries/chain/src/chain/database.cpp:455-534 | the six ordinary outcomes happen exactly when no block is misapplied and a fork that is switched to can be traced back to a block that can be popped to, without being one from genesis of which all blocks replay but the last |
| `Controller.ChainDatabase.UpdateLastIrreversible` | libraries/chain/src/chain/database.cpp:307-341 | the commit, then the log block by block, then the pruning; it throws if and only if a block that becomes irreversible is not found, and then commit and the blocks appended before it stay |
| `Controller.ChainDatabase.DoApplyBlock` | libraries/chain/src/chain/database.cpp:379-436 | a block applied in the source's order, with what an exception leaves at each point; one that applies has a matching root, unless that is not checked, a slot ahead, and transactions that apply in order |
| `Controller.ChainDatabase.PopBlock` | libraries/chain/src/chain/database.cpp:589-603 | undoes one block, moves the fork database's head to its parent and puts the block's transactions before those popped earlier, or throws before anything is undone |
| `Controller.ChainDatabase.PopTo` | libraries/chain/src/chain/database.cpp:473-476 | the loop of pops ends, at the common parent or with an exception |
| `Controller.ChainDatabase.ApplyBranch` | libraries/chain/src/chain/database.cpp:479-489 | the loop over a branch applies it bottom up until a block throws |
| `Controller.ChainDatabase.RollBack` | libraries/chain/src/chain/database.cpp:491-511 | the failed blocks are removed, the new branch popped and the old one applied again |
| `Controller.ChainDatabase.SwitchTo` | libraries/chain/src/chain/database.cpp:471-516 | the loops of a switch compute its function |
| `Controller.ChainDatabase.DoPushBlock` | libraries/chain/src/chain/database.cpp:455-534 | the whole of a push in place equals the function of the node whose laws the modules above prove |
| `Incidents.StaleHeadMisapplies` | libraries/chain/src/chain/database.cpp:458-526 | from any genesis and under any skip flags: a block, a child of it that does not apply, then a rival of the block with a later time, which is applied on top of it |
| `Incidents.RollbackGetsStuck` | libraries/chain/src/chain/database.cpp:491-504 | from any genesis: a block, a rival of it, then a child of the rival that does not apply; the chain is left on the rival |
| `Incidents.RollbackLosesBlocks` | libraries/chain/src/chain/database.cpp:491-511 | from any genesis: four blocks, then a fork of five whose first block does not apply; the state is restored and the fork database has lost the chain's first block |
| `Incidents.DeepForkTruncates` | libraries/chain/src/chain/database.cpp:473-476 | from any genesis: 22 blocks, then a fork of 23; the pops throw at the irreversible block and leave the chain there |
| `Incidents.NeverStarts` | libraries/chain/src/chain/database.cpp:458-471 | from any genesis: a first block that names a predecessor becomes the fork database's head, and after any blocks pushed later the chain is still at genesis and every push throws |
| `Incidents.FirstPush` | libraries/chain/src/chain/database.cpp:458-526 | a fresh node takes its first block into the chain exactly when it names no predecessor and applies to genesis |
| `LogStall.StaysHalted` | libraries/chain/src/chain/database.cpp:458-531 | where the next block for the log is missing and due, exactly what a push meets: it is refused, throws, breaks at the log when it is higher than the chain, or is applied although it does not extend the head; but for that, chain, log and this situation stay |
| `LogStall.HaltsForGood` | libraries/chain/src/chain/database.cpp:325-331 | no run of pushes moves the chain of such a node, but one that applies a block where it does not belong |
| `LogStall.LostBlockHalts` | libraries/chain/src/chain/database.cpp:491-511 | from any genesis: the run of the lost block, then the chain's next blocks up to the 22nd, at which the lost block is due; that push breaks at the log and the chain stays below it, whatever is pushed later |
| `LogStall.RivalGetsLogged` | libraries/chain/src/chain/database.cpp:325-334 | from any genesis: the same run with a rival of the first block that arrives after the failed switch; the 22nd block extends the chain, and the log holds the rival, which is no part of it |
| `NodeRuns.WhatEveryRunKeeps` | libraries/chain/src/chain/database.cpp:151-534 | after every run from genesis of blocks pushed, blocks generated and transactions pushed, as long as no block is misapplied: the state is the replay of a linked chain, the undo stack holds states of its prefixes down to the irreversible block at most, the log is as long as the chain is irreversible and no longer than can be undone, the slot is the one the chain's blocks have passed to, its roots match and its transactions are signed with the posting keys, as far as this is checked, balances are conserved and, with validation on and none negative at genesis, never negative, no transaction is on the chain twice and the pending ones apply; as long as no push logs a block of another chain, or opens a gap, the log is a prefix of the chain; and as long as every push is calm and keeps what is needed, log and undo stack meet exactly at the irreversible block |
| `NodeRuns.RunKeeps` | libraries/chain/src/chain/database.cpp:151-534 | the same invariants, from any node that has them |
| `NodeRuns.LogFollowsIff` | libraries/chain/src/chain/database.cpp:307-534 | of the runs that misapply no block, the log is a prefix of the chain after every event in exactly those in which no push logs a block of another chain |
| `NodeRuns.PendingOverRuns` | libraries/chain/include/news/chain/database.hpp:212-252 | over every run, how each event takes the pending list to the next: a transaction that applies joins at the end, a pushed or generated block leaves what is put back, and all of it when nothing is popped and everything still applies |
| `NodeRuns.RunFromGenesis` | libraries/chain/src/chain/database.cpp:151-534 | a node made from genesis and run in place keeps every promise its pushes have earned |
| `NodeRuns.GeneratedBlockExtends` | libraries/chain/src/chain/database.cpp:151-225 | at rest a generated block extends the chain if and only if its slot lies ahead, and fails in no other way than by the assertion on the slot |
| `TransactionPool.Pool.PushTransaction` | libraries/chain/src/chain/database.cpp:578-587 | a transaction joins the pending ones at their end if and only if it applies on top of them; a failed one leaves the pending state as it was |
| `TransactionPool.Pool.PushAll` | libraries/chain/include/news/chain/database.hpp:224-252 | the unknown transactions that apply join the pending ones in order, each on top of those before it; exceptions leave no trace |
| `TransactionPool.Pool.PushBlock` | libraries/chain/include/news/chain/database.hpp:212-252 | the node becomes what the push makes of it; afterwards each transaction, of the popped ones and then of the formerly pending ones, is pending if and only if at its turn it is neither known nor throws; when nothing is popped and all that were pending still apply, they are pending as before |
| `TransactionPool.AllRepushed` | libraries/chain/include/news/chain/database.hpp:237-250 | transactions that apply one after the other are all put back |
| `TransactionPool.RepushedInTurn` | libraries/chain/include/news/chain/database.hpp:226-250 | what is put back of two lists is what is put back of the second on top of the first, and all of it applies in order |
| `TransactionPool.RepushedIsPutBack` | libraries/chain/include/news/chain/database.hpp:226-248 | what is put back of a list is exactly what, at its turn after those kept before it, is neither known nor throws |
| `TransactionPool.PutBackOnce` | libraries/chain/include/news/chain/database.hpp:226-248 | that describes one list only |
| `TransactionPool.PushPutsBack` | libraries/chain/include/news/chain/database.hpp:212-252 | the same of a push, from the old pending list to the new one |
| `TransactionPool.Pool.SelectTransactions` | libraries/chain/src/chain/database.cpp:151-201 | the loop with its tentative sessions selects what the specification selects and leaves the head state as it was |
| `TransactionPool.Pool.GenerateBlock` | libraries/chain/src/chain/database.cpp:151-225 | the block made is of the selected transactions on top of the head, with the time given and a matching root, fits the size limit, and is pushed like any other, with the same promise on the pending transactions |
| `TransactionPool.SelectedApply` | libraries/chain/src/chain/database.cpp:182-195 | the selected transactions apply again in order from the state they were selected on |
| `TransactionPool.SelectedFit` | libraries/chain/src/chain/database.cpp:167-180 | the selected ones are pending, unexpired, no more than the count and together below the size limit |
| `TransactionPool.SelectNext` | libraries/chain/src/chain/database.cpp:167-196 | while there is room the next pending transaction is taken if and only if it is unexpired and applies |
| `TransactionPool.SelectExactly` | libraries/chain/src/chain/database.cpp:167-196 | exactly which pending transactions are selected: up to the first unexpired one for which there is no room, those that are unexpired and apply on top of the ones selected before |
| `TransactionPool.GeneratedSize` | libraries/chain/src/chain/database.cpp:162-218 | the size assertion on a generated block cannot fail |
| `TransactionPool.GeneratedBlockApplies` | libraries/chain/src/chain/database.cpp:151-222 | a generated block applies to the state it was generated on if and only if its slot lies ahead |
| `Arithmetic128.UInt128.AddAssign` | libraries/fc/include/fc/uint128.hpp:58-58 | addition modulo 2^128 through the carry, also of a number to itself |
| `Arithmetic128.UInt128.SubAssign` | libraries/fc/include/fc/uint128.hpp:59-59 | subtraction modulo 2^128 through the negation |
| `Arithmetic128.UInt128.Negated` | libraries/fc/include/fc/uint128.hpp:44-44 | two's complement: 2^128 minus the number, modulo 2^128 |
| `Arithmetic128.UInt128.Increment` | libraries/fc/include/fc/uint128.hpp:47-47 | plus one modulo 2^128 across the words |
| `Arithmetic128.UInt128.Decrement` | libraries/fc/include/fc/uint128.hpp:48-48 | minus one modulo 2^128 across the words |
| `Arithmetic128.UInt128.Less` | libraries/fc/include/fc/uint128.hpp:41-41 | the comparison by words is the comparison of the numbers |
| `Arithmetic128.UInt128.AtLeast` | libraries/fc/include/fc/uint128.hpp:79-79 | the derived comparison is that of the numbers |
| `Arithmetic128.UInt128.FitsUInt32` | libraries/fc/include/fc/uint128.hpp:88-94 | both assertions of to_integer hold exactly below 2^32 |
| `Arithmetic128.UInt128.AndAssign` | libraries/fc/include/fc/uint128.hpp:53-53 | bitwise and of the whole numbers |
| `Arithmetic128.UInt128.OrAssign` | libraries/fc/include/fc/uint128.hpp:52-52 | bitwise or of the whole numbers |
| `Arithmetic128.BitOr` | libraries/fc/include/fc/uint128.hpp:70-70 | the binary operator returns its right operand |
| `Arithmetic128.RightIsOr` | libraries/fc/include/fc/uint128.hpp:70-70 | that is the bitwise or if and only if the left operand has no bit of its own |
| `Arithmetic128.UInt128.ShiftLeftAssign` | libraries/fc/src/uint128.cpp:154-187 | the masks and word moves multiply by a power of two modulo 2^128, for every count, also the number itself |
| `Arithmetic128.UInt128.ShiftRightAssign` | libraries/fc/src/uint128.cpp:189-222 | the masks and word moves divide by a power of two, for every count |
| `UInt128Words.HighBits` | libraries/fc/src/uint128.cpp:176-179 | the mask selects exactly the bits that move to the high word |
| `UInt128Words.LimbProduct` | libraries/fc/src/uint128.cpp:269-277 | the limb sums leave out only multiples of 2^128 |
| `Arithmetic128.UInt128.SumLimbs` | libraries/fc/src/uint128.cpp:279-292 | the three folds, each addition and shift wrapping, compute the limb sum modulo 2^128 |
| `Arithmetic128.UInt128.MulAssign` | libraries/fc/src/uint128.cpp:257-295 | multiplication modulo 2^128 for all inputs, also of a number by itself |
| `UInt128Words.ProductWords` | libraries/fc/src/uint128.cpp:330-343 | the four words assembled from four partial products are the exact product and the top word does not overflow |
| `Arithmetic128.UInt128.FullProduct` | libraries/fc/src/uint128.cpp:297-349 | the exact 256-bit product in two halves, whichever objects receive them |
| `UInt128Words.DividingStep` | libraries/fc/src/uint128.cpp:32-40 | one subtract-and-shift step keeps numerator, quotient and remainder in balance |
| `Arithmetic128.UInt128.DoubleUp` | libraries/fc/src/uint128.cpp:27-30 | the first loop ends with the divisor doubled past half the numerator and without overflow |
| `Arithmetic128.UInt128.SubtractDown` | libraries/fc/src/uint128.cpp:32-40 | the second loop ends with a remainder below the divisor |
| `Arithmetic128.UInt128.Divide` | libraries/fc/src/uint128.cpp:13-45 | for every nonzero divisor quotient and remainder with the remainder below the divisor, whichever of the four objects are one; zero throws and changes nothing |
| `Arithmetic128.UInt128.ModAssign` | libraries/fc/src/uint128.cpp:250-255 | the remainder, also modulo the number itself |
| `Arithmetic128.UInt128.DivAssign` | libraries/fc/src/uint128.cpp:224-230 | the quotient, split into words again |
| `Popcount.PopCount64` | libraries/fc/src/uint128.cpp:351-370 | the six masked additions count the set bits of a word, each mask being the one for its field width |
| `Popcount.PopCount` | libraries/fc/src/uint128.cpp:372-375 | the two words' counts add up to the number's |
| `Popcount.Pairwise` | libraries/fc/src/uint128.cpp:365-368 | one masked addition adds neighbouring fields without carrying into others |
| `Popcount.MaskOfRound` | libraries/fc/src/uint128.cpp:353-360 | the constants are the masks of alternating fields of each width |
| `Numerals.PrintThenParse` | libraries/fc/src/uint128.cpp:47-117 | reading a number written in octal after 0, in decimal, or in hexadecimal after 0x, with or without a minus sign, gives it modulo 2^128 |
| `Numerals.NumeralAt` | libraries/fc/src/uint128.cpp:140-148 | each place of a numeral holds its digit of the number, and the number is no lower than the weight of the first place |
| `Numerals.DigitValueIs` | libraries/fc/src/uint128.cpp:82-103 | which characters are which digits, the letters in both cases |
| `Numerals.ReadIsWeighted` | libraries/fc/src/uint128.cpp:78-109 | for every text, the digits in front are read as the sum of their values by the weights of their places, and the rest is not |
| `Numerals.DecimalRoundTrip` | libraries/fc/src/uint128.cpp:47-151 | reading the decimal print of any number gives it modulo 2^128 |
| `Numerals.DecimalOf128Bits` | libraries/fc/src/uint128.cpp:135-149 | 39 digits are enough for 128 bits |
| `UInt128Text.ReadDigits` | libraries/fc/src/uint128.cpp:78-109 | the digit loop reads the number in front, in a radix, modulo 2^128 |
| `UInt128Text.Parse` | libraries/fc/src/uint128.cpp:47-117 | the string constructor with its sign and radix rules equals its specification for every string |
| `UInt128Text.WriteDigits` | libraries/fc/src/uint128.cpp:140-148 | the digits are written backwards in front of position 127 and never reach the start of the buffer |
| `UInt128Text.Print` | libraries/fc/src/uint128.cpp:131-151 | the decimal digits of the number, from the fixed buffer |
| `UInt128Text.RoundTrip` | libraries/fc/src/uint128.cpp:47-151 | print then parse is the identity for every number |
| `Real128.Real.MulAssign` | libraries/fc/src/real128.cpp:42-50 | the product over the precision, truncated, modulo 2^128 |
| `Real128.Real.DivAssign` | libraries/fc/src/real128.cpp:29-40 | the scaled quotient modulo 2^128; zero throws |
| `Real128.Real.Print` | libraries/fc/src/real128.cpp:100-112 | integer part, point and the 18 places without trailing zeros |
| `Real128.ReadRun` | libraries/fc/src/real128.cpp:57-67 | a run of digits and its weight in 64-bit accumulators that wrap |
| `Real128.Parse` | libraries/fc/src/real128.cpp:53-99 | the decimal parser equals its specification for every string |
| `RealText.FractionIsExact` | libraries/fc/src/real128.cpp:85-96 | a fraction of at most 18 places is read exactly |
| `RealText.FractionTruncates` | libraries/fc/src/real128.cpp:85-96 | a fraction of 19 places is read without the last |
| `RealText.TwentyPlacesWrap` | libraries/fc/src/real128.cpp:85-96 | one tenth written with 20 places is read as more than one, for the weight wraps |
| `RealText.ParsedRealIff` | libraries/fc/src/real128.cpp:53-99 | parsing throws if and only if the text starts with neither a digit nor a point, or 64 or more places follow the point, whose weight wraps to 0 |
| `RealText.PrintedShape` | libraries/fc/src/real128.cpp:100-112 | what is printed is the places up to the last nonzero one, and their value |
| `RealText.ParseOfPrinted` | libraries/fc/src/real128.cpp:53-112 | print then parse keeps the places and reduces the integer part to 64 bits |
| `RealText.RoundTripIff` | libraries/fc/src/real128.cpp:53-112 | print then parse is the identity if and only if the integer part is below 2^64 |
| `Real128.RoundTrip` | libraries/fc/src/real128.cpp:53-112 | the same of the two operations on objects |
| `BlockLog.Log.Append` | libraries/chain/src/chain/block_log.cpp:202-230 | writes one record and one entry if and only if the index is as long as the block's number says |
| `BlockLog.Log.AppendNext` | libraries/chain/src/chain/block_log.cpp:202-230 | exactly the next block of the chain can be appended, and both files go on describing the chain |
| `BlockLog.Log.ReadBlock` | libraries/chain/src/chain/block_log.cpp:257-270 | a block read at a position and where the next record starts |
| `BlockLog.Log.GetBlockPos` | libraries/chain/src/chain/block_log.cpp:307-321 | the entry of a number, none outside the log, or a failed read on a short index |
| `BlockLog.Log.ReadBlockByNum` | libraries/chain/src/chain/block_log.cpp:272-293 | the block of that number and nothing else; the assertion on the number does not fire |
| `BlockLog.Log.ReadHead` | libraries/chain/src/chain/block_log.cpp:323-342 | the last block, through the position at the end of the file |
| `BlockLog.Log.ConstructIndex` | libraries/chain/src/chain/block_log.cpp:356-384 | for two or more records exactly the index appending would have kept; for one record nothing |
| `BlockLog.Log.Open` | libraries/chain/src/chain/block_log.cpp:109-190 | for any index file: when a read fails, what index is left, and the head |
| `BlockLog.ReopenRestoresIff` | libraries/chain/src/chain/block_log.cpp:145-180 | an index some whole entries short or ahead is restored if and only if it was right or the log does not hold exactly one block |
| `BlockLog.LostIndexStopsAppend` | libraries/chain/src/chain/block_log.cpp:217-219 | after the index of a one-block log is lost block 2 cannot be appended |
| `BlockLog.LookupAt` | libraries/chain/src/chain/block_log.cpp:257-321 | entry and record agree, and reading stops where the next record starts |
| `BlockLog.WalkMeetsIndex` | libraries/chain/src/chain/block_log.cpp:257-321 | reading on from the first record arrives at the positions the index gives |
| `LittleEndian.ByteAt` | libraries/chain/src/chain/block_log.cpp:222-227 | the bytes of a position are its digits to the base 256, the lowest first |
| `Merkle.Reduce` | libraries/chain/src/chain/block.cpp:23-31 | one round in place: neighbours hashed together, an odd last one promoted |
| `Merkle.CalculateMerkleRoot` | libraries/chain/src/chain/block.cpp:10-35 | the rounds in place compute the checksum of the tree over the transactions' digests in their order, and the default value for no transactions |
| `Merkle.RoundKeepsTree` | libraries/chain/src/chain/block.cpp:22-33 | a round does not change the tree whose left part is the largest full one |
| `Merkle.SplitIsPower` | libraries/chain/src/chain/block.cpp:22-33 | that part has a power of two of leaves |
| `Merkle.SameRootIff` | libraries/chain/src/chain/block.cpp:10-35 | without hash collisions two lists of one length have one root if and only if their leaf digests agree |
| `Merkle.RootsTellIff` | libraries/chain/src/chain/block.cpp:10-35 | without hash collisions the root of a nonempty list tells its leaf digests, for lists of all lengths, if and only if no tree over two or more transactions is itself the digest of a transaction |
| `Merkle.OneRootTwoLengths` | libraries/chain/src/chain/block.cpp:22-34 | a transaction whose digest is a tree over others has their root |
| `Synopsis.RoundsShape` | libraries/net/node.cpp:2440-2450 | the sampled numbers rise strictly from low to high and are floor(log2(high - low + 1)) + 1 many |
| `Synopsis.SampleIs` | libraries/net/node.cpp:2440-2450 | the i-th sample has the 2^i-th part of the list, rounded down, between it and the end |
| `Synopsis.BitLengthBounds` | libraries/net/node.cpp:2440-2450 | the count of binary digits is floor(log2) + 1 |
| `Synopsis.GetBlockchainSynopsis` | libraries/plugins/p2p/src/p2p_plugin.cpp:362-484 | the chain database's part: the samples up to the reference point, from the main chain and the fork, of which the first is the last block that cannot be undone, or block 1; nothing for an empty chain |
| `Synopsis.AppendIdsToGet` | libraries/net/node.cpp:2430-2452 | the network's part: exactly the samples among the ids to get; the index assertion fails if and only if low is above high; the last id is the last of the list |
| `Synopsis.Seamless` | libraries/net/node.cpp:2430-2452 | when the ids follow the reference point the two parts sample chain and ids as one list |
| `Synopsis.CreateBlockchainSynopsis` | libraries/net/node.cpp:2403-2454 | both loops together, for any ids: the chain database's samples and then those among the ids; when the ids follow the reference point, the samples of the whole list, and the assertion never fails |
| `SyncRequests.AfterArrival` | libraries/net/node.cpp:3629-3640 | a block that arrives is owed by nobody afterwards, and the requests stay disjoint and active |
| `SyncRequests.AfterRefusal` | libraries/net/node.cpp:2878-2891 | a refused item becomes an active request nobody owes |
| `SyncRequests.AfterClosing` | libraries/net/node.cpp:3073-3080 | closing a connection frees exactly what it owed |
| `SyncRequests.AfterRequests` | libraries/net/node.cpp:1092-1093 | a round of disjoint new batches keeps requests disjoint, active and within a batch |
| `SyncRequests.RunKeepsOwed` | libraries/net/node.cpp:1032-1094 | over every run of connections made and closed, blocks that arrive, refusals and rounds of requests, no block is outstanding at two peers, what is outstanding is active, no peer owes more than a batch, and the active requests nobody owes are those some peer has refused |
| `SyncNode.Node.SelectItems` | libraries/net/node.cpp:1070-1085 | the batch of one peer: from the front of its list every item that is not here, not active and not scheduled, up to the maximum or the end |
| `SyncNode.Node.RequestSyncItems` | libraries/net/node.cpp:1032-1044 | the batch is noted with the peer and as active |
| `SyncNode.Node.FetchSyncItems` | libraries/net/node.cpp:1046-1095 | one round of the fetch loop: exactly the peers that are needed, not inhibited and owe nothing are asked, each for the items from the front of its list that nobody else is asked for, up to the maximum; no item twice; no request is forgotten |
| `SyncNode.Node.OnItemNotAvailable` | libraries/net/node.cpp:2862-2895 | the item leaves the peer but stays active: it joins the forgotten requests, which no handler ever clears |
| `SyncNode.Node.OnConnectionClosed` | libraries/net/node.cpp:3004-3093 | what the peer owed can be asked for again |
| `SyncNode.Node.ProcessBlockMessage` | libraries/net/node.cpp:3605-3684 | a requested block is settled for all peers, and a peer that owes nothing more is asked for the next ids when more are to come than are left to get; an unrequested one disconnects the sender |
| `SyncNode.Node.ConsiderReceived` | libraries/net/node.cpp:3342-3406 | a received block is taken off the front of exactly those lists it is next on and processed from then on; if there is one it leaves the received ones, or, when accepted meanwhile, those being processed, and a peer for which that was the last thing to do, with nothing unfetched, is asked for more ids |
| `SyncNode.Node.StartSynchronizing` | libraries/net/node.cpp:4007-4018 | the lists are cleared and ids are asked for |
| `SyncNode.Node.CheckInventory` | libraries/net/node.cpp:2496-2567 | a list passes if and only if it is consecutive and, unless empty, starts at a block of the synopsis, or at number 1 for an empty synopsis; which complaint it is otherwise |
| `SyncNode.Node.Flush` | libraries/net/node.cpp:2603-2642 | blocks the delegate has are dropped from the front unless another peer's list starts with the same block |
| `SyncNode.Node.Merge` | libraries/net/node.cpp:2643-2688 | the old list is cut back to the first offered block and continued, and the join repeats no block |
| `SyncNode.Node.OnBlockIdsInventory` | libraries/net/node.cpp:2486-2774 | a response that was not asked for is ignored; one that is no answer, in the sense above, is always refused and the peer disconnected, and an answer never is; it ends synchronisation if and only if it tells nothing new; otherwise the list of ids becomes the offered ids from the first one the delegate lacks, all of them when the first is next for another peer, the old ids below the first offered one and then the offered ones, or the offered ones after the first when it is not on the list; more ids are asked for when some remain and at most 10000 are left to get, or when none remain and none are left |
| `SyncNode.TakenInIs` | libraries/net/node.cpp:2600-2688 | what the loops of flushing and merging leave is the list said there, and the last block seen is the last one flushed, or the first offered one of a list that is on none of the old ids |
| `SyncNode.MergedIsRun` | libraries/net/node.cpp:2643-2688 | the merged list is a run of consecutive numbers |
| `SyncNode.NewIdsAreRun` | libraries/net/node.cpp:2603-2688 | so is every list after an accepted response |
| `SyncNode.RunHasNoRepeats` | libraries/net/node.cpp:2496-2525 | a run holds no id twice |
| `SyncRuns.Handle` | libraries/net/node.cpp:2862-3684 | every handler, for any peer whose connection is open, keeps the requests disjoint, active and within a batch and the lists runs, and makes no request forgotten but those a peer refuses |
| `SyncRuns.RunEvents` | libraries/net/node.cpp:1032-3684 | the same over every run of events from a new node, by object: no block is outstanding at two peers, and every active request is owed by a peer or is one that a peer has refused |
| `Framing.RemainingIsTheRest` | libraries/net/message_oriented_connection.cpp:165-165 | the unsigned arithmetic gives the rest of the padded message, also for messages that end in the first block |
| `Framing.Connection.SendMessage` | libraries/net/message_oriented_connection.cpp:256-274 | size and kind as four bytes each, the lowest first, the data, and fewer than 16 zeros up to a multiple of 16 |
| `Framing.Connection.ReadMessage` | libraries/net/message_oriented_connection.cpp:156-175 | a framed message is read back without its padding if and only if it is within the size limit, and the stream is left at the next one |
| `Framing.Deliver` | libraries/net/message_oriented_connection.cpp:141-276 | what is sent is received, in order |

## Left out

- ForkDatabase.ForkDb.PopBlock: the `prev` weak references are a lookup of the parent in the index. So a parent that was erased and pushed again counts as the same object; an item that has been pruned or erased is gone at once, while in the source a switch keeps those of its two branches alive to its end, and a rollback that is stuck here for a fork more than one block higher can get through there; and the first block pushed into an empty fork database, which never gets a `prev`, is linked to its parent here if that comes later.
- GenericIndex.Index.Undo: the values are copied; the source moves them out of the undo state, so that after an exception those already restored are moved-from objects there.
- ChainNode.Push: a block id stands for the whole block. In the source it is the hash of the header, which holds the Merkle root and not the transactions, so that a block can arrive with the header of another and transactions that do not match; what such a twin does to the item indexed under the id is not modelled.
- PushAtRest.PushAtRestIs: assumes of a fork that is switched to that it is one block higher than the chain, which `CappedOneHigher` shows of all ordinary runs; for other forks `ChainSafety` and `LogPrefix` state what holds.
- ChainLog.PushKeepsLog: having no gap is a sufficient condition that is easy to check of a push; the exact one is in `LogPrefix.PushLogIff`.
- Controller.ChainDatabase.DoApplyBlock: the block log is the sequence of its blocks here; its bytes and files are in `BlockLog`. The slot assertion counts as an exception.
- Synopsis.Seamless: the ids to get follow the reference point; while blocks between the two are still being processed `CreateBlockchainSynopsis` states the two parts.
- Synopsis.GetBlockchainSynopsis: the branches that choose the reference point and the fork history are its parameters, and it covers the case in which the fork leaves the chain at or above the last block that cannot be undone.
- SyncNode.Node.StartSynchronizing: the synopsis is a parameter, and so it is wherever a peer is asked for ids; the disconnect when no synopsis can be made is left out.
- SyncNode.Node.OnBlockIdsInventory: the time of the last offered block and the delegate's answers are parameters; the assertion that an unknown first block has been seen is left out.
- SyncNode.Node.ProcessBlockMessage: what normal operation does with a block is left out, and so are exceptions inside the handler.
- BlockLog.Log.Open: the log file itself is whole; a record that was cut off is not recovered by the source either.
- Real128.Parse: 64-bit accumulators wrap, where signed overflow is undefined in the source language.
- Real128.Real.DivAssign: big integers are natural numbers and their decimal text is the one of `Numerals`.
- Merkle.SameRootIff: hashes are functions without collisions; the block's `merkleRootMatches` stands for the comparison in the chain model.
- Evaluators.Store.DoApply: signatures are sets of recovered keys and authority is one posting key, balances are unbounded integers and there is one asset symbol.
- Words and sizes: block numbers, times, slots and counts are unbounded, where the source uses 32 bits, except where a wrap-around is stated.
- The word of skip flags is fixed for a run, without `skip_fork_db` and `skip_block_log`, which only a reindex sets; hard fork bookkeeping, witness schedules, notifications and plugins are not part of this model.
- `reindex`, `open` and the restart of a chain database, memory mapping, locks, resizing and flushing.
- `_unlinked_index` and `_push_next`, which are never reached; stored objects other than accounts, balances, keys, block summaries and recent transactions.
- Sockets, fibers, timeouts, encryption, peer databases, and the inventory of normal operation in the network library.
- `operator^` of `uint128`, conversions to variants and hashing.
