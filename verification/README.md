# Blockz, verified

A Dafny model of Blockz, a small account-based blockchain node: its contract interpreter, its ledger
(chain, world state, store), its gossip and sync protocol, its transaction pool, and its consensus
engines. `dafny verify dfyconfig.toml` checks the whole project.

Each part comes twice where the program updates things in place. A value-level specification says what
an operation does (`Machine`, `Accounts`, `Ledger`, `Network`, `PoolSpec`, `StakeSpec`), and the laws are
proved about it over all runs. Objects in the program's own form (`Evm`, `WorldObjects`, `Blockchain`,
`Server`, `List`, `TxPool`, `ProofOfStake`, `Mining`) are proved to do exactly that.

## Main results

- **The interpreter implements a clean machine.** After any number of steps the interpreter has panicked
  or is in the state of a machine with endless zero-filled memory and total word-to-word storage, whose
  instruction table is written column by column (`IdealMachine.RefinesFor`, `RunRefines`), provided
  SHA-256 does not collide on the 32-byte spellings of two storage keys the run used; keys share a slot for no
  other reason (`SlotsExact`). One write does what the clean machine's does, in every state, exactly when its key
  collides with no other (`SstoreExact`); a run whose keys collide may still happen to match.
  `Contracts.ContractEffect` carries this to transactions, failed payments included.
- **Gas and termination.** The charge of a run, finished or not, is the number of instructions it executed
  (`RunSafe`, `RunForCharge`, `FinalCharge`); it is the least limit that suffices: every larger limit gives
  the same run and every smaller one ends out of gas (`ChargeIsThreshold`, `MoreGas`). A limit makes all code
  terminate if and only if it is below 2^64-1 (`TerminationExact`), and so for signed transactions and for
  adding valid blocks to any chain (`Returning.TxReturnsExact`, `BlockReturnsExact`, `MeteredReturns`). When a
  step panics is characterised exactly (`PanicsExact`), and so are the gas limits under which no signed
  transaction and no block crashes the node (`TxCrashesExact`, `BlockCrashesExact`).
- **The ledger, over every run, rejected blocks included.** Supply is exactly five per block; each balance
  is five per block mined plus received minus sent in unbounded integers, so nothing ever wraps
  (`RunAccounted`, `RunSupply`); headers link, heights count up, and all three store indexes answer as a
  scan of the chain would, and every block above genesis carries its validator's signature, its senders'
  signatures and the hash of its body (`RunValid`, `VerifiesExact`). The node keeps running with its state the
  replay of its chain, throughout a run, if and only if each block, on the state it met, failed validation,
  went through, or had its very first transaction refused without a trace (`ReplayedExact`, `CleanExact`);
  then balances and nonces are functions of the chain (`CleanRunHistory`). For blocks of plain payments the
  condition is arithmetic: each is covered by what its sender has when its turn comes, or the first is not
  (`PaymentsExact`, `PaymentBlockExact`). Loading a store ends if and only if some height is free, and then
  rebuilds the headers of the run (`LoadEndsExact`, `ReopenRestores`).
- **The network.** One producer; messages are reordered, repeated and lost; a node whose call hangs or panics
  stops for good. Every node's chain is always a prefix of the producer's, unconditionally (`PrefixSafety`).
  While the producer's chain replays, every other node's state is the replay of its chain, whatever became of
  the producer's own state (`FollowersAgree`), so that any two of them at one height hold one state
  (`StateAgreement`), and from every reachable state one request to any peer that is up and ahead and four
  deliveries bring a node to that peer's chain and its replayed state, if the node's engine accepts the peer's
  headers and the peer is below 2^32 blocks (`NetworkProgress.Recovery`); so do the two messages that follow a
  gossiped block too far ahead (`GossipRecovery`). All nodes, the producer included,
  keep running at the replay of their chains throughout a run if and only if every event was clean for the
  state it met (`AgreementExact`). It need not be: at any such moment an honest wallet can have a block
  proposed that is refused halfway, after which the producer and its peers have equal headers and different
  states (`StatesCanPart`).
- **Consensus, pool, state.** In proof of stake a header is accepted exactly when its coinbase holds the slot
  of its height and never had another accepted there (`AcceptsExact`), slots rotate in order of joining
  (`Rotation`, `ActiveIs`); in proof of work a produced block has the configured difficulty and the least nonce
  that meets it, and every block the node seals and signs passes its own validation (`CreateNewBlock`); the pool
  is the last `max` signed submissions with new payload hashes (`PoolHistory`); copies of the world state are
  isolated although they share slices; the state root does not depend on map order and commits to the state
  (`RootUnique`, `RootCommits`).

## Calls that may not return

Contract code under the gas limit 2^64-1 can run for ever, and so can the answering loop on a full chain.
Methods that reach such a loop take a number `turns` and show the object after that many turns of it: every
moment of every call is covered, whether the call ever returns or not. The verdict `Hung` means that it has
not returned by then. Over whole runs a call that hangs or panics is a node's last: the chain stays locked, or
the program has ended. A call that has returned made the ledger's transition, longer watching shows the same,
and a call is `Hung` in the transition exactly when no number of turns sees it return (`Returning.WatchedAdd`,
`HungExact`). Blocks whose code is metered, that is, has gas limits below 2^64-1, always return.

## Assumptions

- SHA-256, Keccak, gob encodings, ECDSA verification, address derivation and the largest allocatable slice
  are fields of a `Host` value, arbitrary functions over which every theorem is quantified. Where collisions
  matter, either the conclusion names the collision (`HashFixesPast`, `GetByHashFinds`, `RootCommits`) or the
  hash is assumed not to collide on the storage keys one run uses (`NoClash`).
- Verification accepts what a wallet signs (`Honest`); nothing else is assumed about signatures. A block has
  fewer than 2^63 transactions where a nonce could otherwise wrap unnoticed (`Sized`).
- Headers, transactions and blocks do not change once built, so cached hashes equal recomputed ones; public
  keys are present. Genesis has height 0. Proof-of-work difficulties are between 0 and 256.
- Clocks, iteration order of maps, growth of slice capacity and message delivery are parameters or
  unrestricted choices.
- A failed allocation and an out-of-range slice are the outcome `Panicked`/`Crashed`; what memory holds then
  is not modelled. A contract run that never returns is `Hung`, recorded with the state it started from.

## Where code and comments differ

The model follows the code. Proposers rotate by height and are not weighted by stake
(consensus/pos.go:117-133). The proof-of-work target is 2^(256-difficulty), inclusive
(consensus/pow.go:55-61), and a header is held to the difficulty it claims, not to the configured one, so
that one claiming none always passes (`Mining.DifficultyIsClaimed`). The sender's nonce is counted and never
compared (core/blockchain.go:153-157).
A rejected block's completed transactions, and a failed contract's writes, stay (core/blockchain.go:80-85),
so a node that proposed such a block no longer agrees with the others (`NetworkProgress.StatesCanPart`).

## Model

| member | source | states |
|---|---|---|
| Basics.BytesRoundTrip | core/vm.go:142-147 | the stripped big-endian bytes of a number spell that number |
| Basics.BytesLength | core/vm.go:142-147 | a number fits in k bytes exactly when it is below 256^k, so 32-byte padding never runs out of room |
| Basics.Pad32 | core/vm.go:328-330 | the padded form of a word has 32 bytes and spells the word |
| Basics.Pad32Digit | core/vm.go:142-147 | byte i of the padded form is the base-256 digit of weight 31-i |
| Basics.Pad32Unique | core/vm.go:328-330 | every 32-byte string is the padded form of the number it spells |
| Basics.BitAndBits | core/vm.go:292-295 | each bit of AND is the conjunction of the operands' bits |
| Basics.BitOrBits | core/vm.go:297-300 | each bit of OR is the disjunction of the operands' bits |
| MachineRuns.AccessExact | core/vm.go:123-154 | a memory access panics exactly when it overflows, cannot be allocated, or is an empty read past the end; otherwise memory grows to whole words and only then |
| MachineRuns.PanicsExact | core/vm.go:193-414 | a step panics exactly when it is affordable and its instruction touches such a range |
| MachineRuns.StepWellFormed | core/vm.go:193-414 | every step keeps pc within the code and memory in whole words within the allocation limit |
| MachineRuns.RunSafe | core/vm.go:193-414 | at every moment and at the end of a run, gas is the number of instructions executed and within the limit, the stack is no deeper than that, pc stays in the code |
| MachineRuns.RunForCharge | core/vm.go:423-429 | under every limit, finished or not, the charge is the number of instructions executed, as a uint64 |
| MachineRuns.FinalCharge | core/vm.go:193-205 | the charge of a finished run is its number of turns, less a last turn that found no instruction or no gas; a run out of gas has used exactly its limit |
| MachineRuns.RunTouchesStorageOnly | core/vm.go:340-355 | a run, however it ends and whatever its limit, changes nothing but its contract's storage |
| MachineRuns.RunHalts | core/vm.go:423-429 | below the top limit a run ends within one step more than the limit |
| MachineRuns.LoopForever | core/vm.go:371-376 | under the limit 2^64-1 a three-instruction loop never ends, because the gas sum wraps |
| MachineRuns.TerminationExact | core/vm.go:423-429 | all code terminates under a limit if and only if the limit is below 2^64-1 |
| MachineRuns.PanicLimitExact | core/vm.go:123-154 | no code panics under a limit if and only if the limit pays for no instruction, or for one and a word of memory can be had |
| MachineRuns.MoreGas | core/vm.go:423-429 | a run not ended by gas is the same run under every larger limit: outcome, data, state and charge |
| MachineRuns.ChargeIsThreshold | core/vm.go:423-429 | the charge is the least sufficient limit: every limit from there on gives the same run, every smaller one ends out of gas |
| Machine.RunIs | core/vm.go:193-414 | any number of steps that reaches the end of a run reaches the same end |
| IdealMachine.AccessEndless | core/vm.go:123-154 | growing memory is invisible in the endless memory, and a range reads the same in both |
| IdealMachine.WriteWordEndless | core/vm.go:142-147 | storing the padded bytes of a word writes its 32 base-256 digits |
| IdealMachine.SstoreWords | core/vm.go:340-355 | writing the stripped bytes under the hashed key sets its word and disturbs none on whose spelling the hash does not collide with a key in use |
| IdealMachine.LoadAfterSstore | core/vm.go:325-355 | a write sets its word and those whose 32-byte spelling collides with its key's, and no other |
| IdealMachine.SstoreExact | core/vm.go:340-355 | in every state a write changes its word alone, if and only if the hash collides on its key with no other word |
| IdealMachine.SlotIs | core/vm.go:328-331 | the slot of a key is the SHA-256 of the 32-byte string that spells it |
| IdealMachine.SlotsExact | core/vm.go:328-331 | two keys share a slot if and only if they are equal or the hash collides on their 32-byte spellings |
| IdealMachine.StoredBytesShortest | core/vm.go:348-354 | an entry spells the stored word without leading zero byte, zero as one zero byte |
| IdealMachine.ArithIsMasked | core/vm.go:236-300 | each two-operand instruction is the mask of the unbounded result, with operands in pop order |
| IdealMachine.SimulatePush | core/vm.go:208-215 | PUSH does what the table says, out-of-bounds case included |
| IdealMachine.SimulateDup | core/vm.go:217-223 | DUP does what the table says, underflow included |
| IdealMachine.SimulateSwap | core/vm.go:225-231 | SWAP exchanges top and n-th and nothing else, underflow included |
| IdealMachine.SimulateBinary | core/vm.go:236-300 | arithmetic, comparison and bitwise instructions do what the table says, also on an empty stack |
| IdealMachine.SimulateIsZero | core/vm.go:284-290 | ISZERO does what the table says |
| IdealMachine.SimulateSha3 | core/vm.go:302-308 | SHA3 hashes the named range of the endless memory, or panics |
| IdealMachine.SimulateMload | core/vm.go:310-313 | MLOAD reads a word of the endless memory, or panics |
| IdealMachine.SimulateMstore | core/vm.go:315-318 | MSTORE writes a word of the endless memory, or panics |
| IdealMachine.SimulateMstore8 | core/vm.go:320-323 | MSTORE8 writes the low byte, or panics |
| IdealMachine.SimulateSload | core/vm.go:325-338 | SLOAD reads the total storage map, missing entries as zero |
| IdealMachine.SimulateSstore | core/vm.go:340-355 | SSTORE updates the total storage map at one word, on any clean state that represents the interpreter's |
| IdealMachine.SimulateCallData | core/vm.go:360-366 | CALLDATALOAD reads 32 bytes, zero past the end |
| IdealMachine.SimulateJump | core/vm.go:371-376 | JUMP goes to a JUMPDEST byte or fails |
| IdealMachine.SimulateJumpi | core/vm.go:378-386 | JUMPI jumps exactly when the condition is non-zero |
| IdealMachine.SimulateExit | core/vm.go:391-401 | RETURN and REVERT end with the named range of memory, or panic |
| IdealMachine.SimulatePlain | core/vm.go:403-409 | the remaining instructions, and every byte that is none, do what the table says |
| IdealMachine.SimulateOn | core/vm.go:207-410 | each instruction, on any clean state that represents the interpreter's, panics or does what the table says, if the keys in use do not clash |
| IdealMachine.SimulateStep | core/vm.go:193-414 | one turn of the loop, gas check and end of code included, panics or matches the clean machine |
| IdealMachine.RefinesFor | core/vm.go:193-414 | after any number of steps the interpreter has panicked or matches the clean machine, if the hash does not collide on two storage keys used |
| IdealMachine.RunRefines | core/vm.go:193-414 | a finished run that did not panic has the clean machine's outcome and charge, and its storage on every word that collides with no key used |
| IdealMachine.WholeStorage | core/vm.go:325-355 | where the hash does not collide on 32-byte strings, the whole storage is the clean machine's |
| IdealMachine.MemoryRoundTrip | core/vm.go:310-318 | MLOAD after MSTORE gives the stored word |
| Evm.Memory.Grow | core/vm.go:123-135 | grows as specified, or fails to allocate |
| Evm.Memory.Set | core/vm.go:137-140 | grows and writes, or panics |
| Evm.Memory.Set32 | core/vm.go:142-147 | writes the 32-byte form of a word |
| Evm.Memory.Get | core/vm.go:149-154 | grows and reads, or panics |
| Evm.Evm.Sload | core/vm.go:325-338 | the object's SLOAD is the specified step on the live world state |
| Evm.Evm.Sstore | core/vm.go:340-355 | the object's SSTORE is the specified step on the live world state, with a new slice |
| Evm.Evm.Execute | core/vm.go:207-410 | dispatch on the opcode is the specified instruction |
| Evm.Evm.Turn | core/vm.go:194-411 | one turn of the object's loop is the specified step |
| Evm.Evm.Run | core/vm.go:193-414 | after any number of turns, of runs that end and runs that do not, outcome, charge, stack, memory and world state are as the step function computes them |
| Contracts.ContractEffect | core/blockchain.go:133-150 | code runs as its transaction's payload without call data, on its target, with its value and limit; accepted, refused by the code, or refused because the payment after it failed, the target has the storage the clean machine computes, and other contracts theirs |
| Contracts.CodeSeesTransaction | core/blockchain.go:136-140 | code that keeps CALLVALUE leaves the transaction's value in its target's storage, paid or not; CALLDATASIZE is zero |
| Accounts.SumRemove | core/world_state.go:15-19 | the sum of balances may be taken in any order |
| Accounts.TransferMoves | core/world_state.go:100-130 | a transfer moves exactly its value, self-transfers included, keeps the sum and does not wrap |
| Accounts.TransferExact | core/world_state.go:100-130 | a transfer is refused exactly for no value, no sender, or too little |
| Accounts.AddBalanceMints | core/world_state.go:134-144 | a reward adds exactly its amount to one balance and to the sum |
| Accounts.OnlyStorageSupply | core/world_state.go:253-265 | writing contract storage leaves every balance, nonce and the sum alone |
| Accounts.CodeRoundTrip | core/world_state.go:165-190 | code set for an account is the code read from it |
| Accounts.CodeUntouched | core/world_state.go:48-58 | payments, rewards, nonces and entries leave all code alone, also on accounts they create |
| Accounts.StorageRoundTrip | core/world_state.go:253-282 | an entry written is the entry read, and every other entry, balance, nonce and code hash is as it was |
| WorldObjects.AccountRecord.DeepCopy | core/account.go:26-38 | a new record, field by field equal, on the same slices |
| WorldObjects.WorldState.GetOrCreateAccount | core/world_state.go:48-58 | the record at an address, created empty if missing |
| WorldObjects.WorldState.IncrementNonce | core/world_state.go:85-95 | the object's update is the specified one, at one address only |
| WorldObjects.WorldState.Transfer | core/world_state.go:100-130 | the object's update is the specified transfer, errors included |
| WorldObjects.WorldState.AddBalance | core/world_state.go:134-144 | the object's update is the specified one, at one address only |
| WorldObjects.WorldState.SetCode | core/world_state.go:165-178 | the object's update is the specified one, keeping the caller's slice |
| WorldObjects.WorldState.SetAccountState | core/world_state.go:253-265 | the object's update is the specified one, keeping the caller's slice |
| WorldObjects.WorldState.GetAccountState | core/world_state.go:267-282 | the stored bytes, or nothing for a missing account or key |
| WorldObjects.WorldState.Copy | core/world_state.go:230-244 | an equal state on new records |
| Isolation.Mutate | core/world_state.go:230-244 | any sequence of balance, nonce, code, storage operations and contract runs, finished or not, on one state leaves every observation of the other unchanged |
| Isolation.Speculate | core/world_state.go:230-244 | operations on a copy yield their result and leave the original as it was |
| Isolation.Snapshot | core/world_state.go:230-244 | operations on the original leave the copy as it was |
| StateRoot.Less | core/world_state.go:203-210 | the byte-by-byte comparison is the order of the numbers the addresses spell |
| StateRoot.Trichotomy | core/world_state.go:203-210 | any two different addresses are ordered one way |
| StateRoot.SortedUnique | core/world_state.go:198-210 | an address sequence in order is determined by its elements |
| StateRoot.RootUnique | core/world_state.go:194-226 | a state has one root |
| StateRoot.CombinedInjective | core/world_state.go:212-222 | for a prefix-free encoding the hashed bytes determine every address and account |
| StateRoot.RootCommits | core/world_state.go:194-226 | for a prefix-free encoding states with one root have equal accounts, or the hash collides |
| StateRoot.ComputeRoot | core/world_state.go:194-226 | whatever order the map yields its keys in, the result is that root |
| Blockchain.MemoryStore.Put | core/storage.go:35-50 | all three indexes are updated, each transaction in turn |
| Blockchain.Blockchain.constructor | core/blockchain.go:23-47 | an empty store gets genesis, any other with a free height has its headers loaded |
| Blockchain.Blockchain.LoadHeaders | core/blockchain.go:217-231 | the loop collects the headers of consecutive stored heights below the first free one |
| Blockchain.Blockchain.AddBlockWithoutValidation | core/blockchain.go:111-128 | header appended, weight added under proof of work, block stored |
| Blockchain.Blockchain.ValidateBlock | core/validator.go:22-52 | the checks in order, uint32 arithmetic included |
| Blockchain.Blockchain.GetHeader | core/blockchain.go:162-171 | the header at a height of the chain, or an error above it |
| Blockchain.Blockchain.GetBlock | core/blockchain.go:180-183 | the block of the chain at that height, and nothing above it |
| Blockchain.Blockchain.GetBlockByHash | core/blockchain.go:185-188 | the last block of the chain with that header hash |
| Blockchain.Blockchain.GetTxByHash | core/blockchain.go:190-193 | the last transaction of the chain with that data hash |
| Blockchain.Blockchain.ExecuteTransaction | core/blockchain.go:133-160 | contract, transfer, nonce, on the live state, with every error, panic and run that does not end; metered code returns |
| Blockchain.Blockchain.AddBlock | core/blockchain.go:72-102 | once it has returned, the object's update is the ledger's transition, partial effects of rejected blocks included; before that, the same with the contract run so far; a block of metered code returns |
| LedgerRuns.ValidateExact | core/validator.go:22-52 | a block passes exactly when it is next, links to the tip, satisfies the engine, is authentic, and a height is left |
| LedgerRuns.VerifiesExact | core/block.go:103-126 | a block verifies if and only if its signature verifies under its validator, every transaction's over its payload under its sender, and the data hash is that of its encodings in order |
| LedgerRuns.DataHashIs | core/block.go:143-156 | the data hash covers the encodings of the transactions, then of the evidence, in order |
| LedgerRuns.ValidateReasons | core/validator.go:22-52 | each error is given exactly for the first check that fails |
| LedgerRuns.IndexTxsFinds | core/storage.go:43-47 | indexing makes the map answer with the last transaction of a hash |
| LedgerRuns.AddBlockValid | core/blockchain.go:72-102 | every call keeps linking, heights and indexes, and extends the chain by exactly the accepted block |
| LedgerRuns.RunValid | core/blockchain.go:72-128 | after any run from an empty store, up to a call that does not come back: stored heights are 0 to the current one, headers link, both hash indexes answer as a scan of the chain, every block above genesis is authentic |
| LedgerRuns.HashFixesPast | core/validator.go:31-39 | chains with equal header hashes at one height agree on all headers up to it, or exhibit a collision |
| LedgerRuns.GetByHashFinds | core/storage.go:63-72 | a header's hash finds its block, or the chain exhibits a collision; a hash finds nothing exactly when no header has it |
| LedgerRuns.LoadEndsExact | core/blockchain.go:217-231 | the loading loop, its uint32 counter wrapping, ends if and only if some height is free, with the headers below the first free one |
| LedgerRuns.LoadFromMeans | core/blockchain.go:217-231 | the headers loaded are those of all stored heights below the first free one |
| LedgerRuns.OpenEmpty | core/blockchain.go:23-47 | opening an empty store is starting a new chain |
| LedgerRuns.ReopenRestores | core/blockchain.go:217-231 | loading the store of any run ends if and only if the chain is below the height limit, and then yields exactly the same headers, with an empty world and no difficulty |
| LedgerRuns.DifficultyGrows | core/blockchain.go:120-125 | while proof of work is set, whatever its target, total difficulty grows by exactly the weights of the blocks added |
| LedgerHistory.SettleMoves | core/blockchain.go:145-159 | a settled transaction moves its value and counts its sender's nonce; a refused one changes nothing |
| LedgerHistory.ExecuteTxMoves | core/blockchain.go:133-160 | a transaction that does not go through leaves every balance and nonce alone |
| LedgerHistory.ExecuteTxsMoves | core/blockchain.go:80-85 | a block's execution moves exactly what the transactions before the first failing one say |
| LedgerHistory.AddBlockAccounted | core/blockchain.go:72-102 | every call, rejected halfway or not, keeps the balance, nonce and supply accounts |
| LedgerHistory.RunAccounted | core/blockchain.go:72-128 | over every run each balance is five per block mined plus received minus sent, in integers, and each nonce the signed count modulo 2^64 |
| LedgerHistory.RunSupply | core/blockchain.go:98-101 | over every run the supply is five times the height and below 2^64 |
| LedgerHistory.AddBlockReplayed | core/blockchain.go:72-102 | from a replayed state the call comes back with the state still the replay if and only if it added its block or refused it with the world as it was; a valid block is added if and only if the longer chain replays |
| LedgerHistory.CompletedShows | core/blockchain.go:153-157 | one completed transaction always shows, in its sender's nonce |
| LedgerHistory.CleanExact | core/blockchain.go:72-102 | that can be told before the call: if and only if the block does not validate, all its transactions go through, or the first is refused without a trace |
| LedgerHistory.PaymentExact | core/blockchain.go:145-151 | a payment goes through if and only if its sender's balance covers it, and otherwise changes nothing and says why |
| LedgerHistory.PaymentsExact | core/blockchain.go:80-85 | payments go through exactly up to the first not covered by what its sender started with, received and sent before |
| LedgerHistory.PaymentBlockExact | core/blockchain.go:72-102 | a valid block of payments is added if and only if all are covered, and leaves a trace without being added if and only if the first is covered and a later one is not |
| LedgerHistory.RunReplayed | core/blockchain.go:72-102 | if every block was clean for the state it met, every call came back and the state is the replay of the chain at every moment |
| LedgerHistory.ReplayedExact | core/blockchain.go:72-102 | and only then |
| LedgerHistory.ReplayAccounted | core/blockchain.go:72-160 | the state any chain replays to accounts for exactly the transactions above genesis and five per block |
| LedgerHistory.CleanRunHistory | core/blockchain.go:72-160 | on such runs state, balances and nonces are functions of the chain alone |
| Network.AddOnChain | network/server.go:177-196 | a block of the producer's chain leaves a follower on that chain |
| Network.ReactSafe | network/server.go:177-414 | every handler keeps its node on the producer's chain and sends only blocks from it |
| Network.NextSafe | network/server.go:145-166 | every event keeps the system safe, nodes that stop included, and the producer's chain only grows |
| Network.PrefixSafety | network/server.go:177-414 | under any reordering, repetition and loss every node's chain is a prefix of the producer's |
| Network.ReactReplayed | network/server.go:177-414 | a node at the replay of its chain stays so on any message from a chain that replays, and comes back unless asked for the last block of a full chain |
| Network.FollowersAgree | network/server.go:177-414 | while the producer's chain replays, every other node is at the replay of its own chain, whatever became of the producer's state |
| Network.TraceAgreed | network/server.go:177-414 | if every event was clean for the state it met, every node is up and its state the replay of its chain at every moment |
| Network.NextAgreed | network/server.go:286-331 | from such a state one event keeps it so if and only if it is clean: a proposal as in CleanExact, a request not for the last block of a full chain |
| Network.AgreementExact | network/server.go:177-414 | every node is up with its state the replay of its chain throughout a run if and only if every event was clean |
| Network.StateAgreement | network/server.go:177-414 | nodes at one height hold the same headers; the same world state too, for nodes other than the producer while its chain replays, and for all if every event was clean |
| Network.RangeIs | network/server.go:383-389 | the answering loop collects exactly the contiguous range asked for |
| Network.CollectEndsExact | network/server.go:383-389 | the answering loop, its uint32 counter wrapping, ends if and only if its end is below the last height or some height is free |
| Network.AnswerExact | network/server.go:373-401 | on a chain it ends if and only if the last block wanted is below the top height, and then the answer is the specified one |
| Network.AnswerIs | network/server.go:373-401 | a request is answered with the chain from the height asked for up to the height asked for, or to the tip when that is zero or not below it |
| Network.StatusExact | network/server.go:333-354 | a status is answered if and only if it is higher, with a request for all above the own chain |
| Network.BatchExact | network/server.go:403-414 | a batch is worked off up to the first block not accepted and ends as that one does |
| Network.CatchUp | network/server.go:373-414 | one request for the missing blocks, with zero for all or up to a height, is answered with exactly those and all are accepted, whatever the peer's own state |
| Network.SyncExchange | network/server.go:333-414 | status, request and blocks leave a lagging node with the peer's chain as of the status and the state it replays to |
| NetworkProgress.TraceSealed | core/validator.go:41-46 | in every reachable state every header satisfies its node's engine |
| NetworkProgress.ScheduleRuns | network/server.go:333-414 | the five-event schedule does, in the running system and between any two nodes, what the exchange promises |
| NetworkProgress.Recovery | network/server.go:333-414 | in every reachable state in which the producer's chain replays, one request to any peer that is up, ahead and below 2^32 blocks and four deliveries bring any other node to that peer's chain and its replayed state and touch nothing else, if the node's engine accepts the peer's headers |
| NetworkProgress.ProducerServes | network/server.go:333-414 | after clean events the producer is up and its chain replays to its state; its headers satisfy every node whose engine asks no more than its own |
| NetworkProgress.GossipDelivers | network/server.go:177-196 | the next block is accepted on arrival and passed on to every peer |
| NetworkProgress.GossipFollows | network/server.go:177-196 | an accepted proposal is sent to every node, and a node level with the producer that receives it follows to the same chain and sends it on to every node |
| NetworkProgress.GossipRecovery | network/server.go:177-210 | in every reachable state in which the producer's chain replays, a block too far ahead from a peer that is up, the request it triggers and the answer bring the node to that peer's chain and its replayed state |
| NetworkProgress.GossipExact | network/server.go:177-196 | what is sent on receiving a block, in every case: forwarded if accepted, asked for if too far ahead, nothing otherwise |
| NetworkProgress.GossipOutOfStep | network/server.go:178-191 | a block too far ahead changes nothing and is answered with a request for all that is missing; an old one is dropped |
| NetworkProgress.StatesCanPart | core/blockchain.go:80-85 | for every host with an honest wallet, all engines, at any moment of a clean run: some proposal leaves the producer and any node at its height with the same headers and different world states |
| Returning.WatchedTx | core/blockchain.go:133-160 | a transaction watched until it returned did what it does, and longer watching shows the same |
| Returning.WatchedAdd | core/blockchain.go:72-102 | likewise for adding a block |
| Returning.WatchedAll | network/server.go:403-414 | likewise for a batch of blocks |
| Returning.HungExact | core/blockchain.go:72-102 | adding a block hangs if and only if no number of turns sees it return |
| Returning.MeteredReturns | core/blockchain.go:72-102 | a block of metered transactions returns in every state, within its largest gas limit plus one turns a run |
| Returning.MeteredAllReturn | network/server.go:403-414 | so does a batch of such blocks |
| Returning.TxReturnsExact | core/blockchain.go:133-143 | every verified transaction with a gas limit returns if and only if the limit is below 2^64-1 |
| Returning.BlockReturnsExact | core/blockchain.go:72-102 | on any chain with a height left, adding a block with given gas limits returns whatever the block if and only if all of them are below 2^64-1 |
| Returning.TxCrashesExact | core/blockchain.go:133-143 | no verified transaction with a gas limit crashes the node if and only if the limit pays for no instruction, or for one and a word of memory can be had |
| Returning.BlockCrashesExact | core/blockchain.go:72-102 | on any chain with a height left, adding a block with given gas limits crashes the node for no block if and only if all limits are such |
| Server.Server.ProcessTransaction | network/server.go:212-237 | the pool takes a transaction exactly as specified, and pending stays verified |
| Server.Server.BuildBlock | network/server.go:294-320 | the block extends the given header in every field, and is signed; under proof of work it has the configured difficulty and the least nonce that meets it, otherwise it claims none |
| Server.Server.CreateNewBlock | network/server.go:286-331 | a block so built passes every check of its chain, carries exactly the pending transactions, clears them and goes to every peer exactly when added, and hangs only on unmetered code |
| Server.Server.ProcessBlock | network/server.go:177-210 | once it has returned, the handler's effect and messages are the specified reaction; before that nothing is sent |
| Server.Server.ProcessStatus | network/server.go:333-354 | the handler's messages are the specified reaction |
| Server.Server.ProcessGetStatus | network/server.go:356-371 | answers with the own height, as specified |
| Server.Server.ProcessGetBlocks | network/server.go:373-401 | once the loop has ended, its answer is the specified reaction; before that nothing is sent |
| Server.Server.ProcessBlocks | network/server.go:403-414 | the loop adds blocks until one is not accepted or does not return; batches of metered code return |
| Mining.CalculateDataHash | core/block.go:143-156 | hashes the concatenated encodings of transactions, then evidence, in order |
| Mining.VerifyBlock | core/block.go:103-126 | accepts exactly blocks signed by their validator, with every transaction signed by its sender and a matching data hash |
| Mining.Draft.constructor | core/block.go:74-88 | the header extends the given one |
| Mining.Draft.Sign | core/block.go:94-102 | signs the header and records the key |
| Mining.PoWEngine.VerifyHeader | consensus/pow.go:49-64 | accepts exactly headers whose hash times 2^difficulty, as claimed, is at most 2^256 |
| Mining.WorkExact | consensus/pow.go:55-61 | comparing with the shifted target is comparing hash times 2^difficulty with 2^256 |
| Mining.DifficultyIsClaimed | consensus/pow.go:49-64 | the verdict does not depend on the configured target, and a header claiming difficulty 0 always passes |
| Mining.SignedBlockValidates | core/validator.go:22-52 | under every engine an honest wallet's signed block of verified transactions, claiming no difficulty, is valid |
| Mining.PoWEngine.Prepare | consensus/pow.go:70-74 | sets the difficulty and nothing else |
| Mining.PoWEngine.Seal | consensus/pow.go:77-104 | finds the least nonce that meets the target and changes nothing else; every failure means no nonce tried met it |
| Mining.ProducedBlockValidates | core/block.go:74-126 | a block built on the tip, sealed for its own difficulty and signed passes full validation |
| PoolSpec.PoolHistory | network/txpool.go:26-50 | after any run the pool is the last `max` submissions that were signed by their sender and had none of the last `max` payload hashes, in order, hashes distinct; pending is the first occurrences since the last clear, evicted or not |
| PoolSpec.TakesExact | network/server.go:212-237 | a submission is taken if and only if its sender signed its payload and none of the last `max` taken has its payload hash |
| PoolSpec.PoolVerified | network/server.go:212-237 | everything pooled or pending carries its sender's signature over its payload |
| PoolSpec.FirstOccurrencesDistinct | network/txpool.go:84-94 | pending has one transaction for each hash taken |
| TxPool.TxSortedMap.Add | network/txpool.go:84-94 | list and map stay in step; appended unless the hash is known; the old backing array keeps its contents |
| TxPool.TxSortedMap.Remove | network/txpool.go:96-102 | list and map stay in step without the transaction of that hash |
| TxPool.TxSortedMap.Count | network/txpool.go:104-109 | the map's size is the list's length |
| TxPool.SizesAgree | network/txpool.go:56-60 | distinct hashes make map and list equally large |
| TxPool.TxPool.Add | network/txpool.go:26-37 | the oldest leaves a full pool, then the newcomer enters pool and pending as specified |
| TxPool.TxPool.Submit | network/server.go:212-237 | only unknown, verified transactions are added |
| TxPool.Serve | network/txpool.go:43-50 | any later submissions and clears, whatever each append over-allocates, leave a slice returned by Pending with its contents |
| List.List.Insert | types/list.go:26-28 | appends, in place or in a new array, without touching what slices of the old one see |
| List.List.GetIndex | types/list.go:36-43 | the first index of a value, or -1 |
| List.List.Pop | types/list.go:53-55 | drops one element by shifting in place |
| List.List.Remove | types/list.go:45-51 | drops the first equal element, if any |
| ProofOfStake.PoSEngine.AddValidator | consensus/pos.go:32-37 | the engine's update is the specified one |
| ProofOfStake.PoSEngine.VerifyHeader | consensus/pos.go:39-72 | verdict and record are the specified ones; a refused header leaves no trace |
| ProofOfStake.PoSEngine.Slash | consensus/pos.go:74-91 | halves the stake and filters the active set, or does nothing for a stranger |
| ProofOfStake.PoSEngine.Prepare | consensus/pos.go:97-108 | fills in the proposer of the height, failing exactly when there are no validators; verification can refuse a prepared header only if the proposer already has another one recorded |
| StakeSpec.NoEquivocation | consensus/pos.go:39-72 | over any run two accepted headers of one height and coinbase have one hash |
| StakeSpec.OneHeaderPerHeight | consensus/pos.go:39-72 | with the same active set at both acceptances, one height has one header hash |
| StakeSpec.AcceptsExact | consensus/pos.go:39-72 | over any run a header is accepted if and only if its coinbase holds the slot of its height and every header accepted before with its height and coinbase had its hash |
| StakeSpec.ActiveIs | consensus/pos.go:32-37 | after any run the active set lists who joined and was not slashed since, in order of joining |
| StakeSpec.SlashedIsOut | consensus/pos.go:74-91 | from its slashing until it joins again an address is never chosen and none of its headers accepted |
| StakeSpec.WithoutIs | consensus/pos.go:83-89 | filtering removes every slot of the address and no other |
| StakeSpec.StakeAfterSlashes | consensus/pos.go:78-80 | after k slashes a stake is the floor of itself over 2^k |
| StakeSpec.StakeIs | consensus/pos.go:32-37 | a stake is the last deposit over 2^k, rounded down, after k slashes since |
| StakeSpec.Rotation | consensus/pos.go:126-134 | over as many consecutive heights as slots, the slots propose in order from the first height modulo their number, so proposers are exactly the multiset of the active set |
| ForkChoice.HeaviestIsTotalPreorder | consensus/fork_choice.go:36-49 | difficulty first, then height; total, transitive, tied only when equal |
| ForkChoice.ExtensionPreferred | consensus/fork_choice.go:36-49 | a chain loses to its own proper extension |
| ForkChoice.EqualDifficultyAgree | consensus/fork_choice.go:23-49 | when all blocks have one difficulty the heaviest rule is the longest rule |
| ForkChoice.TotalIsReported | core/blockchain.go:120-125 | the running total of a node under proof of work, whatever its targets, is the difficulty of its chain |

## Left out

- Blockchain.Blockchain.constructor: some height of the store must be free, since on a full one the loading loop never ends (`LoadEndsExact`); balances and total difficulty are not restored by reopening.
- TxPool.TxPool.constructor: a pool of size zero panics on its first transaction and is not built.
- Atomicity of blocks and contracts, replay protection by nonce, and delivery of every pooled transaction: the code does not provide them.
- Proof of stake inside `AddBlock`: adding a block under that engine panics when its weight is asked for, so the engine is modelled alone and evidence has no effect on the ledger.
- `NewBlockchainWithState` and prefunded genesis states; `SubBalance`, `CreateGenesisState`, `CheckSlashing`, `List.Contains`, `List.Last`.
- Interleavings inside one handler: `AddBlock` holds a lock and is one step; the gap between reading pending and clearing it is not modelled.
- Transaction and peer-discovery messages: they do not touch chains.
- `core/leveldb_storage.go`, transports, JSON-RPC, `main.go`, logging, gob and cryptography internals.
