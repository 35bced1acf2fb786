# Verification model of the reth execution extension examples

Dafny models of five of the execution extensions (ExExes), with proofs of what each is for.

* **Rollup** (`DecimalText`, `TextTip`, `Tables`, `Database`, `Undo`, `Blobs`, `Execution`, `Resubmission`,
  `BlockContents`, `ChainEvents`, `EventOrder`, `EventEffects`, `Rollup`, `ChainUndo`, `ChainInvariant`, `ExactUndo`, `StaleLogs`, `EventCycles`,
  `StoredCode`, `Reorg`, `CodeRunner`). A rollup derives its state from L1 events: blocks and
  deposits change six tables, undo logs are written beside the changes, and an L1 reorg must undo the newest events.
  `Database` is a class whose methods run the source's loops on a transaction's copy of the tables; each is proved
  against a function of `Tables`. `Undo` says exactly when reverting a block restores what was there before,
  `ChainUndo` exactly when reverting a whole chain does, `ChainInvariant` what every run keeps of the chain of stored
  blocks, and `ExactUndo` joins them: when a whole chain can be undone, from conditions on the submitted blocks.
  `StaleLogs` and `EventCycles` are about the rows that reverts leave behind, `Reorg` about replacing one chain by
  another, which needs that contract code stays known (`StoredCode`); `CodeRunner` is an example of an EVM.
* **Backfill** (`Backfill`, `BackfillJobs`). The message loop, the semaphore, the spawned tasks and the one-shot channels as one
  interleaved step relation over which invariants, cancel safety and progress are proved; the handlers are a class.
* **Oracle** (`Rlp`, `OracleMessages`, `Gossip`, `GossipNet`, `GossipAnswers`, `GossipHistory`, `WireLayout`). The RLP coding of the messages (Appendix B of the Ethereum Yellow
  Paper), the printer and parser, the polling loop of a connection, and two peers joined by channels.
* **Remote** (`LittleEndian`, `ExExTypes`, `Proto`, `RemoteCodec`, `RemoteRoundTrip`, `RemoteWire`,
  `RemoteReceived`, `RemoteSent`). The conversion of notifications to protocol messages and back, with hash maps listed
  in an arbitrary order; `RemoteWire` is the schema as a relation between the two, which both directions are proved against.
* **OP bridge** (`BridgeIndex`, `BridgeRows`). Two tables that must agree with the canonical chain.

Verify everything with `dafny verify dfyconfig.toml`.

## Assumptions and conventions

* Code that belongs to libraries is a parameter: the EVM, hashes, blob and transaction decoders, the base fee formula,
  signature recovery, event decoding. Of the EVM it is assumed only that the bundle of an executed block logs the state
  it was executed on (`Undo.ValidBundle`, and `ChainUndo.SoundNode` for a whole node): each listed account and slot
  carries its old value, and what is neither listed nor wiped is unchanged. Nothing is assumed of a wiped account's
  unlisted slots. Only `Reorg` assumes more, of what the EVM reads and of code (`Reorg.SoundReader`); `CodeRunner`
  shows that an EVM that runs stored code and writes storage meets it.
* Balances are 256-bit and wrap around, gas is 64-bit and wraps around. Block numbers are stored as decimal text and
  compared byte by byte, as the schema has it.
* A transaction is a method working on a copy of the tables: on an error nothing is changed. Text and JSON columns
  other than block numbers are modelled by the values they stand for.
* Rows that a query lists in no given order, and entries of a hash map, are taken in an arbitrary order.
* Restored storage is compared through reads, where an absent row is a zero. Over whole chains accounts are compared up
  to an empty account in place of none, which is what taking a deposit back leaves.
* `U256::try_from_le_slice` is taken to accept slices of at most 32 bytes and to refuse longer ones.

## What the code does that its description does not say

* The tip of the rollup is found by text order, so it is the newest block exactly for numbers 0..9, 90..99, 990..999 and
  so on (`TextTip.TipCheckAcceptsNewest`). With blocks 0..10 stored block 9 can be reverted and block 10 cannot
  (`ChainInvariant.ElevenBlocks`); which reverts keep the chain whole is `ChainInvariant.PrefixExactly`, and which chains
  can be undone `ExactUndo.SafeChainUndo`.
* A block that fails to execute is skipped when its chain is committed, but its revert is attempted when the chain is
  reverted. That fails or removes another block: exactly which is `ChainInvariant.FailedBlockRevert`, an instance
  `ChainInvariant.ForeignBlockTakesNine`.
* The storage of a wiped account is read for the undo log after the wipe and the new writes, so the undo of such a block
  is exact only if each of its slots survives that: exactly when is `Undo.WipedLogAgrees`, a run that loses storage
  `Undo.WipeLosesStorage`.
* Undo logs are never deleted, and a later block of the same number is undone with the rows it did not overwrite. One
  undo is exact exactly as `Undo.WipeFreeLogAgrees` says, that of a whole chain without deposits exactly as
  `EventCycles.EventCycleExactly` says. Whole chains of blocks put back and forth restore the state all the same
  (`EventCycles.EventCycles`), but not with deposits in between (`StaleLogs.StaleRowLosesDeposit`).
* The length check on blobs can be met although the requested hashes are not distinct or not all in the sidecar, exactly
  if a requested hash occurs twice in the sidecar (`Blobs.LengthCheckExactly`; an instance is `Blobs.RepeatedBlobFoolsLengthCheck`).
* An oracle command asks for the attestations of one id, but is answered by the next attestations message of any id, or
  never if another command comes first: exactly by which message is `GossipNet.CommandsAnswered`, and a run in which it
  is the wrong one `GossipNet.AnsweredWithWrongList`. While only one side asks, the asker can tell from its own tickers
  which id it is told about and whether that is the list it asked for (`GossipAnswers.AnswersAreAboutOwnTickers`,
  `GossipAnswers.AskedListExactlyByOwnTickers`); when both ask it cannot (`GossipAnswers.AskerCannotTell`).
* The remote decoder requires the chain id of an authorization to be 32 bytes, while its error message says 8
  (`RemoteRoundTrip.AuthorizationChainIdWidth`).

## Model

| member | source | states |
|---|---|---|
| DecimalText.ValueOfText | rollup/src/db.rs:193-199 | parsing the stored decimal text of a block number gives the number back, so the tip check compares the number of the row the query picked |
| DecimalText.TextIsInjective | rollup/src/db.rs:51-55 | no two block numbers share a row of the block table |
| DecimalText.EqualLengthOrder | rollup/src/db.rs:195 | texts of equal length sort as their numbers do |
| TextTip.TextMaxExists | rollup/src/db.rs:193-198 | over a non-empty block table the query `ORDER BY number DESC LIMIT 1` has an answer |
| TextTip.TextMaxUnique | rollup/src/db.rs:193-198 | that answer is unique: text order is total, so row ids do not matter |
| TextTip.EndsDecadeComputed | rollup/src/db.rs:195-202 | "n / 10 + 1 is some power of ten" is the same as "n / 10 + 1 is the power of ten one below the length of the text of n" |
| TextTip.NearlyNinesIsMax | rollup/src/db.rs:195 | a number whose text is nines up to its last digit sorts after every smaller number |
| TextTip.ShorterNinesAreMax | rollup/src/db.rs:195 | any other number has at least two digits, and the nines one digit shorter sort after it and after every smaller number |
| TextTip.TipQueryAnswer | rollup/src/db.rs:193-199 | with blocks 0..n stored the query answers n if its text is nines up to the last digit, and otherwise the largest number with one digit less |
| TextTip.TipCheckAcceptsNewest | rollup/src/db.rs:193-202 | with blocks 0..n stored the tip check accepts n if and only if n / 10 + 1 is a power of ten, for all n |
| Tables.AccountsLookup | rollup/src/db.rs:108-117 | after the account loop every address reads as the last change listed for it, and as before if none is |
| Tables.LoggedAccountLookup | rollup/src/db.rs:122-129 | after the account log loop a row reads as the last revert listed for this block and address; rows of other blocks, and rows not listed, are as before |
| Tables.AppliedSlotLookup | rollup/src/db.rs:131-142 | after the storage loops a slot holds its listed value (a zero as a row), is absent if its account was wiped and it is not listed, and is as before otherwise |
| Tables.LoggedSlotLookup | rollup/src/db.rs:147-171 | after the storage log loops a slot of a wiped account that is stored now is logged with its present value, over any listed value; then listed values; then older rows |
| Tables.RestoredLookups | rollup/src/db.rs:286-306 | what every account and slot lookup sees after a revert, for logged and for other rows; a zero old value leaves no row |
| Tables.CodeIsPermanent | rollup/src/db.rs:174-179 | exactly the listed hashes are added, and a hash already known keeps reading the same code |
| Tables.StoredTipIs | rollup/src/db.rs:193-199 | the tip number is the value of the greatest text |
| Database.ApplyAccountChanges | rollup/src/db.rs:108-117 | the loop writes exactly the listed changes, in order |
| Database.WriteAccountReverts | rollup/src/db.rs:122-129 | the loop logs exactly the listed old accounts, in order |
| Database.ApplyStorageChanges | rollup/src/db.rs:131-142 | the nested loops wipe and then write, account by account |
| Database.LogWipedSlots | rollup/src/db.rs:153-170 | all slot rows stored for the wiped account are logged, in whatever order the query lists them, and no other row changes |
| Database.WriteStorageRevert | rollup/src/db.rs:148-171 | one account: its listed slots, then what is stored for it if it was wiped |
| Database.WriteStorageReverts | rollup/src/db.rs:147-172 | the loop over the accounts of the storage log, reading the storage already written |
| Database.InsertContracts | rollup/src/db.rs:174-179 | the loop adds unknown hashes and leaves known ones |
| Database.CollectAccounts | rollup/src/db.rs:206-238 | the first loop collects, for exactly the accounts logged under the number, the logged and the present account |
| Database.CollectSlots | rollup/src/db.rs:258-283 | the second loop adds every logged slot with old and present value, in any order of the rows, and for accounts with no account row the present account as the old one |
| Database.RestoreAccount | rollup/src/db.rs:287-294 | the account reads as its old value, absent or present, and no other account changes |
| Database.RestoreSlots | rollup/src/db.rs:296-305 | each collected slot holds its old value, or no row if that is zero, and no other slot changes |
| Database.RestoreEntry | rollup/src/db.rs:286-306 | one address: its account and all its logged slots are restored and other addresses are left alone |
| Database.RestoreState | rollup/src/db.rs:285-306 | the write-back loop, in any order of the map, leaves exactly the restored account and storage tables |
| Database.LogFirstAccounts | rollup/src/db.rs:122-129 | the account reverts of the one block of a bundle are logged, if it has one |
| Database.LogFirstStorage | rollup/src/db.rs:147-172 | likewise the storage reverts |
| Database.RunInsert | rollup/src/db.rs:99-179 | the whole insert on the transaction's copy, with its three failures in order |
| Database.Database.constructor | rollup/src/db.rs:37-90 | six empty tables |
| Database.Database.Commit | rollup/src/db.rs:181 | committing a transaction makes its copy of the six tables the stored ones |
| Database.Database.InsertBlockWithBundle | rollup/src/db.rs:92-184 | all six tables change as the insert says, or an error is returned and none does |
| Database.Database.RevertTipBlock | rollup/src/db.rs:186-311 | after the tip check over text order, blocks, accounts and storage are restored from the log, the log itself staying; or an error is returned and nothing changes |
| Database.Database.Deposit | rollup/src/main.rs:152-156 | the balance grows modulo 2^256; an absent account is created empty first |
| Database.Database.RevertDeposit | rollup/src/main.rs:217-221 | the balance shrinks modulo 2^256; an absent account is an error |
| Undo.InsertedLookups | rollup/src/db.rs:101-142 | what a valid bundle leaves in the block, account and storage tables |
| Undo.InsertedLogs | rollup/src/db.rs:119-172 | what a valid bundle leaves in the two logs; rows of other block numbers stay |
| Undo.UndoneAccount | rollup/src/db.rs:224-294 | after insert and restore an account is as before, except where a leftover row of that number was not overwritten |
| Undo.UndoneSlot | rollup/src/db.rs:258-305 | after insert and restore a slot reads as before if and only if its log row agrees with the state before |
| Undo.OneBlockUndo | rollup/src/db.rs:93-311 | reverting the block just inserted succeeds iff the tip query answers its number, and then blocks, accounts and storage reads are as before the insert iff the log under that number agrees with the state before it |
| Undo.WipeFreeLogAgrees | rollup/src/db.rs:122-171 | for a bundle that wipes nothing, the log agrees iff every leftover row of that number not overwritten by the insert agrees with the state before |
| Undo.WipedLogAgrees | rollup/src/db.rs:131-171 | with no leftovers, the log agrees iff every slot of every wiped account survives being logged after the wipe and the new writes |
| Undo.FirstBlockLosesSlot | rollup/src/db.rs:153-157 | if a wiped slot does not survive, reverting the first block succeeds but does not restore the state |
| Undo.AcceptedRevertLosesSlot | rollup/src/db.rs:153-157 | if the revert of a block just inserted is accepted and a slot it wiped does not survive, the undo is not exact |
| Undo.WipedSlotReadsZero | rollup/src/db.rs:153-157 | a wiped slot that the bundle does not list reads zero after the revert |
| Undo.NextBlockIsTip | rollup/src/db.rs:193-202 | the block after blocks 0..n-1 can be reverted once inserted if n ends a decade |
| Undo.CreatedIsInserted | rollup/src/db.rs:93-184 | from the empty database, block 0 creates a contract and writes 5 to its slot 1 |
| Undo.WipeLosesStorage | rollup/src/db.rs:153-157 | a run from the empty database: block 0 creates a contract and writes 5 to its slot, block 1 destroys it, the revert of block 1 succeeds and the slot reads 0; both bundles are valid |
| Undo.InsertKeepsLogInStep | rollup/src/db.rs:122-171 | if the leftovers of a number agree with the state, so do all its rows after a wipe-free insert |
| Undo.CycleKeepsLogInStep | rollup/src/db.rs:204-306 | after insert and exact revert the rows of that number again agree with the state |
| Undo.ReplacementCycles | rollup/src/db.rs:93-311 | any number of insert and revert cycles of one number, each with its own block and wipe-free bundle, succeed and restore the state before the first |
| Blobs.SelectedCount | rollup/src/execution.rs:136-144 | the number of blobs taken is the number of sidecar entries whose hash is requested |
| Blobs.SelectedAtRank | rollup/src/execution.rs:136-144 | the blobs taken are the requested ones, in sidecar order |
| Blobs.LengthCheckExactly | rollup/src/execution.rs:133-147 | for every sidecar: if the check passes, the requested hashes are distinct and all in the sidecar iff no requested hash occurs twice in the sidecar; and if none does, the check passes iff they are distinct and all there |
| Blobs.WantedElements | rollup/src/execution.rs:136-144 | the sidecar hashes that are requested: how many, and which |
| Blobs.BlobLengthCheck | rollup/src/execution.rs:133-147 | if the sidecar's versioned hashes are distinct, the length check passes iff the requested hashes are distinct and all in the sidecar |
| Blobs.RepeatedBlobFoolsLengthCheck | rollup/src/execution.rs:136-147 | with a repeated blob the check passes although a requested hash is missing |
| Execution.KeepOwnTransactions | rollup/src/execution.rs:166-176 | the loop keeps the transactions of this chain, in order, and fails on the first that does not decode or, if it is for this chain, does not recover |
| Execution.ExecuteTransactions | rollup/src/execution.rs:181-249 | the loop with its accumulators computes what running the list from its head does, errors included; transitions are merged exactly when the list is not empty |
| Execution.OneMore | rollup/src/execution.rs:194-243 | one more transaction: refused iff its limit exceeds what is left, skipped iff invalid in the state reached, otherwise appended with its receipt and result |
| Execution.Replay | rollup/src/execution.rs:181-249 | running only the executed transactions again skips nothing and gives the same state, receipts and results |
| Execution.ExecutedInOrder | rollup/src/execution.rs:189-243 | executed transactions are a subsequence of the submitted ones, aligned one to one with receipts and results |
| Execution.GasAccounting | rollup/src/execution.rs:193-243 | if no transaction uses more than its limit, each receipt's cumulative gas is the exact prefix sum and at most the block limit |
| Execution.GasNeverUnderflows | rollup/src/execution.rs:195-198 | under the same assumption the subtraction of the available gas never wraps |
| Resubmission.KeptAreOwn | rollup/src/execution.rs:165-174 | everything kept is for this chain and has a recoverable sender |
| Resubmission.OwnAreKept | rollup/src/execution.rs:165-174 | decoding the encodings of such transactions keeps them all in order |
| Resubmission.StoredBodyDeterminesBlock | rollup/src/execution.rs:26-60 | submitting under the same header exactly the stored transactions executes to the same block, to the same bundle if it has transactions and to an idle one if it has none, and inserting it does the same |
| BlockContents.KeptExactly | rollup/src/execution.rs:165-174 | keeping transactions succeeds iff every item decodes and every transaction of this chain has a recoverable sender, and keeps exactly those of this chain, in order |
| BlockContents.DataExactly | rollup/src/execution.rs:100-147 | the raw transactions are the call data or, for a blob transaction, what the requested blobs of its sidecar join to, none missing |
| BlockContents.HeaderExactly | rollup/src/execution.rs:61-95 | a header is built iff the submitted numbers fit 64 bits and the parent is stored; it has the submitted number, gas limit and timestamp, the hash of the parent, and base fee 1000000000 for block 0 and what the parent gives otherwise |
| BlockContents.ExecutedExactly | rollup/src/execution.rs:26-60 | a submission executes to a block and a bundle iff it is for this rollup, the header is the one it stands for, its data has the announced hash and lists readable transactions, and running those of this chain gives the transactions of the block and the bundle |
| BlockContents.GasWithinSubmitted | rollup/src/execution.rs:181-249 | if no transaction uses more than its limit, the gas of an executed block is at most the submitted gas limit and its receipts add it up exactly |
| BlockContents.SubmissionCommitted | rollup/src/main.rs:90-136 | a submission that does not execute is skipped; one that does is stored under the submitted number beside all other blocks, unless the number is taken or its bundle logs several blocks, which are errors |
| BlockContents.SubmissionReverted | rollup/src/main.rs:182-201 | a reverted submission takes away the block of the submitted number iff the tip query answers it, and is an error otherwise |
| BlockContents.OtherwiseNothing | rollup/src/main.rs:90-163 | a submission whose input does not decode is an error both ways; other calls and other events change nothing |
| ChainEvents.DecodeAppend | rollup/src/main.rs:238-269 | the events of a chain are the events of its parts in order |
| EventOrder.DecodeInOrder | rollup/src/main.rs:238-269 | the events of a chain come in chain order, one for each log of a watched contract that decodes and whose receipt has a transaction, each with its block, transaction and log; and no others |
| EventOrder.DecodeExactly | rollup/src/main.rs:238-269 | an event is found iff some block has a transaction whose receipt has its log, from a watched contract, and the log decodes to it |
| EventEffects.RollupEventsInOrder | rollup/src/main.rs:238-269 | the rollup events of an L1 chain are what the logs of the rollup contract at its address decode to, in chain order and once each, with the transaction of the receipt |
| EventEffects.DepositCommitted | rollup/src/main.rs:137-162 | a deposit for another rollup or of a token changes nothing; any other adds its amount modulo 2^256 to the balance of its recipient alone, whose account is created empty if need be |
| EventEffects.DepositReverted | rollup/src/main.rs:202-226 | reverting a deposit for another rollup or of a token changes nothing; any other subtracts its amount modulo 2^256 from its recipient alone, or fails if there is no account |
| EventEffects.DepositsAddUp | rollup/src/main.rs:83-170 | over any list of events without submissions nothing fails, and each account ends with exactly all ETH deposited for it on this rollup added to its balance, modulo 2^256 |
| EventEffects.DepositsTakenBack | rollup/src/main.rs:176-235 | reverting such a list subtracts exactly as much, if the recipients have accounts |
| Rollup.Rollup.constructor | rollup/src/main.rs:56-59 | a new rollup has an empty database |
| Rollup.Rollup.CommitOne | rollup/src/main.rs:86-167 | one event changes the database as its kind says; a block that fails to execute changes nothing and is no error |
| Rollup.Rollup.RevertOne | rollup/src/main.rs:181-232 | one event is undone; every submitted block is reverted, executed or not |
| Rollup.Rollup.Commit | rollup/src/main.rs:83-170 | the loop commits event by event and stops at the first error, keeping what was done |
| Rollup.Rollup.Revert | rollup/src/main.rs:176-235 | the loop reverts the events newest first and stops at the first error |
| Rollup.Rollup.HandleNotification | rollup/src/main.rs:61-77 | the reverted chain is reverted before the committed chain is committed |
| ChainUndo.DepositUndone | rollup/src/main.rs:152-156 | taking a deposit back never fails and restores the balance exactly modulo 2^256, an absent account becoming an empty one |
| ChainUndo.AccountUndone | rollup/src/db.rs:224-294 | one account, undone from a state as good as the one its insert left |
| ChainUndo.SlotUndone | rollup/src/db.rs:258-305 | one slot, likewise |
| ChainUndo.BlockUndone | rollup/src/db.rs:204-306 | one block, undone from a state as good as the one its insert left: exact iff the log matches |
| ChainUndo.ExecutedBlockUndone | rollup/src/main.rs:184-192 | a submitted block that executed: its revert succeeds and restores iff the tip query answers its number and the log matches |
| ChainUndo.RevertTakesABlock | rollup/src/db.rs:200-204 | any successful revert removes a stored block, so reverting a block that never executed is never a no-op |
| ChainUndo.EventUndone | rollup/src/main.rs:181-232 | one event: reverting it restores the state before its commit iff the event is undoable there |
| ChainUndo.WholeChainUndo | rollup/src/main.rs:83-235 | for every list of events committed without an error, reverting them newest first restores the state before each of them iff every event was undoable where it was committed |
| ChainUndo.CommitThenRevert | rollup/src/main.rs:83-235 | in particular, commit then revert meets no error and restores blocks, storage reads and accounts up to absent becoming empty |
| ChainUndo.RollupEventsAppend | rollup/src/main.rs:240-269 | the rollup events of a chain are those of its parts |
| ChainUndo.CommitAllAppend | rollup/src/main.rs:86-167 | committing a chain is committing its parts one after the other |
| ChainUndo.ReorgUndoesSuffix | rollup/src/main.rs:61-77 | after a chain a + b has been committed, a notification reverting b leaves the state as good as if only a had been |
| StoredCode.SameCode | rollup/src/db.rs:445-458 | on tables with known code, accounts that match up to empty run the same code, whatever else either table holds |
| StoredCode.AccountRunsItsCode | rollup/src/db.rs:445-458 | on tables with known code an account runs the code its hash stands for |
| StoredCode.EmptyDatabaseIsKnown | rollup/src/db.rs:37-90 | the code of the empty database is known, so every run starts from known code |
| StoredCode.ContractsKnown | rollup/src/db.rs:174-179 | adding code listed under its own hash keeps all code stored under its own hash |
| StoredCode.InsertKeepsKnown | rollup/src/db.rs:93-184 | after an insert no account, stored or logged, lacks its code |
| StoredCode.RestoreKeepsKnown | rollup/src/db.rs:204-306 | accounts that a revert brings back still have their code |
| StoredCode.DepositKeepsKnown | rollup/src/main.rs:152-156 | a deposit, or taking one back, changes no code |
| StoredCode.CommitKeepsKnown | rollup/src/main.rs:86-167 | committing one event keeps code known |
| StoredCode.RevertKeepsKnown | rollup/src/main.rs:181-232 | reverting one event keeps code known |
| StoredCode.CommitAllKeepsKnown | rollup/src/main.rs:83-170 | committing any list of events, as far as it gets, keeps code known |
| StoredCode.RevertAllKeepsKnown | rollup/src/main.rs:176-235 | reverting any list of events, as far as it gets, keeps code known |
| StoredCode.NotifyKeepsKnown | rollup/src/main.rs:61-77 | so does any notification, failing or not |
| Reorg.InsertsMatch | rollup/src/db.rs:101-142 | bundles of the same effect inserted on matching states fail alike or leave matching states |
| Reorg.DepositsMatch | rollup/src/main.rs:152-156 | a deposit gives an absent and an empty account the same balance |
| Reorg.CommitsMatch | rollup/src/main.rs:86-167 | one event on matching states with known code: the same error or matching states |
| Reorg.CommitAllMatches | rollup/src/main.rs:83-170 | a list of events on matching states with known code stops at the same error and leaves matching states |
| Reorg.ReorgEqualsDirect | rollup/src/main.rs:61-77 | on tables with known code, as those of the empty database: after a + b, a notification that reverts b and commits c leaves the same error, blocks, storage reads and accounts up to empty as committing a + c from the start |
| StaleLogs.RestoredChainAccount | rollup/src/db.rs:224-294 | reverting blocks k + m - 1 down to k leaves each account as the lowest row logged in that range says, or as it is |
| StaleLogs.RestoredChainSlot | rollup/src/db.rs:258-305 | likewise each slot |
| StaleLogs.ChainAccount | rollup/src/db.rs:108-129 | after inserting a wipe-free chain from block k the lowest row of an account from k on, or without one the account, is as at the start |
| StaleLogs.ChainSlot | rollup/src/db.rs:131-171 | likewise a slot |
| StaleLogs.ChainReverts | rollup/src/db.rs:189-204 | with numbers that end decades, blocks k + m - 1 down to k can all be reverted and the blocks below k stay |
| StaleLogs.RevertsWhileReady | rollup/src/db.rs:189-204 | if every state on the way down accepts its revert and is left ready for the next, the whole list of reverts succeeds and restores |
| StaleLogs.CycleRestores | rollup/src/db.rs:93-311 | committing and reverting a whole wipe-free chain on blocks 0..k-1, over whatever rows are left, restores the state if the lowest rows from k on agree with it, and they agree again |
| StaleLogs.SuffixCycles | rollup/src/db.rs:93-311 | any number of whole chains, of any length and with different blocks, committed and reverted one after the other restore the state before the first |
| StaleLogs.UnloggedInStep | rollup/src/db.rs:122-171 | such a run can start wherever nothing is logged from number k on |
| StaleLogs.StaleRowLosesDeposit | rollup/src/db.rs:204-306 | a run from the empty database in which a row left by a reverted block 0 makes the revert of another block 0 remove an account with a deposit made in between |
| EventCycles.AccountCycle | rollup/src/db.rs:93-311 | after one cycle an account is as before iff the first leftover row its blocks meet before logging the account themselves says so |
| EventCycles.SlotCycle | rollup/src/db.rs:93-311 | likewise a slot |
| EventCycles.CycleExactly | rollup/src/db.rs:93-311 | inserting a wipe-free chain of blocks on 0..k-1 over any stale rows and reverting it succeeds, and restores blocks, accounts and storage reads iff the leftover rows it meets first agree with the state before it |
| EventCycles.CommitInsertsBlocks | rollup/src/main.rs:83-170 | committing events without deposits whose blocks execute inserts exactly those blocks |
| EventCycles.CleanBlocksFit | rollup/src/main.rs:86-167 | on blocks 0..k-1 those blocks are k, k + 1, ... and each logs the state it was executed on |
| EventCycles.RevertRevertsBlocks | rollup/src/main.rs:176-235 | reverting the events newest first reverts those blocks downwards |
| EventCycles.UndoneIsCycle | rollup/src/main.rs:83-235 | committing and reverting such events is one insert and revert cycle of their blocks |
| EventCycles.EventCycleExactly | rollup/src/main.rs:83-235 | on blocks 0..k-1 and with numbers that end decades, a chain without deposits whose blocks all executed and wiped nothing is reverted without an error over any stale rows, and blocks, accounts and storage reads are as before iff the leftover rows met first agree with the state before it |
| EventCycles.EventCycles | rollup/src/main.rs:61-77 | any number of such chains, each committed by one notification and reverted by the next: no revert fails and the state ends as before the first |
| ExactUndo.InsertKeepsLogsOfStored | rollup/src/db.rs:122-171 | an insert logs under its own number only |
| ExactUndo.CommitKeepsLogsOfStored | rollup/src/main.rs:83-170 | committing keeps the undo logs to stored blocks, until one is reverted |
| ExactUndo.FreshLogMatches | rollup/src/db.rs:119-171 | for a number never inserted before, the log matches iff every wiped slot survives |
| ExactUndo.UndoableExactly | rollup/src/main.rs:103-122 | one event on blocks 0..k-1, none reverted yet, is undoable iff its block executes without losing a wiped slot and its number ends a decade |
| ExactUndo.AllUndoableExactly | rollup/src/main.rs:83-170 | a chain of events on such a state is undoable iff every submitted block executes without losing a wiped slot and every submitted number ends a decade |
| ExactUndo.SafeChainUndo | rollup/src/main.rs:83-235 | a chain committed on blocks 0..k-1, none reverted yet, retraces every step when reverted iff every submitted block executed without losing a wiped slot and every submitted number ends a decade; then blocks, storage reads and accounts are as at the start |
| ExactUndo.ChainUndoExactly | rollup/src/main.rs:83-235 | with an EVM that wipes nothing, a chain committed on such a state retraces every step when reverted iff every submitted block executed and every submitted number ends a decade; then blocks, storage reads and accounts are as at the start |
| ExactUndo.EmptyDatabaseIsFresh | rollup/src/db.rs:37-90 | the empty database is such a state |
| ChainUndo.ExecutedNumber | rollup/src/execution.rs:70-89 | an executed block carries the number it was submitted under |
| ChainInvariant.PrefixIsNumberKeyed | rollup/src/db.rs:101-104 | such a chain keys its rows by decimal texts of numbers |
| ChainInvariant.InsertExtends | rollup/src/execution.rs:63-95 | a block that executes on blocks 0..k-1 is number k and names the hash of block k-1, so inserting it gives 0..k |
| ChainInvariant.CommitKeepsPrefix | rollup/src/main.rs:83-170 | committing any event leaves the stored numbers a prefix |
| ChainInvariant.RevertNewestShortens | rollup/src/db.rs:193-204 | a successful revert of the newest block shortens the prefix by one |
| ChainInvariant.RevertKeepsPrefix | rollup/src/main.rs:176-235 | a successful revert in last-in-first-out order leaves a prefix |
| ChainInvariant.ActKeepsPrefix | rollup/src/main.rs:61-77 | one action, failing or not, leaves a prefix |
| ChainInvariant.RunsKeepPrefix | rollup/src/main.rs:61-235 | over any run of commits and last-in-first-out reverts, whatever fails, exactly 0..k-1 are stored for some k and each names its stored predecessor's hash |
| ChainInvariant.EmptyDatabaseIsPrefix | rollup/src/db.rs:37-90 | runs start from such a state |
| ChainInvariant.AcceptedRevert | rollup/src/db.rs:193-204 | on blocks 0..k-1 exactly one number is accepted, and its revert leaves a prefix iff k-1 ends a decade; otherwise it takes a block out of the middle |
| ChainInvariant.AcceptedExactly | rollup/src/db.rs:193-202 | on blocks 0..k-1 a revert is accepted iff it names the number the tip query answers |
| ChainInvariant.ActPrefixExactly | rollup/src/main.rs:61-77 | one action leaves a linked prefix iff it does not revert a block away from the end of a decade |
| ChainInvariant.PrefixExactly | rollup/src/main.rs:61-235 | over any run of commits and reverts in any order, every state is a linked prefix iff the tip block is only ever reverted when the newest number ends a decade |
| ChainInvariant.ElevenBlocks | rollup/src/db.rs:193-202 | with blocks 0..10 stored, block 9 is accepted and block 10 is refused |
| ChainInvariant.FailedBlockRevert | rollup/src/main.rs:123-130 | a block that did not execute leaves nothing when committed; its revert succeeds iff the tip query answers its number, and then takes away the block stored under it |
| ChainInvariant.ForeignBlockTakesNine | rollup/src/main.rs:184-192 | with blocks 0..9 stored, reverting a submission for another chain under number 9 removes the real block 9 |
| ChainInvariant.TipConditionOfInserted | rollup/src/db.rs:193-202 | after an insert on a prefix the tip check accepts the new block iff its number divided by ten, plus one, is a power of ten |
| Backfill.BackfillExEx.constructor | backfill/src/main.rs:62-79 | all permits free, ids start at 0, no jobs |
| Backfill.BackfillExEx.StartBackfill | backfill/src/main.rs:145-170 | without a permit nothing changes; otherwise a permit is taken, the next id is used up, and its cancel sender is stored |
| Backfill.BackfillExEx.CancelBackfill | backfill/src/main.rs:173-183 | the sender is removed; unknown ids and dead receivers are errors; otherwise the request is sent |
| Backfill.BackfillExEx.HandleBackfillMessage | backfill/src/main.rs:120-138 | each message changes permits, next id and job map as its handler says |
| Backfill.PermitsKept | backfill/src/main.rs:145-150 | no step changes the sum of free permits and live tasks |
| Backfill.JobMapKept | backfill/src/main.rs:120-170 | every step keeps the job map equal to the uncancelled jobs still running or with a Finish queued |
| Backfill.FinishOnceKept | backfill/src/main.rs:199-205 | every step keeps at most one Finish per job, sent by a job that is done |
| Backfill.CancelsMatchedKept | backfill/src/main.rs:173-213 | every step keeps the pending wait and the job that must answer it together |
| Backfill.ProgressKept | backfill/src/main.rs:217-230 | every step keeps the blocks processed by a job a prefix of its range |
| Backfill.NeverClosed | backfill/src/main.rs:206-212 | a job is never stopped by its cancel sender being dropped unused |
| Backfill.StepKeepsInv | backfill/src/main.rs:82-215 | every step keeps all of the above |
| Backfill.RunKeepsInv | backfill/src/main.rs:82-215 | every run keeps them |
| Backfill.ReachableStates | backfill/src/main.rs:82-215 | in every reachable state free permits plus tasks equal the limit and the job map holds exactly the uncancelled jobs still running or with a Finish on its way, so a Finish removes no other job's entry |
| Backfill.RefusedExactlyWhenFull | backfill/src/main.rs:145-150 | a start is refused iff as many tasks are alive as the limit allows |
| Backfill.IdsNeverReused | backfill/src/main.rs:152-153 | over every run the ids given out are 0, 1, 2, ... |
| Backfill.ReplyMeansQuiet | backfill/src/main.rs:173-183 | whatever the answer to a cancellation, the job has left its select when it is given |
| Backfill.QuietRun | backfill/src/main.rs:198-213 | a job that has left its select never processes another block |
| Backfill.CancelSafety | backfill/src/main.rs:173-213 | after any answer to a cancellation of an issued job, no later step of any run processes one of its blocks |
| Backfill.NoStuckCancel | backfill/src/main.rs:178-213 | while the ExEx waits for an acknowledgement, a step of that job or the end of the wait is enabled |
| Backfill.WaitShrinks | backfill/src/main.rs:198-213 | each step of the awaited job settles the wait or brings it closer; other steps leave it |
| Backfill.WaitIsBounded | backfill/src/main.rs:178-213 | a wait outlasts only as many steps of the awaited job as it has blocks left, plus one |
| BackfillJobs.HandledInOrder | backfill/src/main.rs:84-95 | over every run the messages handled, followed by those queued, are the messages sent, in the order they were sent |
| BackfillJobs.StartHandled | backfill/src/main.rs:137-165 | if a permit is free a start gives the next id a job with exactly the requested blocks, all of them left, takes the permit and replies with the id; otherwise it only replies that the limit is reached |
| BackfillJobs.RangesAreAccepted | backfill/src/main.rs:137-165 | over every run the range of the j-th new job is the block list of the j-th accepted start |
| BackfillJobs.JobsDoWhatWasAsked | backfill/src/main.rs:137-232 | in every reachable state each job has processed a prefix of the blocks its start asked for and, while it selects, has the rest left |
| BackfillJobs.FinishedJob | backfill/src/main.rs:185-232 | a job that leaves its select of its own accord has processed, then and ever after, exactly the blocks its start asked for iff it had none left |
| BackfillJobs.CancelHandled | backfill/src/main.rs:168-179 | a cancellation is answered "not found" iff the job was never issued, was cancelled before or is known to be over, "failed" iff it is over and that is not known yet, and is otherwise sent to the job and waited for |
| BackfillJobs.WaitEnds | backfill/src/main.rs:174-179 | the end of the wait is answered as a success, however it came |
| BackfillJobs.AnsweredInOrder | backfill/src/main.rs:117-134 | over every run each request handled gets exactly one reply, of its kind and for its job, in order; only the one waited for has none yet |
| Rlp.DecodeInvertsEncode | oracle/src/network/proto/data.rs:6-12 | for every kind and value that fits, decoding the encoding followed by anything gives the value and what follows |
| Rlp.RecordInverse | oracle/src/network/proto/data.rs:6-12 | a record decodes field by field to what was encoded |
| Rlp.ListInverse | oracle/src/network/proto/mod.rs:82-84 | a list decodes item by item to what was encoded |
| Rlp.DecodedIsEncoding | oracle/src/network/proto/data.rs:6-12 | whatever decodes is the encoding of the value decoded, followed by the rest |
| Rlp.DecodeExactly | oracle/src/offchain_data/binance/ticker.rs:14-87 | decoding succeeds exactly on encodings of values of the kind |
| OracleMessages.Encoded | oracle/src/network/proto/mod.rs:76-90 | the id byte, then the payload if there is one |
| OracleMessages.ParseInvertsPrint | oracle/src/network/proto/mod.rs:76-120 | for every message and any trailing bytes, parsing the printed message gives it back |
| OracleMessages.ParsedIsPrinted | oracle/src/network/proto/mod.rs:92-120 | whatever parses starts with the print of the message it parses to |
| OracleMessages.ParseExactly | oracle/src/network/proto/mod.rs:92-120 | bytes parse to a message iff they start with its print |
| WireLayout.LastCountsMost | remote/src/codec.rs:121 | in a number on the wire of the remote protocol a byte counts 256 to the power of the number of bytes before it |
| WireLayout.FirstCountsMost | oracle/src/network/proto/data.rs:6-12 | in an RLP number a byte counts 256 to the power of the number of bytes after it |
| WireLayout.HeaderLayout | oracle/src/network/proto/mod.rs:76-90 | a length below 56 is one byte, base plus length; any other is its shortest big-endian form behind base plus 55 plus the length of that |
| WireLayout.StringLayout | oracle/src/network/proto/mod.rs:76-90 | a single byte below 128 stands for itself, any other string follows its length with base 128 |
| WireLayout.PartsLayout | oracle/src/network/proto/mod.rs:76-90 | records and lists are the encodings of their parts, in order, behind their length with base 192 |
| WireLayout.NumberLayout | oracle/src/network/proto/data.rs:6-12 | a number is the string of its shortest big-endian form |
| WireLayout.TextExactly | oracle/src/offchain_data/binance/ticker.rs:14-87 | bytes are text iff they are the UTF-8 encoding of some sequence of Unicode scalar values |
| WireLayout.TickerLayout | oracle/src/network/proto/data.rs:6-12 | a signed ticker is the byte 2 and a record of the ticker, the signature, the 20-byte signer and the 32-byte id |
| WireLayout.OtherLayouts | oracle/src/network/proto/mod.rs:76-90 | a ping is the byte 0, a pong the byte 1, and attestations the byte 3 and a list of 20-byte addresses |
| Gossip.OracleConnection.constructor | oracle/src/network/proto/connection.rs:29-43 | only an outgoing connection has a first ping to send |
| Gossip.OracleConnection.PollNext | oracle/src/network/proto/connection.rs:48-114 | the loop handles frames until there is something to send, nothing to read, or the connection ends, changing ping, commands, attestations and pending answer as it goes |
| Gossip.PollRecords | oracle/src/network/proto/connection.rs:87-104 | whatever arrives, the attestations under each id are exactly the ordered signers of the handled tickers that carry it and recover to the claimed signer |
| Gossip.SettledStays | oracle/src/network/proto/connection.rs:56-61 | an answer is final, and a command overwritten unanswered is never answered, whatever is taken and handled later |
| Gossip.PollAnswers | oracle/src/network/proto/connection.rs:56-86 | whatever arrives, each command is answered by the first attestations message handled between it and the next command, whatever id that is for, and by none if there is none |
| Gossip.SignersOfOne | oracle/src/oracle.rs:98-99 | if all tickers claim one signer, a list is that signer as often as they attested |
| Gossip.PollBalances | oracle/src/network/proto/connection.rs:77-112 | every handled message uses up one unit of weight: a poll balances the account with its reply, one unit short iff it ends the connection |
| Gossip.PollInOrder | oracle/src/network/proto/connection.rs:71-75 | frames are handled in the order they arrived, none lost but one that does not parse and ends the connection |
| Gossip.PollEnds | oracle/src/network/proto/connection.rs:89-97 | a poll over parsed frames ends the connection iff it handles a ticker whose signature does not parse or recover |
| Gossip.PollSendsList | oracle/src/network/proto/connection.rs:56-111 | an attestations message carries the sender's list, when it is sent, for the id of the command taken or the ticker handled |
| Gossip.PollSendsTicks | oracle/src/network/proto/connection.rs:63-69 | broadcast tickers go out once, in order, and nothing else becomes a ticker |
| GossipNet.PollOneKeepsInv | oracle/src/network/proto/connection.rs:48-114 | one poll of either peer keeps the invariant of both and the total weight |
| GossipNet.RunKeepsInv | oracle/src/network/proto/connection.rs:48-114 | every run keeps the invariant |
| GossipNet.GossipExactly | oracle/src/network/proto/connection.rs:48-114 | in every run, whatever is broadcast: a peer lists under each id exactly the ordered signers of the attesting tickers the other sent, as far as handled; it stops iff it handled a ticker it cannot answer; messages handled, weight outstanding and connections lost add up to the weight put in, which bounds the messages sent |
| GossipNet.HonestGossip | oracle/src/network/proto/connection.rs:94-104 | if every broadcast tick is signed by the address it claims, both ends stay open and no weight is lost |
| GossipNet.CommandsAnswered | oracle/src/network/proto/connection.rs:56-86 | in every run a command is answered by the first attestations message of the other peer handled while it is pending, or not at all, and that carries the other's list for the id it was sent about |
| GossipAnswers.PollPairs | oracle/src/network/proto/connection.rs:77-111 | a poll of a peer that is not asked sends a list exactly for the one ticker it handles |
| GossipAnswers.RunKeepsPairs | oracle/src/network/proto/connection.rs:48-114 | over every run the i-th list a never asked peer sends is about the i-th ticker it handled, with that many handled |
| GossipAnswers.AnswersAreAboutOwnTickers | oracle/src/network/proto/connection.rs:56-86 | in every run in which one side only is asked, an answered command is answered about the asker's own ticker m, where m is the number of lists the asker had received when it took the command, and the other peer had handled exactly the tickers up to it |
| GossipAnswers.HonestCount | oracle/src/network/proto/connection.rs:99-104 | honest tickers attest as often as they are handled |
| GossipAnswers.AskedListExactlyByOwnTickers | oracle/src/network/proto/connection.rs:56-111 | in every such run with honest ticks under one key, the answer is the list asked for iff ticker m's id occurs among the asker's first m + 1 tickers as often as the asked id does |
| GossipAnswers.AskerCannotTell | oracle/src/network/proto/connection.rs:56-61 | when both sides ask there is no such condition: two runs that are the same up to the pending command and in all that the asker does, with the asked list in one answer and an empty list in the other |
| GossipNet.AnswersAreFinal | oracle/src/network/proto/connection.rs:56-61 | in every continuation of every run an answered command keeps its one answer and an overwritten one never gets any |
| GossipHistory.ListsSignersExactly | oracle/src/network/proto/connection.rs:87-111 | in every run an address is listed under an id iff the other peer sent, among the messages handled, a ticker under that id which the address claims and whose signature over the encoded ticker recovers to it; and the connection polls on iff every ticker handled recovers to somebody |
| GossipHistory.OneMoreAttests | oracle/src/network/proto/connection.rs:100-104 | each such ticker adds its signer once, at the end of the list, and no other message adds anything |
| GossipHistory.TickersInOrder | oracle/src/network/proto/connection.rs:63-69 | over every run the tickers sent and still queued are those broadcast, in order |
| GossipHistory.CommandsInOrder | oracle/src/network/proto/connection.rs:56-61 | over every run the commands taken and still queued are those given, in order |
| GossipHistory.OnlyCallerGreets | oracle/src/network/proto/connection.rs:51-53 | in every run only the side that opened the connection sends a ping, once and first |
| GossipNet.AnsweredWithWrongList | oracle/src/network/proto/connection.rs:56-86 | a run in which a command for an id nobody attested is answered with the attestation of another ticker |
| Gossip.HonestTickerIsAttested | oracle/src/network/proto/connection.rs:87-111 | an honestly signed ticker, printed, sent and parsed, is attested under the hash of its own encoding and answered |
| LittleEndian.FromInvertsTo | remote/src/codec.rs:121 | reading a number written at any fixed width gives it back |
| LittleEndian.ToInvertsFrom | remote/src/codec.rs:654-655 | at a fixed width no two byte strings stand for one number |
| RemoteCodec.Collect | remote/src/codec.rs:502 | a list decodes iff every element does, element by element in order |
| RemoteRoundTrip.WideningPads | remote/src/codec.rs:603-604 | a number that came in fewer bytes is encoded again with zeros appended |
| RemoteRoundTrip.U256Back | remote/src/codec.rs:603-604 | 256-bit numbers come back |
| RemoteRoundTrip.U128Back | remote/src/codec.rs:654 | 128-bit numbers come back |
| RemoteRoundTrip.U64Back | remote/src/codec.rs:655 | gas limits come back |
| RemoteRoundTrip.KindBack | remote/src/codec.rs:821-832 | a creation or call target comes back |
| RemoteRoundTrip.AccessItemBack | remote/src/codec.rs:834-847 | an access list item comes back |
| RemoteRoundTrip.InfoBack | remote/src/codec.rs:849-862 | account information comes back without its account id |
| RemoteRoundTrip.StatusBack | remote/src/codec.rs:886-905 | each of the eight account statuses comes back |
| RemoteRoundTrip.SlotBack | remote/src/codec.rs:916-934 | a storage slot comes back with key, previous and present value |
| RemoteRoundTrip.InfoRevertBack | remote/src/codec.rs:949-968 | each kind of account revert comes back |
| RemoteRoundTrip.SlotRevertBack | remote/src/codec.rs:969-988 | a slot revert comes back, a value or "destroyed" |
| RemoteRoundTrip.LogBack | remote/src/codec.rs:1022-1037 | a log comes back |
| RemoteRoundTrip.HeaderBack | remote/src/codec.rs:586-623 | a header comes back without its requests hash |
| RemoteRoundTrip.AuthorizationBack | remote/src/codec.rs:777-814 | a signed authorization comes back, its parity as a byte |
| RemoteRoundTrip.AuthorizationChainIdWidth | remote/src/codec.rs:792-798 | an authorization decodes only with a chain id of 32 bytes, never with one of 8 |
| RemoteRoundTrip.TransactionBack | remote/src/codec.rs:625-819 | a transaction of any of the five types comes back exactly, hash and signature included |
| RemoteRoundTrip.BlockBack | remote/src/codec.rs:555-584 | a block comes back without withdrawals and requests hashes |
| RemoteRoundTrip.BytecodeBack | remote/src/codec.rs:864-884 | bytecode comes back; of a delegation only the address is read |
| RemoteRoundTrip.AccountBack | remote/src/codec.rs:907-940 | a bundle account comes back without account ids, in whatever order its slots are listed |
| RemoteRoundTrip.RevertBack | remote/src/codec.rs:942-995 | an account revert comes back without its account id, in whatever order its slots are listed |
| RemoteRoundTrip.ReceiptBack | remote/src/codec.rs:997-1041 | a receipt comes back exactly |
| RemoteRoundTrip.EntriesRebuild | remote/src/codec.rs:503-517 | collecting all entries of a map, listed in any order, gives the map |
| RemoteRoundTrip.BundleBack | remote/src/codec.rs:503-535 | a bundle comes back without account ids, whatever the order of its maps |
| RemoteRoundTrip.ChainBack | remote/src/codec.rs:494-553 | a chain comes back without requests and trie data, its blocks filed under their numbers |
| RemoteRoundTrip.RoundTrip | remote/src/codec.rs:7-492 | for every notification and every order of listing its maps, decoding its encoding succeeds and loses only withdrawals, requests, requests hashes, trie data and account ids |
| RemoteRoundTrip.SameMessageSameContent | remote/src/codec.rs:7-32 | two notifications with one encoding differ in those fields only |
| RemoteRoundTrip.SomeOrderWalks | remote/src/codec.rs:68-104 | every chain has such an order |
| RemoteRoundTrip.DecodedIsErased | remote/src/codec.rs:468-492 | what decodes has nothing of those fields, and its blocks are filed under their numbers |
| RemoteRoundTrip.ReencodingIsStable | remote/src/codec.rs:468-1041 | whenever a message decodes, encoding the result in any order decodes to the same notification |
| RemoteReceived.HeaderReceived | remote/src/codec.rs:586-623 | a header decodes iff every field of the message says what the header has there, widths included, and the header has no requests hash |
| RemoteReceived.BodyReceived | remote/src/codec.rs:636-819 | likewise a transaction body of each of the five types |
| RemoteReceived.BlockReceived | remote/src/codec.rs:555-584 | likewise a block, its transactions, ommers and senders in order |
| RemoteReceived.CodeReceived | remote/src/codec.rs:864-884 | likewise code; of a delegation the address alone counts |
| RemoteReceived.ToMapExactly | remote/src/codec.rs:503-517 | collecting pairs gives the one map they make, the last pair counting for a key |
| RemoteReceived.AccountReceived | remote/src/codec.rs:907-940 | likewise a bundle account, its slots making up its storage |
| RemoteReceived.RevertReceived | remote/src/codec.rs:942-995 | likewise an account revert |
| RemoteReceived.ReceiptReceived | remote/src/codec.rs:997-1041 | likewise a receipt and its logs; an empty receipt never decodes |
| RemoteReceived.BundleReceived | remote/src/codec.rs:503-535 | likewise a bundle |
| RemoteReceived.ChainReceived | remote/src/codec.rs:494-553 | likewise a chain, its blocks making up a map by their numbers |
| RemoteReceived.DecodesExactly | remote/src/codec.rs:468-1041 | a message decodes to a notification iff every field of it says what the notification has there and the notification has nothing that the message has no place for |
| RemoteSent.HeaderSent | remote/src/codec.rs:110-135 | every field of a header is sent under its own name, numbers in full width |
| RemoteSent.BodySent | remote/src/codec.rs:145-278 | likewise a transaction body of each of the five types |
| RemoteSent.BlockSent | remote/src/codec.rs:41-66 | likewise a block |
| RemoteSent.DesignatorSent | remote/src/codec.rs:353-360 | a delegation is sent as its address, version 0 and the 23 bytes 0xef, 0x01, 0x00 and the address |
| RemoteSent.CodeSent | remote/src/codec.rs:339-364 | code is sent as it is, a delegation with its full designator |
| RemoteSent.AccountSent | remote/src/codec.rs:302-337 | a bundle account is sent field by field, each slot once, in whatever order |
| RemoteSent.RevertSent | remote/src/codec.rs:387-429 | likewise an account revert |
| RemoteSent.BundleSent | remote/src/codec.rs:68-104 | likewise a bundle, each account and each code once |
| RemoteSent.SentCarries | remote/src/codec.rs:7-466 | every message sent says in every field what its notification has there, designators of all delegations included, in whatever order the maps are walked |
| BridgeIndex.BridgeExEx.constructor | op-bridge/src/main.rs:42-71 | two empty tables |
| BridgeIndex.BridgeExEx.RevertChain | op-bridge/src/main.rs:115-145 | the loop deletes the row of every bridge event of the chain |
| BridgeIndex.BridgeExEx.CommitChain | op-bridge/src/main.rs:147-206 | the loop inserts the row of every bridge event until a UNIQUE violation |
| BridgeIndex.BridgeExEx.HandleNotification | op-bridge/src/main.rs:113-212 | deletes for the old chain come before inserts for the new one |
| BridgeIndex.InsertExactly | op-bridge/src/main.rs:147-206 | no insert fails iff no transaction occurs twice in a table, and then both tables hold exactly the rows |
| BridgeIndex.DeletedLookup | op-bridge/src/main.rs:115-145 | deleting removes exactly the rows with a listed kind and transaction |
| BridgeIndex.DeleteUndoes | op-bridge/src/main.rs:115-145 | deleting the rows of a suffix leaves the index of what is before it |
| BridgeIndex.EntriesAppend | op-bridge/src/main.rs:219-248 | the rows of a chain are the rows of its parts in order |
| BridgeIndex.NotifyFollowsChain | op-bridge/src/main.rs:113-212 | one notification: no insert fails iff the new canonical chain bridges at most once per transaction and kind, and then the index agrees with it |
| BridgeIndex.IndexFollowsChain | op-bridge/src/main.rs:113-215 | over any run of commits, reorgs and reverts of suffixes, no insert fails iff every canonical chain on the way bridges at most once per transaction and kind, and then both tables hold exactly the rows decoded from the canonical chain |
| BridgeRows.RowsExactly | op-bridge/src/main.rs:147-248 | a chain has a row iff a log of one of its receipts, from a bridge, decodes to a deposit or withdrawal with the sender, recipient and amount of the row, in the transaction, block and contract of the row |
| BridgeRows.OnceExactly | op-bridge/src/main.rs:147-206 | the rows of a chain meet the UNIQUE constraints iff no transaction has two logs that bridge in one direction |
| BridgeRows.TablesFollowLogs | op-bridge/src/main.rs:113-248 | over any run from an empty index no insert fails iff on every canonical chain on the way no transaction bridges twice in one direction; and then each table has a row iff a log of the canonical chain bridges it, in for deposits and out for withdrawals |

## Left out

- SQLite, connections and locking, row ids and serde: tables are maps keyed as the UNIQUE constraints key them.
- The `reverts` map that `revert_tip_block` fills and never reads.
- `block_hash` of the rollup database: it queries a column the schema does not have.
- The EVM itself, keccak, KZG commitments, blob decoding, signature recovery and the base fee formula: parameters.
- Where blobs come from (transaction pool or Blobscan, and the refusal of an EIP-7594 sidecar): a submission carries its sidecar or none.
- Sender recovery of a finished block: the senders were recovered when the transactions were decoded.
- Reorg.ReorgEqualsDirect: assumes of the EVM that it sees the tables only through blocks, storage reads, accounts and the code these have, and does not tell an empty account from none, as EIP-161 has it (`Reorg.SeesCodedView`); and that a bundle lists code under its own hash and writes no account whose code is neither stored nor listed (`StoredCode.CodedNode`).
- Wrap-around of the 64-bit backfill job id, which needs 2^64 jobs: ids are natural numbers.
- Backfill.BackfillExEx.CancelBackfill: the wait for the acknowledgement is a state of the step relation, not of the method.
- Backfill.BackfillExEx.HandleBackfillMessage: for a cancellation, likewise; the step relation handles messages by the same function `Handle` and adds the wait.
- Notifications handled by the backfill ExEx, and the backfill started from command line arguments, which has no id, permit or cancellation.
- A backfill job that stops early on an error is the step `End` with blocks left; the error itself is only logged by the source.
- Oracle tickers are values of the declared record kind rather than a record with named fields; text is checked to be UTF-8.
- Lagging broadcast channels, closed command channels and waking of polled tasks in the oracle connection.
- GossipNet.GossipExactly: the two-peer runs carry messages, not bytes; that bytes make no difference is `OracleMessages.ParseExactly`.
- The library constructors for analysed bytecode refuse impossible lengths by panicking; here bytecode is the four values it is read as.
- Protobuf wire bytes and the gRPC server and client.
- Sizes of the remote bundle are 64-bit on both sides.
- The oracle's price feed, discovery, the in-memory-state ExEx, the minimal examples, RPC glue, logging and finished-height events: input and output plumbing.
- The `contracts` table of the OP bridge, which is filled once and never changes.
