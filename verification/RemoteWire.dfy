/** What each field of a remote message says about a notification, as a relation that names both sides of every field. */
module RemoteWire {
  import opened Prelude
  import opened ExExTypes
  import LE = LittleEndian
  import P = Proto

  /**
   The relation from the sender's side and from the receiver's. A sender spells numbers and
   designators in full; for a receiver what has no place in the message is empty.
   */
  datatype Side = Sent | Received

  // ----- numbers, transactions, headers

  ghost predicate Number(side: Side, b: Bytes, n: U256) {
    (if side.Sent? then |b| == 32 else |b| <= 32) && LE.FromBytes(b) == n
  }

  predicate NumberOf(width: nat, b: Bytes, n: nat) {
    |b| == width && LE.FromBytes(b) == n
  }

  ghost predicate HeaderCarries(side: Side, w: P.Header, h: Header) {
    && w.parentHash == h.parentHash && w.ommersHash == h.ommersHash && w.beneficiary == h.beneficiary
    && w.stateRoot == h.stateRoot && w.transactionsRoot == h.transactionsRoot && w.receiptsRoot == h.receiptsRoot
    && w.withdrawalsRoot == h.withdrawalsRoot && w.logsBloom == h.logsBloom
    && Number(side, w.difficulty, h.difficulty)
    && w.number == h.number && w.gasLimit == h.gasLimit && w.gasUsed == h.gasUsed && w.timestamp == h.timestamp
    && w.mixHash == h.mixHash && w.nonce == h.nonce
    && w.baseFeePerGas == h.baseFeePerGas && w.blobGasUsed == h.blobGasUsed && w.excessBlobGas == h.excessBlobGas
    && w.parentBeaconBlockRoot == h.parentBeaconBlockRoot && w.extraData == h.extraData
    && (side.Received? ==> h.requestsHash == None)
  }

  ghost predicate SignatureCarries(side: Side, w: P.Signature, s: Signature) {
    Number(side, w.r, s.r) && Number(side, w.s, s.s) && w.yParity == if s.odd then 1 else 0
  }

  predicate KindCarries(w: Option<P.TxKind>, k: TxKind) {
    && w.Some? && w.value.kind.Some?
    && match w.value.kind.value
       case Create => k == Create
       case Call(address) => k.Call? && address == k.address
  }

  predicate AccessListCarries(w: seq<P.AccessListItem>, items: seq<AccessListItem>) {
    |w| == |items| && forall i :: 0 <= i < |w| ==> AccessItemCarries(w[i], items[i])
  }

  predicate AccessItemCarries(w: P.AccessListItem, item: AccessListItem) {
    w.address == item.address && w.storageKeys == item.storageKeys
  }

  /** The parity is sent as it is, and received by its low byte. */
  ghost predicate AuthorizationCarries(side: Side, w: P.AuthorizationListItem, a: SignedAuthorization) {
    && w.authorization.Some? && w.signature.Some?
    && NumberOf(32, w.authorization.value.chainId, a.chainId)
    && w.authorization.value.address == a.address && w.authorization.value.nonce == a.nonce
    && Number(side, w.signature.value.r, a.r) && Number(side, w.signature.value.s, a.s)
    && (if side.Sent? then w.signature.value.yParity == a.parity else w.signature.value.yParity % 256 == a.parity)
  }

  ghost predicate AuthorizationsCarry(side: Side, w: seq<P.AuthorizationListItem>, auths: seq<SignedAuthorization>) {
    |w| == |auths| && forall i :: 0 <= i < |w| ==> AuthorizationCarries(side, w[i], auths[i])
  }

  ghost predicate LegacyCarries(side: Side, w: P.TransactionBody, t: TransactionBody) {
    && w.Legacy? && t.Legacy?
    && w.chainId == t.chainId && w.nonce == t.nonce
    && NumberOf(16, w.gasPrice, t.gasPrice) && NumberOf(8, w.gasLimit, t.gasLimit)
    && KindCarries(w.to, t.to) && Number(side, w.value, t.value) && w.input == t.input
  }

  ghost predicate Eip2930Carries(side: Side, w: P.TransactionBody, t: TransactionBody) {
    && w.Eip2930? && t.Eip2930?
    && w.chain == t.chain && w.nonce == t.nonce
    && NumberOf(16, w.gasPrice, t.gasPrice) && NumberOf(8, w.gasLimit, t.gasLimit)
    && KindCarries(w.to, t.to) && Number(side, w.value, t.value) && w.input == t.input
    && AccessListCarries(w.accessList, t.accessList)
  }

  ghost predicate Eip1559Carries(side: Side, w: P.TransactionBody, t: TransactionBody) {
    && w.Eip1559? && t.Eip1559?
    && w.chain == t.chain && w.nonce == t.nonce && NumberOf(8, w.gasLimit, t.gasLimit)
    && NumberOf(16, w.maxFee, t.maxFee) && NumberOf(16, w.maxPriorityFee, t.maxPriorityFee)
    && KindCarries(w.to, t.to) && Number(side, w.value, t.value) && w.input == t.input
    && AccessListCarries(w.accessList, t.accessList)
  }

  ghost predicate Eip4844Carries(side: Side, w: P.TransactionBody, t: TransactionBody) {
    && w.Eip4844? && t.Eip4844?
    && w.chain == t.chain && w.nonce == t.nonce && NumberOf(8, w.gasLimit, t.gasLimit)
    && NumberOf(16, w.maxFee, t.maxFee) && NumberOf(16, w.maxPriorityFee, t.maxPriorityFee)
    && w.receiver == t.receiver && Number(side, w.value, t.value) && w.input == t.input
    && AccessListCarries(w.accessList, t.accessList)
    && w.blobHashes == t.blobHashes && NumberOf(16, w.maxBlobFee, t.maxBlobFee)
  }

  ghost predicate Eip7702Carries(side: Side, w: P.TransactionBody, t: TransactionBody) {
    && w.Eip7702? && t.Eip7702?
    && w.chain == t.chain && w.nonce == t.nonce && NumberOf(8, w.gasLimit, t.gasLimit)
    && NumberOf(16, w.maxFee, t.maxFee) && NumberOf(16, w.maxPriorityFee, t.maxPriorityFee)
    && w.receiver == t.receiver && Number(side, w.value, t.value) && w.input == t.input
    && AccessListCarries(w.accessList, t.accessList)
    && AuthorizationsCarry(side, w.authorizations, t.authorizations)
  }

  ghost predicate BodyCarries(side: Side, w: P.TransactionBody, t: TransactionBody) {
    || LegacyCarries(side, w, t) || Eip2930Carries(side, w, t) || Eip1559Carries(side, w, t)
    || Eip4844Carries(side, w, t) || Eip7702Carries(side, w, t)
  }

  ghost predicate TransactionCarries(side: Side, w: P.Transaction, t: Transaction) {
    && w.hash == t.hash
    && w.signature.Some? && SignatureCarries(side, w.signature.value, t.signature)
    && w.transaction.Some? && BodyCarries(side, w.transaction.value, t.body)
  }

  ghost predicate BlockCarries(side: Side, w: P.Block, b: Block) {
    && w.header.Some? && w.header.value.hash == b.hash
    && w.header.value.header.Some? && HeaderCarries(side, w.header.value.header.value, b.header)
    && |w.body| == |b.transactions| && (forall i :: 0 <= i < |w.body| ==> TransactionCarries(side, w.body[i], b.transactions[i]))
    && |w.ommers| == |b.ommers| && (forall i :: 0 <= i < |w.ommers| ==> HeaderCarries(side, w.ommers[i], b.ommers[i]))
    && w.senders == b.senders
    && (side.Received? ==> b.withdrawals == None)
  }

  // ----- accounts

  /**
   Plain code is sent as it is. A delegation is sent as its designator, 0xef0100 and the
   address, beside the address and the version 0; a receiver looks at the address only.
   */
  predicate CodeCarries(side: Side, w: P.Bytecode, c: Bytecode) {
    && w.bytecode.Some?
    && match w.bytecode.value
       case LegacyAnalyzed(bytecode, originalLen, jumpTable, jumpTableLen) =>
         && c.LegacyAnalyzed? && bytecode == c.bytecode && originalLen == c.originalLen
         && jumpTable == c.jumpTable && jumpTableLen == c.jumpTableLen
       case Eip7702(delegatedAddress, version, raw) =>
         && c.Delegation? && delegatedAddress == c.delegated
         && (side.Sent? ==>
               version == 0 && |raw| == 23 && raw[0] == 0xef && raw[1] == 0x01 && raw[2] == 0x00 && raw[3..] == c.delegated)
  }

  ghost predicate InfoCarries(side: Side, w: P.AccountInfo, a: AccountInfo) {
    && Number(side, w.balance, a.balance) && w.nonce == a.nonce && w.codeHash == a.codeHash
    && (w.code.Some? <==> a.code.Some?) && (w.code.Some? ==> CodeCarries(side, w.code.value, a.code.value))
    && (side.Received? ==> a.accountId == None)
  }

  ghost predicate OptionalInfoCarries(side: Side, w: Option<P.AccountInfo>, a: Option<AccountInfo>) {
    (w.Some? <==> a.Some?) && (w.Some? ==> InfoCarries(side, w.value, a.value))
  }

  /** The numbers of the protocol's enumeration of account statuses. */
  predicate StatusCarries(w: int, s: AccountStatus) {
    || (w == 0 && s == LoadedNotExisting) || (w == 1 && s == Loaded)
    || (w == 2 && s == LoadedEmptyEip161) || (w == 3 && s == InMemoryChange)
    || (w == 4 && s == Changed) || (w == 5 && s == Destroyed)
    || (w == 6 && s == DestroyedChanged) || (w == 7 && s == DestroyedAgain)
  }

  /** The map that the pairs make, the last of them counting for a key; a sender lists no key twice. */
  ghost predicate Makes<K, V>(side: Side, pairs: seq<(K, V)>, m: map<K, V>) {
    && m.Keys == (set p | p in pairs :: p.0)
    && (forall i :: 0 <= i < |pairs| && (forall j :: i < j < |pairs| ==> pairs[j].0 != pairs[i].0) ==>
          pairs[i].0 in m && m[pairs[i].0] == pairs[i].1)
    && (side.Sent? ==> |pairs| == |m|)
  }

  ghost predicate SlotCarries(side: Side, w: P.StorageSlot, e: (U256, StorageSlot)) {
    && Number(side, w.key, e.0)
    && Number(side, w.previousOrOriginalValue, e.1.previousOrOriginal) && Number(side, w.presentValue, e.1.present)
  }

  ghost predicate SlotsCarry(side: Side, w: seq<P.StorageSlot>, pairs: seq<(U256, StorageSlot)>) {
    |w| == |pairs| && forall i :: 0 <= i < |w| ==> SlotCarries(side, w[i], pairs[i])
  }

  ghost predicate AccountCarries(side: Side, w: P.BundleAccount, e: (Address, BundleAccount)) {
    && w.address == e.0
    && OptionalInfoCarries(side, w.info, e.1.info) && OptionalInfoCarries(side, w.originalInfo, e.1.originalInfo)
    && (exists pairs :: SlotsCarry(side, w.storage, pairs) && Makes(side, pairs, e.1.storage))
    && StatusCarries(w.status, e.1.status)
  }

  // ----- reverts and receipts

  ghost predicate InfoRevertCarries(side: Side, w: P.InfoRevert, r: InfoRevert) {
    match w
    case DoNothing => r == DoNothing
    case DeleteIt => r == DeleteIt
    case RevertTo(info) => r.RevertTo? && InfoCarries(side, info, r.info)
  }

  ghost predicate SlotRevertCarries(side: Side, w: P.RevertToSlot, e: (U256, SlotRevert)) {
    && Number(side, w.key, e.0) && w.revert.Some?
    && match w.revert.value
       case ToValue(value) => e.1.ToValue? && Number(side, value, e.1.value)
       case WasDestroyed => e.1 == WasDestroyed
  }

  ghost predicate SlotRevertsCarry(side: Side, w: seq<P.RevertToSlot>, pairs: seq<(U256, SlotRevert)>) {
    |w| == |pairs| && forall i :: 0 <= i < |w| ==> SlotRevertCarries(side, w[i], pairs[i])
  }

  ghost predicate RevertCarries(side: Side, w: P.Revert, e: (Address, AccountRevert)) {
    && w.address == e.0
    && w.account.Some? && w.account.value.revert.Some? && InfoRevertCarries(side, w.account.value.revert.value, e.1.account)
    && (exists pairs :: SlotRevertsCarry(side, w.storage, pairs) && Makes(side, pairs, e.1.storage))
    && StatusCarries(w.previousStatus, e.1.previousStatus) && w.wipeStorage == e.1.wipeStorage
  }

  ghost predicate BlockRevertsCarry(side: Side, w: seq<P.Revert>, r: seq<(Address, AccountRevert)>) {
    |w| == |r| && forall i :: 0 <= i < |w| ==> RevertCarries(side, w[i], r[i])
  }

  predicate LogCarries(w: P.Log, l: Log) {
    w.address == l.address && w.data.Some? && w.data.value.topics == l.topics && w.data.value.data == l.data
  }

  /** The numbers of the protocol's enumeration of transaction types. */
  predicate TxTypeCarries(w: int, t: TxType) {
    || (w == 0 && t == LegacyType) || (w == 1 && t == Eip2930Type) || (w == 2 && t == Eip1559Type)
    || (w == 3 && t == Eip4844Type) || (w == 4 && t == Eip7702Type)
  }

  predicate ReceiptCarries(w: P.Receipt, r: Receipt) {
    && w.receipt.Some? && w.receipt.value.NonEmpty?
    && var x := w.receipt.value;
      && TxTypeCarries(x.txType, r.txType) && x.success == r.success && x.cumulativeGasUsed == r.cumulativeGasUsed
      && |x.logs| == |r.logs| && forall i :: 0 <= i < |x.logs| ==> LogCarries(x.logs[i], r.logs[i])
  }

  predicate BlockReceiptsCarry(w: seq<P.Receipt>, r: seq<Receipt>) {
    |w| == |r| && forall i :: 0 <= i < |w| ==> ReceiptCarries(w[i], r[i])
  }

  // ----- bundles, chains, notifications

  predicate ContractCarries(side: Side, w: P.ContractBytecode, e: (B256, Bytecode)) {
    w.hash == e.0 && w.bytecode.Some? && CodeCarries(side, w.bytecode.value, e.1)
  }

  ghost predicate AccountsCarry(side: Side, w: seq<P.BundleAccount>, pairs: seq<(Address, BundleAccount)>) {
    |w| == |pairs| && forall i :: 0 <= i < |w| ==> AccountCarries(side, w[i], pairs[i])
  }

  ghost predicate ContractsCarry(side: Side, w: seq<P.ContractBytecode>, pairs: seq<(B256, Bytecode)>) {
    |w| == |pairs| && forall i :: 0 <= i < |w| ==> ContractCarries(side, w[i], pairs[i])
  }

  ghost predicate BundleCarries(side: Side, w: P.BundleState, b: Bundle) {
    && (exists pairs :: AccountsCarry(side, w.state, pairs) && Makes(side, pairs, b.state))
    && (exists pairs :: ContractsCarry(side, w.contracts, pairs) && Makes(side, pairs, b.contracts))
    && |w.reverts| == |b.reverts| && (forall k :: 0 <= k < |w.reverts| ==> BlockRevertsCarry(side, w.reverts[k], b.reverts[k]))
    && w.stateSize == b.stateSize && w.revertsSize == b.revertsSize
  }

  ghost predicate BlocksCarry(side: Side, w: seq<P.Block>, blocks: seq<Block>) {
    |w| == |blocks| && forall i :: 0 <= i < |w| ==> BlockCarries(side, w[i], blocks[i])
  }

  /** The blocks with the number each is filed under. */
  function Numbered(blocks: seq<Block>): seq<(U64, Block)> {
    seq(|blocks|, i requires 0 <= i < |blocks| => (blocks[i].header.number, blocks[i]))
  }

  ghost predicate OutcomeCarries(side: Side, w: P.ExecutionOutcome, x: Outcome) {
    && w.bundle.Some? && BundleCarries(side, w.bundle.value, x.bundle)
    && |w.receipts| == |x.receipts| && (forall k :: 0 <= k < |w.receipts| ==> BlockReceiptsCarry(w.receipts[k], x.receipts[k]))
    && w.firstBlock == x.firstBlock
    && (side.Received? ==> x.requests == [])
  }

  ghost predicate ChainCarries(side: Side, w: P.Chain, c: Chain) {
    && (exists blocks :: BlocksCarry(side, w.blocks, blocks) && Makes(side, Numbered(blocks), c.blocks))
    && w.executionOutcome.Some? && OutcomeCarries(side, w.executionOutcome.value, c.outcome)
    && (side.Received? ==> c.tries == map[])
  }

  ghost predicate OptionalChainCarries(side: Side, w: Option<P.Chain>, c: Chain) {
    w.Some? && ChainCarries(side, w.value, c)
  }

  /** What the message says about the notification. */
  ghost predicate Carries(side: Side, w: P.ExExNotification, n: Notification) {
    && w.notification.Some?
    && match w.notification.value
       case ChainCommitted(new_) => n.ChainCommitted? && OptionalChainCarries(side, new_, n.new_)
       case ChainReorged(old_, new_) =>
         n.ChainReorged? && OptionalChainCarries(side, old_, n.old_) && OptionalChainCarries(side, new_, n.new_)
       case ChainReverted(old_) => n.ChainReverted? && OptionalChainCarries(side, old_, n.old_)
  }
}
