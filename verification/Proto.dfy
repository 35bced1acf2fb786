/** The messages of the remote protocol, as declared in its schema. */
module Proto {
  import opened Prelude
  import opened LittleEndian

  datatype ExExNotification = ExExNotification(notification: Option<Notification>)

  datatype Notification =
    | ChainCommitted(new_: Option<Chain>)
    | ChainReorged(old_: Option<Chain>, new_: Option<Chain>)
    | ChainReverted(old_: Option<Chain>)

  datatype Chain = Chain(blocks: seq<Block>, executionOutcome: Option<ExecutionOutcome>)

  datatype Block = Block(
    header: Option<SealedHeader>, body: seq<Transaction>, ommers: seq<Header>, senders: seq<Bytes>)

  datatype SealedHeader = SealedHeader(hash: Bytes, header: Option<Header>)

  datatype Header = Header(
    parentHash: Bytes,
    ommersHash: Bytes,
    beneficiary: Bytes,
    stateRoot: Bytes,
    transactionsRoot: Bytes,
    receiptsRoot: Bytes,
    withdrawalsRoot: Option<Bytes>,
    logsBloom: Bytes,
    difficulty: Bytes,
    number: U64,
    gasLimit: U64,
    gasUsed: U64,
    timestamp: U64,
    mixHash: Bytes,
    nonce: Bytes,
    baseFeePerGas: Option<U64>,
    blobGasUsed: Option<U64>,
    excessBlobGas: Option<U64>,
    parentBeaconBlockRoot: Option<Bytes>,
    extraData: Bytes)

  datatype Transaction = Transaction(
    hash: Bytes, signature: Option<Signature>, transaction: Option<TransactionBody>)

  datatype Signature = Signature(r: Bytes, s: Bytes, yParity: U32)

  datatype TransactionBody =
    | Legacy(
        chainId: Option<U64>, nonce: U64, gasPrice: Bytes, gasLimit: Bytes, to: Option<TxKind>, value: Bytes,
        input: Bytes)
    | Eip2930(
        chain: U64, nonce: U64, gasPrice: Bytes, gasLimit: Bytes, to: Option<TxKind>, value: Bytes,
        accessList: seq<AccessListItem>, input: Bytes)
    | Eip1559(
        chain: U64, nonce: U64, gasLimit: Bytes, maxFee: Bytes, maxPriorityFee: Bytes, to: Option<TxKind>,
        value: Bytes, accessList: seq<AccessListItem>, input: Bytes)
    | Eip4844(
        chain: U64, nonce: U64, gasLimit: Bytes, maxFee: Bytes, maxPriorityFee: Bytes, receiver: Bytes,
        value: Bytes, accessList: seq<AccessListItem>, blobHashes: seq<Bytes>, maxBlobFee: Bytes, input: Bytes)
    | Eip7702(
        chain: U64, nonce: U64, gasLimit: Bytes, maxFee: Bytes, maxPriorityFee: Bytes, receiver: Bytes,
        value: Bytes, accessList: seq<AccessListItem>, authorizations: seq<AuthorizationListItem>, input: Bytes)

  datatype TxKind = TxKind(kind: Option<Kind>)

  datatype Kind = Create | Call(address: Bytes)

  datatype AccessListItem = AccessListItem(address: Bytes, storageKeys: seq<Bytes>)

  datatype AuthorizationListItem = AuthorizationListItem(
    authorization: Option<Authorization>, signature: Option<Signature>)

  datatype Authorization = Authorization(chainId: Bytes, address: Bytes, nonce: U64)

  datatype ExecutionOutcome = ExecutionOutcome(
    bundle: Option<BundleState>, receipts: seq<seq<Receipt>>, firstBlock: U64)

  datatype BundleState = BundleState(
    state: seq<BundleAccount>,
    contracts: seq<ContractBytecode>,
    reverts: seq<seq<Revert>>,
    stateSize: U64,
    revertsSize: U64)

  datatype BundleAccount = BundleAccount(
    address: Bytes,
    info: Option<AccountInfo>,
    originalInfo: Option<AccountInfo>,
    storage: seq<StorageSlot>,
    status: int)

  datatype AccountInfo = AccountInfo(balance: Bytes, nonce: U64, codeHash: Bytes, code: Option<Bytecode>)

  datatype StorageSlot = StorageSlot(key: Bytes, previousOrOriginalValue: Bytes, presentValue: Bytes)

  datatype ContractBytecode = ContractBytecode(hash: Bytes, bytecode: Option<Bytecode>)

  datatype Bytecode = Bytecode(bytecode: Option<BytecodeKind>)

  datatype BytecodeKind =
    | LegacyAnalyzed(bytecode: Bytes, originalLen: U64, jumpTable: Bytes, jumpTableLen: U64)
    | Eip7702(delegatedAddress: Bytes, version: U64, raw: Bytes)

  datatype Revert = Revert(
    address: Bytes, account: Option<AccountInfoRevert>, storage: seq<RevertToSlot>, previousStatus: int,
    wipeStorage: bool)

  datatype AccountInfoRevert = AccountInfoRevert(revert: Option<InfoRevert>)

  datatype InfoRevert = DoNothing | DeleteIt | RevertTo(info: AccountInfo)

  datatype RevertToSlot = RevertToSlot(key: Bytes, revert: Option<SlotRevert>)

  datatype SlotRevert = ToValue(value: Bytes) | WasDestroyed

  datatype Receipt = Receipt(receipt: Option<MaybeEmptyReceipt>)

  datatype MaybeEmptyReceipt = EmptyReceipt | NonEmpty(txType: int, success: bool, cumulativeGasUsed: U64, logs: seq<Log>)

  datatype Log = Log(address: Bytes, data: Option<LogData>)

  datatype LogData = LogData(topics: seq<Bytes>, data: Bytes)
}
