/** The notifications an execution extension receives, with everything they carry. */
module ExExTypes {
  import opened Prelude
  import opened LittleEndian

  type B256 = b: Bytes | |b| == 32 witness seq(32, _ => 0)
  type B64 = b: Bytes | |b| == 8 witness seq(8, _ => 0)
  type Address = b: Bytes | |b| == 20 witness seq(20, _ => 0)
  type Bloom = b: Bytes | |b| == 256 witness seq(256, _ => 0)

  datatype Notification =
    | ChainCommitted(new_: Chain)
    | ChainReorged(old_: Chain, new_: Chain)
    | ChainReverted(old_: Chain)

  /** Blocks by number, what executing them did, and their trie data. */
  datatype Chain = Chain(blocks: map<U64, Block>, outcome: Outcome, tries: map<U64, Bytes>)

  datatype Block = Block(
    hash: B256,
    header: Header,
    transactions: seq<Transaction>,
    ommers: seq<Header>,
    withdrawals: Option<seq<Bytes>>,
    senders: seq<Address>)

  datatype Header = Header(
    parentHash: B256,
    ommersHash: B256,
    beneficiary: Address,
    stateRoot: B256,
    transactionsRoot: B256,
    receiptsRoot: B256,
    withdrawalsRoot: Option<B256>,
    logsBloom: Bloom,
    difficulty: U256,
    number: U64,
    gasLimit: U64,
    gasUsed: U64,
    timestamp: U64,
    mixHash: B256,
    nonce: B64,
    baseFeePerGas: Option<U64>,
    blobGasUsed: Option<U64>,
    excessBlobGas: Option<U64>,
    parentBeaconBlockRoot: Option<B256>,
    requestsHash: Option<B256>,
    extraData: Bytes)

  datatype Signature = Signature(r: U256, s: U256, odd: bool)

  datatype Transaction = Transaction(body: TransactionBody, signature: Signature, hash: B256)

  datatype TransactionBody =
    | Legacy(
        chainId: Option<U64>, nonce: U64, gasPrice: U128, gasLimit: U64, to: TxKind, value: U256, input: Bytes)
    | Eip2930(
        chain: U64, nonce: U64, gasPrice: U128, gasLimit: U64, to: TxKind, value: U256,
        accessList: seq<AccessListItem>, input: Bytes)
    | Eip1559(
        chain: U64, nonce: U64, gasLimit: U64, maxFee: U128, maxPriorityFee: U128, to: TxKind, value: U256,
        accessList: seq<AccessListItem>, input: Bytes)
    | Eip4844(
        chain: U64, nonce: U64, gasLimit: U64, maxFee: U128, maxPriorityFee: U128, receiver: Address, value: U256,
        accessList: seq<AccessListItem>, blobHashes: seq<B256>, maxBlobFee: U128, input: Bytes)
    | Eip7702(
        chain: U64, nonce: U64, gasLimit: U64, maxFee: U128, maxPriorityFee: U128, receiver: Address, value: U256,
        accessList: seq<AccessListItem>, authorizations: seq<SignedAuthorization>, input: Bytes)

  datatype TxKind = Create | Call(address: Address)

  datatype AccessListItem = AccessListItem(address: Address, storageKeys: seq<B256>)

  datatype SignedAuthorization = SignedAuthorization(
    chainId: U256, address: Address, nonce: U64, parity: Byte, r: U256, s: U256)

  datatype Outcome = Outcome(
    bundle: Bundle, receipts: seq<seq<Receipt>>, firstBlock: U64, requests: seq<seq<Bytes>>)

  datatype Bundle = Bundle(
    state: map<Address, BundleAccount>,
    contracts: map<B256, Bytecode>,
    reverts: seq<seq<(Address, AccountRevert)>>,
    stateSize: U64,
    revertsSize: U64)

  datatype BundleAccount = BundleAccount(
    info: Option<AccountInfo>,
    originalInfo: Option<AccountInfo>,
    storage: map<U256, StorageSlot>,
    status: AccountStatus)

  datatype AccountInfo = AccountInfo(
    accountId: Option<U64>, balance: U256, nonce: U64, codeHash: B256, code: Option<Bytecode>)

  datatype Bytecode =
    | LegacyAnalyzed(bytecode: Bytes, originalLen: U64, jumpTable: Bytes, jumpTableLen: U64)
    | Delegation(delegated: Address)

  datatype StorageSlot = StorageSlot(previousOrOriginal: U256, present: U256)

  datatype AccountStatus =
    | LoadedNotExisting
    | Loaded
    | LoadedEmptyEip161
    | InMemoryChange
    | Changed
    | Destroyed
    | DestroyedChanged
    | DestroyedAgain

  datatype AccountRevert = AccountRevert(
    account: InfoRevert, storage: map<U256, SlotRevert>, previousStatus: AccountStatus, wipeStorage: bool)

  datatype InfoRevert = DoNothing | DeleteIt | RevertTo(info: AccountInfo)

  datatype SlotRevert = ToValue(value: U256) | WasDestroyed

  datatype Receipt = Receipt(txType: TxType, success: bool, cumulativeGasUsed: U64, logs: seq<Log>)

  datatype TxType = LegacyType | Eip2930Type | Eip1559Type | Eip4844Type | Eip7702Type

  datatype Log = Log(address: Address, topics: seq<B256>, data: Bytes)
}
