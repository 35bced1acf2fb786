/** Encoding notifications into protocol messages and decoding them, field by field. */
module RemoteCodec {
  import opened Prelude
  import opened ExExTypes
  import LE = LittleEndian
  import P = Proto

  datatype Error =
    | Missing(what: string)
    | WrongLength
    | TooWide(what: string)
    | InvalidParity(parity: nat)
    | UnknownVariant(value: int)
    | EmptyReceipt

  type Decoded<+T> = Result<T, Error>

  // ----- collections

  /** Decodes every element in order and stops at the first failure. */
  function Collect<W, T>(decode: W -> Decoded<T>, s: seq<W>): (r: Decoded<seq<T>>)
    ensures r.Ok? <==> forall i :: 0 <= i < |s| ==> decode(s[i]).Ok?
    ensures r.Ok? ==> |r.value| == |s| && forall i :: 0 <= i < |s| ==> decode(s[i]) == Ok(r.value[i])
  {
    if s == [] then Ok([]) else
    match decode(s[0])
    case Err(e) => Err(e)
    case Ok(head) =>
      var rest := Collect(decode, s[1..]);
      if rest.Err? then rest else Ok([head] + rest.value)
  }

  function Transpose<W, T>(decode: W -> Decoded<T>, o: Option<W>): Decoded<Option<T>> {
    match o
    case None => Ok(None)
    case Some(w) => var t :- decode(w); Ok(Some(t))
  }

  function Required<W>(o: Option<W>, what: string): Decoded<W> {
    if o.Some? then Ok(o.value) else Err(Missing(what))
  }

  /** The entries of a hash map in the order `keys` lists them. */
  function Entries<K(==), V>(keys: seq<K>, m: map<K, V>): (r: seq<(K, V)>)
    ensures forall p :: p in r ==> p.0 in m && m[p.0] == p.1
  {
    if keys == [] then []
    else (if keys[0] in m then [(keys[0], m[keys[0]])] else []) + Entries(keys[1..], m)
  }

  /** Collecting pairs into a map: the last one for a key wins. */
  function ToMap<K(==), V>(pairs: seq<(K, V)>): map<K, V> {
    if pairs == [] then map[] else
    var (k, v) := pairs[|pairs| - 1];
    ToMap(pairs[..|pairs| - 1])[k := v]
  }

  // ----- scalars

  function ToB256(b: Bytes): Decoded<B256> {
    if |b| == 32 then Ok(b) else Err(WrongLength)
  }

  function ToB64(b: Bytes): Decoded<B64> {
    if |b| == 8 then Ok(b) else Err(WrongLength)
  }

  function ToAddress(b: Bytes): Decoded<Address> {
    if |b| == 20 then Ok(b) else Err(WrongLength)
  }

  function ToBloom(b: Bytes): Decoded<Bloom> {
    if |b| == 256 then Ok(b) else Err(WrongLength)
  }

  /** A 64-bit number in exactly 8 bytes. */
  function ToU64(b: Bytes): Decoded<U64> {
    LE.Widths();
    if |b| == 8 then Ok(LE.FromBytes(b)) else Err(WrongLength)
  }

  /** A 128-bit number in exactly 16 bytes. */
  function ToU128(b: Bytes): Decoded<LE.U128> {
    LE.Widths();
    if |b| == 16 then Ok(LE.FromBytes(b)) else Err(WrongLength)
  }

  /** A 256-bit number in at most 32 bytes. */
  function ToU256(b: Bytes, what: string): Decoded<U256> {
    if |b| > 32 then Err(TooWide(what))
    else
      LE.ShortFits(b);
      Ok(LE.FromBytes(b))
  }

  /** A 256-bit number in exactly 32 bytes. */
  function ToFullU256(b: Bytes): Decoded<U256> {
    LE.Widths();
    if |b| == 32 then Ok(LE.FromBytes(b)) else Err(WrongLength)
  }

  // ----- headers

  function EncodeHeader(h: Header): P.Header {
    P.Header(
      h.parentHash, h.ommersHash, h.beneficiary, h.stateRoot, h.transactionsRoot, h.receiptsRoot,
      h.withdrawalsRoot, h.logsBloom, LE.ToBytes(32, h.difficulty), h.number, h.gasLimit, h.gasUsed,
      h.timestamp, h.mixHash, h.nonce, h.baseFeePerGas, h.blobGasUsed, h.excessBlobGas,
      h.parentBeaconBlockRoot, h.extraData)
  }

  function DecodeHeader(w: P.Header): Decoded<Header> {
    var parentHash :- ToB256(w.parentHash);
    var ommersHash :- ToB256(w.ommersHash);
    var beneficiary :- ToAddress(w.beneficiary);
    var stateRoot :- ToB256(w.stateRoot);
    var transactionsRoot :- ToB256(w.transactionsRoot);
    var receiptsRoot :- ToB256(w.receiptsRoot);
    var withdrawalsRoot :- Transpose(ToB256, w.withdrawalsRoot);
    var logsBloom :- ToBloom(w.logsBloom);
    var difficulty :- ToU256(w.difficulty, "difficulty");
    var mixHash :- ToB256(w.mixHash);
    var nonce :- ToB64(w.nonce);
    var parentBeaconBlockRoot :- Transpose(ToB256, w.parentBeaconBlockRoot);
    Ok(Header(
      parentHash, ommersHash, beneficiary, stateRoot, transactionsRoot, receiptsRoot, withdrawalsRoot,
      logsBloom, difficulty, w.number, w.gasLimit, w.gasUsed, w.timestamp, mixHash, nonce,
      w.baseFeePerGas, w.blobGasUsed, w.excessBlobGas, parentBeaconBlockRoot, None, w.extraData))
  }

  // ----- transactions

  function EncodeTransaction(t: Transaction): P.Transaction {
    P.Transaction(t.hash, Some(EncodeSignature(t.signature)), Some(EncodeBody(t.body)))
  }

  function EncodeSignature(s: Signature): P.Signature {
    P.Signature(LE.ToBytes(32, s.r), LE.ToBytes(32, s.s), if s.odd then 1 else 0)
  }

  function EncodeBody(t: TransactionBody): P.TransactionBody {
    match t
    case Legacy(chainId, nonce, gasPrice, gasLimit, to, value, input) =>
      P.TransactionBody.Legacy(
        chainId, nonce, LE.ToBytes(16, gasPrice), LE.ToBytes(8, gasLimit), Some(EncodeKind(to)),
        LE.ToBytes(32, value), input)
    case Eip2930(chain, nonce, gasPrice, gasLimit, to, value, accessList, input) =>
      P.TransactionBody.Eip2930(
        chain, nonce, LE.ToBytes(16, gasPrice), LE.ToBytes(8, gasLimit), Some(EncodeKind(to)),
        LE.ToBytes(32, value), EncodeAccessList(accessList), input)
    case Eip1559(chain, nonce, gasLimit, maxFee, maxPriorityFee, to, value, accessList, input) =>
      P.TransactionBody.Eip1559(
        chain, nonce, LE.ToBytes(8, gasLimit), LE.ToBytes(16, maxFee), LE.ToBytes(16, maxPriorityFee),
        Some(EncodeKind(to)), LE.ToBytes(32, value), EncodeAccessList(accessList), input)
    case Eip4844(chain, nonce, gasLimit, maxFee, maxPriorityFee, receiver, value, accessList, hashes, maxBlobFee, input) =>
      P.TransactionBody.Eip4844(
        chain, nonce, LE.ToBytes(8, gasLimit), LE.ToBytes(16, maxFee), LE.ToBytes(16, maxPriorityFee),
        receiver, LE.ToBytes(32, value), EncodeAccessList(accessList), hashes, LE.ToBytes(16, maxBlobFee), input)
    case Eip7702(chain, nonce, gasLimit, maxFee, maxPriorityFee, receiver, value, accessList, auths, input) =>
      P.TransactionBody.Eip7702(
        chain, nonce, LE.ToBytes(8, gasLimit), LE.ToBytes(16, maxFee), LE.ToBytes(16, maxPriorityFee),
        receiver, LE.ToBytes(32, value), EncodeAccessList(accessList), EncodeAuthorizations(auths), input)
  }

  function EncodeKind(k: TxKind): P.TxKind {
    match k
    case Create => P.TxKind(Some(P.Kind.Create))
    case Call(address) => P.TxKind(Some(P.Kind.Call(address)))
  }

  function EncodeAccessItem(item: AccessListItem): P.AccessListItem {
    P.AccessListItem(item.address, item.storageKeys)
  }

  function EncodeAccessList(items: seq<AccessListItem>): seq<P.AccessListItem> {
    seq(|items|, i requires 0 <= i < |items| => EncodeAccessItem(items[i]))
  }

  function EncodeAuthorization(a: SignedAuthorization): P.AuthorizationListItem {
    P.AuthorizationListItem(
      Some(P.Authorization(LE.ToBytes(32, a.chainId), a.address, a.nonce)),
      Some(P.Signature(LE.ToBytes(32, a.r), LE.ToBytes(32, a.s), a.parity)))
  }

  function EncodeAuthorizations(auths: seq<SignedAuthorization>): seq<P.AuthorizationListItem> {
    seq(|auths|, i requires 0 <= i < |auths| => EncodeAuthorization(auths[i]))
  }

  function DecodeTransaction(w: P.Transaction): Decoded<Transaction> {
    var hash :- ToB256(w.hash);
    var wireSignature :- Required(w.signature, "signature");
    var signature :- DecodeSignature(wireSignature);
    var wireBody :- Required(w.transaction, "transaction");
    var body :- DecodeBody(wireBody);
    Ok(Transaction(body, signature, hash))
  }

  function DecodeSignature(w: P.Signature): Decoded<Signature> {
    if w.yParity > 1 then Err(InvalidParity(w.yParity))
    else
      var r :- ToU256(w.r, "r");
      var s :- ToU256(w.s, "s");
      Ok(Signature(r, s, w.yParity == 1))
  }

  function DecodeBody(w: P.TransactionBody): Decoded<TransactionBody> {
    match w
    case Legacy(_, _, _, _, _, _, _) => DecodeLegacy(w)
    case Eip2930(_, _, _, _, _, _, _, _) => DecodeEip2930(w)
    case Eip1559(_, _, _, _, _, _, _, _, _) => DecodeEip1559(w)
    case Eip4844(_, _, _, _, _, _, _, _, _, _, _) => DecodeEip4844(w)
    case Eip7702(_, _, _, _, _, _, _, _, _, _) => DecodeEip7702(w)
  }

  function DecodeLegacy(w: P.TransactionBody): Decoded<TransactionBody>
    requires w.Legacy?
  {
    var gasPrice :- ToU128(w.gasPrice);
    var gasLimit :- ToU64(w.gasLimit);
    var wireTo :- Required(w.to, "to");
    var to :- DecodeKind(wireTo);
    var value :- ToU256(w.value, "value");
    Ok(Legacy(w.chainId, w.nonce, gasPrice, gasLimit, to, value, w.input))
  }

  function DecodeEip2930(w: P.TransactionBody): Decoded<TransactionBody>
    requires w.Eip2930?
  {
    var gasPrice :- ToU128(w.gasPrice);
    var gasLimit :- ToU64(w.gasLimit);
    var wireTo :- Required(w.to, "to");
    var to :- DecodeKind(wireTo);
    var value :- ToU256(w.value, "value");
    var accessList :- Collect(DecodeAccessItem, w.accessList);
    Ok(Eip2930(w.chain, w.nonce, gasPrice, gasLimit, to, value, accessList, w.input))
  }

  function DecodeEip1559(w: P.TransactionBody): Decoded<TransactionBody>
    requires w.Eip1559?
  {
    var gasLimit :- ToU64(w.gasLimit);
    var maxFee :- ToU128(w.maxFee);
    var maxPriorityFee :- ToU128(w.maxPriorityFee);
    var wireTo :- Required(w.to, "to");
    var to :- DecodeKind(wireTo);
    var value :- ToU256(w.value, "value");
    var accessList :- Collect(DecodeAccessItem, w.accessList);
    Ok(Eip1559(w.chain, w.nonce, gasLimit, maxFee, maxPriorityFee, to, value, accessList, w.input))
  }

  function DecodeEip4844(w: P.TransactionBody): Decoded<TransactionBody>
    requires w.Eip4844?
  {
    var gasLimit :- ToU64(w.gasLimit);
    var maxFee :- ToU128(w.maxFee);
    var maxPriorityFee :- ToU128(w.maxPriorityFee);
    var receiver :- ToAddress(w.receiver);
    var value :- ToU256(w.value, "value");
    var accessList :- Collect(DecodeAccessItem, w.accessList);
    var blobHashes :- Collect(ToB256, w.blobHashes);
    var maxBlobFee :- ToU128(w.maxBlobFee);
    Ok(Eip4844(
      w.chain, w.nonce, gasLimit, maxFee, maxPriorityFee, receiver, value, accessList, blobHashes, maxBlobFee,
      w.input))
  }

  function DecodeEip7702(w: P.TransactionBody): Decoded<TransactionBody>
    requires w.Eip7702?
  {
    var gasLimit :- ToU64(w.gasLimit);
    var maxFee :- ToU128(w.maxFee);
    var maxPriorityFee :- ToU128(w.maxPriorityFee);
    var receiver :- ToAddress(w.receiver);
    var value :- ToU256(w.value, "value");
    var accessList :- Collect(DecodeAccessItem, w.accessList);
    var authorizations :- Collect(DecodeAuthorization, w.authorizations);
    Ok(Eip7702(
      w.chain, w.nonce, gasLimit, maxFee, maxPriorityFee, receiver, value, accessList, authorizations, w.input))
  }

  function DecodeKind(w: P.TxKind): Decoded<TxKind> {
    var kind :- Required(w.kind, "kind");
    match kind
    case Create => Ok(Create)
    case Call(wireAddress) => var address :- ToAddress(wireAddress); Ok(Call(address))
  }

  function DecodeAccessItem(w: P.AccessListItem): Decoded<AccessListItem> {
    var address :- ToAddress(w.address);
    var storageKeys :- Collect(ToB256, w.storageKeys);
    Ok(AccessListItem(address, storageKeys))
  }

  /** The parity is cut to its low byte, not checked. */
  function DecodeAuthorization(w: P.AuthorizationListItem): Decoded<SignedAuthorization> {
    var signature :- Required(w.signature, "signature");
    var r :- ToU256(signature.r, "r");
    var s :- ToU256(signature.s, "s");
    var authorization :- Required(w.authorization, "authorization");
    var chainId :- ToFullU256(authorization.chainId);
    var address :- ToAddress(authorization.address);
    Ok(SignedAuthorization(chainId, address, authorization.nonce, signature.yParity % 256, r, s))
  }

  // ----- accounts

  /** The designator of a delegated account: a marker, a version byte and the address. */
  const DELEGATION_PREFIX: Bytes := [0xef, 0x01, 0x00]

  function EncodeBytecode(c: Bytecode): P.Bytecode {
    match c
    case LegacyAnalyzed(bytecode, originalLen, jumpTable, jumpTableLen) =>
      P.Bytecode(Some(P.LegacyAnalyzed(bytecode, originalLen, jumpTable, jumpTableLen)))
    case Delegation(delegated) =>
      var raw := DELEGATION_PREFIX + delegated;
      P.Bytecode(Some(P.BytecodeKind.Eip7702(delegated, raw[2], raw)))
  }

  /** Only the address of a delegated account is looked at. */
  function DecodeBytecode(w: P.Bytecode): Decoded<Bytecode> {
    var kind :- Required(w.bytecode, "bytecode");
    match kind
    case LegacyAnalyzed(bytecode, originalLen, jumpTable, jumpTableLen) =>
      Ok(LegacyAnalyzed(bytecode, originalLen, jumpTable, jumpTableLen))
    case Eip7702(wireAddress, _, _) => var address :- ToAddress(wireAddress); Ok(Delegation(address))
  }

  function EncodeInfo(a: AccountInfo): P.AccountInfo {
    P.AccountInfo(
      LE.ToBytes(32, a.balance), a.nonce, a.codeHash,
      if a.code.None? then None else Some(EncodeBytecode(a.code.value)))
  }

  function EncodeOptionalInfo(a: Option<AccountInfo>): Option<P.AccountInfo> {
    if a.None? then None else Some(EncodeInfo(a.value))
  }

  function DecodeInfo(w: P.AccountInfo): Decoded<AccountInfo> {
    var balance :- ToU256(w.balance, "balance");
    var codeHash :- ToB256(w.codeHash);
    var code :- Transpose(DecodeBytecode, w.code);
    Ok(AccountInfo(None, balance, w.nonce, codeHash, code))
  }

  function EncodeStatus(s: AccountStatus): int {
    match s
    case LoadedNotExisting => 0
    case Loaded => 1
    case LoadedEmptyEip161 => 2
    case InMemoryChange => 3
    case Changed => 4
    case Destroyed => 5
    case DestroyedChanged => 6
    case DestroyedAgain => 7
  }

  function DecodeStatus(w: int): Decoded<AccountStatus> {
    match w
    case 0 => Ok(LoadedNotExisting)
    case 1 => Ok(Loaded)
    case 2 => Ok(LoadedEmptyEip161)
    case 3 => Ok(InMemoryChange)
    case 4 => Ok(Changed)
    case 5 => Ok(Destroyed)
    case 6 => Ok(DestroyedChanged)
    case 7 => Ok(DestroyedAgain)
    case _ => Err(UnknownVariant(w))
  }

  function EncodeSlot(e: (U256, StorageSlot)): P.StorageSlot {
    P.StorageSlot(LE.ToBytes(32, e.0), LE.ToBytes(32, e.1.previousOrOriginal), LE.ToBytes(32, e.1.present))
  }

  function DecodeSlot(w: P.StorageSlot): Decoded<(U256, StorageSlot)> {
    var key :- ToU256(w.key, "key");
    var previous :- ToU256(w.previousOrOriginalValue, "previous or original value");
    var present :- ToU256(w.presentValue, "present value");
    Ok((key, StorageSlot(previous, present)))
  }

  function EncodeAccount(slots: seq<U256>, e: (Address, BundleAccount)): P.BundleAccount {
    var entries := Entries(slots, e.1.storage);
    P.BundleAccount(
      e.0, EncodeOptionalInfo(e.1.info), EncodeOptionalInfo(e.1.originalInfo),
      seq(|entries|, i requires 0 <= i < |entries| => EncodeSlot(entries[i])), EncodeStatus(e.1.status))
  }

  function DecodeAccount(w: P.BundleAccount): Decoded<(Address, BundleAccount)> {
    var address :- ToAddress(w.address);
    var info :- Transpose(DecodeInfo, w.info);
    var originalInfo :- Transpose(DecodeInfo, w.originalInfo);
    var storage :- Collect(DecodeSlot, w.storage);
    var status :- DecodeStatus(w.status);
    Ok((address, BundleAccount(info, originalInfo, ToMap(storage), status)))
  }

  // ----- reverts

  function EncodeInfoRevert(r: InfoRevert): P.InfoRevert {
    match r
    case DoNothing => P.InfoRevert.DoNothing
    case DeleteIt => P.InfoRevert.DeleteIt
    case RevertTo(info) => P.InfoRevert.RevertTo(EncodeInfo(info))
  }

  function DecodeInfoRevert(w: P.InfoRevert): Decoded<InfoRevert> {
    match w
    case DoNothing => Ok(DoNothing)
    case DeleteIt => Ok(DeleteIt)
    case RevertTo(wireInfo) => var info :- DecodeInfo(wireInfo); Ok(RevertTo(info))
  }

  function EncodeSlotRevert(e: (U256, SlotRevert)): P.RevertToSlot {
    P.RevertToSlot(
      LE.ToBytes(32, e.0),
      Some(match e.1
           case ToValue(value) => P.SlotRevert.ToValue(LE.ToBytes(32, value))
           case WasDestroyed => P.SlotRevert.WasDestroyed))
  }

  function DecodeSlotRevert(w: P.RevertToSlot): Decoded<(U256, SlotRevert)> {
    var key :- ToU256(w.key, "slot key");
    var revert :- Required(w.revert, "slot revert");
    match revert
    case ToValue(wireValue) => var value :- ToU256(wireValue, "slot revert"); Ok((key, ToValue(value)))
    case WasDestroyed => Ok((key, WasDestroyed))
  }

  function EncodeRevert(slots: seq<U256>, e: (Address, AccountRevert)): P.Revert {
    var entries := Entries(slots, e.1.storage);
    P.Revert(
      e.0, Some(P.AccountInfoRevert(Some(EncodeInfoRevert(e.1.account)))),
      seq(|entries|, i requires 0 <= i < |entries| => EncodeSlotRevert(entries[i])),
      EncodeStatus(e.1.previousStatus), e.1.wipeStorage)
  }

  function DecodeRevert(w: P.Revert): Decoded<(Address, AccountRevert)> {
    var address :- ToAddress(w.address);
    var wireAccount :- Required(w.account, "revert account");
    var wireRevert :- Required(wireAccount.revert, "revert account revert");
    var account :- DecodeInfoRevert(wireRevert);
    var storage :- Collect(DecodeSlotRevert, w.storage);
    var previousStatus :- DecodeStatus(w.previousStatus);
    Ok((address, AccountRevert(account, ToMap(storage), previousStatus, w.wipeStorage)))
  }

  // ----- receipts

  function EncodeTxType(t: TxType): int {
    match t
    case LegacyType => 0
    case Eip2930Type => 1
    case Eip1559Type => 2
    case Eip4844Type => 3
    case Eip7702Type => 4
  }

  function DecodeTxType(w: int): Decoded<TxType> {
    match w
    case 0 => Ok(LegacyType)
    case 1 => Ok(Eip2930Type)
    case 2 => Ok(Eip1559Type)
    case 3 => Ok(Eip4844Type)
    case 4 => Ok(Eip7702Type)
    case _ => Err(UnknownVariant(w))
  }

  function EncodeLog(l: Log): P.Log {
    P.Log(l.address, Some(P.LogData(l.topics, l.data)))
  }

  function DecodeLog(w: P.Log): Decoded<Log> {
    var data :- Required(w.data, "log data");
    var address :- ToAddress(w.address);
    var topics :- Collect(ToB256, data.topics);
    Ok(Log(address, topics, data.data))
  }

  function EncodeReceipt(r: Receipt): P.Receipt {
    P.Receipt(Some(P.NonEmpty(
      EncodeTxType(r.txType), r.success, r.cumulativeGasUsed,
      seq(|r.logs|, i requires 0 <= i < |r.logs| => EncodeLog(r.logs[i])))))
  }

  function DecodeReceipt(w: P.Receipt): Decoded<Receipt> {
    var receipt :- Required(w.receipt, "receipt");
    match receipt
    case EmptyReceipt => Err(EmptyReceipt)
    case NonEmpty(wireType, success, cumulativeGasUsed, wireLogs) =>
      var txType :- DecodeTxType(wireType);
      var logs :- Collect(DecodeLog, wireLogs);
      Ok(Receipt(txType, success, cumulativeGasUsed, logs))
  }

  // ----- blocks

  function EncodeBlock(b: Block): P.Block {
    P.Block(
      Some(P.SealedHeader(b.hash, Some(EncodeHeader(b.header)))),
      seq(|b.transactions|, i requires 0 <= i < |b.transactions| => EncodeTransaction(b.transactions[i])),
      seq(|b.ommers|, i requires 0 <= i < |b.ommers| => EncodeHeader(b.ommers[i])),
      b.senders)
  }

  function DecodeBlock(w: P.Block): Decoded<Block> {
    var wireSealed :- Required(w.header, "sealed header");
    var wireHeader :- Required(wireSealed.header, "header");
    var header :- DecodeHeader(wireHeader);
    var hash :- ToB256(wireSealed.hash);
    var transactions :- Collect(DecodeTransaction, w.body);
    var ommers :- Collect(DecodeHeader, w.ommers);
    var senders :- Collect(ToAddress, w.senders);
    Ok(Block(hash, header, transactions, ommers, None, senders))
  }

  // ----- bundles, chains and notifications

  /** The order in which one encoding walks the maps of a chain. */
  datatype Order = Order(
    blocks: seq<U64>,
    accounts: seq<Address>,
    contracts: seq<B256>,
    slots: Address -> seq<U256>,
    revertSlots: (nat, nat) -> seq<U256>)

  function EncodeContract(e: (B256, Bytecode)): P.ContractBytecode {
    P.ContractBytecode(e.0, Some(EncodeBytecode(e.1)))
  }

  function DecodeContract(w: P.ContractBytecode): Decoded<(B256, Bytecode)> {
    var hash :- ToB256(w.hash);
    var wireBytecode :- Required(w.bytecode, "bytecode");
    var bytecode :- DecodeBytecode(wireBytecode);
    Ok((hash, bytecode))
  }

  function EncodeAccounts(o: Order, state: map<Address, BundleAccount>): seq<P.BundleAccount> {
    var entries := Entries(o.accounts, state);
    seq(|entries|, i requires 0 <= i < |entries| => EncodeAccount(o.slots(entries[i].0), entries[i]))
  }

  function EncodeContracts(o: Order, contracts: map<B256, Bytecode>): seq<P.ContractBytecode> {
    var entries := Entries(o.contracts, contracts);
    seq(|entries|, i requires 0 <= i < |entries| => EncodeContract(entries[i]))
  }

  function EncodeBlockReverts(o: Order, k: nat, reverts: seq<(Address, AccountRevert)>): seq<P.Revert> {
    seq(|reverts|, i requires 0 <= i < |reverts| => EncodeRevert(o.revertSlots(k, i), reverts[i]))
  }

  function DecodeBlockReverts(w: seq<P.Revert>): Decoded<seq<(Address, AccountRevert)>> {
    Collect(DecodeRevert, w)
  }

  function EncodeReverts(o: Order, reverts: seq<seq<(Address, AccountRevert)>>): seq<seq<P.Revert>> {
    seq(|reverts|, k requires 0 <= k < |reverts| => EncodeBlockReverts(o, k, reverts[k]))
  }

  function EncodeBundle(o: Order, b: Bundle): P.BundleState {
    P.BundleState(
      EncodeAccounts(o, b.state), EncodeContracts(o, b.contracts), EncodeReverts(o, b.reverts),
      b.stateSize, b.revertsSize)
  }

  function DecodeBundle(w: P.BundleState): Decoded<Bundle> {
    var state :- Collect(DecodeAccount, w.state);
    var contracts :- Collect(DecodeContract, w.contracts);
    var reverts :- Collect(DecodeBlockReverts, w.reverts);
    Ok(Bundle(ToMap(state), ToMap(contracts), reverts, w.stateSize, w.revertsSize))
  }

  function EncodeBlockReceipts(receipts: seq<Receipt>): seq<P.Receipt> {
    seq(|receipts|, i requires 0 <= i < |receipts| => EncodeReceipt(receipts[i]))
  }

  function DecodeBlockReceipts(w: seq<P.Receipt>): Decoded<seq<Receipt>> {
    Collect(DecodeReceipt, w)
  }

  function EncodeOutcome(o: Order, x: Outcome): P.ExecutionOutcome {
    P.ExecutionOutcome(
      Some(EncodeBundle(o, x.bundle)),
      seq(|x.receipts|, i requires 0 <= i < |x.receipts| => EncodeBlockReceipts(x.receipts[i])),
      x.firstBlock)
  }

  function EncodeBlocks(o: Order, blocks: map<U64, Block>): seq<P.Block> {
    var entries := Entries(o.blocks, blocks);
    seq(|entries|, i requires 0 <= i < |entries| => EncodeBlock(entries[i].1))
  }

  /** A chain files its blocks under the numbers in their headers. */
  function ByNumber(blocks: seq<Block>): map<U64, Block> {
    ToMap(seq(|blocks|, i requires 0 <= i < |blocks| => (blocks[i].header.number, blocks[i])))
  }

  function EncodeChain(o: Order, c: Chain): P.Chain {
    P.Chain(EncodeBlocks(o, c.blocks), Some(EncodeOutcome(o, c.outcome)))
  }

  function DecodeChain(w: P.Chain): Decoded<Chain> {
    var outcome :- Required(w.executionOutcome, "execution outcome");
    var wireBundle :- Required(outcome.bundle, "bundle");
    var blocks :- Collect(DecodeBlock, w.blocks);
    var bundle :- DecodeBundle(wireBundle);
    var receipts :- Collect(DecodeBlockReceipts, outcome.receipts);
    Ok(Chain(ByNumber(blocks), Outcome(bundle, receipts, outcome.firstBlock, []), map[]))
  }

  function EncodeNotification(oldOrder: Order, newOrder: Order, n: Notification): P.ExExNotification {
    P.ExExNotification(Some(
      match n
      case ChainCommitted(new_) =>
        P.ChainCommitted(Some(EncodeChain(newOrder, new_)))
      case ChainReorged(old_, new_) =>
        P.ChainReorged(Some(EncodeChain(oldOrder, old_)), Some(EncodeChain(newOrder, new_)))
      case ChainReverted(old_) =>
        P.ChainReverted(Some(EncodeChain(oldOrder, old_)))))
  }

  function DecodeNotification(w: P.ExExNotification): Decoded<Notification> {
    var notification :- Required(w.notification, "notification");
    match notification
    case ChainCommitted(wireNew) =>
      var someNew :- Required(wireNew, "new chain");
      var new_ :- DecodeChain(someNew);
      Ok(ChainCommitted(new_))
    case ChainReorged(wireOld, wireNew) =>
      var someOld :- Required(wireOld, "old chain");
      var old_ :- DecodeChain(someOld);
      var someNew :- Required(wireNew, "new chain");
      var new_ :- DecodeChain(someNew);
      Ok(ChainReorged(old_, new_))
    case ChainReverted(wireOld) =>
      var someOld :- Required(wireOld, "old chain");
      var old_ :- DecodeChain(someOld);
      Ok(ChainReverted(old_))
  }
}
