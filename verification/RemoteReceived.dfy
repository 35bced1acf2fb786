/** Decoding a remote message accepts exactly what carries a notification, and gives that notification. */
module RemoteReceived {
  import opened Prelude
  import opened ExExTypes
  import opened RemoteCodec
  import opened RemoteRoundTrip
  import opened RemoteWire
  import LE = LittleEndian
  import P = Proto

  // ----- headers and transactions

  lemma ScalarsExactly(b: Bytes, n: U256, what: string)
    ensures ToU256(b, what) == Ok(n) <==> Number(Received, b, n)
    ensures ToFullU256(b) == Ok(n) <==> NumberOf(32, b, n)
    ensures n < LE.TWO_128 ==> (ToU128(b) == Ok(n) <==> NumberOf(16, b, n))
    ensures n < TWO_64 ==> (ToU64(b) == Ok(n) <==> NumberOf(8, b, n))
  {
    LE.Widths();
    if |b| <= 32 { LE.ShortFits(b); }
  }

  lemma CollectExactly<W, T>(decode: W -> Decoded<T>, w: seq<W>, d: seq<T>)
    ensures Collect(decode, w) == Ok(d) <==> |w| == |d| && forall i :: 0 <= i < |w| ==> decode(w[i]) == Ok(d[i])
  {
    if |w| == |d| && forall i :: 0 <= i < |w| ==> decode(w[i]) == Ok(d[i]) { CollectIs(decode, w, d); }
  }

  lemma HashesExactly(w: seq<Bytes>, d: seq<B256>)
    ensures Collect<Bytes, B256>(ToB256, w) == Ok(d) <==> w == d
  {
    CollectExactly<Bytes, B256>(ToB256, w, d);
    if w == d { HashesBack(d); }
  }

  lemma HeaderReceived(w: P.Header, h: Header)
    ensures DecodeHeader(w) == Ok(h) <==> HeaderCarries(Received, w, h)
  {
    ScalarsExactly(w.difficulty, h.difficulty, "difficulty");
  }

  lemma SignatureReceived(w: P.Signature, s: Signature)
    ensures DecodeSignature(w) == Ok(s) <==> SignatureCarries(Received, w, s)
  {
    ScalarsExactly(w.r, s.r, "r");
    ScalarsExactly(w.s, s.s, "s");
  }

  lemma AccessListReceived(w: seq<P.AccessListItem>, items: seq<AccessListItem>)
    ensures Collect(DecodeAccessItem, w) == Ok(items) <==> AccessListCarries(w, items)
  {
    CollectExactly(DecodeAccessItem, w, items);
    forall i | 0 <= i < |w| && i < |items|
      ensures DecodeAccessItem(w[i]) == Ok(items[i]) <==> AccessItemCarries(w[i], items[i])
    {
      HashesExactly(w[i].storageKeys, items[i].storageKeys);
    }
  }

  lemma AuthorizationReceived(w: P.AuthorizationListItem, a: SignedAuthorization)
    ensures DecodeAuthorization(w) == Ok(a) <==> AuthorizationCarries(Received, w, a)
  {
    if w.authorization.Some? && w.signature.Some? {
      ScalarsExactly(w.authorization.value.chainId, a.chainId, "");
      ScalarsExactly(w.signature.value.r, a.r, "r");
      ScalarsExactly(w.signature.value.s, a.s, "s");
    }
  }

  lemma AuthorizationsReceived(w: seq<P.AuthorizationListItem>, auths: seq<SignedAuthorization>)
    ensures Collect(DecodeAuthorization, w) == Ok(auths) <==> AuthorizationsCarry(Received, w, auths)
  {
    CollectExactly(DecodeAuthorization, w, auths);
    forall i | 0 <= i < |w| && i < |auths|
      ensures DecodeAuthorization(w[i]) == Ok(auths[i]) <==> AuthorizationCarries(Received, w[i], auths[i])
    {
      AuthorizationReceived(w[i], auths[i]);
    }
  }

  lemma LegacyReceived(w: P.TransactionBody, t: TransactionBody)
    requires w.Legacy?
    ensures DecodeBody(w) == Ok(t) <==> LegacyCarries(Received, w, t)
  {
    if t.Legacy? {
      ScalarsExactly(w.gasPrice, t.gasPrice, "");
      ScalarsExactly(w.gasLimit, t.gasLimit, "");
      ScalarsExactly(w.value, t.value, "value");
    }
  }

  lemma Eip2930Received(w: P.TransactionBody, t: TransactionBody)
    requires w.Eip2930?
    ensures DecodeBody(w) == Ok(t) <==> Eip2930Carries(Received, w, t)
  {
    if t.Eip2930? {
      ScalarsExactly(w.gasPrice, t.gasPrice, "");
      ScalarsExactly(w.gasLimit, t.gasLimit, "");
      ScalarsExactly(w.value, t.value, "value");
      AccessListReceived(w.accessList, t.accessList);
    }
  }

  lemma Eip1559Received(w: P.TransactionBody, t: TransactionBody)
    requires w.Eip1559?
    ensures DecodeBody(w) == Ok(t) <==> Eip1559Carries(Received, w, t)
  {
    if t.Eip1559? {
      ScalarsExactly(w.gasLimit, t.gasLimit, "");
      ScalarsExactly(w.maxFee, t.maxFee, "");
      ScalarsExactly(w.maxPriorityFee, t.maxPriorityFee, "");
      ScalarsExactly(w.value, t.value, "value");
      AccessListReceived(w.accessList, t.accessList);
    }
  }

  lemma Eip4844Received(w: P.TransactionBody, t: TransactionBody)
    requires w.Eip4844?
    ensures DecodeBody(w) == Ok(t) <==> Eip4844Carries(Received, w, t)
  {
    if t.Eip4844? {
      ScalarsExactly(w.gasLimit, t.gasLimit, "");
      ScalarsExactly(w.maxFee, t.maxFee, "");
      ScalarsExactly(w.maxPriorityFee, t.maxPriorityFee, "");
      ScalarsExactly(w.value, t.value, "value");
      ScalarsExactly(w.maxBlobFee, t.maxBlobFee, "");
      AccessListReceived(w.accessList, t.accessList);
      HashesExactly(w.blobHashes, t.blobHashes);
    }
  }

  lemma Eip7702Received(w: P.TransactionBody, t: TransactionBody)
    requires w.Eip7702?
    ensures DecodeBody(w) == Ok(t) <==> Eip7702Carries(Received, w, t)
  {
    if t.Eip7702? {
      ScalarsExactly(w.gasLimit, t.gasLimit, "");
      ScalarsExactly(w.maxFee, t.maxFee, "");
      ScalarsExactly(w.maxPriorityFee, t.maxPriorityFee, "");
      ScalarsExactly(w.value, t.value, "value");
      AccessListReceived(w.accessList, t.accessList);
      AuthorizationsReceived(w.authorizations, t.authorizations);
    }
  }

  lemma BodyReceived(w: P.TransactionBody, t: TransactionBody)
    ensures DecodeBody(w) == Ok(t) <==> BodyCarries(Received, w, t)
  {
    match w {
      case Legacy(_, _, _, _, _, _, _) => LegacyReceived(w, t);
      case Eip2930(_, _, _, _, _, _, _, _) => Eip2930Received(w, t);
      case Eip1559(_, _, _, _, _, _, _, _, _) => Eip1559Received(w, t);
      case Eip4844(_, _, _, _, _, _, _, _, _, _, _) => Eip4844Received(w, t);
      case Eip7702(_, _, _, _, _, _, _, _, _, _) => Eip7702Received(w, t);
    }
  }

  lemma TransactionReceived(w: P.Transaction, t: Transaction)
    ensures DecodeTransaction(w) == Ok(t) <==> TransactionCarries(Received, w, t)
  {
    if w.signature.Some? { SignatureReceived(w.signature.value, t.signature); }
    if w.transaction.Some? { BodyReceived(w.transaction.value, t.body); }
    TransactionParts(w, t);
  }

  lemma TransactionParts(w: P.Transaction, t: Transaction)
    ensures DecodeTransaction(w) == Ok(t) <==>
      && w.hash == t.hash
      && w.signature.Some? && DecodeSignature(w.signature.value) == Ok(t.signature)
      && w.transaction.Some? && DecodeBody(w.transaction.value) == Ok(t.body)
  {
  }

  // ----- blocks

  lemma HeadersReceived(w: seq<P.Header>, hs: seq<Header>)
    ensures Collect(DecodeHeader, w) == Ok(hs) <==>
      |w| == |hs| && forall i :: 0 <= i < |w| ==> HeaderCarries(Received, w[i], hs[i])
  {
    CollectExactly(DecodeHeader, w, hs);
    forall i | 0 <= i < |w| && i < |hs| ensures DecodeHeader(w[i]) == Ok(hs[i]) <==> HeaderCarries(Received, w[i], hs[i]) {
      HeaderReceived(w[i], hs[i]);
    }
  }

  lemma TransactionsReceived(w: seq<P.Transaction>, ts: seq<Transaction>)
    ensures Collect(DecodeTransaction, w) == Ok(ts) <==>
      |w| == |ts| && forall i :: 0 <= i < |w| ==> TransactionCarries(Received, w[i], ts[i])
  {
    CollectExactly(DecodeTransaction, w, ts);
    forall i | 0 <= i < |w| && i < |ts|
      ensures DecodeTransaction(w[i]) == Ok(ts[i]) <==> TransactionCarries(Received, w[i], ts[i])
    {
      TransactionReceived(w[i], ts[i]);
    }
  }

  lemma SendersReceived(w: seq<Bytes>, senders: seq<Address>)
    ensures Collect<Bytes, Address>(ToAddress, w) == Ok(senders) <==> w == senders
  {
    CollectExactly<Bytes, Address>(ToAddress, w, senders);
    if w == senders { SendersBack(senders); }
  }

  lemma BlockParts(w: P.Block, b: Block)
    ensures DecodeBlock(w) == Ok(b) <==>
      && w.header.Some? && w.header.value.hash == b.hash
      && w.header.value.header.Some? && DecodeHeader(w.header.value.header.value) == Ok(b.header)
      && Collect(DecodeTransaction, w.body) == Ok(b.transactions) && Collect(DecodeHeader, w.ommers) == Ok(b.ommers)
      && Collect<Bytes, Address>(ToAddress, w.senders) == Ok(b.senders) && b.withdrawals == None
  {
  }

  lemma BlockReceived(w: P.Block, b: Block)
    ensures DecodeBlock(w) == Ok(b) <==> BlockCarries(Received, w, b)
  {
    BlockParts(w, b);
    if w.header.Some? && w.header.value.header.Some? { HeaderReceived(w.header.value.header.value, b.header); }
    TransactionsReceived(w.body, b.transactions);
    HeadersReceived(w.ommers, b.ommers);
    SendersReceived(w.senders, b.senders);
  }

  // ----- accounts

  lemma CodeReceived(w: P.Bytecode, c: Bytecode)
    ensures DecodeBytecode(w) == Ok(c) <==> CodeCarries(Received, w, c)
  {
  }

  lemma InfoReceived(w: P.AccountInfo, a: AccountInfo)
    ensures DecodeInfo(w) == Ok(a) <==> InfoCarries(Received, w, a)
  {
    ScalarsExactly(w.balance, a.balance, "balance");
    if w.code.Some? && a.code.Some? { CodeReceived(w.code.value, a.code.value); }
  }

  lemma OptionalInfoReceived(w: Option<P.AccountInfo>, a: Option<AccountInfo>)
    ensures Transpose(DecodeInfo, w) == Ok(a) <==> OptionalInfoCarries(Received, w, a)
  {
    if w.Some? && a.Some? { InfoReceived(w.value, a.value); }
  }

  lemma StatusReceived(w: int, s: AccountStatus)
    ensures DecodeStatus(w) == Ok(s) <==> StatusCarries(w, s)
  {
  }

  lemma {:induction false} ToMapLast<K, V>(pairs: seq<(K, V)>, i: nat)
    requires i < |pairs| && forall j :: i < j < |pairs| ==> pairs[j].0 != pairs[i].0
    ensures pairs[i].0 in ToMap(pairs) && ToMap(pairs)[pairs[i].0] == pairs[i].1
  {
    if i < |pairs| - 1 { ToMapLast(pairs[..|pairs| - 1], i); }
  }

  lemma {:induction false} ToMapKeys<K, V>(pairs: seq<(K, V)>)
    ensures ToMap(pairs).Keys == set p | p in pairs :: p.0
  {
    if pairs == [] {
    } else {
      var init, last := pairs[..|pairs| - 1], pairs[|pairs| - 1];
      ToMapKeys(init);
      assert pairs == init + [last];
    }
  }

  lemma {:induction false} LastOf<K, V>(pairs: seq<(K, V)>, k: K) returns (i: nat)
    requires exists p :: p in pairs && p.0 == k
    ensures i < |pairs| && pairs[i].0 == k && forall j :: i < j < |pairs| ==> pairs[j].0 != k
  {
    if pairs[|pairs| - 1].0 == k {
      i := |pairs| - 1;
    } else {
      assert pairs == pairs[..|pairs| - 1] + [pairs[|pairs| - 1]];
      i := LastOf(pairs[..|pairs| - 1], k);
    }
  }

  /** Collecting pairs gives the one map they make. */
  lemma ToMapExactly<K, V>(pairs: seq<(K, V)>, m: map<K, V>)
    ensures ToMap(pairs) == m <==> Makes(Received, pairs, m)
  {
    ToMapKeys(pairs);
    forall i | 0 <= i < |pairs| && (forall j :: i < j < |pairs| ==> pairs[j].0 != pairs[i].0)
      ensures pairs[i].0 in ToMap(pairs) && ToMap(pairs)[pairs[i].0] == pairs[i].1
    {
      ToMapLast(pairs, i);
    }
    if Makes(Received, pairs, m) {
      forall k | k in m ensures m[k] == ToMap(pairs)[k] {
        var i := LastOf(pairs, k);
        ToMapLast(pairs, i);
      }
    }
  }

  lemma SlotReceived(w: P.StorageSlot, e: (U256, StorageSlot))
    ensures DecodeSlot(w) == Ok(e) <==> SlotCarries(Received, w, e)
  {
    ScalarsExactly(w.key, e.0, "key");
    ScalarsExactly(w.previousOrOriginalValue, e.1.previousOrOriginal, "previous or original value");
    ScalarsExactly(w.presentValue, e.1.present, "present value");
  }

  lemma SlotsReceived(w: seq<P.StorageSlot>, pairs: seq<(U256, StorageSlot)>)
    ensures Collect(DecodeSlot, w) == Ok(pairs) <==> SlotsCarry(Received, w, pairs)
  {
    CollectExactly(DecodeSlot, w, pairs);
    forall i | 0 <= i < |w| && i < |pairs| ensures DecodeSlot(w[i]) == Ok(pairs[i]) <==> SlotCarries(Received, w[i], pairs[i]) {
      SlotReceived(w[i], pairs[i]);
    }
  }

  lemma StorageReceived(w: seq<P.StorageSlot>, m: map<U256, StorageSlot>)
    ensures Collect(DecodeSlot, w).Ok? && ToMap(Collect(DecodeSlot, w).value) == m <==>
      exists pairs :: SlotsCarry(Received, w, pairs) && Makes(Received, pairs, m)
  {
    if Collect(DecodeSlot, w).Ok? {
      var pairs := Collect(DecodeSlot, w).value;
      SlotsReceived(w, pairs);
      ToMapExactly(pairs, m);
    }
    if pairs :| SlotsCarry(Received, w, pairs) && Makes(Received, pairs, m) {
      SlotsReceived(w, pairs);
      ToMapExactly(pairs, m);
    }
  }

  lemma AccountParts(w: P.BundleAccount, e: (Address, BundleAccount))
    ensures DecodeAccount(w) == Ok(e) <==>
      && w.address == e.0
      && Transpose(DecodeInfo, w.info) == Ok(e.1.info) && Transpose(DecodeInfo, w.originalInfo) == Ok(e.1.originalInfo)
      && Collect(DecodeSlot, w.storage).Ok? && ToMap(Collect(DecodeSlot, w.storage).value) == e.1.storage
      && DecodeStatus(w.status) == Ok(e.1.status)
  {
  }

  lemma AccountReceived(w: P.BundleAccount, e: (Address, BundleAccount))
    ensures DecodeAccount(w) == Ok(e) <==> AccountCarries(Received, w, e)
  {
    AccountParts(w, e);
    OptionalInfoReceived(w.info, e.1.info);
    OptionalInfoReceived(w.originalInfo, e.1.originalInfo);
    StorageReceived(w.storage, e.1.storage);
    StatusReceived(w.status, e.1.status);
  }

  // ----- reverts

  lemma InfoRevertReceived(w: P.InfoRevert, r: InfoRevert)
    ensures DecodeInfoRevert(w) == Ok(r) <==> InfoRevertCarries(Received, w, r)
  {
    if w.RevertTo? && r.RevertTo? { InfoReceived(w.info, r.info); }
  }

  lemma SlotRevertReceived(w: P.RevertToSlot, e: (U256, SlotRevert))
    ensures DecodeSlotRevert(w) == Ok(e) <==> SlotRevertCarries(Received, w, e)
  {
    ScalarsExactly(w.key, e.0, "slot key");
    if w.revert.Some? && w.revert.value.ToValue? && e.1.ToValue? {
      ScalarsExactly(w.revert.value.value, e.1.value, "slot revert");
    }
  }

  lemma SlotRevertsReceived(w: seq<P.RevertToSlot>, pairs: seq<(U256, SlotRevert)>)
    ensures Collect(DecodeSlotRevert, w) == Ok(pairs) <==> SlotRevertsCarry(Received, w, pairs)
  {
    CollectExactly(DecodeSlotRevert, w, pairs);
    forall i | 0 <= i < |w| && i < |pairs|
      ensures DecodeSlotRevert(w[i]) == Ok(pairs[i]) <==> SlotRevertCarries(Received, w[i], pairs[i])
    {
      SlotRevertReceived(w[i], pairs[i]);
    }
  }

  lemma RevertStorageReceived(w: seq<P.RevertToSlot>, m: map<U256, SlotRevert>)
    ensures Collect(DecodeSlotRevert, w).Ok? && ToMap(Collect(DecodeSlotRevert, w).value) == m <==>
      exists pairs :: SlotRevertsCarry(Received, w, pairs) && Makes(Received, pairs, m)
  {
    if Collect(DecodeSlotRevert, w).Ok? {
      var pairs := Collect(DecodeSlotRevert, w).value;
      SlotRevertsReceived(w, pairs);
      ToMapExactly(pairs, m);
    }
    if pairs :| SlotRevertsCarry(Received, w, pairs) && Makes(Received, pairs, m) {
      SlotRevertsReceived(w, pairs);
      ToMapExactly(pairs, m);
    }
  }

  lemma RevertParts(w: P.Revert, e: (Address, AccountRevert))
    ensures DecodeRevert(w) == Ok(e) <==>
      && w.address == e.0
      && w.account.Some? && w.account.value.revert.Some?
      && DecodeInfoRevert(w.account.value.revert.value) == Ok(e.1.account)
      && Collect(DecodeSlotRevert, w.storage).Ok? && ToMap(Collect(DecodeSlotRevert, w.storage).value) == e.1.storage
      && DecodeStatus(w.previousStatus) == Ok(e.1.previousStatus) && w.wipeStorage == e.1.wipeStorage
  {
  }

  lemma RevertReceived(w: P.Revert, e: (Address, AccountRevert))
    ensures DecodeRevert(w) == Ok(e) <==> RevertCarries(Received, w, e)
  {
    RevertParts(w, e);
    if w.account.Some? && w.account.value.revert.Some? { InfoRevertReceived(w.account.value.revert.value, e.1.account); }
    RevertStorageReceived(w.storage, e.1.storage);
    StatusReceived(w.previousStatus, e.1.previousStatus);
  }

  lemma BlockRevertsReceived(w: seq<P.Revert>, r: seq<(Address, AccountRevert)>)
    ensures DecodeBlockReverts(w) == Ok(r) <==> BlockRevertsCarry(Received, w, r)
  {
    CollectExactly(DecodeRevert, w, r);
    forall i | 0 <= i < |w| && i < |r| ensures DecodeRevert(w[i]) == Ok(r[i]) <==> RevertCarries(Received, w[i], r[i]) {
      RevertReceived(w[i], r[i]);
    }
  }

  // ----- receipts

  lemma LogReceived(w: P.Log, l: Log)
    ensures DecodeLog(w) == Ok(l) <==> LogCarries(w, l)
  {
    if w.data.Some? { HashesExactly(w.data.value.topics, l.topics); }
  }

  lemma LogsReceived(w: seq<P.Log>, logs: seq<Log>)
    ensures Collect(DecodeLog, w) == Ok(logs) <==> |w| == |logs| && forall i :: 0 <= i < |w| ==> LogCarries(w[i], logs[i])
  {
    CollectExactly(DecodeLog, w, logs);
    forall i | 0 <= i < |w| && i < |logs| ensures DecodeLog(w[i]) == Ok(logs[i]) <==> LogCarries(w[i], logs[i]) {
      LogReceived(w[i], logs[i]);
    }
  }

  lemma ReceiptReceived(w: P.Receipt, r: Receipt)
    ensures DecodeReceipt(w) == Ok(r) <==> ReceiptCarries(w, r)
  {
    if w.receipt.Some? && w.receipt.value.NonEmpty? { LogsReceived(w.receipt.value.logs, r.logs); }
  }

  lemma BlockReceiptsReceived(w: seq<P.Receipt>, r: seq<Receipt>)
    ensures DecodeBlockReceipts(w) == Ok(r) <==> BlockReceiptsCarry(w, r)
  {
    CollectExactly(DecodeReceipt, w, r);
    forall i | 0 <= i < |w| && i < |r| ensures DecodeReceipt(w[i]) == Ok(r[i]) <==> ReceiptCarries(w[i], r[i]) {
      ReceiptReceived(w[i], r[i]);
    }
  }

  // ----- bundles

  lemma AccountsReceived(w: seq<P.BundleAccount>, pairs: seq<(Address, BundleAccount)>)
    ensures Collect(DecodeAccount, w) == Ok(pairs) <==> AccountsCarry(Received, w, pairs)
  {
    CollectExactly(DecodeAccount, w, pairs);
    forall i | 0 <= i < |w| && i < |pairs| ensures DecodeAccount(w[i]) == Ok(pairs[i]) <==> AccountCarries(Received, w[i], pairs[i]) {
      AccountReceived(w[i], pairs[i]);
    }
  }

  lemma StateReceived(w: seq<P.BundleAccount>, m: map<Address, BundleAccount>)
    ensures Collect(DecodeAccount, w).Ok? && ToMap(Collect(DecodeAccount, w).value) == m <==>
      exists pairs :: AccountsCarry(Received, w, pairs) && Makes(Received, pairs, m)
  {
    if Collect(DecodeAccount, w).Ok? {
      var pairs := Collect(DecodeAccount, w).value;
      AccountsReceived(w, pairs);
      ToMapExactly(pairs, m);
    }
    if pairs :| AccountsCarry(Received, w, pairs) && Makes(Received, pairs, m) {
      AccountsReceived(w, pairs);
      ToMapExactly(pairs, m);
    }
  }

  lemma ContractsReceived(w: seq<P.ContractBytecode>, pairs: seq<(B256, Bytecode)>)
    ensures Collect(DecodeContract, w) == Ok(pairs) <==> ContractsCarry(Received, w, pairs)
  {
    CollectExactly(DecodeContract, w, pairs);
    forall i | 0 <= i < |w| && i < |pairs| ensures DecodeContract(w[i]) == Ok(pairs[i]) <==> ContractCarries(Received, w[i], pairs[i]) {
      if w[i].bytecode.Some? { CodeReceived(w[i].bytecode.value, pairs[i].1); }
    }
  }

  lemma CodesReceived(w: seq<P.ContractBytecode>, m: map<B256, Bytecode>)
    ensures Collect(DecodeContract, w).Ok? && ToMap(Collect(DecodeContract, w).value) == m <==>
      exists pairs :: ContractsCarry(Received, w, pairs) && Makes(Received, pairs, m)
  {
    if Collect(DecodeContract, w).Ok? {
      var pairs := Collect(DecodeContract, w).value;
      ContractsReceived(w, pairs);
      ToMapExactly(pairs, m);
    }
    if pairs :| ContractsCarry(Received, w, pairs) && Makes(Received, pairs, m) {
      ContractsReceived(w, pairs);
      ToMapExactly(pairs, m);
    }
  }

  lemma RevertsReceived(w: seq<seq<P.Revert>>, r: seq<seq<(Address, AccountRevert)>>)
    ensures Collect(DecodeBlockReverts, w) == Ok(r) <==>
      |w| == |r| && forall k :: 0 <= k < |w| ==> BlockRevertsCarry(Received, w[k], r[k])
  {
    CollectExactly(DecodeBlockReverts, w, r);
    forall k | 0 <= k < |w| && k < |r| ensures DecodeBlockReverts(w[k]) == Ok(r[k]) <==> BlockRevertsCarry(Received, w[k], r[k]) {
      BlockRevertsReceived(w[k], r[k]);
    }
  }

  lemma BundleParts(w: P.BundleState, b: Bundle)
    ensures DecodeBundle(w) == Ok(b) <==>
      && Collect(DecodeAccount, w.state).Ok? && ToMap(Collect(DecodeAccount, w.state).value) == b.state
      && Collect(DecodeContract, w.contracts).Ok? && ToMap(Collect(DecodeContract, w.contracts).value) == b.contracts
      && Collect(DecodeBlockReverts, w.reverts) == Ok(b.reverts)
      && w.stateSize == b.stateSize && w.revertsSize == b.revertsSize
  {
  }

  lemma BundleReceived(w: P.BundleState, b: Bundle)
    ensures DecodeBundle(w) == Ok(b) <==> BundleCarries(Received, w, b)
  {
    BundleParts(w, b);
    StateReceived(w.state, b.state);
    CodesReceived(w.contracts, b.contracts);
    RevertsReceived(w.reverts, b.reverts);
  }

  // ----- chains and notifications

  lemma BlocksReceived(w: seq<P.Block>, blocks: seq<Block>)
    ensures Collect(DecodeBlock, w) == Ok(blocks) <==> BlocksCarry(Received, w, blocks)
  {
    CollectExactly(DecodeBlock, w, blocks);
    forall i | 0 <= i < |w| && i < |blocks| ensures DecodeBlock(w[i]) == Ok(blocks[i]) <==> BlockCarries(Received, w[i], blocks[i]) {
      BlockReceived(w[i], blocks[i]);
    }
  }

  lemma FiledReceived(w: seq<P.Block>, m: map<U64, Block>)
    ensures Collect(DecodeBlock, w).Ok? && ByNumber(Collect(DecodeBlock, w).value) == m <==>
      exists blocks :: BlocksCarry(Received, w, blocks) && Makes(Received, Numbered(blocks), m)
  {
    if Collect(DecodeBlock, w).Ok? {
      var blocks := Collect(DecodeBlock, w).value;
      BlocksReceived(w, blocks);
      ToMapExactly(Numbered(blocks), m);
    }
    if blocks :| BlocksCarry(Received, w, blocks) && Makes(Received, Numbered(blocks), m) {
      BlocksReceived(w, blocks);
      ToMapExactly(Numbered(blocks), m);
    }
  }

  lemma ReceiptsReceived(w: seq<seq<P.Receipt>>, r: seq<seq<Receipt>>)
    ensures Collect(DecodeBlockReceipts, w) == Ok(r) <==>
      |w| == |r| && forall k :: 0 <= k < |w| ==> BlockReceiptsCarry(w[k], r[k])
  {
    CollectExactly(DecodeBlockReceipts, w, r);
    forall k | 0 <= k < |w| && k < |r| ensures DecodeBlockReceipts(w[k]) == Ok(r[k]) <==> BlockReceiptsCarry(w[k], r[k]) {
      BlockReceiptsReceived(w[k], r[k]);
    }
  }

  lemma ChainParts(w: P.Chain, c: Chain)
    ensures DecodeChain(w) == Ok(c) <==>
      && w.executionOutcome.Some? && w.executionOutcome.value.bundle.Some?
      && Collect(DecodeBlock, w.blocks).Ok? && ByNumber(Collect(DecodeBlock, w.blocks).value) == c.blocks
      && DecodeBundle(w.executionOutcome.value.bundle.value) == Ok(c.outcome.bundle)
      && Collect(DecodeBlockReceipts, w.executionOutcome.value.receipts) == Ok(c.outcome.receipts)
      && w.executionOutcome.value.firstBlock == c.outcome.firstBlock && c.outcome.requests == [] && c.tries == map[]
  {
  }

  lemma ChainReceived(w: P.Chain, c: Chain)
    ensures DecodeChain(w) == Ok(c) <==> ChainCarries(Received, w, c)
  {
    ChainParts(w, c);
    FiledReceived(w.blocks, c.blocks);
    if w.executionOutcome.Some? {
      if w.executionOutcome.value.bundle.Some? { BundleReceived(w.executionOutcome.value.bundle.value, c.outcome.bundle); }
      ReceiptsReceived(w.executionOutcome.value.receipts, c.outcome.receipts);
    }
  }

  lemma OptionalChainReceived(w: Option<P.Chain>, c: Chain)
    ensures w.Some? && DecodeChain(w.value) == Ok(c) <==> OptionalChainCarries(Received, w, c)
  {
    if w.Some? { ChainReceived(w.value, c); }
  }

  lemma NotificationParts(w: P.ExExNotification, n: Notification)
    ensures DecodeNotification(w) == Ok(n) <==>
      && w.notification.Some?
      && match w.notification.value
         case ChainCommitted(new_) => n.ChainCommitted? && new_.Some? && DecodeChain(new_.value) == Ok(n.new_)
         case ChainReorged(old_, new_) =>
           && n.ChainReorged? && old_.Some? && DecodeChain(old_.value) == Ok(n.old_)
           && new_.Some? && DecodeChain(new_.value) == Ok(n.new_)
         case ChainReverted(old_) => n.ChainReverted? && old_.Some? && DecodeChain(old_.value) == Ok(n.old_)
  {
  }

  /**
   A message decodes to a notification exactly when every field of it says what the
   notification has there, and the notification has nothing the message has no place for.
   */
  lemma DecodesExactly(w: P.ExExNotification, n: Notification)
    ensures DecodeNotification(w) == Ok(n) <==> Carries(Received, w, n)
  {
    NotificationParts(w, n);
    if w.notification.Some? {
      match w.notification.value {
        case ChainCommitted(new_) =>
          if n.ChainCommitted? { OptionalChainReceived(new_, n.new_); }
        case ChainReorged(old_, new_) =>
          if n.ChainReorged? {
            OptionalChainReceived(old_, n.old_);
            OptionalChainReceived(new_, n.new_);
          }
        case ChainReverted(old_) =>
          if n.ChainReverted? { OptionalChainReceived(old_, n.old_); }
      }
    }
  }
}
