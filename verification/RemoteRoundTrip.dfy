/**
 What survives the remote protocol: everything but the fields the schema has no place for,
 whatever order the maps are walked in.
 */
module RemoteRoundTrip {
  import opened Prelude
  import opened ExExTypes
  import opened RemoteCodec
  import LE = LittleEndian
  import P = Proto

  // ----- the fields without a place in the schema

  function EraseHeader(h: Header): Header {
    h.(requestsHash := None)
  }

  function EraseBlock(b: Block): Block {
    b.(header := EraseHeader(b.header), withdrawals := None,
       ommers := seq(|b.ommers|, i requires 0 <= i < |b.ommers| => EraseHeader(b.ommers[i])))
  }

  function EraseInfo(a: AccountInfo): AccountInfo {
    a.(accountId := None)
  }

  function EraseOptionalInfo(a: Option<AccountInfo>): Option<AccountInfo> {
    if a.None? then None else Some(EraseInfo(a.value))
  }

  function EraseAccount(a: BundleAccount): BundleAccount {
    a.(info := EraseOptionalInfo(a.info), originalInfo := EraseOptionalInfo(a.originalInfo))
  }

  function EraseInfoRevert(r: InfoRevert): InfoRevert {
    if r.RevertTo? then RevertTo(EraseInfo(r.info)) else r
  }

  function EraseRevert(e: (Address, AccountRevert)): (Address, AccountRevert) {
    (e.0, e.1.(account := EraseInfoRevert(e.1.account)))
  }

  function EraseBlockReverts(r: seq<(Address, AccountRevert)>): seq<(Address, AccountRevert)> {
    seq(|r|, i requires 0 <= i < |r| => EraseRevert(r[i]))
  }

  function EraseBundle(b: Bundle): Bundle {
    b.(state := map a | a in b.state :: EraseAccount(b.state[a]),
       reverts := seq(|b.reverts|, k requires 0 <= k < |b.reverts| => EraseBlockReverts(b.reverts[k])))
  }

  function EraseOutcome(x: Outcome): Outcome {
    x.(bundle := EraseBundle(x.bundle), requests := [])
  }

  function EraseChain(c: Chain): Chain {
    Chain(map n | n in c.blocks :: EraseBlock(c.blocks[n]), EraseOutcome(c.outcome), map[])
  }

  /** Without withdrawals, requests, request hashes, trie data and account ids. */
  function Erase(n: Notification): Notification {
    match n
    case ChainCommitted(new_) => ChainCommitted(EraseChain(new_))
    case ChainReorged(old_, new_) => ChainReorged(EraseChain(old_), EraseChain(new_))
    case ChainReverted(old_) => ChainReverted(EraseChain(old_))
  }

  // ----- orders

  /** `keys` names every element of `s` once. */
  ghost predicate Lists<K>(keys: seq<K>, s: set<K>) {
    multiset(keys) == multiset(s)
  }

  ghost predicate WalksReverts(o: Order, reverts: seq<seq<(Address, AccountRevert)>>) {
    forall k, i | 0 <= k < |reverts| && 0 <= i < |reverts[k]| ::
      Lists(o.revertSlots(k, i), reverts[k][i].1.storage.Keys)
  }

  ghost predicate WalksBundle(o: Order, b: Bundle) {
    && Lists(o.accounts, b.state.Keys)
    && Lists(o.contracts, b.contracts.Keys)
    && (forall a | a in b.state :: Lists(o.slots(a), b.state[a].storage.Keys))
    && WalksReverts(o, b.reverts)
  }

  /** `o` walks every map of the chain completely; the blocks are filed under their own numbers. */
  ghost predicate Walks(o: Order, c: Chain) {
    Lists(o.blocks, c.blocks.Keys) && WalksBundle(o, c.outcome.bundle)
  }

  ghost predicate FiledByNumber(c: Chain) {
    forall n | n in c.blocks :: c.blocks[n].header.number == n
  }

  ghost predicate WalksAll(oldOrder: Order, newOrder: Order, n: Notification) {
    && (!n.ChainCommitted? ==> Walks(oldOrder, n.old_))
    && (!n.ChainReverted? ==> Walks(newOrder, n.new_))
  }

  ghost predicate AllFiledByNumber(n: Notification) {
    && (!n.ChainCommitted? ==> FiledByNumber(n.old_))
    && (!n.ChainReverted? ==> FiledByNumber(n.new_))
  }

  ghost function SomeListing<K>(s: set<K>): (keys: seq<K>)
    ensures Lists(keys, s)
  {
    if s == {} then [] else
    var k :| k in s;
    assert multiset(s) == multiset(s - {k}) + multiset{k};
    SomeListing(s - {k}) + [k]
  }

  ghost function SomeOrder(c: Chain): Order {
    var b := c.outcome.bundle;
    Order(
      SomeListing(c.blocks.Keys), SomeListing(b.state.Keys), SomeListing(b.contracts.Keys),
      (a: Address) => if a in b.state then SomeListing(b.state[a].storage.Keys) else [],
      (k: nat, i: nat) =>
        if k < |b.reverts| && i < |b.reverts[k]| then SomeListing(b.reverts[k][i].1.storage.Keys) else [])
  }

  /** Every chain can be walked. */
  lemma SomeOrderWalks(c: Chain)
    ensures Walks(SomeOrder(c), c)
  {
  }

  // ----- collections

  lemma CollectIs<W, T>(decode: W -> Decoded<T>, w: seq<W>, d: seq<T>)
    requires |w| == |d| && forall i :: 0 <= i < |w| ==> decode(w[i]) == Ok(d[i])
    ensures Collect(decode, w) == Ok(d)
  {
    var r := Collect(decode, w).value;
    forall i | 0 <= i < |d| ensures r[i] == d[i] {
      assert decode(w[i]) == Ok(d[i]);
    }
    assert r == d;
  }

  lemma {:induction false} ToMapHolds<K, V>(pairs: seq<(K, V)>)
    ensures forall p :: p in pairs ==> p.0 in ToMap(pairs)
    ensures forall k :: k in ToMap(pairs) ==> (k, ToMap(pairs)[k]) in pairs
  {
    if pairs == [] {
    } else {
      ToMapHolds(pairs[..|pairs| - 1]);
      assert pairs == pairs[..|pairs| - 1] + [pairs[|pairs| - 1]];
    }
  }

  lemma {:induction false} EntriesCover<K, V>(keys: seq<K>, m: map<K, V>, k: K)
    requires k in keys && k in m
    ensures (k, m[k]) in Entries(keys, m)
  {
    if keys[0] != k { EntriesCover(keys[1..], m, k); }
  }

  lemma EntryOf<K, V>(keys: seq<K>, m: map<K, V>, k: K) returns (i: nat)
    requires Lists(keys, m.Keys) && k in m
    ensures i < |Entries(keys, m)| && Entries(keys, m)[i] == (k, m[k])
  {
    assert k in multiset(m.Keys);
    EntriesCover(keys, m, k);
    i :| 0 <= i < |Entries(keys, m)| && Entries(keys, m)[i] == (k, m[k]);
  }

  /** Pairs decoded from all entries of a map make up the map of what they decoded to. */
  lemma DecodedEntries<K, V, T>(keys: seq<K>, m: map<K, V>, n: map<K, T>, pairs: seq<(K, T)>)
    requires Lists(keys, m.Keys) && n.Keys == m.Keys
    requires |pairs| == |Entries(keys, m)|
    requires forall i :: 0 <= i < |pairs| ==> pairs[i].0 == Entries(keys, m)[i].0
    requires forall p :: p in pairs ==> p.0 in n && n[p.0] == p.1
    ensures ToMap(pairs) == n
  {
    ToMapHolds(pairs);
    forall k | k in n ensures k in ToMap(pairs) {
      var i := EntryOf(keys, m, k);
      assert pairs[i] in pairs;
    }
  }

  lemma EntriesRebuild<K, V>(keys: seq<K>, m: map<K, V>)
    requires Lists(keys, m.Keys)
    ensures ToMap(Entries(keys, m)) == m
  {
    DecodedEntries(keys, m, m, Entries(keys, m));
  }

  // ----- scalars

  lemma U256Back(n: U256, what: string)
    ensures ToU256(LE.ToBytes(32, n), what) == Ok(n)
    ensures ToFullU256(LE.ToBytes(32, n)) == Ok(n)
  {
    LE.Widths();
    LE.FromInvertsTo(32, n);
  }

  lemma U128Back(n: LE.U128)
    ensures ToU128(LE.ToBytes(16, n)) == Ok(n)
  {
    LE.Widths();
    LE.FromInvertsTo(16, n);
  }

  lemma U64Back(n: U64)
    ensures ToU64(LE.ToBytes(8, n)) == Ok(n)
  {
    LE.Widths();
    LE.FromInvertsTo(8, n);
  }

  /** Encoding a 256-bit number that came in fewer bytes appends the missing zeros. */
  lemma {:induction false} WideningPads(b: Bytes, k: nat)
    ensures LE.ToBytes(|b| + k, LE.FromBytes(b)) == b + seq(k, _ => 0)
  {
    if b != [] {
      WideningPads(b[1..], k);
      var n := LE.FromBytes(b);
      assert n % 256 == b[0] && n / 256 == LE.FromBytes(b[1..]);
    } else if k > 0 {
      WideningPads(b, k - 1);
    }
  }

  // ----- transactions

  lemma KindBack(k: TxKind)
    ensures DecodeKind(EncodeKind(k)) == Ok(k)
  {
  }

  lemma HashesBack(hashes: seq<B256>)
    ensures Collect<Bytes, B256>(ToB256, hashes) == Ok(hashes)
  {
    forall i | 0 <= i < |hashes| ensures ToB256(hashes[i]) == Ok(hashes[i]) {
      var hash: B256 := hashes[i];
    }
    CollectIs<Bytes, B256>(ToB256, hashes, hashes);
  }

  lemma AccessItemBack(item: AccessListItem)
    ensures DecodeAccessItem(EncodeAccessItem(item)) == Ok(item)
  {
    HashesBack(item.storageKeys);
  }

  lemma AccessListBack(items: seq<AccessListItem>)
    ensures Collect(DecodeAccessItem, EncodeAccessList(items)) == Ok(items)
  {
    forall i | 0 <= i < |items| ensures DecodeAccessItem(EncodeAccessList(items)[i]) == Ok(items[i]) {
      AccessItemBack(items[i]);
    }
    CollectIs(DecodeAccessItem, EncodeAccessList(items), items);
  }

  lemma AuthorizationBack(a: SignedAuthorization)
    ensures DecodeAuthorization(EncodeAuthorization(a)) == Ok(a)
  {
    U256Back(a.r, "r");
    U256Back(a.s, "s");
    U256Back(a.chainId, "");
  }

  /** The chain id of an authorization must have its full 32 bytes; every other 256-bit number may be shorter. */
  lemma AuthorizationChainIdWidth(w: P.AuthorizationListItem)
    ensures DecodeAuthorization(w).Ok? ==> |w.authorization.value.chainId| == 32
    ensures w.authorization.Some? && |w.authorization.value.chainId| == 8 ==> DecodeAuthorization(w).Err?
  {
  }

  lemma AuthorizationsBack(auths: seq<SignedAuthorization>)
    ensures Collect(DecodeAuthorization, EncodeAuthorizations(auths)) == Ok(auths)
  {
    forall i | 0 <= i < |auths| ensures DecodeAuthorization(EncodeAuthorizations(auths)[i]) == Ok(auths[i]) {
      AuthorizationBack(auths[i]);
    }
    CollectIs(DecodeAuthorization, EncodeAuthorizations(auths), auths);
  }

  lemma LegacyBack(t: TransactionBody)
    requires t.Legacy?
    ensures DecodeBody(EncodeBody(t)) == Ok(t)
  {
    U128Back(t.gasPrice);
    U64Back(t.gasLimit);
    KindBack(t.to);
    U256Back(t.value, "value");
  }

  lemma Eip2930Back(t: TransactionBody)
    requires t.Eip2930?
    ensures DecodeBody(EncodeBody(t)) == Ok(t)
  {
    U128Back(t.gasPrice);
    U64Back(t.gasLimit);
    KindBack(t.to);
    U256Back(t.value, "value");
    AccessListBack(t.accessList);
  }

  lemma Eip1559Back(t: TransactionBody)
    requires t.Eip1559?
    ensures DecodeBody(EncodeBody(t)) == Ok(t)
  {
    U64Back(t.gasLimit);
    U128Back(t.maxFee);
    U128Back(t.maxPriorityFee);
    KindBack(t.to);
    U256Back(t.value, "value");
    AccessListBack(t.accessList);
  }

  lemma Eip4844Back(t: TransactionBody)
    requires t.Eip4844?
    ensures DecodeBody(EncodeBody(t)) == Ok(t)
  {
    U64Back(t.gasLimit);
    U128Back(t.maxFee);
    U128Back(t.maxPriorityFee);
    U256Back(t.value, "value");
    AccessListBack(t.accessList);
    HashesBack(t.blobHashes);
    U128Back(t.maxBlobFee);
  }

  lemma Eip7702Back(t: TransactionBody)
    requires t.Eip7702?
    ensures DecodeBody(EncodeBody(t)) == Ok(t)
  {
    U64Back(t.gasLimit);
    U128Back(t.maxFee);
    U128Back(t.maxPriorityFee);
    U256Back(t.value, "value");
    AccessListBack(t.accessList);
    AuthorizationsBack(t.authorizations);
  }

  lemma BodyBack(t: TransactionBody)
    ensures DecodeBody(EncodeBody(t)) == Ok(t)
  {
    match t {
      case Legacy(_, _, _, _, _, _, _) => LegacyBack(t);
      case Eip2930(_, _, _, _, _, _, _, _) => Eip2930Back(t);
      case Eip1559(_, _, _, _, _, _, _, _, _) => Eip1559Back(t);
      case Eip4844(_, _, _, _, _, _, _, _, _, _, _) => Eip4844Back(t);
      case Eip7702(_, _, _, _, _, _, _, _, _, _) => Eip7702Back(t);
    }
  }

  /** A transaction comes back exactly, its hash and signature as sent. */
  lemma TransactionBack(t: Transaction)
    ensures DecodeTransaction(EncodeTransaction(t)) == Ok(t)
  {
    U256Back(t.signature.r, "r");
    U256Back(t.signature.s, "s");
    BodyBack(t.body);
  }

  // ----- blocks

  lemma HeaderBack(h: Header)
    ensures DecodeHeader(EncodeHeader(h)) == Ok(EraseHeader(h))
  {
    U256Back(h.difficulty, "difficulty");
  }

  lemma OmmersBack(b: Block)
    ensures Collect(DecodeHeader, EncodeBlock(b).ommers) == Ok(EraseBlock(b).ommers)
  {
    forall i | 0 <= i < |b.ommers| ensures DecodeHeader(EncodeBlock(b).ommers[i]) == Ok(EraseBlock(b).ommers[i]) {
      HeaderBack(b.ommers[i]);
    }
    CollectIs(DecodeHeader, EncodeBlock(b).ommers, EraseBlock(b).ommers);
  }

  lemma TransactionsBack(b: Block)
    ensures Collect(DecodeTransaction, EncodeBlock(b).body) == Ok(b.transactions)
  {
    forall i | 0 <= i < |b.transactions| ensures DecodeTransaction(EncodeBlock(b).body[i]) == Ok(b.transactions[i]) {
      TransactionBack(b.transactions[i]);
    }
    CollectIs(DecodeTransaction, EncodeBlock(b).body, b.transactions);
  }

  lemma SendersBack(senders: seq<Address>)
    ensures Collect<Bytes, Address>(ToAddress, senders) == Ok(senders)
  {
    forall i | 0 <= i < |senders| ensures ToAddress(senders[i]) == Ok(senders[i]) {
      var sender: Address := senders[i];
    }
    CollectIs<Bytes, Address>(ToAddress, senders, senders);
  }

  lemma BlockBack(b: Block)
    ensures DecodeBlock(EncodeBlock(b)) == Ok(EraseBlock(b))
  {
    HeaderBack(b.header);
    TransactionsBack(b);
    OmmersBack(b);
    SendersBack(b.senders);
  }

  // ----- accounts

  lemma BytecodeBack(c: Bytecode)
    ensures DecodeBytecode(EncodeBytecode(c)) == Ok(c)
  {
  }

  lemma InfoBack(a: AccountInfo)
    ensures DecodeInfo(EncodeInfo(a)) == Ok(EraseInfo(a))
  {
    U256Back(a.balance, "balance");
    if a.code.Some? { BytecodeBack(a.code.value); }
  }

  lemma OptionalInfoBack(a: Option<AccountInfo>)
    ensures Transpose(DecodeInfo, EncodeOptionalInfo(a)) == Ok(EraseOptionalInfo(a))
  {
    if a.Some? { InfoBack(a.value); }
  }

  lemma StatusBack(s: AccountStatus)
    ensures DecodeStatus(EncodeStatus(s)) == Ok(s)
  {
  }

  lemma SlotBack(e: (U256, StorageSlot))
    ensures DecodeSlot(EncodeSlot(e)) == Ok(e)
  {
    U256Back(e.0, "key");
    U256Back(e.1.previousOrOriginal, "previous or original value");
    U256Back(e.1.present, "present value");
  }

  lemma SlotsBack(slots: seq<U256>, e: (Address, BundleAccount))
    ensures Collect(DecodeSlot, EncodeAccount(slots, e).storage) == Ok(Entries(slots, e.1.storage))
  {
    var entries := Entries(slots, e.1.storage);
    var w := EncodeAccount(slots, e).storage;
    forall i | 0 <= i < |entries| ensures DecodeSlot(w[i]) == Ok(entries[i]) {
      SlotBack(entries[i]);
    }
    CollectIs(DecodeSlot, w, entries);
  }

  lemma AccountBack(slots: seq<U256>, e: (Address, BundleAccount))
    requires Lists(slots, e.1.storage.Keys)
    ensures DecodeAccount(EncodeAccount(slots, e)) == Ok((e.0, EraseAccount(e.1)))
  {
    OptionalInfoBack(e.1.info);
    OptionalInfoBack(e.1.originalInfo);
    StatusBack(e.1.status);
    SlotsBack(slots, e);
    EntriesRebuild(slots, e.1.storage);
  }

  // ----- reverts

  lemma SlotRevertBack(e: (U256, SlotRevert))
    ensures DecodeSlotRevert(EncodeSlotRevert(e)) == Ok(e)
  {
    U256Back(e.0, "slot key");
    if e.1.ToValue? { U256Back(e.1.value, "slot revert"); }
  }

  lemma SlotRevertsBack(slots: seq<U256>, e: (Address, AccountRevert))
    ensures Collect(DecodeSlotRevert, EncodeRevert(slots, e).storage) == Ok(Entries(slots, e.1.storage))
  {
    var entries := Entries(slots, e.1.storage);
    var w := EncodeRevert(slots, e).storage;
    forall i | 0 <= i < |entries| ensures DecodeSlotRevert(w[i]) == Ok(entries[i]) {
      SlotRevertBack(entries[i]);
    }
    CollectIs(DecodeSlotRevert, w, entries);
  }

  lemma InfoRevertBack(r: InfoRevert)
    ensures DecodeInfoRevert(EncodeInfoRevert(r)) == Ok(EraseInfoRevert(r))
  {
    if r.RevertTo? { InfoBack(r.info); }
  }

  lemma RevertBack(slots: seq<U256>, e: (Address, AccountRevert))
    requires Lists(slots, e.1.storage.Keys)
    ensures DecodeRevert(EncodeRevert(slots, e)) == Ok(EraseRevert(e))
  {
    InfoRevertBack(e.1.account);
    StatusBack(e.1.previousStatus);
    SlotRevertsBack(slots, e);
    EntriesRebuild(slots, e.1.storage);
  }

  lemma BlockRevertsBack(o: Order, reverts: seq<seq<(Address, AccountRevert)>>, k: nat)
    requires WalksReverts(o, reverts) && k < |reverts|
    ensures DecodeBlockReverts(EncodeBlockReverts(o, k, reverts[k])) == Ok(EraseBlockReverts(reverts[k]))
  {
    var w := EncodeBlockReverts(o, k, reverts[k]);
    forall i | 0 <= i < |w| ensures DecodeRevert(w[i]) == Ok(EraseBlockReverts(reverts[k])[i]) {
      RevertBack(o.revertSlots(k, i), reverts[k][i]);
    }
    CollectIs(DecodeRevert, w, EraseBlockReverts(reverts[k]));
  }

  // ----- receipts

  lemma LogBack(l: Log)
    ensures DecodeLog(EncodeLog(l)) == Ok(l)
  {
    HashesBack(l.topics);
  }

  lemma ReceiptBack(r: Receipt)
    ensures DecodeReceipt(EncodeReceipt(r)) == Ok(r)
  {
    var w := EncodeReceipt(r).receipt.value.logs;
    forall i | 0 <= i < |w| ensures DecodeLog(w[i]) == Ok(r.logs[i]) {
      LogBack(r.logs[i]);
    }
    CollectIs(DecodeLog, w, r.logs);
  }

  lemma BlockReceiptsBack(receipts: seq<Receipt>)
    ensures DecodeBlockReceipts(EncodeBlockReceipts(receipts)) == Ok(receipts)
  {
    var w := EncodeBlockReceipts(receipts);
    forall i | 0 <= i < |w| ensures DecodeReceipt(w[i]) == Ok(receipts[i]) {
      ReceiptBack(receipts[i]);
    }
    CollectIs(DecodeReceipt, w, receipts);
  }

  // ----- bundles

  lemma AccountsBack(o: Order, b: Bundle, pairs: seq<(Address, BundleAccount)>)
    requires WalksBundle(o, b)
    requires |pairs| == |Entries(o.accounts, b.state)|
    requires forall i :: 0 <= i < |pairs| ==>
      pairs[i] == (Entries(o.accounts, b.state)[i].0, EraseAccount(Entries(o.accounts, b.state)[i].1))
    ensures Collect(DecodeAccount, EncodeAccounts(o, b.state)) == Ok(pairs)
  {
    var entries := Entries(o.accounts, b.state);
    var w := EncodeAccounts(o, b.state);
    forall i | 0 <= i < |entries| ensures DecodeAccount(w[i]) == Ok(pairs[i]) {
      assert entries[i] in entries;
      AccountBack(o.slots(entries[i].0), entries[i]);
    }
    CollectIs(DecodeAccount, w, pairs);
  }

  lemma StateBack(o: Order, b: Bundle)
    requires WalksBundle(o, b)
    ensures Collect(DecodeAccount, EncodeAccounts(o, b.state)).Ok?
    ensures ToMap(Collect(DecodeAccount, EncodeAccounts(o, b.state)).value) == EraseBundle(b).state
  {
    var entries := Entries(o.accounts, b.state);
    var pairs := seq(|entries|, i requires 0 <= i < |entries| => (entries[i].0, EraseAccount(entries[i].1)));
    AccountsBack(o, b, pairs);
    forall i | 0 <= i < |entries| ensures entries[i].0 in b.state && b.state[entries[i].0] == entries[i].1 {
      assert entries[i] in entries;
    }
    DecodedEntries(o.accounts, b.state, EraseBundle(b).state, pairs);
  }

  lemma ContractsBack(o: Order, b: Bundle)
    requires WalksBundle(o, b)
    ensures Collect(DecodeContract, EncodeContracts(o, b.contracts)) == Ok(Entries(o.contracts, b.contracts))
  {
    var entries := Entries(o.contracts, b.contracts);
    var w := EncodeContracts(o, b.contracts);
    forall i | 0 <= i < |entries| ensures DecodeContract(w[i]) == Ok(entries[i]) {
      BytecodeBack(entries[i].1);
    }
    CollectIs(DecodeContract, w, entries);
  }

  lemma RevertsBack(o: Order, b: Bundle)
    requires WalksBundle(o, b)
    ensures Collect(DecodeBlockReverts, EncodeReverts(o, b.reverts)) == Ok(EraseBundle(b).reverts)
  {
    var w := EncodeReverts(o, b.reverts);
    forall k | 0 <= k < |w| ensures DecodeBlockReverts(w[k]) == Ok(EraseBundle(b).reverts[k]) {
      BlockRevertsBack(o, b.reverts, k);
    }
    CollectIs(DecodeBlockReverts, w, EraseBundle(b).reverts);
  }

  lemma BundleBack(o: Order, b: Bundle)
    requires WalksBundle(o, b)
    ensures DecodeBundle(EncodeBundle(o, b)) == Ok(EraseBundle(b))
  {
    StateBack(o, b);
    ContractsBack(o, b);
    EntriesRebuild(o.contracts, b.contracts);
    RevertsBack(o, b);
  }

  // ----- chains

  lemma ReceiptsBack(o: Order, x: Outcome)
    ensures Collect(DecodeBlockReceipts, EncodeOutcome(o, x).receipts) == Ok(x.receipts)
  {
    var w := EncodeOutcome(o, x).receipts;
    forall i | 0 <= i < |w| ensures DecodeBlockReceipts(w[i]) == Ok(x.receipts[i]) {
      BlockReceiptsBack(x.receipts[i]);
    }
    CollectIs(DecodeBlockReceipts, w, x.receipts);
  }

  lemma BlocksBack(o: Order, c: Chain, blocks: seq<Block>)
    requires |blocks| == |Entries(o.blocks, c.blocks)|
    requires forall i :: 0 <= i < |blocks| ==> blocks[i] == EraseBlock(Entries(o.blocks, c.blocks)[i].1)
    ensures Collect(DecodeBlock, EncodeBlocks(o, c.blocks)) == Ok(blocks)
  {
    var w := EncodeBlocks(o, c.blocks);
    forall i | 0 <= i < |w| ensures DecodeBlock(w[i]) == Ok(blocks[i]) {
      BlockBack(Entries(o.blocks, c.blocks)[i].1);
    }
    CollectIs(DecodeBlock, w, blocks);
  }

  lemma FiledBack(o: Order, c: Chain, blocks: seq<Block>)
    requires Walks(o, c) && FiledByNumber(c)
    requires |blocks| == |Entries(o.blocks, c.blocks)|
    requires forall i :: 0 <= i < |blocks| ==> blocks[i] == EraseBlock(Entries(o.blocks, c.blocks)[i].1)
    ensures ByNumber(blocks) == EraseChain(c).blocks
  {
    var entries := Entries(o.blocks, c.blocks);
    var erased := EraseChain(c).blocks;
    var pairs := seq(|blocks|, i requires 0 <= i < |blocks| => (blocks[i].header.number, blocks[i]));
    forall i | 0 <= i < |pairs|
      ensures pairs[i].0 == entries[i].0 && pairs[i].0 in erased && erased[pairs[i].0] == pairs[i].1
    {
      assert entries[i] in entries;
    }
    DecodedEntries(o.blocks, c.blocks, erased, pairs);
  }

  lemma ChainBack(o: Order, c: Chain)
    requires Walks(o, c) && FiledByNumber(c)
    ensures DecodeChain(EncodeChain(o, c)) == Ok(EraseChain(c))
  {
    var entries := Entries(o.blocks, c.blocks);
    var blocks := seq(|entries|, i requires 0 <= i < |entries| => EraseBlock(entries[i].1));
    BlocksBack(o, c, blocks);
    FiledBack(o, c, blocks);
    BundleBack(o, c.outcome.bundle);
    ReceiptsBack(o, c.outcome);
  }

  // ----- notifications

  /** Whatever order the maps are walked in, a notification comes back with only the erased fields lost. */
  lemma RoundTrip(oldOrder: Order, newOrder: Order, n: Notification)
    requires WalksAll(oldOrder, newOrder, n) && AllFiledByNumber(n)
    ensures DecodeNotification(EncodeNotification(oldOrder, newOrder, n)) == Ok(Erase(n))
  {
    match n
    case ChainCommitted(new_) => CommittedBack(oldOrder, newOrder, new_);
    case ChainReorged(old_, new_) => ReorgedBack(oldOrder, newOrder, old_, new_);
    case ChainReverted(old_) => RevertedBack(oldOrder, newOrder, old_);
  }

  lemma CommittedBack(oldOrder: Order, newOrder: Order, new_: Chain)
    requires Walks(newOrder, new_) && FiledByNumber(new_)
    ensures DecodeNotification(EncodeNotification(oldOrder, newOrder, ChainCommitted(new_))) == Ok(Erase(ChainCommitted(new_)))
  {
    ChainBack(newOrder, new_);
  }

  lemma ReorgedBack(oldOrder: Order, newOrder: Order, old_: Chain, new_: Chain)
    requires Walks(oldOrder, old_) && FiledByNumber(old_) && Walks(newOrder, new_) && FiledByNumber(new_)
    ensures DecodeNotification(EncodeNotification(oldOrder, newOrder, ChainReorged(old_, new_)))
         == Ok(Erase(ChainReorged(old_, new_)))
  {
    ChainBack(oldOrder, old_);
    ChainBack(newOrder, new_);
  }

  lemma RevertedBack(oldOrder: Order, newOrder: Order, old_: Chain)
    requires Walks(oldOrder, old_) && FiledByNumber(old_)
    ensures DecodeNotification(EncodeNotification(oldOrder, newOrder, ChainReverted(old_))) == Ok(Erase(ChainReverted(old_)))
  {
    ChainBack(oldOrder, old_);
  }

  /** Two notifications that share one encoding differ in erased fields only. */
  lemma SameMessageSameContent(oldOrder: Order, newOrder: Order, m: Notification, oldOrder': Order, newOrder': Order, n: Notification)
    requires WalksAll(oldOrder, newOrder, m) && AllFiledByNumber(m)
    requires WalksAll(oldOrder', newOrder', n) && AllFiledByNumber(n)
    requires EncodeNotification(oldOrder, newOrder, m) == EncodeNotification(oldOrder', newOrder', n)
    ensures Erase(m) == Erase(n)
  {
    RoundTrip(oldOrder, newOrder, m);
    RoundTrip(oldOrder', newOrder', n);
  }

  // ----- what decoding yields has nothing left to lose

  lemma DecodedInfoIsErased(w: Option<P.AccountInfo>)
    requires Transpose(DecodeInfo, w).Ok?
    ensures var a := Transpose(DecodeInfo, w).value; EraseOptionalInfo(a) == a
  {
  }

  lemma DecodedAccountIsErased(w: P.BundleAccount)
    requires DecodeAccount(w).Ok?
    ensures EraseAccount(DecodeAccount(w).value.1) == DecodeAccount(w).value.1
  {
    DecodedInfoIsErased(w.info);
    DecodedInfoIsErased(w.originalInfo);
  }

  lemma DecodedRevertIsErased(w: P.Revert)
    requires DecodeRevert(w).Ok?
    ensures EraseRevert(DecodeRevert(w).value) == DecodeRevert(w).value
  {
  }

  lemma DecodedBlockRevertsAreErased(w: seq<P.Revert>)
    requires DecodeBlockReverts(w).Ok?
    ensures EraseBlockReverts(DecodeBlockReverts(w).value) == DecodeBlockReverts(w).value
  {
    var d := DecodeBlockReverts(w).value;
    forall i | 0 <= i < |d| ensures EraseRevert(d[i]) == d[i] {
      assert DecodeRevert(w[i]) == Ok(d[i]);
      DecodedRevertIsErased(w[i]);
    }
  }

  lemma DecodedStateIsErased(w: seq<P.BundleAccount>, a: Address)
    requires Collect(DecodeAccount, w).Ok? && a in ToMap(Collect(DecodeAccount, w).value)
    ensures var m := ToMap(Collect(DecodeAccount, w).value); EraseAccount(m[a]) == m[a]
  {
    var d := Collect(DecodeAccount, w).value;
    ToMapHolds(d);
    var i :| 0 <= i < |d| && d[i] == (a, ToMap(d)[a]);
    assert DecodeAccount(w[i]) == Ok(d[i]);
    DecodedAccountIsErased(w[i]);
  }

  lemma DecodedBundleIsErased(w: P.BundleState)
    requires DecodeBundle(w).Ok?
    ensures EraseBundle(DecodeBundle(w).value) == DecodeBundle(w).value
  {
    var b := DecodeBundle(w).value;
    forall a | a in b.state ensures EraseAccount(b.state[a]) == b.state[a] {
      DecodedStateIsErased(w.state, a);
    }
    assert EraseBundle(b).state == b.state;
    forall k | 0 <= k < |b.reverts| ensures EraseBlockReverts(b.reverts[k]) == b.reverts[k] {
      assert DecodeBlockReverts(w.reverts[k]) == Ok(b.reverts[k]);
      DecodedBlockRevertsAreErased(w.reverts[k]);
    }
    assert EraseBundle(b).reverts == b.reverts;
  }

  lemma DecodedHeaderIsErased(w: P.Header)
    requires DecodeHeader(w).Ok?
    ensures EraseHeader(DecodeHeader(w).value) == DecodeHeader(w).value
  {
  }

  lemma DecodedBlockIsErased(w: P.Block)
    requires DecodeBlock(w).Ok?
    ensures EraseBlock(DecodeBlock(w).value) == DecodeBlock(w).value
  {
    var b := DecodeBlock(w).value;
    DecodedHeaderIsErased(w.header.value.header.value);
    forall i | 0 <= i < |b.ommers| ensures EraseHeader(b.ommers[i]) == b.ommers[i] {
      assert DecodeHeader(w.ommers[i]) == Ok(b.ommers[i]);
      DecodedHeaderIsErased(w.ommers[i]);
    }
    assert EraseBlock(b).ommers == b.ommers;
  }

  lemma DecodedBlocksAreErased(w: seq<P.Block>, n: U64)
    requires Collect(DecodeBlock, w).Ok? && n in ByNumber(Collect(DecodeBlock, w).value)
    ensures var b := ByNumber(Collect(DecodeBlock, w).value)[n]; EraseBlock(b) == b && b.header.number == n
  {
    var d := Collect(DecodeBlock, w).value;
    var pairs := seq(|d|, i requires 0 <= i < |d| => (d[i].header.number, d[i]));
    assert ByNumber(d) == ToMap(pairs);
    ToMapHolds(pairs);
    var i :| 0 <= i < |pairs| && pairs[i] == (n, ByNumber(d)[n]);
    assert DecodeBlock(w[i]) == Ok(d[i]);
    DecodedBlockIsErased(w[i]);
  }

  lemma DecodedChainIsErased(w: P.Chain)
    requires DecodeChain(w).Ok?
    ensures EraseChain(DecodeChain(w).value) == DecodeChain(w).value && FiledByNumber(DecodeChain(w).value)
  {
    var c := DecodeChain(w).value;
    forall n | n in c.blocks ensures EraseBlock(c.blocks[n]) == c.blocks[n] && c.blocks[n].header.number == n {
      DecodedBlocksAreErased(w.blocks, n);
    }
    assert EraseChain(c).blocks == c.blocks;
    DecodedBundleIsErased(w.executionOutcome.value.bundle.value);
  }

  lemma DecodedIsErased(w: P.ExExNotification)
    requires DecodeNotification(w).Ok?
    ensures Erase(DecodeNotification(w).value) == DecodeNotification(w).value
    ensures AllFiledByNumber(DecodeNotification(w).value)
  {
    match w.notification.value {
      case ChainCommitted(new_) =>
        DecodedChainIsErased(new_.value);
      case ChainReorged(old_, new_) =>
        DecodedChainIsErased(old_.value);
        DecodedChainIsErased(new_.value);
      case ChainReverted(old_) =>
        DecodedChainIsErased(old_.value);
    }
  }

  /**
   Whatever message decodes, however short its integers, odd its designators, repeated its keys
   or unsorted its blocks: encoding the result again, in any order, decodes to the same notification.
   */
  lemma ReencodingIsStable(w: P.ExExNotification, oldOrder: Order, newOrder: Order)
    requires DecodeNotification(w).Ok? && WalksAll(oldOrder, newOrder, DecodeNotification(w).value)
    ensures DecodeNotification(EncodeNotification(oldOrder, newOrder, DecodeNotification(w).value)) == DecodeNotification(w)
  {
    DecodedIsErased(w);
    RoundTrip(oldOrder, newOrder, DecodeNotification(w).value);
  }
}
