/** Every message sent carries its notification, numbers and designators spelled out in full. */
module RemoteSent {
  import opened Prelude
  import opened ExExTypes
  import opened RemoteCodec
  import opened RemoteRoundTrip
  import opened RemoteWire
  import opened RemoteReceived
  import LE = LittleEndian
  import P = Proto

  // ----- headers and transactions

  lemma NumberSent(n: U256)
    ensures Number(Sent, LE.ToBytes(32, n), n) && NumberOf(32, LE.ToBytes(32, n), n)
    ensures n < LE.TWO_128 ==> NumberOf(16, LE.ToBytes(16, n), n)
    ensures n < TWO_64 ==> NumberOf(8, LE.ToBytes(8, n), n)
  {
    LE.Widths();
    LE.FromInvertsTo(32, n);
    if n < LE.TWO_128 { LE.FromInvertsTo(16, n); }
    if n < TWO_64 { LE.FromInvertsTo(8, n); }
  }

  lemma HeaderSent(h: Header)
    ensures HeaderCarries(Sent, EncodeHeader(h), h)
  {
    NumberSent(h.difficulty);
  }

  lemma AuthorizationsSent(auths: seq<SignedAuthorization>)
    ensures AuthorizationsCarry(Sent, EncodeAuthorizations(auths), auths)
  {
    forall i | 0 <= i < |auths| ensures AuthorizationCarries(Sent, EncodeAuthorization(auths[i]), auths[i]) {
      NumberSent(auths[i].chainId);
      NumberSent(auths[i].r);
      NumberSent(auths[i].s);
    }
  }

  lemma LegacySent(t: TransactionBody)
    requires t.Legacy?
    ensures LegacyCarries(Sent, EncodeBody(t), t)
  {
    NumberSent(t.gasPrice);
    NumberSent(t.gasLimit);
    NumberSent(t.value);
  }

  lemma Eip2930Sent(t: TransactionBody)
    requires t.Eip2930?
    ensures Eip2930Carries(Sent, EncodeBody(t), t)
  {
    NumberSent(t.gasPrice);
    NumberSent(t.gasLimit);
    NumberSent(t.value);
  }

  lemma Eip1559Sent(t: TransactionBody)
    requires t.Eip1559?
    ensures Eip1559Carries(Sent, EncodeBody(t), t)
  {
    NumberSent(t.gasLimit);
    NumberSent(t.maxFee);
    NumberSent(t.maxPriorityFee);
    NumberSent(t.value);
  }

  lemma Eip4844Sent(t: TransactionBody)
    requires t.Eip4844?
    ensures Eip4844Carries(Sent, EncodeBody(t), t)
  {
    NumberSent(t.gasLimit);
    NumberSent(t.maxFee);
    NumberSent(t.maxPriorityFee);
    NumberSent(t.value);
    NumberSent(t.maxBlobFee);
  }

  lemma Eip7702Sent(t: TransactionBody)
    requires t.Eip7702?
    ensures Eip7702Carries(Sent, EncodeBody(t), t)
  {
    NumberSent(t.gasLimit);
    NumberSent(t.maxFee);
    NumberSent(t.maxPriorityFee);
    NumberSent(t.value);
    AuthorizationsSent(t.authorizations);
  }

  lemma BodySent(t: TransactionBody)
    ensures BodyCarries(Sent, EncodeBody(t), t)
  {
    match t {
      case Legacy(_, _, _, _, _, _, _) => LegacySent(t);
      case Eip2930(_, _, _, _, _, _, _, _) => Eip2930Sent(t);
      case Eip1559(_, _, _, _, _, _, _, _, _) => Eip1559Sent(t);
      case Eip4844(_, _, _, _, _, _, _, _, _, _, _) => Eip4844Sent(t);
      case Eip7702(_, _, _, _, _, _, _, _, _, _) => Eip7702Sent(t);
    }
  }

  lemma TransactionSent(t: Transaction)
    ensures TransactionCarries(Sent, EncodeTransaction(t), t)
  {
    NumberSent(t.signature.r);
    NumberSent(t.signature.s);
    BodySent(t.body);
  }

  lemma BlockSent(b: Block)
    ensures BlockCarries(Sent, EncodeBlock(b), b)
  {
    HeaderSent(b.header);
    forall i | 0 <= i < |b.transactions| ensures TransactionCarries(Sent, EncodeTransaction(b.transactions[i]), b.transactions[i]) {
      TransactionSent(b.transactions[i]);
    }
    forall i | 0 <= i < |b.ommers| ensures HeaderCarries(Sent, EncodeHeader(b.ommers[i]), b.ommers[i]) {
      HeaderSent(b.ommers[i]);
    }
  }

  // ----- accounts

  /** A delegation is sent as 0xef0100 and the address, with version 0. */
  lemma CodeSent(c: Bytecode)
    ensures CodeCarries(Sent, EncodeBytecode(c), c)
  {
  }

  /** The designator alone tells the delegation: it is 23 bytes, 0xef0100 and then the address. */
  lemma DesignatorSent(a: Address)
    ensures var w := EncodeBytecode(Delegation(a)).bytecode;
      && w.Some? && w.value.Eip7702? && w.value.delegatedAddress == a && w.value.version == 0
      && |w.value.raw| == 23 && w.value.raw[..3] == [0xef, 0x01, 0x00] && w.value.raw[3..] == a
  {
  }

  lemma InfoSent(a: AccountInfo)
    ensures InfoCarries(Sent, EncodeInfo(a), a)
  {
    NumberSent(a.balance);
    if a.code.Some? { CodeSent(a.code.value); }
  }

  lemma OptionalInfoSent(a: Option<AccountInfo>)
    ensures OptionalInfoCarries(Sent, EncodeOptionalInfo(a), a)
  {
    if a.Some? { InfoSent(a.value); }
  }

  lemma {:induction false} EntriesCount<K, V>(keys: seq<K>, m: map<K, V>)
    requires forall k :: k in keys ==> k in m
    ensures |Entries(keys, m)| == |keys|
  {
    if keys == [] {
    } else {
      EntriesCount(keys[1..], m);
    }
  }

  /** The entries of a map, in any order, make the map, each key once. */
  lemma EntriesMake<K, V>(keys: seq<K>, m: map<K, V>)
    requires Lists(keys, m.Keys)
    ensures Makes(Sent, Entries(keys, m), m)
  {
    forall k | k in keys ensures k in m {
      assert k in multiset(keys);
    }
    EntriesCount(keys, m);
    EntriesRebuild(keys, m);
    ToMapExactly(Entries(keys, m), m);
    assert |multiset(keys)| == |multiset(m.Keys)|;
  }

  lemma SlotsSent(entries: seq<(U256, StorageSlot)>, w: seq<P.StorageSlot>)
    requires |w| == |entries| && forall i :: 0 <= i < |w| ==> w[i] == EncodeSlot(entries[i])
    ensures SlotsCarry(Sent, w, entries)
  {
    forall i | 0 <= i < |w| ensures SlotCarries(Sent, w[i], entries[i]) {
      NumberSent(entries[i].0);
      NumberSent(entries[i].1.previousOrOriginal);
      NumberSent(entries[i].1.present);
    }
  }

  lemma AccountSent(slots: seq<U256>, e: (Address, BundleAccount))
    requires Lists(slots, e.1.storage.Keys)
    ensures AccountCarries(Sent, EncodeAccount(slots, e), e)
  {
    OptionalInfoSent(e.1.info);
    OptionalInfoSent(e.1.originalInfo);
    EntriesMake(slots, e.1.storage);
    SlotsSent(Entries(slots, e.1.storage), EncodeAccount(slots, e).storage);
  }

  // ----- reverts and receipts

  lemma SlotRevertsSent(entries: seq<(U256, SlotRevert)>, w: seq<P.RevertToSlot>)
    requires |w| == |entries| && forall i :: 0 <= i < |w| ==> w[i] == EncodeSlotRevert(entries[i])
    ensures SlotRevertsCarry(Sent, w, entries)
  {
    forall i | 0 <= i < |w| ensures SlotRevertCarries(Sent, w[i], entries[i]) {
      NumberSent(entries[i].0);
      if entries[i].1.ToValue? { NumberSent(entries[i].1.value); }
    }
  }

  lemma RevertSent(slots: seq<U256>, e: (Address, AccountRevert))
    requires Lists(slots, e.1.storage.Keys)
    ensures RevertCarries(Sent, EncodeRevert(slots, e), e)
  {
    if e.1.account.RevertTo? { InfoSent(e.1.account.info); }
    EntriesMake(slots, e.1.storage);
    SlotRevertsSent(Entries(slots, e.1.storage), EncodeRevert(slots, e).storage);
  }

  lemma BlockRevertsSent(o: Order, reverts: seq<seq<(Address, AccountRevert)>>, k: nat)
    requires WalksReverts(o, reverts) && k < |reverts|
    ensures BlockRevertsCarry(Sent, EncodeBlockReverts(o, k, reverts[k]), reverts[k])
  {
    forall i | 0 <= i < |reverts[k]| ensures RevertCarries(Sent, EncodeRevert(o.revertSlots(k, i), reverts[k][i]), reverts[k][i]) {
      RevertSent(o.revertSlots(k, i), reverts[k][i]);
    }
  }

  lemma BlockReceiptsSent(r: seq<Receipt>)
    ensures BlockReceiptsCarry(EncodeBlockReceipts(r), r)
  {
    forall i | 0 <= i < |r| ensures ReceiptCarries(EncodeReceipt(r[i]), r[i]) {
    }
  }

  // ----- bundles, chains and notifications

  lemma StateSent(o: Order, b: Bundle)
    requires WalksBundle(o, b)
    ensures exists pairs :: AccountsCarry(Sent, EncodeAccounts(o, b.state), pairs) && Makes(Sent, pairs, b.state)
  {
    var entries := Entries(o.accounts, b.state);
    var w := EncodeAccounts(o, b.state);
    EntriesMake(o.accounts, b.state);
    forall i | 0 <= i < |w| ensures AccountCarries(Sent, w[i], entries[i]) {
      assert entries[i] in entries;
      AccountSent(o.slots(entries[i].0), entries[i]);
    }
    assert AccountsCarry(Sent, w, entries);
  }

  lemma ContractsSent(o: Order, b: Bundle)
    requires WalksBundle(o, b)
    ensures exists pairs :: ContractsCarry(Sent, EncodeContracts(o, b.contracts), pairs) && Makes(Sent, pairs, b.contracts)
  {
    var entries := Entries(o.contracts, b.contracts);
    var w := EncodeContracts(o, b.contracts);
    EntriesMake(o.contracts, b.contracts);
    forall i | 0 <= i < |w| ensures ContractCarries(Sent, w[i], entries[i]) {
      CodeSent(entries[i].1);
    }
    assert ContractsCarry(Sent, w, entries);
  }

  lemma BundleSent(o: Order, b: Bundle)
    requires WalksBundle(o, b)
    ensures BundleCarries(Sent, EncodeBundle(o, b), b)
  {
    StateSent(o, b);
    ContractsSent(o, b);
    forall k | 0 <= k < |b.reverts| ensures BlockRevertsCarry(Sent, EncodeBlockReverts(o, k, b.reverts[k]), b.reverts[k]) {
      BlockRevertsSent(o, b.reverts, k);
    }
  }

  lemma OutcomeSent(o: Order, x: Outcome)
    requires WalksBundle(o, x.bundle)
    ensures OutcomeCarries(Sent, EncodeOutcome(o, x), x)
  {
    BundleSent(o, x.bundle);
    forall k | 0 <= k < |x.receipts| ensures BlockReceiptsCarry(EncodeBlockReceipts(x.receipts[k]), x.receipts[k]) {
      BlockReceiptsSent(x.receipts[k]);
    }
  }

  /** The blocks in the order they are sent. */
  function Listed(keys: seq<U64>, m: map<U64, Block>): seq<Block> {
    var entries := Entries(keys, m);
    seq(|entries|, i requires 0 <= i < |entries| => entries[i].1)
  }

  lemma ListedMake(keys: seq<U64>, m: map<U64, Block>)
    requires Lists(keys, m.Keys) && forall n | n in m :: m[n].header.number == n
    ensures Makes(Sent, Numbered(Listed(keys, m)), m)
  {
    var entries, blocks := Entries(keys, m), Listed(keys, m);
    EntriesMake(keys, m);
    forall i | 0 <= i < |entries| ensures Numbered(blocks)[i] == entries[i] {
      assert entries[i] in entries;
    }
    assert Numbered(blocks) == entries;
  }

  lemma ListedSent(o: Order, blocks: map<U64, Block>)
    ensures BlocksCarry(Sent, EncodeBlocks(o, blocks), Listed(o.blocks, blocks))
  {
    var w, sent := EncodeBlocks(o, blocks), Listed(o.blocks, blocks);
    forall i | 0 <= i < |w| ensures BlockCarries(Sent, w[i], sent[i]) {
      BlockSent(sent[i]);
    }
  }

  lemma ChainSent(o: Order, c: Chain)
    requires Walks(o, c) && FiledByNumber(c)
    ensures ChainCarries(Sent, EncodeChain(o, c), c)
  {
    ListedMake(o.blocks, c.blocks);
    ListedSent(o, c.blocks);
    OutcomeSent(o, c.outcome);
  }

  /** Every message sent carries its notification, in whatever order its maps are walked. */
  lemma SentCarries(oldOrder: Order, newOrder: Order, n: Notification)
    requires WalksAll(oldOrder, newOrder, n) && AllFiledByNumber(n)
    ensures Carries(Sent, EncodeNotification(oldOrder, newOrder, n), n)
  {
    match n {
      case ChainCommitted(new_) => ChainSent(newOrder, new_);
      case ChainReorged(old_, new_) =>
        ChainSent(oldOrder, old_);
        ChainSent(newOrder, new_);
      case ChainReverted(old_) => ChainSent(oldOrder, old_);
    }
  }
}
