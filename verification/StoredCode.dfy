/** The bytecode table holds the code of every account that can come back, under the hash of that code. */
module StoredCode {
  import opened Prelude
  import opened DecimalText
  import opened Tables
  import opened Execution
  import opened ChainEvents
  import opened Rollup
  import opened Undo
  import opened ChainUndo

  /** The code of the account is empty or stored. */
  predicate Coded(t: Tables, info: Account) {
    info.codeHash == KECCAK_EMPTY || info.codeHash in t.bytecode
  }

  predicate CodedRow(t: Tables, row: Option<Account>) {
    row.Some? ==> Coded(t, row.value)
  }

  /** Code is stored under its own hash, and no stored or logged account lacks its code. */
  ghost predicate KnownCode(codeOf: U256 -> Bytes, t: Tables) {
    && (forall h :: h in t.bytecode ==> t.bytecode[h] == codeOf(h))
    && (forall a :: CodedRow(t, Lookup(t.account, a)))
    && (forall row :: row in t.accountRevert ==> CodedRow(t, t.accountRevert[row]))
  }

  /** The bundle lists code under its own hash, and every account it writes has its code stored or listed. */
  ghost predicate CodedBundle(codeOf: U256 -> Bytes, t: Tables, b: Bundle) {
    && (forall c :: c in b.contracts ==> c.1 == codeOf(c.0))
    && (forall x :: x in b.accounts && x.1.Some? && !Coded(t, x.1.value) ==>
          exists c :: c in b.contracts && c.0 == x.1.value.codeHash)
  }

  /** On tables with known code a block's bundle keeps it known. */
  ghost predicate CodedNode<S(!new)>(node: Node<S>, codeOf: U256 -> Bytes) {
    forall t: Tables, s: Submission :: KnownCode(codeOf, t) && ExecuteBlock(node, t, s).Ok? ==>
      CodedBundle(codeOf, t, ExecuteBlock(node, t, s).value.1)
  }

  /** The code that a read of the account runs. */
  function CodeOfAccount(t: Tables, a: Address): Bytes {
    if a in t.account && t.account[a].codeHash != KECCAK_EMPTY then CodeByHash(t.bytecode, t.account[a].codeHash) else []
  }

  /** On tables with known code an account runs the code its hash stands for. */
  lemma AccountRunsItsCode(codeOf: U256 -> Bytes, t: Tables, a: Address)
    requires KnownCode(codeOf, t) && a in t.account
    ensures CodeOfAccount(t, a) == if t.account[a].codeHash == KECCAK_EMPTY then [] else codeOf(t.account[a].codeHash)
  {
    assert CodedRow(t, Lookup(t.account, a));
  }

  /** On tables with known code, accounts that match run the same code, whatever else either table holds. */
  lemma SameCode(codeOf: U256 -> Bytes, v: Tables, t: Tables, a: Address)
    requires KnownCode(codeOf, v) && KnownCode(codeOf, t)
    requires AccountMatches(Lookup(v.account, a), Lookup(t.account, a))
    ensures CodeOfAccount(v, a) == CodeOfAccount(t, a)
  {
    assert CodedRow(v, Lookup(v.account, a)) && CodedRow(t, Lookup(t.account, a));
  }

  lemma EmptyDatabaseIsKnown(codeOf: U256 -> Bytes)
    ensures KnownCode(codeOf, EMPTY_TABLES)
  {
  }

  lemma {:induction false} ContractsKnown(codeOf: U256 -> Bytes, bytecode: map<U256, Bytes>, contracts: seq<(U256, Bytes)>)
    requires forall h :: h in bytecode ==> bytecode[h] == codeOf(h)
    requires forall c :: c in contracts ==> c.1 == codeOf(c.0)
    ensures var more := AddContracts(bytecode, contracts);
      forall h :: h in more ==> more[h] == codeOf(h)
  {
    if contracts == [] {
    } else {
      assert Last(contracts) in contracts;
      ContractsKnown(codeOf, bytecode, Init(contracts));
    }
  }

  /** What is coded stays coded, since code is never removed. */
  lemma StaysCoded(t: Tables, u: Tables, contracts: seq<(U256, Bytes)>, row: Option<Account>)
    requires u.bytecode == AddContracts(t.bytecode, contracts) && CodedRow(t, row)
    ensures CodedRow(u, row)
  {
    if row.Some? { CodeIsPermanent(t.bytecode, contracts, row.value.codeHash); }
  }

  lemma {:induction false} FoundIsListed<K, V>(kvs: seq<(K, V)>, k: K)
    ensures Find(kvs, k).Some? ==> (k, Find(kvs, k).value) in kvs
  {
    if kvs == [] {
    } else {
      FoundIsListed(Init(kvs), k);
    }
  }

  /** An account written by the bundle has its code stored once the contracts are. */
  lemma WrittenIsCoded(codeOf: U256 -> Bytes, t: Tables, u: Tables, b: Bundle, a: Address)
    requires CodedBundle(codeOf, t, b) && u.bytecode == AddContracts(t.bytecode, b.contracts)
    requires Find(b.accounts, a).Some?
    ensures CodedRow(u, Find(b.accounts, a).value)
  {
    var info := Find(b.accounts, a).value;
    FoundIsListed(b.accounts, a);
    if info.Some? {
      var x := (a, info);
      assert x in b.accounts;
      CodeIsPermanent(t.bytecode, b.contracts, info.value.codeHash);
    }
  }

  lemma InsertKeepsKnown(codeOf: U256 -> Bytes, t: Tables, block: Block, b: Bundle)
    requires KnownCode(codeOf, t) && ValidBundle(t, b) && CodedBundle(codeOf, t, b) && InsertBlock(t, block, b).Ok?
    ensures KnownCode(codeOf, InsertBlock(t, block, b).value)
  {
    var u := InsertBlock(t, block, b).value;
    ContractsKnown(codeOf, t.bytecode, b.contracts);
    forall a ensures CodedRow(u, Lookup(u.account, a)) {
      InsertedAccountCoded(codeOf, t, block, b, a);
    }
    forall row | row in u.accountRevert ensures CodedRow(u, u.accountRevert[row]) {
      InsertedRowCoded(codeOf, t, block, b, row);
    }
  }

  lemma InsertedAccountCoded(codeOf: U256 -> Bytes, t: Tables, block: Block, b: Bundle, a: Address)
    requires KnownCode(codeOf, t) && CodedBundle(codeOf, t, b) && InsertBlock(t, block, b).Ok?
    ensures var u := InsertBlock(t, block, b).value; CodedRow(u, Lookup(u.account, a))
  {
    var u := InsertBlock(t, block, b).value;
    AccountsLookup(t.account, b.accounts, a);
    if Find(b.accounts, a).Some? {
      WrittenIsCoded(codeOf, t, u, b, a);
    } else {
      StaysCoded(t, u, b.contracts, Lookup(t.account, a));
    }
  }

  /** A row the insert logs holds the account as it was before. */
  lemma InsertedRowCoded(codeOf: U256 -> Bytes, t: Tables, block: Block, b: Bundle, row: AccountRow)
    requires KnownCode(codeOf, t) && ValidBundle(t, b) && InsertBlock(t, block, b).Ok?
    requires row in InsertBlock(t, block, b).value.accountRevert
    ensures var u := InsertBlock(t, block, b).value; CodedRow(u, u.accountRevert[row])
  {
    var u, number := InsertBlock(t, block, b).value, ToText(block.header.number);
    LoggedAccountLookup(t.accountRevert, number, AccountLog(b), row);
    assert Lookup(u.accountRevert, row) == Some(u.accountRevert[row]);
    var logged := Find(AccountLog(b), row.address);
    if row.number == number && logged.Some? {
      assert logged.value == Lookup(t.account, row.address);
      StaysCoded(t, u, b.contracts, Lookup(t.account, row.address));
    } else {
      assert row in t.accountRevert && t.accountRevert[row] == u.accountRevert[row];
      StaysCoded(t, u, b.contracts, t.accountRevert[row]);
    }
  }

  lemma RestoreKeepsKnown(codeOf: U256 -> Bytes, t: Tables, number: string)
    requires KnownCode(codeOf, t)
    ensures KnownCode(codeOf, Restored(t, number))
  {
    var v := Restored(t, number);
    RestoredLookups(t, number);
    forall a ensures CodedRow(v, Lookup(v.account, a)) {
      assert Lookup(v.account, a) == RestoredAccount(t, number, a);
      assert CodedRow(t, RestoredAccount(t, number, a)) by {
        assert CodedRow(t, Lookup(t.account, a));
      }
    }
    forall row | row in v.accountRevert ensures CodedRow(v, v.accountRevert[row]) {
      assert CodedRow(t, t.accountRevert[row]);
    }
  }

  /** Writing an account of the same code, or of none, keeps code known. */
  lemma WriteKeepsKnown(codeOf: U256 -> Bytes, t: Tables, a: Address, info: Account)
    requires KnownCode(codeOf, t) && Coded(t, info)
    ensures KnownCode(codeOf, t.(account := t.account[a := info]))
  {
    var u := t.(account := t.account[a := info]);
    forall x ensures CodedRow(u, Lookup(u.account, x)) {
      assert CodedRow(t, Lookup(t.account, x));
    }
    forall row | row in u.accountRevert ensures CodedRow(u, u.accountRevert[row]) {
      assert CodedRow(t, t.accountRevert[row]);
    }
  }

  lemma DepositKeepsKnown(codeOf: U256 -> Bytes, t: Tables, a: Address, amount: U256)
    requires KnownCode(codeOf, t)
    ensures KnownCode(codeOf, AddDeposit(t, a, amount))
    ensures TakeDeposit(t, a, amount).Ok? ==> KnownCode(codeOf, TakeDeposit(t, a, amount).value)
  {
    assert CodedRow(t, Lookup(t.account, a));
    var info := if a in t.account then t.account[a] else EMPTY_ACCOUNT;
    WriteKeepsKnown(codeOf, t, a, info.(balance := WrappingAdd(info.balance, amount)));
    if a in t.account { WriteKeepsKnown(codeOf, t, a, info.(balance := WrappingSub(info.balance, amount))); }
  }

  // ----- events

  lemma CommitKeepsKnown<S(!new)>(node: Node<S>, codeOf: U256 -> Bytes, t: Tables, e: Event)
    requires SoundNode(node) && CodedNode(node, codeOf) && KnownCode(codeOf, t) && CommitEvent(node, t, e).Ok?
    ensures KnownCode(codeOf, CommitEvent(node, t, e).value)
  {
    if IsSubmission(e) {
      var executed := ExecuteBlock(node, t, SubmissionOf(e.tx, e.event.blockDataHash));
      if executed.Ok? { InsertKeepsKnown(codeOf, t, executed.value.0, executed.value.1); }
    } else if IsDeposit(e) {
      DepositKeepsKnown(codeOf, t, e.event.recipient, e.event.amount);
    } else {
      assert CommitEvent(node, t, e).value == t;
    }
  }

  lemma RevertKeepsKnown(codeOf: U256 -> Bytes, t: Tables, e: Event)
    requires KnownCode(codeOf, t) && RevertEvent(t, e).Ok?
    ensures KnownCode(codeOf, RevertEvent(t, e).value)
  {
    if IsSubmission(e) {
      RestoreKeepsKnown(codeOf, t, ToText(e.tx.call.value.header.sequence));
    } else if IsDeposit(e) {
      DepositKeepsKnown(codeOf, t, e.event.recipient, e.event.amount);
    } else {
      assert RevertEvent(t, e).value == t;
    }
  }

  /** Committing any events, as far as it gets, keeps code known. */
  lemma {:induction false} CommitAllKeepsKnown<S(!new)>(node: Node<S>, codeOf: U256 -> Bytes, t: Tables, events: seq<Event>)
    requires SoundNode(node) && CodedNode(node, codeOf) && KnownCode(codeOf, t)
    ensures KnownCode(codeOf, CommitAll(node, t, events).tables)
    decreases |events|
  {
    if events == [] {
    } else if CommitEvent(node, t, events[0]).Ok? {
      CommitKeepsKnown(node, codeOf, t, events[0]);
      CommitAllKeepsKnown(node, codeOf, CommitEvent(node, t, events[0]).value, events[1..]);
    }
  }

  lemma {:induction false} RevertAllKeepsKnown(codeOf: U256 -> Bytes, t: Tables, events: seq<Event>)
    requires KnownCode(codeOf, t)
    ensures KnownCode(codeOf, RevertAll(t, events).tables)
    decreases |events|
  {
    if events == [] {
    } else if RevertEvent(t, events[0]).Ok? {
      RevertKeepsKnown(codeOf, t, events[0]);
      RevertAllKeepsKnown(codeOf, RevertEvent(t, events[0]).value, events[1..]);
    }
  }

  /** Whatever notification is handled, and however far it gets, code stays known. */
  lemma NotifyKeepsKnown<S(!new)>(
    node: Node<S>, codeOf: U256 -> Bytes, decode: Log -> Option<ContractEvent>, t: Tables, n: Notification)
    requires SoundNode(node) && CodedNode(node, codeOf) && KnownCode(codeOf, t)
    ensures KnownCode(codeOf, Notify(node, decode, t, n).tables)
  {
    var after := t;
    if n.reverted.Some? {
      var events := Reverse(RollupEvents(n.reverted.value, decode));
      RevertAllKeepsKnown(codeOf, t, events);
      after := RevertAll(t, events).tables;
    }
    if n.committed.Some? { CommitAllKeepsKnown(node, codeOf, after, RollupEvents(n.committed.value, decode)); }
  }
}
