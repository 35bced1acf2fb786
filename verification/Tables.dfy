/**
 The six tables of the rollup database as a value, and what the two block operations do to
 them. Rows are keyed as the UNIQUE constraints key them; block numbers are decimal text.
 */
module Tables {
  import opened Prelude
  import opened DecimalText
  import opened TextTip

  type Address = nat

  /** The hash of empty bytecode, in every account that has no code. */
  const KECCAK_EMPTY: U256 := 0xc5d2460186f7233c927e7db2dcc703c0e500b653ca82273b7bfad8045d85a470

  datatype Account = Account(balance: U256, nonce: U64, codeHash: U256)

  /** `AccountInfo::default()`, the account that is empty in the sense of EIP-161. */
  const EMPTY_ACCOUNT: Account := Account(0, 0, KECCAK_EMPTY)

  datatype Header = Header(parentHash: U256, number: U64, gasLimit: U64, timestamp: U64, baseFee: U64)

  datatype Block = Block(header: Header, transactions: seq<Bytes>)

  datatype RevertToSlot = Previous(value: U256) | Destroyed

  datatype StorageChange = StorageChange(address: Address, wipe: bool, slots: seq<(U256, U256)>)

  datatype StorageRevert = StorageRevert(address: Address, wiped: bool, slots: seq<(U256, RevertToSlot)>)

  /** A bundle state, flattened into its changeset and its reverts (one list per block). */
  datatype Bundle = Bundle(
    accounts: seq<(Address, Option<Account>)>,
    storage: seq<StorageChange>,
    contracts: seq<(U256, Bytes)>,
    accountReverts: seq<seq<(Address, Option<Account>)>>,
    storageReverts: seq<seq<StorageRevert>>)

  datatype Slot = Slot(address: Address, key: U256)
  datatype AccountRow = AccountRow(number: string, address: Address)
  datatype SlotRow = SlotRow(number: string, slot: Slot)

  datatype Tables = Tables(
    block: map<string, Block>,
    account: map<Address, Account>,
    accountRevert: map<AccountRow, Option<Account>>,
    storage: map<Slot, U256>,
    storageRevert: map<SlotRow, RevertToSlot>,
    bytecode: map<U256, Bytes>)

  const EMPTY_TABLES: Tables := Tables(map[], map[], map[], map[], map[], map[])

  datatype DbError =
    | BlockExists
    | TooManyAccountReverts
    | TooManyStorageReverts
    | NoBlocks
    | NotTheTip(number: U256, tip: int)
    | AccountNotFound

  // ----- reading

  /** The value a storage read sees: an absent row reads as zero. */
  function ReadSlot(storage: map<Slot, U256>, s: Slot): U256 {
    if s in storage then storage[s] else 0
  }

  /** The value a logged slot stands for. */
  function OldValue(r: RevertToSlot): U256 {
    match r
    case Previous(v) => v
    case Destroyed => 0
  }

  /** The code a hash reads as: unknown hashes read as empty code. */
  function CodeByHash(bytecode: map<U256, Bytes>, hash: U256): Bytes {
    if hash in bytecode then bytecode[hash] else []
  }

  // ----- writing lists of rows, in list order

  function Init<T>(s: seq<T>): seq<T>
    requires s != []
  {
    s[..|s| - 1]
  }

  function Last<T>(s: seq<T>): T
    requires s != []
  {
    s[|s| - 1]
  }

  /** The last value listed for `k`. */
  function Find<K(==), V>(kvs: seq<(K, V)>, k: K): Option<V> {
    if kvs == [] then None
    else if Last(kvs).0 == k then Some(Last(kvs).1)
    else Find(Init(kvs), k)
  }

  function ApplyAccounts(account: map<Address, Account>, changes: seq<(Address, Option<Account>)>)
    : map<Address, Account>
  {
    if changes == [] then account
    else
      var before := ApplyAccounts(account, Init(changes));
      var (a, info) := Last(changes);
      match info
      case Some(x) => before[a := x]
      case None => before - {a}
  }

  function LogAccounts(log: map<AccountRow, Option<Account>>, number: string, reverts: seq<(Address, Option<Account>)>)
    : map<AccountRow, Option<Account>>
  {
    if reverts == [] then log
    else LogAccounts(log, number, Init(reverts))[AccountRow(number, Last(reverts).0) := Last(reverts).1]
  }

  function WriteSlots(storage: map<Slot, U256>, a: Address, slots: seq<(U256, U256)>): map<Slot, U256> {
    if slots == [] then storage
    else WriteSlots(storage, a, Init(slots))[Slot(a, Last(slots).0) := Last(slots).1]
  }

  function SlotsOf(storage: map<Slot, U256>, a: Address): set<Slot> {
    set s | s in storage && s.address == a
  }

  function ApplyStorageChange(storage: map<Slot, U256>, c: StorageChange): map<Slot, U256> {
    WriteSlots(if c.wipe then storage - SlotsOf(storage, c.address) else storage, c.address, c.slots)
  }

  function ApplyStorage(storage: map<Slot, U256>, changes: seq<StorageChange>): map<Slot, U256> {
    if changes == [] then storage
    else ApplyStorageChange(ApplyStorage(storage, Init(changes)), Last(changes))
  }

  function LogSlots(log: map<SlotRow, RevertToSlot>, number: string, a: Address, slots: seq<(U256, RevertToSlot)>)
    : map<SlotRow, RevertToSlot>
  {
    if slots == [] then log
    else LogSlots(log, number, a, Init(slots))[SlotRow(number, Slot(a, Last(slots).0)) := Last(slots).1]
  }

  /** A wiped account logs every slot row that `storage` holds for it, over what it listed. */
  function LogStorageRevert(log: map<SlotRow, RevertToSlot>, number: string, r: StorageRevert, storage: map<Slot, U256>)
    : map<SlotRow, RevertToSlot>
  {
    var listed := LogSlots(log, number, r.address, r.slots);
    if r.wiped then
      listed + map s | s in SlotsOf(storage, r.address) :: SlotRow(number, s) := Previous(storage[s])
    else listed
  }

  function LogStorage(log: map<SlotRow, RevertToSlot>, number: string, reverts: seq<StorageRevert>, storage: map<Slot, U256>)
    : map<SlotRow, RevertToSlot>
  {
    if reverts == [] then log
    else LogStorageRevert(LogStorage(log, number, Init(reverts), storage), number, Last(reverts), storage)
  }

  function AddContracts(bytecode: map<U256, Bytes>, contracts: seq<(U256, Bytes)>): map<U256, Bytes> {
    if contracts == [] then bytecode
    else
      var before := AddContracts(bytecode, Init(contracts));
      var (hash, code) := Last(contracts);
      if hash in before then before else before[hash := code]
  }

  // ----- the two block operations

  function FirstBlock<T>(lists: seq<seq<T>>): seq<T> {
    if lists == [] then [] else lists[0]
  }

  /** What inserting a block with its bundle does; an error leaves no trace. */
  function InsertBlock(t: Tables, b: Block, bundle: Bundle): Result<Tables, DbError> {
    var number := ToText(b.header.number);
    if number in t.block then Err(BlockExists)
    else if |bundle.accountReverts| > 1 then Err(TooManyAccountReverts)
    else if |bundle.storageReverts| > 1 then Err(TooManyStorageReverts)
    else
      var storage := ApplyStorage(t.storage, bundle.storage);
      Ok(Tables(
           t.block[number := b],
           ApplyAccounts(t.account, bundle.accounts),
           LogAccounts(t.accountRevert, number, FirstBlock(bundle.accountReverts)),
           storage,
           LogStorage(t.storageRevert, number, FirstBlock(bundle.storageReverts), storage),
           AddContracts(t.bytecode, bundle.contracts)))
  }

  function LoggedAddresses(t: Tables, number: string): set<Address> {
    set r | r in t.accountRevert && r.number == number :: r.address
  }

  function LoggedSlots(t: Tables, number: string): set<Slot> {
    set r | r in t.storageRevert && r.number == number :: r.slot
  }

  /** The account a revert of block `number` leaves under `a`. */
  function RestoredAccount(t: Tables, number: string, a: Address): Option<Account> {
    var row := AccountRow(number, a);
    if row in t.accountRevert then t.accountRevert[row] else Lookup(t.account, a)
  }

  /** The slot row a revert of block `number` leaves: a zero old value leaves no row. */
  function RestoredSlot(t: Tables, number: string, s: Slot): Option<U256> {
    var row := SlotRow(number, s);
    if row in t.storageRevert then
      var v := OldValue(t.storageRevert[row]);
      if v == 0 then None else Some(v)
    else Lookup(t.storage, s)
  }

  function Restored(t: Tables, number: string): Tables {
    t.(block := t.block - {number},
       account := map a | a in t.account.Keys + LoggedAddresses(t, number)
                          && RestoredAccount(t, number, a).Some? :: RestoredAccount(t, number, a).value,
       storage := map s | s in t.storage.Keys + LoggedSlots(t, number)
                          && RestoredSlot(t, number, s).Some? :: RestoredSlot(t, number, s).value)
  }

  /** The block number the tip query answers. */
  ghost function StoredTip(t: Tables): int
    requires t.block != map[]
  {
    QueriedTip(t.block.Keys)
  }

  /** The guard of `RevertTip`: the tip query answers `number`. */
  ghost predicate AcceptsTip(t: Tables, number: U256) {
    t.block != map[] && StoredTip(t) == number
  }

  /** What reverting the tip block does; an error leaves no trace. */
  ghost function RevertTip(t: Tables, number: U256): Result<Tables, DbError> {
    if t.block == map[] then Err(NoBlocks)
    else if !AcceptsTip(t, number) then Err(NotTheTip(number, StoredTip(t)))
    else Ok(Restored(t, ToText(number)))
  }

  function AddDeposit(t: Tables, a: Address, amount: U256): Tables {
    var info := if a in t.account then t.account[a] else EMPTY_ACCOUNT;
    t.(account := t.account[a := info.(balance := WrappingAdd(info.balance, amount))])
  }

  function TakeDeposit(t: Tables, a: Address, amount: U256): Result<Tables, DbError> {
    if a !in t.account then Err(AccountNotFound)
    else
      var info := t.account[a];
      Ok(t.(account := t.account[a := info.(balance := WrappingSub(info.balance, amount))]))
  }

  lemma StoredTipIs(t: Tables, s: string)
    requires IsTextMax(t.block.Keys, s)
    ensures t.block != map[] && StoredTip(t) == Value(s)
  {
    QueriedTipIs(t.block.Keys, s);
  }

  // ----- what every lookup sees after each write

  lemma {:induction false} AccountsLookup(account: map<Address, Account>, changes: seq<(Address, Option<Account>)>, a: Address)
    ensures Lookup(ApplyAccounts(account, changes), a)
         == match Find(changes, a) { case Some(info) => info case None => Lookup(account, a) }
  {
    if changes == [] {
    } else {
      AccountsLookup(account, Init(changes), a);
    }
  }

  lemma {:induction false} LoggedAccountLookup(
    log: map<AccountRow, Option<Account>>, number: string, reverts: seq<(Address, Option<Account>)>, row: AccountRow)
    ensures Lookup(LogAccounts(log, number, reverts), row)
         == if row.number == number && Find(reverts, row.address).Some? then Find(reverts, row.address)
            else Lookup(log, row)
  {
    if reverts == [] {
    } else {
      LoggedAccountLookup(log, number, Init(reverts), row);
    }
  }

  lemma {:induction false} WrittenSlotLookup(storage: map<Slot, U256>, a: Address, slots: seq<(U256, U256)>, s: Slot)
    ensures Lookup(WriteSlots(storage, a, slots), s)
         == if s.address == a && Find(slots, s.key).Some? then Find(slots, s.key) else Lookup(storage, s)
  {
    if slots == [] {
    } else {
      WrittenSlotLookup(storage, a, Init(slots), s);
    }
  }

  /** The storage change listed for an address. */
  function FindChange(changes: seq<StorageChange>, a: Address): (c: Option<StorageChange>)
    ensures c.Some? ==> c.value in changes && c.value.address == a
    ensures c.None? ==> forall x :: x in changes ==> x.address != a
  {
    if changes == [] then None
    else if Last(changes).address == a then Some(Last(changes))
    else
      assert forall x :: x in changes ==> x in Init(changes) || x == Last(changes);
      FindChange(Init(changes), a)
  }

  function FindRevert(reverts: seq<StorageRevert>, a: Address): (r: Option<StorageRevert>)
    ensures r.Some? ==> r.value in reverts && r.value.address == a
    ensures r.None? ==> forall x :: x in reverts ==> x.address != a
  {
    if reverts == [] then None
    else if Last(reverts).address == a then Some(Last(reverts))
    else
      assert forall x :: x in reverts ==> x in Init(reverts) || x == Last(reverts);
      FindRevert(Init(reverts), a)
  }

  predicate DistinctChanges(changes: seq<StorageChange>) {
    forall i, j :: 0 <= i < j < |changes| ==> changes[i].address != changes[j].address
  }

  predicate DistinctReverts(reverts: seq<StorageRevert>) {
    forall i, j :: 0 <= i < j < |reverts| ==> reverts[i].address != reverts[j].address
  }

  lemma {:induction false} AppliedSlotLookup(storage: map<Slot, U256>, changes: seq<StorageChange>, s: Slot)
    requires DistinctChanges(changes)
    ensures Lookup(ApplyStorage(storage, changes), s)
         == match FindChange(changes, s.address)
            case None => Lookup(storage, s)
            case Some(c) =>
              if Find(c.slots, s.key).Some? then Find(c.slots, s.key)
              else if c.wipe then None
              else Lookup(storage, s)
  {
    if changes == [] {
    } else {
      var before := ApplyStorage(storage, Init(changes));
      var c := Last(changes);
      AppliedSlotLookup(storage, Init(changes), s);
      WrittenSlotLookup(if c.wipe then before - SlotsOf(before, c.address) else before, c.address, c.slots, s);
    }
  }

  lemma {:induction false} ListedSlotLookup(
    log: map<SlotRow, RevertToSlot>, number: string, a: Address, slots: seq<(U256, RevertToSlot)>, row: SlotRow)
    ensures Lookup(LogSlots(log, number, a, slots), row)
         == if row.number == number && row.slot.address == a && Find(slots, row.slot.key).Some?
            then Find(slots, row.slot.key) else Lookup(log, row)
  {
    if slots == [] {
    } else {
      ListedSlotLookup(log, number, a, Init(slots), row);
    }
  }

  lemma {:induction false} LoggedSlotLookup(
    log: map<SlotRow, RevertToSlot>, number: string, reverts: seq<StorageRevert>, storage: map<Slot, U256>, row: SlotRow)
    requires DistinctReverts(reverts)
    ensures Lookup(LogStorage(log, number, reverts, storage), row)
         == match FindRevert(reverts, row.slot.address)
            case None => Lookup(log, row)
            case Some(r) =>
              if row.number != number then Lookup(log, row)
              else if r.wiped && row.slot in storage then Some(Previous(storage[row.slot]))
              else if Find(r.slots, row.slot.key).Some? then Find(r.slots, row.slot.key)
              else Lookup(log, row)
  {
    if reverts == [] {
    } else {
      var before := LogStorage(log, number, Init(reverts), storage);
      var r := Last(reverts);
      LoggedSlotLookup(log, number, Init(reverts), storage, row);
      ListedSlotLookup(before, number, r.address, r.slots, row);
    }
  }

  lemma RestoredLookups(t: Tables, number: string)
    ensures forall a :: Lookup(Restored(t, number).account, a) == RestoredAccount(t, number, a)
    ensures forall s :: Lookup(Restored(t, number).storage, s) == RestoredSlot(t, number, s)
  {
    forall a ensures Lookup(Restored(t, number).account, a) == RestoredAccount(t, number, a) {
      if AccountRow(number, a) in t.accountRevert { assert a in LoggedAddresses(t, number); }
    }
    forall s ensures Lookup(Restored(t, number).storage, s) == RestoredSlot(t, number, s) {
      if SlotRow(number, s) in t.storageRevert { assert s in LoggedSlots(t, number); }
    }
  }

  /** Code is never replaced or removed, so a known hash keeps reading the same code. */
  lemma {:induction false} CodeIsPermanent(bytecode: map<U256, Bytes>, contracts: seq<(U256, Bytes)>, hash: U256)
    ensures hash in bytecode ==> CodeByHash(AddContracts(bytecode, contracts), hash) == CodeByHash(bytecode, hash)
    ensures hash in AddContracts(bytecode, contracts)
       <==> hash in bytecode || exists c :: c in contracts && c.0 == hash
  {
    if contracts == [] {
    } else {
      CodeIsPermanent(bytecode, Init(contracts), hash);
      assert forall c :: c in contracts <==> c in Init(contracts) || c == Last(contracts);
    }
  }
}
