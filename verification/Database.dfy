/** The rollup database: one class whose methods update the tables inside transactions. */
module Database {
  import opened Prelude
  import opened DecimalText
  import opened TextTip
  import opened Tables

  type SlotChanges = map<U256, (U256, U256)>

  /** What a revert collects for one address: old and present account, old and present slots. */
  datatype Entry = Entry(oldInfo: Option<Account>, newInfo: Option<Account>, slots: SlotChanges)

  // ----- loops over one table, on a transaction's copy

  method ApplyAccountChanges(account: map<Address, Account>, changes: seq<(Address, Option<Account>)>)
    returns (r: map<Address, Account>)
    ensures r == ApplyAccounts(account, changes)
  {
    r := account;
    for i := 0 to |changes|
      invariant r == ApplyAccounts(account, changes[..i])
    {
      var (address, info) := changes[i];
      if info.Some? {
        r := r[address := info.value];
      } else {
        r := r - {address};
      }
      assert Init(changes[..i + 1]) == changes[..i];
    }
    assert changes[..|changes|] == changes;
  }

  method WriteAccountReverts(log: map<AccountRow, Option<Account>>, number: string, reverts: seq<(Address, Option<Account>)>)
    returns (r: map<AccountRow, Option<Account>>)
    ensures r == LogAccounts(log, number, reverts)
  {
    r := log;
    for i := 0 to |reverts|
      invariant r == LogAccounts(log, number, reverts[..i])
    {
      r := r[AccountRow(number, reverts[i].0) := reverts[i].1];
      assert Init(reverts[..i + 1]) == reverts[..i];
    }
    assert reverts[..|reverts|] == reverts;
  }

  method ApplyStorageChanges(storage: map<Slot, U256>, changes: seq<StorageChange>) returns (r: map<Slot, U256>)
    ensures r == ApplyStorage(storage, changes)
  {
    r := storage;
    for i := 0 to |changes|
      invariant r == ApplyStorage(storage, changes[..i])
    {
      var c := changes[i];
      if c.wipe {
        r := r - SlotsOf(r, c.address);
      }
      ghost var base := r;
      for j := 0 to |c.slots|
        invariant r == WriteSlots(base, c.address, c.slots[..j])
      {
        r := r[Slot(c.address, c.slots[j].0) := c.slots[j].1];
        assert Init(c.slots[..j + 1]) == c.slots[..j];
      }
      assert c.slots[..|c.slots|] == c.slots;
      assert Init(changes[..i + 1]) == changes[..i];
    }
    assert changes[..|changes|] == changes;
  }

  /** A log row once the slots `done` of a wiped account have been logged over `listed`. */
  function WipedLookup(
    listed: map<SlotRow, RevertToSlot>, number: string, storage: map<Slot, U256>, done: set<Slot>, row: SlotRow)
    : Option<RevertToSlot>
    requires done <= storage.Keys
  {
    if row.number == number && row.slot in done then Some(Previous(storage[row.slot])) else Lookup(listed, row)
  }

  /** Log every slot row stored for `a`, in the order the query lists them. */
  method LogWipedSlots(listed: map<SlotRow, RevertToSlot>, number: string, a: Address, storage: map<Slot, U256>)
    returns (r: map<SlotRow, RevertToSlot>)
    ensures forall row :: Lookup(r, row) == WipedLookup(listed, number, storage, SlotsOf(storage, a), row)
  {
    r := listed;
    var rows := SlotsOf(storage, a);
    var rest := rows;
    while rest != {}
      invariant rest <= rows
      invariant forall row :: Lookup(r, row) == WipedLookup(listed, number, storage, rows - rest, row)
      decreases rest
    {
      var s :| s in rest;
      ghost var before := r;
      r := r[SlotRow(number, s) := Previous(storage[s])];
      forall row ensures Lookup(r, row) == WipedLookup(listed, number, storage, rows - (rest - {s}), row) {
        if row != SlotRow(number, s) { assert Lookup(r, row) == Lookup(before, row); }
      }
      rest := rest - {s};
    }
    assert rows - rest == rows;
  }

  method WriteStorageRevert(log: map<SlotRow, RevertToSlot>, number: string, revert: StorageRevert, storage: map<Slot, U256>)
    returns (r: map<SlotRow, RevertToSlot>)
    ensures r == LogStorageRevert(log, number, revert, storage)
  {
    r := log;
    for j := 0 to |revert.slots|
      invariant r == LogSlots(log, number, revert.address, revert.slots[..j])
    {
      r := r[SlotRow(number, Slot(revert.address, revert.slots[j].0)) := revert.slots[j].1];
      assert Init(revert.slots[..j + 1]) == revert.slots[..j];
    }
    assert revert.slots[..|revert.slots|] == revert.slots;
    if revert.wiped {
      ghost var goal := LogStorageRevert(log, number, revert, storage);
      r := LogWipedSlots(r, number, revert.address, storage);
      SameLookups(r, goal);
    }
  }

  method WriteStorageReverts(log: map<SlotRow, RevertToSlot>, number: string, reverts: seq<StorageRevert>, storage: map<Slot, U256>)
    returns (r: map<SlotRow, RevertToSlot>)
    ensures r == LogStorage(log, number, reverts, storage)
  {
    r := log;
    for i := 0 to |reverts|
      invariant r == LogStorage(log, number, reverts[..i], storage)
    {
      r := WriteStorageRevert(r, number, reverts[i], storage);
      assert Init(reverts[..i + 1]) == reverts[..i];
    }
    assert reverts[..|reverts|] == reverts;
  }

  method InsertContracts(bytecode: map<U256, Bytes>, contracts: seq<(U256, Bytes)>) returns (r: map<U256, Bytes>)
    ensures r == AddContracts(bytecode, contracts)
  {
    r := bytecode;
    for i := 0 to |contracts|
      invariant r == AddContracts(bytecode, contracts[..i])
    {
      if contracts[i].0 !in r {
        r := r[contracts[i].0 := contracts[i].1];
      }
      assert Init(contracts[..i + 1]) == contracts[..i];
    }
    assert contracts[..|contracts|] == contracts;
  }

  // ----- the two loops that collect what a revert must restore

  /** Old and present value of one logged slot. */
  function LoggedChange(t: Tables, number: string, s: Slot): (U256, U256)
    requires SlotRow(number, s) in t.storageRevert
  {
    (OldValue(t.storageRevert[SlotRow(number, s)]), ReadSlot(t.storage, s))
  }

  /** `e` holds what the log says of account `a` and of those of its slots that are in `done`. */
  ghost predicate IsEntry(t: Tables, number: string, done: set<Slot>, a: Address, e: Entry) {
    && e.oldInfo == RestoredAccount(t, number, a)
    && e.newInfo == Lookup(t.account, a)
    && (forall k :: k in e.slots ==> Slot(a, k) in done)
    && (forall s: Slot :: s in done && s.address == a ==>
          s.key in e.slots && SlotRow(number, s) in t.storageRevert && e.slots[s.key] == LoggedChange(t, number, s))
  }

  /** `state` holds every logged account and the logged slots `done`, and nothing else. */
  ghost predicate Collected(t: Tables, number: string, done: set<Slot>, state: map<Address, Entry>) {
    && (forall a :: AccountRow(number, a) in t.accountRevert ==> a in state)
    && (forall s: Slot :: s in done ==> s.address in state)
    && (forall a :: a in state ==> IsEntry(t, number, done, a, state[a]))
  }

  method CollectAccounts(t: Tables, number: string) returns (state: map<Address, Entry>)
    ensures Collected(t, number, {}, state)
  {
    state := map[];
    var rows := set r | r in t.accountRevert && r.number == number;
    var rest := rows;
    while rest != {}
      invariant rest <= rows
      invariant forall a :: a in state <==> AccountRow(number, a) in rows - rest
      invariant forall a :: a in state ==> IsEntry(t, number, {}, a, state[a])
      decreases rest
    {
      var row :| row in rest;
      rest := rest - {row};
      if row.address !in state {
        state := state[row.address := Entry(t.accountRevert[row], Lookup(t.account, row.address), map[])];
      } else {
        assert false;  // the log has one row per block and address
      }
    }
  }

  lemma OtherEntryStays(t: Tables, number: string, done: set<Slot>, s: Slot, a: Address, e: Entry)
    requires IsEntry(t, number, done, a, e) && a != s.address
    ensures IsEntry(t, number, done + {s}, a, e)
  {
  }

  lemma EntryGrows(t: Tables, number: string, done: set<Slot>, s: Slot, e: Entry)
    requires IsEntry(t, number, done, s.address, e) && SlotRow(number, s) in t.storageRevert
    ensures IsEntry(t, number, done + {s}, s.address,
                    e.(slots := e.slots[s.key := LoggedChange(t, number, s)]))
  {
    assert s == Slot(s.address, s.key);
  }

  method CollectSlots(t: Tables, number: string, accounts: map<Address, Entry>) returns (state: map<Address, Entry>)
    requires Collected(t, number, {}, accounts)
    ensures Collected(t, number, LoggedSlots(t, number), state)
  {
    state := accounts;
    var slots := LoggedSlots(t, number);
    var rest := slots;
    ghost var done := {};
    while rest != {}
      invariant rest <= slots && done == slots - rest
      invariant Collected(t, number, done, state)
      decreases rest
    {
      var s :| s in rest;
      rest := rest - {s};
      var entry := Entry(None, None, map[]);
      if s.address !in state {
        var present := Lookup(t.account, s.address);
        entry := Entry(present, present, map[]);
      } else {
        entry := state[s.address];
      }
      assert IsEntry(t, number, done, s.address, entry);
      EntryGrows(t, number, done, s, entry);
      if s.key !in entry.slots {
        entry := entry.(slots := entry.slots[s.key := LoggedChange(t, number, s)]);
      } else {
        assert false;  // the log has one row per block, address and key
      }
      forall a | a in state && a != s.address ensures IsEntry(t, number, done + {s}, a, state[a]) {
        OtherEntryStays(t, number, done, s, a, state[a]);
      }
      state := state[s.address := entry];
      done := done + {s};
    }
    assert done == slots;
  }

  // ----- writing the collected state back

  /** A slot row once the keys `done` of `a` have been written back. */
  function SlotAfter(storage: map<Slot, U256>, a: Address, slots: SlotChanges, done: set<U256>, s: Slot): Option<U256>
    requires done <= slots.Keys
  {
    if s.address == a && s.key in done then
      if slots[s.key].0 == 0 then None else Some(slots[s.key].0)
    else Lookup(storage, s)
  }

  method RestoreSlots(storage: map<Slot, U256>, a: Address, slots: SlotChanges) returns (r: map<Slot, U256>)
    ensures forall s :: Lookup(r, s) == SlotAfter(storage, a, slots, slots.Keys, s)
  {
    r := storage;
    var rest := slots.Keys;
    while rest != {}
      invariant rest <= slots.Keys
      invariant forall s :: Lookup(r, s) == SlotAfter(storage, a, slots, slots.Keys - rest, s)
      decreases rest
    {
      var k :| k in rest;
      ghost var before := r;
      r := r - {Slot(a, k)};
      if slots[k].0 != 0 {
        r := r[Slot(a, k) := slots[k].0];
      }
      forall s ensures Lookup(r, s) == SlotAfter(storage, a, slots, slots.Keys - (rest - {k}), s) {
        if s != Slot(a, k) {
          assert Lookup(r, s) == Lookup(before, s);
        }
      }
      rest := rest - {k};
    }
    assert slots.Keys - rest == slots.Keys;
  }

  method RestoreAccount(account: map<Address, Account>, a: Address, oldInfo: Option<Account>, newInfo: Option<Account>)
    returns (r: map<Address, Account>)
    requires newInfo == Lookup(account, a)
    ensures Lookup(r, a) == oldInfo
    ensures forall x :: x != a ==> Lookup(r, x) == Lookup(account, x)
  {
    r := account;
    if oldInfo != newInfo {
      if oldInfo.Some? {
        r := r[a := oldInfo.value];
      } else {
        r := r - {a};
      }
    }
  }

  /** Writing back a complete entry restores every slot of its account. */
  lemma EntryRestores(t: Tables, number: string, a: Address, e: Entry, s: Slot)
    requires s.address == a && IsEntry(t, number, LoggedSlots(t, number), a, e)
    ensures SlotAfter(t.storage, a, e.slots, e.slots.Keys, s) == RestoredSlot(t, number, s)
  {
    assert s == Slot(a, s.key);
    assert SlotRow(number, s) in t.storageRevert ==> s in LoggedSlots(t, number);
  }

  /** Restoring leaves alone what the log does not name. */
  lemma UntouchedRestored(t: Tables, number: string, state: map<Address, Entry>, a: Address)
    requires Collected(t, number, LoggedSlots(t, number), state) && a !in state
    ensures RestoredAccount(t, number, a) == Lookup(t.account, a)
    ensures forall s: Slot :: s.address == a ==> RestoredSlot(t, number, s) == Lookup(t.storage, s)
  {
    forall s: Slot | s.address == a ensures SlotRow(number, s) !in t.storageRevert {
      assert s in LoggedSlots(t, number) <==> SlotRow(number, s) in t.storageRevert;
    }
  }

  /** The tables once the entries of `done` have been written back. */
  ghost predicate WrittenBack(
    t: Tables, number: string, done: set<Address>, account: map<Address, Account>, storage: map<Slot, U256>)
  {
    && (forall a :: Lookup(account, a) == if a in done then RestoredAccount(t, number, a) else Lookup(t.account, a))
    && (forall s: Slot :: Lookup(storage, s) ==
          (if s.address in done then RestoredSlot(t, number, s) else Lookup(t.storage, s)))
  }

  method RestoreEntry(
    t: Tables, number: string, ghost done: set<Address>, a: Address, entry: Entry,
    account: map<Address, Account>, storage: map<Slot, U256>)
    returns (account': map<Address, Account>, storage': map<Slot, U256>)
    requires a !in done && IsEntry(t, number, LoggedSlots(t, number), a, entry)
    requires WrittenBack(t, number, done, account, storage)
    ensures WrittenBack(t, number, done + {a}, account', storage')
  {
    account' := RestoreAccount(account, a, entry.oldInfo, entry.newInfo);
    storage' := RestoreSlots(storage, a, entry.slots);
    forall s: Slot ensures Lookup(storage', s) ==
      (if s.address in done + {a} then RestoredSlot(t, number, s) else Lookup(t.storage, s))
    {
      if s.address == a {
        EntryRestores(t, number, a, entry, s);
        assert Lookup(storage, s) == Lookup(t.storage, s);
      } else {
        assert Lookup(storage', s) == Lookup(storage, s);
      }
    }
  }

  method RestoreState(t: Tables, number: string, state: map<Address, Entry>)
    returns (account: map<Address, Account>, storage: map<Slot, U256>)
    requires Collected(t, number, LoggedSlots(t, number), state)
    ensures account == Restored(t, number).account
    ensures storage == Restored(t, number).storage
  {
    account, storage := t.account, t.storage;
    var rest := state.Keys;
    ghost var done := {};
    while rest != {}
      invariant rest <= state.Keys && done == state.Keys - rest
      invariant WrittenBack(t, number, done, account, storage)
      decreases rest
    {
      var a :| a in rest;
      account, storage := RestoreEntry(t, number, done, a, state[a], account, storage);
      rest := rest - {a};
      done := done + {a};
    }
    assert done == state.Keys;
    AllWrittenBack(t, number, state, account, storage);
  }

  lemma AllWrittenBack(
    t: Tables, number: string, state: map<Address, Entry>, account: map<Address, Account>, storage: map<Slot, U256>)
    requires Collected(t, number, LoggedSlots(t, number), state)
    requires WrittenBack(t, number, state.Keys, account, storage)
    ensures account == Restored(t, number).account
    ensures storage == Restored(t, number).storage
  {
    RestoredLookups(t, number);
    forall a ensures Lookup(account, a) == RestoredAccount(t, number, a) {
      if a !in state { UntouchedRestored(t, number, state, a); }
    }
    forall s: Slot ensures Lookup(storage, s) == RestoredSlot(t, number, s) {
      if s.address !in state { UntouchedRestored(t, number, state, s.address); }
    }
    SameLookups(account, Restored(t, number).account);
    SameLookups(storage, Restored(t, number).storage);
  }

  // ----- the two transactions

  /** Log the account reverts of the one block of a bundle, if it has one. */
  method LogFirstAccounts(
    log: map<AccountRow, Option<Account>>, number: string, lists: seq<seq<(Address, Option<Account>)>>)
    returns (r: map<AccountRow, Option<Account>>)
    requires |lists| <= 1
    ensures r == LogAccounts(log, number, FirstBlock(lists))
  {
    r := log;
    if |lists| == 1 {
      r := WriteAccountReverts(r, number, lists[0]);
    }
  }

  /** Log the storage reverts of the one block of a bundle, if it has one. */
  method LogFirstStorage(
    log: map<SlotRow, RevertToSlot>, number: string, lists: seq<seq<StorageRevert>>, storage: map<Slot, U256>)
    returns (r: map<SlotRow, RevertToSlot>)
    requires |lists| <= 1
    ensures r == LogStorage(log, number, FirstBlock(lists), storage)
  {
    r := log;
    if |lists| == 1 {
      r := WriteStorageReverts(r, number, lists[0], storage);
    }
  }

  /** The body of the insert transaction, on the transaction's copy of the tables. */
  method RunInsert(t: Tables, b: Block, bundle: Bundle) returns (r: Result<Tables, DbError>)
    ensures r == InsertBlock(t, b, bundle)
  {
    var number := ToText(b.header.number);
    if number in t.block { return Err(BlockExists); }
    var account := ApplyAccountChanges(t.account, bundle.accounts);
    if |bundle.accountReverts| > 1 { return Err(TooManyAccountReverts); }
    var accountRevert := LogFirstAccounts(t.accountRevert, number, bundle.accountReverts);
    var storage := ApplyStorageChanges(t.storage, bundle.storage);
    if |bundle.storageReverts| > 1 { return Err(TooManyStorageReverts); }
    var storageRevert := LogFirstStorage(t.storageRevert, number, bundle.storageReverts, storage);
    var bytecode := InsertContracts(t.bytecode, bundle.contracts);
    r := Ok(Tables(t.block[number := b], account, accountRevert, storage, storageRevert, bytecode));
  }

  // ----- the database object

  class Database {
    var block: map<string, Block>
    var account: map<Address, Account>
    var accountRevert: map<AccountRow, Option<Account>>
    var storage: map<Slot, U256>
    var storageRevert: map<SlotRow, RevertToSlot>
    var bytecode: map<U256, Bytes>

    constructor ()
      ensures View() == EMPTY_TABLES
    {
      block, account, accountRevert, storage, storageRevert, bytecode := map[], map[], map[], map[], map[], map[];
    }

    function View(): Tables
      reads this
    {
      Tables(block, account, accountRevert, storage, storageRevert, bytecode)
    }

    method Commit(t: Tables)
      modifies this
      ensures View() == t
    {
      block, account, accountRevert := t.block, t.account, t.accountRevert;
      storage, storageRevert, bytecode := t.storage, t.storageRevert, t.bytecode;
    }

    /** Insert a block with its bundle; all tables change or none does. */
    method InsertBlockWithBundle(b: Block, bundle: Bundle) returns (r: Result<(), DbError>)
      modifies this
      ensures match InsertBlock(old(View()), b, bundle)
              case Ok(t) => r == Ok(()) && View() == t
              case Err(e) => r == Err(e) && View() == old(View())
    {
      var tx := RunInsert(View(), b, bundle);
      match tx {
        case Ok(t) => Commit(t); r := Ok(());
        case Err(e) => r := Err(e);
      }
    }

    /** Revert the tip block after checking it against `number`; all tables change or none does. */
    method RevertTipBlock(number: U256) returns (r: Result<(), DbError>)
      modifies this
      ensures match RevertTip(old(View()), number)
              case Ok(t) => r == Ok(()) && View() == t
              case Err(e) => r == Err(e) && View() == old(View())
    {
      var tx := View();
      if tx.block == map[] { return Err(NoBlocks); }
      TextMaxExists(tx.block.Keys);
      var tip: string :| tip in tx.block.Keys && forall s :: s in tx.block.Keys ==> TextLeq(s, tip);
      StoredTipIs(tx, tip);
      var tipNumber := Value(tip);
      if number != tipNumber { return Err(NotTheTip(number, tipNumber)); }
      var text := ToText(number);
      var state := CollectAccounts(tx, text);
      state := CollectSlots(tx, text, state);
      var accounts, slots := RestoreState(tx, text, state);
      tx := tx.(block := tx.block - {text}, account := accounts, storage := slots);
      Commit(tx);
      r := Ok(());
    }

    /** Add a deposit to an account, creating the account if it is absent. */
    method Deposit(a: Address, amount: U256)
      modifies this
      ensures View() == AddDeposit(old(View()), a, amount)
    {
      var info := if a in account then account[a] else EMPTY_ACCOUNT;
      account := account[a := info.(balance := WrappingAdd(info.balance, amount))];
    }

    /** Take a deposit back; an absent account is an error. */
    method RevertDeposit(a: Address, amount: U256) returns (r: Result<(), DbError>)
      modifies this
      ensures match TakeDeposit(old(View()), a, amount)
              case Ok(t) => r == Ok(()) && View() == t
              case Err(e) => r == Err(e) && View() == old(View())
    {
      if a !in account { return Err(AccountNotFound); }
      var info := account[a];
      account := account[a := info.(balance := WrappingSub(info.balance, amount))];
      r := Ok(());
    }
  }
}
