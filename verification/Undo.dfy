/**
 When reverting a block restores what was there before it was inserted.

 The EVM is library code: all that is assumed of it is `ValidBundle`, that the bundle it
 returns logs the state it was executed on. Restored storage is compared through reads, in
 which an absent row is a zero.
 */
module Undo {
  import opened Prelude
  import opened DecimalText
  import opened TextTip
  import opened Tables

  function AccountLog(b: Bundle): seq<(Address, Option<Account>)> {
    FirstBlock(b.accountReverts)
  }

  function StorageLog(b: Bundle): seq<StorageRevert> {
    FirstBlock(b.storageReverts)
  }

  /** The slot row stored once the bundle's changes are applied. */
  function PostSlot(t: Tables, b: Bundle, s: Slot): Option<U256> {
    match FindChange(b.storage, s.address)
    case None => Lookup(t.storage, s)
    case Some(c) =>
      if Find(c.slots, s.key).Some? then Find(c.slots, s.key)
      else if c.wipe then None
      else Lookup(t.storage, s)
  }

  function Read(row: Option<U256>): U256 {
    if row.Some? then row.value else 0
  }

  /** The old value the bundle itself lists for a slot. */
  function ListedSlot(b: Bundle, s: Slot): Option<RevertToSlot> {
    match FindRevert(StorageLog(b), s.address)
    case None => None
    case Some(r) => Find(r.slots, s.key)
  }

  /** The bundle's log says that the account's whole storage was wiped. */
  predicate LogsWipe(b: Bundle, a: Address) {
    match FindRevert(StorageLog(b), a)
    case None => false
    case Some(r) => r.wiped
  }

  /**
   The bundle logs the state it was executed on: listed accounts and slots carry their old
   value, and what is neither listed nor wiped is not changed. In a wiped account "destroyed"
   says that the old value is the one still stored, whatever it is.
   */
  ghost predicate ValidBundle(t: Tables, b: Bundle) {
    && |b.accountReverts| <= 1 && |b.storageReverts| <= 1
    && DistinctChanges(b.storage) && DistinctReverts(StorageLog(b))
    && (forall a :: match Find(AccountLog(b), a)
                    case Some(old_) => old_ == Lookup(t.account, a)
                    case None => Find(b.accounts, a) == None)
    && (forall s :: match ListedSlot(b, s)
                    case Some(Previous(v)) => v == ReadSlot(t.storage, s)
                    case Some(Destroyed) => LogsWipe(b, s.address) || ReadSlot(t.storage, s) == 0
                    case None => LogsWipe(b, s.address) || Read(PostSlot(t, b, s)) == ReadSlot(t.storage, s))
  }

  /** No account of the bundle has its storage wiped. */
  ghost predicate WipeFree(b: Bundle) {
    && (forall c :: c in b.storage ==> !c.wipe)
    && (forall r :: r in StorageLog(b) ==> !r.wiped)
  }

  /** Same blocks, same accounts, same value for every storage read. */
  ghost predicate SameView(v: Tables, t: Tables) {
    && v.block == t.block
    && v.account == t.account
    && forall s :: ReadSlot(v.storage, s) == ReadSlot(t.storage, s)
  }

  // ----- what the log of the new block holds

  function LoggedAccount(t: Tables, b: Bundle, number: string, a: Address): Option<Option<Account>> {
    if Find(AccountLog(b), a).Some? then Find(AccountLog(b), a) else Lookup(t.accountRevert, AccountRow(number, a))
  }

  /** A wiped account's slots are logged as they stand after the wipe and the new writes. */
  function LoggedSlot(t: Tables, b: Bundle, number: string, s: Slot): Option<RevertToSlot> {
    if LogsWipe(b, s.address) && PostSlot(t, b, s).Some? then Some(Previous(PostSlot(t, b, s).value))
    else if ListedSlot(b, s).Some? then ListedSlot(b, s)
    else Lookup(t.storageRevert, SlotRow(number, s))
  }

  /** The account row logged under `number` agrees with the state before the insert. */
  ghost predicate AccountLogAgrees(t: Tables, b: Bundle, number: string, a: Address) {
    Find(AccountLog(b), a).None? && AccountRow(number, a) in t.accountRevert ==>
      t.accountRevert[AccountRow(number, a)] == Lookup(t.account, a)
  }

  /** The slot row logged under `number`, or the slot itself if none is, reads as before the insert. */
  ghost predicate SlotLogAgrees(t: Tables, b: Bundle, number: string, s: Slot) {
    ReadSlot(t.storage, s) == match LoggedSlot(t, b, number, s)
                              case Some(old_) => OldValue(old_)
                              case None => Read(PostSlot(t, b, s))
  }

  ghost predicate UndoLogAgrees(t: Tables, b: Bundle, number: string) {
    && (forall a :: AccountLogAgrees(t, b, number, a))
    && (forall s :: SlotLogAgrees(t, b, number, s))
  }

  /** What inserting a valid bundle leaves in each table. */
  lemma InsertedLookups(t: Tables, block: Block, b: Bundle)
    requires ValidBundle(t, b) && InsertBlock(t, block, b).Ok?
    ensures var u, number := InsertBlock(t, block, b).value, ToText(block.header.number);
      && u.block == t.block[number := block]
      && (forall a :: Lookup(u.account, a) == (match Find(b.accounts, a) case Some(x) => x case None => Lookup(t.account, a)))
      && (forall s :: Lookup(u.storage, s) == PostSlot(t, b, s))
  {
    var u := InsertBlock(t, block, b).value;
    forall a ensures Lookup(u.account, a) == (match Find(b.accounts, a) case Some(x) => x case None => Lookup(t.account, a)) {
      AccountsLookup(t.account, b.accounts, a);
    }
    forall s ensures Lookup(u.storage, s) == PostSlot(t, b, s) {
      AppliedSlotLookup(t.storage, b.storage, s);
    }
  }

  lemma InsertedLogs(t: Tables, block: Block, b: Bundle)
    requires ValidBundle(t, b) && InsertBlock(t, block, b).Ok?
    ensures var u, number := InsertBlock(t, block, b).value, ToText(block.header.number);
      && (forall a :: Lookup(u.accountRevert, AccountRow(number, a)) == LoggedAccount(t, b, number, a))
      && (forall s :: Lookup(u.storageRevert, SlotRow(number, s)) == LoggedSlot(t, b, number, s))
      && (forall row: AccountRow :: row.number != number ==> Lookup(u.accountRevert, row) == Lookup(t.accountRevert, row))
      && (forall row: SlotRow :: row.number != number ==> Lookup(u.storageRevert, row) == Lookup(t.storageRevert, row))
  {
    var u, number := InsertBlock(t, block, b).value, ToText(block.header.number);
    InsertedLookups(t, block, b);
    forall row: AccountRow ensures Lookup(u.accountRevert, row) ==
      if row.number == number then LoggedAccount(t, b, number, row.address) else Lookup(t.accountRevert, row)
    {
      LoggedAccountLookup(t.accountRevert, number, AccountLog(b), row);
    }
    forall row: SlotRow ensures Lookup(u.storageRevert, row) ==
      if row.number == number then LoggedSlot(t, b, number, row.slot) else Lookup(t.storageRevert, row)
    {
      LoggedSlotLookup(t.storageRevert, number, StorageLog(b), u.storage, row);
      assert Lookup(u.storage, row.slot) == PostSlot(t, b, row.slot);
    }
  }

  /** Inserting and then restoring one account. */
  lemma UndoneAccount(t: Tables, block: Block, b: Bundle, a: Address)
    requires ValidBundle(t, b) && InsertBlock(t, block, b).Ok?
    ensures var u, number := InsertBlock(t, block, b).value, ToText(block.header.number);
      RestoredAccount(u, number, a) ==
        (if Find(AccountLog(b), a).None? && AccountRow(number, a) in t.accountRevert
         then t.accountRevert[AccountRow(number, a)] else Lookup(t.account, a))
  {
    var u, number := InsertBlock(t, block, b).value, ToText(block.header.number);
    InsertedLookups(t, block, b);
    InsertedLogs(t, block, b);
    assert Lookup(u.accountRevert, AccountRow(number, a)) == LoggedAccount(t, b, number, a);
    assert Lookup(u.account, a) == (match Find(b.accounts, a) case Some(x) => x case None => Lookup(t.account, a));
  }

  lemma UndoneSlot(t: Tables, block: Block, b: Bundle, s: Slot)
    requires ValidBundle(t, b) && InsertBlock(t, block, b).Ok?
    ensures var u, number := InsertBlock(t, block, b).value, ToText(block.header.number);
      Read(RestoredSlot(u, number, s)) == ReadSlot(t.storage, s) <==> SlotLogAgrees(t, b, number, s)
  {
    var u, number := InsertBlock(t, block, b).value, ToText(block.header.number);
    InsertedLookups(t, block, b);
    InsertedLogs(t, block, b);
    assert Lookup(u.storageRevert, SlotRow(number, s)) == LoggedSlot(t, b, number, s);
    assert Lookup(u.storage, s) == PostSlot(t, b, s);
  }

  /**
   One-block undo, exactly: reverting the block just inserted succeeds if and only if the tip
   query answers its number, and then it restores blocks, accounts and storage reads if and
   only if the log under that number agrees with the state before the insert.
   */
  lemma OneBlockUndo(t: Tables, block: Block, b: Bundle)
    requires ValidBundle(t, b) && InsertBlock(t, block, b).Ok?
    ensures var u, n := InsertBlock(t, block, b).value, block.header.number;
      && u.block != map[]
      && (RevertTip(u, n).Ok? <==> StoredTip(u) == n)
      && (RevertTip(u, n).Ok? ==> (SameView(RevertTip(u, n).value, t) <==> UndoLogAgrees(t, b, ToText(n))))
  {
    var u, n := InsertBlock(t, block, b).value, block.header.number;
    var number := ToText(n);
    var v := Restored(u, number);
    assert number in u.block;
    assert v.block == t.block;
    RestoredLookups(u, number);
    forall s ensures ReadSlot(v.storage, s) == ReadSlot(t.storage, s) <==> SlotLogAgrees(t, b, number, s) {
      UndoneSlot(t, block, b, s);
      assert Lookup(v.storage, s) == RestoredSlot(u, number, s);
    }
    forall a ensures Lookup(v.account, a) == Lookup(t.account, a) <==> AccountLogAgrees(t, b, number, a) {
      UndoneAccount(t, block, b, a);
      assert Lookup(v.account, a) == RestoredAccount(u, number, a);
    }
    if forall a :: AccountLogAgrees(t, b, number, a) {
      forall a ensures Lookup(v.account, a) == Lookup(t.account, a) {
        assert AccountLogAgrees(t, b, number, a);
      }
      SameLookups(v.account, t.account);
    }
  }

  // ----- bundles that wipe nothing

  /** Every row still logged under `number` that the bundle does not log again agrees with `t`. */
  ghost predicate LeftoversAgree(t: Tables, b: Bundle, number: string) {
    && (forall a :: AccountLogAgrees(t, b, number, a))
    && (forall s :: ListedSlot(b, s).None? && SlotRow(number, s) in t.storageRevert ==>
          OldValue(t.storageRevert[SlotRow(number, s)]) == ReadSlot(t.storage, s))
  }

  /** Without wipes the log agrees exactly when the leftovers of that number do. */
  lemma WipeFreeLogAgrees(t: Tables, b: Bundle, number: string)
    requires ValidBundle(t, b) && WipeFree(b)
    ensures UndoLogAgrees(t, b, number) <==> LeftoversAgree(t, b, number)
  {
    forall s ensures SlotLogAgrees(t, b, number, s) <==>
      (ListedSlot(b, s).None? && SlotRow(number, s) in t.storageRevert ==>
        OldValue(t.storageRevert[SlotRow(number, s)]) == ReadSlot(t.storage, s))
    {
      NoWipeLogged(b, s.address);
    }
  }

  // ----- bundles that wipe an account

  /**
   A slot of a wiped account survives the undo: the log is taken after the wipe and the new
   writes, so a rewritten slot must have been rewritten with its old value, and a slot the
   wipe removed must have been zero or be listed with its old value.
   */
  predicate WipedSlotSurvives(t: Tables, b: Bundle, s: Slot) {
    if PostSlot(t, b, s).Some? then PostSlot(t, b, s).value == ReadSlot(t.storage, s)
    else ReadSlot(t.storage, s) == 0 || ListedSlot(b, s) == Some(Previous(ReadSlot(t.storage, s)))
  }

  /** With no leftovers of that number, the log agrees exactly when every wiped slot survives. */
  lemma WipedLogAgrees(t: Tables, b: Bundle, number: string)
    requires ValidBundle(t, b)
    requires forall row :: row in t.accountRevert ==> row.number != number
    requires forall row :: row in t.storageRevert ==> row.number != number
    ensures UndoLogAgrees(t, b, number) <==> forall s: Slot :: LogsWipe(b, s.address) ==> WipedSlotSurvives(t, b, s)
  {
    forall s: Slot ensures SlotLogAgrees(t, b, number, s) <==> (LogsWipe(b, s.address) ==> WipedSlotSurvives(t, b, s)) {
      assert SlotRow(number, s) !in t.storageRevert;
    }
    forall a ensures AccountLogAgrees(t, b, number, a) {
      assert AccountRow(number, a) !in t.accountRevert;
    }
  }

  /** If the revert of the block just inserted is accepted and a wiped slot does not survive, the undo is not exact. */
  lemma AcceptedRevertLosesSlot(t: Tables, block: Block, b: Bundle, s: Slot)
    requires ValidBundle(t, b) && InsertBlock(t, block, b).Ok?
    requires forall row :: row in t.accountRevert ==> row.number != ToText(block.header.number)
    requires forall row :: row in t.storageRevert ==> row.number != ToText(block.header.number)
    requires RevertTip(InsertBlock(t, block, b).value, block.header.number).Ok?
    requires LogsWipe(b, s.address) && !WipedSlotSurvives(t, b, s)
    ensures !SameView(RevertTip(InsertBlock(t, block, b).value, block.header.number).value, t)
  {
    OneBlockUndo(t, block, b);
    WipedLogAgrees(t, b, ToText(block.header.number));
  }

  /** The first block of an empty chain is reverted without an error, but not exactly, if a wiped slot does not survive. */
  lemma FirstBlockLosesSlot(t: Tables, block: Block, b: Bundle, s: Slot)
    requires t.block == map[] && t.accountRevert == map[] && t.storageRevert == map[] && ValidBundle(t, b)
    requires LogsWipe(b, s.address) && !WipedSlotSurvives(t, b, s)
    ensures InsertBlock(t, block, b).Ok?
    ensures var u, n := InsertBlock(t, block, b).value, block.header.number;
      RevertTip(u, n).Ok? && !SameView(RevertTip(u, n).value, t)
  {
    var u, n := InsertBlock(t, block, b).value, block.header.number;
    assert u.block.Keys == {ToText(n)};
    assert IsTextMax(u.block.Keys, ToText(n));
    StoredTipIs(u, ToText(n));
    ValueOfText(n);
    AcceptedRevertLosesSlot(t, block, b, s);
  }

  // ----- a run from the empty database that loses storage

  /** A contract that destroys itself for whoever calls it. */
  const CONTRACT_ADDRESS: Address := 0xB7f1c5E2D04a93E6f8127CdA5e40f6bC2a91D378
  const CONTRACT_CODE: Bytes := [0x33, 0xff]
  const CONTRACT_CODE_HASH: U256 := 0x3f1d0c5b7a92e84461cf0d35be27a9186d4073f2c1e95ab88047dd36fa12c09e
  const CONTRACT := Account(0, 1, CONTRACT_CODE_HASH)
  const CONTRACT_SLOT := Slot(CONTRACT_ADDRESS, 1)

  /** Block 0 creates the contract and writes 5 to its slot 1. */
  const CREATING_BLOCK := Block(Header(0, 0, 30_000_000, 0, 1_000_000_000), [[0x02, 0x01]])
  const CREATING_BUNDLE := Bundle(
    [(CONTRACT_ADDRESS, Some(CONTRACT))], [StorageChange(CONTRACT_ADDRESS, false, [(1, 5)])],
    [(CONTRACT_CODE_HASH, CONTRACT_CODE)],
    [[(CONTRACT_ADDRESS, None)]], [[StorageRevert(CONTRACT_ADDRESS, false, [(1, Previous(0))])]])

  /** Block 1 calls the contract, which destroys it. */
  const WIPING_BLOCK := Block(Header(0, 1, 30_000_000, 12, 1_000_000_000), [[0x02, 0x02]])
  const WIPING_BUNDLE := Bundle(
    [(CONTRACT_ADDRESS, None)], [StorageChange(CONTRACT_ADDRESS, true, [])], [],
    [[(CONTRACT_ADDRESS, Some(CONTRACT))]], [[StorageRevert(CONTRACT_ADDRESS, true, [])]])

  /** The state between the two blocks. */
  const CREATED := Tables(
    map["0" := CREATING_BLOCK], map[CONTRACT_ADDRESS := CONTRACT], map[AccountRow("0", CONTRACT_ADDRESS) := None],
    map[CONTRACT_SLOT := 5], map[SlotRow("0", CONTRACT_SLOT) := Previous(0)], map[CONTRACT_CODE_HASH := CONTRACT_CODE])

  lemma FindOnly<K, V>(k: K, v: V, x: K)
    ensures Find([(k, v)], x) == if x == k then Some(v) else None
  {
    assert Init([(k, v)]) == [];
  }

  lemma FindOnlyChange(c: StorageChange, a: Address)
    ensures FindChange([c], a) == if a == c.address then Some(c) else None
  {
    assert Init([c]) == [];
  }

  lemma FindOnlyRevert(r: StorageRevert, a: Address)
    ensures FindRevert([r], a) == if a == r.address then Some(r) else None
  {
    assert Init([r]) == [];
  }

  lemma CreatingBundleIsValid()
    ensures ValidBundle(EMPTY_TABLES, CREATING_BUNDLE)
  {
    var b := CREATING_BUNDLE;
    forall a ensures Find(AccountLog(b), a) == (if a == CONTRACT_ADDRESS then Some(None) else None)
    ensures Find(b.accounts, a) == (if a == CONTRACT_ADDRESS then Some(Some(CONTRACT)) else None) {
      FindOnly<Address, Option<Account>>(CONTRACT_ADDRESS, None, a);
      FindOnly<Address, Option<Account>>(CONTRACT_ADDRESS, Some(CONTRACT), a);
    }
    forall s: Slot ensures ListedSlot(b, s) == (if s == CONTRACT_SLOT then Some(Previous(0)) else None)
    ensures s != CONTRACT_SLOT ==> PostSlot(EMPTY_TABLES, b, s) == None {
      FindOnlyRevert(StorageRevert(CONTRACT_ADDRESS, false, [(1, Previous(0))]), s.address);
      FindOnlyChange(StorageChange(CONTRACT_ADDRESS, false, [(1, 5)]), s.address);
      FindOnly<U256, RevertToSlot>(1, Previous(0), s.key);
      FindOnly<U256, U256>(1, 5, s.key);
    }
  }

  lemma CreatedIsInserted()
    ensures InsertBlock(EMPTY_TABLES, CREATING_BLOCK, CREATING_BUNDLE) == Ok(CREATED)
  {
    var b := CREATING_BUNDLE;
    assert ToText(0) == "0";
    assert Init(b.accounts) == [] && Init(b.storage) == [] && Init(b.storage[0].slots) == [];
    assert Init(AccountLog(b)) == [] && Init(StorageLog(b)) == [] && Init(StorageLog(b)[0].slots) == [];
    assert ApplyStorage(map[], b.storage) == map[CONTRACT_SLOT := 5];
    assert ApplyAccounts(map[], b.accounts) == map[CONTRACT_ADDRESS := CONTRACT];
    assert Init(b.contracts) == [] && AddContracts(map[], b.contracts) == map[CONTRACT_CODE_HASH := CONTRACT_CODE];
    assert LogAccounts(map[], "0", AccountLog(b)) == map[AccountRow("0", CONTRACT_ADDRESS) := None];
    assert LogStorage(map[], "0", StorageLog(b), map[CONTRACT_SLOT := 5]) == map[SlotRow("0", CONTRACT_SLOT) := Previous(0)];
  }

  lemma WipingBundleIsValid()
    ensures ValidBundle(CREATED, WIPING_BUNDLE)
    ensures LogsWipe(WIPING_BUNDLE, CONTRACT_ADDRESS) && !WipedSlotSurvives(CREATED, WIPING_BUNDLE, CONTRACT_SLOT)
  {
    var b := WIPING_BUNDLE;
    forall a ensures Find(AccountLog(b), a) == (if a == CONTRACT_ADDRESS then Some(Some(CONTRACT)) else None)
    ensures Find(b.accounts, a) == (if a == CONTRACT_ADDRESS then Some(None) else None) {
      FindOnly<Address, Option<Account>>(CONTRACT_ADDRESS, Some(CONTRACT), a);
      FindOnly<Address, Option<Account>>(CONTRACT_ADDRESS, None, a);
    }
    forall s: Slot ensures FindRevert(StorageLog(b), s.address) == (if s.address == CONTRACT_ADDRESS then Some(StorageRevert(CONTRACT_ADDRESS, true, [])) else None)
    ensures FindChange(b.storage, s.address) == (if s.address == CONTRACT_ADDRESS then Some(StorageChange(CONTRACT_ADDRESS, true, [])) else None) {
      FindOnlyRevert(StorageRevert(CONTRACT_ADDRESS, true, []), s.address);
      FindOnlyChange(StorageChange(CONTRACT_ADDRESS, true, []), s.address);
    }
  }

  lemma NumbersAsText()
    ensures ToText(0) == "0" && ToText(1) == "1" && "0" != "1"
  {
    assert "0"[0] != "1"[0];
  }

  /** The next number on blocks 0..n-1 is the tip when it ends a decade. */
  lemma NextBlockIsTip(t: Tables, block: Block, b: Bundle)
    requires t.block.Keys == NumberTexts(block.header.number) && InsertBlock(t, block, b).Ok?
    requires EndsDecade(block.header.number)
    ensures RevertTip(InsertBlock(t, block, b).value, block.header.number).Ok?
  {
    var u, n := InsertBlock(t, block, b).value, block.header.number;
    assert u.block.Keys == NumberTexts(n + 1);
    TipCheckAcceptsNewest(n);
  }

  lemma WipingBlockIsTip()
    ensures InsertBlock(CREATED, WIPING_BLOCK, WIPING_BUNDLE).Ok?
    ensures RevertTip(InsertBlock(CREATED, WIPING_BLOCK, WIPING_BUNDLE).value, WIPING_BLOCK.header.number).Ok?
  {
    NumbersAsText();
    assert CREATED.block.Keys == {"0"} == NumberTexts(1);
    assert EndsDecade(1) by { assert 1 / 10 + 1 == Pow10(0); }
    NextBlockIsTip(CREATED, WIPING_BLOCK, WIPING_BUNDLE);
  }

  /** A slot that the wipe removed, and the log does not list, reads zero after the revert. */
  lemma WipedSlotReadsZero(t: Tables, block: Block, b: Bundle, s: Slot)
    requires ValidBundle(t, b) && InsertBlock(t, block, b).Ok?
    requires RevertTip(InsertBlock(t, block, b).value, block.header.number).Ok?
    requires LogsWipe(b, s.address) && PostSlot(t, b, s) == None && ListedSlot(b, s) == None
    requires SlotRow(ToText(block.header.number), s) !in t.storageRevert
    ensures ReadSlot(RevertTip(InsertBlock(t, block, b).value, block.header.number).value.storage, s) == 0
  {
    var u, number := InsertBlock(t, block, b).value, ToText(block.header.number);
    InsertedLookups(t, block, b);
    InsertedLogs(t, block, b);
    RestoredLookups(u, number);
    assert Lookup(u.storage, s) == PostSlot(t, b, s);
    assert Lookup(u.storageRevert, SlotRow(number, s)) == LoggedSlot(t, b, number, s);
    assert Lookup(Restored(u, number).storage, s) == RestoredSlot(u, number, s);
  }

  /**
   Exact undo fails in a run from the empty database: block 0 creates a contract and writes 5
   to its slot, block 1 destroys it, and reverting block 1 succeeds but the slot reads zero.
   */
  lemma WipeLosesStorage()
    ensures ValidBundle(EMPTY_TABLES, CREATING_BUNDLE) && ValidBundle(CREATED, WIPING_BUNDLE)
    ensures InsertBlock(EMPTY_TABLES, CREATING_BLOCK, CREATING_BUNDLE) == Ok(CREATED)
    ensures InsertBlock(CREATED, WIPING_BLOCK, WIPING_BUNDLE).Ok?
    ensures var reverted := RevertTip(InsertBlock(CREATED, WIPING_BLOCK, WIPING_BUNDLE).value, WIPING_BLOCK.header.number);
      && reverted.Ok?
      && ReadSlot(CREATED.storage, CONTRACT_SLOT) == 5 && ReadSlot(reverted.value.storage, CONTRACT_SLOT) == 0
  {
    CreatingBundleIsValid();
    CreatedIsInserted();
    WipingBundleIsValid();
    WipingBlockIsTip();
    SlotOfCreated();
    WipedSlotReadsZero(CREATED, WIPING_BLOCK, WIPING_BUNDLE, CONTRACT_SLOT);
  }

  lemma SlotOfCreated()
    ensures ReadSlot(CREATED.storage, CONTRACT_SLOT) == 5
    ensures PostSlot(CREATED, WIPING_BUNDLE, CONTRACT_SLOT) == None && ListedSlot(WIPING_BUNDLE, CONTRACT_SLOT) == None
    ensures SlotRow(ToText(WIPING_BLOCK.header.number), CONTRACT_SLOT) !in CREATED.storageRevert
  {
    NumbersAsText();
    FindOnlyRevert(StorageRevert(CONTRACT_ADDRESS, true, []), CONTRACT_ADDRESS);
    FindOnlyChange(StorageChange(CONTRACT_ADDRESS, true, []), CONTRACT_ADDRESS);
  }

  // ----- replacement cycles

  /** Every row logged under `number` agrees with the current accounts and storage. */
  ghost predicate LogInStep(t: Tables, number: string) {
    && (forall a :: AccountRow(number, a) in t.accountRevert ==>
          t.accountRevert[AccountRow(number, a)] == Lookup(t.account, a))
    && (forall s :: SlotRow(number, s) in t.storageRevert ==>
          OldValue(t.storageRevert[SlotRow(number, s)]) == ReadSlot(t.storage, s))
  }

  /** Inserting and reverting the same number again and again, with a different block each time. */
  ghost function Cycles(t: Tables, attempts: seq<(Block, Bundle)>): Result<Tables, DbError>
    decreases |attempts|
  {
    if attempts == [] then Ok(t)
    else
      match InsertBlock(t, attempts[0].0, attempts[0].1)
      case Err(e) => Err(e)
      case Ok(u) =>
        match RevertTip(u, attempts[0].0.header.number)
        case Err(e) => Err(e)
        case Ok(v) => Cycles(v, attempts[1..])
  }

  lemma ValidityFollowsView(t: Tables, v: Tables, b: Bundle)
    requires ValidBundle(t, b) && SameView(v, t)
    ensures ValidBundle(v, b)
  {
    forall s ensures Read(PostSlot(v, b, s)) == Read(PostSlot(t, b, s)) && ReadSlot(v.storage, s) == ReadSlot(t.storage, s) {
      assert Read(Lookup(v.storage, s)) == ReadSlot(v.storage, s) && Read(Lookup(t.storage, s)) == ReadSlot(t.storage, s);
    }
  }

  /** Every row the insert leaves under its number agrees with the state before it. */
  lemma InsertKeepsLogInStep(t: Tables, block: Block, b: Bundle)
    requires ValidBundle(t, b) && WipeFree(b) && InsertBlock(t, block, b).Ok?
    requires LogInStep(t, ToText(block.header.number))
    ensures var u, number := InsertBlock(t, block, b).value, ToText(block.header.number);
      && (forall a :: AccountRow(number, a) in u.accountRevert ==>
            u.accountRevert[AccountRow(number, a)] == Lookup(t.account, a))
      && (forall s :: SlotRow(number, s) in u.storageRevert ==>
            OldValue(u.storageRevert[SlotRow(number, s)]) == ReadSlot(t.storage, s))
  {
    var u, number := InsertBlock(t, block, b).value, ToText(block.header.number);
    forall a | AccountRow(number, a) in u.accountRevert
      ensures u.accountRevert[AccountRow(number, a)] == Lookup(t.account, a)
    {
      AccountRowInStep(t, block, b, a);
    }
    forall s | SlotRow(number, s) in u.storageRevert
      ensures OldValue(u.storageRevert[SlotRow(number, s)]) == ReadSlot(t.storage, s)
    {
      SlotRowInStep(t, block, b, s);
    }
  }

  lemma AccountRowInStep(t: Tables, block: Block, b: Bundle, a: Address)
    requires ValidBundle(t, b) && InsertBlock(t, block, b).Ok?
    requires LogInStep(t, ToText(block.header.number))
    ensures var u, row := InsertBlock(t, block, b).value, AccountRow(ToText(block.header.number), a);
      row in u.accountRevert ==> u.accountRevert[row] == Lookup(t.account, a)
  {
    var u, number := InsertBlock(t, block, b).value, ToText(block.header.number);
    var row := AccountRow(number, a);
    LoggedAccountLookup(t.accountRevert, number, AccountLog(b), row);
    assert Lookup(u.accountRevert, row) == LoggedAccount(t, b, number, a);
    assert row in t.accountRevert ==> t.accountRevert[row] == Lookup(t.account, a);
  }

  lemma SlotRowInStep(t: Tables, block: Block, b: Bundle, s: Slot)
    requires ValidBundle(t, b) && WipeFree(b) && InsertBlock(t, block, b).Ok?
    requires LogInStep(t, ToText(block.header.number))
    ensures var u, row := InsertBlock(t, block, b).value, SlotRow(ToText(block.header.number), s);
      row in u.storageRevert ==> OldValue(u.storageRevert[row]) == ReadSlot(t.storage, s)
  {
    var u, number := InsertBlock(t, block, b).value, ToText(block.header.number);
    var row := SlotRow(number, s);
    NoWipeLogged(b, s.address);
    LoggedSlotLookup(t.storageRevert, number, StorageLog(b), u.storage, row);
    assert Lookup(u.storageRevert, row) == LoggedSlot(t, b, number, s);
    assert row in t.storageRevert ==> OldValue(t.storageRevert[row]) == ReadSlot(t.storage, s);
  }

  lemma NoWipeLogged(b: Bundle, a: Address)
    requires WipeFree(b)
    ensures !LogsWipe(b, a)
  {
  }

  lemma CycleKeepsLogInStep(t: Tables, block: Block, b: Bundle)
    requires ValidBundle(t, b) && WipeFree(b) && InsertBlock(t, block, b).Ok?
    requires LogInStep(t, ToText(block.header.number))
    ensures var u, number := InsertBlock(t, block, b).value, ToText(block.header.number);
      SameView(Restored(u, number), t) ==> LogInStep(Restored(u, number), number)
  {
    InsertKeepsLogInStep(t, block, b);
  }

  /**
   Log rows outlive a revert, yet any number of insert and revert cycles of one block number
   each restore the state the first one started from.
   */
  lemma {:induction false} ReplacementCycles(t: Tables, n: U64, attempts: seq<(Block, Bundle)>)
    requires LogInStep(t, ToText(n)) && ToText(n) !in t.block && IsTextMax(t.block.Keys + {ToText(n)}, ToText(n))
    requires forall x :: x in attempts ==> x.0.header.number == n && ValidBundle(t, x.1) && WipeFree(x.1)
    ensures Cycles(t, attempts).Ok? && SameView(Cycles(t, attempts).value, t)
    decreases |attempts|
  {
    if attempts == [] {
    } else {
      var (block, b) := attempts[0];
      assert attempts[0] in attempts;
      var u := InsertBlock(t, block, b).value;
      var v := Restored(u, ToText(n));
      assert u.block.Keys == t.block.Keys + {ToText(n)};
      StoredTipIs(u, ToText(n));
      ValueOfText(n);
      OneBlockUndo(t, block, b);
      WipeFreeLogAgrees(t, b, ToText(n));
      CycleKeepsLogInStep(t, block, b);
      forall x | x in attempts[1..] ensures ValidBundle(v, x.1) {
        ValidityFollowsView(t, v, x.1);
      }
      ReplacementCycles(v, n, attempts[1..]);
    }
  }
}
