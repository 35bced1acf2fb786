/**
 Undo logs outlive reverts. Committing and reverting whole chains of blocks over stale rows
 still restores the start; with a deposit in between it does not.
 */
module StaleLogs {
  import opened Prelude
  import opened DecimalText
  import opened TextTip
  import opened Tables
  import opened Undo
  import opened ChainInvariant

  type BlockChain = seq<(Block, Bundle)>

  // ----- inserting and reverting a chain of blocks k, k + 1, ...

  /** Insert the blocks one after the other. */
  function InsertChain(t: Tables, chain: BlockChain): Result<Tables, DbError>
    decreases |chain|
  {
    if chain == [] then Ok(t)
    else
      match InsertBlock(t, chain[0].0, chain[0].1)
      case Err(e) => Err(e)
      case Ok(u) => InsertChain(u, chain[1..])
  }

  /** Apply `revert` for the numbers k + m - 1 down to k. */
  function RevertDown(revert: (Tables, nat) -> Result<Tables, DbError>, t: Tables, k: nat, m: nat): Result<Tables, DbError>
    decreases m
  {
    if m == 0 then Ok(t)
    else
      match revert(t, k + m - 1)
      case Err(e) => Err(e)
      case Ok(v) => RevertDown(revert, v, k, m - 1)
  }

  function RestoreDown(restore: (Tables, nat) -> Tables, t: Tables, k: nat, m: nat): Tables
    decreases m
  {
    if m == 0 then t else RestoreDown(restore, restore(t, k + m - 1), k, m - 1)
  }

  ghost function RevertNumber(): (Tables, nat) -> Result<Tables, DbError> {
    (t: Tables, n: nat) => if n < TWO_256 then RevertTip(t, n) else Err(NoBlocks)
  }

  function RestoreNumber(): (Tables, nat) -> Tables {
    (t: Tables, n: nat) => Restored(t, ToText(n))
  }

  /** Revert the blocks k + m - 1 down to k. */
  ghost function RevertChain(t: Tables, k: nat, m: nat): Result<Tables, DbError> {
    RevertDown(RevertNumber(), t, k, m)
  }

  /** What the logs of the blocks k + m - 1 down to k restore. */
  function RestoredChain(t: Tables, k: nat, m: nat): Tables {
    RestoreDown(RestoreNumber(), t, k, m)
  }

  lemma RestoredChainStep(t: Tables, k: nat, m: nat)
    ensures RestoredChain(t, k, 0) == t
    ensures m > 0 ==> RestoredChain(t, k, m) == RestoredChain(Restored(t, ToText(k + m - 1)), k, m - 1)
  {
  }

  /** The blocks are numbered from k, fit where they are inserted, and wipe nothing. */
  ghost predicate FittingChain(t: Tables, k: nat, chain: BlockChain)
    decreases |chain|
  {
    chain == [] ||
    (&& chain[0].0.header.number == k
     && ValidBundle(t, chain[0].1) && WipeFree(chain[0].1)
     && InsertBlock(t, chain[0].0, chain[0].1).Ok?
     && FittingChain(InsertBlock(t, chain[0].0, chain[0].1).value, k + 1, chain[1..]))
  }

  // ----- the lowest row logged from block k on

  /** The row logged for `a` under the lowest of the numbers k, ..., k + m - 1 that has one. */
  function LowestAccount(log: map<AccountRow, Option<Account>>, k: nat, m: nat, a: Address): Option<Option<Account>> {
    if m == 0 then None
    else
      var lower := LowestAccount(log, k, m - 1, a);
      if lower.Some? then lower else Lookup(log, AccountRow(ToText(k + m - 1), a))
  }

  function LowestSlot(log: map<SlotRow, RevertToSlot>, k: nat, m: nat, s: Slot): Option<RevertToSlot> {
    if m == 0 then None
    else
      var lower := LowestSlot(log, k, m - 1, s);
      if lower.Some? then lower else Lookup(log, SlotRow(ToText(k + m - 1), s))
  }

  /** From number k on, the lowest row of account `a` says `old_`. */
  ghost predicate AccountInStep(log: map<AccountRow, Option<Account>>, k: nat, a: Address, old_: Option<Account>) {
    forall m: nat :: LowestAccount(log, k, m, a).Some? ==> LowestAccount(log, k, m, a).value == old_
  }

  ghost predicate SlotInStep(log: map<SlotRow, RevertToSlot>, k: nat, s: Slot, old_: U256) {
    forall m: nat :: LowestSlot(log, k, m, s).Some? ==> OldValue(LowestSlot(log, k, m, s).value) == old_
  }

  /**
   From number k on, the lowest row logged for each account and slot agrees with the present
   accounts and storage; rows above the lowest may say anything.
   */
  ghost predicate LowestInStep(t: Tables, k: nat) {
    && (forall a :: AccountInStep(t.accountRevert, k, a, Lookup(t.account, a)))
    && (forall s :: SlotInStep(t.storageRevert, k, s, ReadSlot(t.storage, s)))
  }

  lemma {:induction false} LowestAccountFirst(log: map<AccountRow, Option<Account>>, k: nat, m: nat, a: Address)
    ensures var first := Lookup(log, AccountRow(ToText(k), a));
      LowestAccount(log, k, m + 1, a) == if first.Some? then first else LowestAccount(log, k + 1, m, a)
  {
    if m == 0 {
      assert LowestAccount(log, k, 0, a) == None;
    } else {
      LowestAccountFirst(log, k, m - 1, a);
      assert k + (m + 1) - 1 == (k + 1) + m - 1;
    }
  }

  lemma {:induction false} LowestSlotFirst(log: map<SlotRow, RevertToSlot>, k: nat, m: nat, s: Slot)
    ensures var first := Lookup(log, SlotRow(ToText(k), s));
      LowestSlot(log, k, m + 1, s) == if first.Some? then first else LowestSlot(log, k + 1, m, s)
  {
    if m == 0 {
      assert LowestSlot(log, k, 0, s) == None;
    } else {
      LowestSlotFirst(log, k, m - 1, s);
      assert k + (m + 1) - 1 == (k + 1) + m - 1;
    }
  }

  /** Rows of numbers from k on decide the lowest one. */
  lemma {:induction false} SameLowestAccount(
    log: map<AccountRow, Option<Account>>, log': map<AccountRow, Option<Account>>, k: nat, m: nat, a: Address)
    requires forall n: nat :: k <= n ==> Lookup(log', AccountRow(ToText(n), a)) == Lookup(log, AccountRow(ToText(n), a))
    ensures LowestAccount(log', k, m, a) == LowestAccount(log, k, m, a)
  {
    if m == 0 {
    } else {
      SameLowestAccount(log, log', k, m - 1, a);
    }
  }

  lemma {:induction false} SameLowestSlot(
    log: map<SlotRow, RevertToSlot>, log': map<SlotRow, RevertToSlot>, k: nat, m: nat, s: Slot)
    requires forall n: nat :: k <= n ==> Lookup(log', SlotRow(ToText(n), s)) == Lookup(log, SlotRow(ToText(n), s))
    ensures LowestSlot(log', k, m, s) == LowestSlot(log, k, m, s)
  {
    if m == 0 {
    } else {
      SameLowestSlot(log, log', k, m - 1, s);
    }
  }

  // ----- restoring a chain leaves the lowest rows

  lemma {:induction false} RestoredChainAccount(t: Tables, k: nat, m: nat, a: Address)
    ensures var lowest := LowestAccount(t.accountRevert, k, m, a);
      Lookup(RestoredChain(t, k, m).account, a) == if lowest.Some? then lowest.value else Lookup(t.account, a)
    decreases m
  {
    if m == 0 {
    } else {
      var number := ToText(k + m - 1);
      RestoredLookups(t, number);
      assert Lookup(Restored(t, number).account, a) == RestoredAccount(t, number, a);
      RestoredChainStep(t, k, m);
      RestoredChainAccount(Restored(t, number), k, m - 1, a);
    }
  }

  lemma {:induction false} RestoredChainLogs(t: Tables, k: nat, m: nat)
    ensures RestoredChain(t, k, m).accountRevert == t.accountRevert
    ensures RestoredChain(t, k, m).storageRevert == t.storageRevert
    decreases m
  {
    if m == 0 {
    } else {
      RestoredChainStep(t, k, m);
      RestoredChainLogs(Restored(t, ToText(k + m - 1)), k, m - 1);
    }
  }

  lemma {:induction false} RestoredChainSlot(t: Tables, k: nat, m: nat, s: Slot)
    ensures var lowest := LowestSlot(t.storageRevert, k, m, s);
      ReadSlot(RestoredChain(t, k, m).storage, s) ==
        if lowest.Some? then OldValue(lowest.value) else ReadSlot(t.storage, s)
    decreases m
  {
    if m == 0 {
    } else {
      var number := ToText(k + m - 1);
      RestoredLookups(t, number);
      assert Lookup(Restored(t, number).storage, s) == RestoredSlot(t, number, s);
      assert ReadSlot(Restored(t, number).storage, s) == Read(RestoredSlot(t, number, s));
      RestoredChainStep(t, k, m);
      RestoredChainSlot(Restored(t, number), k, m - 1, s);
    }
  }

  // ----- inserting a chain keeps the lowest rows in step with the start

  /** Without a row of number k the lowest row is one of a later number. */
  lemma LaterAccountInStep(
    log: map<AccountRow, Option<Account>>, log': map<AccountRow, Option<Account>>, k: nat, a: Address, old_: Option<Account>)
    requires AccountInStep(log, k, a, old_) && Lookup(log, AccountRow(ToText(k), a)).None?
    requires forall n: nat :: n != k ==> Lookup(log', AccountRow(ToText(n), a)) == Lookup(log, AccountRow(ToText(n), a))
    ensures AccountInStep(log', k + 1, a, old_)
  {
    var next := k + 1;
    forall m: nat | LowestAccount(log', next, m, a).Some? ensures LowestAccount(log', next, m, a).value == old_ {
      LowestAccountFirst(log, k, m, a);
      SameLowestAccount(log, log', k + 1, m, a);
    }
  }

  lemma LaterSlotInStep(
    log: map<SlotRow, RevertToSlot>, log': map<SlotRow, RevertToSlot>, k: nat, s: Slot, old_: U256)
    requires SlotInStep(log, k, s, old_) && Lookup(log, SlotRow(ToText(k), s)).None?
    requires forall n: nat :: n != k ==> Lookup(log', SlotRow(ToText(n), s)) == Lookup(log, SlotRow(ToText(n), s))
    ensures SlotInStep(log', k + 1, s, old_)
  {
    var next := k + 1;
    forall m: nat | LowestSlot(log', next, m, s).Some? ensures OldValue(LowestSlot(log', next, m, s).value) == old_ {
      LowestSlotFirst(log, k, m, s);
      SameLowestSlot(log, log', k + 1, m, s);
    }
  }

  /** A row of number k that agrees, or agreeing rows from k + 1 on, put the lowest row in step. */
  lemma FirstAccountInStep(log: map<AccountRow, Option<Account>>, k: nat, a: Address, old_: Option<Account>)
    requires var first := Lookup(log, AccountRow(ToText(k), a));
      if first.Some? then first.value == old_ else AccountInStep(log, k + 1, a, old_)
    ensures AccountInStep(log, k, a, old_)
  {
    forall m: nat | LowestAccount(log, k, m, a).Some? ensures LowestAccount(log, k, m, a).value == old_ {
      LowestAccountFirst(log, k, m - 1, a);
    }
  }

  lemma FirstSlotInStep(log: map<SlotRow, RevertToSlot>, k: nat, s: Slot, old_: U256)
    requires var first := Lookup(log, SlotRow(ToText(k), s));
      if first.Some? then OldValue(first.value) == old_ else SlotInStep(log, k + 1, s, old_)
    ensures SlotInStep(log, k, s, old_)
  {
    forall m: nat | LowestSlot(log, k, m, s).Some? ensures OldValue(LowestSlot(log, k, m, s).value) == old_ {
      LowestSlotFirst(log, k, m - 1, s);
    }
  }

  /** The row of block k after its insert, for one account. */
  lemma InsertedAccountRow(t: Tables, block: Block, b: Bundle, k: nat, a: Address)
    requires ValidBundle(t, b) && InsertBlock(t, block, b).Ok? && block.header.number == k
    requires AccountInStep(t.accountRevert, k, a, Lookup(t.account, a))
    ensures var u, old_ := InsertBlock(t, block, b).value, Lookup(t.account, a);
      var row := Lookup(u.accountRevert, AccountRow(ToText(k), a));
      if row.Some? then row.value == old_
      else Lookup(u.account, a) == old_ && AccountInStep(u.accountRevert, k + 1, a, old_)
    ensures forall n: nat :: n != k ==>
      Lookup(InsertBlock(t, block, b).value.accountRevert, AccountRow(ToText(n), a)) == Lookup(t.accountRevert, AccountRow(ToText(n), a))
  {
    var u, old_ := InsertBlock(t, block, b).value, Lookup(t.account, a);
    InsertedLookups(t, block, b);
    InsertedLogs(t, block, b);
    assert Lookup(u.accountRevert, AccountRow(ToText(k), a)) == LoggedAccount(t, b, ToText(k), a);
    assert Lookup(u.account, a) == (match Find(b.accounts, a) case Some(x) => x case None => old_);
    forall n: nat | n != k
      ensures Lookup(u.accountRevert, AccountRow(ToText(n), a)) == Lookup(t.accountRevert, AccountRow(ToText(n), a))
    {
      if ToText(n) == ToText(k) { TextIsInjective(n, k); }
    }
    LowestAccountFirst(t.accountRevert, k, 0, a);
    assert LowestAccount(t.accountRevert, k, 0 + 1, a).Some? ==> LowestAccount(t.accountRevert, k, 0 + 1, a).value == old_;
    if Lookup(u.accountRevert, AccountRow(ToText(k), a)).None? {
      LaterAccountInStep(t.accountRevert, u.accountRevert, k, a, old_);
    }
  }

  lemma InsertedSlotRow(t: Tables, block: Block, b: Bundle, k: nat, s: Slot)
    requires ValidBundle(t, b) && WipeFree(b) && InsertBlock(t, block, b).Ok? && block.header.number == k
    requires SlotInStep(t.storageRevert, k, s, ReadSlot(t.storage, s))
    ensures var u, old_ := InsertBlock(t, block, b).value, ReadSlot(t.storage, s);
      var row := Lookup(u.storageRevert, SlotRow(ToText(k), s));
      if row.Some? then OldValue(row.value) == old_
      else ReadSlot(u.storage, s) == old_ && SlotInStep(u.storageRevert, k + 1, s, old_)
    ensures forall n: nat :: n != k ==>
      Lookup(InsertBlock(t, block, b).value.storageRevert, SlotRow(ToText(n), s)) == Lookup(t.storageRevert, SlotRow(ToText(n), s))
  {
    var u, old_ := InsertBlock(t, block, b).value, ReadSlot(t.storage, s);
    InsertedLookups(t, block, b);
    InsertedLogs(t, block, b);
    NoWipeLogged(b, s.address);
    assert Lookup(u.storageRevert, SlotRow(ToText(k), s)) == LoggedSlot(t, b, ToText(k), s);
    assert Lookup(u.storage, s) == PostSlot(t, b, s);
    assert ReadSlot(u.storage, s) == Read(PostSlot(t, b, s));
    forall n: nat | n != k
      ensures Lookup(u.storageRevert, SlotRow(ToText(n), s)) == Lookup(t.storageRevert, SlotRow(ToText(n), s))
    {
      if ToText(n) == ToText(k) { TextIsInjective(n, k); }
    }
    LowestSlotFirst(t.storageRevert, k, 0, s);
    assert LowestSlot(t.storageRevert, k, 0 + 1, s).Some? ==> OldValue(LowestSlot(t.storageRevert, k, 0 + 1, s).value) == old_;
    if Lookup(u.storageRevert, SlotRow(ToText(k), s)).None? {
      LaterSlotInStep(t.storageRevert, u.storageRevert, k, s, old_);
    }
  }

  lemma {:induction false} FittingInserts(t: Tables, k: nat, chain: BlockChain)
    requires FittingChain(t, k, chain)
    ensures InsertChain(t, chain).Ok?
    decreases |chain|
  {
    if chain == [] {
    } else {
      FittingInserts(InsertBlock(t, chain[0].0, chain[0].1).value, k + 1, chain[1..]);
    }
  }

  /** Later inserts leave the rows of earlier numbers. */
  lemma {:induction false} EarlierAccountStays(t: Tables, k: nat, chain: BlockChain, n: nat, a: Address)
    requires FittingChain(t, k, chain) && n < k && InsertChain(t, chain).Ok?
    ensures Lookup(InsertChain(t, chain).value.accountRevert, AccountRow(ToText(n), a))
         == Lookup(t.accountRevert, AccountRow(ToText(n), a))
    decreases |chain|
  {
    if chain == [] {
    } else {
      if ToText(n) == ToText(k) { TextIsInjective(n, k); }
      LoggedAccountLookup(t.accountRevert, ToText(k), AccountLog(chain[0].1), AccountRow(ToText(n), a));
      EarlierAccountStays(InsertBlock(t, chain[0].0, chain[0].1).value, k + 1, chain[1..], n, a);
    }
  }

  lemma {:induction false} EarlierSlotStays(t: Tables, k: nat, chain: BlockChain, n: nat, s: Slot)
    requires FittingChain(t, k, chain) && n < k && InsertChain(t, chain).Ok?
    ensures Lookup(InsertChain(t, chain).value.storageRevert, SlotRow(ToText(n), s))
         == Lookup(t.storageRevert, SlotRow(ToText(n), s))
    decreases |chain|
  {
    if chain == [] {
    } else {
      if ToText(n) == ToText(k) { TextIsInjective(n, k); }
      var u := InsertBlock(t, chain[0].0, chain[0].1).value;
      LoggedSlotLookup(t.storageRevert, ToText(k), StorageLog(chain[0].1), u.storage, SlotRow(ToText(n), s));
      EarlierSlotStays(u, k + 1, chain[1..], n, s);
    }
  }

  /** One account over a whole chain: the lowest row, or without one the account itself, is as at the start. */
  lemma {:induction false} ChainAccount(t: Tables, k: nat, chain: BlockChain, a: Address)
    requires FittingChain(t, k, chain) && AccountInStep(t.accountRevert, k, a, Lookup(t.account, a))
    ensures InsertChain(t, chain).Ok?
    ensures var w, old_ := InsertChain(t, chain).value, Lookup(t.account, a);
      && AccountInStep(w.accountRevert, k, a, old_)
      && (LowestAccount(w.accountRevert, k, |chain|, a).None? ==> Lookup(w.account, a) == old_)
    decreases |chain|
  {
    if chain == [] {
    } else {
      var u, old_ := InsertBlock(t, chain[0].0, chain[0].1).value, Lookup(t.account, a);
      var rest := chain[1..];
      InsertedAccountRow(t, chain[0].0, chain[0].1, k, a);
      FittingInserts(u, k + 1, rest);
      EarlierAccountStays(u, k + 1, rest, k, a);
      var w := InsertChain(u, rest).value;
      var first := Lookup(w.accountRevert, AccountRow(ToText(k), a));
      assert InsertChain(t, chain) == Ok(w) && |chain| == |rest| + 1;
      if first.None? { ChainAccount(u, k + 1, rest, a); }
      FirstAccountInStep(w.accountRevert, k, a, old_);
      LowestAccountFirst(w.accountRevert, k, |rest|, a);
    }
  }

  lemma {:induction false} ChainSlot(t: Tables, k: nat, chain: BlockChain, s: Slot)
    requires FittingChain(t, k, chain) && SlotInStep(t.storageRevert, k, s, ReadSlot(t.storage, s))
    ensures InsertChain(t, chain).Ok?
    ensures var w, old_ := InsertChain(t, chain).value, ReadSlot(t.storage, s);
      && SlotInStep(w.storageRevert, k, s, old_)
      && (LowestSlot(w.storageRevert, k, |chain|, s).None? ==> ReadSlot(w.storage, s) == old_)
    decreases |chain|
  {
    if chain == [] {
    } else {
      var u, old_ := InsertBlock(t, chain[0].0, chain[0].1).value, ReadSlot(t.storage, s);
      var rest := chain[1..];
      InsertedSlotRow(t, chain[0].0, chain[0].1, k, s);
      FittingInserts(u, k + 1, rest);
      EarlierSlotStays(u, k + 1, rest, k, s);
      var w := InsertChain(u, rest).value;
      var first := Lookup(w.storageRevert, SlotRow(ToText(k), s));
      assert InsertChain(t, chain) == Ok(w) && |chain| == |rest| + 1;
      if first.None? { ChainSlot(u, k + 1, rest, s); }
      FirstSlotInStep(w.storageRevert, k, s, old_);
      LowestSlotFirst(w.storageRevert, k, |rest|, s);
    }
  }

  // ----- blocks

  /** Inserting a chain adds exactly its numbers to the stored ones. */
  lemma {:induction false} ChainBlocks(t: Tables, k: nat, chain: BlockChain)
    requires FittingChain(t, k, chain) && t.block.Keys == NumberTexts(k)
    ensures InsertChain(t, chain).Ok?
    ensures InsertChain(t, chain).value.block.Keys == NumberTexts(k + |chain|)
    ensures forall n :: n in t.block ==> InsertChain(t, chain).value.block[n] == t.block[n]
    decreases |chain|
  {
    if chain == [] {
    } else {
      NumberTextsGrow(k);
      TextStored(k, k);
      ChainBlocks(InsertBlock(t, chain[0].0, chain[0].1).value, k + 1, chain[1..]);
    }
  }

  lemma NewestReverts(w: Tables, n: nat)
    requires w.block.Keys == NumberTexts(n + 1) && n < TWO_256 && EndsDecade(n)
    ensures RevertTip(w, n) == Ok(Restored(w, ToText(n)))
    ensures Restored(w, ToText(n)).block.Keys == NumberTexts(n)
    ensures Restored(w, ToText(n)).block == w.block - {ToText(n)}
  {
    TipCheckAcceptsNewest(n);
    NumberTextsGrow(n);
  }

  /**
   Reverting downwards, while `ready` says of each state that what is to be reverted next is
   restored, and the result ready for the number below.
   */
  lemma {:induction false} RevertsWhileReady(
    ready: (Tables, nat) -> bool, revert: (Tables, nat) -> Result<Tables, DbError>, restore: (Tables, nat) -> Tables,
    w: Tables, k: nat, m: nat)
    requires ready(w, k + m)
    requires forall t, n: nat {:trigger revert(t, n)} :: k <= n < k + m && ready(t, n + 1) ==>
      revert(t, n) == Ok(restore(t, n)) && ready(restore(t, n), n)
    ensures RevertDown(revert, w, k, m) == Ok(RestoreDown(restore, w, k, m)) && ready(RestoreDown(restore, w, k, m), k)
    decreases m
  {
    if m == 0 {
    } else {
      var n := k + m - 1;
      assert revert(w, n) == Ok(restore(w, n));
      RevertsWhileReady(ready, revert, restore, restore(w, n), k, m - 1);
    }
  }

  /** Exactly the blocks below a number are stored. */
  function StoredBelow(): (Tables, nat) -> bool {
    (t: Tables, n: nat) => t.block.Keys == NumberTexts(n)
  }

  lemma StoredBelowReverts(t: Tables, n: nat)
    requires n < TWO_256 && StoredBelow()(t, n + 1) && EndsDecade(n)
    ensures RevertNumber()(t, n) == Ok(RestoreNumber()(t, n))
    ensures StoredBelow()(RestoreNumber()(t, n), n)
  {
    NewestReverts(t, n);
  }

  ghost predicate EndDecades(k: nat, m: nat) {
    forall n: nat :: k <= n < k + m ==> EndsDecade(n)
  }

  /** With numbers that end decades, reverting blocks k + m - 1 down to k succeeds, and leaves the blocks below k. */
  lemma ChainReverts(w: Tables, k: nat, m: nat)
    requires StoredBelow()(w, k + m) && k + m <= TWO_256 && EndDecades(k, m)
    ensures RevertChain(w, k, m) == Ok(RestoredChain(w, k, m)) && StoredBelow()(RestoredChain(w, k, m), k)
  {
    var ready, revert, restore := StoredBelow(), RevertNumber(), RestoreNumber();
    forall t, n: nat {:trigger revert(t, n)} | k <= n < k + m && ready(t, n + 1)
      ensures revert(t, n) == Ok(restore(t, n)) && ready(restore(t, n), n)
    {
      StoredBelowReverts(t, n);
    }
    RevertsWhileReady(ready, revert, restore, w, k, m);
  }

  lemma {:induction false} RestoredChainBlocks(t: Tables, k: nat, m: nat, n: string)
    requires n in RestoredChain(t, k, m).block
    ensures n in t.block && RestoredChain(t, k, m).block[n] == t.block[n]
    decreases m
  {
    if m == 0 {
    } else {
      RestoredChainStep(t, k, m);
      RestoredChainBlocks(Restored(t, ToText(k + m - 1)), k, m - 1, n);
    }
  }

  // ----- one cycle, and many

  /** Committing a chain of blocks from number k and reverting it. */
  ghost function Cycle(t: Tables, k: nat, chain: BlockChain): Result<Tables, DbError> {
    match InsertChain(t, chain)
    case Err(e) => Err(e)
    case Ok(w) => RevertChain(w, k, |chain|)
  }

  /** The chain fits, and its numbers end decades. */
  ghost predicate RevertibleChain(t: Tables, k: nat, chain: BlockChain) {
    FittingChain(t, k, chain) && k + |chain| <= TWO_256 && EndDecades(k, |chain|)
  }

  /**
   A whole chain of blocks on top of 0..k-1, over whatever rows earlier chains have left: if the
   lowest of those rows agree with the present state, committing the chain and reverting it
   restores blocks, accounts and storage reads exactly, and the lowest rows agree again,
   although the undo of a single block on the way need not be exact.
   */
  lemma CycleRestores(t: Tables, k: nat, chain: BlockChain)
    requires t.block.Keys == NumberTexts(k) && LowestInStep(t, k) && RevertibleChain(t, k, chain)
    ensures Cycle(t, k, chain).Ok?
    ensures SameView(Cycle(t, k, chain).value, t) && LowestInStep(Cycle(t, k, chain).value, k)
  {
    ChainBlocks(t, k, chain);
    var w, m := InsertChain(t, chain).value, |chain|;
    ChainReverts(w, k, m);
    RestoredChainLogs(w, k, m);
    var v := RestoredChain(w, k, m);
    forall n | n in t.block ensures v.block[n] == t.block[n] {
      assert n in v.block;
      RestoredChainBlocks(w, k, m, n);
    }
    assert v.block == t.block;
    forall a ensures Lookup(v.account, a) == Lookup(t.account, a) && AccountInStep(v.accountRevert, k, a, Lookup(v.account, a)) {
      assert AccountInStep(t.accountRevert, k, a, Lookup(t.account, a));
      ChainAccount(t, k, chain, a);
      RestoredChainAccount(w, k, m, a);
    }
    SameLookups(v.account, t.account);
    forall s ensures ReadSlot(v.storage, s) == ReadSlot(t.storage, s) && SlotInStep(v.storageRevert, k, s, ReadSlot(v.storage, s)) {
      assert SlotInStep(t.storageRevert, k, s, ReadSlot(t.storage, s));
      ChainSlot(t, k, chain, s);
      RestoredChainSlot(w, k, m, s);
    }
  }

  /** One chain after the other, each committed and reverted. */
  ghost function CycleAll(t: Tables, k: nat, chains: seq<BlockChain>): Result<Tables, DbError>
    decreases |chains|
  {
    if chains == [] then Ok(t)
    else
      match Cycle(t, k, chains[0])
      case Err(e) => Err(e)
      case Ok(v) => CycleAll(v, k, chains[1..])
  }

  /** Each chain is revertible where it is committed. */
  ghost predicate AllRevertible(t: Tables, k: nat, chains: seq<BlockChain>)
    decreases |chains|
  {
    chains == [] ||
    (&& RevertibleChain(t, k, chains[0])
     && (Cycle(t, k, chains[0]).Ok? ==> AllRevertible(Cycle(t, k, chains[0]).value, k, chains[1..])))
  }

  /**
   Any number of whole chains, of any lengths and with different blocks, committed on top of
   0..k-1 and reverted one after the other: all succeed and the state is as before the first.
   */
  lemma {:induction false} SuffixCycles(t: Tables, k: nat, chains: seq<BlockChain>)
    requires t.block.Keys == NumberTexts(k) && LowestInStep(t, k) && AllRevertible(t, k, chains)
    ensures CycleAll(t, k, chains).Ok? && SameView(CycleAll(t, k, chains).value, t)
    decreases |chains|
  {
    if chains == [] {
    } else {
      CycleRestores(t, k, chains[0]);
      SuffixCycles(Cycle(t, k, chains[0]).value, k, chains[1..]);
    }
  }

  /** Such a run can start wherever nothing has been logged from number k on. */
  lemma UnloggedInStep(t: Tables, k: nat)
    requires forall row: AccountRow, n: nat :: row in t.accountRevert && k <= n ==> row.number != ToText(n)
    requires forall row: SlotRow, n: nat :: row in t.storageRevert && k <= n ==> row.number != ToText(n)
    ensures LowestInStep(t, k)
  {
    forall a, m: nat ensures LowestAccount(t.accountRevert, k, m, a) == None {
      NoLowestAccount(t.accountRevert, k, m, a);
    }
    forall s, m: nat ensures LowestSlot(t.storageRevert, k, m, s) == None {
      NoLowestSlot(t.storageRevert, k, m, s);
    }
  }

  lemma {:induction false} NoLowestAccount(log: map<AccountRow, Option<Account>>, k: nat, m: nat, a: Address)
    requires forall row: AccountRow, n: nat :: row in log && k <= n ==> row.number != ToText(n)
    ensures LowestAccount(log, k, m, a) == None
  {
    if m == 0 {
    } else {
      NoLowestAccount(log, k, m - 1, a);
    }
  }

  lemma {:induction false} NoLowestSlot(log: map<SlotRow, RevertToSlot>, k: nat, m: nat, s: Slot)
    requires forall row: SlotRow, n: nat :: row in log && k <= n ==> row.number != ToText(n)
    ensures LowestSlot(log, k, m, s) == None
  {
    if m == 0 {
    } else {
      NoLowestSlot(log, k, m - 1, s);
    }
  }

  // ----- with a deposit in between

  /** A block whose only transaction was skipped: its bundle logs and changes nothing. */
  const IDLE_BLOCK := Block(Header(0, 0, 30_000_000, 24, 1_000_000_000), [])
  const IDLE_BUNDLE := Bundle([], [], [], [[]], [[]])

  /** Blocks, account rows and the log after block 0 has been inserted and reverted. */
  lemma CreatedIsReverted()
    ensures RevertTip(CREATED, 0).Ok?
    ensures var t := RevertTip(CREATED, 0).value;
      t.block == map[] && CONTRACT_ADDRESS !in t.account
      && AccountRow(ToText(0), CONTRACT_ADDRESS) in t.accountRevert
      && t.accountRevert[AccountRow(ToText(0), CONTRACT_ADDRESS)] == None
  {
    NumbersAsText();
    assert CREATED.block.Keys == {ToText(0)};
    assert IsTextMax(CREATED.block.Keys, ToText(0));
    StoredTipIs(CREATED, ToText(0));
    ValueOfText(0);
    RestoredLookups(CREATED, ToText(0));
    assert Lookup(Restored(CREATED, ToText(0)).account, CONTRACT_ADDRESS) == RestoredAccount(CREATED, ToText(0), CONTRACT_ADDRESS);
  }

  /** Reverting an idle block 0 applies the stale row of block 0 to an account that got a deposit meanwhile. */
  lemma StaleRowApplies(t: Tables, a: Address, amount: U256)
    requires t.block == map[] && AccountRow(ToText(0), a) in t.accountRevert && t.accountRevert[AccountRow(ToText(0), a)] == None
    ensures var inserted := InsertBlock(AddDeposit(t, a, amount), IDLE_BLOCK, IDLE_BUNDLE);
      && inserted.Ok? && RevertTip(inserted.value, 0).Ok?
      && a !in RevertTip(inserted.value, 0).value.account
  {
    var d := AddDeposit(t, a, amount);
    var u := InsertBlock(d, IDLE_BLOCK, IDLE_BUNDLE).value;
    assert u.block.Keys == {ToText(0)};
    assert IsTextMax(u.block.Keys, ToText(0));
    StoredTipIs(u, ToText(0));
    ValueOfText(0);
    assert u.accountRevert == d.accountRevert;
    RestoredLookups(u, ToText(0));
    assert Lookup(Restored(u, ToText(0)).account, a) == RestoredAccount(u, ToText(0), a);
  }

  /**
   A stale row destroys a deposit, in a run from the empty database: block 0 creates an
   account and is reverted, a deposit is made to that address, an idle block 0 is inserted and
   reverted; both reverts succeed, and the account and the deposit are gone.
   */
  lemma StaleRowLosesDeposit(amount: U256)
    ensures InsertBlock(EMPTY_TABLES, CREATING_BLOCK, CREATING_BUNDLE) == Ok(CREATED)
    ensures RevertTip(CREATED, 0).Ok?
    ensures var deposited := AddDeposit(RevertTip(CREATED, 0).value, CONTRACT_ADDRESS, amount);
      var inserted := InsertBlock(deposited, IDLE_BLOCK, IDLE_BUNDLE);
      && deposited.account[CONTRACT_ADDRESS] == EMPTY_ACCOUNT.(balance := amount)
      && inserted.Ok? && RevertTip(inserted.value, 0).Ok?
      && CONTRACT_ADDRESS !in RevertTip(inserted.value, 0).value.account
  {
    CreatedIsInserted();
    CreatedIsReverted();
    StaleRowApplies(RevertTip(CREATED, 0).value, CONTRACT_ADDRESS, amount);
  }
}
