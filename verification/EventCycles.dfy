/**
 Chains of submitted blocks committed and reverted over stale undo logs: exactly when one such
 cycle restores the start, and that all of them do when the first is undisturbed.
 */
module EventCycles {
  import opened Prelude
  import opened DecimalText
  import opened TextTip
  import opened Tables
  import opened ChainEvents
  import opened Execution
  import opened Rollup
  import opened Undo
  import opened ChainUndo
  import opened ChainInvariant
  import opened ExactUndo
  import opened StaleLogs

  // ----- one cycle of blocks, exactly

  /**
   The first thing that blocks k, k + 1, ... log or find logged for `a`: what a block logs itself
   agrees with the account `old_` at the start, and a row found must say `old_`.
   */
  predicate AccountLeftoverAgrees(
    log: map<AccountRow, Option<Account>>, old_: Option<Account>, k: nat, chain: BlockChain, a: Address)
    decreases |chain|
  {
    chain == [] || Find(AccountLog(chain[0].1), a).Some?
    || (if AccountRow(ToText(k), a) in log then log[AccountRow(ToText(k), a)] == old_
        else AccountLeftoverAgrees(log, old_, k + 1, chain[1..], a))
  }

  predicate SlotLeftoverAgrees(log: map<SlotRow, RevertToSlot>, old_: U256, k: nat, chain: BlockChain, s: Slot)
    decreases |chain|
  {
    chain == [] || ListedSlot(chain[0].1, s).Some?
    || (if SlotRow(ToText(k), s) in log then OldValue(log[SlotRow(ToText(k), s)]) == old_
        else SlotLeftoverAgrees(log, old_, k + 1, chain[1..], s))
  }

  /** The leftovers that the chain meets first agree with the state before it. */
  ghost predicate LeftoversAgreeFirst(t: Tables, k: nat, chain: BlockChain) {
    && (forall a :: AccountLeftoverAgrees(t.accountRevert, Lookup(t.account, a), k, chain, a))
    && (forall s :: SlotLeftoverAgrees(t.storageRevert, ReadSlot(t.storage, s), k, chain, s))
  }

  /** Rows of numbers from k on decide. */
  lemma {:induction false} SameAccountLeftover(
    log: map<AccountRow, Option<Account>>, log': map<AccountRow, Option<Account>>, old_: Option<Account>,
    k: nat, chain: BlockChain, a: Address)
    requires forall n: nat :: k <= n ==> Lookup(log', AccountRow(ToText(n), a)) == Lookup(log, AccountRow(ToText(n), a))
    ensures AccountLeftoverAgrees(log', old_, k, chain, a) <==> AccountLeftoverAgrees(log, old_, k, chain, a)
    decreases |chain|
  {
    if chain == [] {
    } else {
      assert Lookup(log', AccountRow(ToText(k), a)) == Lookup(log, AccountRow(ToText(k), a));
      SameAccountLeftover(log, log', old_, k + 1, chain[1..], a);
    }
  }

  lemma {:induction false} SameSlotLeftover(
    log: map<SlotRow, RevertToSlot>, log': map<SlotRow, RevertToSlot>, old_: U256, k: nat, chain: BlockChain, s: Slot)
    requires forall n: nat :: k <= n ==> Lookup(log', SlotRow(ToText(n), s)) == Lookup(log, SlotRow(ToText(n), s))
    ensures SlotLeftoverAgrees(log', old_, k, chain, s) <==> SlotLeftoverAgrees(log, old_, k, chain, s)
    decreases |chain|
  {
    if chain == [] {
    } else {
      assert Lookup(log', SlotRow(ToText(k), s)) == Lookup(log, SlotRow(ToText(k), s));
      SameSlotLeftover(log, log', old_, k + 1, chain[1..], s);
    }
  }

  /** What the insert of block k leaves of one account and its rows. */
  lemma AccountAfterInsert(t: Tables, block: Block, b: Bundle, k: nat, a: Address)
    requires ValidBundle(t, b) && InsertBlock(t, block, b).Ok? && block.header.number == k
    ensures var u, old_ := InsertBlock(t, block, b).value, Lookup(t.account, a);
      var row := Lookup(u.accountRevert, AccountRow(ToText(k), a));
      if Find(AccountLog(b), a).Some? then row == Some(old_)
      else row == Lookup(t.accountRevert, AccountRow(ToText(k), a)) && Lookup(u.account, a) == old_
    ensures forall n: nat :: n != k ==>
      Lookup(InsertBlock(t, block, b).value.accountRevert, AccountRow(ToText(n), a)) == Lookup(t.accountRevert, AccountRow(ToText(n), a))
  {
    var u := InsertBlock(t, block, b).value;
    AccountsLookup(t.account, b.accounts, a);
    LoggedAccountLookup(t.accountRevert, ToText(k), AccountLog(b), AccountRow(ToText(k), a));
    forall n: nat | n != k
      ensures Lookup(u.accountRevert, AccountRow(ToText(n), a)) == Lookup(t.accountRevert, AccountRow(ToText(n), a))
    {
      if ToText(n) == ToText(k) { TextIsInjective(n, k); }
      LoggedAccountLookup(t.accountRevert, ToText(k), AccountLog(b), AccountRow(ToText(n), a));
    }
  }

  lemma SlotAfterInsert(t: Tables, block: Block, b: Bundle, k: nat, s: Slot)
    requires ValidBundle(t, b) && WipeFree(b) && InsertBlock(t, block, b).Ok? && block.header.number == k
    ensures var u, old_ := InsertBlock(t, block, b).value, ReadSlot(t.storage, s);
      var row := Lookup(u.storageRevert, SlotRow(ToText(k), s));
      if ListedSlot(b, s).Some? then row.Some? && OldValue(row.value) == old_
      else row == Lookup(t.storageRevert, SlotRow(ToText(k), s)) && ReadSlot(u.storage, s) == old_
    ensures forall n: nat :: n != k ==>
      Lookup(InsertBlock(t, block, b).value.storageRevert, SlotRow(ToText(n), s)) == Lookup(t.storageRevert, SlotRow(ToText(n), s))
  {
    var u := InsertBlock(t, block, b).value;
    NoWipeLogged(b, s.address);
    AppliedSlotLookup(t.storage, b.storage, s);
    assert ReadSlot(u.storage, s) == Read(PostSlot(t, b, s));
    LoggedSlotLookup(t.storageRevert, ToText(k), StorageLog(b), u.storage, SlotRow(ToText(k), s));
    forall n: nat | n != k
      ensures Lookup(u.storageRevert, SlotRow(ToText(n), s)) == Lookup(t.storageRevert, SlotRow(ToText(n), s))
    {
      if ToText(n) == ToText(k) { TextIsInjective(n, k); }
      LoggedSlotLookup(t.storageRevert, ToText(k), StorageLog(b), u.storage, SlotRow(ToText(n), s));
    }
  }

  /** What reverting blocks k, ..., k + m - 1 from `w` leaves of an account and of a slot. */
  function AccountAfterReverts(w: Tables, k: nat, m: nat, a: Address): Option<Account> {
    var lowest := LowestAccount(w.accountRevert, k, m, a);
    if lowest.Some? then lowest.value else Lookup(w.account, a)
  }

  function SlotAfterReverts(w: Tables, k: nat, m: nat, s: Slot): U256 {
    var lowest := LowestSlot(w.storageRevert, k, m, s);
    if lowest.Some? then OldValue(lowest.value) else ReadSlot(w.storage, s)
  }

  lemma {:induction false} AccountCycle(t: Tables, k: nat, chain: BlockChain, a: Address)
    requires FittingChain(t, k, chain)
    ensures InsertChain(t, chain).Ok?
    ensures AccountAfterReverts(InsertChain(t, chain).value, k, |chain|, a) == Lookup(t.account, a) <==>
      AccountLeftoverAgrees(t.accountRevert, Lookup(t.account, a), k, chain, a)
    decreases |chain|
  {
    if chain == [] {
    } else {
      var u, old_ := InsertBlock(t, chain[0].0, chain[0].1).value, Lookup(t.account, a);
      var rest := chain[1..];
      AccountAfterInsert(t, chain[0].0, chain[0].1, k, a);
      AccountCycle(u, k + 1, rest, a);
      EarlierAccountStays(u, k + 1, rest, k, a);
      var w := InsertChain(u, rest).value;
      assert InsertChain(t, chain) == Ok(w) && |chain| == |rest| + 1;
      LowestAccountFirst(w.accountRevert, k, |rest|, a);
      SameAccountLeftover(t.accountRevert, u.accountRevert, old_, k + 1, rest, a);
    }
  }

  lemma {:induction false} SlotCycle(t: Tables, k: nat, chain: BlockChain, s: Slot)
    requires FittingChain(t, k, chain)
    ensures InsertChain(t, chain).Ok?
    ensures SlotAfterReverts(InsertChain(t, chain).value, k, |chain|, s) == ReadSlot(t.storage, s) <==>
      SlotLeftoverAgrees(t.storageRevert, ReadSlot(t.storage, s), k, chain, s)
    decreases |chain|
  {
    if chain == [] {
    } else {
      var u, old_ := InsertBlock(t, chain[0].0, chain[0].1).value, ReadSlot(t.storage, s);
      var rest := chain[1..];
      SlotAfterInsert(t, chain[0].0, chain[0].1, k, s);
      SlotCycle(u, k + 1, rest, s);
      EarlierSlotStays(u, k + 1, rest, k, s);
      var w := InsertChain(u, rest).value;
      assert InsertChain(t, chain) == Ok(w) && |chain| == |rest| + 1;
      LowestSlotFirst(w.storageRevert, k, |rest|, s);
      SameSlotLeftover(t.storageRevert, u.storageRevert, old_, k + 1, rest, s);
    }
  }

  /** What the cycle leaves of the accounts and of the slots. */
  lemma CycleReads(t: Tables, k: nat, chain: BlockChain)
    requires t.block.Keys == NumberTexts(k) && RevertibleChain(t, k, chain)
    ensures InsertChain(t, chain).Ok?
    ensures var v := RestoredChain(InsertChain(t, chain).value, k, |chain|);
      && (forall a :: Lookup(v.account, a) == Lookup(t.account, a) <==>
            AccountLeftoverAgrees(t.accountRevert, Lookup(t.account, a), k, chain, a))
      && (forall s :: ReadSlot(v.storage, s) == ReadSlot(t.storage, s) <==>
            SlotLeftoverAgrees(t.storageRevert, ReadSlot(t.storage, s), k, chain, s))
  {
    ChainBlocks(t, k, chain);
    var w, m := InsertChain(t, chain).value, |chain|;
    var v := RestoredChain(w, k, m);
    forall a ensures Lookup(v.account, a) == Lookup(t.account, a) <==>
      AccountLeftoverAgrees(t.accountRevert, Lookup(t.account, a), k, chain, a)
    {
      AccountCycle(t, k, chain, a);
      RestoredChainAccount(w, k, m, a);
    }
    forall s ensures ReadSlot(v.storage, s) == ReadSlot(t.storage, s) <==>
      SlotLeftoverAgrees(t.storageRevert, ReadSlot(t.storage, s), k, chain, s)
    {
      SlotCycle(t, k, chain, s);
      RestoredChainSlot(w, k, m, s);
    }
  }

  /**
   A wipe-free chain of blocks on top of 0..k-1, over whatever rows are left: committing and
   reverting it succeeds, and restores blocks, accounts and storage reads if and only if for
   each account and slot the first leftover row the chain meets before it logs the account or
   slot itself agrees with the state at the start.
   */
  lemma CycleExactly(t: Tables, k: nat, chain: BlockChain)
    requires t.block.Keys == NumberTexts(k) && RevertibleChain(t, k, chain)
    ensures Cycle(t, k, chain).Ok?
    ensures SameView(Cycle(t, k, chain).value, t) <==> LeftoversAgreeFirst(t, k, chain)
  {
    ChainBlocks(t, k, chain);
    var w := InsertChain(t, chain).value;
    ChainReverts(w, k, |chain|);
    CycleBlocks(t, k, chain);
    CycleReads(t, k, chain);
    SameLookupsExactly(RestoredChain(w, k, |chain|).account, t.account);
  }

  lemma SameLookupsExactly(v: map<Address, Account>, t: map<Address, Account>)
    ensures v == t <==> forall a :: Lookup(v, a) == Lookup(t, a)
  {
    if forall a :: Lookup(v, a) == Lookup(t, a) { SameLookups(v, t); }
  }

  lemma CycleBlocks(t: Tables, k: nat, chain: BlockChain)
    requires t.block.Keys == NumberTexts(k) && RevertibleChain(t, k, chain) && InsertChain(t, chain).Ok?
    ensures RestoredChain(InsertChain(t, chain).value, k, |chain|).block == t.block
  {
    ChainBlocks(t, k, chain);
    var w := InsertChain(t, chain).value;
    ChainReverts(w, k, |chain|);
    RestoredBlocksSame(w, k, |chain|, t.block);
  }

  lemma RestoredBlocksSame(w: Tables, k: nat, m: nat, blocks: map<string, Block>)
    requires RestoredChain(w, k, m).block.Keys == blocks.Keys
    requires forall n :: n in blocks ==> n in w.block && w.block[n] == blocks[n]
    ensures RestoredChain(w, k, m).block == blocks
  {
    var v := RestoredChain(w, k, m);
    forall n | n in blocks ensures v.block[n] == blocks[n] {
      assert n in v.block;
      RestoredChainBlocks(w, k, m, n);
    }
  }

  // ----- events

  /** The chain of blocks that committing the events inserts. */
  ghost function BlocksOf<S>(node: Node<S>, t: Tables, events: seq<Event>): BlockChain
    decreases |events|
  {
    if events == [] || CommitEvent(node, t, events[0]).Err? then []
    else
      (if IsSubmission(events[0])
       then match ExecuteBlock(node, t, SubmissionOf(events[0].tx, events[0].event.blockDataHash))
            case Ok((block, b)) => [(block, b)]
            case Err(_) => []
       else [])
      + BlocksOf(node, CommitEvent(node, t, events[0]).value, events[1..])
  }

  predicate DepositFree(events: seq<Event>) {
    forall i :: 0 <= i < |events| ==> !IsDeposit(events[i])
  }

  ghost predicate WipeFreeChain(chain: BlockChain) {
    forall inserted :: inserted in chain ==> WipeFree(inserted.1)
  }

  /** Events committed without an error, in which every submission executes, wiping nothing, and nothing is deposited. */
  ghost predicate CleanCommit<S>(node: Node<S>, t: Tables, events: seq<Event>) {
    && CommitAll(node, t, events).error.None? && AllExecute(node, t, events)
    && DepositFree(events) && WipeFreeChain(BlocksOf(node, t, events))
  }

  lemma CleanTail<S>(node: Node<S>, t: Tables, events: seq<Event>)
    requires events != [] && CleanCommit(node, t, events)
    ensures CommitEvent(node, t, events[0]).Ok? && CleanCommit(node, CommitEvent(node, t, events[0]).value, events[1..])
  {
    assert !IsDeposit(events[0]);
  }

  /** An event that submits no block inserts none and changes nothing. */
  lemma CleanOther<S>(node: Node<S>, t: Tables, events: seq<Event>)
    requires events != [] && CleanCommit(node, t, events) && !IsSubmission(events[0])
    ensures CommitEvent(node, t, events[0]) == Ok(t)
    ensures BlocksOf(node, t, events) == BlocksOf(node, t, events[1..])
  {
    assert !IsDeposit(events[0]);
  }

  /** The first block of a clean commit. */
  lemma CleanHead<S>(node: Node<S>, t: Tables, events: seq<Event>)
    requires events != [] && CleanCommit(node, t, events) && IsSubmission(events[0])
    ensures var executed := ExecuteBlock(node, t, SubmissionOf(events[0].tx, events[0].event.blockDataHash));
      && executed.Ok? && InsertBlock(t, executed.value.0, executed.value.1) == Ok(CommitEvent(node, t, events[0]).value)
      && BlocksOf(node, t, events) == [executed.value] + BlocksOf(node, CommitEvent(node, t, events[0]).value, events[1..])
      && executed.value.0.header.number == events[0].tx.call.value.header.sequence
  {
    ExecutedNumber(node, t, SubmissionOf(events[0].tx, events[0].event.blockDataHash));
  }

  lemma InsertChainStep(t: Tables, first: (Block, Bundle), rest: BlockChain)
    requires InsertBlock(t, first.0, first.1).Ok?
    ensures InsertChain(t, [first] + rest) == InsertChain(InsertBlock(t, first.0, first.1).value, rest)
  {
    assert ([first] + rest)[1..] == rest;
  }

  lemma {:induction false} CommitInsertsBlocks<S>(node: Node<S>, t: Tables, events: seq<Event>)
    requires CleanCommit(node, t, events)
    ensures InsertChain(t, BlocksOf(node, t, events)) == Ok(CommitAll(node, t, events).tables)
    decreases |events|
  {
    if events == [] {
    } else {
      var u, rest := CommitEvent(node, t, events[0]).value, events[1..];
      CleanTail(node, t, events);
      CommitInsertsBlocks(node, u, rest);
      if IsSubmission(events[0]) {
        CleanHead(node, t, events);
        InsertChainStep(t, BlocksOf(node, t, events)[0], BlocksOf(node, u, rest));
      } else {
        CleanOther(node, t, events);
      }
    }
  }

  /** The blocks of a clean commit on blocks 0..k-1 fit there, and their numbers are the submitted ones. */
  lemma {:induction false} CleanBlocksFit<S(!new)>(node: Node<S>, t: Tables, k: nat, events: seq<Event>)
    requires SoundNode(node) && PrefixChain(node.blockHash, t, k) && CleanCommit(node, t, events)
    ensures FittingChain(t, k, BlocksOf(node, t, events))
    decreases |events|
  {
    if events == [] {
    } else {
      var e, u, rest := events[0], CommitEvent(node, t, events[0]).value, events[1..];
      CleanTail(node, t, events);
      if IsSubmission(e) {
        CleanHead(node, t, events);
        InsertExtends(node, t, k, SubmissionOf(e.tx, e.event.blockDataHash));
        CleanBlocksFit(node, u, k + 1, rest);
        assert BlocksOf(node, t, events)[1..] == BlocksOf(node, u, rest);
      } else {
        CleanOther(node, t, events);
        CleanBlocksFit(node, t, k, rest);
      }
    }
  }

  lemma {:induction false} FittingIsBounded(t: Tables, k: nat, chain: BlockChain)
    requires FittingChain(t, k, chain) && chain != []
    ensures k + |chain| <= TWO_64
    decreases |chain|
  {
    if |chain| == 1 {
    } else {
      FittingIsBounded(InsertBlock(t, chain[0].0, chain[0].1).value, k + 1, chain[1..]);
    }
  }

  /** The numbers of the blocks are those submitted, so they end decades if those do. */
  lemma {:induction false} NumbersEndDecades<S(!new)>(node: Node<S>, t: Tables, k: nat, events: seq<Event>)
    requires SoundNode(node) && PrefixChain(node.blockHash, t, k) && CleanCommit(node, t, events)
    requires AllAtDecadeEnds(events)
    ensures EndDecades(k, |BlocksOf(node, t, events)|)
    decreases |events|
  {
    if events == [] {
    } else {
      var e, u, rest := events[0], CommitEvent(node, t, events[0]).value, events[1..];
      CleanTail(node, t, events);
      DecadeEndsSplit(events);
      if IsSubmission(e) {
        CleanHead(node, t, events);
        InsertExtends(node, t, k, SubmissionOf(e.tx, e.event.blockDataHash));
        NumbersEndDecades(node, u, k + 1, rest);
        FirstEndsDecade(k, |BlocksOf(node, u, rest)|);
      } else {
        CleanOther(node, t, events);
        NumbersEndDecades(node, t, k, rest);
      }
    }
  }

  lemma FirstEndsDecade(k: nat, m: nat)
    requires EndsDecade(k) && EndDecades(k + 1, m)
    ensures EndDecades(k, m + 1)
  {
  }

  /** Reverting downwards ends with the lowest number. */
  lemma {:induction false} RevertDownLast(
    revert: (Tables, nat) -> Result<Tables, DbError>, w: Tables, k: nat, m: nat)
    ensures RevertDown(revert, w, k, m + 1) ==
      match RevertDown(revert, w, k + 1, m)
      case Err(e) => Err(e)
      case Ok(v) => revert(v, k)
    decreases m
  {
    if m == 0 {
    } else {
      assert k + (m + 1) - 1 == (k + 1) + m - 1;
      match revert(w, k + m) {
        case Err(_) =>
        case Ok(v) => RevertDownLast(revert, v, k, m - 1);
      }
    }
  }

  /** If the blocks k + m - 1 down to k can be reverted, that is what reverting the events, newest first, does. */
  ghost predicate RevertsAsBlocks(w: Tables, k: nat, m: nat, events: seq<Event>) {
    RevertChain(w, k, m).Ok? ==> RevertAll(w, Reverse(events)) == Progress(RevertChain(w, k, m).value, None)
  }

  lemma SubmissionReverts(w: Tables, k: nat, m: nat, events: seq<Event>)
    requires events != [] && IsSubmission(events[0]) && events[0].tx.call.value.header.sequence == k
    requires RevertsAsBlocks(w, k + 1, m, events[1..])
    ensures RevertsAsBlocks(w, k, m + 1, events)
  {
    RevertDownLast(RevertNumber(), w, k, m);
    RevertAllAppend(w, Reverse(events[1..]), events[0]);
    if RevertChain(w, k + 1, m).Ok? {
      var v := RevertChain(w, k + 1, m).value;
      assert RevertNumber()(v, k) == RevertTip(v, k);
      assert RevertEvent(v, events[0]) == LiftDb(RevertTip(v, k));
    }
  }

  lemma OtherRevert<S>(node: Node<S>, t: Tables, e: Event, v: Tables)
    requires !IsSubmission(e) && !IsDeposit(e) && CommitEvent(node, t, e).Ok?
    ensures RevertEvent(v, e) == Ok(v)
  {
  }

  lemma OtherReverts<S>(node: Node<S>, t: Tables, w: Tables, k: nat, m: nat, events: seq<Event>)
    requires events != [] && RevertsAsBlocks(w, k, m, events[1..])
    requires !IsSubmission(events[0]) && !IsDeposit(events[0]) && CommitEvent(node, t, events[0]).Ok?
    ensures RevertsAsBlocks(w, k, m, events)
  {
    RevertAllAppend(w, Reverse(events[1..]), events[0]);
    if RevertChain(w, k, m).Ok? {
      OtherRevert(node, t, events[0], RevertChain(w, k, m).value);
    }
  }

  /** A submitted block that executes on blocks 0..k-1 is number k. */
  lemma CleanNumber<S(!new)>(node: Node<S>, t: Tables, k: nat, events: seq<Event>)
    requires SoundNode(node) && PrefixChain(node.blockHash, t, k)
    requires events != [] && CleanCommit(node, t, events) && IsSubmission(events[0])
    ensures events[0].tx.call.value.header.sequence == k
    ensures PrefixChain(node.blockHash, CommitEvent(node, t, events[0]).value, k + 1)
    ensures |BlocksOf(node, t, events)| == |BlocksOf(node, CommitEvent(node, t, events[0]).value, events[1..])| + 1
  {
    CleanHead(node, t, events);
    InsertExtends(node, t, k, SubmissionOf(events[0].tx, events[0].event.blockDataHash));
  }

  /** Reverting the events newest first reverts their blocks downwards. */
  lemma {:induction false} RevertRevertsBlocks<S(!new)>(node: Node<S>, t: Tables, k: nat, events: seq<Event>, w: Tables)
    requires SoundNode(node) && PrefixChain(node.blockHash, t, k) && CleanCommit(node, t, events)
    ensures RevertsAsBlocks(w, k, |BlocksOf(node, t, events)|, events)
    decreases |events|
  {
    if events == [] {
    } else {
      var u, rest := CommitEvent(node, t, events[0]).value, events[1..];
      CleanTail(node, t, events);
      if IsSubmission(events[0]) {
        CleanNumber(node, t, k, events);
        RevertRevertsBlocks(node, u, k + 1, rest, w);
        SubmissionReverts(w, k, |BlocksOf(node, u, rest)|, events);
      } else {
        CleanOther(node, t, events);
        RevertRevertsBlocks(node, t, k, rest, w);
        assert !IsDeposit(events[0]);
        OtherReverts(node, t, w, k, |BlocksOf(node, t, rest)|, events);
      }
    }
  }

  lemma PrefixIsBounded(blockHash: Header -> U256, t: Tables, k: nat)
    requires PrefixChain(blockHash, t, k)
    ensures k <= TWO_64
  {
    if k > 0 { assert Linked(blockHash, t.block, k - 1); }
  }

  /** A clean commit on blocks 0..k-1 and its revert are one cycle of blocks. */
  lemma UndoneIsCycle<S(!new)>(node: Node<S>, t: Tables, k: nat, events: seq<Event>)
    requires SoundNode(node) && PrefixChain(node.blockHash, t, k)
    requires CleanCommit(node, t, events) && AllAtDecadeEnds(events)
    ensures RevertibleChain(t, k, BlocksOf(node, t, events))
    ensures Cycle(t, k, BlocksOf(node, t, events)).Ok? ==>
      Undone(node, t, events) == Progress(Cycle(t, k, BlocksOf(node, t, events)).value, None)
  {
    var chain := BlocksOf(node, t, events);
    CleanBlocksFit(node, t, k, events);
    NumbersEndDecades(node, t, k, events);
    PrefixIsBounded(node.blockHash, t, k);
    if chain != [] { FittingIsBounded(t, k, chain); }
    CommitInsertsBlocks(node, t, events);
    RevertRevertsBlocks(node, t, k, events, CommitAll(node, t, events).tables);
  }

  /**
   One chain of submissions over stale rows, exactly: on blocks 0..k-1 and with numbers that
   end decades, a chain without deposits whose blocks all executed and wiped nothing is reverted
   without an error, and blocks, accounts and storage reads are as before it if and only if the
   leftover rows its blocks meet first agree with the state before it.
   */
  lemma EventCycleExactly<S(!new)>(node: Node<S>, t: Tables, k: nat, events: seq<Event>)
    requires SoundNode(node) && PrefixChain(node.blockHash, t, k)
    requires CleanCommit(node, t, events) && AllAtDecadeEnds(events)
    ensures Undone(node, t, events).error.None?
    ensures SameView(Undone(node, t, events).tables, t) <==> LeftoversAgreeFirst(t, k, BlocksOf(node, t, events))
  {
    UndoneIsCycle(node, t, k, events);
    CycleExactly(t, k, BlocksOf(node, t, events));
  }

  // ----- many chains, one after the other

  /** A notification that commits an L1 chain, then one that reverts it. */
  ghost function Reorged<S>(node: Node<S>, decode: Log -> Option<ContractEvent>, t: Tables, chain: L1Chain): Progress {
    Notify(node, decode, Notify(node, decode, t, Notification(None, Some(chain))).tables, Notification(Some(chain), None))
  }

  /** Each chain is committed cleanly, with numbers that end decades, on what reverting the one before left. */
  ghost predicate CleanCycles<S>(node: Node<S>, decode: Log -> Option<ContractEvent>, t: Tables, chains: seq<L1Chain>)
    decreases |chains|
  {
    chains == [] ||
    (&& CleanCommit(node, t, RollupEvents(chains[0], decode)) && AllAtDecadeEnds(RollupEvents(chains[0], decode))
     && CleanCycles(node, decode, Reorged(node, decode, t, chains[0]).tables, chains[1..]))
  }

  /** Commit and revert one chain after the other, as long as no revert fails. */
  ghost function ReorgedAll<S>(node: Node<S>, decode: Log -> Option<ContractEvent>, t: Tables, chains: seq<L1Chain>): Progress
    decreases |chains|
  {
    if chains == [] then Progress(t, None)
    else
      var reorged := Reorged(node, decode, t, chains[0]);
      if reorged.error.Some? then reorged else ReorgedAll(node, decode, reorged.tables, chains[1..])
  }

  lemma PrefixFollowsView(blockHash: Header -> U256, v: Tables, t: Tables, k: nat)
    requires PrefixChain(blockHash, t, k) && v.block == t.block
    ensures PrefixChain(blockHash, v, k)
  {
    forall i: nat | i < k ensures Linked(blockHash, v.block, i) {
      assert Linked(blockHash, t.block, i);
    }
  }

  /**
   Any number of L1 chains without deposits, each committed by a notification and reverted by
   the next on blocks 0..k-1, with whatever blocks it likes: every revert succeeds, and blocks,
   accounts and storage reads end as they were before the first.
   */
  lemma {:induction false} EventCycles<S(!new)>(
    node: Node<S>, decode: Log -> Option<ContractEvent>, t: Tables, k: nat, chains: seq<L1Chain>)
    requires SoundNode(node) && PrefixChain(node.blockHash, t, k) && LowestInStep(t, k)
    requires CleanCycles(node, decode, t, chains)
    ensures var end := ReorgedAll(node, decode, t, chains);
      end.error.None? && SameView(end.tables, t)
    decreases |chains|
  {
    if chains == [] {
    } else {
      var blocks := BlocksOf(node, t, RollupEvents(chains[0], decode));
      UndoneIsCycle(node, t, k, RollupEvents(chains[0], decode));
      CycleRestores(t, k, blocks);
      var v := Reorged(node, decode, t, chains[0]).tables;
      assert Ok(v) == Cycle(t, k, blocks);
      PrefixFollowsView(node.blockHash, v, t, k);
      EventCycles(node, decode, v, k, chains[1..]);
    }
  }
}
