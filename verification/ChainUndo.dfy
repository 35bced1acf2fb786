/** Reverting a whole committed chain: exactly when it retraces every step back. */
module ChainUndo {
  import opened Prelude
  import opened DecimalText
  import opened TextTip
  import opened Tables
  import opened Execution
  import opened ChainEvents
  import opened Rollup
  import opened Undo

  /** The same account, or an empty one where there was none: a deposit taken back leaves it. */
  predicate AccountMatches(v: Option<Account>, t: Option<Account>) {
    v == t || (t.None? && v == Some(EMPTY_ACCOUNT))
  }

  /**
   `v` is as good as `t`: same blocks, accounts up to an empty one in place of none, same
   storage reads, and the same log rows for every stored block.
   */
  ghost predicate Matches(v: Tables, t: Tables) {
    && v.block == t.block
    && (forall a :: AccountMatches(Lookup(v.account, a), Lookup(t.account, a)))
    && (forall s :: ReadSlot(v.storage, s) == ReadSlot(t.storage, s))
    && (forall row: AccountRow :: row.number in t.block ==> Lookup(v.accountRevert, row) == Lookup(t.accountRevert, row))
    && (forall row: SlotRow :: row.number in t.block ==> Lookup(v.storageRevert, row) == Lookup(t.storageRevert, row))
  }

  /** What is assumed of the EVM: a block's bundle logs the state it was executed on. */
  ghost predicate SoundNode<S(!new)>(node: Node<S>) {
    forall t: Tables, s: Submission ::
      ExecuteBlock(node, t, s).Ok? ==> ValidBundle(t, ExecuteBlock(node, t, s).value.1)
  }

  /** Block rows are keyed by the decimal text of a number. */
  ghost predicate NumberKeyed(t: Tables) {
    forall k :: k in t.block ==> exists n: nat :: k == ToText(n)
  }

  /** As `UndoLogAgrees`, up to an empty account in place of none. */
  ghost predicate UndoLogMatches(t: Tables, b: Bundle, number: string) {
    && (forall a :: Find(AccountLog(b), a).None? && AccountRow(number, a) in t.accountRevert ==>
          AccountMatches(t.accountRevert[AccountRow(number, a)], Lookup(t.account, a)))
    && (forall s :: SlotLogAgrees(t, b, number, s))
  }

  /**
   An event can be undone from the state it was committed on. A submitted block must have
   executed, its number must be the one the tip query answers, and the rows logged under
   that number must agree with the state before it; anything else can always be undone.
   */
  ghost predicate Undoable<S>(node: Node<S>, t: Tables, e: Event) {
    IsSubmission(e) ==>
      var executed := ExecuteBlock(node, t, SubmissionOf(e.tx, e.event.blockDataHash));
      && executed.Ok?
      && InsertBlock(t, executed.value.0, executed.value.1).Ok?
      && AcceptsTip(InsertBlock(t, executed.value.0, executed.value.1).value, executed.value.0.header.number)
      && UndoLogMatches(t, executed.value.1, ToText(executed.value.0.header.number))
  }

  ghost predicate AllUndoable<S>(node: Node<S>, t: Tables, events: seq<Event>)
    requires CommitAll(node, t, events).error.None?
    decreases |events|
  {
    events == [] ||
    (Undoable(node, t, events[0]) && AllUndoable(node, CommitEvent(node, t, events[0]).value, events[1..]))
  }

  /** Commit the events, then revert them newest first. */
  ghost function Undone<S>(node: Node<S>, t: Tables, events: seq<Event>): Progress {
    RevertAll(CommitAll(node, t, events).tables, Reverse(events))
  }

  /** Reverting succeeds, and after undoing each event the state is as good as before it. */
  ghost predicate Retraces<S>(node: Node<S>, t: Tables, events: seq<Event>)
    requires CommitAll(node, t, events).error.None?
    decreases |events|
  {
    events == [] ||
    (&& Retraces(node, CommitEvent(node, t, events[0]).value, events[1..])
     && Undone(node, t, events).error.None?
     && Matches(Undone(node, t, events).tables, t))
  }

  lemma {:induction false} RevertAllAppend(t: Tables, a: seq<Event>, e: Event)
    ensures var p := RevertAll(t, a);
      RevertAll(t, a + [e]) ==
        if p.error.Some? then p
        else match RevertEvent(p.tables, e)
             case Err(x) => Progress(p.tables, Some(x))
             case Ok(v) => Progress(v, None)
    decreases |a|
  {
    if a == [] {
      assert a + [e] == [e] && [e][1..] == [];
    } else {
      assert (a + [e])[1..] == a[1..] + [e];
      match RevertEvent(t, a[0]) {
        case Err(_) =>
        case Ok(t') => RevertAllAppend(t', a[1..], e);
      }
    }
  }

  /** Undoing the events after the first, then the first. */
  lemma UndoneStep<S>(node: Node<S>, t: Tables, events: seq<Event>)
    requires events != [] && CommitAll(node, t, events).error.None?
    ensures var later := Undone(node, CommitEvent(node, t, events[0]).value, events[1..]);
      Undone(node, t, events) ==
        if later.error.Some? then later
        else match RevertEvent(later.tables, events[0])
             case Err(x) => Progress(later.tables, Some(x))
             case Ok(v) => Progress(v, None)
  {
    RevertAllAppend(CommitAll(node, t, events).tables, Reverse(events[1..]), events[0]);
  }

  /** Undoing a deposit gives the balance back exactly, modulo 2^256. */
  lemma DepositUndone(t: Tables, v: Tables, a: Address, amount: U256)
    requires Matches(v, AddDeposit(t, a, amount))
    ensures TakeDeposit(v, a, amount).Ok? && Matches(TakeDeposit(v, a, amount).value, t)
  {
    var u := AddDeposit(t, a, amount);
    assert AccountMatches(Lookup(v.account, a), Lookup(u.account, a));
    SubUndoesAdd((if a in t.account then t.account[a] else EMPTY_ACCOUNT).balance, amount);
    var w := TakeDeposit(v, a, amount).value;
    forall x ensures AccountMatches(Lookup(w.account, x), Lookup(t.account, x)) {
      assert AccountMatches(Lookup(v.account, x), Lookup(u.account, x));
    }
  }

  /** Undoing a block from a state as good as the one its insert left. */
  lemma BlockUndone(t: Tables, block: Block, b: Bundle, v: Tables)
    requires ValidBundle(t, b) && InsertBlock(t, block, b).Ok?
    requires Matches(v, InsertBlock(t, block, b).value)
    ensures var number := ToText(block.header.number);
      Matches(Restored(v, number), t) <==> UndoLogMatches(t, b, number)
  {
    var u, number := InsertBlock(t, block, b).value, ToText(block.header.number);
    var w := Restored(v, number);
    InsertedLogs(t, block, b);
    RestoredLookups(v, number);
    assert number in u.block && w.block == t.block;
    forall a ensures AccountMatches(Lookup(w.account, a), Lookup(t.account, a)) <==>
      (Find(AccountLog(b), a).None? && AccountRow(number, a) in t.accountRevert ==>
        AccountMatches(t.accountRevert[AccountRow(number, a)], Lookup(t.account, a)))
    {
      AccountUndone(t, block, b, v, a);
    }
    forall s ensures ReadSlot(w.storage, s) == ReadSlot(t.storage, s) <==> SlotLogAgrees(t, b, number, s) {
      SlotUndone(t, block, b, v, s);
      assert Lookup(w.storage, s) == RestoredSlot(v, number, s);
    }
    forall row: AccountRow | row.number in t.block ensures Lookup(w.accountRevert, row) == Lookup(t.accountRevert, row) {
      assert row.number in u.block;
    }
    forall row: SlotRow | row.number in t.block ensures Lookup(w.storageRevert, row) == Lookup(t.storageRevert, row) {
      assert row.number in u.block;
    }
  }

  lemma AccountUndone(t: Tables, block: Block, b: Bundle, v: Tables, a: Address)
    requires ValidBundle(t, b) && InsertBlock(t, block, b).Ok?
    requires Matches(v, InsertBlock(t, block, b).value)
    ensures var number := ToText(block.header.number);
      AccountMatches(Lookup(Restored(v, number).account, a), Lookup(t.account, a)) <==>
      (Find(AccountLog(b), a).None? && AccountRow(number, a) in t.accountRevert ==>
        AccountMatches(t.accountRevert[AccountRow(number, a)], Lookup(t.account, a)))
  {
    var u, number := InsertBlock(t, block, b).value, ToText(block.header.number);
    InsertedLookups(t, block, b);
    InsertedLogs(t, block, b);
    RestoredLookups(v, number);
    assert Lookup(Restored(v, number).account, a) == RestoredAccount(v, number, a);
    assert Lookup(v.accountRevert, AccountRow(number, a)) == LoggedAccount(t, b, number, a);
    assert Lookup(u.account, a) == (match Find(b.accounts, a) case Some(x) => x case None => Lookup(t.account, a));
    assert AccountMatches(Lookup(v.account, a), Lookup(u.account, a));
  }

  lemma SlotUndone(t: Tables, block: Block, b: Bundle, v: Tables, s: Slot)
    requires ValidBundle(t, b) && InsertBlock(t, block, b).Ok?
    requires Matches(v, InsertBlock(t, block, b).value)
    ensures var number := ToText(block.header.number);
      Read(RestoredSlot(v, number, s)) == ReadSlot(t.storage, s) <==> SlotLogAgrees(t, b, number, s)
  {
    var u, number := InsertBlock(t, block, b).value, ToText(block.header.number);
    InsertedLookups(t, block, b);
    InsertedLogs(t, block, b);
    assert Lookup(v.storageRevert, SlotRow(number, s)) == LoggedSlot(t, b, number, s);
    assert Read(Lookup(v.storage, s)) == ReadSlot(v.storage, s) && Read(Lookup(u.storage, s)) == ReadSlot(u.storage, s);
    assert Lookup(u.storage, s) == PostSlot(t, b, s);
  }

  /** Any successful revert of a number takes a block away. */
  lemma RevertTakesABlock(v: Tables, n: U256)
    requires NumberKeyed(v) && RevertTip(v, n).Ok?
    ensures RevertTip(v, n).value.block != v.block
  {
    TextMaxExists(v.block.Keys);
    var s :| IsTextMax(v.block.Keys, s);
    StoredTipIs(v, s);
    var m: nat :| s == ToText(m);
    ValueOfText(m);
    assert ToText(n) in v.block;
  }

  /** The header an executed block carries is numbered as it was submitted. */
  lemma ExecutedNumber<S>(node: Node<S>, t: Tables, s: Submission)
    requires ExecuteBlock(node, t, s).Ok?
    ensures ExecuteBlock(node, t, s).value.0.header.number == s.header.sequence
  {
  }

  lemma CommitKeepsNumberKeyed<S>(node: Node<S>, t: Tables, e: Event)
    requires NumberKeyed(t) && CommitEvent(node, t, e).Ok?
    ensures NumberKeyed(CommitEvent(node, t, e).value)
  {
  }

  /** A submitted block that executed, undone from a state as good as the one its insert left. */
  lemma ExecutedBlockUndone<S(!new)>(node: Node<S>, t: Tables, s: Submission, v: Tables)
    requires SoundNode(node) && ExecuteBlock(node, t, s).Ok?
    requires InsertBlock(t, ExecuteBlock(node, t, s).value.0, ExecuteBlock(node, t, s).value.1).Ok?
    requires Matches(v, InsertBlock(t, ExecuteBlock(node, t, s).value.0, ExecuteBlock(node, t, s).value.1).value)
    ensures var (block, b) := ExecuteBlock(node, t, s).value;
      && block.header.number == s.header.sequence
      && ((RevertTip(v, s.header.sequence).Ok? && Matches(RevertTip(v, s.header.sequence).value, t)) <==>
          (AcceptsTip(InsertBlock(t, block, b).value, block.header.number) && UndoLogMatches(t, b, ToText(block.header.number))))
  {
    var (block, b) := ExecuteBlock(node, t, s).value;
    ExecutedNumber(node, t, s);
    BlockUndone(t, block, b, v);
  }

  /** Undoing one event from a state as good as the one its commit left. */
  lemma EventUndone<S(!new)>(node: Node<S>, t: Tables, e: Event, v: Tables)
    requires SoundNode(node) && NumberKeyed(t) && CommitEvent(node, t, e).Ok?
    requires Matches(v, CommitEvent(node, t, e).value)
    ensures (RevertEvent(v, e).Ok? && Matches(RevertEvent(v, e).value, t)) <==> Undoable(node, t, e)
  {
    if IsSubmission(e) {
      SubmissionUndone(node, t, e, v);
    } else if IsDeposit(e) {
      DepositUndone(t, v, e.event.recipient, e.event.amount);
    } else {
      OtherEventUndone(node, t, e, v);
    }
  }

  lemma SubmissionUndone<S(!new)>(node: Node<S>, t: Tables, e: Event, v: Tables)
    requires SoundNode(node) && NumberKeyed(t) && CommitEvent(node, t, e).Ok? && IsSubmission(e)
    requires Matches(v, CommitEvent(node, t, e).value)
    ensures (RevertEvent(v, e).Ok? && Matches(RevertEvent(v, e).value, t)) <==> Undoable(node, t, e)
  {
    var s := SubmissionOf(e.tx, e.event.blockDataHash);
    if ExecuteBlock(node, t, s).Ok? {
      ExecutedBlockUndone(node, t, s, v);
    } else if RevertTip(v, s.header.sequence).Ok? {
      RevertTakesABlock(v, s.header.sequence);
    }
  }

  lemma OtherEventUndone<S>(node: Node<S>, t: Tables, e: Event, v: Tables)
    requires !IsSubmission(e) && !IsDeposit(e) && CommitEvent(node, t, e).Ok?
    requires Matches(v, CommitEvent(node, t, e).value)
    ensures RevertEvent(v, e) == Ok(v) && Matches(v, t)
  {
  }

  /**
   Whole-chain undo, exactly: after any chain has been committed without an error, reverting it
   retraces every step if and only if each event is undoable where it was committed.
   */
  lemma {:induction false} WholeChainUndo<S(!new)>(node: Node<S>, t: Tables, events: seq<Event>)
    requires SoundNode(node) && NumberKeyed(t) && CommitAll(node, t, events).error.None?
    ensures Retraces(node, t, events) <==> AllUndoable(node, t, events)
    decreases |events|
  {
    if events == [] {
    } else {
      var t1 := CommitEvent(node, t, events[0]).value;
      CommitKeepsNumberKeyed(node, t, events[0]);
      WholeChainUndo(node, t1, events[1..]);
      UndoneStep(node, t, events);
      if Retraces(node, t1, events[1..]) {
        RetracedMatches(node, t1, events[1..]);
        EventUndone(node, t, events[0], Undone(node, t1, events[1..]).tables);
      }
    }
  }

  lemma RetracedMatches<S>(node: Node<S>, t: Tables, events: seq<Event>)
    requires CommitAll(node, t, events).error.None? && Retraces(node, t, events)
    ensures Undone(node, t, events).error.None? && Matches(Undone(node, t, events).tables, t)
  {
  }

  /** In particular: commit and then revert restores the start, with no error on the way. */
  lemma CommitThenRevert<S(!new)>(node: Node<S>, t: Tables, events: seq<Event>)
    requires SoundNode(node) && NumberKeyed(t) && CommitAll(node, t, events).error.None?
    requires AllUndoable(node, t, events)
    ensures Undone(node, t, events).error.None? && Matches(Undone(node, t, events).tables, t)
  {
    WholeChainUndo(node, t, events);
    RetracedMatches(node, t, events);
  }

  // ----- notifications

  lemma {:induction false} CommitAllAppend<S>(node: Node<S>, t: Tables, a: seq<Event>, b: seq<Event>)
    ensures var p := CommitAll(node, t, a);
      CommitAll(node, t, a + b) == if p.error.Some? then p else CommitAll(node, p.tables, b)
    decreases |a|
  {
    if a == [] {
      assert a + b == b;
    } else {
      assert (a + b)[1..] == a[1..] + b;
      match CommitEvent(node, t, a[0]) {
        case Err(_) =>
        case Ok(t') => CommitAllAppend(node, t', a[1..], b);
      }
    }
  }

  lemma RollupEventsAppend(a: L1Chain, b: L1Chain, decode: Log -> Option<ContractEvent>)
    ensures RollupEvents(a + b, decode) == RollupEvents(a, decode) + RollupEvents(b, decode)
  {
    DecodeAppend(a, b, {ROLLUP_CONTRACT_ADDRESS}, decode);
  }

  /**
   A reorg: after the L1 chain `a + b` has been committed in one notification, a notification
   that reverts `b` leaves the state as good as if only `a` had been committed, provided the
   events of `b` are undoable.
   */
  lemma ReorgUndoesSuffix<S(!new)>(node: Node<S>, decode: Log -> Option<ContractEvent>, t: Tables, a: L1Chain, b: L1Chain)
    requires SoundNode(node)
    requires Notify(node, decode, t, Notification(None, Some(a + b))).error.None?
    requires NumberKeyed(CommitAll(node, t, RollupEvents(a, decode)).tables)
    requires var middle := CommitAll(node, t, RollupEvents(a, decode)).tables;
      CommitAll(node, middle, RollupEvents(b, decode)).error.None? ==> AllUndoable(node, middle, RollupEvents(b, decode))
    ensures var committed := Notify(node, decode, t, Notification(None, Some(a + b))).tables;
      var reverted := Notify(node, decode, committed, Notification(Some(b), None));
      && reverted.error.None?
      && Matches(reverted.tables, Notify(node, decode, t, Notification(None, Some(a))).tables)
  {
    RollupEventsAppend(a, b, decode);
    CommitAllAppend(node, t, RollupEvents(a, decode), RollupEvents(b, decode));
    var middle := CommitAll(node, t, RollupEvents(a, decode)).tables;
    CommitThenRevert(node, middle, RollupEvents(b, decode));
  }
}
