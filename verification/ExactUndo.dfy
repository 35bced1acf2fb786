/** Undoing whole chains on a chain of blocks 0..k-1, from conditions on the submitted blocks alone. */
module ExactUndo {
  import opened Prelude
  import opened DecimalText
  import opened TextTip
  import opened Tables
  import opened Execution
  import opened Rollup
  import opened Undo
  import opened ChainUndo
  import opened ChainInvariant

  /** Undo logs are kept for stored blocks only: no block has been reverted yet. */
  ghost predicate LogsOfStored(t: Tables) {
    && (forall row: AccountRow :: row in t.accountRevert ==> row.number in t.block)
    && (forall row: SlotRow :: row in t.storageRevert ==> row.number in t.block)
  }

  /** A submitted block executes, and every slot of an account it wipes survives being logged after the wipe. */
  ghost predicate ExecutesSafely<S>(node: Node<S>, t: Tables, e: Event) {
    IsSubmission(e) ==>
      var executed := ExecuteBlock(node, t, SubmissionOf(e.tx, e.event.blockDataHash));
      && executed.Ok?
      && forall s: Slot :: LogsWipe(executed.value.1, s.address) ==> WipedSlotSurvives(t, executed.value.1, s)
  }

  /** Every event is safe in the state it is committed on. */
  ghost predicate AllExecuteSafely<S>(node: Node<S>, t: Tables, events: seq<Event>)
    decreases |events|
  {
    events == [] ||
    (&& ExecutesSafely(node, t, events[0])
     && (CommitEvent(node, t, events[0]).Ok? ==>
           AllExecuteSafely(node, CommitEvent(node, t, events[0]).value, events[1..])))
  }

  /** The number a block is submitted under ends a decade. */
  ghost predicate SubmittedAtDecadeEnd(e: Event) {
    IsSubmission(e) ==> EndsDecade(e.tx.call.value.header.sequence)
  }

  ghost predicate AllAtDecadeEnds(events: seq<Event>) {
    forall i :: 0 <= i < |events| ==> SubmittedAtDecadeEnd(events[i])
  }

  lemma InsertKeepsLogsOfStored(t: Tables, block: Block, b: Bundle)
    requires LogsOfStored(t) && ValidBundle(t, b) && InsertBlock(t, block, b).Ok?
    ensures LogsOfStored(InsertBlock(t, block, b).value)
  {
    var u, number := InsertBlock(t, block, b).value, ToText(block.header.number);
    InsertedLogs(t, block, b);
    forall row: AccountRow | row in u.accountRevert ensures row.number in u.block {
      if row.number != number { assert Lookup(u.accountRevert, row) == Lookup(t.accountRevert, row); }
    }
    forall row: SlotRow | row in u.storageRevert ensures row.number in u.block {
      if row.number != number { assert Lookup(u.storageRevert, row) == Lookup(t.storageRevert, row); }
    }
  }

  /** Committing anything but a submission leaves blocks and logs alone. */
  lemma OtherCommitKeepsLogs<S>(node: Node<S>, t: Tables, e: Event)
    requires !IsSubmission(e) && CommitEvent(node, t, e).Ok?
    ensures var u := CommitEvent(node, t, e).value;
      u.block == t.block && u.accountRevert == t.accountRevert && u.storageRevert == t.storageRevert
  {
  }

  lemma CommitKeepsLogsOfStored<S(!new)>(node: Node<S>, t: Tables, e: Event)
    requires SoundNode(node) && LogsOfStored(t) && CommitEvent(node, t, e).Ok?
    ensures LogsOfStored(CommitEvent(node, t, e).value)
  {
    if IsSubmission(e) {
      var executed := ExecuteBlock(node, t, SubmissionOf(e.tx, e.event.blockDataHash));
      if executed.Ok? { InsertKeepsLogsOfStored(t, executed.value.0, executed.value.1); }
    } else {
      OtherCommitKeepsLogs(node, t, e);
    }
  }

  /** With logs of stored blocks only, the log of a new block matches exactly when the wiped slots survive. */
  lemma FreshLogMatches(t: Tables, block: Block, b: Bundle)
    requires LogsOfStored(t) && ValidBundle(t, b) && InsertBlock(t, block, b).Ok?
    ensures UndoLogMatches(t, b, ToText(block.header.number)) <==>
      forall s: Slot :: LogsWipe(b, s.address) ==> WipedSlotSurvives(t, b, s)
  {
    var number := ToText(block.header.number);
    WipedLogAgrees(t, b, number);
    assert forall a :: AccountRow(number, a) !in t.accountRevert;
    assert forall a :: AccountLogAgrees(t, b, number, a);
  }

  /** One event, on a chain of blocks 0..k-1 none of which has been reverted. */
  lemma UndoableExactly<S(!new)>(node: Node<S>, t: Tables, k: nat, e: Event)
    requires SoundNode(node) && PrefixChain(node.blockHash, t, k) && LogsOfStored(t) && CommitEvent(node, t, e).Ok?
    ensures Undoable(node, t, e) <==> ExecutesSafely(node, t, e) && SubmittedAtDecadeEnd(e)
  {
    if IsSubmission(e) {
      var s := SubmissionOf(e.tx, e.event.blockDataHash);
      if ExecuteBlock(node, t, s).Ok? {
        var (block, b) := ExecuteBlock(node, t, s).value;
        ExecutedNumber(node, t, s);
        FreshLogMatches(t, block, b);
        TipConditionOfInserted(node, t, k, s);
      }
    }
  }

  /**
   On blocks 0..k-1, none reverted yet: the events of a chain can all be undone if and only if
   every submitted block executes without losing a wiped slot and every number submitted ends
   a decade.
   */
  lemma {:induction false} AllUndoableExactly<S(!new)>(node: Node<S>, t: Tables, k: nat, events: seq<Event>)
    requires SoundNode(node) && PrefixChain(node.blockHash, t, k) && LogsOfStored(t)
    requires CommitAll(node, t, events).error.None?
    ensures AllUndoable(node, t, events) <==> AllExecuteSafely(node, t, events) && AllAtDecadeEnds(events)
    decreases |events|
  {
    if events == [] {
    } else {
      var next := CommitEvent(node, t, events[0]).value;
      UndoableExactly(node, t, k, events[0]);
      CommitKeepsLogsOfStored(node, t, events[0]);
      CommitKeepsPrefix(node, t, k, events[0]);
      var j: nat := if PrefixChain(node.blockHash, next, k) then k else k + 1;
      AllUndoableExactly(node, next, j, events[1..]);
      DecadeEndsSplit(events);
    }
  }

  lemma DecadeEndsSplit(events: seq<Event>)
    requires events != []
    ensures AllAtDecadeEnds(events) <==> SubmittedAtDecadeEnd(events[0]) && AllAtDecadeEnds(events[1..])
  {
    if SubmittedAtDecadeEnd(events[0]) && AllAtDecadeEnds(events[1..]) {
      forall i | 0 <= i < |events| ensures SubmittedAtDecadeEnd(events[i]) {
        if i > 0 { assert events[i] == events[1..][i - 1]; }
      }
    }
  }

  /**
   Whole-chain undo from conditions on the submitted blocks: on blocks 0..k-1 none of which has
   been reverted, a chain committed without an error retraces every step when it is reverted
   if and only if every submitted block executed without losing a wiped slot and every number
   submitted ends a decade; and then blocks, storage reads and accounts are as at the start.
   */
  lemma SafeChainUndo<S(!new)>(node: Node<S>, t: Tables, k: nat, events: seq<Event>)
    requires SoundNode(node) && PrefixChain(node.blockHash, t, k) && LogsOfStored(t)
    requires CommitAll(node, t, events).error.None?
    ensures Retraces(node, t, events) <==> AllExecuteSafely(node, t, events) && AllAtDecadeEnds(events)
    ensures AllExecuteSafely(node, t, events) && AllAtDecadeEnds(events) ==>
      Undone(node, t, events).error.None? && Matches(Undone(node, t, events).tables, t)
  {
    AllUndoableExactly(node, t, k, events);
    PrefixIsNumberKeyed(node.blockHash, t, k);
    WholeChainUndo(node, t, events);
    if AllUndoable(node, t, events) { CommitThenRevert(node, t, events); }
  }

  /** The EVM never wipes the storage of an account. */
  ghost predicate NeverWipes<S>(node: Node<S>) {
    forall t: Tables, s: Submission :: ExecuteBlock(node, t, s).Ok? ==> WipeFree(ExecuteBlock(node, t, s).value.1)
  }

  /** Every submitted block executes in the state it is committed on. */
  ghost predicate AllExecute<S>(node: Node<S>, t: Tables, events: seq<Event>)
    decreases |events|
  {
    events == [] ||
    (&& (IsSubmission(events[0]) ==>
           ExecuteBlock(node, t, SubmissionOf(events[0].tx, events[0].event.blockDataHash)).Ok?)
     && (CommitEvent(node, t, events[0]).Ok? ==> AllExecute(node, CommitEvent(node, t, events[0]).value, events[1..])))
  }

  lemma {:induction false} ExecutingIsSafe<S>(node: Node<S>, t: Tables, events: seq<Event>)
    requires NeverWipes(node)
    ensures AllExecuteSafely(node, t, events) <==> AllExecute(node, t, events)
    decreases |events|
  {
    if events == [] {
    } else {
      var e := events[0];
      if CommitEvent(node, t, e).Ok? { ExecutingIsSafe(node, CommitEvent(node, t, e).value, events[1..]); }
      if IsSubmission(e) {
        var executed := ExecuteBlock(node, t, SubmissionOf(e.tx, e.event.blockDataHash));
        if executed.Ok? {
          forall a ensures !LogsWipe(executed.value.1, a) { NoWipeLogged(executed.value.1, a); }
        }
      }
    }
  }

  /**
   In particular, with an EVM that wipes nothing, a chain retraces every step if and only if
   every submitted block executed and every number submitted ends a decade.
   */
  lemma ChainUndoExactly<S(!new)>(node: Node<S>, t: Tables, k: nat, events: seq<Event>)
    requires SoundNode(node) && NeverWipes(node) && PrefixChain(node.blockHash, t, k) && LogsOfStored(t)
    requires CommitAll(node, t, events).error.None?
    ensures Retraces(node, t, events) <==> AllExecute(node, t, events) && AllAtDecadeEnds(events)
    ensures AllExecute(node, t, events) && AllAtDecadeEnds(events) ==>
      Undone(node, t, events).error.None? && Matches(Undone(node, t, events).tables, t)
  {
    SafeChainUndo(node, t, k, events);
    ExecutingIsSafe(node, t, events);
  }

  /** In particular every run starts so. */
  lemma EmptyDatabaseIsFresh(blockHash: Header -> U256)
    ensures PrefixChain(blockHash, EMPTY_TABLES, 0) && LogsOfStored(EMPTY_TABLES)
  {
    EmptyDatabaseIsPrefix(blockHash);
  }
}
