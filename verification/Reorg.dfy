/** A reorg compared with having committed the new chain from the start. */
module Reorg {
  import opened Prelude
  import opened DecimalText
  import opened Tables
  import opened Execution
  import opened ChainEvents
  import opened Rollup
  import opened Undo
  import opened ChainUndo
  import opened StoredCode

  /** Same blocks, same storage reads, and accounts up to an empty one in place of none. */
  ghost predicate ViewMatches(v: Tables, t: Tables) {
    && v.block == t.block
    && (forall a :: AccountMatches(Lookup(v.account, a), Lookup(t.account, a)))
    && (forall s :: ReadSlot(v.storage, s) == ReadSlot(t.storage, s))
  }

  /** The account stored once the bundle's changes are applied. */
  function PostAccount(t: Tables, b: Bundle, a: Address): Option<Account> {
    match Find(b.accounts, a)
    case Some(info) => info
    case None => Lookup(t.account, a)
  }

  /** The two bundles lead from matching states to matching states. */
  ghost predicate SameEffect(v: Tables, c: Bundle, t: Tables, b: Bundle) {
    && (forall a :: AccountMatches(PostAccount(v, c, a), PostAccount(t, b, a)))
    && (forall s :: Read(PostSlot(v, c, s)) == Read(PostSlot(t, b, s)))
  }

  /**
   Execution sees the tables only through blocks, storage reads, accounts and the code that
   accounts have, and does not tell an empty account from none: on matching states with known
   code, in which matching accounts run the same code, a submission fails on both or gives the
   same block, with bundles of the same effect.
   */
  ghost predicate SeesCodedView<S(!new)>(node: Node<S>, codeOf: U256 -> Bytes) {
    forall v: Tables, t: Tables, s: Submission :: ViewMatches(v, t) && KnownCode(codeOf, v) && KnownCode(codeOf, t) ==>
      match ExecuteBlock(node, t, s)
      case Err(_) => ExecuteBlock(node, v, s).Err?
      case Ok((block, b)) =>
        && ExecuteBlock(node, v, s).Ok?
        && ExecuteBlock(node, v, s).value.0 == block
        && SameEffect(v, ExecuteBlock(node, v, s).value.1, t, b)
  }

  /** What is assumed of the EVM: its bundles log the state and carry the code, and it sees no more than accounts, slots, code and blocks. */
  ghost predicate SoundReader<S(!new)>(node: Node<S>, codeOf: U256 -> Bytes) {
    SoundNode(node) && CodedNode(node, codeOf) && SeesCodedView(node, codeOf)
  }

  lemma InsertsMatch(v: Tables, t: Tables, block: Block, c: Bundle, b: Bundle)
    requires ViewMatches(v, t) && ValidBundle(v, c) && ValidBundle(t, b) && SameEffect(v, c, t, b)
    ensures match InsertBlock(t, block, b)
            case Err(e) => InsertBlock(v, block, c) == Err(e)
            case Ok(u) => InsertBlock(v, block, c).Ok? && ViewMatches(InsertBlock(v, block, c).value, u)
  {
    if InsertBlock(t, block, b).Ok? {
      var w, u := InsertBlock(v, block, c).value, InsertBlock(t, block, b).value;
      InsertedLookups(v, block, c);
      InsertedLookups(t, block, b);
      forall a ensures AccountMatches(Lookup(w.account, a), Lookup(u.account, a)) {
        assert AccountMatches(PostAccount(v, c, a), PostAccount(t, b, a));
      }
      forall s ensures ReadSlot(w.storage, s) == ReadSlot(u.storage, s) {
        assert Lookup(w.storage, s) == PostSlot(v, c, s) && Lookup(u.storage, s) == PostSlot(t, b, s);
        assert Read(PostSlot(v, c, s)) == Read(PostSlot(t, b, s));
      }
    }
  }

  /** A deposit gives an absent and an empty account the same balance. */
  lemma DepositMatches(v: Tables, t: Tables, a: Address, amount: U256)
    requires AccountMatches(Lookup(v.account, a), Lookup(t.account, a))
    ensures AddDeposit(v, a, amount).account[a] == AddDeposit(t, a, amount).account[a]
  {
  }

  lemma DepositsMatch(v: Tables, t: Tables, a: Address, amount: U256)
    requires ViewMatches(v, t)
    ensures ViewMatches(AddDeposit(v, a, amount), AddDeposit(t, a, amount))
  {
    var w, u := AddDeposit(v, a, amount), AddDeposit(t, a, amount);
    assert AccountMatches(Lookup(v.account, a), Lookup(t.account, a));
    DepositMatches(v, t, a, amount);
    forall x ensures AccountMatches(Lookup(w.account, x), Lookup(u.account, x)) {
      if x != a {
        assert Lookup(w.account, x) == Lookup(v.account, x) && Lookup(u.account, x) == Lookup(t.account, x);
        assert AccountMatches(Lookup(v.account, x), Lookup(t.account, x));
      }
    }
  }

  /** Any other event changes nothing, or fails for its input alone. */
  lemma OtherCommits<S>(node: Node<S>, v: Tables, t: Tables, e: Event)
    requires !IsSubmission(e) && !IsDeposit(e)
    ensures match CommitEvent(node, t, e)
            case Err(x) => CommitEvent(node, v, e) == Err(x)
            case Ok(u) => u == t && CommitEvent(node, v, e) == Ok(v)
  {
  }

  /** One event on matching states: the same error, or matching states again. */
  lemma CommitsMatch<S(!new)>(node: Node<S>, codeOf: U256 -> Bytes, v: Tables, t: Tables, e: Event)
    requires SoundReader(node, codeOf) && ViewMatches(v, t) && KnownCode(codeOf, v) && KnownCode(codeOf, t)
    ensures match CommitEvent(node, t, e)
            case Err(x) => CommitEvent(node, v, e) == Err(x)
            case Ok(u) => CommitEvent(node, v, e).Ok? && ViewMatches(CommitEvent(node, v, e).value, u)
  {
    if IsSubmission(e) {
      SubmissionsMatch(node, codeOf, v, t, e);
    } else if IsDeposit(e) {
      DepositsMatch(v, t, e.event.recipient, e.event.amount);
    } else {
      OtherCommits(node, v, t, e);
    }
  }

  /** What the assumptions on the EVM say of one submission on matching states. */
  lemma SubmissionsAgree<S(!new)>(node: Node<S>, codeOf: U256 -> Bytes, v: Tables, t: Tables, s: Submission)
    requires SoundReader(node, codeOf) && ViewMatches(v, t) && KnownCode(codeOf, v) && KnownCode(codeOf, t)
    ensures match ExecuteBlock(node, t, s)
            case Err(_) => ExecuteBlock(node, v, s).Err?
            case Ok((block, b)) =>
              && ValidBundle(t, b) && ExecuteBlock(node, v, s).Ok?
              && var c := ExecuteBlock(node, v, s).value.1;
                ExecuteBlock(node, v, s).value.0 == block && ValidBundle(v, c) && SameEffect(v, c, t, b)
  {
  }

  lemma SubmissionsMatch<S(!new)>(node: Node<S>, codeOf: U256 -> Bytes, v: Tables, t: Tables, e: Event)
    requires SoundReader(node, codeOf) && ViewMatches(v, t) && KnownCode(codeOf, v) && KnownCode(codeOf, t) && IsSubmission(e)
    ensures match CommitEvent(node, t, e)
            case Err(x) => CommitEvent(node, v, e) == Err(x)
            case Ok(u) => CommitEvent(node, v, e).Ok? && ViewMatches(CommitEvent(node, v, e).value, u)
  {
    var s := SubmissionOf(e.tx, e.event.blockDataHash);
    var onT, onV := ExecuteBlock(node, t, s), ExecuteBlock(node, v, s);
    SubmissionsAgree(node, codeOf, v, t, s);
    if onT.Ok? {
      InsertsMatch(v, t, onT.value.0, onV.value.1, onT.value.1);
    }
  }

  /** A list of events on matching states stops at the same error, if any, and leaves matching states. */
  lemma {:induction false} CommitAllMatches<S(!new)>(
    node: Node<S>, codeOf: U256 -> Bytes, v: Tables, t: Tables, events: seq<Event>)
    requires SoundReader(node, codeOf) && ViewMatches(v, t) && KnownCode(codeOf, v) && KnownCode(codeOf, t)
    ensures CommitAll(node, v, events).error == CommitAll(node, t, events).error
    ensures ViewMatches(CommitAll(node, v, events).tables, CommitAll(node, t, events).tables)
    decreases |events|
  {
    if events == [] {
    } else {
      CommitsMatch(node, codeOf, v, t, events[0]);
      match CommitEvent(node, t, events[0]) {
        case Err(_) =>
        case Ok(u) =>
          CommitKeepsKnown(node, codeOf, v, events[0]);
          CommitKeepsKnown(node, codeOf, t, events[0]);
          CommitAllMatches(node, codeOf, CommitEvent(node, v, events[0]).value, u, events[1..]);
      }
    }
  }

  /**
   A reorg: after the L1 chain a + b has been committed, the notification that reverts b and
   commits c leaves the rollup as if a + c had been committed from the start, with the same
   error if there is one: same blocks, same storage reads, accounts up to an empty one in
   place of none; provided the events of b can be undone.
   */
  lemma ReorgEqualsDirect<S(!new)>(
    node: Node<S>, codeOf: U256 -> Bytes, decode: Log -> Option<ContractEvent>, t: Tables, a: L1Chain, b: L1Chain, c: L1Chain)
    requires SoundReader(node, codeOf) && KnownCode(codeOf, t)
    requires Notify(node, decode, t, Notification(None, Some(a + b))).error.None?
    requires var middle := CommitAll(node, t, RollupEvents(a, decode)).tables;
      && NumberKeyed(middle)
      && (CommitAll(node, middle, RollupEvents(b, decode)).error.None? ==> AllUndoable(node, middle, RollupEvents(b, decode)))
    ensures var committed := Notify(node, decode, t, Notification(None, Some(a + b))).tables;
      var reorged := Notify(node, decode, committed, Notification(Some(b), Some(c)));
      var direct := Notify(node, decode, t, Notification(None, Some(a + c)));
      reorged.error == direct.error && ViewMatches(reorged.tables, direct.tables)
  {
    ReorgUndoesSuffix(node, decode, t, a, b);
    RollupEventsAppend(a, b, decode);
    RollupEventsAppend(a, c, decode);
    CommitAllAppend(node, t, RollupEvents(a, decode), RollupEvents(b, decode));
    CommitAllAppend(node, t, RollupEvents(a, decode), RollupEvents(c, decode));
    var committed := Notify(node, decode, t, Notification(None, Some(a + b))).tables;
    var reverted := Notify(node, decode, committed, Notification(Some(b), None)).tables;
    NotifyKeepsKnown(node, codeOf, decode, t, Notification(None, Some(a + b)));
    NotifyKeepsKnown(node, codeOf, decode, committed, Notification(Some(b), None));
    CommitAllKeepsKnown(node, codeOf, t, RollupEvents(a, decode));
    CommitAllMatches(node, codeOf, reverted, CommitAll(node, t, RollupEvents(a, decode)).tables, RollupEvents(c, decode));
  }
}
