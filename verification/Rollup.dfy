/** Deriving the rollup's state from L1 events: committing a chain and reverting it. */
module Rollup {
  import opened Prelude
  import opened DecimalText
  import opened Tables
  import opened Execution
  import opened ChainEvents
  import Database

  const ROLLUP_CONTRACT_ADDRESS: Address := 0x97C0E40c6B5bb5d4fa3e2AA1C6b8bC7EA5ECAe31

  /** The decoded input of a transaction to the contract. */
  datatype Call = SubmitBlock(header: ZenithHeader, blockData: Bytes) | OtherCall

  /** An L1 transaction: its call, if the input decodes, and the blobs found for it. */
  datatype L1Transaction =
    L1Transaction(call: Option<Call>, carriesBlobs: bool, sidecar: Option<seq<(Bytes, Bytes)>>)

  datatype ContractEvent =
    | BlockSubmitted(blockDataHash: U256)
    | Enter(rollupChainId: U256, token: Address, recipient: Address, amount: U256)
    | OtherEvent

  datatype Event = Event(tx: L1Transaction, event: ContractEvent)

  type L1Chain = seq<ChainBlock<L1Transaction>>

  datatype RollupError = BadInput | Db(error: DbError)

  /** The rollup events of an L1 chain. */
  function RollupEvents(chain: L1Chain, decode: Log -> Option<ContractEvent>): seq<Event> {
    EventsOf(Decode(chain, {ROLLUP_CONTRACT_ADDRESS}, decode))
  }

  function EventsOf(found: seq<Found<L1Transaction, ContractEvent>>): seq<Event> {
    seq(|found|, i requires 0 <= i < |found| => Event(found[i].tx, found[i].event))
  }

  function SubmissionOf(tx: L1Transaction, blockDataHash: U256): Submission
    requires tx.call.Some? && tx.call.value.SubmitBlock?
  {
    Submission(tx.call.value.header, tx.call.value.blockData, blockDataHash, tx.carriesBlobs, tx.sidecar)
  }

  predicate IsSubmission(e: Event) {
    e.event.BlockSubmitted? && e.tx.call.Some? && e.tx.call.value.SubmitBlock?
  }

  /** A deposit of ETH to this rollup; others are logged and skipped. */
  predicate IsDeposit(e: Event) {
    e.event.Enter? && e.event.rollupChainId == CHAIN_ID && e.event.token == 0
  }

  function LiftDb<T>(r: Result<T, DbError>): Result<T, RollupError> {
    match r
    case Ok(t) => Ok(t)
    case Err(e) => Err(Db(e))
  }

  // ----- one event

  /** Committing one event: a block that does not execute is skipped, any other failure stops. */
  function CommitEvent<S>(node: Node<S>, t: Tables, e: Event): Result<Tables, RollupError> {
    match e.event
    case BlockSubmitted(hash) =>
      if e.tx.call.None? then Err(BadInput)
      else if e.tx.call.value.OtherCall? then Ok(t)
      else
        (match ExecuteBlock(node, t, SubmissionOf(e.tx, hash))
         case Err(_) => Ok(t)
         case Ok((block, bundle)) => LiftDb(InsertBlock(t, block, bundle)))
    case Enter(_, _, recipient, amount) =>
      Ok(if IsDeposit(e) then AddDeposit(t, recipient, amount) else t)
    case OtherEvent => Ok(t)
  }

  /** Reverting one event: every submitted block is reverted, whether or not it executed. */
  ghost function RevertEvent(t: Tables, e: Event): Result<Tables, RollupError> {
    match e.event
    case BlockSubmitted(_) =>
      if e.tx.call.None? then Err(BadInput)
      else if e.tx.call.value.OtherCall? then Ok(t)
      else LiftDb(RevertTip(t, e.tx.call.value.header.sequence))
    case Enter(_, _, recipient, amount) =>
      if IsDeposit(e) then LiftDb(TakeDeposit(t, recipient, amount)) else Ok(t)
    case OtherEvent => Ok(t)
  }

  // ----- lists of events, stopping at the first failure; what was done before it stays

  datatype Progress = Progress(tables: Tables, error: Option<RollupError>)

  function CommitAll<S>(node: Node<S>, t: Tables, events: seq<Event>): Progress
    decreases |events|
  {
    if events == [] then Progress(t, None)
    else
      match CommitEvent(node, t, events[0])
      case Err(e) => Progress(t, Some(e))
      case Ok(t') => CommitAll(node, t', events[1..])
  }

  ghost function RevertAll(t: Tables, events: seq<Event>): Progress
    decreases |events|
  {
    if events == [] then Progress(t, None)
    else
      match RevertEvent(t, events[0])
      case Err(e) => Progress(t, Some(e))
      case Ok(t') => RevertAll(t', events[1..])
  }

  datatype Notification = Notification(reverted: Option<L1Chain>, committed: Option<L1Chain>)

  /** One notification: the old chain is reverted, then the new one committed. */
  ghost function Notify<S>(node: Node<S>, decode: Log -> Option<ContractEvent>, t: Tables, n: Notification): Progress {
    var reverted :=
      if n.reverted.Some? then RevertAll(t, Reverse(RollupEvents(n.reverted.value, decode))) else Progress(t, None);
    if reverted.error.Some? || n.committed.None? then reverted
    else CommitAll(node, reverted.tables, RollupEvents(n.committed.value, decode))
  }

  class Rollup<!S> {
    const node: Node<S>
    const decode: Log -> Option<ContractEvent>
    var db: Database.Database

    constructor (node: Node<S>, decode: Log -> Option<ContractEvent>)
      ensures fresh(db) && db.View() == EMPTY_TABLES && this.node == node && this.decode == decode
    {
      this.node := node;
      this.decode := decode;
      db := new Database.Database();
    }

    /** Commit one event to the database. */
    method CommitOne(e: Event) returns (r: Result<(), RollupError>)
      modifies db
      ensures match CommitEvent(node, old(db.View()), e)
              case Ok(t) => r == Ok(()) && db.View() == t
              case Err(x) => r == Err(x) && db.View() == old(db.View())
    {
      r := Ok(());
      match e.event {
        case BlockSubmitted(hash) =>
          if e.tx.call.None? { return Err(BadInput); }
          if e.tx.call.value.SubmitBlock? {
            var executed := ExecuteBlock(node, db.View(), SubmissionOf(e.tx, hash));
            if executed.Ok? {
              var inserted := db.InsertBlockWithBundle(executed.value.0, executed.value.1);
              r := LiftDb(inserted);
            }
          }
        case Enter(rollupChainId, token, recipient, amount) =>
          if rollupChainId == CHAIN_ID && token == 0 {
            db.Deposit(recipient, amount);
          }
        case OtherEvent =>
      }
    }

    method RevertOne(e: Event) returns (r: Result<(), RollupError>)
      modifies db
      ensures match RevertEvent(old(db.View()), e)
              case Ok(t) => r == Ok(()) && db.View() == t
              case Err(x) => r == Err(x) && db.View() == old(db.View())
    {
      r := Ok(());
      match e.event {
        case BlockSubmitted(_) =>
          if e.tx.call.None? { return Err(BadInput); }
          if e.tx.call.value.SubmitBlock? {
            var reverted := db.RevertTipBlock(e.tx.call.value.header.sequence);
            r := LiftDb(reverted);
          }
        case Enter(rollupChainId, token, recipient, amount) =>
          if rollupChainId == CHAIN_ID && token == 0 {
            var taken := db.RevertDeposit(recipient, amount);
            r := LiftDb(taken);
          }
        case OtherEvent =>
      }
    }

    /** Commit a chain, event by event. */
    method Commit(chain: L1Chain) returns (r: Result<(), RollupError>)
      modifies db
      ensures var p := CommitAll(node, old(db.View()), RollupEvents(chain, decode));
        db.View() == p.tables && (if p.error.None? then r == Ok(()) else r == Err(p.error.value))
    {
      var events := RollupEvents(chain, decode);
      assert events[0..] == events;
      for i := 0 to |events|
        invariant CommitAll(node, old(db.View()), events) == CommitAll(node, db.View(), events[i..])
      {
        assert events[i..][0] == events[i] && events[i..][1..] == events[i + 1..];
        r := CommitOne(events[i]);
        if r.Err? { return; }
      }
      r := Ok(());
    }

    /** Revert a chain, newest event first. */
    method Revert(chain: L1Chain) returns (r: Result<(), RollupError>)
      modifies db
      ensures var p := RevertAll(old(db.View()), Reverse(RollupEvents(chain, decode)));
        db.View() == p.tables && (if p.error.None? then r == Ok(()) else r == Err(p.error.value))
    {
      var events := Reverse(RollupEvents(chain, decode));
      assert events[0..] == events;
      for i := 0 to |events|
        invariant RevertAll(old(db.View()), events) == RevertAll(db.View(), events[i..])
      {
        assert events[i..][0] == events[i] && events[i..][1..] == events[i + 1..];
        r := RevertOne(events[i]);
        if r.Err? { return; }
      }
      r := Ok(());
    }

    /** One turn of the notification loop. */
    method HandleNotification(n: Notification) returns (r: Result<(), RollupError>)
      modifies db
      ensures var p := Notify(node, decode, old(db.View()), n);
        db.View() == p.tables && (if p.error.None? then r == Ok(()) else r == Err(p.error.value))
    {
      r := Ok(());
      if n.reverted.Some? {
        r := Revert(n.reverted.value);
        if r.Err? { return; }
      }
      if n.committed.Some? {
        r := Commit(n.committed.value);
      }
    }
  }
}
