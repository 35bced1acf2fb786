/** Which events decoding a chain gives, and in which order: one for each log of a watched contract that decodes. */
module EventOrder {
  import opened Prelude
  import opened Tables
  import opened ChainEvents

  /** Where a log stands: block, receipt in the block, log in the receipt. */
  datatype Position = Position(block: nat, receipt: nat, log: nat)

  predicate Before(p: Position, q: Position) {
    || p.block < q.block
    || (p.block == q.block && p.receipt < q.receipt)
    || (p.block == q.block && p.receipt == q.receipt && p.log < q.log)
  }

  /** A log of a receipt that has a transaction stands here. */
  predicate HasLog<T>(chain: seq<ChainBlock<T>>, p: Position) {
    && p.block < |chain|
    && p.receipt < |chain[p.block].receipts| && p.receipt < |chain[p.block].transactions|
    && p.log < |chain[p.block].receipts[p.receipt]|
  }

  function LogAt<T>(chain: seq<ChainBlock<T>>, p: Position): Log
    requires HasLog(chain, p)
  {
    chain[p.block].receipts[p.receipt][p.log]
  }

  /** The log comes from a watched contract, and it decodes. */
  predicate IsEvent<T, E>(chain: seq<ChainBlock<T>>, watched: set<Address>, decode: Log -> Option<E>, p: Position) {
    HasLog(chain, p) && LogAt(chain, p).address in watched && decode(LogAt(chain, p)).Some?
  }

  /** The event that the log at `p` stands for, with its block and its transaction. */
  predicate FoundAt<T(==), E(==)>(chain: seq<ChainBlock<T>>, decode: Log -> Option<E>, p: Position, f: Found<T, E>) {
    && HasLog(chain, p)
    && f.block == chain[p.block] && f.tx == chain[p.block].transactions[p.receipt]
    && f.log == LogAt(chain, p) && decode(f.log) == Some(f.event)
  }

  /** The positions of events from log `l` of receipt `r` of block `b` to the end of that receipt. */
  function InReceipt<T, E>(
    chain: seq<ChainBlock<T>>, watched: set<Address>, decode: Log -> Option<E>, b: nat, r: nat, l: nat): seq<Position>
    requires HasReceipt(chain, b, r) && l <= |chain[b].receipts[r]|
    decreases |chain[b].receipts[r]| - l
  {
    if l == |chain[b].receipts[r]| then []
    else
      (if IsEvent(chain, watched, decode, Position(b, r, l)) then [Position(b, r, l)] else [])
      + InReceipt(chain, watched, decode, b, r, l + 1)
  }

  predicate HasReceipt<T>(chain: seq<ChainBlock<T>>, b: nat, r: nat) {
    b < |chain| && r < |chain[b].receipts| && r < |chain[b].transactions|
  }

  /** The positions of events from receipt `r` of block `b` to the end of that block. */
  function InBlock<T, E>(
    chain: seq<ChainBlock<T>>, watched: set<Address>, decode: Log -> Option<E>, b: nat, r: nat): seq<Position>
    requires b < |chain| && r <= |chain[b].receipts| && r <= |chain[b].transactions|
    decreases |chain[b].receipts| - r
  {
    if !HasReceipt(chain, b, r) then []
    else InReceipt(chain, watched, decode, b, r, 0) + InBlock(chain, watched, decode, b, r + 1)
  }

  /** The positions of events from block `b` on. */
  function FromBlock<T, E>(chain: seq<ChainBlock<T>>, watched: set<Address>, decode: Log -> Option<E>, b: nat): seq<Position>
    requires b <= |chain|
    decreases |chain| - b
  {
    if b == |chain| then [] else InBlock(chain, watched, decode, b, 0) + FromBlock(chain, watched, decode, b + 1)
  }

  predicate Increasing(at: seq<Position>) {
    forall j, k :: 0 <= j < k < |at| ==> Before(at[j], at[k])
  }

  /** The events stand at these positions, one each. */
  ghost predicate StandAt<T, E>(chain: seq<ChainBlock<T>>, decode: Log -> Option<E>, at: seq<Position>, fs: seq<Found<T, E>>) {
    |at| == |fs| && forall k :: 0 <= k < |at| ==> FoundAt(chain, decode, at[k], fs[k])
  }

  lemma StandAtAppend<T, E>(
    chain: seq<ChainBlock<T>>, decode: Log -> Option<E>,
    at: seq<Position>, fs: seq<Found<T, E>>, at': seq<Position>, fs': seq<Found<T, E>>)
    requires StandAt(chain, decode, at, fs) && StandAt(chain, decode, at', fs')
    ensures StandAt(chain, decode, at + at', fs + fs')
  {
  }

  lemma {:induction false} ReceiptStands<T, E>(
    chain: seq<ChainBlock<T>>, watched: set<Address>, decode: Log -> Option<E>, b: nat, r: nat, l: nat)
    requires HasReceipt(chain, b, r) && l <= |chain[b].receipts[r]|
    ensures StandAt(chain, decode, InReceipt(chain, watched, decode, b, r, l),
                    LogEvents(chain[b], chain[b].transactions[r], chain[b].receipts[r][l..], watched, decode))
    decreases |chain[b].receipts[r]| - l
  {
    var logs := chain[b].receipts[r];
    if l < |logs| {
      assert logs[l..][1..] == logs[l + 1..] && logs[l..][0] == logs[l];
      ReceiptStands(chain, watched, decode, b, r, l + 1);
    }
  }

  lemma {:induction false} BlockStands<T, E>(
    chain: seq<ChainBlock<T>>, watched: set<Address>, decode: Log -> Option<E>, b: nat, r: nat)
    requires b < |chain| && r <= |chain[b].receipts| && r <= |chain[b].transactions|
    ensures StandAt(chain, decode, InBlock(chain, watched, decode, b, r),
                    TxEvents(chain[b], chain[b].transactions[r..], chain[b].receipts[r..], watched, decode))
    decreases |chain[b].receipts| - r
  {
    var txs, receipts := chain[b].transactions, chain[b].receipts;
    if HasReceipt(chain, b, r) {
      assert txs[r..][1..] == txs[r + 1..] && receipts[r..][1..] == receipts[r + 1..];
      ReceiptStands(chain, watched, decode, b, r, 0);
      assert receipts[r][0..] == receipts[r];
      BlockStands(chain, watched, decode, b, r + 1);
    }
  }

  lemma {:induction false} ChainStands<T, E>(chain: seq<ChainBlock<T>>, watched: set<Address>, decode: Log -> Option<E>, b: nat)
    requires b <= |chain|
    ensures StandAt(chain, decode, FromBlock(chain, watched, decode, b), Decode(chain[b..], watched, decode))
    decreases |chain| - b
  {
    if b < |chain| {
      assert chain[b..][1..] == chain[b + 1..];
      BlockStands(chain, watched, decode, b, 0);
      assert chain[b].transactions[0..] == chain[b].transactions && chain[b].receipts[0..] == chain[b].receipts;
      ChainStands(chain, watched, decode, b + 1);
    }
  }

  /** The positions are increasing, and are exactly those of events in the range that `within` describes. */
  ghost predicate Exactly<T, E>(
    chain: seq<ChainBlock<T>>, watched: set<Address>, decode: Log -> Option<E>, at: seq<Position>, within: Position -> bool)
  {
    Increasing(at) && forall p :: p in at <==> within(p) && IsEvent(chain, watched, decode, p)
  }

  lemma ExactlyAppend<T, E>(
    chain: seq<ChainBlock<T>>, watched: set<Address>, decode: Log -> Option<E>,
    first: seq<Position>, inFirst: Position -> bool, rest: seq<Position>, inRest: Position -> bool, within: Position -> bool)
    requires Exactly(chain, watched, decode, first, inFirst) && Exactly(chain, watched, decode, rest, inRest)
    requires forall p :: IsEvent(chain, watched, decode, p) ==> (within(p) <==> inFirst(p) || inRest(p))
    requires forall p, q :: p in first && q in rest ==> Before(p, q)
    ensures Exactly(chain, watched, decode, first + rest, within)
  {
    forall j, k | 0 <= j < k < |first + rest| ensures Before((first + rest)[j], (first + rest)[k]) {
      if j < |first| <= k { assert first[j] in first && rest[k - |first|] in rest; }
    }
  }

  lemma {:induction false} ReceiptExactly<T, E>(
    chain: seq<ChainBlock<T>>, watched: set<Address>, decode: Log -> Option<E>, b: nat, r: nat, l: nat)
    requires HasReceipt(chain, b, r) && l <= |chain[b].receipts[r]|
    ensures Exactly(chain, watched, decode, InReceipt(chain, watched, decode, b, r, l),
                    (p: Position) => p.block == b && p.receipt == r && p.log >= l)
    decreases |chain[b].receipts[r]| - l
  {
    if l < |chain[b].receipts[r]| {
      var here := Position(b, r, l);
      ReceiptExactly(chain, watched, decode, b, r, l + 1);
      ExactlyAppend(
        chain, watched, decode,
        if IsEvent(chain, watched, decode, here) then [here] else [], (p: Position) => p == here,
        InReceipt(chain, watched, decode, b, r, l + 1), (p: Position) => p.block == b && p.receipt == r && p.log >= l + 1,
        (p: Position) => p.block == b && p.receipt == r && p.log >= l);
    }
  }

  lemma {:induction false} BlockExactly<T, E>(
    chain: seq<ChainBlock<T>>, watched: set<Address>, decode: Log -> Option<E>, b: nat, r: nat)
    requires b < |chain| && r <= |chain[b].receipts| && r <= |chain[b].transactions|
    ensures Exactly(chain, watched, decode, InBlock(chain, watched, decode, b, r),
                    (p: Position) => p.block == b && p.receipt >= r)
    decreases |chain[b].receipts| - r
  {
    if HasReceipt(chain, b, r) {
      ReceiptExactly(chain, watched, decode, b, r, 0);
      BlockExactly(chain, watched, decode, b, r + 1);
      ExactlyAppend(
        chain, watched, decode,
        InReceipt(chain, watched, decode, b, r, 0), (p: Position) => p.block == b && p.receipt == r && p.log >= 0,
        InBlock(chain, watched, decode, b, r + 1), (p: Position) => p.block == b && p.receipt >= r + 1,
        (p: Position) => p.block == b && p.receipt >= r);
    }
  }

  lemma {:induction false} ChainExactly<T, E>(chain: seq<ChainBlock<T>>, watched: set<Address>, decode: Log -> Option<E>, b: nat)
    requires b <= |chain|
    ensures Exactly(chain, watched, decode, FromBlock(chain, watched, decode, b), (p: Position) => p.block >= b)
    decreases |chain| - b
  {
    if b < |chain| {
      BlockExactly(chain, watched, decode, b, 0);
      ChainExactly(chain, watched, decode, b + 1);
      ExactlyAppend(
        chain, watched, decode,
        InBlock(chain, watched, decode, b, 0), (p: Position) => p.block == b && p.receipt >= 0,
        FromBlock(chain, watched, decode, b + 1), (p: Position) => p.block >= b + 1,
        (p: Position) => p.block >= b);
    }
  }

  /**
   The events of a chain come in chain order, one for each log of a watched contract that
   decodes and belongs to a receipt with a transaction, and no others.
   */
  lemma DecodeInOrder<T, E>(chain: seq<ChainBlock<T>>, watched: set<Address>, decode: Log -> Option<E>)
    ensures var at := FromBlock(chain, watched, decode, 0);
      && Increasing(at)
      && (forall p :: p in at <==> IsEvent(chain, watched, decode, p))
      && StandAt(chain, decode, at, Decode(chain, watched, decode))
  {
    ChainStands(chain, watched, decode, 0);
    ChainExactly(chain, watched, decode, 0);
    assert chain[0..] == chain;
  }

  /** Transaction `i` of block `b` has the log of `f`, from a watched contract, and it decodes to the event of `f`. */
  predicate Emits<T(==), E(==)>(
    chain: seq<ChainBlock<T>>, watched: set<Address>, decode: Log -> Option<E>, f: Found<T, E>, b: nat, i: nat)
  {
    && b < |chain| && i < |chain[b].transactions| && i < |chain[b].receipts|
    && f.block == chain[b] && f.tx == chain[b].transactions[i]
    && f.log in chain[b].receipts[i] && f.log.address in watched && decode(f.log) == Some(f.event)
  }

  lemma FoundIsEmitted<T, E>(chain: seq<ChainBlock<T>>, watched: set<Address>, decode: Log -> Option<E>, f: Found<T, E>)
    requires f in Decode(chain, watched, decode)
    ensures exists b, i :: Emits(chain, watched, decode, f, b, i)
  {
    DecodeInOrder(chain, watched, decode);
    var at, fs := FromBlock(chain, watched, decode, 0), Decode(chain, watched, decode);
    var k :| 0 <= k < |fs| && fs[k] == f;
    assert FoundAt(chain, decode, at[k], fs[k]);
    assert at[k] in at;
    assert Emits(chain, watched, decode, f, at[k].block, at[k].receipt);
  }

  lemma EmittedIsFound<T, E>(
    chain: seq<ChainBlock<T>>, watched: set<Address>, decode: Log -> Option<E>, f: Found<T, E>, b: nat, i: nat)
    requires Emits(chain, watched, decode, f, b, i)
    ensures f in Decode(chain, watched, decode)
  {
    DecodeInOrder(chain, watched, decode);
    var at, fs := FromBlock(chain, watched, decode, 0), Decode(chain, watched, decode);
    var l :| 0 <= l < |chain[b].receipts[i]| && chain[b].receipts[i][l] == f.log;
    var p := Position(b, i, l);
    assert IsEvent(chain, watched, decode, p);
    var k :| 0 <= k < |at| && at[k] == p;
    assert FoundAt(chain, decode, at[k], fs[k]);
  }

  /** An event is found exactly when some log of a watched contract decodes to it. */
  lemma DecodeExactly<T, E>(chain: seq<ChainBlock<T>>, watched: set<Address>, decode: Log -> Option<E>, f: Found<T, E>)
    ensures f in Decode(chain, watched, decode) <==> exists b, i :: Emits(chain, watched, decode, f, b, i)
  {
    if f in Decode(chain, watched, decode) { FoundIsEmitted(chain, watched, decode, f); }
    if b, i :| Emits(chain, watched, decode, f, b, i) { EmittedIsFound(chain, watched, decode, f, b, i); }
  }
}
