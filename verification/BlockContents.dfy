/** When a submitted block executes and what is in it, field by field, and what committing its event does. */
module BlockContents {
  import opened Prelude
  import opened DecimalText
  import opened Tables
  import opened Blobs
  import opened Execution
  import opened Rollup

  // ----- the transactions

  /** The item decodes to a transaction of this chain. */
  predicate IsOwn(c: Codecs, item: Bytes) {
    c.transaction(item).Some? && c.transaction(item).value.chainId == Some(17001)
  }

  /** The item decodes, and if it is of this chain its sender can be recovered. */
  predicate IsReadable(c: Codecs, item: Bytes) {
    c.transaction(item).Some? && (IsOwn(c, item) ==> c.recovers(c.transaction(item).value))
  }

  predicate Readable(c: Codecs, items: seq<Bytes>) {
    forall i :: 0 <= i < |items| ==> IsReadable(c, items[i])
  }

  /** Where the own transactions stand, from item `i` on. */
  function OwnAt(c: Codecs, items: seq<Bytes>, i: nat): (at: seq<nat>)
    requires i <= |items|
    ensures forall k :: 0 <= k < |at| ==> i <= at[k] < |items| && IsOwn(c, items[at[k]])
    ensures forall j, k :: 0 <= j < k < |at| ==> at[j] < at[k]
    ensures forall n :: i <= n < |items| && IsOwn(c, items[n]) ==> n in at
    decreases |items| - i
  {
    if i == |items| then [] else (if IsOwn(c, items[i]) then [i] else []) + OwnAt(c, items, i + 1)
  }

  /** The own transactions in order. */
  function OwnTransactions(c: Codecs, items: seq<Bytes>, i: nat): seq<Transaction>
    requires i <= |items|
  {
    var at := OwnAt(c, items, i);
    seq(|at|, k requires 0 <= k < |at| => c.transaction(items[at[k]]).value)
  }

  predicate AnyOwn(c: Codecs, items: seq<Bytes>) {
    exists i :: 0 <= i < |items| && IsOwn(c, items[i])
  }

  lemma AnyOwnIsKept(c: Codecs, items: seq<Bytes>)
    ensures AnyOwn(c, items) <==> OwnTransactions(c, items, 0) != []
  {
    var at := OwnAt(c, items, 0);
    if at != [] { assert IsOwn(c, items[at[0]]); }
  }

  lemma OwnStep(c: Codecs, items: seq<Bytes>, i: nat)
    requires i < |items| && c.transaction(items[i]).Some?
    ensures OwnTransactions(c, items, i) ==
      (if IsOwn(c, items[i]) then [c.transaction(items[i]).value] else []) + OwnTransactions(c, items, i + 1)
  {
    var own: seq<nat> := if IsOwn(c, items[i]) then [i] else [];
    assert OwnAt(c, items, i) == own + OwnAt(c, items, i + 1);
  }

  lemma ReadableSplit(c: Codecs, items: seq<Bytes>)
    requires items != []
    ensures Readable(c, items) <==> IsReadable(c, items[0]) && Readable(c, items[1..])
  {
    if IsReadable(c, items[0]) && Readable(c, items[1..]) {
      forall i | 0 <= i < |items| ensures IsReadable(c, items[i]) {
        if i > 0 { assert IsReadable(c, items[1..][i - 1]); }
      }
    }
  }

  /** Keeping own transactions succeeds exactly on readable items, and keeps all of them in order. */
  lemma {:induction false} KeptExactly(c: Codecs, items: seq<Bytes>, i: nat)
    requires i <= |items|
    ensures KeepOwn(items[i..], c).Ok? <==> Readable(c, items[i..])
    ensures KeepOwn(items[i..], c).Ok? ==> KeepOwn(items[i..], c).value == OwnTransactions(c, items, i)
    decreases |items| - i
  {
    if i < |items| {
      assert items[i..][0] == items[i] && items[i..][1..] == items[i + 1..];
      KeptExactly(c, items, i + 1);
      ReadableSplit(c, items[i..]);
      if c.transaction(items[i]).Some? { OwnStep(c, items, i); }
    }
  }

  /** `raw` is the data submitted: the call's own, or what the requested blobs of the sidecar join to, none of them missing. */
  ghost predicate IsData(c: Codecs, s: Submission, raw: Bytes) {
    if !s.carriesBlobs then raw == s.blockData
    else
      && s.sidecar.Some? && c.hashList(s.blockData).Some?
      && var hashes := c.hashList(s.blockData).value;
        var blobs := SelectBlobs(s.sidecar.value, hashes, c.versionedHash);
        |blobs| == |hashes| && c.joinBlobs(blobs) == Some(raw)
  }

  lemma DataExactly(c: Codecs, s: Submission, raw: Bytes)
    ensures RawTransactions(s, c) == Ok(raw) <==> IsData(c, s, raw)
  {
  }

  // ----- the header

  /** The header that a submission stands for on top of the stored blocks. */
  ghost predicate IsHeader<S>(node: Node<S>, t: Tables, h: ZenithHeader, header: Header) {
    && header.number == h.sequence && header.gasLimit == h.gasLimit && header.timestamp == h.confirmBy
    && if h.sequence == 0 then header.parentHash == 0 && header.baseFee == 1_000_000_000
       else
         && ToText(h.sequence - 1) in t.block
         && var parent := t.block[ToText(h.sequence - 1)].header;
           && header.parentHash == node.blockHash(parent)
           && node.nextBaseFee(parent, header.timestamp) == Some(header.baseFee)
  }

  lemma HeaderExactly<S>(node: Node<S>, t: Tables, h: ZenithHeader, header: Header)
    ensures ConstructHeader(node, t, h) == Ok(header) <==> IsHeader(node, t, h, header)
  {
  }

  // ----- the block

  /** The submission executes to this block and bundle, with `items` the list in its data and `x` the run. */
  ghost predicate Produces<S>(
    node: Node<S>, t: Tables, s: Submission, block: Block, b: Bundle, raw: Bytes, items: seq<Bytes>, x: Executions<S>)
  {
    && s.header.rollupChainId == 17001
    && IsHeader(node, t, s.header, block.header)
    && IsData(node.codecs, s, raw) && node.codecs.keccak(raw) == s.blockDataHash
    && node.codecs.itemList(raw) == Some(items) && Readable(node.codecs, items)
    && Run(node.transact, block.header.gasLimit, 0, node.open(t, block.header), OwnTransactions(node.codecs, items, 0)) == Ok(x)
    && |block.transactions| == |x.executed|
    && (forall k :: 0 <= k < |x.executed| ==> block.transactions[k] == x.executed[k].encoded)
    && b == node.bundle(x.state, AnyOwn(node.codecs, items))
  }

  lemma ProducedIsExecuted<S>(
    node: Node<S>, t: Tables, s: Submission, block: Block, b: Bundle, raw: Bytes, items: seq<Bytes>, x: Executions<S>)
    requires Produces(node, t, s, block, b, raw, items, x)
    ensures ExecuteBlock(node, t, s) == Ok((block, b))
  {
    HeaderExactly(node, t, s.header, block.header);
    DataExactly(node.codecs, s, raw);
    KeptExactly(node.codecs, items, 0);
    assert items[0..] == items;
    AnyOwnIsKept(node.codecs, items);
    assert Encodings(x.executed) == block.transactions;
  }

  lemma ExecutedIsProduced<S>(node: Node<S>, t: Tables, s: Submission, block: Block, b: Bundle)
    requires ExecuteBlock(node, t, s) == Ok((block, b))
    ensures exists raw, items, x :: Produces(node, t, s, block, b, raw, items, x)
  {
    var raw := RawTransactions(s, node.codecs).value;
    var items := node.codecs.itemList(raw).value;
    HeaderExactly(node, t, s.header, block.header);
    DataExactly(node.codecs, s, raw);
    KeptExactly(node.codecs, items, 0);
    assert items[0..] == items;
    AnyOwnIsKept(node.codecs, items);
    var x := Run(node.transact, block.header.gasLimit, 0, node.open(t, block.header), OwnTransactions(node.codecs, items, 0)).value;
    assert Produces(node, t, s, block, b, raw, items, x);
  }

  /**
   A submission executes to a block and a bundle exactly when it is for this rollup, the header
   is the one it stands for, its data has the announced hash and lists readable transactions,
   and running those of this chain gives the transactions of the block and the bundle.
   */
  lemma ExecutedExactly<S>(node: Node<S>, t: Tables, s: Submission, block: Block, b: Bundle)
    ensures ExecuteBlock(node, t, s) == Ok((block, b)) <==>
      exists raw, items, x :: Produces(node, t, s, block, b, raw, items, x)
  {
    if ExecuteBlock(node, t, s) == Ok((block, b)) { ExecutedIsProduced(node, t, s, block, b); }
    if raw, items, x :| Produces(node, t, s, block, b, raw, items, x) {
      ProducedIsExecuted(node, t, s, block, b, raw, items, x);
    }
  }

  /** The gas of a block stays within the limit that was submitted, and its receipts add it up. */
  lemma GasWithinSubmitted<S(!new)>(node: Node<S>, t: Tables, s: Submission, block: Block, b: Bundle)
    requires GasBounded(node.transact) && ExecuteBlock(node, t, s) == Ok((block, b))
    ensures exists raw, items, x :: Produces(node, t, s, block, b, raw, items, x) && ExactGas(x, 0, s.header.gasLimit)
  {
    ExecutedIsProduced(node, t, s, block, b);
    var raw, items, x :| Produces(node, t, s, block, b, raw, items, x);
    GasAccounting(node.transact, block.header.gasLimit, 0, node.open(t, block.header), OwnTransactions(node.codecs, items, 0));
  }

  // ----- the event

  /** What an event submits: the header and data of the call, the hash of the event, the blobs of the transaction. */
  function Submitted(e: Event, hash: U256, h: ZenithHeader, data: Bytes): Submission {
    Submission(h, data, hash, e.tx.carriesBlobs, e.tx.sidecar)
  }

  /** Why a block cannot be added, if it cannot: its number is taken, or the bundle logs more than one block. */
  function Refusal(t: Tables, block: Block, b: Bundle): Option<DbError> {
    if ToText(block.header.number) in t.block then Some(BlockExists)
    else if |b.accountReverts| > 1 then Some(TooManyAccountReverts)
    else if |b.storageReverts| > 1 then Some(TooManyStorageReverts)
    else None
  }

  /**
   A submitted block that does not execute is skipped; one that does is stored under the
   submitted number, beside all others, or it is an error if it cannot be added.
   */
  lemma SubmissionCommitted<S>(node: Node<S>, t: Tables, e: Event, hash: U256, h: ZenithHeader, data: Bytes)
    requires e.event == BlockSubmitted(hash) && e.tx.call == Some(SubmitBlock(h, data))
    ensures match ExecuteBlock(node, t, Submitted(e, hash, h, data))
            case Err(_) => CommitEvent(node, t, e) == Ok(t)
            case Ok((block, b)) =>
              match Refusal(t, block, b)
              case Some(error) => CommitEvent(node, t, e) == Err(Db(error))
              case None =>
                && CommitEvent(node, t, e).Ok?
                && CommitEvent(node, t, e).value.block == t.block[ToText(h.sequence) := block]
  {
  }

  /** Reverting the event reverts the submitted number, executed or not, if the tip query answers it. */
  lemma SubmissionReverted(t: Tables, e: Event, hash: U256, h: ZenithHeader, data: Bytes)
    requires e.event == BlockSubmitted(hash) && e.tx.call == Some(SubmitBlock(h, data))
    ensures t.block == map[] ==> RevertEvent(t, e) == Err(Db(NoBlocks))
    ensures t.block != map[] && StoredTip(t) != h.sequence ==> RevertEvent(t, e) == Err(Db(NotTheTip(h.sequence, StoredTip(t))))
    ensures t.block != map[] && StoredTip(t) == h.sequence ==>
      RevertEvent(t, e).Ok? && RevertEvent(t, e).value.block == t.block - {ToText(h.sequence)}
  {
  }

  /** Input that does not decode is an error either way; other calls and other events change nothing. */
  lemma OtherwiseNothing<S>(node: Node<S>, t: Tables, e: Event)
    ensures e.event.BlockSubmitted? && e.tx.call.None? ==>
      CommitEvent(node, t, e) == Err(BadInput) && RevertEvent(t, e) == Err(BadInput)
    ensures e.event.BlockSubmitted? && e.tx.call == Some(OtherCall) ==>
      CommitEvent(node, t, e) == Ok(t) && RevertEvent(t, e) == Ok(t)
    ensures e.event.OtherEvent? ==> CommitEvent(node, t, e) == Ok(t) && RevertEvent(t, e) == Ok(t)
  {
  }
}
