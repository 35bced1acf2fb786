/** A stored block body submitted again: it executes to the very block it was stored as, with the same effect. */
module Resubmission {
  import opened Prelude
  import opened Tables
  import opened Execution

  /** A decoded transaction's own encoding decodes to it again. */
  ghost predicate Reencodes(c: Codecs) {
    forall b :: c.transaction(b).Some? ==> c.transaction(c.transaction(b).value.encoded) == c.transaction(b)
  }

  /** A transaction of this chain with a recoverable sender, decoded from its own encoding. */
  predicate Own(c: Codecs, tx: Transaction) {
    tx.chainId == Some(CHAIN_ID) && c.recovers(tx) && c.transaction(tx.encoded) == Some(tx)
  }

  lemma {:induction false} KeptAreOwn(items: seq<Bytes>, c: Codecs)
    requires Reencodes(c) && KeepOwn(items, c).Ok?
    ensures forall tx :: tx in KeepOwn(items, c).value ==> Own(c, tx)
  {
    if items == [] {
    } else {
      KeptAreOwn(items[1..], c);
      var tx := c.transaction(items[0]).value;
      assert c.transaction(tx.encoded) == Some(tx);
    }
  }

  /** Decoding the encodings of own transactions keeps them all, in order. */
  lemma {:induction false} OwnAreKept(txs: seq<Transaction>, c: Codecs)
    requires forall tx :: tx in txs ==> Own(c, tx)
    ensures KeepOwn(Encodings(txs), c) == Ok(txs)
  {
    if txs == [] {
    } else {
      OwnAreKept(txs[1..], c);
      assert Own(c, txs[0]);
      assert Encodings(txs)[1..] == Encodings(txs[1..]);
      assert [txs[0]] + txs[1..] == txs;
    }
  }

  lemma {:induction false} ExecutedWereSubmitted<S>(
    transact: (S, Transaction) -> Outcome<S>, gasLimit: U64, used: U64, s: S, txs: seq<Transaction>)
    requires Run(transact, gasLimit, used, s, txs).Ok?
    ensures forall tx :: tx in Run(transact, gasLimit, used, s, txs).value.executed ==> tx in txs
    decreases |txs|
  {
    if txs == [] {
    } else {
      match transact(s, txs[0]) {
        case Invalid => ExecutedWereSubmitted(transact, gasLimit, used, s, txs[1..]);
        case Executed(result, s') =>
          ExecutedWereSubmitted(transact, gasLimit, Add64(used, result.gasUsed), s', txs[1..]);
      }
    }
  }

  /** A bundle that neither changes nor logs anything. */
  predicate Idle(b: Bundle) {
    && b.accounts == [] && b.storage == [] && b.contracts == []
    && b.accountReverts in [[], [[]]] && b.storageReverts in [[], [[]]]
  }

  /** A state on which nothing has been executed has an idle bundle, merged or not. */
  ghost predicate OpensIdle<S>(node: Node<S>) {
    forall t: Tables, h: Header, merged: bool :: Idle(node.bundle(node.open(t, h), merged))
  }

  lemma IdleInsert(t: Tables, block: Block, a: Bundle, b: Bundle)
    requires Idle(a) && Idle(b)
    ensures InsertBlock(t, block, a) == InsertBlock(t, block, b)
  {
  }

  lemma {:induction false} NothingExecuted<S>(
    transact: (S, Transaction) -> Outcome<S>, gasLimit: U64, used: U64, s: S, txs: seq<Transaction>)
    requires Run(transact, gasLimit, used, s, txs).Ok? && Run(transact, gasLimit, used, s, txs).value.executed == []
    ensures Run(transact, gasLimit, used, s, txs).value.state == s
    decreases |txs|
  {
    if txs == [] {
    } else {
      NothingExecuted(transact, gasLimit, used, s, txs[1..]);
    }
  }

  /** The submission carries exactly the transactions of the block, as call data or in blobs. */
  predicate Carries<S>(node: Node<S>, s: Submission, block: Block) {
    match RawTransactions(s, node.codecs)
    case Err(_) => false
    case Ok(raw) => node.codecs.keccak(raw) == s.blockDataHash && node.codecs.itemList(raw) == Some(block.transactions)
  }

  /**
   The body of a stored block determines its outcome: submitting under the same header exactly
   the transactions that were stored, whatever was skipped the first time, gives the same block
   and, if it has any transactions, the same bundle; if it has none, both bundles are idle.
   Either way inserting the result does the same.
   */
  lemma StoredBodyDeterminesBlock<S>(node: Node<S>, t: Tables, s: Submission, again: Submission)
    requires Reencodes(node.codecs) && OpensIdle(node) && ExecuteBlock(node, t, s).Ok?
    requires again.header == s.header && Carries(node, again, ExecuteBlock(node, t, s).value.0)
    ensures ExecuteBlock(node, t, again).Ok?
    ensures var (block, bundle) := ExecuteBlock(node, t, s).value;
      var (block', bundle') := ExecuteBlock(node, t, again).value;
      && block' == block
      && (if block.transactions == [] then Idle(bundle) && Idle(bundle') else bundle' == bundle)
      && InsertBlock(t, block', bundle') == InsertBlock(t, block, bundle)
  {
    var c := node.codecs;
    var header := ConstructHeader(node, t, s.header).value;
    var txs := DecodeTransactions(s, c).value;
    var start := node.open(t, header);
    var x := Run(node.transact, header.gasLimit, 0, start, txs).value;
    KeptAreOwn(c.itemList(RawTransactions(s, c).value).value, c);
    ExecutedWereSubmitted(node.transact, header.gasLimit, 0, start, txs);
    OwnAreKept(x.executed, c);
    Replay(node.transact, header.gasLimit, 0, start, txs);
    assert |Encodings(x.executed)| == |x.executed|;
    if x.executed == [] {
      NothingExecuted(node.transact, header.gasLimit, 0, start, txs);
      IdleInsert(t, ExecuteBlock(node, t, s).value.0, ExecuteBlock(node, t, s).value.1, ExecuteBlock(node, t, again).value.1);
    }
  }
}
