/**
 Executing one submitted rollup block: choosing its blobs, decoding its transactions, building
 its header and running the transactions. Library code (the EVM, hashes, decoders, the base
 fee formula) is a parameter.
 */
module Execution {
  import opened Prelude
  import opened DecimalText
  import opened Tables
  import opened Blobs

  const CHAIN_ID: U64 := 17001
  const INITIAL_BASE_FEE: U64 := 1_000_000_000

  datatype Transaction = Transaction(encoded: Bytes, txType: nat, gasLimit: U64, chainId: Option<U64>)

  datatype ExecutionResult = ExecutionResult(success: bool, gasUsed: U64, logs: seq<Bytes>)

  datatype Receipt = Receipt(txType: nat, success: bool, cumulativeGasUsed: U64, logs: seq<Bytes>)

  /** What the EVM answers: a result with the new state, a skippable transaction, or a failure. */
  datatype Outcome<S> = Executed(result: ExecutionResult, state: S) | Invalid | Fatal

  /** The header fields of a `submitBlock` call, all of them 256-bit. */
  datatype ZenithHeader = ZenithHeader(rollupChainId: U256, sequence: U256, confirmBy: U256, gasLimit: U256)

  /** A submitted block: the call's data and, for a blob transaction, its sidecar if one was found. */
  datatype Submission = Submission(
    header: ZenithHeader,
    blockData: Bytes,
    blockDataHash: U256,
    carriesBlobs: bool,
    sidecar: Option<seq<(Bytes, Bytes)>>)

  datatype Codecs = Codecs(
    versionedHash: Bytes -> U256,
    hashList: Bytes -> Option<seq<U256>>,
    joinBlobs: seq<Bytes> -> Option<Bytes>,
    keccak: Bytes -> U256,
    itemList: Bytes -> Option<seq<Bytes>>,
    transaction: Bytes -> Option<Transaction>,
    recovers: Transaction -> bool)

  /**
   The node's libraries, with `S` the EVM's state on top of the database. The bundle of a
   state depends on whether its transitions have been merged.
   */
  datatype Node<!S> = Node(
    codecs: Codecs,
    blockHash: Header -> U256,
    nextBaseFee: (Header, U64) -> Option<U64>,
    open: (Tables, Header) -> S,
    transact: (S, Transaction) -> Outcome<S>,
    bundle: (S, bool) -> Bundle)

  datatype ExecutionError =
    | InvalidChainId
    | BadHeader
    | ParentNotFound
    | NoBaseFee
    | SidecarNotFound
    | BlobsNotFound
    | BadBlobs
    | HashMismatch
    | BadTransaction
    | GasLimitExceeded(gasLimit: U64, available: U64)
    | DatabaseFailure

  // ----- transactions

  /** Decode every item, keep those for this chain, and recover the senders of those kept. */
  function KeepOwn(items: seq<Bytes>, c: Codecs): Result<seq<Transaction>, ExecutionError> {
    if items == [] then Ok([])
    else
      match c.transaction(items[0])
      case None => Err(BadTransaction)
      case Some(tx) =>
        if tx.chainId == Some(CHAIN_ID) && !c.recovers(tx) then Err(BadTransaction)
        else
          match KeepOwn(items[1..], c)
          case Err(e) => Err(e)
          case Ok(rest) => Ok(if tx.chainId == Some(CHAIN_ID) then [tx] + rest else rest)
  }

  method KeepOwnTransactions(items: seq<Bytes>, c: Codecs) returns (r: Result<seq<Transaction>, ExecutionError>)
    ensures r == KeepOwn(items, c)
  {
    var transactions := [];
    assert items[0..] == items;
    assert forall rest: seq<Transaction> :: [] + rest == rest;
    for i := 0 to |items|
      invariant KeepOwn(items, c) == (match KeepOwn(items[i..], c)
                                      case Err(e) => Err(e)
                                      case Ok(rest) => Ok(transactions + rest))
    {
      assert items[i..] != [] && items[i..][0] == items[i];
      assert items[i..][1..] == items[i + 1..];
      var decoded := c.transaction(items[i]);
      if decoded.None? { return Err(BadTransaction); }
      var tx := decoded.value;
      if tx.chainId == Some(CHAIN_ID) {
        if !c.recovers(tx) { return Err(BadTransaction); }
        ghost var before := transactions;
        transactions := transactions + [tx];
        assert forall rest :: transactions + rest == before + ([tx] + rest);
      }
    }
    assert items[|items|..] == [] && transactions + [] == transactions;
    r := Ok(transactions);
  }

  function RawTransactions(s: Submission, c: Codecs): Result<Bytes, ExecutionError> {
    if !s.carriesBlobs then Ok(s.blockData)
    else if s.sidecar.None? then Err(SidecarNotFound)
    else
      match c.hashList(s.blockData)
      case None => Err(BadBlobs)
      case Some(hashes) =>
        var blobs := SelectBlobs(s.sidecar.value, hashes, c.versionedHash);
        if |blobs| != |hashes| then Err(BlobsNotFound)
        else
          match c.joinBlobs(blobs)
          case None => Err(BadBlobs)
          case Some(raw) => Ok(raw)
  }

  function DecodeTransactions(s: Submission, c: Codecs): Result<seq<Transaction>, ExecutionError> {
    match RawTransactions(s, c)
    case Err(e) => Err(e)
    case Ok(raw) =>
      if c.keccak(raw) != s.blockDataHash then Err(HashMismatch)
      else
        match c.itemList(raw)
        case None => Err(BadTransaction)
        case Some(items) => KeepOwn(items, c)
  }

  // ----- the header

  /** The header of a submitted block; every block but number 0 needs its predecessor stored. */
  function ConstructHeader<S>(node: Node<S>, t: Tables, h: ZenithHeader): Result<Header, ExecutionError> {
    var parent := if h.sequence != 0 then Lookup(t.block, ToText(h.sequence - 1)) else None;
    if h.sequence >= TWO_64 || h.confirmBy >= TWO_64 then Err(BadHeader)
    else if h.sequence != 0 && parent.None? then Err(ParentNotFound)
    else
      var baseFee :=
        if h.sequence == 0 then Some(INITIAL_BASE_FEE) else node.nextBaseFee(parent.value.header, h.confirmBy);
      if baseFee.None? then Err(NoBaseFee)
      else if h.gasLimit >= TWO_64 then Err(BadHeader)
      else
        var parentHash := if parent.Some? then node.blockHash(parent.value.header) else 0;
        Ok(Header(parentHash, h.sequence, h.gasLimit, h.confirmBy, baseFee.value))
  }

  // ----- running the transactions

  /** `u64` arithmetic wraps around. */
  function Add64(a: U64, b: U64): U64 {
    (a + b) % TWO_64
  }

  function Sub64(a: U64, b: U64): U64 {
    (a - b) % TWO_64
  }

  datatype Executions<S> =
    Executions(state: S, executed: seq<Transaction>, receipts: seq<Receipt>, results: seq<ExecutionResult>)

  function ReceiptOf(tx: Transaction, r: ExecutionResult, cumulative: U64): Receipt {
    Receipt(tx.txType, r.success, cumulative, r.logs)
  }

  /** Run `txs` from state `s` when the block has used `used` gas already. */
  function Run<S>(transact: (S, Transaction) -> Outcome<S>, gasLimit: U64, used: U64, s: S, txs: seq<Transaction>)
    : Result<Executions<S>, ExecutionError>
    decreases |txs|
  {
    if txs == [] then Ok(Executions(s, [], [], []))
    else
      var tx, available := txs[0], Sub64(gasLimit, used);
      if tx.gasLimit > available then Err(GasLimitExceeded(tx.gasLimit, available))
      else
        match transact(s, tx)
        case Invalid => Run(transact, gasLimit, used, s, txs[1..])
        case Fatal => Err(DatabaseFailure)
        case Executed(result, s') =>
          var cumulative := Add64(used, result.gasUsed);
          match Run(transact, gasLimit, cumulative, s', txs[1..])
          case Err(e) => Err(e)
          case Ok(x) =>
            Ok(Executions(x.state, [tx] + x.executed, [ReceiptOf(tx, result, cumulative)] + x.receipts, [result] + x.results))
  }

  method ExecuteTransactions<S>(
    transact: (S, Transaction) -> Outcome<S>, gasLimit: U64, start: S, transactions: seq<Transaction>)
    returns (r: Result<Executions<S>, ExecutionError>, merged: bool)
    ensures r == Run(transact, gasLimit, 0, start, transactions)
    ensures r.Ok? ==> (merged <==> transactions != [])
  {
    merged := false;
    if transactions == [] {
      return Ok(Executions(start, [], [], [])), merged;
    }
    var x := Executions(start, [], [], []);
    var cumulativeGasUsed: U64 := 0;
    assert transactions[0..] == transactions;
    PrependNothing(start, Run(transact, gasLimit, 0, start, transactions));
    for i := 0 to |transactions|
      invariant Run(transact, gasLimit, 0, start, transactions)
             == Prepend(x, Run(transact, gasLimit, cumulativeGasUsed, x.state, transactions[i..]))
    {
      assert transactions[i..][1..] == transactions[i + 1..];
      var tx := transactions[i];
      var available := Sub64(gasLimit, cumulativeGasUsed);
      if tx.gasLimit > available {
        return Err(GasLimitExceeded(tx.gasLimit, available)), merged;
      }
      match transact(x.state, tx) {
        case Invalid =>
        case Fatal => return Err(DatabaseFailure), merged;
        case Executed(result, state) =>
          cumulativeGasUsed := Add64(cumulativeGasUsed, result.gasUsed);
          var receipt := ReceiptOf(tx, result, cumulativeGasUsed);
          PrependStep(x, state, tx, receipt, result, Run(transact, gasLimit, cumulativeGasUsed, state, transactions[i + 1..]));
          x := Executions(state, x.executed + [tx], x.receipts + [receipt], x.results + [result]);
      }
    }
    assert transactions[|transactions|..] == [];
    merged := true;
    r := Ok(x);
    assert x.executed + [] == x.executed && x.receipts + [] == x.receipts && x.results + [] == x.results;
  }

  /** The outcome of a run whose first part has already produced `x`. */
  function Prepend<S>(x: Executions<S>, rest: Result<Executions<S>, ExecutionError>): Result<Executions<S>, ExecutionError> {
    match rest
    case Err(e) => Err(e)
    case Ok(y) => Ok(Executions(y.state, x.executed + y.executed, x.receipts + y.receipts, x.results + y.results))
  }

  lemma PrependNothing<S>(s: S, rest: Result<Executions<S>, ExecutionError>)
    ensures Prepend(Executions(s, [], [], []), rest) == rest
  {
    if rest.Ok? {
      var y := rest.value;
      assert [] + y.executed == y.executed && [] + y.receipts == y.receipts && [] + y.results == y.results;
    }
  }

  lemma PrependStep<S>(
    x: Executions<S>, state: S, tx: Transaction, receipt: Receipt, result: ExecutionResult,
    rest: Result<Executions<S>, ExecutionError>)
    ensures Prepend(x, Prepend(Executions(state, [tx], [receipt], [result]), rest))
         == Prepend(Executions(state, x.executed + [tx], x.receipts + [receipt], x.results + [result]), rest)
  {
    if rest.Ok? {
      var y := rest.value;
      assert x.executed + ([tx] + y.executed) == x.executed + [tx] + y.executed;
      assert x.receipts + ([receipt] + y.receipts) == x.receipts + [receipt] + y.receipts;
      assert x.results + ([result] + y.results) == x.results + [result] + y.results;
    }
  }

  /** Execute a submitted block on top of the stored state. */
  function ExecuteBlock<S>(node: Node<S>, t: Tables, s: Submission): Result<(Block, Bundle), ExecutionError> {
    if s.header.rollupChainId != CHAIN_ID then Err(InvalidChainId)
    else
      match ConstructHeader(node, t, s.header)
      case Err(e) => Err(e)
      case Ok(header) =>
        match DecodeTransactions(s, node.codecs)
        case Err(e) => Err(e)
        case Ok(txs) =>
          match Run(node.transact, header.gasLimit, 0, node.open(t, header), txs)
          case Err(e) => Err(e)
          case Ok(x) => Ok((Block(header, Encodings(x.executed)), node.bundle(x.state, txs != [])))
  }

  function Encodings(txs: seq<Transaction>): seq<Bytes> {
    seq(|txs|, i requires 0 <= i < |txs| => txs[i].encoded)
  }

  // ----- what one more transaction does

  /** The gas used after some receipts. */
  function GasAfter(used: U64, receipts: seq<Receipt>): U64 {
    if receipts == [] then used else Last(receipts).cumulativeGasUsed
  }

  /**
   One more transaction: it must fit into the gas left over, it is skipped exactly when the
   EVM finds it invalid in the state reached, and otherwise its state, receipt and result count.
   */
  lemma {:induction false} OneMore<S>(
    transact: (S, Transaction) -> Outcome<S>, gasLimit: U64, used: U64, s: S, txs: seq<Transaction>, tx: Transaction)
    requires Run(transact, gasLimit, used, s, txs).Ok?
    ensures var x := Run(transact, gasLimit, used, s, txs).value;
      var available := Sub64(gasLimit, GasAfter(used, x.receipts));
      Run(transact, gasLimit, used, s, txs + [tx]) ==
        if tx.gasLimit > available then Err(GasLimitExceeded(tx.gasLimit, available))
        else match transact(x.state, tx)
             case Invalid => Ok(x)
             case Fatal => Err(DatabaseFailure)
             case Executed(result, s') =>
               var cumulative := Add64(GasAfter(used, x.receipts), result.gasUsed);
               var receipt := Receipt(tx.txType, result.success, cumulative, result.logs);
               Ok(Executions(s', x.executed + [tx], x.receipts + [receipt], x.results + [result]))
    decreases |txs|
  {
    if txs == [] {
      assert txs + [tx] == [tx] && [tx][1..] == [];
      if transact(s, tx).Executed? {
        var result := transact(s, tx).result;
        var cumulative := Add64(used, result.gasUsed);
        var none := Executions(transact(s, tx).state, [], [], []);
        assert Run(transact, gasLimit, cumulative, none.state, []) == Ok(none);
        assert [tx] + none.executed == none.executed + [tx];
        assert [result] + none.results == none.results + [result];
        var receipt := ReceiptOf(tx, result, cumulative);
        assert [receipt] + none.receipts == none.receipts + [receipt];
      }
    } else {
      assert (txs + [tx])[1..] == txs[1..] + [tx];
      match transact(s, txs[0]) {
        case Invalid => OneMore(transact, gasLimit, used, s, txs[1..], tx);
        case Executed(result, s') =>
          var cumulative := Add64(used, result.gasUsed);
          OneMore(transact, gasLimit, cumulative, s', txs[1..], tx);
          var x := Run(transact, gasLimit, used, s, txs).value;
          var y := Run(transact, gasLimit, cumulative, s', txs[1..]).value;
          var receipt := ReceiptOf(txs[0], result, cumulative);
          assert GasAfter(used, x.receipts) == GasAfter(cumulative, y.receipts);
          assert forall a :: [txs[0]] + (y.executed + [a]) == x.executed + [a];
          assert forall a :: [receipt] + (y.receipts + [a]) == x.receipts + [a];
          assert forall a :: [result] + (y.results + [a]) == x.results + [a];
      }
    }
  }

  // ----- replay

  /**
   Running only the executed transactions again, from the same state, skips nothing and gives
   the same state, receipts and results.
   */
  lemma {:induction false} Replay<S>(
    transact: (S, Transaction) -> Outcome<S>, gasLimit: U64, used: U64, s: S, txs: seq<Transaction>)
    requires Run(transact, gasLimit, used, s, txs).Ok?
    ensures var x := Run(transact, gasLimit, used, s, txs).value;
      Run(transact, gasLimit, used, s, x.executed) == Ok(x)
    decreases |txs|
  {
    if txs == [] {
    } else {
      match transact(s, txs[0]) {
        case Invalid => Replay(transact, gasLimit, used, s, txs[1..]);
        case Executed(result, s') =>
          var cumulative := Add64(used, result.gasUsed);
          Replay(transact, gasLimit, cumulative, s', txs[1..]);
          var x := Run(transact, gasLimit, used, s, txs).value;
          assert x.executed[1..] == Run(transact, gasLimit, cumulative, s', txs[1..]).value.executed;
      }
    }
  }

  // ----- gas accounting

  /** No transaction uses more gas than its limit. */
  ghost predicate GasBounded<S(!new)>(transact: (S, Transaction) -> Outcome<S>) {
    forall s: S, tx: Transaction :: transact(s, tx).Executed? ==> transact(s, tx).result.gasUsed <= tx.gasLimit
  }

  function GasUsed(results: seq<ExecutionResult>): nat {
    if results == [] then 0 else results[0].gasUsed + GasUsed(results[1..])
  }

  /** `a` is `b` with some elements left out. */
  predicate IsSubsequence<T(==)>(a: seq<T>, b: seq<T>) {
    if a == [] then true
    else b != [] && ((a[0] == b[0] && IsSubsequence(a[1..], b[1..])) || IsSubsequence(a, b[1..]))
  }

  /** Receipt `i` tells the type of transaction `i`, and whether it succeeded and what it logged. */
  predicate Aligned<S>(x: Executions<S>) {
    && |x.executed| == |x.receipts| == |x.results|
    && forall i :: 0 <= i < |x.receipts| ==>
         && x.receipts[i].txType == x.executed[i].txType
         && x.receipts[i].success == x.results[i].success && x.receipts[i].logs == x.results[i].logs
  }

  /** Executed transactions are a subsequence of the submitted ones, with one receipt and one result each. */
  lemma {:induction false} ExecutedInOrder<S>(
    transact: (S, Transaction) -> Outcome<S>, gasLimit: U64, used: U64, s: S, txs: seq<Transaction>)
    requires Run(transact, gasLimit, used, s, txs).Ok?
    ensures Aligned(Run(transact, gasLimit, used, s, txs).value)
    ensures IsSubsequence(Run(transact, gasLimit, used, s, txs).value.executed, txs)
    decreases |txs|
  {
    if txs == [] {
    } else {
      match transact(s, txs[0]) {
        case Invalid =>
          ExecutedInOrder(transact, gasLimit, used, s, txs[1..]);
        case Executed(result, s') =>
          ExecutedInOrder(transact, gasLimit, Add64(used, result.gasUsed), s', txs[1..]);
          var x := Run(transact, gasLimit, used, s, txs).value;
          var y := Run(transact, gasLimit, Add64(used, result.gasUsed), s', txs[1..]).value;
          assert x.executed[1..] == y.executed;
      }
    }
  }

  /** Every receipt's cumulative gas is the exact sum so far, and stays within the limit. */
  predicate ExactGas<S>(x: Executions<S>, used: nat, gasLimit: nat) {
    && |x.receipts| == |x.results|
    && (forall i :: 0 <= i < |x.receipts| ==>
          x.receipts[i].cumulativeGasUsed == used + GasUsed(x.results[..i + 1]) <= gasLimit)
    && used + GasUsed(x.results) <= gasLimit
  }

  lemma PrependExactGas<S>(
    s: S, tx: Transaction, receipt: Receipt, result: ExecutionResult, y: Executions<S>, used: nat, gasLimit: nat)
    requires receipt.cumulativeGasUsed == used + result.gasUsed <= gasLimit
    requires ExactGas(y, used + result.gasUsed, gasLimit)
    ensures ExactGas(Executions(s, [tx] + y.executed, [receipt] + y.receipts, [result] + y.results), used, gasLimit)
  {
    var receipts, results := [receipt] + y.receipts, [result] + y.results;
    var x := Executions(s, [tx] + y.executed, receipts, results);
    GasUsedPrepend(result, y.results);
    forall i | 0 <= i < |x.receipts|
      ensures x.receipts[i].cumulativeGasUsed == used + GasUsed(x.results[..i + 1]) <= gasLimit
    {
      assert results[..i + 1] == [result] + y.results[..i];
      GasUsedPrepend(result, y.results[..i]);
      if i == 0 {
        assert y.results[..0] == [];
      } else {
        assert receipts[i] == y.receipts[i - 1];
        assert y.receipts[i - 1].cumulativeGasUsed == used + result.gasUsed + GasUsed(y.results[..i - 1 + 1]);
      }
    }
  }

  lemma GasUsedPrepend(result: ExecutionResult, results: seq<ExecutionResult>)
    ensures GasUsed([result] + results) == result.gasUsed + GasUsed(results)
  {
    assert ([result] + results)[1..] == results;
  }

  /**
   If no transaction uses more than its gas limit, every receipt's cumulative gas is the exact
   sum of the gas used so far, within the block's limit.
   */
  lemma {:induction false} GasAccounting<S(!new)>(
    transact: (S, Transaction) -> Outcome<S>, gasLimit: U64, used: U64, s: S, txs: seq<Transaction>)
    requires GasBounded(transact) && used <= gasLimit && Run(transact, gasLimit, used, s, txs).Ok?
    ensures ExactGas(Run(transact, gasLimit, used, s, txs).value, used, gasLimit)
    decreases |txs|
  {
    if txs == [] {
    } else {
      var tx := txs[0];
      match transact(s, tx) {
        case Invalid =>
          GasAccounting(transact, gasLimit, used, s, txs[1..]);
        case Executed(result, s') =>
          var cumulative := used + result.gasUsed;
          GasAccounting(transact, gasLimit, cumulative, s', txs[1..]);
          var y := Run(transact, gasLimit, cumulative, s', txs[1..]).value;
          PrependExactGas(y.state, tx, ReceiptOf(tx, result, cumulative), result, y, used, gasLimit);
      }
    }
  }

  /** The subtraction of a transaction's available gas never wraps. */
  lemma {:induction false} GasNeverUnderflows<S(!new)>(
    transact: (S, Transaction) -> Outcome<S>, gasLimit: U64, s: S, txs: seq<Transaction>, k: nat)
    requires GasBounded(transact) && k < |txs| && Run(transact, gasLimit, 0, s, txs[..k]).Ok?
    ensures var used := GasUsed(Run(transact, gasLimit, 0, s, txs[..k]).value.results);
      used <= gasLimit && Sub64(gasLimit, used) == gasLimit - used
  {
    GasAccounting(transact, gasLimit, 0, s, txs[..k]);
  }
}
