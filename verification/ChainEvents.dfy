/** Flattening a chain of blocks and receipts into the contract events an ExEx acts on. */
module ChainEvents {
  import opened Prelude
  import opened Tables

  datatype Log = Log(address: Address, data: Bytes)

  /** A block with the logs of each receipt; `T` is what an ExEx needs of a transaction. */
  datatype ChainBlock<T> = ChainBlock(number: U64, transactions: seq<T>, receipts: seq<seq<Log>>)

  /** An event with the block, the transaction and the log it was found in. */
  datatype Found<T, E> = Found(block: ChainBlock<T>, tx: T, log: Log, event: E)

  /** The logs of the watched contracts that decode, in order. */
  function LogEvents<T, E>(block: ChainBlock<T>, tx: T, logs: seq<Log>, watched: set<Address>, decode: Log -> Option<E>)
    : seq<Found<T, E>>
  {
    if logs == [] then []
    else
      (if logs[0].address in watched && decode(logs[0]).Some?
       then [Found(block, tx, logs[0], decode(logs[0]).value)] else [])
      + LogEvents(block, tx, logs[1..], watched, decode)
  }

  /** Transactions zipped with receipts; the longer list is cut off. */
  function TxEvents<T, E>(
    block: ChainBlock<T>, txs: seq<T>, receipts: seq<seq<Log>>, watched: set<Address>, decode: Log -> Option<E>)
    : seq<Found<T, E>>
  {
    if txs == [] || receipts == [] then []
    else LogEvents(block, txs[0], receipts[0], watched, decode) + TxEvents(block, txs[1..], receipts[1..], watched, decode)
  }

  function Decode<T, E>(chain: seq<ChainBlock<T>>, watched: set<Address>, decode: Log -> Option<E>): seq<Found<T, E>> {
    if chain == [] then []
    else
      TxEvents(chain[0], chain[0].transactions, chain[0].receipts, watched, decode) + Decode(chain[1..], watched, decode)
  }

  /** Events of a longer chain are the events of its parts, in order. */
  lemma {:induction false} DecodeAppend<T, E>(
    a: seq<ChainBlock<T>>, b: seq<ChainBlock<T>>, watched: set<Address>, decode: Log -> Option<E>)
    ensures Decode(a + b, watched, decode) == Decode(a, watched, decode) + Decode(b, watched, decode)
  {
    if a == [] {
      assert a + b == b;
    } else {
      assert (a + b)[1..] == a[1..] + b;
      DecodeAppend(a[1..], b, watched, decode);
    }
  }
}
