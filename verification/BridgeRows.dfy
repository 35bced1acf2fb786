/** What the index of bridged ETH holds, log by log and column by column. */
module BridgeRows {
  import opened Prelude
  import opened ChainEvents
  import opened EventOrder
  import opened BridgeIndex

  /**
   The log at `p` comes from a bridge, in transaction `h`, and is a deposit (or a withdrawal)
   from the sender of the row to its recipient; the row has its block, its contract and its amount.
   */
  predicate Bridges(chain: BridgeChain, decode: Log -> Option<BridgeEvent>, p: Position, deposit: bool, h: TxHash, row: Row) {
    && HasLog(chain, p)
    && chain[p.block].transactions[p.receipt] == h && chain[p.block].number == row.blockNumber
    && LogAt(chain, p).address in OP_BRIDGES && LogAt(chain, p).address == row.contract
    && decode(LogAt(chain, p)) == Some(
         if deposit then EthBridgeInitiated(row.sender, row.recipient, row.amount)
         else EthBridgeFinalized(row.sender, row.recipient, row.amount))
  }

  /** Some log of the chain bridges the row. */
  ghost predicate Bridged(chain: BridgeChain, decode: Log -> Option<BridgeEvent>, deposit: bool, h: TxHash, row: Row) {
    exists p :: Bridges(chain, decode, p, deposit, h, row)
  }

  function KindOf(deposit: bool): Kind {
    if deposit then Deposit else Withdrawal
  }

  lemma {:induction false} ListedEntry(fs: seq<BridgeFound>, e: Entry)
    ensures e in EntriesOf(fs) <==> exists k :: 0 <= k < |fs| && EntryOf(fs[k]) == Some(e)
  {
    if fs != [] {
      ListedEntry(fs[1..], e);
      if k :| 0 <= k < |fs| && EntryOf(fs[k]) == Some(e) {
        if k > 0 { assert fs[1..][k - 1] == fs[k]; }
      }
      if k :| 0 <= k < |fs[1..]| && EntryOf(fs[1..][k]) == Some(e) { assert fs[k + 1] == fs[1..][k]; }
    }
  }

  /** The row of an event found at `p`. */
  lemma EntryAt(chain: BridgeChain, decode: Log -> Option<BridgeEvent>, p: Position, f: BridgeFound, deposit: bool, h: TxHash, row: Row)
    requires IsEvent(chain, OP_BRIDGES, decode, p) && FoundAt(chain, decode, p, f)
    ensures EntryOf(f) == Some(Entry(KindOf(deposit), h, row)) <==> Bridges(chain, decode, p, deposit, h, row)
  {
  }

  /** A chain has exactly the rows that its logs bridge. */
  lemma RowsExactly(chain: BridgeChain, decode: Log -> Option<BridgeEvent>, deposit: bool, h: TxHash, row: Row)
    ensures Entry(KindOf(deposit), h, row) in Entries(chain, decode) <==> Bridged(chain, decode, deposit, h, row)
  {
    var at, fs := FromBlock(chain, OP_BRIDGES, decode, 0), Decode(chain, OP_BRIDGES, decode);
    var e := Entry(KindOf(deposit), h, row);
    DecodeInOrder(chain, OP_BRIDGES, decode);
    ListedEntry(fs, e);
    if k :| 0 <= k < |fs| && EntryOf(fs[k]) == Some(e) {
      assert at[k] in at;
      EntryAt(chain, decode, at[k], fs[k], deposit, h, row);
    }
    if p :| Bridges(chain, decode, p, deposit, h, row) {
      assert p in at;
      var k :| 0 <= k < |at| && at[k] == p;
      EntryAt(chain, decode, p, fs[k], deposit, h, row);
    }
  }

  // ----- no transaction twice

  /** No transaction bridges twice in the same direction. */
  ghost predicate BridgesOnce(chain: BridgeChain, decode: Log -> Option<BridgeEvent>) {
    forall p, q, deposit, h, row, row' ::
      Bridges(chain, decode, p, deposit, h, row) && Bridges(chain, decode, q, deposit, h, row') ==> p == q
  }

  /** The events at two places have entries of one kind and transaction. */
  predicate SameKey(f: BridgeFound, g: BridgeFound) {
    && EntryOf(f).Some? && EntryOf(g).Some?
    && EntryOf(f).value.kind == EntryOf(g).value.kind && EntryOf(f).value.txHash == EntryOf(g).value.txHash
  }

  predicate NoneLike(f: BridgeFound, fs: seq<BridgeFound>) {
    forall k :: 0 <= k < |fs| ==> !SameKey(f, fs[k])
  }

  predicate NoRepeats(fs: seq<BridgeFound>) {
    forall j, k :: 0 <= j < k < |fs| ==> !SameKey(fs[j], fs[k])
  }

  lemma NoRepeatsSplit(fs: seq<BridgeFound>)
    requires fs != []
    ensures NoRepeats(fs) <==> NoneLike(fs[0], fs[1..]) && NoRepeats(fs[1..])
  {
    var rest := fs[1..];
    assert forall k :: 1 <= k < |fs| ==> fs[k] == rest[k - 1];
    if NoRepeats(fs) {
      forall k | 0 <= k < |rest| ensures !SameKey(fs[0], rest[k]) { assert rest[k] == fs[k + 1]; }
      forall j, k | 0 <= j < k < |rest| ensures !SameKey(rest[j], rest[k]) {
        assert rest[j] == fs[j + 1] && rest[k] == fs[k + 1];
      }
    }
  }

  /** No entry of the list has the key. */
  predicate KeyFree(e: Entry, entries: seq<Entry>) {
    forall i :: 0 <= i < |entries| ==> entries[i].kind != e.kind || entries[i].txHash != e.txHash
  }

  lemma {:induction false} FreeExactly(f: BridgeFound, fs: seq<BridgeFound>)
    requires EntryOf(f).Some?
    ensures NoneLike(f, fs) <==> KeyFree(EntryOf(f).value, EntriesOf(fs))
  {
    if fs != [] {
      var rest := fs[1..];
      FreeExactly(f, rest);
      assert NoneLike(f, fs) <==> !SameKey(f, fs[0]) && NoneLike(f, rest) by {
        assert forall k :: 1 <= k < |fs| ==> fs[k] == rest[k - 1];
        assert forall k :: 0 <= k < |rest| ==> rest[k] == fs[k + 1];
      }
      if EntryOf(fs[0]).Some? {
        FreePrepend(EntryOf(f).value, EntryOf(fs[0]).value, EntriesOf(rest));
      } else {
        assert EntriesOf(fs) == EntriesOf(rest);
      }
    }
  }

  lemma FreePrepend(e: Entry, first: Entry, rest: seq<Entry>)
    ensures KeyFree(e, [first] + rest) <==> (first.kind != e.kind || first.txHash != e.txHash) && KeyFree(e, rest)
  {
    var all := [first] + rest;
    if KeyFree(e, all) {
      assert all[0] == first;
      forall i | 0 <= i < |rest| ensures rest[i].kind != e.kind || rest[i].txHash != e.txHash {
        assert all[i + 1] == rest[i];
      }
    }
  }

  lemma {:induction false} DistinctEvents(fs: seq<BridgeFound>)
    ensures DistinctKeys(EntriesOf(fs)) <==> NoRepeats(fs)
  {
    if fs != [] {
      var rest := EntriesOf(fs[1..]);
      DistinctEvents(fs[1..]);
      NoRepeatsSplit(fs);
      if EntryOf(fs[0]).Some? {
        assert EntriesOf(fs) == [EntryOf(fs[0]).value] + rest;
        DistinctPrepend(EntryOf(fs[0]).value, rest);
        FreeExactly(fs[0], fs[1..]);
      } else {
        assert EntriesOf(fs) == rest;
        assert NoneLike(fs[0], fs[1..]);
      }
    }
  }

  lemma DistinctPrepend(e: Entry, rest: seq<Entry>)
    ensures DistinctKeys([e] + rest) <==> DistinctKeys(rest) && KeyFree(e, rest)
  {
    var all := [e] + rest;
    if DistinctKeys(all) {
      forall i, j | 0 <= i < j < |rest| ensures rest[i].kind != rest[j].kind || rest[i].txHash != rest[j].txHash {
        assert all[i + 1] == rest[i] && all[j + 1] == rest[j];
      }
      forall i | 0 <= i < |rest| ensures rest[i].kind != e.kind || rest[i].txHash != e.txHash {
        assert all[0] == e && all[i + 1] == rest[i];
      }
    }
  }

  /** The rows of a chain have distinct keys exactly when no transaction bridges twice in one direction. */
  lemma OnceExactly(chain: BridgeChain, decode: Log -> Option<BridgeEvent>)
    ensures DistinctKeys(Entries(chain, decode)) <==> BridgesOnce(chain, decode)
  {
    DistinctEvents(Decode(chain, OP_BRIDGES, decode));
    if DistinctKeys(Entries(chain, decode)) { DistinctMeansOnce(chain, decode); }
    if BridgesOnce(chain, decode) { OnceMeansDistinct(chain, decode); }
  }

  /** The places of two logs that bridge, and the keys found there. */
  lemma FoundKeys(
    chain: BridgeChain, decode: Log -> Option<BridgeEvent>, p: Position, q: Position, deposit: bool, h: TxHash, row: Row, row': Row)
    returns (j: nat, k: nat)
    requires Bridges(chain, decode, p, deposit, h, row) && Bridges(chain, decode, q, deposit, h, row')
    ensures var at, fs := FromBlock(chain, OP_BRIDGES, decode, 0), Decode(chain, OP_BRIDGES, decode);
      && j < |at| == |fs| && at[j] == p && k < |at| && at[k] == q
      && SameKey(fs[j], fs[k]) && SameKey(fs[k], fs[j])
  {
    var at, fs := FromBlock(chain, OP_BRIDGES, decode, 0), Decode(chain, OP_BRIDGES, decode);
    DecodeInOrder(chain, OP_BRIDGES, decode);
    assert p in at && q in at;
    j :| 0 <= j < |at| && at[j] == p;
    k :| 0 <= k < |at| && at[k] == q;
    EntryAt(chain, decode, p, fs[j], deposit, h, row);
    EntryAt(chain, decode, q, fs[k], deposit, h, row');
  }

  lemma DistinctMeansOnce(chain: BridgeChain, decode: Log -> Option<BridgeEvent>)
    requires NoRepeats(Decode(chain, OP_BRIDGES, decode))
    ensures BridgesOnce(chain, decode)
  {
    forall p, q, deposit, h, row, row' |
      Bridges(chain, decode, p, deposit, h, row) && Bridges(chain, decode, q, deposit, h, row')
      ensures p == q
    {
      var j, k := FoundKeys(chain, decode, p, q, deposit, h, row, row');
    }
  }

  /** Events at two places with the same key are two logs that bridge it. */
  lemma RepeatBridges(chain: BridgeChain, decode: Log -> Option<BridgeEvent>, j: nat, k: nat)
    requires BridgesOnce(chain, decode)
    requires var fs := Decode(chain, OP_BRIDGES, decode); j < |fs| && k < |fs| && SameKey(fs[j], fs[k])
    ensures var at := FromBlock(chain, OP_BRIDGES, decode, 0); |at| == |Decode(chain, OP_BRIDGES, decode)| && at[j] == at[k]
  {
    var at, fs := FromBlock(chain, OP_BRIDGES, decode, 0), Decode(chain, OP_BRIDGES, decode);
    DecodeInOrder(chain, OP_BRIDGES, decode);
    var e, e' := EntryOf(fs[j]).value, EntryOf(fs[k]).value;
    assert at[j] in at && at[k] in at;
    EntryAt(chain, decode, at[j], fs[j], e.kind.Deposit?, e.txHash, e.row);
    EntryAt(chain, decode, at[k], fs[k], e.kind.Deposit?, e.txHash, e'.row);
  }

  lemma OnceMeansDistinct(chain: BridgeChain, decode: Log -> Option<BridgeEvent>)
    requires BridgesOnce(chain, decode)
    ensures NoRepeats(Decode(chain, OP_BRIDGES, decode))
  {
    var at, fs := FromBlock(chain, OP_BRIDGES, decode, 0), Decode(chain, OP_BRIDGES, decode);
    DecodeInOrder(chain, OP_BRIDGES, decode);
    forall j, k | 0 <= j < k < |fs| ensures !SameKey(fs[j], fs[k]) {
      assert Before(at[j], at[k]);
      if SameKey(fs[j], fs[k]) { RepeatBridges(chain, decode, j, k); }
    }
  }

  // ----- whole runs

  /** On every chain the run leads to no transaction bridges twice in one direction. */
  ghost predicate OnceThroughout(chain: BridgeChain, ns: seq<Notification>, decode: Log -> Option<BridgeEvent>)
    requires FittingRun(chain, ns)
    decreases |ns|
  {
    ns != [] ==> BridgesOnce(NextChain(chain, ns[0]), decode) && OnceThroughout(NextChain(chain, ns[0]), ns[1..], decode)
  }

  lemma {:induction false} OnceThroughoutExactly(chain: BridgeChain, ns: seq<Notification>, decode: Log -> Option<BridgeEvent>)
    requires FittingRun(chain, ns)
    ensures DistinctRun(chain, ns, decode) <==> OnceThroughout(chain, ns, decode)
    decreases |ns|
  {
    if ns != [] {
      OnceExactly(NextChain(chain, ns[0]), decode);
      OnceThroughoutExactly(NextChain(chain, ns[0]), ns[1..], decode);
    }
  }

  lemma HeldRows(t: Index, entries: seq<Entry>, deposit: bool, h: TxHash, row: Row)
    requires Holds(t, entries)
    ensures Lookup(if deposit then t.deposits else t.withdrawals, h) == Some(row) <==> Entry(KindOf(deposit), h, row) in entries
  {
    var e := Entry(KindOf(deposit), h, row);
    assert TableOf(t, e.kind) == if deposit then t.deposits else t.withdrawals;
    if e in entries {
      var i :| 0 <= i < |entries| && entries[i] == e;
    }
  }

  /**
   From an empty index, over any run of commits, reorgs and reverts of suffixes: no insert
   fails exactly if on every canonical chain on the way no transaction bridges twice in one
   direction; and then the table of deposits has a row under a transaction exactly if a log of
   the canonical chain bridges it in, and the table of withdrawals if one bridges it out.
   */
  lemma TablesFollowLogs(ns: seq<Notification>, decode: Log -> Option<BridgeEvent>, h: TxHash, row: Row)
    requires FittingRun([], ns)
    ensures var (t, ok) := NotifyAll(Index(map[], map[]), ns, decode);
      && (ok <==> OnceThroughout([], ns, decode))
      && (ok ==>
            && (Lookup(t.deposits, h) == Some(row) <==> Bridged(FinalChain([], ns), decode, true, h, row))
            && (Lookup(t.withdrawals, h) == Some(row) <==> Bridged(FinalChain([], ns), decode, false, h, row)))
  {
    var (t, ok) := NotifyAll(EMPTY_INDEX, ns, decode);
    var chain := FinalChain([], ns);
    IndexFollowsChain(EMPTY_INDEX, [], ns, decode);
    OnceThroughoutExactly([], ns, decode);
    RowsExactly(chain, decode, true, h, row);
    RowsExactly(chain, decode, false, h, row);
    if ok {
      HeldRows(t, Entries(chain, decode), true, h, row);
      HeldRows(t, Entries(chain, decode), false, h, row);
    }
  }
}
