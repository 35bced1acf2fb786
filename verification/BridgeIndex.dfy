/** The index of ETH bridged over the OP Stack bridges: two tables that follow the canonical chain. */
module BridgeIndex {
  import opened Prelude
  import opened ChainEvents

  const OP_BRIDGES: set<nat> := {
    0x3154Cf16ccdb4C6d922629664174b904d80F2C35,
    0x3a05E5d33d7Ab3864D53aaEc93c8301C1Fa49115,
    0x697402166Fbf2F22E970df8a6486Ef171dbfc524,
    0x99C9fc46f92E8a1c0deC1b1747d010903E884bE1,
    0x735aDBbE72226BD52e818E7181953f42E3b0FF21,
    0x3B95bC951EE0f553ba487327278cAc44f29715E5}

  type TxHash = U256

  datatype BridgeEvent =
    | EthBridgeInitiated(sender: nat, recipient: nat, amount: U256)
    | EthBridgeFinalized(sender: nat, recipient: nat, amount: U256)
    | OtherBridgeEvent

  datatype Row = Row(blockNumber: U64, contract: nat, sender: nat, recipient: nat, amount: U256)

  datatype Kind = Deposit | Withdrawal

  /** A row with the table and the UNIQUE transaction hash it goes under. */
  datatype Entry = Entry(kind: Kind, txHash: TxHash, row: Row)

  datatype Index = Index(deposits: map<TxHash, Row>, withdrawals: map<TxHash, Row>)

  type BridgeChain = seq<ChainBlock<TxHash>>

  type BridgeFound = Found<TxHash, BridgeEvent>

  const EMPTY_INDEX := Index(map[], map[])

  /** The row an event stands for; other events are skipped. */
  function EntryOf(f: BridgeFound): Option<Entry> {
    match f.event
    case EthBridgeInitiated(s, r, amount) => Some(Entry(Deposit, f.tx, Row(f.block.number, f.log.address, s, r, amount)))
    case EthBridgeFinalized(s, r, amount) => Some(Entry(Withdrawal, f.tx, Row(f.block.number, f.log.address, s, r, amount)))
    case OtherBridgeEvent => None
  }

  function EntriesOf(found: seq<BridgeFound>): seq<Entry> {
    if found == [] then []
    else (if EntryOf(found[0]).Some? then [EntryOf(found[0]).value] else []) + EntriesOf(found[1..])
  }

  /** The rows of a chain, in chain order. */
  function Entries(chain: BridgeChain, decode: Log -> Option<BridgeEvent>): seq<Entry> {
    EntriesOf(Decode(chain, OP_BRIDGES, decode))
  }

  function TableOf(t: Index, k: Kind): map<TxHash, Row> {
    if k.Deposit? then t.deposits else t.withdrawals
  }

  function WithTable(t: Index, k: Kind, m: map<TxHash, Row>): Index {
    if k.Deposit? then t.(deposits := m) else t.(withdrawals := m)
  }

  // ----- inserting and deleting

  /** Insert rows until one violates its UNIQUE constraint; the rows before it stay. */
  function InsertAll(t: Index, entries: seq<Entry>): (Index, bool)
    decreases |entries|
  {
    if entries == [] then (t, true)
    else if entries[0].txHash in TableOf(t, entries[0].kind) then (t, false)
    else InsertAll(InsertOne(t, entries[0]), entries[1..])
  }

  function InsertOne(t: Index, e: Entry): Index {
    WithTable(t, e.kind, TableOf(t, e.kind)[e.txHash := e.row])
  }

  function DeleteAll(t: Index, entries: seq<Entry>): Index
    decreases |entries|
  {
    if entries == [] then t
    else DeleteAll(WithTable(t, entries[0].kind, TableOf(t, entries[0].kind) - {entries[0].txHash}), entries[1..])
  }

  datatype Notification = Notification(reverted: Option<BridgeChain>, committed: Option<BridgeChain>)

  /** One notification; `false` when an insert failed, which ends the ExEx. */
  function Notify(t: Index, n: Notification, decode: Log -> Option<BridgeEvent>): (Index, bool) {
    var reverted := if n.reverted.Some? then DeleteAll(t, Entries(n.reverted.value, decode)) else t;
    if n.committed.Some? then InsertAll(reverted, Entries(n.committed.value, decode)) else (reverted, true)
  }

  class BridgeExEx {
    const decode: Log -> Option<BridgeEvent>
    var deposits: map<TxHash, Row>
    var withdrawals: map<TxHash, Row>

    constructor (decode: Log -> Option<BridgeEvent>)
      ensures this.decode == decode && View() == EMPTY_INDEX
    {
      this.decode := decode;
      deposits, withdrawals := map[], map[];
    }

    ghost function View(): Index
      reads this
    {
      Index(deposits, withdrawals)
    }

    method RevertChain(chain: BridgeChain)
      modifies this
      ensures View() == DeleteAll(old(View()), Entries(chain, decode))
    {
      var events := Decode(chain, OP_BRIDGES, decode);
      assert events[0..] == events;
      for i := 0 to |events|
        invariant DeleteAll(old(View()), EntriesOf(events)) == DeleteAll(View(), EntriesOf(events[i..]))
      {
        EntriesStep(events, i);
        var f := events[i];
        match f.event {
          case EthBridgeInitiated(_, _, _) => deposits := deposits - {f.tx};
          case EthBridgeFinalized(_, _, _) => withdrawals := withdrawals - {f.tx};
          case OtherBridgeEvent =>
        }
      }
      assert events[|events|..] == [];
    }

    method CommitChain(chain: BridgeChain) returns (ok: bool)
      modifies this
      ensures (View(), ok) == InsertAll(old(View()), Entries(chain, decode))
    {
      var events := Decode(chain, OP_BRIDGES, decode);
      assert events[0..] == events;
      for i := 0 to |events|
        invariant InsertAll(old(View()), EntriesOf(events)) == InsertAll(View(), EntriesOf(events[i..]))
      {
        EntriesStep(events, i);
        var f := events[i];
        match f.event {
          case EthBridgeInitiated(sender, recipient, amount) =>
            if f.tx in deposits { return false; }
            deposits := deposits[f.tx := Row(f.block.number, f.log.address, sender, recipient, amount)];
          case EthBridgeFinalized(sender, recipient, amount) =>
            if f.tx in withdrawals { return false; }
            withdrawals := withdrawals[f.tx := Row(f.block.number, f.log.address, sender, recipient, amount)];
          case OtherBridgeEvent =>
        }
      }
      assert events[|events|..] == [];
      ok := true;
    }

    method HandleNotification(n: Notification) returns (ok: bool)
      modifies this
      ensures (View(), ok) == Notify(old(View()), n, decode)
    {
      if n.reverted.Some? { RevertChain(n.reverted.value); }
      ok := true;
      if n.committed.Some? { ok := CommitChain(n.committed.value); }
    }
  }

  lemma EntriesStep(events: seq<BridgeFound>, i: nat)
    requires i < |events|
    ensures var e := EntryOf(events[i]);
      EntriesOf(events[i..]) == if e.Some? then [e.value] + EntriesOf(events[i + 1..]) else EntriesOf(events[i + 1..])
    ensures EntryOf(events[i]).Some? ==>
      EntriesOf(events[i..])[0] == EntryOf(events[i]).value && EntriesOf(events[i..])[1..] == EntriesOf(events[i + 1..])
  {
    assert events[i..][0] == events[i] && events[i..][1..] == events[i + 1..];
  }

  // ----- the index a chain stands for

  /** No table lists the same transaction twice. */
  predicate DistinctKeys(entries: seq<Entry>) {
    forall i, j :: 0 <= i < j < |entries| ==> entries[i].kind != entries[j].kind || entries[i].txHash != entries[j].txHash
  }

  /** The tables hold exactly the rows of `entries`. */
  ghost predicate Holds(t: Index, entries: seq<Entry>) {
    && (forall k, h :: h in TableOf(t, k) ==> Entry(k, h, TableOf(t, k)[h]) in entries)
    && (forall i :: 0 <= i < |entries| ==>
          entries[i].txHash in TableOf(t, entries[i].kind) && TableOf(t, entries[i].kind)[entries[i].txHash] == entries[i].row)
  }

  lemma HoldsOne(t: Index, a: seq<Entry>, e: Entry)
    requires Holds(t, a) && e.txHash !in TableOf(t, e.kind)
    ensures Holds(InsertOne(t, e), a + [e])
  {
    var t' := InsertOne(t, e);
    forall k, h | h in TableOf(t', k) ensures Entry(k, h, TableOf(t', k)[h]) in a + [e] {
      if !(k == e.kind && h == e.txHash) { assert Entry(k, h, TableOf(t, k)[h]) in a; }
    }
  }

  lemma RepeatedKey(t: Index, a: seq<Entry>, e: Entry, b: seq<Entry>)
    requires Holds(t, a) && e.txHash in TableOf(t, e.kind)
    ensures !DistinctKeys(a + [e] + b)
  {
    var seen := Entry(e.kind, e.txHash, TableOf(t, e.kind)[e.txHash]);
    var i :| 0 <= i < |a| && a[i] == seen;
    assert (a + [e] + b)[i] == seen && (a + [e] + b)[|a|] == e;
  }

  /** Inserting `b` after `a` meets no UNIQUE violation exactly when no key occurs twice, and then both are held. */
  lemma {:induction false} InsertExactly(t: Index, a: seq<Entry>, b: seq<Entry>)
    requires Holds(t, a) && DistinctKeys(a)
    ensures var (t', ok) := InsertAll(t, b);
      && (ok <==> DistinctKeys(a + b))
      && (ok ==> Holds(t', a + b))
    decreases |b|
  {
    if b == [] {
      assert a + b == a;
    } else {
      var e := b[0];
      assert a + b == a + [e] + b[1..];
      if e.txHash in TableOf(t, e.kind) {
        RepeatedKey(t, a, e, b[1..]);
      } else {
        HoldsOne(t, a, e);
        FreshKeyStaysDistinct(t, a, e);
        InsertExactly(InsertOne(t, e), a + [e], b[1..]);
      }
    }
  }

  lemma FreshKeyStaysDistinct(t: Index, a: seq<Entry>, e: Entry)
    requires Holds(t, a) && DistinctKeys(a) && e.txHash !in TableOf(t, e.kind)
    ensures DistinctKeys(a + [e])
  {
  }

  /** What deleting leaves of a table. */
  lemma {:induction false} DeletedLookup(t: Index, b: seq<Entry>, k: Kind, h: TxHash)
    ensures Lookup(TableOf(DeleteAll(t, b), k), h) ==
      if exists i :: 0 <= i < |b| && b[i].kind == k && b[i].txHash == h then None else Lookup(TableOf(t, k), h)
    decreases |b|
  {
    if b == [] {
    } else {
      var t' := WithTable(t, b[0].kind, TableOf(t, b[0].kind) - {b[0].txHash});
      DeletedLookup(t', b[1..], k, h);
      if i :| 0 <= i < |b[1..]| && b[1..][i].kind == k && b[1..][i].txHash == h {
        assert b[i + 1].kind == k && b[i + 1].txHash == h;
      }
      if i :| 0 <= i < |b| && b[i].kind == k && b[i].txHash == h {
        if i > 0 { assert b[1..][i - 1] == b[i]; }
      }
    }
  }

  /** Deleting the rows of `b` from an index of `a` and `b` leaves the index of `a`. */
  lemma DeleteUndoes(t: Index, a: seq<Entry>, b: seq<Entry>)
    requires Holds(t, a + b) && DistinctKeys(a + b)
    ensures Holds(DeleteAll(t, b), a) && DistinctKeys(a)
  {
    var u := DeleteAll(t, b);
    forall i, j | 0 <= i < j < |a| ensures a[i].kind != a[j].kind || a[i].txHash != a[j].txHash {
      assert (a + b)[i] == a[i] && (a + b)[j] == a[j];
    }
    forall k, h | h in TableOf(u, k) ensures Entry(k, h, TableOf(u, k)[h]) in a {
      DeletedLookup(t, b, k, h);
      var e := Entry(k, h, TableOf(t, k)[h]);
      assert e in a + b;
    }
    forall i | 0 <= i < |a|
      ensures a[i].txHash in TableOf(u, a[i].kind) && TableOf(u, a[i].kind)[a[i].txHash] == a[i].row
    {
      DeletedLookup(t, b, a[i].kind, a[i].txHash);
      assert (a + b)[i] == a[i];
      assert forall j :: 0 <= j < |b| ==> (a + b)[|a| + j] == b[j];
    }
  }

  // ----- whole runs

  lemma {:induction false} EntriesOfAppend(a: seq<BridgeFound>, b: seq<BridgeFound>)
    ensures EntriesOf(a + b) == EntriesOf(a) + EntriesOf(b)
  {
    if a == [] {
      assert a + b == b;
    } else {
      assert (a + b)[1..] == a[1..] + b;
      EntriesOfAppend(a[1..], b);
      var first: seq<Entry> := if EntryOf(a[0]).Some? then [EntryOf(a[0]).value] else [];
      assert first + (EntriesOf(a[1..]) + EntriesOf(b)) == first + EntriesOf(a[1..]) + EntriesOf(b);
    }
  }

  lemma EntriesAppend(a: BridgeChain, b: BridgeChain, decode: Log -> Option<BridgeEvent>)
    ensures Entries(a + b, decode) == Entries(a, decode) + Entries(b, decode)
  {
    DecodeAppend(a, b, OP_BRIDGES, decode);
    EntriesOfAppend(Decode(a, OP_BRIDGES, decode), Decode(b, OP_BRIDGES, decode));
  }

  /** The reverted part of a notification is a suffix of the canonical chain. */
  predicate Fitting(chain: BridgeChain, n: Notification) {
    n.reverted.Some? ==> |n.reverted.value| <= |chain| && chain[|chain| - |n.reverted.value|..] == n.reverted.value
  }

  /** The canonical chain after a notification. */
  function NextChain(chain: BridgeChain, n: Notification): BridgeChain
    requires Fitting(chain, n)
  {
    (if n.reverted.Some? then chain[..|chain| - |n.reverted.value|] else chain)
    + (if n.committed.Some? then n.committed.value else [])
  }

  /**
   One notification from an index that agrees with the canonical chain: no insert fails exactly
   when the new chain bridges at most once per transaction and kind, and then the index
   agrees with it.
   */
  lemma NotifyFollowsChain(t: Index, chain: BridgeChain, n: Notification, decode: Log -> Option<BridgeEvent>)
    requires Holds(t, Entries(chain, decode)) && DistinctKeys(Entries(chain, decode)) && Fitting(chain, n)
    ensures var (t', ok) := Notify(t, n, decode);
      && (ok <==> DistinctKeys(Entries(NextChain(chain, n), decode)))
      && (ok ==> Holds(t', Entries(NextChain(chain, n), decode)))
  {
    var base := if n.reverted.Some? then chain[..|chain| - |n.reverted.value|] else chain;
    var t1 := t;
    if n.reverted.Some? {
      assert chain == base + n.reverted.value;
      EntriesAppend(base, n.reverted.value, decode);
      DeleteUndoes(t, Entries(base, decode), Entries(n.reverted.value, decode));
      t1 := DeleteAll(t, Entries(n.reverted.value, decode));
    }
    if n.committed.Some? {
      EntriesAppend(base, n.committed.value, decode);
      InsertExactly(t1, Entries(base, decode), Entries(n.committed.value, decode));
    } else {
      assert base + [] == base;
    }
  }

  /** Every notification of the run reverts a suffix of the canonical chain it meets. */
  ghost predicate FittingRun(chain: BridgeChain, ns: seq<Notification>)
    decreases |ns|
  {
    ns != [] ==> Fitting(chain, ns[0]) && FittingRun(NextChain(chain, ns[0]), ns[1..])
  }

  /** Every chain the run leads to bridges at most once per transaction and kind. */
  ghost predicate DistinctRun(chain: BridgeChain, ns: seq<Notification>, decode: Log -> Option<BridgeEvent>)
    requires FittingRun(chain, ns)
    decreases |ns|
  {
    ns != [] ==>
      && DistinctKeys(Entries(NextChain(chain, ns[0]), decode))
      && DistinctRun(NextChain(chain, ns[0]), ns[1..], decode)
  }

  function FinalChain(chain: BridgeChain, ns: seq<Notification>): BridgeChain
    requires FittingRun(chain, ns)
    decreases |ns|
  {
    if ns == [] then chain else FinalChain(NextChain(chain, ns[0]), ns[1..])
  }

  /** Notifications one after the other, until an insert fails. */
  function NotifyAll(t: Index, ns: seq<Notification>, decode: Log -> Option<BridgeEvent>): (Index, bool)
    decreases |ns|
  {
    if ns == [] then (t, true)
    else
      var (t', ok) := Notify(t, ns[0], decode);
      if ok then NotifyAll(t', ns[1..], decode) else (t', false)
  }

  /**
   Over any run of commits, reorgs and reverts of suffixes: no insert fails exactly if every
   canonical chain on the way bridges at most once per transaction and kind, and then both
   tables hold exactly the rows decoded from the canonical chain.
   */
  lemma {:induction false} IndexFollowsChain(t: Index, chain: BridgeChain, ns: seq<Notification>, decode: Log -> Option<BridgeEvent>)
    requires FittingRun(chain, ns) && Holds(t, Entries(chain, decode)) && DistinctKeys(Entries(chain, decode))
    ensures NotifyAll(t, ns, decode).1 <==> DistinctRun(chain, ns, decode)
    ensures NotifyAll(t, ns, decode).1 ==>
      Holds(NotifyAll(t, ns, decode).0, Entries(FinalChain(chain, ns), decode))
    decreases |ns|
  {
    if ns == [] {
    } else {
      NotifyFollowsChain(t, chain, ns[0], decode);
      var (t', ok) := Notify(t, ns[0], decode);
      if ok { IndexFollowsChain(t', NextChain(chain, ns[0]), ns[1..], decode); }
    }
  }
}
