/** An EVM in miniature that runs stored code and writes storage, as an example of what reorgs assume of one. */
module CodeRunner {
  import opened Prelude
  import opened Tables
  import opened Execution
  import opened Rollup
  import opened Undo
  import opened ChainUndo
  import opened StoredCode
  import opened Reorg

  /** The code of the one contract, and what its slot held before the block. */
  datatype Machine = Machine(code: Bytes, old_: U256)

  const IDLE: Bundle := Bundle([], [], [], [], [])

  /** The contract's slot goes from one value to the other. */
  function Written(from: U256, to: U256): Bundle {
    Bundle(
      [], [StorageChange(CONTRACT_ADDRESS, false, [(1, to)])], [],
      [], [[StorageRevert(CONTRACT_ADDRESS, false, [(1, Previous(from))])]])
  }

  /** Every transaction calls the contract, whose code is one byte to store; without code it is invalid. */
  function Runner(codecs: Codecs, blockHash: Header -> U256, nextBaseFee: (Header, U64) -> Option<U64>): Node<Machine> {
    Node(
      codecs, blockHash, nextBaseFee,
      (t: Tables, header: Header) => Machine(CodeOfAccount(t, CONTRACT_ADDRESS), ReadSlot(t.storage, CONTRACT_SLOT)),
      (s: Machine, tx: Transaction) => if s.code == [] then Invalid else Executed(ExecutionResult(true, 0, []), s),
      (s: Machine, merged: bool) => if merged && s.code != [] then Written(s.old_, s.code[0]) else IDLE)
  }

  lemma WrittenIsValid(t: Tables, to: U256)
    ensures ValidBundle(t, Written(ReadSlot(t.storage, CONTRACT_SLOT), to))
  {
    var old_ := ReadSlot(t.storage, CONTRACT_SLOT);
    var b := Written(old_, to);
    forall s: Slot ensures ListedSlot(b, s) == (if s == CONTRACT_SLOT then Some(Previous(old_)) else None)
    ensures s != CONTRACT_SLOT ==> PostSlot(t, b, s) == Lookup(t.storage, s) {
      FindOnlyRevert(StorageRevert(CONTRACT_ADDRESS, false, [(1, Previous(old_))]), s.address);
      FindOnlyChange(StorageChange(CONTRACT_ADDRESS, false, [(1, to)]), s.address);
      FindOnly<U256, RevertToSlot>(1, Previous(old_), s.key);
      FindOnly<U256, U256>(1, to, s.key);
    }
  }

  /** Running transactions does not change what the machine has read. */
  lemma {:induction false} RunKeepsMachine(
    transact: (Machine, Transaction) -> Outcome<Machine>, gasLimit: U64, used: U64, s: Machine, txs: seq<Transaction>)
    requires forall tx :: transact(s, tx).Executed? ==> transact(s, tx).state == s
    ensures Run(transact, gasLimit, used, s, txs).Ok? ==> Run(transact, gasLimit, used, s, txs).value.state == s
    decreases |txs|
  {
    if txs != [] {
      var outcome := transact(s, txs[0]);
      if outcome.Executed? {
        RunKeepsMachine(transact, gasLimit, Add64(used, outcome.result.gasUsed), s, txs[1..]);
      } else {
        RunKeepsMachine(transact, gasLimit, used, s, txs[1..]);
      }
    }
  }

  lemma SameBundleSameEffect(v: Tables, t: Tables, b: Bundle)
    requires ViewMatches(v, t)
    ensures SameEffect(v, b, t, b)
  {
    forall a ensures AccountMatches(PostAccount(v, b, a), PostAccount(t, b, a)) {
      assert AccountMatches(Lookup(v.account, a), Lookup(t.account, a));
    }
    forall s ensures Read(PostSlot(v, b, s)) == Read(PostSlot(t, b, s)) {
      assert ReadSlot(v.storage, s) == ReadSlot(t.storage, s);
    }
  }

  /** The bundle of a block that executes: its transactions run the stored code, if there is any. */
  lemma RunnerBundle(node: Node<Machine>, t: Tables, s: Submission)
    requires node == Runner(node.codecs, node.blockHash, node.nextBaseFee) && ExecuteBlock(node, t, s).Ok?
    ensures var code, txs := CodeOfAccount(t, CONTRACT_ADDRESS), DecodeTransactions(s, node.codecs);
      txs.Ok? && ExecuteBlock(node, t, s).value.1 ==
        if txs.value != [] && code != [] then Written(ReadSlot(t.storage, CONTRACT_SLOT), code[0]) else IDLE
  {
    var header := ConstructHeader(node, t, s.header).value;
    var txs := DecodeTransactions(s, node.codecs).value;
    RunKeepsMachine(node.transact, header.gasLimit, 0, node.open(t, header), txs);
  }

  lemma RunnerWrites(node: Node<Machine>, codeOf: U256 -> Bytes)
    requires node == Runner(node.codecs, node.blockHash, node.nextBaseFee)
    ensures SoundNode(node) && CodedNode(node, codeOf)
  {
    forall t: Tables, s: Submission | ExecuteBlock(node, t, s).Ok?
      ensures ValidBundle(t, ExecuteBlock(node, t, s).value.1) && CodedBundle(codeOf, t, ExecuteBlock(node, t, s).value.1)
    {
      RunnerBundle(node, t, s);
      var code := CodeOfAccount(t, CONTRACT_ADDRESS);
      if code != [] { WrittenIsValid(t, code[0]); }
    }
  }

  /** Matching states start the same machine, so they execute to the same block and bundle. */
  lemma SameMachine(node: Node<Machine>, codeOf: U256 -> Bytes, v: Tables, t: Tables, header: Header)
    requires node == Runner(node.codecs, node.blockHash, node.nextBaseFee)
    requires ViewMatches(v, t) && KnownCode(codeOf, v) && KnownCode(codeOf, t)
    ensures node.open(v, header) == node.open(t, header)
  {
    assert AccountMatches(Lookup(v.account, CONTRACT_ADDRESS), Lookup(t.account, CONTRACT_ADDRESS));
    SameCode(codeOf, v, t, CONTRACT_ADDRESS);
    assert ReadSlot(v.storage, CONTRACT_SLOT) == ReadSlot(t.storage, CONTRACT_SLOT);
  }

  lemma SameExecution<S>(node: Node<S>, v: Tables, t: Tables, s: Submission)
    requires v.block == t.block && forall header :: node.open(v, header) == node.open(t, header)
    ensures ExecuteBlock(node, v, s) == ExecuteBlock(node, t, s)
  {
    assert ConstructHeader(node, v, s.header) == ConstructHeader(node, t, s.header);
  }

  lemma RunnerSees(node: Node<Machine>, codeOf: U256 -> Bytes)
    requires node == Runner(node.codecs, node.blockHash, node.nextBaseFee)
    ensures SeesCodedView(node, codeOf)
  {
    forall v: Tables, t: Tables, s: Submission | ViewMatches(v, t) && KnownCode(codeOf, v) && KnownCode(codeOf, t)
      ensures ExecuteBlock(node, v, s) == ExecuteBlock(node, t, s)
      ensures forall b :: SameEffect(v, b, t, b)
    {
      forall header ensures node.open(v, header) == node.open(t, header) { SameMachine(node, codeOf, v, t, header); }
      SameExecution(node, v, t, s);
      forall b ensures SameEffect(v, b, t, b) { SameBundleSameEffect(v, t, b); }
    }
  }

  /**
   Such an EVM meets all that reorgs assume of one, whatever codes are stored, so they cover
   rollups whose contracts run: what it writes is what its stored code says.
   */
  lemma RunnerIsSound(node: Node<Machine>, codeOf: U256 -> Bytes)
    requires node == Runner(node.codecs, node.blockHash, node.nextBaseFee)
    ensures SoundReader(node, codeOf)
  {
    RunnerWrites(node, codeOf);
    RunnerSees(node, codeOf);
  }
}
