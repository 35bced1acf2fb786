/** What every run keeps true of the stored chain of rollup blocks, and where the tip check breaks it. */
module ChainInvariant {
  import opened Prelude
  import opened DecimalText
  import opened TextTip
  import opened Tables
  import opened Execution
  import opened Rollup
  import opened ChainUndo

  /** Exactly the blocks 0..k-1 are stored, each naming the hash of its stored predecessor. */
  ghost predicate PrefixChain(blockHash: Header -> U256, t: Tables, k: nat) {
    && t.block.Keys == NumberTexts(k)
    && (forall i: nat :: i < k ==> Linked(blockHash, t.block, i))
  }

  ghost predicate Linked(blockHash: Header -> U256, block: map<string, Block>, i: nat) {
    && ToText(i) in block
    && block[ToText(i)].header.number == i
    && (if i == 0 then block[ToText(0)].header.parentHash == 0
        else ToText(i - 1) in block && block[ToText(i)].header.parentHash == blockHash(block[ToText(i - 1)].header))
  }

  lemma TextStored(k: nat, n: nat)
    ensures ToText(n) in NumberTexts(k) <==> n < k
  {
    if ToText(n) in NumberTexts(k) {
      var i :| 0 <= i < k && ToText(n) == ToText(i);
      TextIsInjective(n, i);
    }
  }

  lemma NumberTextsGrow(k: nat)
    ensures NumberTexts(k + 1) == NumberTexts(k) + {ToText(k)}
    ensures NumberTexts(k + 1) - {ToText(k)} == NumberTexts(k)
  {
    TextStored(k, k);
  }

  /** An executed block that is inserted into a prefix chain extends it by one. */
  lemma InsertExtends<S>(node: Node<S>, t: Tables, k: nat, s: Submission)
    requires PrefixChain(node.blockHash, t, k) && ExecuteBlock(node, t, s).Ok?
    requires InsertBlock(t, ExecuteBlock(node, t, s).value.0, ExecuteBlock(node, t, s).value.1).Ok?
    ensures s.header.sequence == k
    ensures PrefixChain(node.blockHash, InsertBlock(t, ExecuteBlock(node, t, s).value.0, ExecuteBlock(node, t, s).value.1).value, k + 1)
  {
    var (block, b) := ExecuteBlock(node, t, s).value;
    var n := s.header.sequence;
    ExecutedNumber(node, t, s);
    TextStored(k, n);
    if n > 0 { TextStored(k, n - 1); }
    NumberTextsGrow(k);
    var u := InsertBlock(t, block, b).value;
    forall i: nat | i < k + 1 ensures Linked(node.blockHash, u.block, i) {
      TextStored(k, i);
      if i < k { assert Linked(node.blockHash, t.block, i); }
      if 0 < i { TextStored(k, i - 1); }
    }
  }

  /** Committing any event, executed or failed, keeps the chain a prefix. */
  lemma CommitKeepsPrefix<S>(node: Node<S>, t: Tables, k: nat, e: Event)
    requires PrefixChain(node.blockHash, t, k) && CommitEvent(node, t, e).Ok?
    ensures PrefixChain(node.blockHash, CommitEvent(node, t, e).value, k)
         || PrefixChain(node.blockHash, CommitEvent(node, t, e).value, k + 1)
  {
    if IsSubmission(e) {
      var s := SubmissionOf(e.tx, e.event.blockDataHash);
      if ExecuteBlock(node, t, s).Ok? { InsertExtends(node, t, k, s); }
    }
  }

  /** Reverting the newest block, if it succeeds, shortens the chain by one. */
  lemma RevertNewestShortens(blockHash: Header -> U256, t: Tables, k: nat)
    requires PrefixChain(blockHash, t, k) && 0 < k <= TWO_256
    requires RevertTip(t, k - 1).Ok?
    ensures PrefixChain(blockHash, RevertTip(t, k - 1).value, k - 1)
  {
    var u := RevertTip(t, k - 1).value;
    NumberTextsGrow(k - 1);
    forall i: nat | i < k - 1 ensures Linked(blockHash, u.block, i) {
      assert Linked(blockHash, t.block, i);
      TextStored(k - 1, i);
      if i > 0 { TextStored(k - 1, i - 1); }
    }
  }

  // ----- runs

  datatype Action = CommitAction(event: Event) | RevertAction(event: Event)

  /** What an action leaves; a failed one changes nothing. */
  ghost function Act<S>(node: Node<S>, t: Tables, a: Action): Tables {
    var r := match a
             case CommitAction(e) => CommitEvent(node, t, e)
             case RevertAction(e) => RevertEvent(t, e);
    if r.Ok? then r.value else t
  }

  ghost function RunActions<S>(node: Node<S>, t: Tables, actions: seq<Action>): Tables
    decreases |actions|
  {
    if actions == [] then t else RunActions(node, Act(node, t, actions[0]), actions[1..])
  }

  /** A revert of a submitted block asks for the newest stored number. */
  ghost predicate RevertsNewest(t: Tables, a: Action) {
    a.RevertAction? && IsSubmission(a.event) ==>
      t.block.Keys == NumberTexts(a.event.tx.call.value.header.sequence + 1)
  }

  /** Blocks are reverted last in, first out. */
  ghost predicate LastInFirstOut<S>(node: Node<S>, t: Tables, actions: seq<Action>)
    decreases |actions|
  {
    actions == [] ||
    (RevertsNewest(t, actions[0]) && LastInFirstOut(node, Act(node, t, actions[0]), actions[1..]))
  }

  lemma NumberTextsInjective(j: nat, k: nat)
    requires NumberTexts(j) == NumberTexts(k)
    ensures j == k
  {
    TextStored(j, j);
    TextStored(k, j);
    TextStored(j, k);
    TextStored(k, k);
  }

  lemma RevertKeepsPrefix(blockHash: Header -> U256, t: Tables, k: nat, e: Event)
    requires PrefixChain(blockHash, t, k) && RevertsNewest(t, RevertAction(e)) && RevertEvent(t, e).Ok?
    ensures exists j :: PrefixChain(blockHash, RevertEvent(t, e).value, j)
  {
    if IsSubmission(e) {
      NumberTextsInjective(k, e.tx.call.value.header.sequence + 1);
      RevertNewestShortens(blockHash, t, k);
      assert PrefixChain(blockHash, RevertEvent(t, e).value, k - 1);
    } else {
      assert PrefixChain(blockHash, RevertEvent(t, e).value, k);
    }
  }

  lemma ActKeepsPrefix<S>(node: Node<S>, t: Tables, k: nat, a: Action)
    requires PrefixChain(node.blockHash, t, k) && RevertsNewest(t, a)
    ensures exists j :: PrefixChain(node.blockHash, Act(node, t, a), j)
  {
    if Act(node, t, a) == t {
      assert PrefixChain(node.blockHash, Act(node, t, a), k);
    } else if a.CommitAction? {
      CommitKeepsPrefix(node, t, k, a.event);
    } else {
      RevertKeepsPrefix(node.blockHash, t, k, a.event);
    }
  }

  /**
   Whatever blocks and deposits are submitted, fail, or are reverted last in first out, the
   stored blocks are always 0..k-1 for some k, linked by parent hashes.
   */
  lemma {:induction false} RunsKeepPrefix<S>(node: Node<S>, t: Tables, k: nat, actions: seq<Action>)
    requires PrefixChain(node.blockHash, t, k) && LastInFirstOut(node, t, actions)
    ensures exists j :: PrefixChain(node.blockHash, RunActions(node, t, actions), j)
    decreases |actions|
  {
    if actions == [] {
      assert PrefixChain(node.blockHash, RunActions(node, t, actions), k);
    } else {
      ActKeepsPrefix(node, t, k, actions[0]);
      var next := Act(node, t, actions[0]);
      var j: nat :| PrefixChain(node.blockHash, next, j);
      RunsKeepPrefix(node, next, j, actions[1..]);
      assert RunActions(node, t, actions) == RunActions(node, next, actions[1..]);
    }
  }

  lemma EmptyDatabaseIsPrefix(blockHash: Header -> U256)
    ensures PrefixChain(blockHash, EMPTY_TABLES, 0)
  {
    assert NumberTexts(0) == {};
  }

  // ----- what the text order of the tip query does to it

  /**
   With blocks 0..k-1 stored exactly one revert is accepted, that of `TipNumber(k - 1)`, and it
   leaves a prefix exactly when k - 1 ends a decade; otherwise it takes a block out of the middle.
   */
  lemma AcceptedRevert(blockHash: Header -> U256, t: Tables, k: nat, n: U256)
    requires PrefixChain(blockHash, t, k) && k > 0
    ensures RevertTip(t, n).Ok? <==> n == TipNumber(k - 1)
    ensures RevertTip(t, n).Ok? ==>
      ((exists j :: RevertTip(t, n).value.block.Keys == NumberTexts(j)) <==> EndsDecade(k - 1))
  {
    TipQueryAnswer(k - 1);
    TipCheckAcceptsNewest(k - 1);
    NumberTextsGrow(k - 1);
    TextStored(k, k - 1);
    assert t.block != map[];
    if RevertTip(t, n).Ok? {
      var left := RevertTip(t, n).value.block.Keys;
      assert left == NumberTexts(k) - {ToText(n)};
      if n == k - 1 {
        assert left == NumberTexts(k - 1);
      } else {
        if j :| left == NumberTexts(j) {
          TextStored(k, n);
          TextStored(j, n);
          TextStored(j, k - 1);
          assert false;
        }
      }
    }
  }

  lemma {:induction false} NumberTextsSize(k: nat)
    ensures |NumberTexts(k)| == k
  {
    if k == 0 {
      assert NumberTexts(0) == {};
    } else {
      NumberTextsSize(k - 1);
      NumberTextsGrow(k - 1);
      TextStored(k - 1, k - 1);
    }
  }

  /** If the action reverts the block that the tip query answers, the newest number stored ends a decade. */
  ghost predicate RevertsAtDecadeEnd(t: Tables, a: Action) {
    a.RevertAction? && IsSubmission(a.event) && |t.block| > 0
      && a.event.tx.call.value.header.sequence == TipNumber(|t.block| - 1)
    ==> EndsDecade(|t.block| - 1)
  }

  /** On a chain of blocks 0..k-1 a block revert is accepted exactly for the number the tip query answers. */
  lemma AcceptedExactly(blockHash: Header -> U256, t: Tables, k: nat, n: U256)
    requires PrefixChain(blockHash, t, k)
    ensures RevertTip(t, n).Ok? <==> |t.block| > 0 && n == TipNumber(|t.block| - 1)
    ensures |t.block| == k
  {
    NumberTextsSize(k);
    assert |t.block| == |t.block.Keys|;
    if k > 0 {
      AcceptedRevert(blockHash, t, k, n);
    } else {
      assert t.block == map[];
    }
  }

  lemma ActPrefixExactly<S>(node: Node<S>, t: Tables, k: nat, a: Action)
    requires PrefixChain(node.blockHash, t, k)
    ensures (exists j :: PrefixChain(node.blockHash, Act(node, t, a), j)) <==> RevertsAtDecadeEnd(t, a)
  {
    if a.RevertAction? && IsSubmission(a.event) {
      AcceptedExactly(node.blockHash, t, k, a.event.tx.call.value.header.sequence);
    }
    if Act(node, t, a) == t {
      assert PrefixChain(node.blockHash, Act(node, t, a), k);
      if a.RevertAction? && IsSubmission(a.event) && RevertEvent(t, a.event).Ok? {
        RevertTakesABlockHere(node.blockHash, t, k, a.event.tx.call.value.header.sequence);
      }
    } else if a.CommitAction? {
      CommitKeepsPrefix(node, t, k, a.event);
    } else if IsSubmission(a.event) {
      AcceptedRevertExactly(node.blockHash, t, k, a.event.tx.call.value.header.sequence);
    } else {
      assert PrefixChain(node.blockHash, Act(node, t, a), k);
    }
  }

  lemma RevertTakesABlockHere(blockHash: Header -> U256, t: Tables, k: nat, n: U256)
    requires PrefixChain(blockHash, t, k) && RevertTip(t, n).Ok?
    ensures RevertTip(t, n).value != t
  {
    PrefixIsNumberKeyed(blockHash, t, k);
    RevertTakesABlock(t, n);
  }

  lemma AcceptedRevertExactly(blockHash: Header -> U256, t: Tables, k: nat, n: U256)
    requires PrefixChain(blockHash, t, k) && RevertTip(t, n).Ok?
    ensures k > 0
    ensures (exists j :: PrefixChain(blockHash, RevertTip(t, n).value, j)) <==> EndsDecade(k - 1)
  {
    assert NumberTexts(0) == {};
    AcceptedRevert(blockHash, t, k, n);
    if EndsDecade(k - 1) {
      EndsDecadeComputed(k - 1);
      RevertNewestShortens(blockHash, t, k);
      assert PrefixChain(blockHash, RevertTip(t, n).value, k - 1);
    }
  }

  /** Every state of the run is a chain of blocks 0..j-1. */
  ghost predicate StaysPrefix<S>(node: Node<S>, t: Tables, actions: seq<Action>)
    decreases |actions|
  {
    && (exists j :: PrefixChain(node.blockHash, t, j))
    && (actions != [] ==> StaysPrefix(node, Act(node, t, actions[0]), actions[1..]))
  }

  /** Every block revert of the run that is accepted happens at the end of a decade. */
  ghost predicate RevertsAtDecadeEnds<S>(node: Node<S>, t: Tables, actions: seq<Action>)
    decreases |actions|
  {
    actions == [] ||
    (RevertsAtDecadeEnd(t, actions[0]) && RevertsAtDecadeEnds(node, Act(node, t, actions[0]), actions[1..]))
  }

  /**
   Over any run of commits and reverts, in any order: the stored blocks stay 0..j-1, linked by
   parent hashes, exactly while every accepted block revert happens at the end of a decade.
   */
  lemma {:induction false} PrefixExactly<S>(node: Node<S>, t: Tables, k: nat, actions: seq<Action>)
    requires PrefixChain(node.blockHash, t, k)
    ensures StaysPrefix(node, t, actions) <==> RevertsAtDecadeEnds(node, t, actions)
    decreases |actions|
  {
    if actions == [] {
    } else {
      var next := Act(node, t, actions[0]);
      ActPrefixExactly(node, t, k, actions[0]);
      if RevertsAtDecadeEnd(t, actions[0]) {
        var j: nat :| PrefixChain(node.blockHash, next, j);
        PrefixExactly(node, next, j, actions[1..]);
      } else {
        assert !StaysPrefix(node, next, actions[1..]);
      }
    }
  }

  /** With blocks 0..10 stored, block 9 can be reverted and block 10 cannot. */
  lemma ElevenBlocks(t: Tables)
    requires t.block.Keys == NumberTexts(11)
    ensures RevertTip(t, 9).Ok? && RevertTip(t, 10) == Err(NotTheTip(10, 9))
  {
    assert ToText(10) == "10" && Pow10(1) == 10;
    assert TipNumber(10) == 9;
    TipQueryAnswer(10);
    TextStored(11, 0);
    assert t.block != map[];
  }

  /**
   A submitted block that failed to execute: committing it changes nothing, and reverting it
   succeeds exactly if its number is the one the tip query answers, and then takes away the
   block stored under that number.
   */
  lemma FailedBlockRevert<S>(node: Node<S>, t: Tables, k: nat, e: Event)
    requires PrefixChain(node.blockHash, t, k) && k > 0 && IsSubmission(e)
    requires ExecuteBlock(node, t, SubmissionOf(e.tx, e.event.blockDataHash)).Err?
    ensures CommitEvent(node, t, e) == Ok(t)
    ensures var n := e.tx.call.value.header.sequence;
      && (RevertEvent(t, e).Ok? <==> n == TipNumber(k - 1))
      && (RevertEvent(t, e).Ok? ==>
            ToText(n) in t.block && RevertEvent(t, e).value.block == t.block - {ToText(n)})
  {
    AcceptedRevert(node.blockHash, t, k, e.tx.call.value.header.sequence);
    TipQueryAnswer(k - 1);
  }

  /** A submission under number 9 for another chain, which does not execute. */
  const FOREIGN_BLOCK := Event(
    L1Transaction(Some(SubmitBlock(ZenithHeader(0, 9, 0, 0), [])), false, None), BlockSubmitted(0))

  /** With blocks 0..9 stored, reverting a block that never executed removes the real block 9. */
  lemma ForeignBlockTakesNine<S>(node: Node<S>, t: Tables)
    requires PrefixChain(node.blockHash, t, 10)
    ensures CommitEvent(node, t, FOREIGN_BLOCK) == Ok(t)
    ensures ToText(9) in t.block
    ensures RevertEvent(t, FOREIGN_BLOCK).Ok? && ToText(9) !in RevertEvent(t, FOREIGN_BLOCK).value.block
  {
    assert ToText(9) == "9" && Pow10(0) == 1;
    assert TipNumber(9) == 9;
    FailedBlockRevert(node, t, 10, FOREIGN_BLOCK);
  }

  /** On a prefix chain the tip condition of an inserted block is a condition on its number. */
  lemma TipConditionOfInserted<S>(node: Node<S>, t: Tables, k: nat, s: Submission)
    requires PrefixChain(node.blockHash, t, k) && ExecuteBlock(node, t, s).Ok?
    requires InsertBlock(t, ExecuteBlock(node, t, s).value.0, ExecuteBlock(node, t, s).value.1).Ok?
    ensures AcceptsTip(InsertBlock(t, ExecuteBlock(node, t, s).value.0, ExecuteBlock(node, t, s).value.1).value, s.header.sequence)
       <==> EndsDecade(s.header.sequence)
  {
    InsertExtends(node, t, k, s);
    TipCheckAcceptsNewest(k);
    TextStored(k + 1, k);
  }

  /** A prefix chain keys its rows by numbers, as undoing needs. */
  lemma PrefixIsNumberKeyed(blockHash: Header -> U256, t: Tables, k: nat)
    requires PrefixChain(blockHash, t, k)
    ensures NumberKeyed(t)
  {
    forall x | x in t.block ensures exists n: nat :: x == ToText(n) {
      var i :| 0 <= i < k && x == ToText(i);
    }
  }
}
