/** What the backfill ExEx does with what it is asked: messages, replies and the blocks of each job, over whole runs. */
module BackfillJobs {
  import opened Prelude
  import opened Backfill

  // ----- messages are handled in the order they were sent

  /** The messages that a step puts on the queue. */
  function SentBy(l: Label): seq<Message> {
    match l
    case Request(m) => [m]
    case SendFinish(j) => [Finish(j)]
    case _ => []
  }

  function Sent(labels: seq<Label>): seq<Message> {
    if labels == [] then [] else SentBy(labels[0]) + Sent(labels[1..])
  }

  /** The messages that a step takes off the queue. */
  function TakenBy(s: State, l: Label): seq<Message>
    requires Enabled(s, l)
  {
    if l.HandleNext? then [s.queue[0]] else []
  }

  function Taken(s: State, labels: seq<Label>): seq<Message>
    requires ValidRun(s, labels)
    decreases |labels|
  {
    if labels == [] then []
    else TakenBy(s, labels[0]) + Taken(Step(s, labels[0]), labels[1..])
  }

  /** Over every run the messages handled and those still queued are those sent, in the order they were sent. */
  lemma {:induction false} HandledInOrder(s: State, labels: seq<Label>)
    requires ValidRun(s, labels)
    ensures s.queue + Sent(labels) == Taken(s, labels) + Run(s, labels).queue
    decreases |labels|
  {
    if labels == [] {
    } else {
      var l, s', rest := labels[0], Step(s, labels[0]), labels[1..];
      HandledInOrder(s', rest);
      QueueStep(s, l);
      Regroup(s.queue, SentBy(l), Sent(rest));
      Regroup(TakenBy(s, l), s'.queue, Sent(rest));
      Regroup(TakenBy(s, l), Taken(s', rest), Run(s, labels).queue);
    }
  }

  lemma QueueStep(s: State, l: Label)
    requires Enabled(s, l)
    ensures s.queue + SentBy(l) == TakenBy(s, l) + Step(s, l).queue
  {
  }

  // ----- starting

  /** A job is started with exactly the blocks that were asked for, under the next id, if a permit is free. */
  lemma StartHandled(s: State, blocks: seq<BlockNumber>)
    requires Enabled(s, HandleNext) && s.queue[0] == Start(blocks)
    ensures var s', j := Step(s, HandleNext), s.core.nextId;
      if s.core.permits == 0 then s' == s.(queue := s.queue[1..], replies := s.replies + [LimitReached])
      else
        && j in s'.ranges && s'.ranges[j] == blocks
        && j in s'.processed && s'.processed[j] == []
        && j in s'.tasks && s'.tasks[j].remaining == blocks && s'.tasks[j].phase == Selecting && !s'.tasks[j].cancelSent
        && (forall i :: i != j ==> Lookup(s'.tasks, i) == Lookup(s.tasks, i) && Lookup(s'.ranges, i) == Lookup(s.ranges, i))
        && s'.core == Core(s.core.permits - 1, j + 1, s.core.jobs + {j})
        && s'.replies == s.replies + [Started(j)]
  {
  }

  /** The block lists of the starts that the steps accept. */
  function Accepted(s: State, labels: seq<Label>): seq<seq<BlockNumber>>
    requires ValidRun(s, labels)
    decreases |labels|
  {
    if labels == [] then []
    else
      (if labels[0].HandleNext? && s.queue[0].Start? && s.core.permits > 0 then [s.queue[0].blocks] else [])
      + Accepted(Step(s, labels[0]), labels[1..])
  }

  /** A step accepts a start and gives it the next id, or leaves ids and ranges alone. */
  lemma RangesStep(s: State, l: Label)
    requires Enabled(s, l)
    ensures var s' := Step(s, l);
      if l.HandleNext? && s.queue[0].Start? && s.core.permits > 0
      then s'.core.nextId == s.core.nextId + 1 && s'.ranges == s.ranges[s.core.nextId := s.queue[0].blocks]
      else s'.core.nextId == s.core.nextId && s'.ranges == s.ranges
  {
  }

  /** From `first` on, the ranges are those accepted; before it they are as they were. */
  ghost predicate RangesFrom(
    was: map<JobId, seq<BlockNumber>>, ranges: map<JobId, seq<BlockNumber>>, first: JobId, accepted: seq<seq<BlockNumber>>)
  {
    && (forall j: JobId :: j < first ==> Lookup(ranges, j) == Lookup(was, j))
    && (forall j: JobId :: first <= j < first + |accepted| ==> Lookup(ranges, j) == Some(accepted[j - first]))
  }

  lemma RangesPrepend(
    was: map<JobId, seq<BlockNumber>>, ranges: map<JobId, seq<BlockNumber>>, first: JobId,
    blocks: seq<BlockNumber>, rest: seq<seq<BlockNumber>>)
    requires RangesFrom(was[first := blocks], ranges, first + 1, rest)
    ensures RangesFrom(was, ranges, first, [blocks] + rest)
  {
    var all := [blocks] + rest;
    assert Lookup(ranges, first) == Lookup(was[first := blocks], first) == Some(blocks);
    forall j: JobId | first <= j < first + |all| ensures Lookup(ranges, j) == Some(all[j - first]) {
      if j > first { assert Lookup(ranges, j) == Some(rest[j - (first + 1)]); }
    }
  }

  /** Over every run the range of each new job is the block list of the start it was accepted for, in order. */
  lemma {:induction false} RangesAreAccepted(s: State, labels: seq<Label>)
    requires ValidRun(s, labels)
    ensures var s', accepted := Run(s, labels), Accepted(s, labels);
      s'.core.nextId == s.core.nextId + |accepted| && RangesFrom(s.ranges, s'.ranges, s.core.nextId, accepted)
    decreases |labels|
  {
    if labels == [] {
    } else {
      var s1 := Step(s, labels[0]);
      RangesStep(s, labels[0]);
      RangesAreAccepted(s1, labels[1..]);
      var rest := Accepted(s1, labels[1..]);
      if s1.core.nextId != s.core.nextId {
        RangesPrepend(s.ranges, Run(s, labels).ranges, s.core.nextId, s.queue[0].blocks, rest);
      } else {
        assert Accepted(s, labels) == rest;
      }
    }
  }

  /**
   In every reachable state the jobs are the accepted starts, in order; each has processed a
   prefix of the blocks it was asked for and, while it selects, has the rest left.
   */
  lemma JobsDoWhatWasAsked(limit: nat, labels: seq<Label>)
    requires ValidRun(InitState(limit), labels)
    ensures var s, accepted := Run(InitState(limit), labels), Accepted(InitState(limit), labels);
      && s.core.nextId == |accepted|
      && (forall j: JobId :: j < |accepted| ==>
            && j in s.processed && s.processed[j] <= accepted[j]
            && (InPhase(s, j, Selecting) ==> s.processed[j] + s.tasks[j].remaining == accepted[j]))
  {
    var s, accepted := Run(InitState(limit), labels), Accepted(InitState(limit), labels);
    ReachableStates(limit, labels);
    RangesAreAccepted(InitState(limit), labels);
    forall j: JobId | j < |accepted|
      ensures j in s.processed && s.processed[j] <= accepted[j]
      ensures InPhase(s, j, Selecting) ==> s.processed[j] + s.tasks[j].remaining == accepted[j]
    {
      assert JobInOrder(s, j);
      assert Lookup(s.ranges, j) == Some(accepted[j]);
    }
  }

  /**
   A job that leaves its select of its own accord has then, and in every later state, processed
   exactly the blocks that its start asked for, if and only if it had none left.
   */
  lemma FinishedJob(limit: nat, before: seq<Label>, j: JobId, after: seq<Label>)
    requires ValidRun(InitState(limit), before)
    requires var s := Run(InitState(limit), before); Enabled(s, End(j)) && ValidRun(Step(s, End(j)), after)
    ensures j < |Accepted(InitState(limit), before)|
    ensures var s := Run(InitState(limit), before);
      var later := Run(Step(s, End(j)), after);
      j in later.processed &&
      (later.processed[j] == Accepted(InitState(limit), before)[j] <==> s.tasks[j].remaining == [])
  {
    var s := Run(InitState(limit), before);
    ReachableStates(limit, before);
    JobsDoWhatWasAsked(limit, before);
    QuietRun(Step(s, End(j)), after, j);
    var later := Run(Step(s, End(j)), after);
    assert Lookup(later.processed, j) == Lookup(s.processed, j);
    assert s.processed[j] + s.tasks[j].remaining == Accepted(InitState(limit), before)[j];
  }

  // ----- cancelling

  /** The job has left its select of its own accord, but the ExEx has not heard of it. */
  predicate OverUnheard(s: State, j: JobId) {
    InPhase(s, j, Ended) || Finish(j) in s.queue
  }

  /**
   How a request to cancel is answered, exactly: "not found" if the job was never issued, was
   cancelled before or is known to be over; "failed" if it is over and that is not known yet;
   and otherwise it is still processing, is sent the cancellation, and is waited for.
   */
  lemma CancelHandled(s: State, limit: nat, j: JobId)
    requires Inv(s, limit) && Enabled(s, HandleNext) && s.queue[0] == Cancel(j)
    ensures var s' := Step(s, HandleNext);
      && s'.core.permits == s.core.permits && s'.core.nextId == s.core.nextId && s'.core.jobs == s.core.jobs - {j}
      && if j >= s.core.nextId || j in s.cancelled || !(InPhase(s, j, Selecting) || OverUnheard(s, j))
         then s'.replies == s.replies + [NotFound(j)] && s'.loop_ == Idle && s'.tasks == s.tasks
         else if OverUnheard(s, j)
         then s'.replies == s.replies + [CancelFailed(j)] && s'.loop_ == Idle && s'.tasks == s.tasks
         else s'.replies == s.replies && s'.loop_ == Awaiting(j, Pending)
              && s'.tasks == s.tasks[j := s.tasks[j].(cancelSent := true)]
  {
  }

  /** The end of the wait, however it came, is answered as a success. */
  lemma WaitEnds(s: State, j: JobId, ack: Ack)
    requires s.loop_ == Awaiting(j, ack) && ack != Pending
    ensures Step(s, AckArrives).replies == s.replies + [Cancelled(j)] && Step(s, AckArrives).loop_ == Idle
  {
  }

  // ----- every request is answered once, in order

  predicate Answers(r: Reply, m: Message) {
    match m
    case Start(_) => r.Started? || r == LimitReached
    case Cancel(j) => r == Cancelled(j) || r == NotFound(j) || r == CancelFailed(j)
    case Finish(_) => false
  }

  /** The requests taken off the queue, without what jobs send. */
  function Requests(ms: seq<Message>): seq<Message> {
    if ms == [] then [] else (if ms[0].Finish? then [] else [ms[0]]) + Requests(ms[1..])
  }

  function Waiting(s: State): seq<Message> {
    if s.loop_.Awaiting? then [Cancel(s.loop_.job)] else []
  }

  /** The replies answer the first of the requests, in order, and `left` are the others. */
  predicate AnsweredUpTo(requests: seq<Message>, replies: seq<Reply>, left: seq<Message>) {
    && |replies| <= |requests| && requests[|replies|..] == left
    && forall i :: 0 <= i < |replies| ==> Answers(replies[i], requests[i])
  }

  lemma AnswersCompose(
    p: seq<Message>, first: seq<Message>, r: seq<Reply>, q: seq<Message>, rest: seq<Message>, r': seq<Reply>, left: seq<Message>)
    requires AnsweredUpTo(p + first, r, q) && AnsweredUpTo(q + rest, r', left)
    ensures AnsweredUpTo(p + (first + rest), r + r', left)
  {
    var all := p + (first + rest);
    assert all == (p + first)[..|r|] + (q + rest);
    forall i | 0 <= i < |r + r'| ensures Answers((r + r')[i], all[i]) {
      if i >= |r| { assert all[i] == (q + rest)[i - |r|]; }
    }
  }

  /** One step gives at most one reply, to the oldest request that has none. */
  lemma AnswerStep(s: State, l: Label)
    requires Enabled(s, l)
    ensures var s' := Step(s, l);
      && s.replies <= s'.replies
      && AnsweredUpTo(Waiting(s) + Requests(TakenBy(s, l)), s'.replies[|s.replies|..], Waiting(s'))
  {
    var s' := Step(s, l);
    var new_ := s'.replies[|s.replies|..];
    if l.HandleNext? {
      RequestHandled(s);
    } else if l.AckArrives? {
      assert new_ == [Cancelled(s.loop_.job)];
    } else {
      assert s'.replies == s.replies && Waiting(s') == Waiting(s);
    }
  }

  lemma RequestHandled(s: State)
    requires Enabled(s, HandleNext)
    ensures var s', m := Step(s, HandleNext), s.queue[0];
      && s.replies <= s'.replies
      && AnsweredUpTo(Waiting(s) + Requests([m]), s'.replies[|s.replies|..], Waiting(s'))
  {
    var s', m := Step(s, HandleNext), s.queue[0];
    assert [m][1..] == [];
    assert Waiting(s) + Requests([m]) == if m.Finish? then [] else [m];
    if |s'.replies| > |s.replies| { assert s'.replies[|s.replies|..] == [s'.replies[|s.replies|]]; }
  }

  lemma {:induction false} RequestsAppend(a: seq<Message>, b: seq<Message>)
    ensures Requests(a + b) == Requests(a) + Requests(b)
  {
    if a == [] {
      assert a + b == b;
    } else {
      assert (a + b)[1..] == a[1..] + b;
      RequestsAppend(a[1..], b);
    }
  }

  lemma Suffixes<T>(a: seq<T>, b: seq<T>, c: seq<T>)
    requires a <= b <= c
    ensures a <= c && b[|a|..] + c[|b|..] == c[|a|..]
  {
  }

  /**
   Over every run each request that is handled gets exactly one reply, of its kind and for its
   job, in the order the requests were handled; only the one that is waited for has none yet.
   */
  lemma {:induction false} AnsweredInOrder(s: State, labels: seq<Label>)
    requires ValidRun(s, labels)
    ensures var s' := Run(s, labels);
      && s.replies <= s'.replies
      && AnsweredUpTo(Waiting(s) + Requests(Taken(s, labels)), s'.replies[|s.replies|..], Waiting(s'))
    decreases |labels|
  {
    if labels == [] {
    } else {
      var s1, s' := Step(s, labels[0]), Run(s, labels);
      var first := TakenBy(s, labels[0]);
      var rest := Taken(s1, labels[1..]);
      AnswerStep(s, labels[0]);
      AnsweredInOrder(s1, labels[1..]);
      RequestsAppend(first, rest);
      AnswersCompose(
        Waiting(s), Requests(first), s1.replies[|s.replies|..], Waiting(s1), Requests(rest), s'.replies[|s1.replies|..], Waiting(s'));
      Suffixes(s.replies, s1.replies, s'.replies);
    }
  }
}
