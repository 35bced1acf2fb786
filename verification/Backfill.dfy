/**
 The backfill ExEx: a message loop that starts and cancels jobs, and the job tasks that run
 beside it. One step of the whole system is one label; a run is a list of enabled labels.
 */
module Backfill {
  import opened Prelude

  type JobId = nat
  type BlockNumber = nat

  datatype Message =
    | Start(blocks: seq<BlockNumber>)
    | Cancel(job: JobId)
    | Finish(job: JobId)

  datatype Reply =
    | Started(job: JobId)
    | LimitReached
    | Cancelled(job: JobId)
    | NotFound(job: JobId)
    | CancelFailed(job: JobId)

  // ----- the message handlers

  /** What the ExEx itself holds: free permits, the next id, and the ids with a cancel sender. */
  datatype Core = Core(permits: nat, nextId: JobId, jobs: set<JobId>)

  /** What handling a message leads to. */
  datatype Action =
    | Spawn(job: JobId, blocks: seq<BlockNumber>)
    | Answer(reply: Reply)
    | SendCancel(job: JobId)
    | Nothing

  /** Handle a message while the cancel receivers of `listening` are alive. */
  function Handle(c: Core, m: Message, listening: set<JobId>): (Core, Action) {
    match m
    case Start(blocks) =>
      if c.permits == 0 then (c, Answer(LimitReached))
      else (Core(c.permits - 1, c.nextId + 1, c.jobs + {c.nextId}), Spawn(c.nextId, blocks))
    case Cancel(j) =>
      if j !in c.jobs then (c, Answer(NotFound(j)))
      else (c.(jobs := c.jobs - {j}), if j in listening then SendCancel(j) else Answer(CancelFailed(j)))
    case Finish(j) =>
      (c.(jobs := c.jobs - {j}), Nothing)
  }

  class BackfillExEx {
    var permits: nat
    var nextBackfillJobId: JobId
    var backfillJobs: set<JobId>

    constructor (limit: nat)
      ensures View() == Core(limit, 0, {})
    {
      permits, nextBackfillJobId, backfillJobs := limit, 0, {};
    }

    ghost function View(): Core
      reads this
    {
      Core(permits, nextBackfillJobId, backfillJobs)
    }

    method StartBackfill(blocks: seq<BlockNumber>) returns (action: Action)
      modifies this
      ensures (View(), action) == Handle(old(View()), Start(blocks), {})
    {
      if permits == 0 { return Answer(LimitReached); }
      permits := permits - 1;
      var jobId := nextBackfillJobId;
      nextBackfillJobId := nextBackfillJobId + 1;
      backfillJobs := backfillJobs + {jobId};
      action := Spawn(jobId, blocks);
    }

    /** Up to the point where the cancellation waits for the job's acknowledgement. */
    method CancelBackfill(job: JobId, listening: set<JobId>) returns (action: Action)
      modifies this
      ensures (View(), action) == Handle(old(View()), Cancel(job), listening)
    {
      if job !in backfillJobs { return Answer(NotFound(job)); }
      backfillJobs := backfillJobs - {job};
      action := if job in listening then SendCancel(job) else Answer(CancelFailed(job));
    }

    method HandleBackfillMessage(m: Message, listening: set<JobId>) returns (action: Action)
      modifies this
      ensures (View(), action) == Handle(old(View()), m, listening)
    {
      match m {
        case Start(blocks) =>
          action := StartBackfill(blocks);
        case Cancel(job) =>
          action := CancelBackfill(job, listening);
          ghost var before := backfillJobs;
          backfillJobs := backfillJobs - {job};
          assert backfillJobs == before;
        case Finish(job) =>
          backfillJobs := backfillJobs - {job};
          action := Nothing;
      }
    }
  }

  // ----- the whole system

  /**
   Where a task is: in its select; out of it because the backfill ended; out of it because the
   cancellation was taken; or done, about to drop its permit.
   */
  datatype Phase = Selecting | Ended | TakenCancel | Exiting

  datatype Task = Task(remaining: seq<BlockNumber>, phase: Phase, cancelSent: bool)

  datatype Ack = Pending | Acked | Dropped

  datatype Loop = Idle | Awaiting(job: JobId, ack: Ack)

  /** `cancelled`, `ranges` and `processed` are history. */
  datatype State = State(
    core: Core,
    queue: seq<Message>,
    tasks: map<JobId, Task>,
    loop_: Loop,
    replies: seq<Reply>,
    cancelled: set<JobId>,
    ranges: map<JobId, seq<BlockNumber>>,
    processed: map<JobId, seq<BlockNumber>>)

  datatype Label =
    | Request(message: Message)
    | HandleNext
    | AckArrives
    | Process(job: JobId)
    | End(job: JobId)
    | TakeCancel(job: JobId)
    | TakeClosed(job: JobId)
    | SendFinish(job: JobId)
    | SendAck(job: JobId)
    | Exit(job: JobId)

  function InitState(limit: nat): State {
    State(Core(limit, 0, {}), [], map[], Idle, [], {}, map[], map[])
  }

  predicate InPhase(s: State, j: JobId, p: Phase) {
    j in s.tasks && s.tasks[j].phase == p
  }

  /** The jobs whose cancel receiver is alive: those still in their select. */
  function Listening(s: State): set<JobId> {
    set j | j in s.tasks && s.tasks[j].phase == Selecting
  }

  predicate Enabled(s: State, l: Label) {
    match l
    case Request(m) => !m.Finish?
    case HandleNext => s.loop_.Idle? && s.queue != []
    case AckArrives => s.loop_.Awaiting? && s.loop_.ack != Pending
    case Process(j) => InPhase(s, j, Selecting) && s.tasks[j].remaining != []
    case End(j) => InPhase(s, j, Selecting)
    case TakeCancel(j) => InPhase(s, j, Selecting) && s.tasks[j].cancelSent
    case TakeClosed(j) => InPhase(s, j, Selecting) && !s.tasks[j].cancelSent && j !in s.core.jobs
    case SendFinish(j) => InPhase(s, j, Ended)
    case SendAck(j) => InPhase(s, j, TakenCancel)
    case Exit(j) => InPhase(s, j, Exiting)
  }

  function SetTask(s: State, j: JobId, t: Task): State {
    s.(tasks := s.tasks[j := t])
  }

  /** The awaited acknowledgement of job `j` becomes `ack`, if it is awaited. */
  function Resolve(s: State, j: JobId, ack: Ack): State {
    if s.loop_ == Awaiting(j, Pending) then s.(loop_ := Awaiting(j, ack)) else s
  }

  /** The ExEx takes the next message off the queue and handles it. */
  function HandleStep(s: State): State
    requires Enabled(s, HandleNext)
  {
    var m, rest := s.queue[0], s.queue[1..];
    var (core, action) := Handle(s.core, m, Listening(s));
    var cancelled := if m.Cancel? && m.job in s.core.jobs then s.cancelled + {m.job} else s.cancelled;
    match action
    case Spawn(j, blocks) =>
      State(core, rest, s.tasks[j := Task(blocks, Selecting, false)], s.loop_, s.replies + [Started(j)],
            cancelled, s.ranges[j := blocks], s.processed[j := []])
    case Answer(r) =>
      State(core, rest, s.tasks, s.loop_, s.replies + [r], cancelled, s.ranges, s.processed)
    case SendCancel(j) =>
      State(core, rest, if j in s.tasks then s.tasks[j := s.tasks[j].(cancelSent := true)] else s.tasks,
            Awaiting(j, Pending), s.replies, cancelled, s.ranges, s.processed)
    case Nothing =>
      State(core, rest, s.tasks, s.loop_, s.replies, cancelled, s.ranges, s.processed)
  }

  function Step(s: State, l: Label): State
    requires Enabled(s, l)
  {
    match l
    case Request(m) => s.(queue := s.queue + [m])
    case HandleNext => HandleStep(s)
    case AckArrives => s.(loop_ := Idle, replies := s.replies + [Cancelled(s.loop_.job)])
    case Process(j) =>
      var t := s.tasks[j];
      var done := (if j in s.processed then s.processed[j] else []) + [t.remaining[0]];
      SetTask(s, j, t.(remaining := t.remaining[1..])).(processed := s.processed[j := done])
    case End(j) =>
      // leaving the select drops the cancel receiver, and an acknowledgement sender inside it
      Resolve(SetTask(s, j, s.tasks[j].(phase := Ended)), j, Dropped)
    case TakeCancel(j) => SetTask(s, j, s.tasks[j].(phase := TakenCancel))
    case TakeClosed(j) => SetTask(s, j, s.tasks[j].(phase := Exiting))
    case SendFinish(j) => SetTask(s, j, s.tasks[j].(phase := Exiting)).(queue := s.queue + [Finish(j)])
    case SendAck(j) => Resolve(SetTask(s, j, s.tasks[j].(phase := Exiting)), j, Acked)
    case Exit(j) => s.(tasks := s.tasks - {j}, core := s.core.(permits := s.core.permits + 1))
  }

  predicate ValidRun(s: State, labels: seq<Label>)
    decreases |labels|
  {
    labels == [] || (Enabled(s, labels[0]) && ValidRun(Step(s, labels[0]), labels[1..]))
  }

  function Run(s: State, labels: seq<Label>): State
    requires ValidRun(s, labels)
    decreases |labels|
  {
    if labels == [] then s else Run(Step(s, labels[0]), labels[1..])
  }

  // ----- the invariant

  /** Free permits and live tasks make up the limit. */
  predicate PermitsConserved(s: State, limit: nat) {
    s.core.permits + |s.tasks| == limit
  }

  /** Every id in use has been issued. */
  ghost predicate IdsIssued(s: State) {
    && (forall j: JobId :: j in s.tasks ==> j < s.core.nextId)
    && (forall j: JobId :: j in s.core.jobs ==> j < s.core.nextId)
    && (forall j: JobId :: j in s.cancelled ==> j < s.core.nextId)
    && (forall j: JobId :: Finish(j) in s.queue ==> j < s.core.nextId)
    && (s.loop_.Awaiting? ==> s.loop_.job in s.cancelled)
  }

  /** The job is still running: its Finish message is yet to be sent. */
  predicate Running(s: State, j: JobId) {
    InPhase(s, j, Selecting) || InPhase(s, j, Ended)
  }

  /** The job map holds exactly the uncancelled jobs still running or with a Finish on its way. */
  ghost predicate JobMapExact(s: State) {
    forall j: JobId :: j in s.core.jobs <==> j !in s.cancelled && (Running(s, j) || Finish(j) in s.queue)
  }

  /** No Finish is queued twice. */
  predicate FinishUnique(queue: seq<Message>) {
    forall i, k :: 0 <= i < k < |queue| && queue[i].Finish? ==> queue[i] != queue[k]
  }

  /** A Finish is queued at most once, and only for a job that has sent it. */
  ghost predicate FinishOnce(s: State) {
    && FinishUnique(s.queue)
    && (forall j: JobId :: Finish(j) in s.queue ==> j !in s.tasks || s.tasks[j].phase == Exiting)
  }

  /** A task waits for nobody but the ExEx that waits for it. */
  ghost predicate CancelsMatched(s: State) {
    && (forall j: JobId :: j in s.tasks && s.tasks[j].cancelSent ==> j in s.cancelled)
    && (forall j: JobId :: InPhase(s, j, Selecting) && j in s.cancelled ==>
          s.tasks[j].cancelSent && s.loop_ == Awaiting(j, Pending))
    && (forall j: JobId :: InPhase(s, j, TakenCancel) ==> s.loop_ == Awaiting(j, Pending))
    && (s.loop_.Awaiting? && s.loop_.ack == Pending ==>
          InPhase(s, s.loop_.job, Selecting) || InPhase(s, s.loop_.job, TakenCancel))
    && (s.loop_.Awaiting? && s.loop_.ack != Pending ==>
          !InPhase(s, s.loop_.job, Selecting) && !InPhase(s, s.loop_.job, TakenCancel))
  }

  /** Job `j` has processed a prefix of its range, in order, and has the rest left while it selects. */
  predicate JobInOrder(s: State, j: JobId) {
    && j in s.ranges && j in s.processed
    && s.processed[j] <= s.ranges[j]
    && (InPhase(s, j, Selecting) ==> s.ranges[j] == s.processed[j] + s.tasks[j].remaining)
  }

  ghost predicate ProgressInOrder(s: State) {
    forall j: JobId :: j < s.core.nextId ==> JobInOrder(s, j)
  }

  ghost predicate Inv(s: State, limit: nat) {
    && PermitsConserved(s, limit)
    && IdsIssued(s)
    && JobMapExact(s)
    && FinishOnce(s)
    && CancelsMatched(s)
    && ProgressInOrder(s)
  }

  lemma AppendedMessages(queue: seq<Message>, m: Message)
    ensures forall x :: x in queue + [m] <==> x in queue || x == m
  {
  }

  lemma HeadMessage(queue: seq<Message>)
    requires queue != []
    ensures forall x :: x in queue <==> x == queue[0] || x in queue[1..]
  {
    assert queue == [queue[0]] + queue[1..];
  }

  /** The tasks after a message has been handled. */
  lemma TasksAfterHandling(s: State)
    requires Enabled(s, HandleNext)
    ensures var s' := Step(s, HandleNext);
      if s.queue[0].Start? && s.core.permits > 0
      then s'.tasks.Keys == s.tasks.Keys + {s.core.nextId} && s'.core.permits == s.core.permits - 1
      else s'.tasks.Keys == s.tasks.Keys && s'.core.permits == s.core.permits
  {
  }

  lemma PermitsKept(s: State, limit: nat, l: Label)
    requires PermitsConserved(s, limit) && IdsIssued(s) && Enabled(s, l)
    ensures PermitsConserved(Step(s, l), limit)
  {
    assert |s.tasks| == |s.tasks.Keys| && |Step(s, l).tasks| == |Step(s, l).tasks.Keys|;
    if l.HandleNext? {
      TasksAfterHandling(s);
    } else if l.Exit? {
      assert Step(s, l).tasks.Keys == s.tasks.Keys - {l.job};
    } else {
      assert Step(s, l).tasks.Keys == s.tasks.Keys;
    }
  }

  lemma IdsHandled(s: State)
    requires IdsIssued(s) && Enabled(s, HandleNext)
    ensures IdsIssued(Step(s, HandleNext))
  {
    HeadMessage(s.queue);
  }

  lemma IdsKept(s: State, l: Label)
    requires IdsIssued(s) && Enabled(s, l)
    ensures IdsIssued(Step(s, l))
  {
    if l.HandleNext? {
      IdsHandled(s);
    } else {
      if l.Request? { AppendedMessages(s.queue, l.message); }
      if l.SendFinish? { AppendedMessages(s.queue, Finish(l.job)); }
    }
  }

  lemma JobMapAfterStart(s: State)
    requires JobMapExact(s) && FinishOnce(s) && IdsIssued(s) && CancelsMatched(s) && Enabled(s, HandleNext) && s.queue[0].Start?
    ensures JobMapExact(Step(s, HandleNext))
  {
    HeadMessage(s.queue);
  }

  lemma JobMapAfterCancel(s: State)
    requires JobMapExact(s) && FinishOnce(s) && IdsIssued(s) && CancelsMatched(s) && Enabled(s, HandleNext) && s.queue[0].Cancel?
    ensures JobMapExact(Step(s, HandleNext))
  {
    HeadMessage(s.queue);
  }

  lemma JobMapAfterFinish(s: State)
    requires JobMapExact(s) && FinishOnce(s) && IdsIssued(s) && CancelsMatched(s) && Enabled(s, HandleNext) && s.queue[0].Finish?
    ensures JobMapExact(Step(s, HandleNext))
  {
    HeadMessage(s.queue);
    assert s.queue[0] !in s.queue[1..];
  }

  lemma JobMapKept(s: State, l: Label)
    requires JobMapExact(s) && FinishOnce(s) && IdsIssued(s) && CancelsMatched(s) && Enabled(s, l)
    ensures JobMapExact(Step(s, l))
  {
    if l.HandleNext? {
      if s.queue[0].Start? { JobMapAfterStart(s); }
      else if s.queue[0].Cancel? { JobMapAfterCancel(s); }
      else { JobMapAfterFinish(s); }
    } else {
      if l.Request? { AppendedMessages(s.queue, l.message); }
      if l.SendFinish? { AppendedMessages(s.queue, Finish(l.job)); }
    }
  }

  lemma FinishUniqueKept(queue: seq<Message>, m: Message)
    requires FinishUnique(queue)
    ensures queue != [] ==> FinishUnique(queue[1..])
    ensures m !in queue || !m.Finish? ==> FinishUnique(queue + [m])
  {
  }

  lemma FinishOnceAfterStart(s: State)
    requires FinishOnce(s) && IdsIssued(s) && Enabled(s, HandleNext) && s.queue[0].Start?
    ensures FinishOnce(Step(s, HandleNext))
  {
    HeadMessage(s.queue);
    FinishUniqueKept(s.queue, s.queue[0]);
  }

  lemma FinishOnceAfterCancel(s: State)
    requires FinishOnce(s) && IdsIssued(s) && Enabled(s, HandleNext) && s.queue[0].Cancel?
    ensures FinishOnce(Step(s, HandleNext))
  {
    HeadMessage(s.queue);
    FinishUniqueKept(s.queue, s.queue[0]);
  }

  lemma FinishOnceAfterFinish(s: State)
    requires FinishOnce(s) && IdsIssued(s) && Enabled(s, HandleNext) && s.queue[0].Finish?
    ensures FinishOnce(Step(s, HandleNext))
  {
    HeadMessage(s.queue);
    FinishUniqueKept(s.queue, s.queue[0]);
  }

  lemma FinishOnceKept(s: State, l: Label)
    requires FinishOnce(s) && IdsIssued(s) && Enabled(s, l)
    ensures FinishOnce(Step(s, l))
  {
    if l.HandleNext? {
      if s.queue[0].Start? { FinishOnceAfterStart(s); }
      else if s.queue[0].Cancel? { FinishOnceAfterCancel(s); }
      else { FinishOnceAfterFinish(s); }
    } else if l.Request? {
      AppendedMessages(s.queue, l.message);
      FinishUniqueKept(s.queue, l.message);
    } else if l.SendFinish? {
      AppendedMessages(s.queue, Finish(l.job));
      FinishUniqueKept(s.queue, Finish(l.job));
    }
  }

  lemma CancelsMatchedAfterStart(s: State)
    requires CancelsMatched(s) && IdsIssued(s) && JobMapExact(s) && FinishOnce(s) && Enabled(s, HandleNext) && s.queue[0].Start?
    ensures CancelsMatched(Step(s, HandleNext))
  {
  }

  lemma CancelsMatchedAfterCancel(s: State)
    requires CancelsMatched(s) && IdsIssued(s) && JobMapExact(s) && FinishOnce(s) && Enabled(s, HandleNext) && s.queue[0].Cancel?
    ensures CancelsMatched(Step(s, HandleNext))
  {
  }

  lemma CancelsMatchedAfterFinish(s: State)
    requires CancelsMatched(s) && IdsIssued(s) && JobMapExact(s) && FinishOnce(s) && Enabled(s, HandleNext) && s.queue[0].Finish?
    ensures CancelsMatched(Step(s, HandleNext))
  {
  }

  /** Steps of the awaited or another task, and the end of the wait. */
  lemma CancelsMatchedByTasks(s: State, l: Label)
    requires CancelsMatched(s) && IdsIssued(s) && JobMapExact(s) && FinishOnce(s) && Enabled(s, l)
    requires l.AckArrives? || l.End? || l.TakeCancel? || l.SendAck?
    ensures CancelsMatched(Step(s, l))
  {
  }

  lemma CancelsMatchedKept(s: State, l: Label)
    requires CancelsMatched(s) && IdsIssued(s) && JobMapExact(s) && FinishOnce(s) && Enabled(s, l)
    ensures CancelsMatched(Step(s, l))
  {
    if l.HandleNext? {
      if s.queue[0].Start? { CancelsMatchedAfterStart(s); }
      else if s.queue[0].Cancel? { CancelsMatchedAfterCancel(s); }
      else { CancelsMatchedAfterFinish(s); }
    } else if l.AckArrives? || l.End? || l.TakeCancel? || l.SendAck? {
      CancelsMatchedByTasks(s, l);
    }
  }

  lemma ProgressKept(s: State, l: Label)
    requires ProgressInOrder(s) && IdsIssued(s) && Enabled(s, l)
    ensures ProgressInOrder(Step(s, l))
  {
    var s' := Step(s, l);
    forall j: JobId | j < s'.core.nextId ensures JobInOrder(s', j) {
      if j < s.core.nextId {
        assert JobInOrder(s, j);
        if l == Process(j) {
          assert s.processed[j] + s.tasks[j].remaining == s'.processed[j] + s'.tasks[j].remaining;
        }
      }
    }
  }

  /** A selecting job's cancel sender is never dropped unused: no job stops without a cause. */
  lemma NeverClosed(s: State, limit: nat, j: JobId)
    requires Inv(s, limit)
    ensures !Enabled(s, TakeClosed(j))
  {
  }

  lemma StepKeepsInv(s: State, limit: nat, l: Label)
    requires Inv(s, limit) && Enabled(s, l)
    ensures Inv(Step(s, l), limit)
  {
    PermitsKept(s, limit, l);
    IdsKept(s, l);
    JobMapKept(s, l);
    FinishOnceKept(s, l);
    CancelsMatchedKept(s, l);
    ProgressKept(s, l);
  }

  /** Every reachable state satisfies the invariant. */
  lemma {:induction false} RunKeepsInv(s: State, limit: nat, labels: seq<Label>)
    requires Inv(s, limit) && ValidRun(s, labels)
    ensures Inv(Run(s, labels), limit)
    decreases |labels|
  {
    if labels == [] {
    } else {
      StepKeepsInv(s, limit, labels[0]);
      RunKeepsInv(Step(s, labels[0]), limit, labels[1..]);
    }
  }

  lemma InitInv(limit: nat)
    ensures Inv(InitState(limit), limit)
  {
  }

  /**
   In every reachable state: permits and tasks make up the limit, and the job map holds
   exactly the uncancelled jobs still running or with a Finish on its way.
   */
  lemma ReachableStates(limit: nat, labels: seq<Label>)
    requires ValidRun(InitState(limit), labels)
    ensures Inv(Run(InitState(limit), labels), limit)
  {
    InitInv(limit);
    RunKeepsInv(InitState(limit), limit, labels);
  }

  /** A start is refused exactly when as many tasks are alive as the limit allows. */
  lemma RefusedExactlyWhenFull(s: State, limit: nat)
    requires Inv(s, limit) && Enabled(s, HandleNext) && s.queue[0].Start?
    ensures var replies := Step(s, HandleNext).replies;
      |replies| == |s.replies| + 1 && (replies[|s.replies|] == LimitReached <==> |s.tasks| == limit)
  {
  }

  // ----- ids

  /** The ids given out, in the order of the replies. */
  function StartedIds(replies: seq<Reply>): seq<JobId> {
    if replies == [] then []
    else
      var before := StartedIds(replies[..|replies| - 1]);
      match replies[|replies| - 1]
      case Started(j) => before + [j]
      case _ => before
  }

  lemma StartedIdsAppend(replies: seq<Reply>, r: Reply)
    ensures StartedIds(replies + [r]) == StartedIds(replies) + (match r { case Started(j) => [j] case _ => [] })
  {
    assert (replies + [r])[..|replies|] == replies;
  }

  /** A step gives at most one reply, and an id with it exactly when the reply is `Started`. */
  lemma OneReplyAStep(s: State, l: Label)
    requires Enabled(s, l)
    ensures var s' := Step(s, l);
      || (s'.replies == s.replies && s'.core.nextId == s.core.nextId)
      || (&& |s'.replies| == |s.replies| + 1
          && s'.replies == s.replies + [s'.replies[|s.replies|]]
          && (if s'.replies[|s.replies|].Started?
              then s'.replies[|s.replies|].job == s.core.nextId && s'.core.nextId == s.core.nextId + 1
              else s'.core.nextId == s.core.nextId))
  {
  }

  function FirstIds(n: nat): seq<JobId> {
    if n == 0 then [] else FirstIds(n - 1) + [n - 1]
  }

  lemma IdsCountUp(s: State, l: Label)
    requires StartedIds(s.replies) == FirstIds(s.core.nextId) && Enabled(s, l)
    ensures StartedIds(Step(s, l).replies) == FirstIds(Step(s, l).core.nextId)
  {
    OneReplyAStep(s, l);
    var replies := Step(s, l).replies;
    if replies != s.replies { StartedIdsAppend(s.replies, replies[|s.replies|]); }
  }

  /** Over a whole run the ids given out are 0, 1, 2, ...: none is ever used twice. */
  lemma {:induction false} IdsNeverReused(s: State, labels: seq<Label>)
    requires StartedIds(s.replies) == FirstIds(s.core.nextId) && ValidRun(s, labels)
    ensures StartedIds(Run(s, labels).replies) == FirstIds(Run(s, labels).core.nextId)
    decreases |labels|
  {
    if labels == [] {
    } else {
      IdsCountUp(s, labels[0]);
      IdsNeverReused(Step(s, labels[0]), labels[1..]);
    }
  }

  // ----- cancellation

  /** The step answers a request to cancel job `j`. */
  predicate RepliesToCancel(s: State, l: Label, j: JobId)
    requires Enabled(s, l)
  {
    var replies := Step(s, l).replies;
    |replies| == |s.replies| + 1 && replies[|s.replies|] in {Cancelled(j), NotFound(j), CancelFailed(j)}
  }

  /** An issued job that has left its select. */
  predicate Quiet(s: State, j: JobId) {
    j < s.core.nextId && !InPhase(s, j, Selecting)
  }

  /** Whatever the answer to a cancellation is, the job has left its select when it is given. */
  lemma ReplyMeansQuiet(s: State, limit: nat, l: Label, j: JobId)
    requires Inv(s, limit) && Enabled(s, l) && RepliesToCancel(s, l, j) && j < s.core.nextId
    ensures Quiet(Step(s, l), j)
  {
  }

  lemma QuietStays(s: State, l: Label, j: JobId)
    requires Quiet(s, j) && Enabled(s, l)
    ensures Quiet(Step(s, l), j) && l != Process(j)
    ensures Lookup(Step(s, l).processed, j) == Lookup(s.processed, j)
  {
  }

  lemma {:induction false} QuietRun(s: State, labels: seq<Label>, j: JobId)
    requires Quiet(s, j) && ValidRun(s, labels)
    ensures Process(j) !in labels
    ensures Lookup(Run(s, labels).processed, j) == Lookup(s.processed, j)
    decreases |labels|
  {
    if labels == [] {
    } else {
      QuietStays(s, labels[0], j);
      QuietRun(Step(s, labels[0]), labels[1..], j);
    }
  }

  /**
   Cancel safety: once a request to cancel an issued job has been answered, whether with
   success, "not found" or "failed to cancel", no later step of any run processes another of
   its blocks.
   */
  lemma CancelSafety(limit: nat, before: seq<Label>, l: Label, after: seq<Label>, j: JobId)
    requires ValidRun(InitState(limit), before)
    requires var s := Run(InitState(limit), before);
      Enabled(s, l) && j < s.core.nextId && RepliesToCancel(s, l, j) && ValidRun(Step(s, l), after)
    ensures Process(j) !in after
    ensures var s := Run(InitState(limit), before);
      Lookup(Run(Step(s, l), after).processed, j) == Lookup(s.processed, j)
  {
    var s := Run(InitState(limit), before);
    ReachableStates(limit, before);
    ReplyMeansQuiet(s, limit, l, j);
    QuietRun(Step(s, l), after, j);
  }

  /** While the ExEx waits for a job, a step of that job, or the end of the wait, is enabled. */
  lemma NoStuckCancel(s: State, limit: nat)
    requires Inv(s, limit) && s.loop_.Awaiting?
    ensures if s.loop_.ack == Pending then Enabled(s, TakeCancel(s.loop_.job)) || Enabled(s, SendAck(s.loop_.job))
            else Enabled(s, AckArrives)
  {
  }

  /** How many more steps job `j` can take before its acknowledgement is settled. */
  function WaitMeasure(s: State, j: JobId): nat {
    if InPhase(s, j, Selecting) then |s.tasks[j].remaining| + 2
    else if InPhase(s, j, TakenCancel) then 1
    else 0
  }

  predicate StepOf(l: Label, j: JobId) {
    !l.Request? && !l.HandleNext? && !l.AckArrives? && l.job == j
  }

  /** Each step of the awaited job settles the wait or brings it closer; other steps leave it. */
  lemma WaitShrinks(s: State, limit: nat, l: Label, j: JobId)
    requires Inv(s, limit) && Enabled(s, l) && s.loop_ == Awaiting(j, Pending)
    ensures var s' := Step(s, l);
      if StepOf(l, j) then WaitMeasure(s', j) < WaitMeasure(s, j)
      else s'.loop_ == s.loop_ && WaitMeasure(s', j) == WaitMeasure(s, j)
    ensures Step(s, l).loop_ == Awaiting(j, Pending) <==> WaitMeasure(Step(s, l), j) > 0
  {
  }

  function CountSteps(labels: seq<Label>, j: JobId): nat {
    if labels == [] then 0 else (if StepOf(labels[0], j) then 1 else 0) + CountSteps(labels[1..], j)
  }

  ghost predicate WaitsThroughout(s: State, labels: seq<Label>, j: JobId)
    requires ValidRun(s, labels)
    decreases |labels|
  {
    && s.loop_ == Awaiting(j, Pending)
    && (labels != [] ==> WaitsThroughout(Step(s, labels[0]), labels[1..], j))
  }

  /** A wait outlasts only as many steps of the awaited job as it has blocks left, plus one. */
  lemma {:induction false} WaitIsBounded(s: State, limit: nat, labels: seq<Label>, j: JobId)
    requires Inv(s, limit) && ValidRun(s, labels) && WaitsThroughout(s, labels, j)
    ensures CountSteps(labels, j) < WaitMeasure(s, j)
    decreases |labels|
  {
    if labels == [] {
    } else {
      StepKeepsInv(s, limit, labels[0]);
      WaitShrinks(s, limit, labels[0], j);
      WaitIsBounded(Step(s, labels[0]), limit, labels[1..], j);
    }
  }
}
