/** Two oracle peers joined by first-in-first-out channels, over whole runs. */
module GossipNet {
  import opened Prelude
  import opened OracleMessages
  import opened Gossip

  /** One peer; `sent` and `notes` are history, `open` says that its connection still polls. */
  datatype Peer = Peer(conn: Conn, sent: seq<Message>, notes: seq<Note>, open: bool)

  /** `injected` adds up the weights of all pings, ticks and commands so far. */
  datatype Net = Net(left: Peer, right: Peer, injected: nat)

  datatype Label = Ask(left: bool, command: Command) | Broadcast(left: bool, tick: SignedTicker) | PollPeer(left: bool)

  function NewPeer(outgoing: bool): Peer {
    Peer(NewConn(outgoing), [], [], true)
  }

  /** The left peer opened the connection. */
  function InitNet(): Net {
    Net(NewPeer(true), NewPeer(false), 2)
  }

  function Sending(me: Peer, m: Message, note: Note): Peer {
    me.(sent := me.sent + [m], notes := me.notes + [note])
  }

  function Receiving(other: Peer, m: Message): Peer {
    other.(conn := other.conn.(inbox := other.conn.inbox + [Some(m)]))
  }

  function PollOne(x: Crypto, me: Peer, other: Peer): (Peer, Peer) {
    if !me.open then (me, other)
    else
      var (c, r) := Poll(x, me.conn);
      match r
      case Send(m) =>
        (Sending(me.(conn := c), m, NoteOf(me.conn, c)), Receiving(other, m))
      case Pending => (me.(conn := c), other)
      case Closed => (me.(conn := c, open := false), other)
      case Panicked => (me.(conn := c, open := false), other)
  }

  function AskPeer(p: Peer, command: Command): Peer {
    p.(conn := p.conn.(commands := p.conn.commands + [command]))
  }

  function TickPeer(p: Peer, tick: SignedTicker): Peer {
    p.(conn := p.conn.(ticks := p.conn.ticks + [tick]))
  }

  function Step(x: Crypto, n: Net, l: Label): Net {
    match l
    case Ask(left, command) =>
      if left then n.(left := AskPeer(n.left, command), injected := n.injected + 1)
      else n.(right := AskPeer(n.right, command), injected := n.injected + 1)
    case Broadcast(left, tick) =>
      if left then n.(left := TickPeer(n.left, tick), injected := n.injected + 2)
      else n.(right := TickPeer(n.right, tick), injected := n.injected + 2)
    case PollPeer(left) =>
      if left then
        var (me, other) := PollOne(x, n.left, n.right);
        n.(left := me, right := other)
      else
        var (me, other) := PollOne(x, n.right, n.left);
        n.(left := other, right := me)
  }

  function Run(x: Crypto, n: Net, labels: seq<Label>): Net
    decreases |labels|
  {
    if labels == [] then n else Run(x, Step(x, n, labels[0]), labels[1..])
  }

  // ----- the invariant of every run

  /** What `me` has handled, followed by what is in its inbox, is what `other` has sent. */
  ghost predicate Linked(me: Peer, other: Peer) {
    Somes(me.conn.handled) + me.conn.inbox == Somes(other.sent)
  }

  /** Message `i` of `me` carries the list for the id in its note, as it was when the message was sent. */
  ghost predicate NotedAt(x: Crypto, me: Peer, i: nat)
    requires i < |me.sent| == |me.notes|
  {
    var note := me.notes[i];
    && note.seen <= |me.conn.handled|
    && (me.sent[i].Attestations? ==>
          note.about.Some? && me.sent[i].signers == Signers(x, me.conn.handled[..note.seen], note.about.value))
  }

  ghost predicate Noted(x: Crypto, me: Peer) {
    |me.sent| == |me.notes| && forall i :: 0 <= i < |me.sent| ==> NotedAt(x, me, i)
  }

  ghost predicate PeerInv(x: Crypto, me: Peer, other: Peer) {
    && AllParse(me.conn.inbox) && Linked(me, other)
    && RecordsExactly(x, me.conn) && AnswersExactly(me.conn) && Noted(x, me)
    && (me.open <==> AllAnswerable(x, me.conn.handled))
  }

  /** A connection that ended lost one unit of weight. */
  function Lost(me: Peer): nat {
    if me.open then 0 else 1
  }

  function Total(n: Net): nat {
    Account(n.left.conn) + Account(n.right.conn) + Lost(n.left) + Lost(n.right)
  }

  ghost predicate NetInv(x: Crypto, n: Net) {
    PeerInv(x, n.left, n.right) && PeerInv(x, n.right, n.left) && Total(n) == n.injected
  }

  lemma NotesStay(x: Crypto, me: Peer, c: Conn)
    requires Noted(x, me) && me.conn.handled <= c.handled
    ensures Noted(x, me.(conn := c))
  {
    forall i | 0 <= i < |me.sent| ensures NotedAt(x, me.(conn := c), i) {
      assert NotedAt(x, me, i);
      assert c.handled[..me.notes[i].seen] == me.conn.handled[..me.notes[i].seen];
    }
  }

  /** The note says what the message to be sent is about. */
  ghost predicate WellNoted(x: Crypto, me: Peer, m: Message, note: Note) {
    && note.seen == |me.conn.handled|
    && (m.Attestations? ==> note.about.Some? && m.signers == Signers(x, me.conn.handled, note.about.value))
  }

  lemma NoteAdded(x: Crypto, me: Peer, m: Message, note: Note)
    requires Noted(x, me) && WellNoted(x, me, m, note)
    ensures Noted(x, Sending(me, m, note))
  {
    var more := Sending(me, m, note);
    assert me.conn.handled[..note.seen] == me.conn.handled;
    forall i | 0 <= i < |more.sent| ensures NotedAt(x, more, i) {
      if i < |me.sent| { assert NotedAt(x, me, i); }
    }
  }

  /** The polled peer, apart from what it may have sent. */
  lemma PolledPeer(x: Crypto, me: Peer, other: Peer)
    requires PeerInv(x, me, other) && me.open
    ensures var (c, r) := Poll(x, me.conn);
      PeerInv(x, me.(conn := c, open := r.Send? || r.Pending?), other)
  {
    var (c, r) := Poll(x, me.conn);
    PollBalances(x, me.conn);
    PollRecords(x, me.conn);
    PollAnswers(x, me.conn);
    PollInOrder(x, me.conn);
    ParsedInOrder(x, me.conn);
    PollEnds(x, me.conn);
    NotesStay(x, me, c);
    var next := me.(conn := c, open := r.Send? || r.Pending?);
    assert forall i :: 0 <= i < |me.sent| ==> NotedAt(x, me.(conn := c), i) ==> NotedAt(x, next, i);
  }

  /** The sender keeps its invariant. */
  lemma SentKeepsInv(x: Crypto, me: Peer, other: Peer, m: Message, note: Note)
    requires PeerInv(x, me, other) && WellNoted(x, me, m, note)
    ensures PeerInv(x, Sending(me, m, note), Receiving(other, m))
  {
    NoteAdded(x, me, m, note);
  }

  /** A message sent goes to the end of the receiver's inbox. */
  lemma DeliveredKeepsInv(x: Crypto, me: Peer, other: Peer, m: Message, note: Note)
    requires PeerInv(x, other, me)
    ensures PeerInv(x, Receiving(other, m), Sending(me, m, note))
    ensures Account(Receiving(other, m).conn) == Account(other.conn) + Weight(m)
  {
    NotesStay(x, other, Receiving(other, m).conn);
    InboxWeightAppend(other.conn.inbox, m);
    assert Somes(me.sent + [m]) == Somes(me.sent) + [Some(m)];
    assert Somes(other.conn.handled) + (other.conn.inbox + [Some(m)]) == Somes(me.sent + [m]);
  }

  /** One poll of either peer keeps the invariant of both, and the total weight. */
  lemma PollOneKeepsInv(x: Crypto, me: Peer, other: Peer)
    requires PeerInv(x, me, other) && PeerInv(x, other, me)
    ensures var (me', other') := PollOne(x, me, other);
      && PeerInv(x, me', other') && PeerInv(x, other', me')
      && Account(me'.conn) + Account(other'.conn) + Lost(me') == Account(me.conn) + Account(other.conn) + Lost(me)
      && other'.open == other.open
  {
    if me.open {
      var (c, r) := Poll(x, me.conn);
      PolledPeer(x, me, other);
      PollBalances(x, me.conn);
      if r.Send? {
        if r.message.Attestations? { PollSendsList(x, me.conn); }
        SentKeepsInv(x, me.(conn := c), other, r.message, NoteOf(me.conn, c));
        DeliveredKeepsInv(x, me.(conn := c), other, r.message, NoteOf(me.conn, c));
      }
    }
  }

  lemma StepKeepsInv(x: Crypto, n: Net, l: Label)
    requires NetInv(x, n)
    ensures NetInv(x, Step(x, n, l))
  {
    match l
    case Ask(left, command) =>
      if left { NotesStay(x, n.left, AskPeer(n.left, command).conn); }
      else { NotesStay(x, n.right, AskPeer(n.right, command).conn); }
    case Broadcast(left, tick) =>
      if left { NotesStay(x, n.left, TickPeer(n.left, tick).conn); }
      else { NotesStay(x, n.right, TickPeer(n.right, tick).conn); }
    case PollPeer(left) =>
      if left { PollOneKeepsInv(x, n.left, n.right); } else { PollOneKeepsInv(x, n.right, n.left); }
  }

  lemma {:induction false} RunKeepsInv(x: Crypto, n: Net, labels: seq<Label>)
    requires NetInv(x, n)
    ensures NetInv(x, Run(x, n, labels))
    decreases |labels|
  {
    if labels == [] {
    } else {
      StepKeepsInv(x, n, labels[0]);
      RunKeepsInv(x, Step(x, n, labels[0]), labels[1..]);
    }
  }

  lemma InitNetInv(x: Crypto)
    ensures NetInv(x, InitNet())
  {
  }

  // ----- every run

  /** Two for each tick and one for each command of a run. */
  function TotalInput(labels: seq<Label>): nat {
    if labels == [] then 0
    else
      (match labels[0]
       case Ask(_, _) => 1
       case Broadcast(_, _) => 2
       case PollPeer(_) => 0) + TotalInput(labels[1..])
  }

  lemma {:induction false} InjectedByRun(x: Crypto, n: Net, labels: seq<Label>)
    ensures Run(x, n, labels).injected == n.injected + TotalInput(labels)
    decreases |labels|
  {
    if labels == [] {
    } else {
      InjectedByRun(x, Step(x, n, labels[0]), labels[1..]);
    }
  }

  lemma HandledIsPrefix(me: Peer, other: Peer)
    requires Linked(me, other)
    ensures me.conn.handled <= other.sent
    ensures other.sent[..|me.conn.handled|] == me.conn.handled
    ensures |other.sent| == |me.conn.handled| + |me.conn.inbox|
  {
    var h := me.conn.handled;
    assert |Somes(other.sent)| == |other.sent|;
    forall i | 0 <= i < |h| ensures h[i] == other.sent[i] {
      assert Some(h[i]) == (Somes(h) + me.conn.inbox)[i] == Somes(other.sent)[i];
    }
  }

  /** What a peer has sent is handled or still outstanding at the other. */
  lemma SentWithinAccount(x: Crypto, me: Peer, other: Peer)
    requires PeerInv(x, me, other)
    ensures |other.sent| <= Account(me.conn)
  {
    HandledIsPrefix(me, other);
    InboxWeightCounts(me.conn.inbox);
  }

  /** Under each id `me` lists exactly the signers of the attesting tickers `other` sent, as far as handled. */
  ghost predicate ListsWhatWasSent(x: Crypto, me: Peer, other: Peer) {
    && me.conn.handled <= other.sent
    && forall id :: AttestationsOf(me.conn, id) == Signers(x, other.sent[..|me.conn.handled|], id)
  }

  /**
   In every run, whatever tickers are broadcast: under each id a peer lists exactly the ordered
   signers of the tickers the other sent that carry the id and recover to the claimed signer,
   as far as it has handled them; a peer stops exactly when it handles a ticker it cannot
   answer; messages handled, weight outstanding and connections lost add up to the weight put
   in; so two per ping or tick and one per command bound the messages there will ever be.
   */
  lemma GossipExactly(x: Crypto, labels: seq<Label>)
    ensures var n := Run(x, InitNet(), labels);
      && ListsWhatWasSent(x, n.left, n.right) && ListsWhatWasSent(x, n.right, n.left)
      && (n.left.open <==> AllAnswerable(x, n.left.conn.handled))
      && (n.right.open <==> AllAnswerable(x, n.right.conn.handled))
      && Total(n) == 2 + TotalInput(labels)
      && |n.left.sent| + |n.right.sent| <= 2 + TotalInput(labels)
  {
    InitNetInv(x);
    RunKeepsInv(x, InitNet(), labels);
    InjectedByRun(x, InitNet(), labels);
    var n := Run(x, InitNet(), labels);
    HandledIsPrefix(n.left, n.right);
    HandledIsPrefix(n.right, n.left);
    SentWithinAccount(x, n.left, n.right);
    SentWithinAccount(x, n.right, n.left);
  }

  // ----- what holds of the broadcast ticks holds of the tickers sent

  /** Every tick one side broadcasts satisfies `good`. */
  predicate BroadcastsOnly(labels: seq<Label>, left: bool, good: SignedTicker -> bool) {
    forall l :: l in labels && l.Broadcast? && l.left == left ==> good(l.tick)
  }

  /** Every ticker sent or to be sent satisfies `good`. */
  predicate SendsOnly(me: Peer, good: SignedTicker -> bool) {
    && (forall i :: 0 <= i < |me.sent| && me.sent[i].Ticker? ==> good(me.sent[i].signed))
    && (forall i :: 0 <= i < |me.conn.ticks| ==> good(me.conn.ticks[i]))
  }

  lemma PollKeepsSends(x: Crypto, me: Peer, other: Peer, good: SignedTicker -> bool, otherGood: SignedTicker -> bool)
    requires SendsOnly(me, good) && SendsOnly(other, otherGood)
    ensures var (me', other') := PollOne(x, me, other); SendsOnly(me', good) && SendsOnly(other', otherGood)
  {
    PollSendsTicks(x, me.conn);
    var (c, r) := Poll(x, me.conn);
    if r.Send? && r.message.Ticker? {
      assert me.conn.ticks[0] == r.message.signed && me.conn.ticks[1..] == c.ticks;
    }
  }

  lemma {:induction false} RunKeepsSends(
    x: Crypto, n: Net, labels: seq<Label>, leftGood: SignedTicker -> bool, rightGood: SignedTicker -> bool)
    requires BroadcastsOnly(labels, true, leftGood) && BroadcastsOnly(labels, false, rightGood)
    requires SendsOnly(n.left, leftGood) && SendsOnly(n.right, rightGood)
    ensures var n' := Run(x, n, labels); SendsOnly(n'.left, leftGood) && SendsOnly(n'.right, rightGood)
    decreases |labels|
  {
    if labels == [] {
    } else {
      var l := labels[0];
      assert l in labels;
      if l.PollPeer? {
        if l.left { PollKeepsSends(x, n.left, n.right, leftGood, rightGood); }
        else { PollKeepsSends(x, n.right, n.left, rightGood, leftGood); }
      }
      RunKeepsSends(x, Step(x, n, l), labels[1..], leftGood, rightGood);
    }
  }

  // ----- runs with honest ticks

  /** Signed by the address it claims. */
  predicate Honest(x: Crypto, t: SignedTicker) {
    x.parses(t.signature) && Attests(x, t)
  }

  function HonestTick(x: Crypto): SignedTicker -> bool {
    (t: SignedTicker) => Honest(x, t)
  }

  lemma HonestIsAnswerable(x: Crypto, me: Peer, other: Peer)
    requires SendsOnly(other, HonestTick(x)) && me.conn.handled <= other.sent
    ensures AllAnswerable(x, me.conn.handled)
  {
    forall i | 0 <= i < |me.conn.handled| ensures Answerable(x, me.conn.handled[i]) {
      assert me.conn.handled[i] == other.sent[i];
    }
  }

  /** With honest ticks both ends stay open and no weight is lost. */
  lemma HonestGossip(x: Crypto, labels: seq<Label>)
    requires BroadcastsOnly(labels, true, HonestTick(x)) && BroadcastsOnly(labels, false, HonestTick(x))
    ensures var n := Run(x, InitNet(), labels);
      n.left.open && n.right.open && Account(n.left.conn) + Account(n.right.conn) == 2 + TotalInput(labels)
  {
    var n := Run(x, InitNet(), labels);
    GossipExactly(x, labels);
    RunKeepsSends(x, InitNet(), labels, HonestTick(x), HonestTick(x));
    HonestIsAnswerable(x, n.left, n.right);
    HonestIsAnswerable(x, n.right, n.left);
  }

  // ----- what a command is answered with

  /**
   Command `k` of `me` is answered by message `i` of `other`: the list `other` had, when it sent
   it, for the id in the message's note, which need not be the asked one.
   */
  ghost predicate AnsweredWith(x: Crypto, me: Peer, other: Peer, k: nat, i: nat)
    requires TakenBy(me.conn.taken, |me.conn.handled|) && k < |me.conn.taken|
  {
    && i < |other.sent| == |other.notes|
    && other.sent[i].Attestations?
    && AnswerOf(me.conn.taken, me.conn.handled, k) == [(me.conn.taken[k].command.reply, other.sent[i].signers)]
    && var note := other.notes[i];
       && note.about.Some? && note.seen <= |other.conn.handled|
       && other.sent[i].signers == Signers(x, other.conn.handled[..note.seen], note.about.value)
  }

  lemma AnswerMeaning(x: Crypto, me: Peer, other: Peer, k: nat)
    requires PeerInv(x, me, other) && PeerInv(x, other, me)
    requires k < |me.conn.taken| && AnsweredBy(me.conn.taken, me.conn.handled, k).Some?
    ensures AnsweredWith(x, me, other, k, AnsweredBy(me.conn.taken, me.conn.handled, k).value)
  {
    HandledIsPrefix(me, other);
    assert NotedAt(x, other, AnsweredBy(me.conn.taken, me.conn.handled, k).value);
  }

  /** Every answered command of `me` is answered by a list of `other`. */
  ghost predicate AnswersAreLists(x: Crypto, me: Peer, other: Peer) {
    && AnswersExactly(me.conn)
    && forall k :: 0 <= k < |me.conn.taken| && AnsweredBy(me.conn.taken, me.conn.handled, k).Some? ==>
         AnsweredWith(x, me, other, k, AnsweredBy(me.conn.taken, me.conn.handled, k).value)
  }

  /**
   In every run a command is answered by the first list of attestations the other peer sent
   that is handled while the command is pending, by none if there is none, and that list is
   the other peer's for the id it was sent about.
   */
  lemma CommandsAnswered(x: Crypto, labels: seq<Label>)
    ensures var n := Run(x, InitNet(), labels);
      AnswersAreLists(x, n.left, n.right) && AnswersAreLists(x, n.right, n.left)
  {
    InitNetInv(x);
    RunKeepsInv(x, InitNet(), labels);
    var n := Run(x, InitNet(), labels);
    forall k | 0 <= k < |n.left.conn.taken| && AnsweredBy(n.left.conn.taken, n.left.conn.handled, k).Some?
      ensures AnsweredWith(x, n.left, n.right, k, AnsweredBy(n.left.conn.taken, n.left.conn.handled, k).value)
    {
      AnswerMeaning(x, n.left, n.right, k);
    }
    forall k | 0 <= k < |n.right.conn.taken| && AnsweredBy(n.right.conn.taken, n.right.conn.handled, k).Some?
      ensures AnsweredWith(x, n.right, n.left, k, AnsweredBy(n.right.conn.taken, n.right.conn.handled, k).value)
    {
      AnswerMeaning(x, n.right, n.left, k);
    }
  }

  function ClaimedBy(signer: Bytes): SignedTicker -> bool {
    (t: SignedTicker) => t.signer == signer
  }

  /**
   The answer to command `k`, if it has one, is the list the other peer had for the asked id
   when it sent it exactly if as many tickers had attested under the id it was sent about as
   under the asked one.
   */
  ghost predicate AskedListExactly(x: Crypto, me: Peer, other: Peer, k: nat)
    requires TakenBy(me.conn.taken, |me.conn.handled|) && k < |me.conn.taken|
  {
    AnsweredBy(me.conn.taken, me.conn.handled, k).Some? ==>
      var i := AnsweredBy(me.conn.taken, me.conn.handled, k).value;
      && AnsweredWith(x, me, other, k, i)
      && var seen := other.conn.handled[..other.notes[i].seen];
         var asked, about := me.conn.taken[k].command.id, other.notes[i].about.value;
         other.sent[i].signers == Signers(x, seen, asked) <==> AttestedCount(x, seen, about) == AttestedCount(x, seen, asked)
  }

  /** A peer that signs with one key. */
  lemma AnswerIsAskedList(x: Crypto, me: Peer, other: Peer, k: nat, signer: Bytes)
    requires AnswersAreLists(x, me, other) && k < |me.conn.taken|
    requires SendsOnly(me, ClaimedBy(signer)) && other.conn.handled <= me.sent
    ensures AskedListExactly(x, me, other, k)
  {
    var answer := AnsweredBy(me.conn.taken, me.conn.handled, k);
    if answer.Some? {
      var note := other.notes[answer.value];
      var seen := other.conn.handled[..note.seen];
      assert OneSigner(seen, signer) by {
        assert forall j :: 0 <= j < |seen| ==> seen[j] == me.sent[j];
      }
      SignersOfOne(x, seen, me.conn.taken[k].command.id, signer);
      SignersOfOne(x, seen, note.about.value, signer);
    }
  }

  /** Over every run in which each side signs with one key, as an oracle does. */
  lemma OneKeyAnswers(x: Crypto, labels: seq<Label>, leftKey: Bytes, rightKey: Bytes)
    requires BroadcastsOnly(labels, true, ClaimedBy(leftKey)) && BroadcastsOnly(labels, false, ClaimedBy(rightKey))
    ensures var n := Run(x, InitNet(), labels);
      && AnswersExactly(n.left.conn) && AnswersExactly(n.right.conn)
      && (forall k :: 0 <= k < |n.left.conn.taken| ==> AskedListExactly(x, n.left, n.right, k))
      && (forall k :: 0 <= k < |n.right.conn.taken| ==> AskedListExactly(x, n.right, n.left, k))
  {
    var n := Run(x, InitNet(), labels);
    CommandsAnswered(x, labels);
    GossipExactly(x, labels);
    RunKeepsSends(x, InitNet(), labels, ClaimedBy(leftKey), ClaimedBy(rightKey));
    forall k | 0 <= k < |n.left.conn.taken| ensures AskedListExactly(x, n.left, n.right, k) {
      AnswerIsAskedList(x, n.left, n.right, k, leftKey);
    }
    forall k | 0 <= k < |n.right.conn.taken| ensures AskedListExactly(x, n.right, n.left, k) {
      AnswerIsAskedList(x, n.right, n.left, k, rightKey);
    }
  }

  // ----- answers are final

  /** `d` is `c` some time later. */
  ghost predicate Later(c: Conn, d: Conn) {
    && c.handled <= d.handled && c.taken <= d.taken
    && forall i :: |c.taken| <= i < |d.taken| ==> |c.handled| <= d.taken[i].at
  }

  lemma {:induction false} PollIsLater(x: Crypto, c: Conn)
    ensures Later(c, Poll(x, c).0)
    decreases |c.inbox|
  {
    if !c.initialPing && c.commands == [] && c.ticks == [] && c.inbox != [] && c.inbox[0].Some? {
      var m := c.inbox[0].value;
      if m.Pong? { PollIsLater(x, Consume(c)); }
      if m.Attestations? { PollIsLater(x, Answer(Consume(c), m.signers)); }
    }
  }

  lemma LaterStill(c: Conn, d: Conn, e: Conn)
    requires Later(c, d) && Later(d, e)
    ensures Later(c, e)
  {
  }

  lemma StepIsLater(x: Crypto, n: Net, l: Label)
    ensures Later(n.left.conn, Step(x, n, l).left.conn) && Later(n.right.conn, Step(x, n, l).right.conn)
  {
    PollIsLater(x, n.left.conn);
    PollIsLater(x, n.right.conn);
  }

  lemma {:induction false} RunIsLater(x: Crypto, n: Net, labels: seq<Label>)
    ensures var n' := Run(x, n, labels); Later(n.left.conn, n'.left.conn) && Later(n.right.conn, n'.right.conn)
    decreases |labels|
  {
    if labels == [] {
    } else {
      var next, last := Step(x, n, labels[0]), Run(x, n, labels);
      StepIsLater(x, n, labels[0]);
      RunIsLater(x, next, labels[1..]);
      LaterStill(n.left.conn, next.left.conn, last.left.conn);
      LaterStill(n.right.conn, next.right.conn, last.right.conn);
    }
  }

  /** Command `k` has been answered, or another was taken before it could be. */
  ghost predicate Settled(c: Conn, k: nat) {
    && TakenBy(c.taken, |c.handled|) && k < |c.taken|
    && (k + 1 < |c.taken| || AnsweredBy(c.taken, c.handled, k).Some?)
  }

  /** If command `k` was settled in `c`, its answer, or the lack of one, is the same in `d`. */
  ghost predicate KeepsAnswer(c: Conn, d: Conn, k: nat) {
    Settled(c, k) ==>
      && TakenBy(d.taken, |d.handled|) && k < |d.taken|
      && AnswerOf(d.taken, d.handled, k) == AnswerOf(c.taken, c.handled, k)
  }

  lemma SettledLater(c: Conn, d: Conn, k: nat)
    requires Later(c, d) && TakenBy(d.taken, |d.handled|) && Settled(c, k)
    ensures KeepsAnswer(c, d, k)
  {
    var laterTaken, laterHandled := d.taken[|c.taken|..], d.handled[|c.handled|..];
    assert c.taken + laterTaken == d.taken && c.handled + laterHandled == d.handled;
    SettledStays(c.taken, c.handled, k, laterTaken, laterHandled);
  }

  /**
   In every continuation of every run: an answered command keeps its one answer, and the
   channel of a command that was overwritten unanswered never gets one.
   */
  lemma AnswersAreFinal(x: Crypto, before: seq<Label>, after: seq<Label>, k: nat)
    ensures var n := Run(x, InitNet(), before);
      var n' := Run(x, n, after);
      KeepsAnswer(n.left.conn, n'.left.conn, k) && KeepsAnswer(n.right.conn, n'.right.conn, k)
  {
    var n := Run(x, InitNet(), before);
    InitNetInv(x);
    RunKeepsInv(x, InitNet(), before);
    RunKeepsInv(x, n, after);
    RunIsLater(x, n, after);
    if Settled(n.left.conn, k) { SettledLater(n.left.conn, Run(x, n, after).left.conn, k); }
    if Settled(n.right.conn, k) { SettledLater(n.right.conn, Run(x, n, after).right.conn, k); }
  }

  // ----- a command answered with the list for another id

  /** Greeting and ticker have gone over, and the right peer has attested the ticker. */
  function AfterTicker(x: Crypto, t: SignedTicker): Net {
    var ping, pong, ticker, list := Message.Ping, Message.Pong, Ticker(t), Attestations([t.signer]);
    Net(Peer(NewConn(false).(inbox := [Some(pong), Some(list)]), [ping, ticker], [Note(None, 0), Note(None, 0)], true),
        Peer(NewConn(false).(attestations := map[t.id := [t.signer]], handled := [ping, ticker]),
             [pong, list], [Note(None, 1), Note(Some(t.id), 2)], true),
        4)
  }

  /** A fresh connection that has been greeted attests an honest ticker and answers with the list. */
  lemma HonestTickerPolled(x: Crypto, t: SignedTicker, c: Conn)
    requires Honest(x, t) && c == NewConn(false).(inbox := [Some(Ticker(t))], handled := [Message.Ping])
    ensures var d := NewConn(false).(attestations := map[t.id := [t.signer]], handled := [Message.Ping, Ticker(t)]);
      Poll(x, c) == (d, Send(Attestations([t.signer])))
  {
    assert c.inbox[1..] == [] && [] + [t.signer] == [t.signer];
    var attested := Attest(Consume(c), t.id, t.signer);
    assert attested.attestations == map[t.id := [t.signer]];
    assert attested.handled == [Message.Ping, Ticker(t)];
    assert Recover(x, t) == Some(t.signer);
  }

  /** Both peers once the left one has greeted and sent its ticker. */
  lemma TickerSent(x: Crypto, t: SignedTicker)
    ensures var n := Step(x, Step(x, Step(x, InitNet(), PollPeer(true)), Broadcast(true, t)), PollPeer(true));
      && n.left == Peer(NewConn(false), [Message.Ping, Ticker(t)], [Note(None, 0), Note(None, 0)], true)
      && n.right == Peer(NewConn(false).(inbox := [Some(Message.Ping), Some(Ticker(t))]), [], [], true)
      && n.injected == 4
  {
    var n1 := Step(x, InitNet(), PollPeer(true));
    assert n1.left == Peer(NewConn(false), [Message.Ping], [Note(None, 0)], true);
    assert n1.right.conn.inbox == [Some(Message.Ping)];
    var n2 := Step(x, n1, Broadcast(true, t));
    assert n2.left.conn.ticks == [t] && [t][1..] == [];
  }

  lemma TickerAttested(x: Crypto, t: SignedTicker)
    requires Honest(x, t)
    ensures Run(x, InitNet(), [PollPeer(true), Broadcast(true, t), PollPeer(true), PollPeer(false), PollPeer(false)])
         == AfterTicker(x, t)
  {
    TickerSent(x, t);
    var n3 := Step(x, Step(x, Step(x, InitNet(), PollPeer(true)), Broadcast(true, t)), PollPeer(true));
    var n4 := Step(x, n3, PollPeer(false));
    assert n4.right.conn == NewConn(false).(inbox := [Some(Ticker(t))], handled := [Message.Ping]);
    HonestTickerPolled(x, t, n4.right.conn);
    var n5, goal := Step(x, n4, PollPeer(false)), AfterTicker(x, t);
    assert n5.right == goal.right;
    assert n5.left.conn == goal.left.conn;
    RunFive(x, InitNet(), PollPeer(true), Broadcast(true, t), PollPeer(true), PollPeer(false), PollPeer(false));
  }

  lemma RunOne(x: Crypto, n: Net, l: Label, rest: seq<Label>)
    ensures Run(x, n, [l] + rest) == Run(x, Step(x, n, l), rest)
  {
    assert ([l] + rest)[1..] == rest;
  }

  lemma RunTwo(x: Crypto, n: Net, a: Label, b: Label)
    ensures Run(x, n, [a, b]) == Step(x, Step(x, n, a), b)
  {
    var next := Step(x, n, a);
    assert [a, b] == [a] + [b] && [b] == [b] + [];
    RunOne(x, n, a, [b]);
    RunOne(x, next, b, []);
  }

  lemma RunFive(x: Crypto, n: Net, a: Label, b: Label, c: Label, d: Label, e: Label)
    ensures Run(x, n, [a, b, c, d, e]) == Step(x, Step(x, Step(x, Step(x, Step(x, n, a), b), c), d), e)
  {
    var n2 := Run(x, n, [a, b]);
    var n4 := Run(x, n2, [c, d]);
    assert [a, b, c, d, e] == [a, b] + ([c, d] + [e]) && [e] == [e] + [];
    RunTwo(x, n, a, b);
    RunTwo(x, n2, c, d);
    RunOne(x, n4, e, []);
    RunAppend(x, n, [a, b], [c, d] + [e]);
    RunAppend(x, n2, [c, d], [e]);
  }

  lemma {:induction false} RunAppend(x: Crypto, n: Net, a: seq<Label>, b: seq<Label>)
    ensures Run(x, n, a + b) == Run(x, Run(x, n, a), b)
    decreases |a|
  {
    if a == [] {
      assert a + b == b;
    } else {
      assert (a + b)[1..] == a[1..] + b;
      RunAppend(x, Step(x, n, a[0]), a[1..], b);
    }
  }

  /** The left peer has asked and handled what was waiting in its inbox. */
  lemma AskedTooLate(x: Crypto, t: SignedTicker, asked: Bytes)
    ensures var n := Run(x, AfterTicker(x, t), [Ask(true, Command(asked, 7)), PollPeer(true), PollPeer(true)]);
      n.left.conn.answers == [(7, [t.signer])] && n.left.conn.attestations == map[]
      && n.right.conn.attestations == map[t.id := [t.signer]]
  {
    var ask := Ask(true, Command(asked, 7));
    assert [ask, PollPeer(true), PollPeer(true)][1..] == [PollPeer(true), PollPeer(true)];
    assert [PollPeer(true), PollPeer(true)][1..] == [PollPeer(true)] && [PollPeer(true)][1..] == [];
    var n1 := Step(x, AfterTicker(x, t), ask);
    var n2 := Step(x, n1, PollPeer(true));
    var n3 := Step(x, n2, PollPeer(true));
    var pong, list := Message.Pong, Attestations([t.signer]);
    assert n2.left.conn.inbox == [Some(pong), Some(list)] && n2.left.conn.pendingAtt == Some(7);
    var c := Consume(n2.left.conn);
    assert c.inbox == [Some(list)];
    assert Poll(x, n2.left.conn) == Poll(x, c) == Poll(x, Answer(Consume(c), [t.signer]));
    assert Run(x, AfterTicker(x, t), [ask, PollPeer(true), PollPeer(true)]) == Run(x, n1, [PollPeer(true), PollPeer(true)]);
    assert Run(x, n1, [PollPeer(true), PollPeer(true)]) == n3;
  }

  /**
   A command is answered with the list for another id: the left peer broadcasts an honest
   ticker, then asks for an id nobody has attested, and is handed the attestation of its ticker.
   */
  lemma AnsweredWithWrongList(x: Crypto, t: SignedTicker, asked: Bytes)
    requires Honest(x, t) && t.id != asked
    ensures var n := Run(x, InitNet(),
        [PollPeer(true), Broadcast(true, t), PollPeer(true), PollPeer(false), PollPeer(false)]
        + [Ask(true, Command(asked, 7)), PollPeer(true), PollPeer(true)]);
      && n.left.conn.answers == [(7, [t.signer])]
      && AttestationsOf(n.left.conn, asked) == [] && AttestationsOf(n.right.conn, asked) == []
  {
    TickerAttested(x, t);
    AskedTooLate(x, t, asked);
    RunAppend(x, InitNet(), [PollPeer(true), Broadcast(true, t), PollPeer(true), PollPeer(false), PollPeer(false)],
              [Ask(true, Command(asked, 7)), PollPeer(true), PollPeer(true)]);
  }
}
