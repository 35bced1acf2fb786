/** What the asker of a command can know of its answer, from its own history. */
module GossipAnswers {
  import opened Prelude
  import opened OracleMessages
  import opened Gossip
  import opened GossipNet

  /** The ids of the tickers among some messages, in order. */
  function TickerIds(ms: seq<Message>): seq<Bytes> {
    if ms == [] then []
    else
      TickerIds(ms[..|ms| - 1])
      + (if ms[|ms| - 1].Ticker? then [ms[|ms| - 1].signed.id] else [])
  }

  /** How many lists of attestations there are among some messages. */
  function ListCount(ms: seq<Message>): nat {
    if ms == [] then 0
    else ListCount(ms[..|ms| - 1]) + (if ms[|ms| - 1].Attestations? then 1 else 0)
  }

  function Occurs(ids: seq<Bytes>, id: Bytes): nat {
    if ids == [] then 0 else Occurs(ids[..|ids| - 1], id) + (if ids[|ids| - 1] == id then 1 else 0)
  }

  lemma TickerIdsOne(ms: seq<Message>, m: Message)
    ensures TickerIds(ms + [m]) == TickerIds(ms) + (if m.Ticker? then [m.signed.id] else [])
  {
    assert (ms + [m])[..|ms|] == ms;
  }

  lemma ListCountOne(ms: seq<Message>, m: Message)
    ensures ListCount(ms + [m]) == ListCount(ms) + (if m.Attestations? then 1 else 0)
  {
    assert (ms + [m])[..|ms|] == ms;
  }

  /** The ids of a prefix are a prefix of the ids. */
  lemma {:induction false} TickerIdsPrefix(a: seq<Message>, b: seq<Message>)
    requires a <= b
    ensures TickerIds(a) <= TickerIds(b)
    decreases |b|
  {
    if a == b {
    } else {
      assert a <= b[..|b| - 1];
      TickerIdsPrefix(a, b[..|b| - 1]);
    }
  }

  /** Messages without a list do not change the count. */
  lemma {:induction false} ListCountStays(ms: seq<Message>, start: nat, end: nat)
    requires start <= end <= |ms|
    requires forall j :: start <= j < end ==> !ms[j].Attestations?
    ensures ListCount(ms[..end]) == ListCount(ms[..start])
    decreases end
  {
    if start == end {
    } else {
      ListCountStays(ms, start, end - 1);
      assert ms[..end] == ms[..end - 1] + [ms[end - 1]];
      ListCountOne(ms[..end - 1], ms[end - 1]);
    }
  }

  // ----- a peer that is never asked

  /** A poll that turns `c` into `d` sent a list for the one ticker it handled, or no list and handled none. */
  ghost predicate SendsPaired(c: Conn, d: Conn, r: Polled, note: Note) {
    if r.Send? && r.message.Attestations? then
      note.about.Some? && TickerIds(d.handled) == TickerIds(c.handled) + [note.about.value]
    else TickerIds(d.handled) == TickerIds(c.handled)
  }

  lemma TickerPaired(x: Crypto, c: Conn)
    requires !c.initialPing && c.commands == [] && c.ticks == [] && c.inbox != []
    requires c.inbox[0].Some? && c.inbox[0].value.Ticker?
    ensures var (d, r) := Poll(x, c);
      d.commands == [] && (r.Send? || r.Pending? ==> SendsPaired(c, d, r, NoteOf(c, d)))
  {
    var t := c.inbox[0].value.signed;
    TickerIdsOne(c.handled, c.inbox[0].value);
    assert Poll(x, c).0.handled == c.handled + [c.inbox[0].value];
  }

  /** A poll of a connection with no commands. */
  lemma {:induction false} PollPairs(x: Crypto, c: Conn)
    requires c.commands == []
    ensures var (d, r) := Poll(x, c);
      d.commands == [] && (r.Send? || r.Pending? ==> SendsPaired(c, d, r, NoteOf(c, d)))
    decreases |c.inbox|
  {
    if !c.initialPing && c.ticks == [] && c.inbox != [] && c.inbox[0].Some? {
      var m := c.inbox[0].value;
      if m.Ticker? {
        TickerPaired(x, c);
      } else {
        TickerIdsOne(c.handled, m);
        if m.Pong? { PollPairs(x, Consume(c)); }
        if m.Attestations? { PollPairs(x, Answer(Consume(c), m.signers)); }
      }
    }
  }

  /** If message `i` of the peer is a list, it is about the last ticker handled by then, and one list was sent for each before. */
  ghost predicate PairedAt(me: Peer, i: nat)
    requires i < |me.sent| == |me.notes|
  {
    var note := me.notes[i];
    me.sent[i].Attestations? ==>
      && note.seen <= |me.conn.handled| && note.about.Some?
      && var ids := TickerIds(me.conn.handled[..note.seen]);
         |ids| == ListCount(me.sent[..i]) + 1 && ids[|ids| - 1] == note.about.value
  }

  /** The peer was never asked, and answers every ticker with a list. */
  ghost predicate Paired(me: Peer) {
    && me.conn.commands == [] && |me.sent| == |me.notes|
    && (forall i :: 0 <= i < |me.sent| ==> PairedAt(me, i))
    && (me.open ==> |TickerIds(me.conn.handled)| == ListCount(me.sent))
  }

  lemma PairsStay(me: Peer, c: Conn, open: bool)
    requires Paired(me) && me.conn.handled <= c.handled && c.commands == []
    requires open ==> |TickerIds(c.handled)| == ListCount(me.sent)
    ensures Paired(me.(conn := c, open := open))
  {
    var later := me.(conn := c, open := open);
    forall i | 0 <= i < |me.sent| ensures PairedAt(later, i) {
      assert PairedAt(me, i);
      if me.sent[i].Attestations? {
        assert c.handled[..me.notes[i].seen] == me.conn.handled[..me.notes[i].seen];
      }
    }
  }

  lemma PairSent(me: Peer, c: Conn, m: Message, note: Note)
    requires Paired(me) && me.open && me.conn.handled <= c.handled && c.commands == [] && note.seen == |c.handled|
    requires if m.Attestations? then
               note.about.Some? && TickerIds(c.handled) == TickerIds(me.conn.handled) + [note.about.value]
             else TickerIds(c.handled) == TickerIds(me.conn.handled)
    ensures Paired(Sending(me.(conn := c), m, note))
  {
    var later := Sending(me.(conn := c), m, note);
    ListCountOne(me.sent, m);
    assert c.handled[..note.seen] == c.handled;
    forall i | 0 <= i < |later.sent| ensures PairedAt(later, i) {
      if i < |me.sent| {
        assert PairedAt(me, i);
        assert later.sent[..i] == me.sent[..i];
        if me.sent[i].Attestations? {
          assert c.handled[..me.notes[i].seen] == me.conn.handled[..me.notes[i].seen];
        }
      } else {
        assert later.sent[..i] == me.sent;
      }
    }
  }

  lemma PollKeepsPairs(x: Crypto, me: Peer, other: Peer)
    requires Paired(me)
    ensures Paired(PollOne(x, me, other).0)
  {
    if me.open {
      var (c, r) := Poll(x, me.conn);
      PollPairs(x, me.conn);
      PollInOrder(x, me.conn);
      if r.Send? {
        PairSent(me, c, r.message, NoteOf(me.conn, c));
      } else {
        PairsStay(me, c, r.Pending?);
      }
    }
  }

  lemma ReceivingKeepsPairs(x: Crypto, me: Peer, other: Peer)
    requires Paired(me)
    ensures Paired(PollOne(x, other, me).1)
  {
    PairsStay(me, PollOne(x, other, me).1.conn, me.open);
  }

  function Side(n: Net, left: bool): Peer {
    if left then n.left else n.right
  }

  /** Only one side is ever asked in the run. */
  predicate AsksOnly(labels: seq<Label>, left: bool) {
    forall l :: l in labels && l.Ask? ==> l.left == left
  }

  lemma StepKeepsPairs(x: Crypto, n: Net, l: Label, left: bool)
    requires Paired(Side(n, left)) && (l.Ask? ==> l.left != left)
    ensures Paired(Side(Step(x, n, l), left))
  {
    var me, other := Side(n, left), Side(n, !left);
    match l
    case Ask(_, _) =>
    case Broadcast(side, tick) =>
      if side == left { PairsStay(me, TickPeer(me, tick).conn, me.open); }
    case PollPeer(side) =>
      if side == left { PollKeepsPairs(x, me, other); } else { ReceivingKeepsPairs(x, me, other); }
  }

  lemma {:induction false} RunKeepsPairs(x: Crypto, n: Net, labels: seq<Label>, left: bool)
    requires Paired(Side(n, left)) && AsksOnly(labels, !left)
    ensures Paired(Side(Run(x, n, labels), left))
    decreases |labels|
  {
    if labels == [] {
    } else {
      assert labels[0] in labels;
      StepKeepsPairs(x, n, labels[0], left);
      RunKeepsPairs(x, Step(x, n, labels[0]), labels[1..], left);
    }
  }

  // ----- which of the asker's tickers the answer is about

  /** How many lists the asker had handled when it took command `k`. */
  function ListsBefore(c: Conn, k: nat): nat
    requires TakenBy(c.taken, |c.handled|) && k < |c.taken|
  {
    ListCount(c.handled[..c.taken[k].at])
  }

  /**
   Command `k` of `me`, if it is answered, is answered about the ticker of `me` that is
   preceded by as many tickers as `me` had handled lists when it took the command; and the
   other peer had handled exactly the tickers of `me` up to that one.
   */
  ghost predicate AboutOwnTicker(me: Peer, other: Peer, k: nat)
    requires TakenBy(me.conn.taken, |me.conn.handled|) && k < |me.conn.taken|
  {
    AnsweredBy(me.conn.taken, me.conn.handled, k).Some? ==>
      var i, m := AnsweredBy(me.conn.taken, me.conn.handled, k).value, ListsBefore(me.conn, k);
      var ids := TickerIds(me.sent);
      && i < |other.notes| && m < |ids|
      && other.notes[i].about == Some(ids[m])
      && other.notes[i].seen <= |other.conn.handled|
      && TickerIds(other.conn.handled[..other.notes[i].seen]) == ids[..m + 1]
  }

  lemma AnswerLocated(x: Crypto, me: Peer, other: Peer, k: nat)
    requires PeerInv(x, me, other) && PeerInv(x, other, me) && Paired(other) && k < |me.conn.taken|
    ensures AboutOwnTicker(me, other, k)
  {
    var answer := AnsweredBy(me.conn.taken, me.conn.handled, k);
    if answer.Some? {
      var i, m := answer.value, ListsBefore(me.conn, k);
      HandledIsPrefix(me, other);
      HandledIsPrefix(other, me);
      assert PairedAt(other, i);
      ListCountStays(me.conn.handled, me.conn.taken[k].at, i);
      assert me.conn.handled[..i] == other.sent[..i];
      var seen := other.conn.handled[..other.notes[i].seen];
      assert seen <= me.sent;
      TickerIdsPrefix(seen, me.sent);
    }
  }

  /**
   In every run in which only one side is asked: each answered command is answered about the
   asker's own ticker number m, where m is how many lists the asker had received when it took
   the command.
   */
  lemma AnswersAreAboutOwnTickers(x: Crypto, labels: seq<Label>, left: bool)
    requires AsksOnly(labels, left)
    ensures var n := Run(x, InitNet(), labels);
      var me, other := Side(n, left), Side(n, !left);
      && TakenBy(me.conn.taken, |me.conn.handled|)
      && forall k :: 0 <= k < |me.conn.taken| ==> AboutOwnTicker(me, other, k)
  {
    var n := Run(x, InitNet(), labels);
    var me, other := Side(n, left), Side(n, !left);
    InitNetInv(x);
    RunKeepsInv(x, InitNet(), labels);
    RunKeepsPairs(x, InitNet(), labels, !left);
    forall k | 0 <= k < |me.conn.taken| ensures AboutOwnTicker(me, other, k) {
      AnswerLocated(x, me, other, k);
    }
  }

  // ----- when the answer is the list asked for

  lemma OccursOne(ids: seq<Bytes>, next: Bytes, id: Bytes)
    ensures Occurs(ids + [next], id) == Occurs(ids, id) + (if next == id then 1 else 0)
  {
    assert (ids + [next])[..|ids|] == ids;
  }

  /** Honest tickers all attest, so an id is attested as often as it was handled. */
  lemma {:induction false} HonestCount(x: Crypto, handled: seq<Message>, id: Bytes)
    requires forall i :: 0 <= i < |handled| && handled[i].Ticker? ==> Honest(x, handled[i].signed)
    ensures AttestedCount(x, handled, id) == Occurs(TickerIds(handled), id)
  {
    if handled == [] {
    } else {
      var init, m := handled[..|handled| - 1], handled[|handled| - 1];
      HonestCount(x, init, id);
      if m.Ticker? {
        OccursOne(TickerIds(init), m.signed.id, id);
        assert Honest(x, m.signed);
        assert TickerIds(handled) == TickerIds(init) + [m.signed.id];
      } else {
        assert TickerIds(handled) == TickerIds(init);
      }
    }
  }

  function HonestTickBy(x: Crypto, signer: Bytes): SignedTicker -> bool {
    (t: SignedTicker) => Honest(x, t) && t.signer == signer
  }

  /**
   The answer to command `k`, if it has one, is the list the other peer had for the asked id
   when it sent it exactly if, among the asker's first m + 1 tickers, ticker m's id occurs as
   often as the asked one.
   */
  ghost predicate AskedListByOwnTickers(x: Crypto, me: Peer, other: Peer, k: nat)
    requires TakenBy(me.conn.taken, |me.conn.handled|) && k < |me.conn.taken|
  {
    AboutOwnTicker(me, other, k) &&
    (AnsweredBy(me.conn.taken, me.conn.handled, k).Some? ==>
      var i, m := AnsweredBy(me.conn.taken, me.conn.handled, k).value, ListsBefore(me.conn, k);
      var ids, asked := TickerIds(me.sent), me.conn.taken[k].command.id;
      && i < |other.sent| && other.sent[i].Attestations?
      && (other.sent[i].signers == Signers(x, other.conn.handled[..other.notes[i].seen], asked) <==>
          Occurs(ids[..m + 1], ids[m]) == Occurs(ids[..m + 1], asked)))
  }

  lemma AskedListFromTickers(x: Crypto, me: Peer, other: Peer, k: nat, signer: Bytes)
    requires AnswersAreLists(x, me, other) && k < |me.conn.taken| && AboutOwnTicker(me, other, k)
    requires SendsOnly(me, HonestTickBy(x, signer)) && other.conn.handled <= me.sent
    ensures AskedListByOwnTickers(x, me, other, k)
  {
    var answer := AnsweredBy(me.conn.taken, me.conn.handled, k);
    if answer.Some? {
      var note := other.notes[answer.value];
      var seen := other.conn.handled[..note.seen];
      AnswerIsAskedList(x, me, other, k, signer);
      assert forall j :: 0 <= j < |seen| ==> seen[j] == me.sent[j];
      HonestCount(x, seen, note.about.value);
      HonestCount(x, seen, me.conn.taken[k].command.id);
    }
  }

  /**
   In every run in which only one side is asked, and that side broadcasts honest tickers under
   one key, as an oracle does: the asker can tell from its own tickers and the lists it had
   received whether the answer to a command is the list it asked for.
   */
  lemma AskedListExactlyByOwnTickers(x: Crypto, labels: seq<Label>, left: bool, signer: Bytes)
    requires AsksOnly(labels, left) && BroadcastsOnly(labels, left, HonestTickBy(x, signer))
    ensures var n := Run(x, InitNet(), labels);
      var me, other := Side(n, left), Side(n, !left);
      && TakenBy(me.conn.taken, |me.conn.handled|)
      && forall k :: 0 <= k < |me.conn.taken| ==> AskedListByOwnTickers(x, me, other, k)
  {
    var n := Run(x, InitNet(), labels);
    var me, other := Side(n, left), Side(n, !left);
    AnswersAreAboutOwnTickers(x, labels, left);
    CommandsAnswered(x, labels);
    GossipExactly(x, labels);
    if left {
      RunKeepsSends(x, InitNet(), labels, HonestTickBy(x, signer), AnyTick());
    } else {
      RunKeepsSends(x, InitNet(), labels, AnyTick(), HonestTickBy(x, signer));
    }
    forall k | 0 <= k < |me.conn.taken| ensures AskedListByOwnTickers(x, me, other, k) {
      AskedListFromTickers(x, me, other, k, signer);
    }
  }

  function AnyTick(): SignedTicker -> bool {
    (t: SignedTicker) => true
  }

  // ----- when both sides ask, the asker cannot tell

  /** Greeting and ticker have been handled on both sides, and the left peer has asked for the ticker's id. */
  function BothHandled(t: SignedTicker): seq<Label> {
    [PollPeer(true), Broadcast(true, t), PollPeer(true), PollPeer(false), PollPeer(false)]
    + [PollPeer(true), Ask(true, Command(t.id, 7)), PollPeer(true)]
  }

  /** The right peer is asked for `id`, and its list goes over. */
  function RightAsked(id: Bytes): seq<Label> {
    [Ask(false, Command(id, 9)), PollPeer(false), PollPeer(true)]
  }

  lemma RunThree(x: Crypto, n: Net, a: Label, b: Label, c: Label)
    ensures Run(x, n, [a, b, c]) == Step(x, Step(x, Step(x, n, a), b), c)
  {
    assert [a, b, c] == [a, b] + [c] && [c] == [c] + [];
    RunTwo(x, n, a, b);
    RunAppend(x, n, [a, b], [c]);
    RunOne(x, Run(x, n, [a, b]), c, []);
  }

  /** The left peer's history when its command is pending. */
  lemma LeftWaits(x: Crypto, t: SignedTicker)
    requires Honest(x, t)
    ensures var n := Run(x, InitNet(), BothHandled(t));
      && n.left.open && !n.left.conn.initialPing && n.left.conn.commands == [] && n.left.conn.ticks == []
      && n.left.conn.inbox == [] && n.left.conn.pendingAtt == Some(7) && n.left.conn.answers == []
      && n.right.open && n.right.conn.commands == [] && !n.right.conn.initialPing
      && n.right.conn.attestations == map[t.id := [t.signer]]
  {
    var list, pong := Attestations([t.signer]), Message.Pong;
    var n0 := AfterTicker(x, t);
    TickerAttested(x, t);
    RunAppend(x, InitNet(), [PollPeer(true), Broadcast(true, t), PollPeer(true), PollPeer(false), PollPeer(false)],
              [PollPeer(true), Ask(true, Command(t.id, 7)), PollPeer(true)]);
    RunThree(x, n0, PollPeer(true), Ask(true, Command(t.id, 7)), PollPeer(true));
    var c := Consume(n0.left.conn);
    assert c.inbox == [Some(list)];
    assert Poll(x, n0.left.conn) == Poll(x, c) == Poll(x, Answer(Consume(c), [t.signer]));
    var n1 := Step(x, n0, PollPeer(true));
    assert n1.left.conn.inbox == [] && n1.left.conn.answers == [] && n1.left.conn.pendingAtt == None;
  }

  lemma ListGoesOver(x: Crypto, n: Net, id: Bytes)
    requires n.left.open && !n.left.conn.initialPing && n.left.conn.commands == [] && n.left.conn.ticks == []
    requires n.left.conn.inbox == [] && n.left.conn.pendingAtt == Some(7) && n.left.conn.answers == []
    requires n.right.open && n.right.conn.commands == [] && !n.right.conn.initialPing
    ensures var n' := Run(x, n, RightAsked(id));
      && n'.left.conn.answers == [(7, AttestationsOf(n.right.conn, id))]
      && n'.right.conn.attestations == n.right.conn.attestations
  {
    RunThree(x, n, Ask(false, Command(id, 9)), PollPeer(false), PollPeer(true));
    var list := Attestations(AttestationsOf(n.right.conn, id));
    var n1 := Step(x, n, Ask(false, Command(id, 9)));
    assert n1.right.conn.commands == [Command(id, 9)];
    var n2 := Step(x, n1, PollPeer(false));
    assert n2.left.conn == n.left.conn.(inbox := [Some(list)]);
    var c := n2.left.conn;
    assert Poll(x, c) == Poll(x, Answer(Consume(c), list.signers));
  }

  /**
   When both sides ask, nothing in the asker's history decides whether the answer is the list
   asked for: two runs go the same way until the left peer's command is pending, and after
   that the left peer only handles one more message; in the first it is handed the right
   peer's list for the asked id, in the second an empty list, although the right peer has
   attested the asked id in both.
   */
  lemma AskerCannotTell(x: Crypto, t: SignedTicker, unknown: Bytes)
    requires Honest(x, t) && unknown != t.id
    ensures var n := Run(x, InitNet(), BothHandled(t));
      var told, untold := Run(x, n, RightAsked(t.id)), Run(x, n, RightAsked(unknown));
      && AttestationsOf(told.right.conn, t.id) == AttestationsOf(untold.right.conn, t.id) == [t.signer]
      && told.left.conn.answers == [(7, [t.signer])]
      && untold.left.conn.answers == [(7, [])]
  {
    var n := Run(x, InitNet(), BothHandled(t));
    LeftWaits(x, t);
    ListGoesOver(x, n, t.id);
    ListGoesOver(x, n, unknown);
  }
}
