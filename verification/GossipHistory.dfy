/** What a run of two oracle peers leaves behind, told from what was signed, broadcast and asked. */
module GossipHistory {
  import opened Prelude
  import opened Rlp
  import opened OracleMessages
  import opened Gossip
  import opened GossipNet

  // ----- what is attested

  /** The message is a ticker under `id` whose signature is that of `signer` over the encoded ticker, as it claims. */
  predicate SignedBy(x: Crypto, m: Message, id: Bytes, signer: Bytes) {
    && m.Ticker? && m.signed.id == id && m.signed.signer == signer
    && x.parses(m.signed.signature)
    && Fits(m.signed.ticker) && x.recover(m.signed.signature, Encode(m.signed.ticker)) == Some(signer)
  }

  /** Each handled message adds its claimed signer once, at the end, if it is signed by it, and nothing otherwise. */
  lemma OneMoreAttests(x: Crypto, handled: seq<Message>, m: Message, id: Bytes)
    ensures Signers(x, [], id) == []
    ensures (exists a :: SignedBy(x, m, id, a)) ==>
      SignedBy(x, m, id, m.signed.signer) && Signers(x, handled + [m], id) == Signers(x, handled, id) + [m.signed.signer]
    ensures !(exists a :: SignedBy(x, m, id, a)) ==> Signers(x, handled + [m], id) == Signers(x, handled, id)
  {
    SignersAppend(x, handled, m, id);
    if Adds(x, m, id) { assert SignedBy(x, m, id, m.signed.signer); }
  }

  lemma {:induction false} AttestedExactly(x: Crypto, handled: seq<Message>, id: Bytes, a: Bytes)
    ensures a in Signers(x, handled, id) <==> exists i :: 0 <= i < |handled| && SignedBy(x, handled[i], id, a)
  {
    if handled != [] {
      var init, last := handled[..|handled| - 1], handled[|handled| - 1];
      AttestedExactly(x, init, id, a);
      assert handled == init + [last];
      OneMoreAttests(x, init, last, id);
      if i :| 0 <= i < |handled| && SignedBy(x, handled[i], id, a) {
        if i < |init| { assert SignedBy(x, init[i], id, a); }
      }
      if i :| 0 <= i < |init| && SignedBy(x, init[i], id, a) { assert SignedBy(x, handled[i], id, a); }
    }
  }

  /** The message is no ticker, or its signature parses and recovers to somebody. */
  predicate Recoverable(x: Crypto, m: Message) {
    m.Ticker? ==>
      && x.parses(m.signed.signature)
      && Fits(m.signed.ticker) && x.recover(m.signed.signature, Encode(m.signed.ticker)).Some?
  }

  ghost predicate KnowsExactly(x: Crypto, me: Peer, other: Peer) {
    && |me.conn.handled| <= |other.sent|
    && (forall id, a :: a in AttestationsOf(me.conn, id) <==>
          exists i :: 0 <= i < |me.conn.handled| && SignedBy(x, other.sent[i], id, a))
    && (me.open <==> forall i :: 0 <= i < |me.conn.handled| ==> Recoverable(x, other.sent[i]))
  }

  lemma PeerKnows(x: Crypto, me: Peer, other: Peer)
    requires ListsWhatWasSent(x, me, other) && (me.open <==> AllAnswerable(x, me.conn.handled))
    ensures KnowsExactly(x, me, other)
  {
    var handled := me.conn.handled;
    assert other.sent[..|handled|] == handled;
    forall id, a ensures a in AttestationsOf(me.conn, id) <==>
          exists i :: 0 <= i < |handled| && SignedBy(x, other.sent[i], id, a)
    {
      AttestedExactly(x, handled, id, a);
    }
  }

  /**
   In every run an address is listed under an id exactly if the other peer sent, among the
   messages handled so far, a ticker under that id that the address signed and claims; and the
   connection polls on exactly as long as every handled ticker recovers to somebody.
   */
  lemma ListsSignersExactly(x: Crypto, labels: seq<Label>)
    ensures var n := Run(x, InitNet(), labels);
      KnowsExactly(x, n.left, n.right) && KnowsExactly(x, n.right, n.left)
  {
    GossipExactly(x, labels);
    var n := Run(x, InitNet(), labels);
    PeerKnows(x, n.left, n.right);
    PeerKnows(x, n.right, n.left);
  }

  // ----- what is broadcast goes out, and what is asked is taken, in order

  function Side(n: Net, left: bool): Peer {
    if left then n.left else n.right
  }

  function Tickers(ms: seq<Message>): seq<SignedTicker> {
    if ms == [] then []
    else Tickers(ms[..|ms| - 1]) + (if ms[|ms| - 1].Ticker? then [ms[|ms| - 1].signed] else [])
  }

  function Commands(taken: seq<Taken>): seq<Command> {
    seq(|taken|, i requires 0 <= i < |taken| => taken[i].command)
  }

  /** Tickers sent and still to be sent. */
  function AllTickers(p: Peer): seq<SignedTicker> {
    Tickers(p.sent) + p.conn.ticks
  }

  /** Commands taken and still to be taken. */
  function AllCommands(p: Peer): seq<Command> {
    Commands(p.conn.taken) + p.conn.commands
  }

  /** The ticker that a step broadcasts on that side. */
  function TickOf(l: Label, left: bool): seq<SignedTicker> {
    if l.Broadcast? && l.left == left then [l.tick] else []
  }

  function CommandOf(l: Label, left: bool): seq<Command> {
    if l.Ask? && l.left == left then [l.command] else []
  }

  function BroadcastBy(labels: seq<Label>, left: bool): seq<SignedTicker> {
    if labels == [] then [] else TickOf(labels[0], left) + BroadcastBy(labels[1..], left)
  }

  function AskedBy(labels: seq<Label>, left: bool): seq<Command> {
    if labels == [] then [] else CommandOf(labels[0], left) + AskedBy(labels[1..], left)
  }

  lemma {:induction false} PollTakesCommands(x: Crypto, c: Conn)
    ensures var d := Poll(x, c).0; Commands(d.taken) + d.commands == Commands(c.taken) + c.commands
    decreases |c.inbox|
  {
    if !c.initialPing && c.commands != [] {
      var d := Poll(x, c).0;
      assert Commands(d.taken) == Commands(c.taken) + [c.commands[0]];
      assert c.commands == [c.commands[0]] + c.commands[1..];
    } else if !c.initialPing && c.ticks == [] && c.inbox != [] && c.inbox[0].Some? {
      var m := c.inbox[0].value;
      if m.Pong? { PollTakesCommands(x, Consume(c)); }
      if m.Attestations? { PollTakesCommands(x, Answer(Consume(c), m.signers)); }
    }
  }

  lemma TickersAppend(ms: seq<Message>, m: Message)
    ensures Tickers(ms + [m]) == Tickers(ms) + (if m.Ticker? then [m.signed] else [])
  {
    assert (ms + [m])[..|ms|] == ms;
  }

  /** What is sent comes off the front of what was to be sent. */
  lemma SendingInOrder(x: Crypto, me: Peer, c: Conn, m: Message, note: Note)
    requires if m.Ticker? then me.conn.ticks == [m.signed] + c.ticks else c.ticks == me.conn.ticks
    ensures AllTickers(Sending(me.(conn := c), m, note)) == AllTickers(me)
  {
    TickersAppend(me.sent, m);
    if m.Ticker? { Regroup(Tickers(me.sent), [m.signed], c.ticks); }
  }

  /** A poll loses no ticker and no command, and changes no order. */
  lemma PollOneInOrder(x: Crypto, me: Peer, other: Peer)
    ensures var (me', other') := PollOne(x, me, other);
      && AllTickers(me') == AllTickers(me) && AllCommands(me') == AllCommands(me)
      && AllTickers(other') == AllTickers(other) && AllCommands(other') == AllCommands(other)
  {
    if me.open {
      PollTakesCommands(x, me.conn);
      PollSendsTicks(x, me.conn);
      var (c, r) := Poll(x, me.conn);
      if r.Send? { SendingInOrder(x, me, c, r.message, NoteOf(me.conn, c)); }
    }
  }

  lemma AskInOrder(p: Peer, command: Command)
    ensures AllTickers(AskPeer(p, command)) == AllTickers(p)
    ensures AllCommands(AskPeer(p, command)) == AllCommands(p) + [command]
  {
    Regroup(Commands(p.conn.taken), p.conn.commands, [command]);
  }

  lemma TickInOrder(p: Peer, tick: SignedTicker)
    ensures AllTickers(TickPeer(p, tick)) == AllTickers(p) + [tick]
    ensures AllCommands(TickPeer(p, tick)) == AllCommands(p)
  {
    Regroup(Tickers(p.sent), p.conn.ticks, [tick]);
  }

  lemma StepInOrder(x: Crypto, n: Net, l: Label, left: bool)
    ensures AllTickers(Side(Step(x, n, l), left)) == AllTickers(Side(n, left)) + TickOf(l, left)
    ensures AllCommands(Side(Step(x, n, l), left)) == AllCommands(Side(n, left)) + CommandOf(l, left)
  {
    match l
    case Ask(l', command) => AskInOrder(Side(n, l'), command);
    case Broadcast(l', tick) => TickInOrder(Side(n, l'), tick);
    case PollPeer(l') =>
      if l' { PollOneInOrder(x, n.left, n.right); } else { PollOneInOrder(x, n.right, n.left); }
  }

  /** Over every run each side sends the tickers it is given in their order, each once; the others are still queued. */
  lemma {:induction false} TickersInOrder(x: Crypto, n: Net, labels: seq<Label>, left: bool)
    ensures AllTickers(Side(Run(x, n, labels), left)) == AllTickers(Side(n, left)) + BroadcastBy(labels, left)
    decreases |labels|
  {
    if labels == [] {
    } else {
      StepInOrder(x, n, labels[0], left);
      TickersInOrder(x, Step(x, n, labels[0]), labels[1..], left);
      Regroup(AllTickers(Side(n, left)), TickOf(labels[0], left), BroadcastBy(labels[1..], left));
    }
  }

  /** And it takes the commands it is given in their order, each once. */
  lemma {:induction false} CommandsInOrder(x: Crypto, n: Net, labels: seq<Label>, left: bool)
    ensures AllCommands(Side(Run(x, n, labels), left)) == AllCommands(Side(n, left)) + AskedBy(labels, left)
    decreases |labels|
  {
    if labels == [] {
    } else {
      StepInOrder(x, n, labels[0], left);
      CommandsInOrder(x, Step(x, n, labels[0]), labels[1..], left);
      Regroup(AllCommands(Side(n, left)), CommandOf(labels[0], left), AskedBy(labels[1..], left));
    }
  }

  // ----- who greets

  /** A peer that opened the connection greets once, before anything else; the other never does. */
  ghost predicate Greets(p: Peer, outgoing: bool) {
    && (p.conn.initialPing ==> outgoing && p.sent == [])
    && (outgoing && !p.conn.initialPing && p.open ==> p.sent != [] && p.sent[0] == Ping)
    && (forall i :: 0 <= i < |p.sent| && p.sent[i] == Ping ==> outgoing && i == 0)
  }

  lemma {:induction false} PollGreets(x: Crypto, c: Conn)
    ensures var (d, r) := Poll(x, c);
      && !d.initialPing && (c.initialPing ==> r == Send(Ping)) && (!c.initialPing ==> r != Send(Ping))
    decreases |c.inbox|
  {
    if !c.initialPing && c.commands == [] && c.ticks == [] && c.inbox != [] && c.inbox[0].Some? {
      var m := c.inbox[0].value;
      if m.Pong? { PollGreets(x, Consume(c)); }
      if m.Attestations? { PollGreets(x, Answer(Consume(c), m.signers)); }
    }
  }

  lemma PollKeepsGreeting(x: Crypto, me: Peer, other: Peer, mine: bool, theirs: bool)
    requires Greets(me, mine) && Greets(other, theirs)
    ensures var (me', other') := PollOne(x, me, other); Greets(me', mine) && Greets(other', theirs)
  {
    if me.open { PollGreets(x, me.conn); }
  }

  lemma {:induction false} RunKeepsGreeting(x: Crypto, n: Net, labels: seq<Label>)
    requires Greets(n.left, true) && Greets(n.right, false)
    ensures Greets(Run(x, n, labels).left, true) && Greets(Run(x, n, labels).right, false)
    decreases |labels|
  {
    if labels != [] {
      PollKeepsGreeting(x, n.left, n.right, true, false);
      PollKeepsGreeting(x, n.right, n.left, false, true);
      RunKeepsGreeting(x, Step(x, n, labels[0]), labels[1..]);
    }
  }

  /** In every run only the side that opened the connection greets, once and first. */
  lemma OnlyCallerGreets(x: Crypto, labels: seq<Label>)
    ensures var n := Run(x, InitNet(), labels); Greets(n.left, true) && Greets(n.right, false)
  {
    RunKeepsGreeting(x, InitNet(), labels);
  }
}
