/**
 The oracle's gossip protocol as one connection sees it: its polling, what it records and sends,
 and which messages answer its commands.
 Signature recovery and hashing are library code, passed in.
 */
module Gossip {
  import opened Prelude
  import opened Rlp
  import opened OracleMessages

  /** Parsing a signature, recovering the signer of a message, and hashing. */
  datatype Crypto = Crypto(
    parses: Bytes -> bool,
    recover: (Bytes, Bytes) -> Option<Bytes>,
    keccak: Bytes -> Bytes)

  /** A request for the attestations of an id; the answer goes to channel `reply`. */
  datatype Command = Command(id: Bytes, reply: nat)

  /** A command taken off its channel when `at` messages had been handled. */
  datatype Taken = Taken(command: Command, at: nat)

  /** What a poll yields: a message to send, nothing yet, or the end of the connection. */
  datatype Polled = Send(message: Message) | Pending | Closed | Panicked

  /** One end of a connection. A frame that does not parse is `None`; `answers`, `handled` and `taken` are history. */
  datatype Conn = Conn(
    initialPing: bool,
    commands: seq<Command>,
    ticks: seq<SignedTicker>,
    inbox: seq<Option<Message>>,
    attestations: map<Bytes, seq<Bytes>>,
    pendingAtt: Option<nat>,
    answers: seq<(nat, seq<Bytes>)>,
    handled: seq<Message>,
    taken: seq<Taken>)

  function AttestationsOf(c: Conn, id: Bytes): seq<Bytes> {
    if id in c.attestations then c.attestations[id] else []
  }

  /** The recovered signer of a ticker, if it is the claimed one. */
  predicate Attests(x: Crypto, t: SignedTicker) {
    Fits(t.ticker) && x.recover(t.signature, Encode(t.ticker)) == Some(t.signer)
  }

  function Recover(x: Crypto, t: SignedTicker): Option<Bytes> {
    if Fits(t.ticker) then x.recover(t.signature, Encode(t.ticker)) else None
  }

  /** `SignedTicker::new`: the id is the hash of the encoded ticker. */
  function NewSigned(x: Crypto, ticker: Value, signature: Bytes, signer: Bytes): SignedTicker
    requires Fits(ticker)
  {
    SignedTicker(ticker, signature, signer, x.keccak(Encode(ticker)))
  }

  function Attest(c: Conn, id: Bytes, signer: Bytes): Conn {
    c.(attestations := c.attestations[id := AttestationsOf(c, id) + [signer]])
  }

  /** The next message of the inbox has been handled. */
  function Consume(c: Conn): Conn
    requires c.inbox != [] && c.inbox[0].Some?
  {
    c.(inbox := c.inbox[1..], handled := c.handled + [c.inbox[0].value])
  }

  /** The awaited attestations arrived: whoever asked last gets them. */
  function Answer(c: Conn, signers: seq<Bytes>): Conn {
    if c.pendingAtt.Some? then
      c.(pendingAtt := None, answers := c.answers + [(c.pendingAtt.value, signers)])
    else c
  }

  /** One poll of the connection. */
  function Poll(x: Crypto, c: Conn): (Conn, Polled)
    decreases |c.inbox|
  {
    if c.initialPing then (c.(initialPing := false), Send(Ping))
    else if c.commands != [] then
      (c.(commands := c.commands[1..], pendingAtt := Some(c.commands[0].reply),
          taken := c.taken + [Taken(c.commands[0], |c.handled|)]),
       Send(Attestations(AttestationsOf(c, c.commands[0].id))))
    else if c.ticks != [] then
      (c.(ticks := c.ticks[1..]), Send(Ticker(c.ticks[0])))
    else if c.inbox == [] then (c, Pending)
    else if c.inbox[0].None? then (c.(inbox := c.inbox[1..]), Closed)
    else
      match c.inbox[0].value
      case Ping => (Consume(c), Send(Pong))
      case Pong => Poll(x, Consume(c))
      case Attestations(signers) => Poll(x, Answer(Consume(c), signers))
      case Ticker(t) =>
        if !x.parses(t.signature) then (Consume(c), Panicked)
        else if Recover(x, t).None? then (Consume(c), Closed)
        else
          var c' := if Recover(x, t) == Some(t.signer) then Attest(Consume(c), t.id, t.signer) else Consume(c);
          (c', Send(Attestations(AttestationsOf(c', t.id))))
  }

  class OracleConnection {
    var initialPing: bool
    var commands: seq<Command>
    var signedTicks: seq<SignedTicker>
    var inbox: seq<Option<Message>>
    var attestations: map<Bytes, seq<Bytes>>
    var pendingAtt: Option<nat>
    ghost var answers: seq<(nat, seq<Bytes>)>
    ghost var handled: seq<Message>
    ghost var taken: seq<Taken>

    /** Only the side that opened the connection greets. */
    constructor (outgoing: bool)
      ensures View() == NewConn(outgoing)
    {
      initialPing, commands, signedTicks, inbox := outgoing, [], [], [];
      attestations, pendingAtt, answers, handled, taken := map[], None, [], [], [];
    }

    ghost function View(): Conn
      reads this
    {
      Conn(initialPing, commands, signedTicks, inbox, attestations, pendingAtt, answers, handled, taken)
    }

    method PollNext(x: Crypto) returns (r: Polled)
      modifies this
      ensures (View(), r) == Poll(x, old(View()))
    {
      if initialPing {
        initialPing := false;
        return Send(Ping);
      }
      while true
        invariant !initialPing && Poll(x, View()) == Poll(x, old(View()))
        decreases |inbox|
      {
        if commands != [] {
          var cmd := commands[0];
          commands := commands[1..];
          var known := if cmd.id in attestations then attestations[cmd.id] else [];
          pendingAtt := Some(cmd.reply);
          taken := taken + [Taken(cmd, |handled|)];
          return Send(Attestations(known));
        }
        if signedTicks != [] {
          var tick := signedTicks[0];
          signedTicks := signedTicks[1..];
          return Send(Ticker(tick));
        }
        if inbox == [] { return Pending; }
        var frame := inbox[0];
        inbox := inbox[1..];
        if frame.None? { return Closed; }
        handled := handled + [frame.value];
        match frame.value {
          case Ping => return Send(Pong);
          case Pong =>
          case Attestations(signers) =>
            if pendingAtt.Some? {
              answers := answers + [(pendingAtt.value, signers)];
              pendingAtt := None;
            }
          case Ticker(t) =>
            if !x.parses(t.signature) { return Panicked; }
            var address := Recover(x, t);
            if address.None? { return Closed; }
            if address.value == t.signer {
              attestations := attestations[t.id :=
                (if t.id in attestations then attestations[t.id] else []) + [address.value]];
            }
            return Send(Attestations(if t.id in attestations then attestations[t.id] else []));
        }
      }
    }
  }

  function NewConn(outgoing: bool): Conn {
    Conn(outgoing, [], [], [], map[], None, [], [], [])
  }

  // ----- what a connection records, whatever frames arrive

  /** Handling `m` attests for `id`. */
  predicate Adds(x: Crypto, m: Message, id: Bytes) {
    m.Ticker? && m.signed.id == id && x.parses(m.signed.signature) && Attests(x, m.signed)
  }

  /** The signers of the handled tickers that carry `id` and attest, in order. */
  function Signers(x: Crypto, handled: seq<Message>, id: Bytes): seq<Bytes> {
    if handled == [] then []
    else
      Signers(x, handled[..|handled| - 1], id)
      + (if Adds(x, handled[|handled| - 1], id) then [handled[|handled| - 1].signed.signer] else [])
  }

  ghost predicate RecordsExactly(x: Crypto, c: Conn) {
    forall id :: AttestationsOf(c, id) == Signers(x, c.handled, id)
  }

  lemma SignersAppend(x: Crypto, handled: seq<Message>, m: Message, id: Bytes)
    ensures Signers(x, handled + [m], id) == Signers(x, handled, id) + (if Adds(x, m, id) then [m.signed.signer] else [])
  {
    assert (handled + [m])[..|handled|] == handled;
  }

  lemma UnattestedRecords(x: Crypto, c: Conn, m: Message, d: Conn)
    requires RecordsExactly(x, c) && d.handled == c.handled + [m] && d.attestations == c.attestations
    requires forall id :: !Adds(x, m, id)
    ensures RecordsExactly(x, d)
  {
    forall id ensures AttestationsOf(d, id) == Signers(x, d.handled, id) {
      SignersAppend(x, c.handled, m, id);
    }
  }

  lemma AttestedRecords(x: Crypto, c: Conn, t: SignedTicker)
    requires RecordsExactly(x, c) && c.inbox != [] && c.inbox[0] == Some(Ticker(t))
    requires Adds(x, Ticker(t), t.id)
    ensures RecordsExactly(x, Attest(Consume(c), t.id, t.signer))
  {
    var d := Attest(Consume(c), t.id, t.signer);
    forall id ensures AttestationsOf(d, id) == Signers(x, d.handled, id) {
      SignersAppend(x, c.handled, Ticker(t), id);
    }
  }

  /**
   Whatever frames arrive, after any poll the attestations under each id are exactly the
   signers of the tickers handled so far that carry it and recover to the claimed signer.
   */
  lemma {:induction false} PollRecords(x: Crypto, c: Conn)
    requires RecordsExactly(x, c)
    ensures RecordsExactly(x, Poll(x, c).0)
    decreases |c.inbox|
  {
    if !c.initialPing && c.commands == [] && c.ticks == [] && c.inbox != [] && c.inbox[0].Some? {
      var m := c.inbox[0].value;
      if m.Ticker? && Adds(x, m, m.signed.id) {
        AttestedRecords(x, c, m.signed);
      } else {
        var d := if m.Attestations? then Answer(Consume(c), m.signers) else Consume(c);
        UnattestedRecords(x, c, m, d);
        if m.Pong? || m.Attestations? { PollRecords(x, d); }
      }
    }
  }

  /** How many of the handled tickers that carry `id` attest. */
  function AttestedCount(x: Crypto, handled: seq<Message>, id: Bytes): nat {
    if handled == [] then 0
    else
      AttestedCount(x, handled[..|handled| - 1], id) + (if Adds(x, handled[|handled| - 1], id) then 1 else 0)
  }

  predicate OneSigner(handled: seq<Message>, signer: Bytes) {
    forall i :: 0 <= i < |handled| && handled[i].Ticker? ==> handled[i].signed.signer == signer
  }

  /** When all tickers claim one signer, a list tells no more than how many of them attested. */
  lemma {:induction false} SignersOfOne(x: Crypto, handled: seq<Message>, id: Bytes, signer: Bytes)
    requires OneSigner(handled, signer)
    ensures Signers(x, handled, id) == seq(AttestedCount(x, handled, id), _ => signer)
  {
    if handled == [] {
    } else {
      SignersOfOne(x, handled[..|handled| - 1], id, signer);
    }
  }

  // ----- which message answers a command

  /** The commands were all taken by the time `n` messages had been handled. */
  predicate TakenBy(taken: seq<Taken>, n: nat) {
    forall k :: 0 <= k < |taken| ==> taken[k].at <= n
  }

  /** The first list of attestations among the messages from `start` up to `end`. */
  function FirstAttestations(ms: seq<Message>, start: nat, end: nat): (i: Option<nat>)
    requires end <= |ms|
    ensures i.Some? ==> start <= i.value < end && ms[i.value].Attestations?
    ensures forall j :: start <= j < (if i.Some? then i.value else end) ==> !ms[j].Attestations?
    decreases end - start
  {
    if start >= end then None
    else if ms[start].Attestations? then Some(start)
    else FirstAttestations(ms, start + 1, end)
  }

  /** Command `k` is pending until the next one is taken. */
  function PendingUntil(taken: seq<Taken>, n: nat, k: nat): nat {
    if k + 1 < |taken| then taken[k + 1].at else n
  }

  /** The message that answers command `k`: the first list of attestations handled while it is pending. */
  function AnsweredBy(taken: seq<Taken>, handled: seq<Message>, k: nat): Option<nat>
    requires TakenBy(taken, |handled|) && k < |taken|
  {
    FirstAttestations(handled, taken[k].at, PendingUntil(taken, |handled|, k))
  }

  /** What goes out on the channel of command `k`: the answer, if there is one. */
  function AnswerOf(taken: seq<Taken>, handled: seq<Message>, k: nat): seq<(nat, seq<Bytes>)>
    requires TakenBy(taken, |handled|) && k < |taken|
  {
    match AnsweredBy(taken, handled, k)
    case None => []
    case Some(i) => [(taken[k].command.reply, handled[i].signers)]
  }

  /** The answers of the first `n` commands. */
  function AnswersTo(taken: seq<Taken>, handled: seq<Message>, n: nat): seq<(nat, seq<Bytes>)>
    requires TakenBy(taken, |handled|) && n <= |taken|
  {
    if n == 0 then [] else AnswersTo(taken, handled, n - 1) + AnswerOf(taken, handled, n - 1)
  }

  /** Only the last command can still be waiting. */
  function Waiting(taken: seq<Taken>, handled: seq<Message>): Option<nat>
    requires TakenBy(taken, |handled|)
  {
    if taken != [] && AnsweredBy(taken, handled, |taken| - 1).None?
    then Some(taken[|taken| - 1].command.reply) else None
  }

  ghost predicate AnswersExactly(c: Conn) {
    && TakenBy(c.taken, |c.handled|)
    && c.answers == AnswersTo(c.taken, c.handled, |c.taken|)
    && c.pendingAtt == Waiting(c.taken, c.handled)
  }

  /**
   An answer is final, and so is its absence once a later command has been taken: the channel
   of a command overwritten before any list of attestations came in is never answered.
   */
  lemma SettledStays(taken: seq<Taken>, handled: seq<Message>, k: nat, laterTaken: seq<Taken>, laterHandled: seq<Message>)
    requires TakenBy(taken, |handled|) && TakenBy(taken + laterTaken, |handled + laterHandled|)
    requires forall i :: 0 <= i < |laterTaken| ==> |handled| <= laterTaken[i].at
    requires k < |taken| && (k + 1 < |taken| || AnsweredBy(taken, handled, k).Some?)
    ensures AnsweredBy(taken + laterTaken, handled + laterHandled, k) == AnsweredBy(taken, handled, k)
    ensures AnswerOf(taken + laterTaken, handled + laterHandled, k) == AnswerOf(taken, handled, k)
  {
    var now := AnsweredBy(taken, handled, k);
    var later := AnsweredBy(taken + laterTaken, handled + laterHandled, k);
    assert forall j :: 0 <= j < |handled| ==> (handled + laterHandled)[j] == handled[j];
    if now.Some? && later.Some? {
      assert !(now.value < later.value) && !(later.value < now.value);
    }
  }

  /** Messages after the window do not matter. */
  lemma {:induction false} WindowStays(ms: seq<Message>, more: seq<Message>, start: nat, end: nat)
    requires end <= |ms|
    ensures FirstAttestations(ms + more, start, end) == FirstAttestations(ms, start, end)
    decreases end - start
  {
    if start >= end {
    } else {
      assert (ms + more)[start] == ms[start];
      WindowStays(ms, more, start + 1, end);
    }
  }

  /** One more message leaves the answers of all commands but the last. */
  lemma {:induction false} AnswersStay(taken: seq<Taken>, handled: seq<Message>, m: Message, n: nat)
    requires TakenBy(taken, |handled|) && TakenBy(taken, |handled + [m]|) && n < |taken|
    ensures AnswersTo(taken, handled + [m], n) == AnswersTo(taken, handled, n)
  {
    if n == 0 {
    } else {
      AnswersStay(taken, handled, m, n - 1);
      WindowStays(handled, [m], taken[n - 1].at, taken[n].at);
    }
  }

  /** One more message answers the last command exactly if that waits and the message is a list of attestations. */
  lemma LastAnswer(taken: seq<Taken>, handled: seq<Message>, m: Message)
    requires taken != [] && TakenBy(taken, |handled|) && TakenBy(taken, |handled + [m]|)
    ensures var last := |taken| - 1;
      if AnsweredBy(taken, handled, last).Some? then
        && AnsweredBy(taken, handled + [m], last) == AnsweredBy(taken, handled, last)
        && AnswerOf(taken, handled + [m], last) == AnswerOf(taken, handled, last)
      else
        && AnsweredBy(taken, handled + [m], last) == (if m.Attestations? then Some(|handled|) else None)
        && AnswerOf(taken, handled + [m], last) ==
             (if m.Attestations? then [(taken[last].command.reply, m.signers)] else [])
  {
    var start := taken[|taken| - 1].at;
    WindowStays(handled, [m], start, |handled|);
    WindowExtends(handled + [m], start, |handled|);
    var now := AnsweredBy(taken, handled, |taken| - 1);
    if now.Some? { assert (handled + [m])[now.value] == handled[now.value]; }
  }

  lemma {:induction false} WindowExtends(ms: seq<Message>, start: nat, end: nat)
    requires start <= end < |ms|
    ensures var now := FirstAttestations(ms, start, end);
      FirstAttestations(ms, start, end + 1) ==
        if now.Some? then now else if ms[end].Attestations? then Some(end) else None
    decreases end - start
  {
    if start == end {
    } else {
      WindowExtends(ms, start + 1, end);
    }
  }

  lemma AnswersSplit(taken: seq<Taken>, handled: seq<Message>)
    requires taken != [] && TakenBy(taken, |handled|)
    ensures var last := |taken| - 1;
      AnswersTo(taken, handled, |taken|) == AnswersTo(taken, handled, last) + AnswerOf(taken, handled, last)
    ensures Waiting(taken, handled) ==
      if AnsweredBy(taken, handled, |taken| - 1).None? then Some(taken[|taken| - 1].command.reply) else None
  {
  }

  lemma MessageAnswers(taken: seq<Taken>, handled: seq<Message>, m: Message)
    requires TakenBy(taken, |handled|) && TakenBy(taken, |handled + [m]|)
    ensures var waiting := Waiting(taken, handled);
      && AnswersTo(taken, handled + [m], |taken|) == AnswersTo(taken, handled, |taken|) +
           (if m.Attestations? && waiting.Some? then [(waiting.value, m.signers)] else [])
      && Waiting(taken, handled + [m]) == if m.Attestations? then None else waiting
  {
    if taken == [] {
    } else {
      var last := |taken| - 1;
      AnswersStay(taken, handled, m, last);
      LastAnswer(taken, handled, m);
      AnswersSplit(taken, handled);
      AnswersSplit(taken, handled + [m]);
      if AnsweredBy(taken, handled, last).None? {
        assert AnswerOf(taken, handled, last) == [];
      }
    }
  }

  /** One more command waits in place of the one before it. */
  lemma CommandWaits(taken: seq<Taken>, handled: seq<Message>, command: Command)
    requires TakenBy(taken, |handled|)
    ensures var more := taken + [Taken(command, |handled|)];
      && TakenBy(more, |handled|)
      && AnswersTo(more, handled, |more|) == AnswersTo(taken, handled, |taken|)
      && Waiting(more, handled) == Some(command.reply)
  {
    var more := taken + [Taken(command, |handled|)];
    CommandsKept(taken, handled, Taken(command, |handled|), |taken|);
    assert AnsweredBy(more, handled, |taken|) == None;
  }

  lemma {:induction false} CommandsKept(taken: seq<Taken>, handled: seq<Message>, next: Taken, n: nat)
    requires TakenBy(taken, |handled|) && next.at == |handled| && n <= |taken|
    ensures TakenBy(taken + [next], |handled|)
    ensures AnswersTo(taken + [next], handled, n) == AnswersTo(taken, handled, n)
  {
    if n == 0 {
    } else {
      CommandsKept(taken, handled, next, n - 1);
      assert PendingUntil(taken + [next], |handled|, n - 1) == PendingUntil(taken, |handled|, n - 1);
    }
  }

  lemma ConsumeAnswers(c: Conn)
    requires AnswersExactly(c) && c.inbox != [] && c.inbox[0].Some?
    ensures var m := c.inbox[0].value;
      AnswersExactly(if m.Attestations? then Answer(Consume(c), m.signers) else Consume(c))
  {
    MessageAnswers(c.taken, c.handled, c.inbox[0].value);
  }

  /**
   Whatever frames and commands arrive, each command is answered by the first list of
   attestations handled after it was taken and before the next command was, whatever id that
   list is for, and by none if there is no such list.
   */
  lemma {:induction false} PollAnswers(x: Crypto, c: Conn)
    requires AnswersExactly(c)
    ensures AnswersExactly(Poll(x, c).0)
    decreases |c.inbox|
  {
    if c.initialPing {
    } else if c.commands != [] {
      CommandWaits(c.taken, c.handled, c.commands[0]);
    } else if c.ticks == [] && c.inbox != [] && c.inbox[0].Some? {
      var m := c.inbox[0].value;
      ConsumeAnswers(c);
      if m.Pong? { PollAnswers(x, Consume(c)); }
      if m.Attestations? { PollAnswers(x, Answer(Consume(c), m.signers)); }
    }
  }

  // ----- weights

  function Weight(m: Message): nat {
    match m
    case Ping => 2
    case Ticker(_) => 2
    case Pong => 1
    case Attestations(_) => 1
  }

  function InboxWeight(inbox: seq<Option<Message>>): nat {
    if inbox == [] then 0
    else (if inbox[0].Some? then Weight(inbox[0].value) else 0) + InboxWeight(inbox[1..])
  }

  /** The weight a connection still has to put on the wire. */
  function InputWeight(c: Conn): nat {
    (if c.initialPing then 2 else 0) + |c.commands| + 2 * |c.ticks|
  }

  /** Weight not yet handled, plus one for each message handled. */
  function Account(c: Conn): nat {
    InputWeight(c) + InboxWeight(c.inbox) + |c.handled|
  }

  lemma {:induction false} InboxWeightAppend(inbox: seq<Option<Message>>, m: Message)
    ensures InboxWeight(inbox + [Some(m)]) == InboxWeight(inbox) + Weight(m)
  {
    if inbox == [] {
      assert inbox + [Some(m)] == [Some(m)];
    } else {
      assert (inbox + [Some(m)])[1..] == inbox[1..] + [Some(m)];
      InboxWeightAppend(inbox[1..], m);
    }
  }

  /** Every frame parses, as those of a peer that prints its messages do. */
  predicate AllParse(inbox: seq<Option<Message>>) {
    forall i :: 0 <= i < |inbox| ==> inbox[i].Some?
  }

  lemma {:induction false} InboxWeightCounts(inbox: seq<Option<Message>>)
    requires AllParse(inbox)
    ensures |inbox| <= InboxWeight(inbox)
  {
    if inbox == [] {
    } else {
      InboxWeightCounts(inbox[1..]);
    }
  }

  /** What of a handled message's weight is passed on; a connection that ends loses one unit. */
  function ReplyWeight(r: Polled): nat {
    match r
    case Send(m) => Weight(m)
    case Pending => 0
    case Closed => 1
    case Panicked => 1
  }

  /**
   Every message handled uses up one unit of weight, whatever it is: a poll balances the
   account with the reply, short of one unit only if a bad ticker ends the connection.
   */
  lemma {:induction false} PollBalances(x: Crypto, c: Conn)
    requires AllParse(c.inbox)
    ensures var (d, r) := Poll(x, c); AllParse(d.inbox) && Account(d) + ReplyWeight(r) == Account(c)
    decreases |c.inbox|
  {
    if !c.initialPing && c.commands == [] && c.ticks == [] && c.inbox != [] {
      var m := c.inbox[0].value;
      if m.Pong? { PollBalances(x, Consume(c)); }
      if m.Attestations? { PollBalances(x, Answer(Consume(c), m.signers)); }
    }
  }

  // ----- frames are handled in the order they came in

  function Somes(ms: seq<Message>): seq<Option<Message>> {
    seq(|ms|, i requires 0 <= i < |ms| => Some(ms[i]))
  }

  /** No frame is handled out of order or lost, but for one that does not parse and ends the connection. */
  lemma {:induction false} PollInOrder(x: Crypto, c: Conn)
    ensures var (d, r) := Poll(x, c);
      || Somes(d.handled) + d.inbox == Somes(c.handled) + c.inbox
      || (r.Closed? && Somes(d.handled) + [None] + d.inbox == Somes(c.handled) + c.inbox)
    ensures c.handled <= Poll(x, c).0.handled
    decreases |c.inbox|
  {
    if !c.initialPing && c.commands == [] && c.ticks == [] && c.inbox != [] {
      if c.inbox[0].None? {
        assert c.inbox == [None] + c.inbox[1..];
      } else {
        var m := c.inbox[0].value;
        assert Somes(Consume(c).handled) + Consume(c).inbox == Somes(c.handled) + c.inbox;
        if m.Pong? { PollInOrder(x, Consume(c)); }
        if m.Attestations? { PollInOrder(x, Answer(Consume(c), m.signers)); }
      }
    }
  }

  lemma ParsedInOrder(x: Crypto, c: Conn)
    requires AllParse(c.inbox)
    ensures var d := Poll(x, c).0; Somes(d.handled) + d.inbox == Somes(c.handled) + c.inbox
  {
    PollInOrder(x, c);
    var d := Poll(x, c).0;
    var before := Somes(c.handled) + c.inbox;
    assert AllParse(before);
    assert before != Somes(d.handled) + [None] + d.inbox by {
      assert (Somes(d.handled) + [None] + d.inbox)[|d.handled|] == None;
    }
  }

  // ----- when a connection ends

  /** The signature parses and some signer can be recovered from it, not necessarily the claimed one. */
  predicate Answerable(x: Crypto, m: Message) {
    m.Ticker? ==> x.parses(m.signed.signature) && Recover(x, m.signed).Some?
  }

  predicate AllAnswerable(x: Crypto, ms: seq<Message>) {
    forall i :: 0 <= i < |ms| ==> Answerable(x, ms[i])
  }

  /** A poll ends the connection exactly when it handles a ticker it cannot answer. */
  lemma {:induction false} PollEnds(x: Crypto, c: Conn)
    requires AllParse(c.inbox) && AllAnswerable(x, c.handled)
    ensures var (d, r) := Poll(x, c); r.Send? || r.Pending? <==> AllAnswerable(x, d.handled)
    decreases |c.inbox|
  {
    if !c.initialPing && c.commands == [] && c.ticks == [] && c.inbox != [] {
      var m := c.inbox[0].value;
      var handled := Consume(c).handled;
      assert handled[|c.handled|] == m;
      assert AllAnswerable(x, handled) <==> Answerable(x, m);
      if m.Pong? { PollEnds(x, Consume(c)); }
      if m.Attestations? { PollEnds(x, Answer(Consume(c), m.signers)); }
    }
  }

  // ----- what a connection sends

  /** Which id a list of attestations was sent for, and how many messages had been handled by then. */
  datatype Note = Note(about: Option<Bytes>, seen: nat)

  /** The note on the message sent by the poll that turned `c` into `d`. */
  function NoteOf(c: Conn, d: Conn): Note {
    Note(if c.initialPing then None
         else if c.commands != [] then Some(c.commands[0].id)
         else if c.ticks != [] || d.handled == [] then None
         else if d.handled[|d.handled| - 1].Ticker? then Some(d.handled[|d.handled| - 1].signed.id)
         else None,
         |d.handled|)
  }

  /** A list of attestations is the sender's list, when it is sent, for the id of the ticker or command it answers. */
  lemma {:induction false} PollSendsList(x: Crypto, c: Conn)
    requires RecordsExactly(x, c) && Poll(x, c).1.Send? && Poll(x, c).1.message.Attestations?
    ensures var (d, r) := Poll(x, c);
      var note := NoteOf(c, d);
      note.about.Some? && r.message.signers == Signers(x, d.handled, note.about.value)
    decreases |c.inbox|
  {
    PollRecords(x, c);
    if c.commands == [] && c.inbox[0].Some? {
      var m := c.inbox[0].value;
      if m.Pong? {
        UnattestedRecords(x, c, m, Consume(c));
        PollSendsList(x, Consume(c));
      }
      if m.Attestations? {
        UnattestedRecords(x, c, m, Answer(Consume(c), m.signers));
        PollSendsList(x, Answer(Consume(c), m.signers));
      }
    }
  }

  /** Tickers go out as they were broadcast, each once and in order; nothing else becomes one. */
  lemma {:induction false} PollSendsTicks(x: Crypto, c: Conn)
    ensures var (d, r) := Poll(x, c);
      if r.Send? && r.message.Ticker? then c.ticks == [r.message.signed] + d.ticks else d.ticks == c.ticks
    decreases |c.inbox|
  {
    if !c.initialPing && c.commands == [] && c.ticks == [] && c.inbox != [] && c.inbox[0].Some? {
      var m := c.inbox[0].value;
      if m.Pong? { PollSendsTicks(x, Consume(c)); }
      if m.Attestations? { PollSendsTicks(x, Answer(Consume(c), m.signers)); }
    }
  }

  // ----- an honestly signed ticker, end to end

  /**
   A ticker signed by the address it claims survives the wire byte for byte, and the receiver
   attests it under the hash of the ticker it decoded.
   */
  lemma HonestTickerIsAttested(x: Crypto, ticker: Value, signature: Bytes, signer: Bytes, rest: Bytes, c: Conn)
    requires Fits(ticker) && x.parses(signature) && x.recover(signature, Encode(ticker)) == Some(signer)
    requires WellFormed(Ticker(NewSigned(x, ticker, signature, signer)))
    requires !c.initialPing && c.commands == [] && c.ticks == [] && c.inbox != []
    requires c.inbox[0] == DecodeMessage(EncodeMessage(Ticker(NewSigned(x, ticker, signature, signer))) + rest)
    ensures var (d, r) := Poll(x, c);
      var id := x.keccak(Encode(ticker));
      AttestationsOf(d, id) == AttestationsOf(c, id) + [signer] && r == Send(Attestations(AttestationsOf(d, id)))
  {
    ParseInvertsPrint(Ticker(NewSigned(x, ticker, signature, signer)), rest);
  }
}
