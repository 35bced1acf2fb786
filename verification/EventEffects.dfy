/** Which L1 logs become rollup events, and what a deposit among them does to the accounts. */
module EventEffects {
  import opened Prelude
  import opened Tables
  import opened Execution
  import opened ChainEvents
  import opened EventOrder
  import opened Rollup

  // ----- from logs to events

  /**
   The rollup events of an L1 chain are, in chain order and once each, what the logs of the
   rollup contract decode to, each with the transaction of its receipt.
   */
  lemma RollupEventsInOrder(chain: L1Chain, decode: Log -> Option<ContractEvent>)
    ensures var at, events := FromBlock(chain, {0x97C0E40c6B5bb5d4fa3e2AA1C6b8bC7EA5ECAe31}, decode, 0), RollupEvents(chain, decode);
      && Increasing(at) && |at| == |events|
      && (forall p :: p in at <==>
            && HasLog(chain, p) && LogAt(chain, p).address == 0x97C0E40c6B5bb5d4fa3e2AA1C6b8bC7EA5ECAe31
            && decode(LogAt(chain, p)).Some?)
      && (forall k :: 0 <= k < |events| ==>
            && HasLog(chain, at[k]) && decode(LogAt(chain, at[k])) == Some(events[k].event)
            && events[k].tx == chain[at[k].block].transactions[at[k].receipt])
  {
    DecodeInOrder(chain, {0x97C0E40c6B5bb5d4fa3e2AA1C6b8bC7EA5ECAe31}, decode);
    var at := FromBlock(chain, {0x97C0E40c6B5bb5d4fa3e2AA1C6b8bC7EA5ECAe31}, decode, 0);
    var fs := Decode(chain, {0x97C0E40c6B5bb5d4fa3e2AA1C6b8bC7EA5ECAe31}, decode);
    forall k | 0 <= k < |at| ensures FoundAt(chain, decode, at[k], fs[k]) {
    }
  }

  // ----- one deposit

  /**
   A deposit counts only if it is of ETH and for this rollup; then it adds its amount, modulo
   2^256, to the balance of its recipient alone, whose account is created if need be.
   */
  lemma DepositCommitted<S>(node: Node<S>, t: Tables, e: Event, chainId: U256, token: Address, a: Address, amount: U256)
    requires e.event == Enter(chainId, token, a, amount)
    ensures chainId != 17001 || token != 0 ==> CommitEvent(node, t, e) == Ok(t)
    ensures chainId == 17001 && token == 0 ==>
      var r := CommitEvent(node, t, e);
      && r.Ok? && r.value == t.(account := r.value.account)
      && (forall x :: x != a ==> Lookup(r.value.account, x) == Lookup(t.account, x))
      && a in r.value.account
      && (if a in t.account
          then r.value.account[a] == t.account[a].(balance := (t.account[a].balance + amount) % TWO_256)
          else r.value.account[a] == Account(amount, 0, KECCAK_EMPTY))
  {
  }

  /** Taking it back subtracts the amount, modulo 2^256; an account that is not there is an error. */
  lemma DepositReverted(t: Tables, e: Event, chainId: U256, token: Address, a: Address, amount: U256)
    requires e.event == Enter(chainId, token, a, amount)
    ensures chainId != 17001 || token != 0 ==> RevertEvent(t, e) == Ok(t)
    ensures chainId == 17001 && token == 0 && a !in t.account ==> RevertEvent(t, e) == Err(Db(AccountNotFound))
    ensures chainId == 17001 && token == 0 && a in t.account ==>
      var r := RevertEvent(t, e);
      && r.Ok? && r.value == t.(account := r.value.account)
      && (forall x :: x != a ==> Lookup(r.value.account, x) == Lookup(t.account, x))
      && a in r.value.account
      && r.value.account[a] == t.account[a].(balance := (t.account[a].balance - amount) % TWO_256)
  {
  }

  // ----- all deposits of a chain

  /** The event deposits ETH on this rollup for `a`. */
  predicate DepositsTo(e: Event, a: Address) {
    e.event.Enter? && e.event.rollupChainId == 17001 && e.event.token == 0 && e.event.recipient == a
  }

  /** How much the events deposit for `a`, and whether they do at all. */
  function Deposited(events: seq<Event>, a: Address): nat {
    if events == [] then 0 else (if DepositsTo(events[0], a) then events[0].event.amount else 0) + Deposited(events[1..], a)
  }

  predicate AnyTo(events: seq<Event>, a: Address) {
    exists i :: 0 <= i < |events| && DepositsTo(events[i], a)
  }

  predicate NoSubmissions(events: seq<Event>) {
    forall i :: 0 <= i < |events| ==> !events[i].event.BlockSubmitted?
  }

  /** The account once `amount` has been added to its balance, modulo 2^256, if anything was deposited. */
  function Credited(row: Option<Account>, any: bool, amount: int): Option<Account> {
    if !any then row
    else if row.None? then Some(Account(amount % TWO_256, 0, KECCAK_EMPTY))
    else Some(row.value.(balance := (row.value.balance + amount) % TWO_256))
  }

  lemma AnyToSplit(events: seq<Event>, a: Address)
    requires events != []
    ensures AnyTo(events, a) <==> DepositsTo(events[0], a) || AnyTo(events[1..], a)
  {
    if AnyTo(events, a) {
      var i :| 0 <= i < |events| && DepositsTo(events[i], a);
      if i > 0 { assert events[1..][i - 1] == events[i]; }
    }
    if AnyTo(events[1..], a) {
      var i :| 0 <= i < |events[1..]| && DepositsTo(events[1..][i], a);
      assert events[i + 1] == events[1..][i];
    }
  }

  lemma {:induction false} NoneDeposited(events: seq<Event>, a: Address)
    requires !AnyTo(events, a)
    ensures Deposited(events, a) == 0
  {
    if events != [] {
      AnyToSplit(events, a);
      NoneDeposited(events[1..], a);
    }
  }

  lemma ModAgain(x: int, y: int)
    ensures (x % TWO_256 + y) % TWO_256 == (x + y) % TWO_256
  {
    var q := x / TWO_256;
    assert x == q * TWO_256 + x % TWO_256;
    ModShift(x % TWO_256 + y, q);
  }

  lemma ModShift(z: int, q: int)
    ensures (z + q * TWO_256) % TWO_256 == z % TWO_256
  {
    var m := TWO_256;
    assert z == (z / m) * m + z % m;
    assert z + q * m == (z / m + q) * m + z % m;
    DivisionUnique(z + q * m, z / m + q, z % m);
  }

  lemma DivisionUnique(x: int, q: int, r: int)
    requires x == q * TWO_256 + r && 0 <= r < TWO_256
    ensures x % TWO_256 == r
  {
  }

  lemma CreditedTwice(row: Option<Account>, n: int, m: int)
    ensures Credited(Credited(row, true, n), true, m) == Credited(row, true, n + m)
  {
    if row.None? { ModAgain(n, m); } else { ModAgain(row.value.balance + n, m); }
  }

  /** What one event that is not a submission does to one account. */
  lemma OneCredit<S>(node: Node<S>, t: Tables, e: Event, a: Address)
    requires !e.event.BlockSubmitted?
    ensures CommitEvent(node, t, e).Ok?
    ensures var u := CommitEvent(node, t, e).value;
      && u == t.(account := u.account)
      && Lookup(u.account, a) == Credited(Lookup(t.account, a), DepositsTo(e, a), if DepositsTo(e, a) then e.event.amount else 0)
  {
  }

  /**
   Over any list of events without submissions: nothing fails, and each account ends with all
   that was deposited for it on this rollup in ETH, and nothing else, added to its balance.
   */
  lemma {:induction false} DepositsAddUp<S>(node: Node<S>, t: Tables, events: seq<Event>, a: Address)
    requires NoSubmissions(events)
    ensures CommitAll(node, t, events).error.None?
    ensures var u := CommitAll(node, t, events).tables;
      && u == t.(account := u.account)
      && Lookup(u.account, a) == Credited(Lookup(t.account, a), AnyTo(events, a), Deposited(events, a))
    decreases |events|
  {
    if events != [] {
      var e, rest := events[0], events[1..];
      var u := CommitEvent(node, t, e).value;
      OneCredit(node, t, e, a);
      DepositsAddUp(node, u, rest, a);
      AnyToSplit(events, a);
      if !AnyTo(rest, a) { NoneDeposited(rest, a); }
      if DepositsTo(e, a) && AnyTo(rest, a) {
        CreditedTwice(Lookup(t.account, a), e.event.amount, Deposited(rest, a));
      }
    }
  }

  /** All recipients of the deposits have an account. */
  predicate RecipientsThere(t: Tables, events: seq<Event>) {
    forall i :: 0 <= i < |events| && events[i].event.Enter? && DepositsTo(events[i], events[i].event.recipient) ==>
      events[i].event.recipient in t.account
  }

  lemma OneDebit(t: Tables, e: Event, a: Address)
    requires !e.event.BlockSubmitted? && RecipientsThere(t, [e])
    ensures RevertEvent(t, e).Ok?
    ensures var u := RevertEvent(t, e).value;
      && u == t.(account := u.account) && u.account.Keys == t.account.Keys
      && Lookup(u.account, a) == Credited(Lookup(t.account, a), DepositsTo(e, a), if DepositsTo(e, a) then 0 - e.event.amount else 0)
  {
    assert [e][0] == e;
  }

  /** And reverting subtracts all that was deposited, provided the recipients' accounts are there. */
  lemma {:induction false} DepositsTakenBack(t: Tables, events: seq<Event>, a: Address)
    requires NoSubmissions(events) && RecipientsThere(t, events)
    ensures RevertAll(t, events).error.None?
    ensures var u := RevertAll(t, events).tables;
      && u == t.(account := u.account)
      && Lookup(u.account, a) == Credited(Lookup(t.account, a), AnyTo(events, a), 0 - Deposited(events, a))
    decreases |events|
  {
    if events != [] {
      var e, rest := events[0], events[1..];
      var u := RevertEvent(t, e).value;
      OneDebit(t, e, a);
      DepositsTakenBack(u, rest, a);
      AnyToSplit(events, a);
      if !AnyTo(rest, a) { NoneDeposited(rest, a); }
      if DepositsTo(e, a) && AnyTo(rest, a) {
        CreditedTwice(Lookup(t.account, a), 0 - e.event.amount, 0 - Deposited(rest, a));
      }
    }
  }
}
