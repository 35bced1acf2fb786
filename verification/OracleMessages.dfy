/** The oracle's wire messages: printing them to bytes and parsing them back. */
module OracleMessages {
  import opened Prelude
  import opened Rlp

  /** The declared field kinds of a Binance ticker, in order. */
  const TICKER_KIND := RecordKind([
    TextKind, NumberKind,
    TextKind, TextKind, TextKind, TextKind, TextKind, TextKind, TextKind, TextKind,
    TextKind, TextKind, TextKind, TextKind, TextKind, TextKind, TextKind, TextKind,
    NumberKind, NumberKind, NumberKind, NumberKind, NumberKind])

  const SIGNED_TICKER_KIND := RecordKind([TICKER_KIND, RawKind, FixedKind(20), FixedKind(32)])

  const ADDRESS_LIST_KIND := ListKind(FixedKind(20))

  /** A ticker with its signature, the address that claims it, and the id it is attested under. */
  datatype SignedTicker = SignedTicker(ticker: Value, signature: Bytes, signer: Bytes, id: Bytes)

  datatype Message =
    | Ping
    | Pong
    | Ticker(signed: SignedTicker)
    | Attestations(signers: seq<Bytes>)

  function TickerValue(t: SignedTicker): Value {
    Record([t.ticker, Raw(t.signature), Fixed(t.signer), Fixed(t.id)])
  }

  function AddressValues(signers: seq<Bytes>): Value {
    List(seq(|signers|, i requires 0 <= i < |signers| => Fixed(signers[i])))
  }

  /** The message is one the program's types allow, and it fits into memory. */
  predicate WellFormed(m: Message) {
    match m
    case Ping => true
    case Pong => true
    case Ticker(t) => Conforms(SIGNED_TICKER_KIND, TickerValue(t)) && Fits(TickerValue(t))
    case Attestations(signers) => Conforms(ADDRESS_LIST_KIND, AddressValues(signers)) && Fits(AddressValues(signers))
  }

  function MessageId(m: Message): Byte {
    match m
    case Ping => 0x00
    case Pong => 0x01
    case Ticker(_) => 0x02
    case Attestations(_) => 0x03
  }

  function EncodeMessage(m: Message): Bytes
    requires WellFormed(m)
  {
    [MessageId(m)] +
    match m
    case Ping => []
    case Pong => []
    case Ticker(t) => Encode(TickerValue(t))
    case Attestations(signers) => Encode(AddressValues(signers))
  }

  function AddressesOf(items: seq<Value>): seq<Bytes>
    requires forall i :: 0 <= i < |items| ==> items[i].Fixed?
  {
    seq(|items|, i requires 0 <= i < |items| => items[i].fixed)
  }

  function DecodeMessage(b: Bytes): Option<Message> {
    if b == [] then None
    else if b[0] == 0x00 then Some(Ping)
    else if b[0] == 0x01 then Some(Pong)
    else if b[0] == 0x02 then
      var p := Decode(SIGNED_TICKER_KIND, b[1..]);
      if p.Fail? then None
      else
        DecodedSignedTicker(b[1..]);
        var vs := p.value.fields;
        Some(Ticker(SignedTicker(vs[0], vs[1].raw, vs[2].fixed, vs[3].fixed)))
    else if b[0] == 0x03 then
      var p := Decode(ADDRESS_LIST_KIND, b[1..]);
      if p.Fail? then None
      else
        DecodedAddressList(b[1..]);
        Some(Attestations(AddressesOf(p.value.items)))
    else None
  }

  /** Print a message to a buffer. */
  method Encoded(m: Message) returns (buf: Bytes)
    requires WellFormed(m)
    ensures buf == EncodeMessage(m)
  {
    buf := [];
    buf := buf + [MessageId(m)];
    match m {
      case Ping =>
      case Pong =>
      case Attestations(signers) => buf := buf + Encode(AddressValues(signers));
      case Ticker(t) => buf := buf + Encode(TickerValue(t));
    }
  }

  /** Parsing gives back the printed message, whatever bytes follow it. */
  lemma ParseInvertsPrint(m: Message, rest: Bytes)
    requires WellFormed(m)
    ensures DecodeMessage(EncodeMessage(m) + rest) == Some(m)
  {
    var b := EncodeMessage(m) + rest;
    match m {
      case Ping =>
      case Pong =>
      case Ticker(t) => TickerParses(t, rest);
      case Attestations(signers) => AddressesParse(signers, rest);
    }
  }

  lemma TickerParses(t: SignedTicker, rest: Bytes)
    requires WellFormed(Ticker(t))
    ensures DecodeMessage(EncodeMessage(Ticker(t)) + rest) == Some(Ticker(t))
  {
    var b := EncodeMessage(Ticker(t)) + rest;
    assert b[1..] == Encode(TickerValue(t)) + rest;
    DecodeInvertsEncode(SIGNED_TICKER_KIND, TickerValue(t), rest);
  }

  lemma AddressesParse(signers: seq<Bytes>, rest: Bytes)
    requires WellFormed(Attestations(signers))
    ensures DecodeMessage(EncodeMessage(Attestations(signers)) + rest) == Some(Attestations(signers))
  {
    var b := EncodeMessage(Attestations(signers)) + rest;
    assert b[1..] == Encode(AddressValues(signers)) + rest;
    DecodeInvertsEncode(ADDRESS_LIST_KIND, AddressValues(signers), rest);
    assert AddressesOf(AddressValues(signers).items) == signers;
  }

  /** Whatever parses starts with the print of the message it parses to. */
  lemma ParsedIsPrinted(b: Bytes)
    requires DecodeMessage(b).Some?
    ensures var m := DecodeMessage(b).value; WellFormed(m) && EncodeMessage(m) <= b
  {
    var m := DecodeMessage(b).value;
    if m.Ticker? {
      DecodedTicker(b, m.signed);
    } else if m.Attestations? {
      DecodedAddresses(b, m.signers);
    } else {
      assert EncodeMessage(m) == [b[0]];
    }
  }

  /** Bytes parse to a message exactly when they start with its print. */
  lemma ParseExactly(b: Bytes, m: Message)
    ensures DecodeMessage(b) == Some(m) <==> WellFormed(m) && EncodeMessage(m) <= b
  {
    if DecodeMessage(b) == Some(m) { ParsedIsPrinted(b); }
    if WellFormed(m) && EncodeMessage(m) <= b {
      var rest := b[|EncodeMessage(m)|..];
      assert b == EncodeMessage(m) + rest;
      ParseInvertsPrint(m, rest);
    }
  }

  /** Whatever decodes as a signed ticker is the encoding of one. */
  lemma DecodedSignedTicker(b: Bytes)
    requires Decode(SIGNED_TICKER_KIND, b).Done?
    ensures var p := Decode(SIGNED_TICKER_KIND, b);
      && p.value.Record? && |p.value.fields| == 4
      && p.value.fields[1].Raw? && p.value.fields[2].Fixed? && p.value.fields[3].Fixed?
      && Conforms(SIGNED_TICKER_KIND, p.value) && Fits(p.value) && b == Encode(p.value) + p.rest
  {
    DecodedIsEncoding(SIGNED_TICKER_KIND, b);
    var v := Decode(SIGNED_TICKER_KIND, b).value;
    assert Conforms(SIGNED_TICKER_KIND.fields[1], v.fields[1]);
    assert Conforms(SIGNED_TICKER_KIND.fields[2], v.fields[2]);
    assert Conforms(SIGNED_TICKER_KIND.fields[3], v.fields[3]);
  }

  lemma DecodedTicker(b: Bytes, t: SignedTicker)
    requires DecodeMessage(b) == Some(Ticker(t))
    ensures WellFormed(Ticker(t)) && EncodeMessage(Ticker(t)) <= b
  {
    DecodedSignedTicker(b[1..]);
    var p := Decode(SIGNED_TICKER_KIND, b[1..]);
    assert p.value.fields == TickerValue(t).fields;
    assert b == [b[0]] + b[1..];
    Regroup([b[0]], Encode(TickerValue(t)), p.rest);
  }

  lemma AddressesRebuild(items: seq<Value>)
    requires forall i :: 0 <= i < |items| ==> items[i].Fixed?
    ensures AddressValues(AddressesOf(items)) == List(items)
  {
    assert AddressValues(AddressesOf(items)).items == items;
  }

  /** Whatever decodes as a list of addresses is the encoding of such a list. */
  lemma DecodedAddressList(b: Bytes)
    requires Decode(ADDRESS_LIST_KIND, b).Done?
    ensures var p := Decode(ADDRESS_LIST_KIND, b);
      && p.value.List? && (forall i :: 0 <= i < |p.value.items| ==> p.value.items[i].Fixed?)
      && WellFormed(Attestations(AddressesOf(p.value.items)))
      && b == Encode(AddressValues(AddressesOf(p.value.items))) + p.rest
  {
    DecodedIsEncoding(ADDRESS_LIST_KIND, b);
    AddressesRebuild(Decode(ADDRESS_LIST_KIND, b).value.items);
  }

  lemma DecodedAddresses(b: Bytes, signers: seq<Bytes>)
    requires DecodeMessage(b) == Some(Attestations(signers))
    ensures WellFormed(Attestations(signers)) && EncodeMessage(Attestations(signers)) <= b
  {
    DecodedAddressList(b[1..]);
    var rest := Decode(ADDRESS_LIST_KIND, b[1..]).rest;
    assert b == [b[0]] + b[1..];
    Regroup([b[0]], Encode(AddressValues(signers)), rest);
  }
}
