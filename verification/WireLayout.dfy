/**
 The bytes themselves: integers digit by digit, RLP as Appendix B of the Ethereum Yellow Paper
 lays it out, text as UTF-8 encodes it, and the oracle's messages field by field.
 */
module WireLayout {
  import opened Prelude
  import opened Rlp
  import opened OracleMessages
  import LE = LittleEndian

  // ----- integers

  /** The last byte of a little-endian number counts most. */
  lemma {:induction false} LastCountsMost(b: Bytes, x: Byte)
    ensures LE.FromBytes(b + [x]) == LE.FromBytes(b) + x * Pow256(|b|)
  {
    if b == [] {
      assert [] + [x] == [x] && [x][1..] == [];
    } else {
      assert (b + [x])[1..] == b[1..] + [x];
      LastCountsMost(b[1..], x);
      assert 256 * (x * Pow256(|b| - 1)) == x * Pow256(|b|);
    }
  }

  /** The first byte of a big-endian number counts most. */
  lemma {:induction false} FirstCountsMost(x: Byte, b: Bytes)
    ensures FromBigEndian([x] + b) == x * Pow256(|b|) + FromBigEndian(b)
  {
    var all := [x] + b;
    if b == [] {
      assert all[..0] == [];
    } else {
      assert all[..|all| - 1] == [x] + b[..|b| - 1];
      FirstCountsMost(x, b[..|b| - 1]);
      var p := Pow256(|b| - 1);
      assert 256 * (x * p) == x * (256 * p);
    }
  }

  // ----- RLP

  /** A length in front of a payload: one byte if it is below 56, else its own length and its shortest big-endian form. */
  ghost predicate Announces(base: nat, b: Bytes, length: nat) {
    if length < 56 then b == [base + length]
    else
      && 2 <= |b| <= 9 && b[0] == base + 55 + (|b| - 1) && b[1] != 0
      && FromBigEndian(b[1..]) == length
  }

  lemma HeaderLayout(list: bool, length: nat)
    requires length < TWO_64
    ensures Announces(if list then 192 else 128, EncodeHeader(list, length), length)
  {
    EightBytes(length);
    BigEndianInverse(length);
    if length >= 56 { assert EncodeHeader(list, length)[1..] == BigEndian(length); }
  }

  /** A byte below 128 stands for itself; any other string follows its length. */
  lemma StringLayout(x: Bytes)
    requires |x| < TWO_64
    ensures if |x| == 1 && x[0] < 128 then EncodeString(x) == x
            else exists header :: Announces(128, header, |x|) && EncodeString(x) == header + x
  {
    HeaderLayout(false, |x|);
  }

  function Concat(parts: seq<Bytes>): Bytes {
    if parts == [] then [] else Concat(parts[..|parts| - 1]) + parts[|parts| - 1]
  }

  lemma ConcatFour(a: Bytes, b: Bytes, c: Bytes, d: Bytes)
    ensures Concat([a, b, c, d]) == a + b + c + d
  {
    ConcatPrepend(a, [b, c, d]);
    ConcatPrepend(b, [c, d]);
    ConcatPrepend(c, [d]);
    ConcatPrepend(d, []);
    assert [a] + [b, c, d] == [a, b, c, d] && [b] + [c, d] == [b, c, d] && [c] + [d] == [c, d];
    assert a + (b + (c + d)) == a + b + c + d;
  }

  lemma {:induction false} ConcatPrepend(x: Bytes, parts: seq<Bytes>)
    ensures Concat([x] + parts) == x + Concat(parts)
  {
    var all := [x] + parts;
    if parts == [] {
      assert all[..0] == [];
    } else {
      assert all[..|all| - 1] == [x] + parts[..|parts| - 1];
      ConcatPrepend(x, parts[..|parts| - 1]);
    }
  }

  lemma {:induction false} AllInOrder(vs: seq<Value>, parts: seq<Bytes>)
    requires SizeAll(vs) < TWO_64 && |parts| == |vs|
    requires forall i :: 0 <= i < |vs| ==> Fits(vs[i]) && parts[i] == Encode(vs[i])
    ensures EncodeAll(vs) == Concat(parts)
    decreases |vs|
  {
    if vs == [] {
    } else {
      assert parts == [parts[0]] + parts[1..];
      AllInOrder(vs[1..], parts[1..]);
      ConcatPrepend(parts[0], parts[1..]);
    }
  }

  /** Records and lists are alike: the encodings of their parts, in order, behind their length. */
  lemma PartsLayout(vs: seq<Value>, parts: seq<Bytes>)
    requires SizeAll(vs) < TWO_64 && |parts| == |vs|
    requires forall i :: 0 <= i < |vs| ==> Fits(vs[i]) && parts[i] == Encode(vs[i])
    ensures exists header :: Announces(192, header, |Concat(parts)|) && Encode(Record(vs)) == header + Concat(parts)
    ensures Encode(List(vs)) == Encode(Record(vs))
  {
    AllInOrder(vs, parts);
    HeaderLayout(true, SizeAll(vs));
  }

  /** A number is the string of its shortest big-endian form. */
  lemma NumberLayout(n: U64)
    requires Fits(Number(n))
    ensures exists digits :: |digits| <= 8 && FromBigEndian(digits) == n && (digits != [] ==> digits[0] != 0)
                             && Encode(Number(n)) == EncodeString(digits)
  {
    EightBytes(n);
    BigEndianInverse(n);
  }

  // ----- text

  /** A Unicode scalar value (RFC 3629, section 3). */
  predicate IsScalar(c: nat) {
    c < 0xD800 || 0xE000 <= c < 0x110000
  }

  function Tail(c: nat): Byte {
    0x80 + c % 64
  }

  function EncodeScalar(c: nat): Bytes
    requires IsScalar(c)
  {
    if c < 0x80 then [c]
    else if c < 0x800 then [0xC0 + c / 64, Tail(c)]
    else if c < 0x10000 then [0xE0 + c / 4096, Tail(c / 64), Tail(c)]
    else [0xF0 + c / 262144, Tail(c / 4096), Tail(c / 64), Tail(c)]
  }

  lemma ScalarIsCharacter(c: nat, rest: Bytes)
    requires IsScalar(c)
    ensures CharacterLength(EncodeScalar(c) + rest) == |EncodeScalar(c)|
  {
  }

  /** The base-64 digits of a number. */
  lemma Digit(q: nat, d: nat)
    requires d < 64
    ensures (64 * q + d) / 64 == q && (64 * q + d) % 64 == d
  {
  }

  lemma Digits(x: nat, y: nat, z: nat, w: nat)
    requires y < 64 && z < 64 && w < 64
    ensures var c := 64 * (64 * (64 * x + y) + z) + w;
      && c / 64 == 64 * (64 * x + y) + z && c / 4096 == 64 * x + y && c / 262144 == x
      && c % 64 == w && (c / 64) % 64 == z && (c / 4096) % 64 == y
  {
    Digit(x, y);
    Digit(64 * x + y, z);
    Digit(64 * (64 * x + y) + z, w);
  }

  /** The six bits of a continuation byte. */
  function SixBits(b: Bytes, i: nat): nat
    requires Continues(b, i)
  {
    b[i] % 64
  }

  /** The scalar value of the character at the front. */
  function DecodeScalar(b: Bytes): nat
    requires CharacterLength(b) > 0
  {
    if b[0] < 0x80 then b[0]
    else if b[0] < 0xE0 then 64 * (b[0] % 32) + SixBits(b, 1)
    else if b[0] < 0xF0 then 64 * (64 * (b[0] % 16) + SixBits(b, 1)) + SixBits(b, 2)
    else 64 * (64 * (64 * (b[0] % 8) + SixBits(b, 1)) + SixBits(b, 2)) + SixBits(b, 3)
  }

  lemma CharacterIsScalar(b: Bytes)
    requires CharacterLength(b) > 0
    ensures IsScalar(DecodeScalar(b)) && b[..CharacterLength(b)] == EncodeScalar(DecodeScalar(b))
  {
    var n := CharacterLength(b);
    if n <= 2 { ShortCharacter(b); } else if n == 3 { MiddleCharacter(b); } else { LongCharacter(b); }
  }

  lemma ShortCharacter(b: Bytes)
    requires 1 <= CharacterLength(b) <= 2
    ensures IsScalar(DecodeScalar(b)) && b[..CharacterLength(b)] == EncodeScalar(DecodeScalar(b))
  {
    if CharacterLength(b) == 2 { Digit(b[0] % 32, SixBits(b, 1)); }
  }

  lemma MiddleCharacter(b: Bytes)
    requires CharacterLength(b) == 3
    ensures IsScalar(DecodeScalar(b)) && b[..3] == EncodeScalar(DecodeScalar(b))
  {
    Digits(0, b[0] % 16, SixBits(b, 1), SixBits(b, 2));
  }

  lemma LongCharacter(b: Bytes)
    requires CharacterLength(b) == 4
    ensures IsScalar(DecodeScalar(b)) && b[..4] == EncodeScalar(DecodeScalar(b))
  {
    Digits(b[0] % 8, SixBits(b, 1), SixBits(b, 2), SixBits(b, 3));
  }

  function EncodeScalars(cs: seq<nat>): Bytes
    requires forall i :: 0 <= i < |cs| ==> IsScalar(cs[i])
  {
    if cs == [] then [] else EncodeScalar(cs[0]) + EncodeScalars(cs[1..])
  }

  lemma {:induction false} ScalarsAreText(cs: seq<nat>)
    requires forall i :: 0 <= i < |cs| ==> IsScalar(cs[i])
    ensures IsUtf8(EncodeScalars(cs))
  {
    if cs != [] {
      ScalarIsCharacter(cs[0], EncodeScalars(cs[1..]));
      Cut(EncodeScalar(cs[0]), EncodeScalars(cs[1..]));
      ScalarsAreText(cs[1..]);
    }
  }

  lemma {:induction false} TextIsScalars(b: Bytes) returns (cs: seq<nat>)
    requires IsUtf8(b)
    ensures (forall i :: 0 <= i < |cs| ==> IsScalar(cs[i])) && EncodeScalars(cs) == b
    decreases |b|
  {
    if b == [] {
      cs := [];
    } else {
      var n := CharacterLength(b);
      CharacterIsScalar(b);
      var rest := TextIsScalars(b[n..]);
      cs := [DecodeScalar(b)] + rest;
      assert b == b[..n] + b[n..];
    }
  }

  /** Bytes are text exactly when they encode a sequence of scalar values. */
  lemma TextExactly(b: Bytes)
    ensures IsUtf8(b) <==> exists cs :: (forall i :: 0 <= i < |cs| ==> IsScalar(cs[i])) && EncodeScalars(cs) == b
  {
    if IsUtf8(b) { var cs := TextIsScalars(b); }
    if cs :| (forall i :: 0 <= i < |cs| ==> IsScalar(cs[i])) && EncodeScalars(cs) == b { ScalarsAreText(cs); }
  }

  // ----- messages

  /**
   A signed ticker is message 2: a record of the ticker, the signature, the signer in 20 bytes
   and the id in 32.
   */
  lemma TickerLayout(t: SignedTicker)
    requires WellFormed(Message.Ticker(t))
    ensures |t.signer| == 20 && |t.id| == 32
    ensures Fits(t.ticker) && Fits(Raw(t.signature)) && Fits(Fixed(t.signer)) && Fits(Fixed(t.id))
    ensures var body := Encode(t.ticker) + EncodeString(t.signature) + EncodeString(t.signer) + EncodeString(t.id);
      exists header :: Announces(192, header, |body|) && EncodeMessage(Message.Ticker(t)) == [0x02] + (header + body)
  {
    var vs := [t.ticker, Raw(t.signature), Fixed(t.signer), Fixed(t.id)];
    assert TickerValue(t) == Record(vs);
    assert Conforms(FixedKind(20), vs[2]) && Conforms(FixedKind(32), vs[3]);
    PartsFit(vs);
    var parts := [Encode(t.ticker), EncodeString(t.signature), EncodeString(t.signer), EncodeString(t.id)];
    PartsLayout(vs, parts);
    ConcatFour(parts[0], parts[1], parts[2], parts[3]);
  }

  lemma {:induction false} PartsFit(vs: seq<Value>)
    requires SizeAll(vs) < TWO_64
    ensures forall i :: 0 <= i < |vs| ==> Fits(vs[i])
    decreases |vs|
  {
    if vs != [] {
      PayloadWithinSize(vs[0]);
      PartsFit(vs[1..]);
    }
  }

  /** The other messages: 0 and 1 stand alone, 3 is a list of 20-byte addresses. */
  lemma OtherLayouts(signers: seq<Bytes>)
    ensures EncodeMessage(Ping) == [0x00] && EncodeMessage(Pong) == [0x01]
    ensures WellFormed(Attestations(signers)) ==>
      && (forall i :: 0 <= i < |signers| ==> |signers[i]| == 20)
      && var body := Concat(seq(|signers|, i requires 0 <= i < |signers| => [0x94] + signers[i]));
        exists header :: Announces(192, header, |body|) && EncodeMessage(Attestations(signers)) == [0x03] + (header + body)
  {
    if WellFormed(Attestations(signers)) {
      var vs := AddressValues(signers).items;
      PartsFit(vs);
      forall i | 0 <= i < |signers| ensures |signers[i]| == 20 && Encode(vs[i]) == [0x94] + signers[i] {
        assert Conforms(FixedKind(20), vs[i]);
      }
      PartsLayout(vs, seq(|signers|, i requires 0 <= i < |signers| => [0x94] + signers[i]));
    }
  }
}
