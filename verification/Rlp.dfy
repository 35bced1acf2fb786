/**
 Recursive length prefix coding (Appendix B of the Ethereum Yellow Paper) of typed values, as
 the derived encoders and decoders of the oracle's messages do it: decoding follows the
 declared kinds and accepts nothing but what encoding produces.
 */
module Rlp {
  import opened Prelude

  /** What a decoder expects next. */
  datatype Kind =
    | TextKind
    | NumberKind
    | RawKind
    | FixedKind(size: nat)
    | RecordKind(fields: seq<Kind>)
    | ListKind(item: Kind)

  datatype Value =
    | Text(text: Bytes)
    | Number(number: U64)
    | Raw(raw: Bytes)
    | Fixed(fixed: Bytes)
    | Record(fields: seq<Value>)
    | List(items: seq<Value>)

  datatype Parsed<+T> = Fail | Done(value: T, rest: Bytes)

  // ----- big-endian numbers

  /** Big-endian bytes without leading zeros; zero has none. */
  function BigEndian(n: nat): Bytes {
    if n == 0 then [] else BigEndian(n / 256) + [n % 256]
  }

  function FromBigEndian(b: Bytes): nat {
    if b == [] then 0 else 256 * FromBigEndian(b[..|b| - 1]) + b[|b| - 1]
  }

  lemma {:induction false} BigEndianInverse(n: nat)
    ensures FromBigEndian(BigEndian(n)) == n
    ensures n > 0 ==> BigEndian(n) != [] && BigEndian(n)[0] != 0
  {
    if n == 0 {
    } else {
      BigEndianInverse(n / 256);
      assert BigEndian(n)[..|BigEndian(n)| - 1] == BigEndian(n / 256);
    }
  }

  /** One more byte at the end. */
  lemma BigEndianStep(q: nat, r: Byte)
    requires 256 * q + r > 0
    ensures BigEndian(256 * q + r) == BigEndian(q) + [r]
  {
    assert (256 * q + r) / 256 == q && (256 * q + r) % 256 == r;
  }

  lemma {:induction false} FromBigEndianInverse(b: Bytes)
    requires b != [] ==> b[0] != 0
    ensures BigEndian(FromBigEndian(b)) == b
    ensures b != [] ==> FromBigEndian(b) > 0
  {
    if b == [] {
    } else {
      var init, r := b[..|b| - 1], b[|b| - 1];
      var q := FromBigEndian(init);
      if init != [] { assert init[0] == b[0]; }
      FromBigEndianInverse(init);
      assert b == init + [r];
      AppendByte(q, r, init);
    }
  }

  lemma AppendByte(q: nat, r: Byte, init: Bytes)
    requires BigEndian(q) == init && (q > 0 || r > 0)
    ensures BigEndian(256 * q + r) == init + [r] && 256 * q + r > 0
  {
    BigEndianStep(q, r);
  }

  lemma {:induction false} BigEndianLength(n: nat, k: nat)
    ensures |BigEndian(n)| <= k <==> n < Pow256(k)
  {
    if n > 0 && k > 0 { BigEndianLength(n / 256, k - 1); }
  }

  lemma EightBytes(n: nat)
    ensures |BigEndian(n)| <= 8 <==> n < TWO_64
  {
    BigEndianLength(n, 8);
    assert Pow256(2) == 0x1_0000;
    assert Pow256(4) == 0x1_0000_0000;
    assert Pow256(6) == 0x1_0000_0000_0000;
    assert Pow256(8) == TWO_64;
  }

  // ----- headers

  function EncodeHeader(list: bool, length: nat): Bytes
    requires length < TWO_64
  {
    EightBytes(length);
    if length < 56 then [(if list then 0xC0 else 0x80) + length]
    else [(if list then 0xF7 else 0xB7) + |BigEndian(length)|] + BigEndian(length)
  }

  /** A header: whether a list follows, and the length of the payload. */
  datatype Header = Header(list: bool, length: nat)

  /** A long length: no leading zero, and not one that has a short form. */
  function DecodeLength(list: bool, size: nat, b: Bytes): Parsed<Header> {
    if |b| < size || size == 0 || b[0] == 0 then Fail
    else
      var length := FromBigEndian(b[..size]);
      if length < 56 then Fail else Done(Header(list, length), b[size..])
  }

  /** The header at the front; a byte below 0x80 is its own payload. */
  function DecodeHeader(b: Bytes): (p: Parsed<Header>)
    ensures p.Done? ==> |p.rest| >= p.value.length
  {
    if b == [] then Fail
    else
      var h := b[0];
      var p :=
        if h < 0x80 then Done(Header(false, 1), b)
        else if h < 0xB8 then
          if h == 0x81 && (|b| < 2 || b[1] < 0x80) then Fail else Done(Header(false, h - 0x80), b[1..])
        else if h < 0xC0 then DecodeLength(false, h - 0xB7, b[1..])
        else if h < 0xF8 then Done(Header(true, h - 0xC0), b[1..])
        else DecodeLength(true, h - 0xF7, b[1..]);
      if p.Done? && |p.rest| < p.value.length then Fail else p
  }

  /** A list header decodes to what was encoded, whatever follows. */
  lemma ListHeaderInverse(length: nat, rest: Bytes)
    requires length < TWO_64 && |rest| >= length
    ensures DecodeHeader(EncodeHeader(true, length) + rest) == Done(Header(true, length), rest)
  {
    var b := EncodeHeader(true, length) + rest;
    if length < 56 {
      assert b[1..] == rest;
    } else {
      LongHeaderInverse(true, length, rest);
    }
  }

  lemma LongHeaderInverse(list: bool, length: nat, rest: Bytes)
    requires 56 <= length < TWO_64
    ensures 1 <= |BigEndian(length)| <= 8
    ensures (EncodeHeader(list, length) + rest)[1..] == BigEndian(length) + rest
    ensures DecodeLength(list, |BigEndian(length)|, BigEndian(length) + rest) == Done(Header(list, length), rest)
  {
    EightBytes(length);
    BigEndianInverse(length);
    var n, first := BigEndian(length), [(if list then 0xF7 else 0xB7) + |BigEndian(length)|];
    Cut(n, rest);
    Cut(first, n + rest);
    Regroup(first, n, rest);
  }

  lemma DecodedLength(list: bool, size: nat, b: Bytes)
    requires DecodeLength(list, size, b).Done? && size <= 8
    ensures var p := DecodeLength(list, size, b);
      && 56 <= p.value.length < TWO_64
      && EncodeHeader(list, p.value.length) + p.rest == [(if list then 0xF7 else 0xB7) + size] + b
      && p.value.list == list
  {
    var length := FromBigEndian(b[..size]);
    FromBigEndianInverse(b[..size]);
    EightBytes(length);
    var first := [(if list then 0xF7 else 0xB7) + size];
    assert b == b[..size] + b[size..];
    Regroup(first, b[..size], b[size..]);
  }

  /** Only an encoded header decodes as a list header. */
  lemma ListHeaderCanonical(b: Bytes)
    requires DecodeHeader(b).Done? && DecodeHeader(b).value.list
    ensures var p := DecodeHeader(b); p.value.length < TWO_64 && b == EncodeHeader(true, p.value.length) + p.rest
  {
    if b[0] < 0xF8 {
      assert b == [b[0]] + b[1..];
    } else {
      DecodedLength(true, b[0] - 0xF7, b[1..]);
      assert b == [b[0]] + b[1..];
    }
  }

  // ----- byte strings

  predicate SelfCoded(x: Bytes) {
    |x| == 1 && x[0] < 0x80
  }

  function EncodeString(x: Bytes): Bytes
    requires |x| < TWO_64
  {
    if SelfCoded(x) then x else EncodeHeader(false, |x|) + x
  }

  function DecodeString(b: Bytes): Parsed<Bytes> {
    var p := DecodeHeader(b);
    if p.Fail? || p.value.list then Fail else Done(p.rest[..p.value.length], p.rest[p.value.length..])
  }

  lemma StringInverse(x: Bytes, rest: Bytes)
    requires |x| < TWO_64
    ensures DecodeString(EncodeString(x) + rest) == Done(x, rest)
  {
    var b := EncodeString(x) + rest;
    Cut(x, rest);
    if !SelfCoded(x) {
      Regroup(EncodeHeader(false, |x|), x, rest);
      if |x| < 56 {
        assert b[1..] == x + rest;
      } else {
        LongHeaderInverse(false, |x|, x + rest);
      }
    }
  }

  lemma StringCanonical(b: Bytes)
    requires DecodeString(b).Done?
    ensures var p := DecodeString(b); |p.value| < TWO_64 && b == EncodeString(p.value) + p.rest
  {
    var h, p := DecodeHeader(b), DecodeString(b);
    assert h.rest == p.value + p.rest;
    if b[0] < 0x80 {
      assert p.value == [b[0]];
    } else if b[0] < 0xB8 {
      ShortStringCanonical(b, p.value, p.rest);
    } else {
      LongStringCanonical(b, p.value, p.rest);
    }
  }

  lemma ShortStringCanonical(b: Bytes, x: Bytes, rest: Bytes)
    requires b != [] && 0x80 <= b[0] < 0xB8 && |x| == b[0] - 0x80 && b[1..] == x + rest
    requires |x| == 1 ==> x[0] >= 0x80
    ensures |x| < TWO_64 && b == EncodeString(x) + rest
  {
    assert b == [b[0]] + b[1..];
    assert EncodeString(x) + rest == [b[0]] + (x + rest);
  }

  lemma LongStringCanonical(b: Bytes, x: Bytes, rest: Bytes)
    requires b != [] && 0xB8 <= b[0] < 0xC0
    requires DecodeLength(false, b[0] - 0xB7, b[1..]) == Done(Header(false, |x|), x + rest)
    ensures |x| < TWO_64 && b == EncodeString(x) + rest
  {
    DecodedLength(false, b[0] - 0xB7, b[1..]);
    assert b == [b[0]] + b[1..];
    Regroup(EncodeHeader(false, |x|), x, rest);
  }

  // ----- text

  predicate Continues(b: Bytes, i: nat) {
    i < |b| && 0x80 <= b[i] < 0xC0
  }

  /** The length of the UTF-8 character at the front (RFC 3629, section 4), 0 if there is none. */
  function CharacterLength(b: Bytes): (n: nat)
    ensures n <= |b|
  {
    if b == [] then 0
    else if b[0] < 0x80 then 1
    else if 0xC2 <= b[0] < 0xE0 && Continues(b, 1) then 2
    else if 0xE0 <= b[0] < 0xF0 && Continues(b, 1) && Continues(b, 2)
            && (b[0] == 0xE0 ==> b[1] >= 0xA0) && (b[0] == 0xED ==> b[1] < 0xA0) then 3
    else if 0xF0 <= b[0] < 0xF5 && Continues(b, 1) && Continues(b, 2) && Continues(b, 3)
            && (b[0] == 0xF0 ==> b[1] >= 0x90) && (b[0] == 0xF4 ==> b[1] < 0x90) then 4
    else 0
  }

  predicate IsUtf8(b: Bytes) {
    b == [] || (CharacterLength(b) > 0 && IsUtf8(b[CharacterLength(b)..]))
  }

  // ----- typed values

  predicate Conforms(k: Kind, v: Value)
    decreases v
  {
    match k
    case TextKind => v.Text? && IsUtf8(v.text)
    case NumberKind => v.Number?
    case RawKind => v.Raw?
    case FixedKind(size) => v.Fixed? && |v.fixed| == size
    case RecordKind(kinds) => v.Record? && |v.fields| == |kinds| && forall i :: 0 <= i < |kinds| ==> Conforms(kinds[i], v.fields[i])
    case ListKind(item) => v.List? && forall i :: 0 <= i < |v.items| ==> Conforms(item, v.items[i])
  }

  function HeaderSize(length: nat): nat {
    if length < 56 then 1 else 1 + |BigEndian(length)|
  }

  function StringSize(x: Bytes): nat {
    if SelfCoded(x) then 1 else HeaderSize(|x|) + |x|
  }

  /** The announced size of an encoding, computed before anything is written. */
  function Size(v: Value): nat
    decreases v, 0
  {
    match v
    case Text(x) => StringSize(x)
    case Number(n) => StringSize(BigEndian(n))
    case Raw(x) => StringSize(x)
    case Fixed(x) => StringSize(x)
    case Record(vs) => HeaderSize(SizeAll(vs)) + SizeAll(vs)
    case List(vs) => HeaderSize(SizeAll(vs)) + SizeAll(vs)
  }

  function SizeAll(vs: seq<Value>): nat
    decreases vs, 1
  {
    if vs == [] then 0 else Size(vs[0]) + SizeAll(vs[1..])
  }

  /** The length a value's header announces. */
  function PayloadSize(v: Value): nat {
    match v
    case Text(x) => |x|
    case Number(n) => |BigEndian(n)|
    case Raw(x) => |x|
    case Fixed(x) => |x|
    case Record(vs) => SizeAll(vs)
    case List(vs) => SizeAll(vs)
  }

  /** A 64-bit length can announce the payload, as it can for all that memory holds. */
  predicate Fits(v: Value) {
    PayloadSize(v) < TWO_64
  }

  function Encode(v: Value): (b: Bytes)
    requires Fits(v)
    ensures |b| == Size(v)
    decreases v, 0
  {
    match v
    case Text(x) => EncodeString(x)
    case Number(n) => EncodeString(BigEndian(n))
    case Raw(x) => EncodeString(x)
    case Fixed(x) => EncodeString(x)
    case Record(vs) => EncodeHeader(true, SizeAll(vs)) + EncodeAll(vs)
    case List(vs) => EncodeHeader(true, SizeAll(vs)) + EncodeAll(vs)
  }

  function EncodeAll(vs: seq<Value>): (b: Bytes)
    requires SizeAll(vs) < TWO_64
    ensures |b| == SizeAll(vs)
    decreases vs, 1
  {
    if vs == [] then []
    else
      PayloadWithinSize(vs[0]);
      Encode(vs[0]) + EncodeAll(vs[1..])
  }

  lemma PayloadWithinSize(v: Value)
    ensures PayloadSize(v) <= Size(v)
  {
  }

  function Decode(k: Kind, b: Bytes): (p: Parsed<Value>)
    ensures p.Done? ==> |p.rest| < |b|
    decreases k, 0, |b|
  {
    match k
    case TextKind =>
      (match DecodeString(b)
       case Fail => Fail
       case Done(x, rest) => if IsUtf8(x) then Done(Text(x), rest) else Fail)
    case NumberKind =>
      (match DecodeString(b)
       case Fail => Fail
       case Done(x, rest) =>
         EightBytes(FromBigEndian(x));
         if |x| > 8 || (x != [] && x[0] == 0) then Fail
         else
           FromBigEndianInverse(x);
           Done(Number(FromBigEndian(x)), rest))
    case RawKind =>
      (match DecodeString(b)
       case Fail => Fail
       case Done(x, rest) => Done(Raw(x), rest))
    case FixedKind(size) =>
      (match DecodeString(b)
       case Fail => Fail
       case Done(x, rest) => if |x| == size then Done(Fixed(x), rest) else Fail)
    case RecordKind(kinds) =>
      var h := DecodeHeader(b);
      if h.Fail? || !h.value.list then Fail
      else
        (match DecodeFields(kinds, h.rest)
         case Fail => Fail
         case Done(vs, rest) => if |h.rest| - |rest| == h.value.length then Done(Record(vs), rest) else Fail)
    case ListKind(item) =>
      var h := DecodeHeader(b);
      if h.Fail? || !h.value.list then Fail
      else
        (match DecodeItems(item, h.rest[..h.value.length])
         case None => Fail
         case Some(vs) => Done(List(vs), h.rest[h.value.length..]))
  }

  /** The fields of a record, one after the other. */
  function DecodeFields(kinds: seq<Kind>, b: Bytes): (p: Parsed<seq<Value>>)
    ensures p.Done? ==> |p.rest| <= |b|
    decreases kinds, 1, |b|
  {
    if kinds == [] then Done([], b)
    else
      match Decode(kinds[0], b)
      case Fail => Fail
      case Done(v, rest) =>
        match DecodeFields(kinds[1..], rest)
        case Fail => Fail
        case Done(vs, rest') => Done([v] + vs, rest')
  }

  /** Items until the list's payload is used up. */
  function DecodeItems(item: Kind, b: Bytes): Option<seq<Value>>
    decreases item, 1, |b|
  {
    if b == [] then Some([])
    else
      match Decode(item, b)
      case Fail => None
      case Done(v, rest) =>
        match DecodeItems(item, rest)
        case None => None
        case Some(vs) => Some([v] + vs)
  }

  // ----- decoding inverts encoding, and accepts nothing else

  lemma {:induction false} DecodeInvertsEncode(k: Kind, v: Value, rest: Bytes)
    requires Conforms(k, v) && Fits(v)
    ensures Decode(k, Encode(v) + rest) == Done(v, rest)
    decreases v, 0
  {
    match v
    case Text(x) => StringInverse(x, rest);
    case Number(n) => NumberInverse(n, rest);
    case Raw(x) => StringInverse(x, rest);
    case Fixed(x) => StringInverse(x, rest);
    case Record(vs) => RecordInverse(k.fields, vs, rest);
    case List(vs) => ListInverse(k.item, vs, rest);
  }

  lemma NumberInverse(n: U64, rest: Bytes)
    requires Fits(Number(n))
    ensures Decode(NumberKind, Encode(Number(n)) + rest) == Done(Number(n), rest)
  {
    EightBytes(n);
    BigEndianInverse(n);
    StringInverse(BigEndian(n), rest);
  }

  lemma {:induction false} RecordInverse(kinds: seq<Kind>, vs: seq<Value>, rest: Bytes)
    requires Conforms(RecordKind(kinds), Record(vs)) && Fits(Record(vs))
    ensures Decode(RecordKind(kinds), Encode(Record(vs)) + rest) == Done(Record(vs), rest)
    decreases vs, 2
  {
    var payload := EncodeAll(vs) + rest;
    ListHeaderInverse(SizeAll(vs), payload);
    FieldsInverse(kinds, vs, rest);
    Regroup(EncodeHeader(true, SizeAll(vs)), EncodeAll(vs), rest);
  }

  lemma {:induction false} ListInverse(item: Kind, vs: seq<Value>, rest: Bytes)
    requires Conforms(ListKind(item), List(vs)) && Fits(List(vs))
    ensures Decode(ListKind(item), Encode(List(vs)) + rest) == Done(List(vs), rest)
    decreases vs, 2
  {
    var payload := EncodeAll(vs) + rest;
    ListHeaderInverse(SizeAll(vs), payload);
    ItemsInverse(item, vs);
    Cut(EncodeAll(vs), rest);
    Regroup(EncodeHeader(true, SizeAll(vs)), EncodeAll(vs), rest);
  }

  lemma {:induction false} FieldsInverse(kinds: seq<Kind>, vs: seq<Value>, rest: Bytes)
    requires |kinds| == |vs| && SizeAll(vs) < TWO_64
    requires forall i :: 0 <= i < |vs| ==> Conforms(kinds[i], vs[i])
    ensures DecodeFields(kinds, EncodeAll(vs) + rest) == Done(vs, rest)
    decreases vs, 1
  {
    if vs == [] {
      assert EncodeAll(vs) + rest == rest;
    } else {
      Regroup(Encode(vs[0]), EncodeAll(vs[1..]), rest);
      DecodeInvertsEncode(kinds[0], vs[0], EncodeAll(vs[1..]) + rest);
      FieldsInverse(kinds[1..], vs[1..], rest);
      assert [vs[0]] + vs[1..] == vs;
    }
  }

  lemma {:induction false} ItemsInverse(item: Kind, vs: seq<Value>)
    requires SizeAll(vs) < TWO_64
    requires forall i :: 0 <= i < |vs| ==> Conforms(item, vs[i])
    ensures DecodeItems(item, EncodeAll(vs)) == Some(vs)
    decreases vs, 1
  {
    if vs == [] {
    } else {
      PayloadWithinSize(vs[0]);
      DecodeInvertsEncode(item, vs[0], EncodeAll(vs[1..]));
      ItemsInverse(item, vs[1..]);
      assert [vs[0]] + vs[1..] == vs;
      NothingIsEmpty(item, vs[0], EncodeAll(vs[1..]));
    }
  }

  lemma NothingIsEmpty(item: Kind, v: Value, rest: Bytes)
    requires Fits(v) && Decode(item, Encode(v) + rest).Done?
    ensures Encode(v) + rest != []
  {
  }

  lemma {:induction false} DecodedIsEncoding(k: Kind, b: Bytes)
    requires Decode(k, b).Done?
    ensures var p := Decode(k, b); Conforms(k, p.value) && Fits(p.value) && b == Encode(p.value) + p.rest
    decreases k, 0, |b|
  {
    match k
    case TextKind => StringCanonical(b);
    case NumberKind => DecodedNumberIsEncoding(b);
    case RawKind => StringCanonical(b);
    case FixedKind(_) => StringCanonical(b);
    case RecordKind(kinds) => DecodedRecordIsEncoding(kinds, b);
    case ListKind(item) => DecodedListIsEncoding(item, b);
  }

  lemma {:induction false} DecodedRecordIsEncoding(kinds: seq<Kind>, b: Bytes)
    requires Decode(RecordKind(kinds), b).Done?
    ensures var p := Decode(RecordKind(kinds), b);
      Conforms(RecordKind(kinds), p.value) && Fits(p.value) && b == Encode(p.value) + p.rest
    decreases kinds, 2, |b|
  {
    var p := Decode(RecordKind(kinds), b);
    DecodedFieldsAreEncoding(kinds, DecodeHeader(b).rest);
    ListIsEncoding(b, p.value, p.rest);
  }

  lemma {:induction false} DecodedListIsEncoding(item: Kind, b: Bytes)
    requires Decode(ListKind(item), b).Done?
    ensures var p := Decode(ListKind(item), b);
      Conforms(ListKind(item), p.value) && Fits(p.value) && b == Encode(p.value) + p.rest
    decreases item, 2, |b|
  {
    var p := Decode(ListKind(item), b);
    var h := DecodeHeader(b);
    DecodedItemsAreEncoding(item, h.rest[..h.value.length]);
    assert h.rest == h.rest[..h.value.length] + h.rest[h.value.length..];
    ListIsEncoding(b, p.value, p.rest);
  }

  lemma DecodedNumberIsEncoding(b: Bytes)
    requires Decode(NumberKind, b).Done?
    ensures var p := Decode(NumberKind, b); p.value.Number? && Fits(p.value) && b == Encode(p.value) + p.rest
  {
    StringCanonical(b);
    FromBigEndianInverse(DecodeString(b).value);
  }

  /** The values of a list or record. */
  function Parts(v: Value): seq<Value> {
    match v
    case Record(vs) => vs
    case List(vs) => vs
    case _ => []
  }

  lemma ListIsEncoding(b: Bytes, v: Value, rest: Bytes)
    requires DecodeHeader(b).Done? && DecodeHeader(b).value.list && (v.Record? || v.List?)
    requires var h := DecodeHeader(b);
      SizeAll(Parts(v)) == h.value.length && (SizeAll(Parts(v)) < TWO_64 ==> h.rest == EncodeAll(Parts(v)) + rest)
    ensures Fits(v) && b == Encode(v) + rest
  {
    ListHeaderCanonical(b);
    EncodedParts(v);
    Regroup(EncodeHeader(true, SizeAll(Parts(v))), EncodeAll(Parts(v)), rest);
  }

  lemma EncodedParts(v: Value)
    requires (v.Record? || v.List?) && SizeAll(Parts(v)) < TWO_64
    ensures Fits(v) && Encode(v) == EncodeHeader(true, SizeAll(Parts(v))) + EncodeAll(Parts(v))
  {
  }

  lemma {:induction false} DecodedFieldsAreEncoding(kinds: seq<Kind>, b: Bytes)
    requires DecodeFields(kinds, b).Done?
    ensures var p := DecodeFields(kinds, b);
      && |p.value| == |kinds|
      && (forall i :: 0 <= i < |kinds| ==> Conforms(kinds[i], p.value[i]))
      && SizeAll(p.value) == |b| - |p.rest|
      && (SizeAll(p.value) < TWO_64 ==> b == EncodeAll(p.value) + p.rest)
    decreases kinds, 1, |b|
  {
    if kinds == [] {
    } else {
      var first := Decode(kinds[0], b);
      DecodedIsEncoding(kinds[0], b);
      DecodedFieldsAreEncoding(kinds[1..], first.rest);
      var more := DecodeFields(kinds[1..], first.rest);
      PrependedConforms(kinds, first.value, more.value);
      PrependedBytes(b, first.value, first.rest, more.value, more.rest);
    }
  }

  lemma PrependedConforms(kinds: seq<Kind>, v: Value, vs: seq<Value>)
    requires kinds != [] && |vs| == |kinds| - 1 && Conforms(kinds[0], v)
    requires forall i :: 0 <= i < |vs| ==> Conforms(kinds[1..][i], vs[i])
    ensures forall i :: 0 <= i < |kinds| ==> Conforms(kinds[i], ([v] + vs)[i])
  {
    forall i | 0 <= i < |kinds| ensures Conforms(kinds[i], ([v] + vs)[i]) {
      if i > 0 { assert kinds[i] == kinds[1..][i - 1]; }
    }
  }

  lemma PrependedBytes(b: Bytes, v: Value, rest: Bytes, vs: seq<Value>, rest': Bytes)
    requires Fits(v) && b == Encode(v) + rest
    requires SizeAll(vs) == |rest| - |rest'| && (SizeAll(vs) < TWO_64 ==> rest == EncodeAll(vs) + rest')
    ensures SizeAll([v] + vs) == |b| - |rest'|
    ensures SizeAll([v] + vs) < TWO_64 ==> b == EncodeAll([v] + vs) + rest'
  {
    assert ([v] + vs)[1..] == vs;
    if SizeAll([v] + vs) < TWO_64 {
      Regroup(Encode(v), EncodeAll(vs), rest');
    }
  }

  lemma {:induction false} DecodedItemsAreEncoding(item: Kind, b: Bytes)
    requires DecodeItems(item, b).Some?
    ensures var vs := DecodeItems(item, b).value;
      && (forall i :: 0 <= i < |vs| ==> Conforms(item, vs[i]))
      && SizeAll(vs) == |b|
      && (SizeAll(vs) < TWO_64 ==> b == EncodeAll(vs))
    decreases item, 1, |b|
  {
    if b == [] {
    } else {
      var first := Decode(item, b);
      DecodedIsEncoding(item, b);
      DecodedItemsAreEncoding(item, first.rest);
      var vs := DecodeItems(item, b).value;
      assert vs[1..] == DecodeItems(item, first.rest).value;
    }
  }

  /** Decoding succeeds exactly on the encodings of values of that kind, whatever follows them. */
  lemma DecodeExactly(k: Kind, b: Bytes, v: Value, rest: Bytes)
    ensures Decode(k, b) == Done(v, rest) <==> Conforms(k, v) && Fits(v) && b == Encode(v) + rest
  {
    if Decode(k, b) == Done(v, rest) { DecodedIsEncoding(k, b); }
    if Conforms(k, v) && Fits(v) { DecodeInvertsEncode(k, v, rest); }
  }
}
