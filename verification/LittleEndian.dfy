/** Little-endian integers of fixed width, and the reader that also takes shorter ones. */
module LittleEndian {
  import opened Prelude

  const TWO_32: nat := 0x1_0000_0000
  const TWO_128: nat := 0x1_0000_0000_0000_0000_0000_0000_0000_0000

  type U32 = x: nat | x < TWO_32
  type U128 = x: nat | x < TWO_128

  /** `n` in exactly `width` bytes, lowest first. */
  function ToBytes(width: nat, n: nat): (b: Bytes)
    ensures |b| == width
  {
    if width == 0 then [] else [n % 256] + ToBytes(width - 1, n / 256)
  }

  function FromBytes(b: Bytes): (n: nat)
    ensures n < Pow256(|b|)
  {
    if b == [] then 0 else b[0] + 256 * FromBytes(b[1..])
  }

  lemma {:induction false} FromInvertsTo(width: nat, n: nat)
    requires n < Pow256(width)
    ensures FromBytes(ToBytes(width, n)) == n
  {
    if width == 0 {
    } else {
      FromInvertsTo(width - 1, n / 256);
      assert ToBytes(width, n)[1..] == ToBytes(width - 1, n / 256);
    }
  }

  /** At a fixed width no two byte strings stand for one number. */
  lemma {:induction false} ToInvertsFrom(b: Bytes)
    ensures ToBytes(|b|, FromBytes(b)) == b
  {
    if b == [] {
    } else {
      ToInvertsFrom(b[1..]);
      var n := FromBytes(b);
      assert n % 256 == b[0] && n / 256 == FromBytes(b[1..]);
    }
  }

  lemma Widths()
    ensures Pow256(8) == TWO_64 && Pow256(16) == TWO_128 && Pow256(32) == TWO_256
  {
    assert Pow256(4) == 0x1_0000_0000;
    assert Pow256(8) == TWO_64;
    assert Pow256(12) == 0x1_0000_0000_0000_0000_0000_0000;
    assert Pow256(16) == TWO_128;
    assert Pow256(20) == 0x1_0000_0000_0000_0000_0000_0000_0000_0000_0000_0000;
    assert Pow256(24) == 0x1_0000_0000_0000_0000_0000_0000_0000_0000_0000_0000_0000_0000;
    assert Pow256(28) == 0x1_0000_0000_0000_0000_0000_0000_0000_0000_0000_0000_0000_0000_0000_0000;
  }

  lemma {:induction false} PowersGrow(j: nat, k: nat)
    requires j <= k
    ensures Pow256(j) <= Pow256(k)
  {
    if j == k {
    } else {
      PowersGrow(j, k - 1);
    }
  }

  /** A number of at most 32 bytes. */
  lemma ShortFits(b: Bytes)
    requires |b| <= 32
    ensures FromBytes(b) < TWO_256
  {
    PowersGrow(|b|, 32);
    Widths();
  }
}
