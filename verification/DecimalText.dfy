/**
 Decimal printing of numbers and the byte-wise text order in which SQLite compares
 TEXT columns.
 */
module DecimalText {
  function Digit(d: nat): (c: char)
    requires d < 10
  {
    (48 + d) as char
  }

  /** Decimal text of a number, without leading zeros (`to_string`). */
  function ToText(n: nat): (s: string)
    ensures s != []
    decreases n
  {
    if n < 10 then [Digit(n)] else ToText(n / 10) + [Digit(n % 10)]
  }

  /** The number a decimal text stands for (`from_str`). */
  function Value(s: string): int {
    if s == [] then 0 else 10 * Value(s[..|s| - 1]) + (s[|s| - 1] as int - 48)
  }

  predicate IsDecimal(s: string) {
    forall i :: 0 <= i < |s| ==> '0' <= s[i] <= '9'
  }

  /** Strict order on texts: byte by byte, a proper prefix first. */
  predicate TextLess(a: string, b: string) {
    b != [] && (a == [] || a[0] < b[0] || (a[0] == b[0] && TextLess(a[1..], b[1..])))
  }

  predicate TextLeq(a: string, b: string) {
    a == b || TextLess(a, b)
  }

  lemma {:induction false} ValueOfText(n: nat)
    ensures IsDecimal(ToText(n)) && Value(ToText(n)) == n
  {
    if n >= 10 {
      ValueOfText(n / 10);
      assert ToText(n)[..|ToText(n)| - 1] == ToText(n / 10);
    } else {
      assert [Digit(n)][..0] == [];
    }
  }

  lemma TextIsInjective(m: nat, n: nat)
    requires ToText(m) == ToText(n)
    ensures m == n
  {
    ValueOfText(m);
    ValueOfText(n);
  }

  lemma {:induction false} TextLessIrreflexive(a: string)
    ensures !TextLess(a, a)
  {
    if a == [] {
    } else {
      TextLessIrreflexive(a[1..]);
    }
  }

  lemma {:induction false} TextLessTransitive(a: string, b: string, c: string)
    requires TextLess(a, b) && TextLess(b, c)
    ensures TextLess(a, c)
  {
    if a != [] && a[0] == b[0] == c[0] {
      TextLessTransitive(a[1..], b[1..], c[1..]);
    }
  }

  lemma {:induction false} TextLessTotal(a: string, b: string)
    ensures a == b || TextLess(a, b) || TextLess(b, a)
  {
    if a != [] && b != [] && a[0] == b[0] {
      TextLessTotal(a[1..], b[1..]);
      assert a == [a[0]] + a[1..] && b == [b[0]] + b[1..];
    }
  }

  /** A strict inequality at equal lengths is decided before either text ends. */
  lemma {:induction false} TextLessExtends(a: string, b: string, x: string, y: string)
    requires |a| == |b| && TextLess(a, b)
    ensures TextLess(a + x, b + y)
  {
    assert (a + x)[0] == a[0] && (b + y)[0] == b[0];
    if a[0] == b[0] {
      TextLessExtends(a[1..], b[1..], x, y);
      assert (a + x)[1..] == a[1..] + x && (b + y)[1..] == b[1..] + y;
    }
  }

  lemma {:induction false} TextLessAfterPrefix(p: string, x: string, y: string)
    ensures TextLess(p + x, p + y) <==> TextLess(x, y)
  {
    if p == [] {
      assert p + x == x && p + y == y;
    } else {
      TextLessAfterPrefix(p[1..], x, y);
      assert (p + x)[1..] == p[1..] + x && (p + y)[1..] == p[1..] + y;
    }
  }

  /** Texts of equal length compare as their numbers do. */
  lemma {:induction false} EqualLengthOrder(m: nat, n: nat)
    requires |ToText(m)| == |ToText(n)| && m < n
    ensures TextLess(ToText(m), ToText(n))
    decreases n
  {
    if m >= 10 {
      if m / 10 < n / 10 {
        EqualLengthOrder(m / 10, n / 10);
        TextLessExtends(ToText(m / 10), ToText(n / 10), [Digit(m % 10)], [Digit(n % 10)]);
      } else {
        TextLessAfterPrefix(ToText(m / 10), [Digit(m % 10)], [Digit(n % 10)]);
      }
    }
  }

  // ----- numbers made of nines

  function Pow10(k: nat): (p: nat)
    ensures p >= 1
  {
    if k == 0 then 1 else 10 * Pow10(k - 1)
  }

  function Nines(k: nat): (s: string)
    ensures |s| == k
  {
    if k == 0 then [] else Nines(k - 1) + ['9']
  }

  lemma {:induction false} NinesText(k: nat)
    requires k > 0
    ensures ToText(Pow10(k) - 1) == Nines(k)
  {
    if k == 1 {
      assert Nines(0) + ['9'] == ['9'];
    } else {
      NinesText(k - 1);
      assert (Pow10(k) - 1) / 10 == Pow10(k - 1) - 1;
    }
  }

  lemma {:induction false} NinesSplit(j: nat, k: nat)
    requires j <= k
    ensures Nines(k) == Nines(j) + Nines(k - j)
  {
    if j == k {
    } else {
      NinesSplit(j, k - 1);
    }
  }

  /** A number lies in the decade of its text's length. */
  lemma {:induction false} LengthBounds(n: nat)
    ensures var k := |ToText(n)|; n < Pow10(k) && (n >= 10 ==> Pow10(k - 1) <= n)
    decreases n
  {
    if n >= 10 {
      LengthBounds(n / 10);
      if n / 10 < 10 { assert Pow10(1) == 10; }
    } else {
      assert Pow10(1) == 10;
    }
  }

  lemma {:induction false} Pow10Monotone(j: nat, k: nat)
    requires j <= k
    ensures Pow10(j) <= Pow10(k)
    decreases k
  {
    if j == k {
    } else {
      Pow10Monotone(j, k - 1);
    }
  }

  lemma {:induction false} TextLengthMonotone(m: nat, n: nat)
    requires m <= n
    ensures |ToText(m)| <= |ToText(n)|
    decreases n
  {
    if n >= 10 && m >= 10 { TextLengthMonotone(m / 10, n / 10); }
  }
}
