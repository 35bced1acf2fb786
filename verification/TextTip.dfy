/**
 The tip query `SELECT number FROM block ORDER BY number DESC LIMIT 1` over a TEXT column:
 which number it answers when the blocks 0..n are stored.
 */
module TextTip {
  import opened DecimalText

  /** `t` is the row the tip query answers for the stored texts `keys`. */
  ghost predicate IsTextMax(keys: set<string>, t: string) {
    t in keys && forall s :: s in keys ==> TextLeq(s, t)
  }

  lemma {:induction false} TextMaxExists(keys: set<string>)
    requires keys != {}
    ensures exists t :: IsTextMax(keys, t)
  {
    var k :| k in keys;
    var rest := keys - {k};
    if rest == {} {
      assert keys == {k} && IsTextMax(keys, k);
    } else {
      TextMaxExists(rest);
      var r :| IsTextMax(rest, r);
      TextLessTotal(k, r);
      var t := if TextLess(r, k) then k else r;
      forall s | s in keys ensures TextLeq(s, t) {
        if s != k {
          assert s in rest && TextLeq(s, r);
          if s != r && t == k { TextLessTransitive(s, r, k); }
        }
      }
      assert IsTextMax(keys, t);
    }
  }

  lemma TextMaxUnique(keys: set<string>, t: string, u: string)
    requires IsTextMax(keys, t) && IsTextMax(keys, u)
    ensures t == u
  {
    if t != u {
      TextLessTransitive(t, u, t);
      TextLessIrreflexive(t);
    }
  }

  /** The number the tip query answers over the stored texts `keys`. */
  ghost function QueriedTip(keys: set<string>): int
    requires keys != {}
  {
    TextMaxExists(keys);
    var t :| IsTextMax(keys, t);
    Value(t)
  }

  lemma QueriedTipIs(keys: set<string>, t: string)
    requires IsTextMax(keys, t)
    ensures QueriedTip(keys) == Value(t)
  {
    forall u | IsTextMax(keys, u) ensures u == t {
      TextMaxUnique(keys, t, u);
    }
  }

  /** The texts of the block numbers 0..n-1. */
  function NumberTexts(n: nat): set<string> {
    set i | 0 <= i < n :: ToText(i)
  }

  /** `n / 10 + 1` is a power of ten: 0..9, 90..99, 990..999, ... */
  ghost predicate EndsDecade(n: nat) {
    exists k: nat :: n / 10 + 1 == Pow10(k)
  }

  /** The same, computed from the length of the text. */
  predicate AllNinesButLast(n: nat) {
    n / 10 + 1 == Pow10(|ToText(n)| - 1)
  }

  /** The number the tip query answers when exactly the blocks 0..n are stored. */
  function TipNumber(n: nat): (tip: nat) {
    if AllNinesButLast(n) then n else Pow10(|ToText(n)| - 1) - 1
  }

  lemma EndsDecadeComputed(n: nat)
    ensures EndsDecade(n) <==> AllNinesButLast(n)
  {
    if n < 10 {
      assert n / 10 + 1 == Pow10(0);
    } else if k: nat :| n / 10 + 1 == Pow10(k) {
      var d := |ToText(n)| - 1;
      LengthBounds(n / 10);
      if n / 10 < 10 { assert Pow10(0) == 1 && Pow10(1) == 10; }
      if k < d { Pow10Monotone(k, d - 1); }
      if k > d { Pow10Monotone(d + 1, k); }
    }
  }

  /** A number is at most the nines of its own length. */
  lemma AtMostNines(m: nat)
    ensures var j := |ToText(m)|; ToText(m) == Nines(j) || TextLess(ToText(m), Nines(j))
  {
    var j := |ToText(m)|;
    NinesText(j);
    LengthBounds(m);
    if m < Pow10(j) - 1 { EqualLengthOrder(m, Pow10(j) - 1); }
  }

  /** A text of at most `k` digits sorts no later than `k` nines, and before any extension. */
  lemma BelowNines(m: nat, k: nat, x: string)
    requires |ToText(m)| <= k
    ensures TextLeq(ToText(m), Nines(k) + x)
    ensures x != [] ==> TextLess(ToText(m), Nines(k) + x)
  {
    var t, j := ToText(m), |ToText(m)|;
    var rest := Nines(k - j) + x;
    NinesSplit(j, k);
    assert Nines(k) + x == Nines(j) + rest;
    AtMostNines(m);
    assert t + [] == t && Nines(j) + [] == Nines(j);
    if t != Nines(j) {
      TextLessExtends(t, Nines(j), [], rest);
    } else if rest != [] {
      TextLessAfterPrefix(Nines(j), [], rest);
    }
  }

  lemma NearlyNinesIsMax(m: nat, n: nat)
    requires AllNinesButLast(n) && m < n
    ensures TextLess(ToText(m), ToText(n))
  {
    TextLengthMonotone(m, n);
    if |ToText(m)| == |ToText(n)| {
      EqualLengthOrder(m, n);
    } else {
      var k := |ToText(n)| - 1;
      NinesText(k);
      assert ToText(n) == Nines(k) + [Digit(n % 10)];
      BelowNines(m, k, [Digit(n % 10)]);
    }
  }

  lemma ShorterNinesAreMax(m: nat, n: nat)
    requires !AllNinesButLast(n) && m <= n
    ensures n >= 10 && Pow10(|ToText(n)| - 1) - 1 < n
    ensures TextLeq(ToText(m), Nines(|ToText(n)| - 1))
  {
    var d := |ToText(n)| - 1;
    assert Pow10(0) == 1;
    LengthBounds(n);
    TextLengthMonotone(m, n);
    if |ToText(m)| <= d {
      BelowNines(m, d, []);
      assert Nines(d) + [] == Nines(d);
    } else {
      LengthBounds(n / 10);
      NinesText(d);
      EqualLengthOrder(m / 10, Pow10(d) - 1);
      TextLessExtends(ToText(m / 10), Nines(d), [Digit(m % 10)], []);
      assert Nines(d) + [] == Nines(d);
    }
  }

  /** Over blocks 0..n the tip query answers `TipNumber(n)`. */
  lemma TipQueryAnswer(n: nat)
    ensures IsTextMax(NumberTexts(n + 1), ToText(TipNumber(n)))
    ensures QueriedTip(NumberTexts(n + 1)) == TipNumber(n) <= n
  {
    var keys := NumberTexts(n + 1);
    var tip := TipNumber(n);
    if !AllNinesButLast(n) {
      ShorterNinesAreMax(n, n);
      NinesText(|ToText(n)| - 1);
    }
    forall s | s in keys ensures TextLeq(s, ToText(tip)) {
      var m :| 0 <= m < n + 1 && s == ToText(m);
      if AllNinesButLast(n) {
        if m < n { NearlyNinesIsMax(m, n); }
      } else {
        ShorterNinesAreMax(m, n);
      }
    }
    assert ToText(tip) in keys;
    QueriedTipIs(keys, ToText(tip));
    ValueOfText(tip);
  }

  /**
   With blocks 0..n stored, the tip check accepts the newest block exactly when
   `n / 10 + 1` is a power of ten.
   */
  lemma TipCheckAcceptsNewest(n: nat)
    ensures NumberTexts(n + 1) != {}
    ensures QueriedTip(NumberTexts(n + 1)) == n <==> EndsDecade(n)
  {
    TipQueryAnswer(n);
    EndsDecadeComputed(n);
    if !AllNinesButLast(n) { ShorterNinesAreMax(n, n); }
  }
}
