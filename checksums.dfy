/**
 * The checksum families shared by the per-country rules: weighted digit
 * sums, the doubling-and-folding sum of Annex B of ISO/IEC 7812-1 and the
 * MOD 11,10 recurrence of ISO/IEC 7064. Each family has a recursive
 * specification function over a digit string and a method with the loop the
 * validator runs, proved to compute it.
 */
module Checksums {
  import opened Text

  /** Sum of `Digit(s[i]) * w[i]` over all positions. */
  function WeightedSum(s: string, w: seq<int>): int
    requires |s| == |w|
  {
    if |s| == 0 then 0
    else WeightedSum(s[..|s| - 1], w[..|w| - 1]) + Digit(s[|s| - 1]) * w[|w| - 1]
  }

  predicate NonNegative(w: seq<int>) { forall i | 0 <= i < |w| :: w[i] >= 0 }

  lemma {:induction false} WeightedSumNonNegative(s: string, w: seq<int>)
    requires |s| == |w| && AllDigits(s) && NonNegative(w)
    ensures WeightedSum(s, w) >= 0
  {
    if |s| > 0 {
      WeightedSumNonNegative(s[..|s| - 1], w[..|w| - 1]);
    }
  }

  /** With non-negative weights the sum is at least its first term. */
  lemma {:induction false} WeightedSumAtLeastFirst(s: string, w: seq<int>)
    requires |s| == |w| >= 1 && AllDigits(s) && NonNegative(w)
    ensures WeightedSum(s, w) >= Digit(s[0]) * w[0]
  {
    if |s| > 1 {
      var p, q := s[..|s| - 1], w[..|w| - 1];
      WeightedSumAtLeastFirst(p, q);
      assert p[0] == s[0] && q[0] == w[0];
    }
  }

  /** The loop `for (i = 0; i < n; ++i) total += parseInt(s.charAt(i), 10) * w[i]`. */
  method WeightedTotal(s: string, w: seq<int>) returns (total: int)
    requires |s| == |w|
    ensures total == WeightedSum(s, w)
  {
    total := 0;
    var i := 0;
    while i < |w|
      invariant 0 <= i <= |w|
      invariant total == WeightedSum(s[..i], w[..i])
    {
      assert s[..i + 1][..i] == s[..i] && w[..i + 1][..i] == w[..i];
      total := total + Digit(s[i]) * w[i];
      i := i + 1;
    }
    assert s[..i] == s && w[..i] == w;
  }

  /** A product above nine is replaced by the sum of its two decimal digits. */
  function Fold(t: int): (r: int)
    ensures 0 <= t <= 18 ==> 0 <= r <= 9 && r % 9 == t % 9
  {
    if t > 9 then 1 + t % 10 else t
  }

  /** Sum of the folded products `Fold(Digit(s[i]) * w[i])`. */
  function FoldSum(s: string, w: seq<int>): int
    requires |s| == |w|
  {
    if |s| == 0 then 0
    else FoldSum(s[..|s| - 1], w[..|w| - 1]) + Fold(Digit(s[|s| - 1]) * w[|w| - 1])
  }

  /** The doubling loop with `if (temp > 9) total += 1 + temp % 10; else total += temp`. */
  method FoldTotal(s: string, w: seq<int>) returns (total: int)
    requires |s| == |w|
    ensures total == FoldSum(s, w)
  {
    total := 0;
    var i := 0;
    while i < |w|
      invariant 0 <= i <= |w|
      invariant total == FoldSum(s[..i], w[..i])
    {
      assert s[..i + 1][..i] == s[..i] && w[..i + 1][..i] == w[..i];
      var temp := Digit(s[i]) * w[i];
      if temp > 9 {
        total := total + 1 + temp % 10;
      } else {
        total := total + temp;
      }
      i := i + 1;
    }
    assert s[..i] == s && w[..i] == w;
  }

  /** Alternating weights 1, 2, 1, 2, ... when `firstDoubled` is false, 2, 1, 2, ... otherwise. */
  function Alternating(n: nat, firstDoubled: bool): (w: seq<int>)
    ensures |w| == n && forall i | 0 <= i < n :: w[i] == 1 || w[i] == 2
  {
    seq(n, i => if (i % 2 == 0) == firstDoubled then 2 else 1)
  }

  /** One step of the MOD 11,10 recurrence: `sum = (d + product) % 10` (0 read as 10), then `(2 * sum) % 11`. */
  function Iso7064Step(product: int, c: char): (r: int)
    ensures 1 <= r <= 10
  {
    var sum := (Digit(c) + product) % 10;
    var sum' := if sum == 0 then 10 else sum;
    assert 2 <= 2 * sum' <= 20 && 2 * sum' != 11;
    (2 * sum') % 11
  }

  /** The running `product` after consuming all digits of `s`, starting from 10. */
  function Iso7064Product(s: string): int
  {
    if |s| == 0 then 10 else Iso7064Step(Iso7064Product(s[..|s| - 1]), s[|s| - 1])
  }

  /** The loop `product = 10; for each digit: sum = ...; product = (2 * sum) % 11`. */
  method Iso7064Loop(s: string) returns (product: int)
    ensures product == Iso7064Product(s)
    ensures 1 <= product <= 10
  {
    product := 10;
    var sum := 0;
    var i := 0;
    while i < |s|
      invariant 0 <= i <= |s|
      invariant 1 <= product <= 10
      invariant product == Iso7064Product(s[..i])
    {
      assert s[..i + 1][..i] == s[..i];
      sum := (Digit(s[i]) + product) % 10;
      if sum == 0 {
        sum := 10;
      }
      product := (2 * sum) % 11;
      i := i + 1;
    }
    assert s[..i] == s;
  }

  /** For a product in 1..10, the one digit that makes `product + digit` end in 1 is `(11 - product) % 10`. */
  lemma Iso7064Completion(product: int, d: int)
    requires 1 <= product <= 10 && 0 <= d <= 9
    ensures (product + d) % 10 == 1 <==> d == (11 - product) % 10
  {
    if product + d >= 10 {
      assert (product + d) % 10 == product + d - 10;
    } else {
      assert (product + d) % 10 == product + d;
    }
    if product == 1 {
      assert (11 - product) % 10 == 0;
    } else {
      assert (11 - product) % 10 == 11 - product;
    }
  }

  /** Numbers congruent mod 97 stay congruent when scaled by `p` and shifted by `c`. */
  lemma Mod97ScaleShift(a: int, b: int, p: int, c: int)
    requires a % 97 == b % 97
    ensures (a * p + c) % 97 == (b * p + c) % 97
  {
    var k := a / 97 - b / 97;
    assert a == b + 97 * k;
    var y := k * p;
    assert a * p + c == (b * p + c) + 97 * y;
  }
}
