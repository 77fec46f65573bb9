/** Bit operations of C on non-negative integers, and little-endian numerals.

    A shift doubles or halves once per bit, `&` and `|` go bit by bit. The lemmas say
    that they are products, quotients, remainders and sums by powers of two; all the
    numerals of the codecs are built from them. */
module Bits {

  // unsigned char
  type octet = x: int | 0 <= x < 256

  // x << n
  function Shl(x: nat, n: nat): nat {
    if n == 0 then x else 2 * Shl(x, n - 1)
  }

  // x >> n
  function Shr(x: nat, n: nat): nat {
    if n == 0 then x else Shr(x / 2, n - 1)
  }

  // The n lowest bits of x
  function Low(x: nat, n: nat): nat {
    if n == 0 then 0 else x % 2 + 2 * Low(x / 2, n - 1)
  }

  function Pow2(n: nat): (p: nat)
    ensures p > 0
  {
    ShlGrows(1, n);
    Shl(1, n)
  }

  lemma {:induction false} ShlGrows(x: nat, n: nat)
    ensures Shl(x, n) >= x
  {
    if n > 0 {
      ShlGrows(x, n - 1);
    }
  }

  // (1 << n) - 1
  function Mask(n: nat): nat {
    Pow2(n) - 1
  }

  function And(x: nat, y: nat): nat {
    if x == 0 || y == 0 then 0
    else 2 * And(x / 2, y / 2) + (if x % 2 == 1 && y % 2 == 1 then 1 else 0)
  }

  function Or(x: nat, y: nat): nat {
    if x == 0 then y
    else if y == 0 then x
    else 2 * Or(x / 2, y / 2) + (if x % 2 == 1 || y % 2 == 1 then 1 else 0)
  }

  // -------------------------------------------------------------- shifts

  lemma {:induction false} ShlSum(x: nat, y: nat, n: nat)
    ensures Shl(x + y, n) == Shl(x, n) + Shl(y, n)
  {
    if n > 0 {
      ShlSum(x, y, n - 1);
    }
  }

  lemma {:induction false} ShlShl(x: nat, m: nat, n: nat)
    ensures Shl(Shl(x, m), n) == Shl(x, m + n)
  {
    if n > 0 {
      ShlShl(x, m, n - 1);
    }
  }

  lemma {:induction false} ShlMono(x: nat, y: nat, n: nat)
    requires x <= y
    ensures Shl(x, n) <= Shl(y, n)
  {
    if n > 0 {
      ShlMono(x, y, n - 1);
    }
  }

  lemma {:induction false} ShlZero(n: nat)
    ensures Shl(0, n) == 0
  {
    if n > 0 {
      ShlZero(n - 1);
    }
  }

  /** Shifting left is multiplying by a power of two. */
  lemma {:induction false} ShlIsProduct(x: nat, n: nat)
    ensures Shl(x, n) == x * Pow2(n)
  {
    if n > 0 {
      ShlIsProduct(x, n - 1);
      assert x * (2 * Pow2(n - 1)) == 2 * (x * Pow2(n - 1));
    }
  }

  lemma Pow2Values()
    ensures Pow2(0) == 1 && Pow2(1) == 2 && Pow2(2) == 4 && Pow2(3) == 8 && Pow2(4) == 16
    ensures Pow2(5) == 32 && Pow2(6) == 64 && Pow2(7) == 128 && Pow2(8) == 256
  {
    assert Shl(1, 4) == 16;
  }

  /** A number is its high part shifted back plus its low bits. */
  lemma {:induction false} SplitAt(x: nat, n: nat)
    ensures x == Shl(Shr(x, n), n) + Low(x, n)
    ensures Low(x, n) < Pow2(n)
  {
    if n > 0 {
      SplitAt(x / 2, n - 1);
    }
  }

  /** No other pair of a high part and n low bits gives the same number. */
  lemma {:induction false} SplitUnique(high: nat, low: nat, n: nat)
    requires low < Pow2(n)
    ensures Shr(Shl(high, n) + low, n) == high && Low(Shl(high, n) + low, n) == low
  {
    if n > 0 {
      assert (Shl(high, n) + low) / 2 == Shl(high, n - 1) + low / 2;
      SplitUnique(high, low / 2, n - 1);
    }
  }

  // Bits from n + m up survive a right shift by n
  lemma ShrSum(x: nat, y: nat, n: nat, m: nat)
    ensures Shr(x + Shl(y, n + m), n) == Shr(x, n) + Shl(y, m)
  {
    SplitAt(x, n);
    ShlShl(y, m, n);
    ShlSum(Shr(x, n), Shl(y, m), n);
    SplitUnique(Shr(x, n) + Shl(y, m), Low(x, n), n);
  }

  lemma SplitShifted(x: nat, m: nat, n: nat)
    ensures Shl(x, n) == Shl(Low(x, m), n) + Shl(Shr(x, m), m + n)
  {
    SplitAt(x, m);
    ShlSum(Shl(Shr(x, m), m), Low(x, m), n);
    ShlShl(Shr(x, m), m, n);
  }

  lemma {:induction false} ShrShrinks(x: nat, n: nat)
    ensures Shr(x, n) <= x
  {
    if n > 0 {
      ShrShrinks(x / 2, n - 1);
    }
  }

  lemma {:induction false} ShrBound(x: nat, m: nat, n: nat)
    requires x < Pow2(m + n)
    ensures Shr(x, m) < Pow2(n)
  {
    if m > 0 {
      ShrBound(x / 2, m - 1, n);
    }
  }

  // Room left above n bits
  lemma ShlBound(x: nat, m: nat, n: nat)
    requires x < Pow2(m)
    ensures Shl(x, n) + Pow2(n) <= Pow2(m + n)
  {
    ShlMono(x + 1, Pow2(m), n);
    ShlSum(x, 1, n);
    ShlShl(1, m, n);
  }

  /** Shifting right and masking are quotient and remainder by a power of two. */
  lemma ShrIsQuotient(x: nat, n: nat)
    ensures Shr(x, n) == x / Pow2(n) && Low(x, n) == x % Pow2(n)
  {
    SplitAt(x, n);
    ShlIsProduct(Shr(x, n), n);
    QuotientUnique(x, Pow2(n), Shr(x, n), Low(x, n));
  }

  lemma QuotientUnique(x: nat, d: nat, q: nat, r: nat)
    requires r < d && x == q * d + r
    ensures x / d == q && x % d == r
  {
    var q', r' := x / d, x % d;
    assert x == q' * d + r';
    if q < q' {
      Multiples(q + 1, q', d);
    } else if q' < q {
      Multiples(q' + 1, q, d);
    }
  }

  lemma Multiples(a: int, b: int, d: nat)
    requires a <= b
    ensures a * d <= b * d
    ensures a * d == (a - 1) * d + d
  {
  }

  // ------------------------------------------------------------ & and |

  /** Masking with 2^n - 1 keeps the low n bits. */
  lemma {:induction false} AndMask(x: nat, n: nat)
    ensures And(x, Mask(n)) == Low(x, n)
  {
    if n > 0 {
      AndMask(x / 2, n - 1);
      assert Mask(n) / 2 == Mask(n - 1);
    }
  }

  /** `&` commutes with a right shift. */
  lemma {:induction false} AndShr(x: nat, y: nat, n: nat)
    ensures Shr(And(x, y), n) == And(Shr(x, n), Shr(y, n))
  {
    if n > 0 {
      AndShr(x / 2, y / 2, n - 1);
      assert And(x, y) / 2 == And(x / 2, y / 2);
    }
  }

  /** `|` of a part below bit n and a part from bit n up is their sum. */
  lemma {:induction false} OrDisjoint(low: nat, high: nat, n: nat)
    requires low < Pow2(n)
    ensures Or(low, Shl(high, n)) == Or(Shl(high, n), low) == low + Shl(high, n)
  {
    if n > 0 {
      OrDisjoint(low / 2, high, n - 1);
    }
  }

  // ------------------------------------------------- little-endian numerals

  // The number written in base 2^w, least significant digit first
  function Val(s: seq<nat>, w: nat): nat {
    if s == [] then 0 else s[0] + Shl(Val(s[1..], w), w)
  }

  // The n lowest digits of v in base 2^w
  function Digits(v: nat, n: nat, w: nat): (s: seq<nat>)
    ensures |s| == n
    decreases n
  {
    if n == 0 then [] else [Low(v, w)] + Digits(Shr(v, w), n - 1, w)
  }

  ghost predicate IsNumeral(s: seq<nat>, w: nat) {
    forall i :: 0 <= i < |s| ==> s[i] < Pow2(w)
  }

  // n digits of w bits
  function Width(n: nat, w: nat): nat {
    if n == 0 then 0 else Width(n - 1, w) + w
  }

  lemma {:induction false} WidthValue(n: nat)
    ensures Width(n, 7) == 7 * n && Width(n, 8) == 8 * n
  {
    if n > 0 {
      WidthValue(n - 1);
    }
  }

  lemma {:induction false} ValAppend(s: seq<nat>, t: seq<nat>, w: nat)
    ensures Val(s + t, w) == Val(s, w) + Shl(Val(t, w), Width(|s|, w))
  {
    if s == [] {
      assert s + t == t;
    } else {
      ValAppend(s[1..], t, w);
      assert (s + t)[1..] == s[1..] + t;
      ShlSum(Val(s[1..], w), Shl(Val(t, w), Width(|s| - 1, w)), w);
      ShlShl(Val(t, w), Width(|s| - 1, w), w);
    }
  }

  lemma ValSnoc(s: seq<nat>, d: nat, w: nat)
    ensures Val(s + [d], w) == Val(s, w) + Shl(d, Width(|s|, w))
  {
    ValAppend(s, [d], w);
    assert [d][1..] == [];
    ShlZero(w);
    assert Val([d], w) == d;
  }

  lemma {:induction false} ValBound(s: seq<nat>, w: nat)
    requires IsNumeral(s, w)
    ensures Val(s, w) < Pow2(Width(|s|, w))
  {
    if s != [] {
      ValBound(s[1..], w);
      ShlMono(Val(s[1..], w) + 1, Pow2(Width(|s| - 1, w)), w);
      ShlSum(Val(s[1..], w), 1, w);
      ShlShl(1, Width(|s| - 1, w), w);
    }
  }

  /** A numeral is determined by its value, whatever digits follow it. */
  lemma {:induction false} DigitsOfVal(s: seq<nat>, above: nat, w: nat)
    requires IsNumeral(s, w)
    ensures Digits(Val(s, w) + Shl(above, Width(|s|, w)), |s|, w) == s
  {
    if s != [] {
      var rest := Val(s[1..], w) + Shl(above, Width(|s| - 1, w));
      ShlSum(Val(s[1..], w), Shl(above, Width(|s| - 1, w)), w);
      ShlShl(above, Width(|s| - 1, w), w);
      SplitUnique(rest, s[0], w);
      DigitsOfVal(s[1..], above, w);
    }
  }

  lemma NumeralOfVal(s: seq<nat>, w: nat)
    requires IsNumeral(s, w)
    ensures Digits(Val(s, w), |s|, w) == s
  {
    ShlZero(Width(|s|, w));
    DigitsOfVal(s, 0, w);
  }

  /** The n lowest digits spell the low bits they cover. */
  lemma {:induction false} ValOfDigits(v: nat, n: nat, w: nat)
    ensures IsNumeral(Digits(v, n, w), w)
    ensures Val(Digits(v, n, w), w) == Low(v, Width(n, w))
    decreases n
  {
    if n > 0 {
      SplitAt(v, w);
      ValOfDigits(Shr(v, w), n - 1, w);
      assert Digits(v, n, w)[1..] == Digits(Shr(v, w), n - 1, w);
      LowTwice(v, w, Width(n - 1, w));
    }
  }

  lemma {:induction false} LowTwice(x: nat, m: nat, n: nat)
    ensures Low(x, n + m) == Low(x, m) + Shl(Low(Shr(x, m), n), m)
  {
    if m > 0 {
      LowTwice(x / 2, m - 1, n);
    }
  }

  lemma LowAll(x: nat, n: nat)
    requires x < Pow2(n)
    ensures Low(x, n) == x && Shr(x, n) == 0
  {
    ShlZero(n);
    SplitUnique(0, x, n);
  }

  // Bits beyond the digits already read do not change them
  lemma DigitsOfPrefix(V: nat, T: nat, fill: nat, rest: nat, k: nat, s: seq<nat>, w: nat)
    requires IsNumeral(s, w)
    requires Shr(V, fill) == Val(s, w) + Shl(rest, Width(|s|, w))
    ensures Digits(Shr(V + Shl(T, fill + (Width(|s|, w) + k)), fill), |s|, w) == s
  {
    var n := Width(|s|, w);
    ShrSum(V, T, fill, n + k);
    ShlShl(T, k, n);
    ShlSum(rest, Shl(T, k), n);
    DigitsOfVal(s, rest + Shl(T, k), w);
  }

  lemma ValSplit(s: seq<nat>, i: nat, w: nat)
    requires i <= |s|
    ensures Val(s, w) == Val(s[..i], w) + Shl(Val(s[i..], w), Width(i, w))
  {
    assert s == s[..i] + s[i..];
    ValAppend(s[..i], s[i..], w);
  }

  /** Digits that suffice for a number spell it. */
  lemma DigitsExact(v: nat, n: nat, w: nat)
    requires v < Pow2(Width(n, w))
    ensures Val(Digits(v, n, w), w) == v && IsNumeral(Digits(v, n, w), w)
  {
    hide Digits, Val, Low, Width;
    ValOfDigits(v, n, w);
    LowAll(v, Width(n, w));
  }
}
