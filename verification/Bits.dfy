/**
 * Bitwise operators on unsigned machine words, defined bit by bit on natural numbers.
 * `width` is the size of the word: 32 for addresses, 64 for the words of the replay bitmap.
 */
module Bits {

  function Pow2(n: nat): (p: nat)
    ensures p >= 1
  {
    if n == 0 then 1 else 2 * Pow2(n - 1)
  }

  predicate Bit(x: nat, i: nat) {
    if i == 0 then x % 2 == 1 else Bit(x / 2, i - 1)
  }

  function And(x: nat, y: nat): nat {
    if x == 0 || y == 0 then 0
    else 2 * And(x / 2, y / 2) + if x % 2 == 1 && y % 2 == 1 then 1 else 0
  }

  function Or(x: nat, y: nat): nat
    decreases x + y
  {
    if x == 0 && y == 0 then 0
    else 2 * Or(x / 2, y / 2) + if x % 2 == 1 || y % 2 == 1 then 1 else 0
  }

  function Not(x: nat, width: nat): nat
    requires x < Pow2(width)
  {
    Pow2(width) - 1 - x
  }

  function Shl(x: nat, n: nat, width: nat): nat {
    (x * Pow2(n)) % Pow2(width)
  }

  function Shr(x: nat, n: nat): nat {
    if n == 0 then x else Shr(x / 2, n - 1)
  }

  lemma {:induction false} Pow2Monotone(a: nat, b: nat)
    requires a < b
    ensures 2 * Pow2(a) <= Pow2(b)
  {
    if a + 1 < b {
      Pow2Monotone(a, b - 1);
    }
  }

  lemma {:induction false} Pow2Splits(a: nat, b: nat)
    ensures Pow2(a + b) == Pow2(a) * Pow2(b)
  {
    if a > 0 {
      Pow2Splits(a - 1, b);
    }
  }

  lemma {:induction false} BitOfAnd(x: nat, y: nat, i: nat)
    ensures Bit(And(x, y), i) <==> Bit(x, i) && Bit(y, i)
    decreases i
  {
    if x == 0 || y == 0 {
      ZeroHasNoBits(i);
    } else if i > 0 {
      BitOfAnd(x / 2, y / 2, i - 1);
    }
  }

  lemma {:induction false} BitOfOr(x: nat, y: nat, i: nat)
    ensures Bit(Or(x, y), i) <==> Bit(x, i) || Bit(y, i)
    decreases i
  {
    if x == 0 && y == 0 {
      ZeroHasNoBits(i);
    } else if i > 0 {
      BitOfOr(x / 2, y / 2, i - 1);
    }
  }

  lemma {:induction false} BitOfNot(x: nat, width: nat, i: nat)
    requires x < Pow2(width) && i < width
    ensures Bit(Not(x, width), i) <==> !Bit(x, i)
  {
    if i > 0 {
      assert Not(x, width) / 2 == Not(x / 2, width - 1);
      BitOfNot(x / 2, width - 1, i - 1);
    }
  }

  lemma {:induction false} BitOfPow2(b: nat, i: nat)
    ensures Bit(Pow2(b), i) <==> i == b
  {
    if b == 0 && i > 0 {
      ZeroHasNoBits(i - 1);
    } else if i > 0 {
      BitOfPow2(b - 1, i - 1);
    }
  }

  lemma {:induction false} ZeroHasNoBits(i: nat)
    ensures !Bit(0, i)
  {
    if i > 0 {
      ZeroHasNoBits(i - 1);
    }
  }

  lemma {:induction false} BitIsShiftAndMask(x: nat, i: nat)
    ensures Bit(x, i) <==> And(Shr(x, i), 1) == 1
  {
    if i > 0 {
      BitIsShiftAndMask(x / 2, i - 1);
    } else if x != 0 {
      assert And(x / 2, 0) == 0;
    }
  }

  lemma OneShifted(b: nat, width: nat)
    requires b < width
    ensures Shl(1, b, width) == Pow2(b) < Pow2(width)
  {
    Pow2Monotone(b, width);
    DivModUnique(1 * Pow2(b), Pow2(width), 0, Pow2(b));
  }

  lemma {:induction false} AndBelow(x: nat, y: nat)
    ensures And(x, y) <= x
  {
    if x != 0 && y != 0 {
      AndBelow(x / 2, y / 2);
    }
  }

  lemma {:induction false} OrBelow(x: nat, y: nat, width: nat)
    requires x < Pow2(width) && y < Pow2(width)
    ensures Or(x, y) < Pow2(width)
    decreases width
  {
    if !(x == 0 && y == 0) {
      OrBelow(x / 2, y / 2, width - 1);
    }
  }

  /** The number formed by the low `k` bits. */
  function Low(x: nat, k: nat): nat {
    if k == 0 then 0 else 2 * Low(x / 2, k - 1) + x % 2
  }

  lemma {:induction false} LowIsRemainder(x: nat, k: nat)
    ensures Low(x, k) == x % Pow2(k)
  {
    if k > 0 {
      LowIsRemainder(x / 2, k - 1);
      HalfRemainder(x, k);
    }
  }

  lemma {:induction false} ClearingLowBits(x: nat, k: nat)
    ensures Low(x, k) <= x && Low(x - Low(x, k), k) == 0
  {
    if k > 0 {
      ClearingLowBits(x / 2, k - 1);
      assert x - Low(x, k) == 2 * (x / 2 - Low(x / 2, k - 1));
    }
  }

  lemma {:induction false} LowOfZero(k: nat)
    ensures Low(0, k) == 0
  {
    if k > 0 {
      LowOfZero(k - 1);
    }
  }

  lemma {:induction false} LowOfAll(x: nat, k: nat)
    requires x < Pow2(k)
    ensures Low(x, k) == x
  {
    if k > 0 {
      LowOfAll(x / 2, k - 1);
    }
  }

  /** Masking with all ones above bit `k` clears the low bits. */
  lemma {:induction false} AndHighMask(x: nat, k: nat, width: nat)
    requires x < Pow2(width) && k <= width
    ensures Pow2(k) <= Pow2(width)
    ensures And(x, Pow2(width) - Pow2(k)) == x - Low(x, k)
    decreases width
  {
    if k == 0 {
      AndAllOnes(x, width);
    } else {
      AndHighMask(x / 2, k - 1, width - 1);
    }
  }

  lemma {:induction false} AndAllOnes(x: nat, width: nat)
    requires x < Pow2(width)
    ensures And(x, Pow2(width) - 1) == x
  {
    if width > 0 && x != 0 {
      AndAllOnes(x / 2, width - 1);
    }
  }

  /** Filling the low `k` bits where they are all clear adds 2^k - 1. */
  lemma {:induction false} OrLowMask(x: nat, k: nat)
    requires Low(x, k) == 0
    ensures Or(x, Pow2(k) - 1) == x + Pow2(k) - 1
    decreases k
  {
    if k == 0 {
      OrZero(x);
    } else {
      OrLowMask(x / 2, k - 1);
      var mask := Pow2(k) - 1;
      assert mask / 2 == Pow2(k - 1) - 1 && mask % 2 == 1;
      assert Or(x, mask) == 2 * Or(x / 2, mask / 2) + 1;
    }
  }

  lemma {:induction false} OrZero(x: nat)
    ensures Or(x, 0) == x
  {
    if x != 0 {
      OrZero(x / 2);
    }
  }

  lemma HalfRemainder(x: nat, k: nat)
    requires k > 0
    ensures x % Pow2(k) == 2 * ((x / 2) % Pow2(k - 1)) + x % 2
  {
    var m := Pow2(k - 1);
    var q, r := (x / 2) / m, (x / 2) % m;
    assert x == 2 * (q * m + r) + x % 2;
    DivModUnique(x, 2 * m, q, 2 * r + x % 2);
  }

  lemma DivModUnique(x: nat, m: nat, q: nat, r: nat)
    requires r < m && x == q * m + r
    ensures x / m == q && x % m == r
  {
    var d := x / m - q;
    assert x == (x / m) * m + x % m;
    assert d * m == r - x % m;
    if d >= 1 {
      MultipleAtLeast(d, m);
    } else if d <= -1 {
      MultipleAtLeast(-d, m);
    }
  }

  lemma MultipleAtLeast(d: int, m: nat)
    requires d >= 1
    ensures d * m >= m
  {
  }

  lemma MultiplesStepBy(a: nat, b: nat, m: nat)
    requires a < b
    ensures a * m + m <= b * m
  {
    MultipleAtLeast(b - a, m);
    assert (b - a) * m == b * m - a * m;
  }
}
