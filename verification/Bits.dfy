/**
 Unsigned words as numbers, bit by bit: shifts, masks and the bitwise or. Everything is defined by
 doubling and halving, so that proofs about fields of words need no products.
 */
module Bits {

  function Pow2(n: nat): (p: nat)
    ensures p >= 1
  {
    if n == 0 then 1 else 2 * Pow2(n - 1)
  }

  /** x shifted left by n places, as far as the word is wide enough for it. */
  function Shl(x: nat, n: nat): (r: nat)
  {
    if n == 0 then x else 2 * Shl(x, n - 1)
  }

  function Shr(x: nat, n: nat): (r: nat)
  {
    if n == 0 then x else Shr(x / 2, n - 1)
  }

  /** The low n bits. */
  function Low(x: nat, n: nat): (r: nat)
  {
    if n == 0 then 0 else x % 2 + 2 * Low(x / 2, n - 1)
  }

  /** Bitwise or. */
  function Or(a: nat, b: nat): (r: nat)
    decreases a + b
  {
    if a == 0 then b
    else if b == 0 then a
    else (if a % 2 == 1 || b % 2 == 1 then 1 else 0) + 2 * Or(a / 2, b / 2)
  }

  /** Bitwise and. */
  function And(a: nat, b: nat): (r: nat)
  {
    if a == 0 || b == 0 then 0
    else (if a % 2 == 1 && b % 2 == 1 then 1 else 0) + 2 * And(a / 2, b / 2)
  }

  // ------------------------------------------------------------- shifts

  lemma {:induction false} ShlAdd(x: nat, m: nat, n: nat)
    ensures Shl(x, m + n) == Shl(Shl(x, m), n)
    decreases n
  {
    if n > 0 {
      ShlAdd(x, m, n - 1);
    }
  }

  lemma {:induction false} ShlSum(x: nat, y: nat, n: nat)
    ensures Shl(x + y, n) == Shl(x, n) + Shl(y, n)
  {
    if n > 0 {
      ShlSum(x, y, n - 1);
    }
  }

  lemma {:induction false} ShlLess(x: nat, y: nat, n: nat)
    requires x < y
    ensures Shl(x, n) + Pow2(n) <= Shl(y, n)
  {
    if n > 0 {
      ShlLess(x, y, n - 1);
    }
  }

  lemma {:induction false} ShlZero(n: nat)
    ensures Shl(0, n) == 0
  {
    if n > 0 {
      ShlZero(n - 1);
    }
  }

  lemma ShlNotZero(x: nat, n: nat)
    requires x > 0
    ensures Shl(0, n) == 0 && Shl(x, n) != 0
  {
    ShlZero(n);
    ShlLess(0, x, n);
  }

  lemma {:induction false} Pow2Shl(m: nat, n: nat)
    ensures Pow2(m + n) == Shl(Pow2(m), n)
    decreases n
  {
    if n > 0 {
      Pow2Shl(m, n - 1);
    }
  }

  lemma {:induction false} Pow2Monotone(m: nat, n: nat)
    requires m <= n
    ensures Pow2(m) <= Pow2(n)
  {
    if m < n {
      Pow2Monotone(m, n - 1);
    }
  }

  /** A field above and one below stay within their widths together. */
  lemma FieldBound(high: nat, low: nat, n: nat, m: nat)
    requires low < Pow2(n) && high < Pow2(m)
    ensures Shl(high, n) + low < Pow2(m + n)
  {
    ShlLess(high, Pow2(m), n);
    Pow2Shl(m, n);
  }

  // ------------------------------------------------------------- fields of a word

  /** Numbers whose bits lie in different places are or-ed by adding them. */
  lemma {:induction false} OrIsSum(high: nat, low: nat, n: nat)
    requires low < Pow2(n)
    ensures Or(Shl(high, n), low) == Shl(high, n) + low
    ensures Or(low, Shl(high, n)) == Shl(high, n) + low
  {
    if n == 0 {
      assert low == 0;
    } else {
      OrIsSum(high, low / 2, n - 1);
    }
  }

  lemma {:induction false} ShrOfSum(high: nat, low: nat, n: nat)
    requires low < Pow2(n)
    ensures Shr(Shl(high, n) + low, n) == high
    ensures Low(Shl(high, n) + low, n) == low
  {
    if n > 0 {
      var x := Shl(high, n) + low;
      assert x / 2 == Shl(high, n - 1) + low / 2 && x % 2 == low % 2;
      ShrOfSum(high, low / 2, n - 1);
    }
  }

  lemma {:induction false} Split(x: nat, n: nat)
    ensures x == Shl(Shr(x, n), n) + Low(x, n) && Low(x, n) < Pow2(n)
  {
    if n > 0 {
      Split(x / 2, n - 1);
    }
  }

  lemma {:induction false} ShrZeroIff(x: nat, n: nat)
    ensures Shr(x, n) == 0 <==> x < Pow2(n)
  {
    if n > 0 {
      ShrZeroIff(x / 2, n - 1);
    }
  }

  lemma {:induction false} ShrSnoc(x: nat, n: nat)
    ensures Shr(x, n + 1) == Shr(x, n) / 2
  {
    if n > 0 {
      ShrSnoc(x / 2, n - 1);
    }
  }

  // ------------------------------------------------------------- masks

  /** The mask of the low n bits keeps just those. */
  lemma {:induction false} AndLowMask(x: nat, n: nat)
    ensures And(Pow2(n) - 1, x) == Low(x, n)
  {
    if n > 0 {
      AndLowMask(x / 2, n - 1);
      var m := Pow2(n) - 1;
      assert m / 2 == Pow2(n - 1) - 1 && m % 2 == 1;
      if x == 0 {
        LowZero(n);
      }
    }
  }

  lemma {:induction false} LowZero(n: nat)
    ensures Low(0, n) == 0
  {
    if n > 0 {
      LowZero(n - 1);
    }
  }

  /** A word has no bits above the low n exactly if it is below 2 to the n. */
  lemma {:induction false} AndHighMask(x: nat, n: nat, w: nat)
    requires n <= w && x < Pow2(w)
    ensures Pow2(n) <= Pow2(w) && (And(x, Pow2(w) - Pow2(n)) == 0 <==> x < Pow2(n))
  {
    Pow2Monotone(n, w);
    if n == 0 {
      AndAllOnes(x, w);
    } else {
      AndHighMask(x / 2, n - 1, w - 1);
      var m := Pow2(w) - Pow2(n);
      assert m % 2 == 0 && m / 2 == Pow2(w - 1) - Pow2(n - 1);
    }
  }

  lemma {:induction false} AndAllOnes(x: nat, w: nat)
    requires x < Pow2(w)
    ensures And(x, Pow2(w) - 1) == x
  {
    if x > 0 && w > 0 {
      AndAllOnes(x / 2, w - 1);
      assert (Pow2(w) - 1) / 2 == Pow2(w - 1) - 1 && (Pow2(w) - 1) % 2 == 1;
    }
  }

  /** Or of two words is the larger at least, and stays within the bits of both. */
  lemma {:induction false} OrRange(a: nat, b: nat, w: nat)
    ensures a <= Or(a, b) && b <= Or(a, b)
    ensures Or(a, b) < Pow2(w) <==> a < Pow2(w) && b < Pow2(w)
    decreases a + b
  {
    if a > 0 && b > 0 {
      OrRange(a / 2, b / 2, if w > 0 then w - 1 else 0);
    }
  }

  // ------------------------------------------------------------- numbers

  lemma MulGap(a: nat, b: nat, d: nat)
    requires a < b
    ensures a * d + d <= b * d
  {
    assert b * d == (a + 1) * d + (b - a - 1) * d;
  }

  lemma DivUnique(x: nat, d: nat, q: nat, r: nat)
    requires d > 0 && x == q * d + r && r < d
    ensures x / d == q && x % d == r
  {
    var q', r' := x / d, x % d;
    assert x == q' * d + r';
    if q < q' {
      MulGap(q, q', d);
    } else if q' < q {
      MulGap(q', q, d);
    }
  }

  /** Bits needed to tell `data` states apart. */
  method CeilLog2(data: nat) returns (out: nat)
    ensures data == 0 ==> out == 0
    ensures data > 0 ==> data <= Pow2(out) && (out > 0 ==> Pow2(out - 1) < data)
  {
    out := 0;
    if data == 0 {
      return;
    }
    var rest: nat := data - 1;
    while rest > 0
      invariant rest == Shr(data - 1, out) && (out > 0 ==> Pow2(out - 1) < data)
      decreases rest
    {
      ShrZeroIff(data - 1, out);
      ShrSnoc(data - 1, out);
      out, rest := out + 1, rest / 2;
    }
    ShrZeroIff(data - 1, out);
  }
}
