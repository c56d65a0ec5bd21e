/** Bitwise operators on mathematical integers, in the two's complement reading C and Berry
    give them: `/ 2` and `% 2` peel off the lowest bit, also of a negative number. */
module Bits {
  type Byte = x: int | 0 <= x < 256

  function Pow2(n: nat): (r: nat)
    ensures r >= 1
  {
    if n == 0 then 1 else 2 * Pow2(n - 1)
  }

  predicate Bit(x: int, i: nat)
    decreases i
  {
    if i == 0 then x % 2 == 1 else Bit(x / 2, i - 1)
  }

  // x & m for a non-negative mask
  function And(x: int, m: nat): (r: nat)
    ensures r <= m
    decreases m, x
  {
    if m == 0 then 0 else 2 * And(x / 2, m / 2) + (if x % 2 == 1 && m % 2 == 1 then 1 else 0)
  }

  // x | y
  function Or(x: nat, y: nat): (r: nat)
    ensures r >= x && r >= y
    decreases x + y
  {
    if x == 0 && y == 0 then 0
    else 2 * Or(x / 2, y / 2) + (if x % 2 == 1 || y % 2 == 1 then 1 else 0)
  }

  // x << n
  function Shl(x: int, n: nat): int
    decreases n, x
  {
    if n == 0 then x else 2 * Shl(x, n - 1)
  }

  // x >> n, arithmetic
  function Shr(x: int, n: nat): int
    decreases n, x
  {
    if n == 0 then x else Shr(x / 2, n - 1)
  }

  function Ones(n: nat): nat {
    Pow2(n) - 1
  }

  // Bit i is the one of weight 2^i.
  lemma {:induction false} BitIs(x: int, i: nat)
    ensures Bit(x, i) <==> x / Pow2(i) % 2 == 1
    decreases i
  {
    ShrIsDiv(x, i);
    BitOfShr(x, i, 0);
  }

  // ----- one bit of each operator's result -----

  lemma {:induction false} BitOfZero(i: nat)
    ensures !Bit(0, i)
  {
    if i > 0 { BitOfZero(i - 1); }
  }

  lemma {:induction false} BitOfAnd(x: int, m: nat, i: nat)
    ensures Bit(And(x, m), i) <==> Bit(x, i) && Bit(m, i)
    decreases i
  {
    if m == 0 {
      BitOfZero(i);
    } else if i > 0 {
      BitOfAnd(x / 2, m / 2, i - 1);
    }
  }

  lemma {:induction false} BitOfOr(x: nat, y: nat, i: nat)
    ensures Bit(Or(x, y), i) <==> Bit(x, i) || Bit(y, i)
    decreases i
  {
    if x == 0 && y == 0 {
      BitOfZero(i);
    } else if i > 0 {
      BitOfOr(x / 2, y / 2, i - 1);
    }
  }

  lemma {:induction false} BitOfShl(x: int, n: nat, i: nat)
    ensures Bit(Shl(x, n), i) <==> i >= n && Bit(x, i - n)
    decreases n
  {
    if n > 0 && i > 0 {
      BitOfShl(x, n - 1, i - 1);
    }
  }

  lemma {:induction false} BitOfShr(x: int, n: nat, i: nat)
    ensures Bit(Shr(x, n), i) <==> Bit(x, i + n)
    decreases n
  {
    if n > 0 {
      BitOfShr(x / 2, n - 1, i);
    }
  }

  // The bits of all-ones minus m are the complement of m's.
  lemma {:induction false} BitOfComplement(m: nat, n: nat, i: nat)
    requires m < Pow2(n)
    ensures Bit(Ones(n) - m, i) <==> i < n && !Bit(m, i)
    decreases n
  {
    if n == 0 {
      BitOfZero(i);
    } else {
      assert (Ones(n) - m) / 2 == Ones(n - 1) - m / 2;
      if i > 0 {
        BitOfComplement(m / 2, n - 1, i - 1);
      }
    }
  }

  lemma BitOfOnes(n: nat, i: nat)
    ensures Bit(Ones(n), i) <==> i < n
  {
    BitOfZero(i);
    BitOfComplement(0, n, i);
  }

  lemma {:induction false} HighBitsClear(x: nat, n: nat, i: nat)
    requires x < Pow2(n) && i >= n
    ensures !Bit(x, i)
    decreases i
  {
    if n == 0 {
      BitOfZero(i);
    } else {
      HighBitsClear(x / 2, n - 1, i - 1);
    }
  }

  // Numbers below 2^n are equal when their n low bits agree.
  lemma {:induction false} SameBits(x: nat, y: nat, n: nat)
    requires x < Pow2(n) && y < Pow2(n)
    requires forall i :: 0 <= i < n ==> (Bit(x, i) <==> Bit(y, i))
    ensures x == y
    decreases n
  {
    if n > 0 {
      assert Bit(x, 0) <==> Bit(y, 0);
      forall i | 0 <= i < n - 1 ensures Bit(x / 2, i) <==> Bit(y / 2, i) {
        assert Bit(x, i + 1) <==> Bit(y, i + 1);
      }
      SameBits(x / 2, y / 2, n - 1);
    }
  }

  lemma {:induction false} OrBelow(x: nat, y: nat, n: nat)
    requires x < Pow2(n) && y < Pow2(n)
    ensures Or(x, y) < Pow2(n)
    decreases n
  {
    if n > 0 {
      OrBelow(x / 2, y / 2, n - 1);
    }
  }

  // ----- the operators as arithmetic -----

  lemma {:induction false} Pow2Sum(m: nat, n: nat)
    ensures Pow2(m + n) == Pow2(m) * Pow2(n)
    decreases m
  {
    if m > 0 {
      Pow2Sum(m - 1, n);
      calc {
        Pow2(m + n);
        2 * Pow2(m - 1 + n);
        2 * (Pow2(m - 1) * Pow2(n));
        (2 * Pow2(m - 1)) * Pow2(n);
      }
    }
  }

  lemma {:induction false} ShlIsTimes(x: int, n: nat)
    ensures Shl(x, n) == x * Pow2(n)
    decreases n
  {
    if n > 0 {
      ShlIsTimes(x, n - 1);
      assert x * (2 * Pow2(n - 1)) == 2 * (x * Pow2(n - 1));
    }
  }

  lemma {:induction false} ModHalves(x: int, n: nat)
    requires n > 0
    ensures x % Pow2(n) == 2 * ((x / 2) % Pow2(n - 1)) + x % 2
  {
    var p := Pow2(n - 1);
    var q, r := (x / 2) / p, (x / 2) % p;
    assert x == (2 * p) * q + (2 * r + x % 2) by {
      assert x / 2 == p * q + r;
      assert 2 * (p * q) == (2 * p) * q;
    }
    assert 0 <= 2 * r + x % 2 < 2 * p;
    ModUnique(x, 2 * p, q, 2 * r + x % 2);
  }

  lemma MultipleSize(d: int, k: int)
    requires d > 0
    ensures k >= 1 ==> d * k >= d
    ensures k <= -1 ==> d * k <= -d
  {
    if k >= 1 {
      assert d * k == d + d * (k - 1) && d * (k - 1) >= 0;
    } else if k <= -1 {
      assert d * k == -d + d * (k + 1) && d * (k + 1) <= 0;
    }
  }

  lemma ModUnique(x: int, d: int, q: int, r: int)
    requires d > 0 && x == d * q + r && 0 <= r < d
    ensures x % d == r && x / d == q
  {
    var q', r' := x / d, x % d;
    assert x == d * q' + r';
    assert d * (q - q') == d * q - d * q' == r' - r;
    MultipleSize(d, q - q');
  }

  // hash & (size - 1) picks the bucket hash % size when size is a power of two.
  lemma {:induction false} AndOnes(x: int, n: nat)
    ensures And(x, Ones(n)) == x % Pow2(n)
    decreases n
  {
    if n > 0 {
      AndOnes(x / 2, n - 1);
      ModHalves(x, n);
      assert Ones(n) / 2 == Ones(n - 1) && Ones(n) % 2 == 1;
    }
  }

  lemma {:induction false} ShrIsDiv(x: int, n: nat)
    ensures Shr(x, n) == x / Pow2(n)
    decreases n
  {
    if n > 0 {
      ShrIsDiv(x / 2, n - 1);
      var p := Pow2(n - 1);
      var q, r := (x / 2) / p, (x / 2) % p;
      assert x == (2 * p) * q + (2 * r + x % 2) by {
        assert x / 2 == p * q + r;
        assert 2 * (p * q) == (2 * p) * q;
      }
      ModUnique(x, 2 * p, q, 2 * r + x % 2);
    }
  }

  // A mask that lies above position n acts on the shifted number.
  lemma {:induction false} AndShifted(x: int, m: nat, n: nat)
    ensures Shl(m, n) >= 0 && And(x, Shl(m, n)) == Shl(And(Shr(x, n), m), n)
    decreases n
  {
    if n > 0 {
      AndShifted(x / 2, m, n - 1);
    }
  }

  // Numbers that share no bit position are or-ed by adding them.
  lemma {:induction false} OrDisjoint(x: nat, y: nat, n: nat)
    requires y < Pow2(n)
    ensures Shl(x, n) >= 0 && Or(Shl(x, n), y) == Shl(x, n) + y
    decreases n
  {
    if n == 0 {
      OrZero(x);
    } else {
      OrDisjoint(x, y / 2, n - 1);
    }
  }

  lemma {:induction false} OrZero(x: nat)
    ensures Or(x, 0) == x
  {
    if x > 0 { OrZero(x / 2); }
  }

  lemma {:induction false} ShrTwice(x: int, m: nat, n: nat)
    ensures Shr(Shr(x, m), n) == Shr(x, m + n)
    decreases m
  {
    if m > 0 {
      ShrTwice(x / 2, m - 1, n);
    }
  }

  lemma {:induction false} ShrShl(x: int, n: nat)
    ensures Shr(Shl(x, n), n) == x
    decreases n
  {
    if n > 0 {
      ShrShl(x, n - 1);
    }
  }

  lemma AndDouble(x: int, m: nat)
    ensures And(x, 2 * m) == 2 * And(x / 2, m)
  {}

  lemma {:induction false} ShrNat(x: nat, n: nat)
    ensures Shr(x, n) >= 0
    decreases n
  {
    if n > 0 {
      ShrNat(x / 2, n - 1);
    }
  }

  // A mask of the bits from n up to w clears the n low bits.
  lemma {:induction false} HighKept(x: nat, n: nat, w: nat)
    requires n <= w && x < Pow2(w)
    ensures Ones(w) >= Ones(n) && Shl(Shr(x, n), n) >= 0
    ensures And(x, Ones(w) - Ones(n)) == Shl(Shr(x, n), n)
    decreases n
  {
    if n == 0 {
      AndOnes(x, w);
      ModUnique(x, Pow2(w), 0, x);
    } else {
      HighKept(x / 2, n - 1, w - 1);
      assert Ones(w) - Ones(n) == 2 * (Ones(w - 1) - Ones(n - 1));
      AndDouble(x, Ones(w - 1) - Ones(n - 1));
    }
  }

  // Or-ing v into the n cleared bits replaces them and keeps what lies above.
  lemma LowReplaced(x: nat, v: nat, n: nat, w: nat)
    requires n <= w && x < Pow2(w) && v < Pow2(n)
    ensures Ones(w) >= Ones(n)
    ensures var r := Or(And(x, Ones(w) - Ones(n)), v);
            r < Pow2(w) && Shr(r, n) == Shr(x, n) && And(r, Ones(n)) == v
  {
    HighKept(x, n, w);
    ShrNat(x, n);
    var high := Shr(x, n);
    var r := Or(And(x, Ones(w) - Ones(n)), v);
    OrDisjoint(high, v, n);
    ShlIsTimes(high, n);
    assert r == Pow2(n) * high + v;
    ModUnique(r, Pow2(n), high, v);
    ShrIsDiv(r, n);
    AndOnes(r, n);
    Pow2Grows(n, w);
    OrBelow(And(x, Ones(w) - Ones(n)), v, w);
  }

  lemma {:induction false} Pow2Grows(m: nat, n: nat)
    requires m <= n
    ensures Pow2(m) <= Pow2(n)
    decreases n - m
  {
    if m < n { Pow2Grows(m + 1, n); }
  }
}
