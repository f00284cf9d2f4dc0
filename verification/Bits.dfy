// Bitwise operations on natural numbers, bit by bit.
module Bits {

  function Pow2(k: nat): (p: nat)
    ensures p >= 1
  {
    if k == 0 then 1 else 2 * Pow2(k - 1)
  }

  /** One more than the largest 64-bit number. */
  const W: nat := Pow2(64)

  function Bit(a: nat, i: nat): bool
    decreases i
  {
    if i == 0 then a % 2 == 1 else Bit(a / 2, i - 1)
  }

  function And(a: nat, b: nat): nat {
    if a == 0 || b == 0 then 0
    else (if a % 2 == 1 && b % 2 == 1 then 1 else 0) + 2 * And(a / 2, b / 2)
  }

  function Or(a: nat, b: nat): nat {
    if a == 0 && b == 0 then 0
    else (if a % 2 == 1 || b % 2 == 1 then 1 else 0) + 2 * Or(a / 2, b / 2)
  }

  /** The complement within `w` bits. */
  function Complement(a: nat, w: nat): nat
    requires a < Pow2(w)
  {
    Pow2(w) - 1 - a
  }

  lemma {:induction false} BitOfZero(i: nat)
    ensures !Bit(0, i)
  {
    if i > 0 {
      BitOfZero(i - 1);
    }
  }

  lemma {:induction false} BitAnd(a: nat, b: nat, i: nat)
    ensures Bit(And(a, b), i) == (Bit(a, i) && Bit(b, i))
    decreases i
  {
    if a == 0 || b == 0 {
      BitOfZero(i);
    } else if i > 0 {
      BitAnd(a / 2, b / 2, i - 1);
    }
  }

  lemma {:induction false} BitOr(a: nat, b: nat, i: nat)
    ensures Bit(Or(a, b), i) == (Bit(a, i) || Bit(b, i))
    decreases i
  {
    if a == 0 && b == 0 {
      BitOfZero(i);
    } else if i > 0 {
      BitOr(a / 2, b / 2, i - 1);
    }
  }

  lemma {:induction false} BitComplement(a: nat, w: nat, i: nat)
    requires a < Pow2(w)
    ensures Bit(Complement(a, w), i) == (i < w && !Bit(a, i))
    decreases i
  {
    if w == 0 {
      BitOfZero(i);
    } else {
      assert Complement(a, w) == 2 * Complement(a / 2, w - 1) + (1 - a % 2);
      if i > 0 {
        BitComplement(a / 2, w - 1, i - 1);
      }
    }
  }

  lemma {:induction false} BitPow2(k: nat, i: nat)
    ensures Bit(Pow2(k), i) == (i == k)
    decreases i
  {
    if k == 0 {
      if i > 0 {
        BitOfZero(i - 1);
      }
    } else if i > 0 {
      BitPow2(k - 1, i - 1);
    }
  }

  /** Numbers with the same bits are equal. */
  lemma {:induction false} SameBits(a: nat, b: nat)
    requires forall i: nat :: Bit(a, i) == Bit(b, i)
    ensures a == b
    decreases a + b
  {
    assert Bit(a, 0) == Bit(b, 0);
    if a != 0 || b != 0 {
      forall i: nat ensures Bit(a / 2, i) == Bit(b / 2, i) {
        assert Bit(a, i + 1) == Bit(b, i + 1);
      }
      SameBits(a / 2, b / 2);
    }
  }

  lemma {:induction false} AndBelow(a: nat, b: nat, w: nat)
    requires a < Pow2(w)
    ensures And(a, b) < Pow2(w)
    decreases w
  {
    if a != 0 && b != 0 && w > 0 {
      AndBelow(a / 2, b / 2, w - 1);
    }
  }

  lemma {:induction false} OrBelow(a: nat, b: nat, w: nat)
    requires a < Pow2(w) && b < Pow2(w)
    ensures Or(a, b) < Pow2(w)
    decreases w
  {
    if (a != 0 || b != 0) && w > 0 {
      OrBelow(a / 2, b / 2, w - 1);
    }
  }

  lemma Pow2Step(a: nat, k: nat)
    requires k > 0
    ensures a % Pow2(k) == 2 * ((a / 2) % Pow2(k - 1)) + a % 2
    ensures (a % Pow2(k)) / 2 == (a / 2) % Pow2(k - 1)
    ensures (a % Pow2(k)) % 2 == a % 2
  {
    var p, h := Pow2(k - 1), a / 2;
    var q, r := h / p, h % p;
    assert h == q * p + r;
    assert a == 2 * h + a % 2;
    assert a == q * (2 * p) + (2 * r + a % 2);
    Remainder(a, 2 * p, q, 2 * r + a % 2);
  }

  /** Quotient and remainder are unique. */
  lemma Remainder(a: int, d: nat, q: int, r: nat)
    requires d > 0 && r < d && a == q * d + r
    ensures a % d == r && a / d == q
  {
    var q', r' := a / d, a % d;
    assert a == q' * d + r' && r' < d;
    SameQuotient(d, q, r, q', r');
  }

  lemma SameQuotient(d: nat, q: int, r: nat, q': int, r': nat)
    requires r < d && r' < d && q * d + r == q' * d + r'
    ensures q == q' && r == r'
  {
    if q < q' {
      Scaled(d, q, q');
      assert false;
    } else if q' < q {
      Scaled(d, q', q);
      assert false;
    }
  }

  lemma Scaled(d: nat, q: int, q': int)
    requires q < q'
    ensures q' * d >= q * d + d
  {
    var k: nat := q' - q - 1;
    assert q' * d == (q + 1 + k) * d == q * d + d + k * d;
  }

  lemma Ordered(d: nat, q: int, q': int)
    requires q <= q'
    ensures q' * d >= q * d
  {
    var k: nat := q' - q;
    assert q' * d == (q + k) * d == q * d + k * d;
  }

  /** Masking with the complement of `2^k - 1` clears the low `k` bits. */
  lemma {:induction false} ClearLow(a: nat, k: nat, w: nat)
    requires k <= w && a < Pow2(w)
    ensures Pow2(k) <= Pow2(w)
    ensures And(a, Complement(Pow2(k) - 1, w)) == a - a % Pow2(k)
    decreases k
  {
    hide *;
    Pow2Monotone(k, w);
    if k == 0 {
      ClearNone(a, w);
    } else {
      Pow2Monotone(k - 1, w - 1);
      HighMask(k, w);
      HalfBelow(a, w);
      ClearLow(a / 2, k - 1, w - 1);
      ClearLowStep(a, k, w);
    }
  }

  lemma ClearNone(a: nat, w: nat)
    requires a < Pow2(w)
    ensures Pow2(0) <= Pow2(w)
    ensures And(a, Complement(Pow2(0) - 1, w)) == a - a % Pow2(0)
  {
    AndOnes(a, w);
    hide And;
    assert a % 1 == 0;
  }

  lemma HalfBelow(a: nat, w: nat)
    requires w > 0 && a < Pow2(w)
    ensures a / 2 < Pow2(w - 1)
  {
  }

  lemma ClearLowStep(a: nat, k: nat, w: nat)
    requires 0 < k <= w && Pow2(k) <= Pow2(w) && Pow2(k - 1) <= Pow2(w - 1)
    requires Complement(Pow2(k) - 1, w) % 2 == 0
    requires Complement(Pow2(k) - 1, w) / 2 == Complement(Pow2(k - 1) - 1, w - 1)
    requires And(a / 2, Complement(Pow2(k - 1) - 1, w - 1)) == a / 2 - (a / 2) % Pow2(k - 1)
    ensures And(a, Complement(Pow2(k) - 1, w)) == a - a % Pow2(k)
  {
    hide And, Complement;
    Pow2Step(a, k);
    hide Pow2;
    AndHalves(a, Complement(Pow2(k) - 1, w));
    assert a == 2 * (a / 2) + a % 2;
  }

  lemma HighMask(k: nat, w: nat)
    requires 0 < k <= w && Pow2(k) <= Pow2(w) && Pow2(k - 1) <= Pow2(w - 1)
    ensures Complement(Pow2(k) - 1, w) % 2 == 0
    ensures Complement(Pow2(k) - 1, w) / 2 == Complement(Pow2(k - 1) - 1, w - 1)
  {
  }

  lemma {:induction false} AndOnes(a: nat, w: nat)
    requires a < Pow2(w)
    ensures And(a, Pow2(w) - 1) == a
    decreases w
  {
    if w > 0 && a != 0 {
      AndOnes(a / 2, w - 1);
      AndHalves(a, Pow2(w) - 1);
    }
  }

  lemma {:induction false} Pow2Monotone(j: nat, k: nat)
    requires j <= k
    ensures Pow2(j) <= Pow2(k)
  {
    if j < k {
      Pow2Monotone(j, k - 1);
    }
  }

  lemma WordSize()
    ensures W >= 8
  {
    assert Pow2(3) == 8;
    Pow2Monotone(3, 64);
  }

  lemma {:induction false} Pow2Add(j: nat, k: nat)
    ensures Pow2(j + k) == Pow2(j) * Pow2(k)
  {
    if j > 0 {
      Pow2Add(j - 1, k);
      assert 2 * (Pow2(j - 1) * Pow2(k)) == Pow2(j) * Pow2(k);
    }
  }

  /** The low bits of a conjunction are the conjunction of the low bits. */
  lemma {:induction false} AndMod(a: nat, b: nat, n: nat)
    ensures And(a, b) % Pow2(n) == And(a % Pow2(n), b % Pow2(n))
    decreases n
  {
    if n > 0 {
      Pow2Step(a, n);
      Pow2Step(b, n);
      Pow2Step(And(a, b), n);
      AndMod(a / 2, b / 2, n - 1);
      AndHalves(a, b);
      hide And, Pow2;
      AndHalves(a % Pow2(n), b % Pow2(n));
      assert (a % Pow2(n)) / 2 == (a / 2) % Pow2(n - 1);
      assert (b % Pow2(n)) / 2 == (b / 2) % Pow2(n - 1);
    } else {
      assert a % 1 == 0;
    }
  }

  lemma AndHalves(a: nat, b: nat)
    ensures And(a, b) / 2 == And(a / 2, b / 2)
    ensures And(a, b) % 2 == if a % 2 == 1 && b % 2 == 1 then 1 else 0
    ensures And(a, b) == 2 * And(a / 2, b / 2) + (if a % 2 == 1 && b % 2 == 1 then 1 else 0)
  {
  }

  lemma {:induction false} OrMod(a: nat, b: nat, n: nat)
    ensures Or(a, b) % Pow2(n) == Or(a % Pow2(n), b % Pow2(n))
    decreases n
  {
    if n > 0 {
      Pow2Step(a, n);
      Pow2Step(b, n);
      Pow2Step(Or(a, b), n);
      OrMod(a / 2, b / 2, n - 1);
      OrHalves(a, b);
      hide Or, Pow2;
      OrHalves(a % Pow2(n), b % Pow2(n));
      assert (a % Pow2(n)) / 2 == (a / 2) % Pow2(n - 1);
      assert (b % Pow2(n)) / 2 == (b / 2) % Pow2(n - 1);
    } else {
      assert a % 1 == 0;
    }
  }

  lemma OrHalves(a: nat, b: nat)
    ensures Or(a, b) / 2 == Or(a / 2, b / 2)
    ensures Or(a, b) % 2 == if a % 2 == 1 || b % 2 == 1 then 1 else 0
    ensures Or(a, b) == 2 * Or(a / 2, b / 2) + (if a % 2 == 1 || b % 2 == 1 then 1 else 0)
  {
  }

  /** Bit `i` is the lowest bit after halving `i` times. */
  lemma {:induction false} BitIs(a: nat, i: nat)
    ensures Bit(a, i) <==> a / Pow2(i) % 2 == 1
    decreases i
  {
    if i > 0 {
      BitIs(a / 2, i - 1);
      HalfThenDivide(a, Pow2(i - 1));
    }
  }

  lemma HalfThenDivide(a: nat, p: nat)
    requires p > 0
    ensures a / 2 / p == a / (2 * p)
  {
    var h, b := a / 2, a % 2;
    var q, r := h / p, h % p;
    assert a == 2 * h + b && h == q * p + r;
    assert a == q * (2 * p) + (2 * r + b);
    Remainder(a, 2 * p, q, 2 * r + b);
  }

  /** Reducing modulo a power of two keeps the bits below it. */
  lemma {:induction false} BitMod(a: nat, n: nat, i: nat)
    requires i < n
    ensures Bit(a % Pow2(n), i) <==> Bit(a, i)
    decreases i
  {
    Pow2Step(a, n);
    if i > 0 {
      BitMod(a / 2, n - 1, i - 1);
      hide Pow2;
    }
  }
}
