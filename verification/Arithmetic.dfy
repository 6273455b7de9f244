/** Powers of two, bit lengths and division. */
module Arithmetic {
  ghost function BitLength(v: nat): nat {
    if v == 0 then 0 else 1 + BitLength(v / 2)
  }

  lemma {:induction false} BitLengthShift(v: nat, k: nat)
    requires v >= Pow2(k)
    ensures BitLength(v) == k + BitLength(v / Pow2(k))
    decreases k
  {
    if k > 0 {
      BitLengthShift(v / 2, k - 1);
      DivDiv(v, Pow2(k - 1));
    } else {
      assert v / 1 == v;
    }
  }

  lemma DivDiv(v: nat, p: nat)
    requires p > 0
    ensures v / 2 / p == v / (2 * p)
  {
    var q, r := v / 2 / p, v / 2 % p;
    assert v / 2 == q * p + r;
    assert v == q * (2 * p) + (2 * r + v % 2);
    Quotient(v, 2 * p, q, 2 * r + v % 2);
  }

  lemma Quotient(v: nat, d: nat, q: nat, r: nat)
    requires v == q * d + r && r < d
    ensures v / d == q && v % d == r
  {
    var q', r' := v / d, v % d;
    assert v == q' * d + r';
    assert (q - q') * d == r' - r;
    MulAtLeast(q - q', d);
    MulAtLeast(q' - q, d);
  }

  lemma {:induction false} Pow2Add(a: nat, b: nat)
    ensures Pow2(a + b) == Pow2(a) * Pow2(b)
  {
    if a > 0 {
      Pow2Add(a - 1, b);
    }
  }

  lemma MulAtLeast(k: int, d: nat)
    ensures k >= 1 ==> k * d >= d
  {
    if k > 1 {
      MulAtLeast(k - 1, d);
    }
  }

  lemma Pow2Digit()
    ensures Pow2(16) == 0x10000
  {
    assert Pow2(4) == 16;
    assert Pow2(8) == 256;
    assert Pow2(12) == 4096;
  }

  ghost function Pow2(k: nat): (p: nat)
    ensures p > 0
  {
    if k == 0 then 1 else 2 * Pow2(k - 1)
  }

  lemma BitLengthDigit(v: nat)
    requires v >= 0x10000
    ensures BitLength(v) == 16 + BitLength(v / 0x10000)
  {
    Pow2Digit();
    BitLengthShift(v, 16);
  }

  lemma BitLengthHalf(d: nat)
    ensures BitLength(d) == if d == 0 then 0 else 1 + BitLength(d / 2)
  {}

  /** What the shift-subtract loop computes when it starts with the divisor shifted by s: the
      quotient, as far as s + 1 bits can hold it. */
  ghost function Saturated(x: nat, y: nat, s: nat): nat {
    if y > 0 && x / y < Pow2(s + 1) then x / y else Pow2(s + 1) - 1
  }

  /** The loop's invariant, with i + 1 rounds to go: either the remainder is in range for the next
      round, or every bit so far has been a one. */
  ghost predicate Division(x: nat, y: nat, s: nat, i: int, q: nat, r: nat) {
    && -1 <= i <= s && q < Pow2(s - i)
    && x == q * (y * Pow2(i + 1)) + r
    && (r < y * Pow2(i + 1) || q == Pow2(s - i) - 1)
  }

  lemma DivisionStart(x: nat, y: nat, s: nat)
    ensures Division(x, y, s, s, 0, x)
  {}

  lemma TwiceTimes(q: nat, t: nat)
    ensures (2 * q) * t == q * (2 * t) && (2 * q + 1) * t == q * (2 * t) + t
  {}

  lemma ShiftHalves(y: nat, i: nat)
    ensures y * Pow2(i + 1) == 2 * (y * Pow2(i)) && (y * Pow2(i + 1)) / 2 == y * Pow2(i)
  {}

  lemma DivisionRound(x: nat, y: nat, s: nat, i: nat, q: nat, r: nat)
    requires Division(x, y, s, i, q, r)
    ensures var t := y * Pow2(i);
      if r >= t then Division(x, y, s, i - 1, 2 * q + 1, r - t) else Division(x, y, s, i - 1, 2 * q, r)
    ensures i > 0 ==> y * Pow2(i) / 2 == y * Pow2(i - 1)
  {
    var t := y * Pow2(i);
    ShiftHalves(y, i);
    TwiceTimes(q, t);
    assert Pow2(s - i + 1) == 2 * Pow2(s - i);
    if i > 0 {
      ShiftHalves(y, i - 1);
    }
    var k := i - 1;
    assert k + 1 == i && s - k == s - i + 1;
    hide Pow2;
    assert x == q * (2 * t) + r;
  }

  lemma DivisionEnd(x: nat, y: nat, s: nat, q: nat, r: nat)
    requires Division(x, y, s, -1, q, r)
    ensures q == Saturated(x, y, s)
  {
    assert x == q * y + r;
    if r < y {
      Quotient(x, y, q, r);
    } else if y > 0 {
      Quotient(r, y, r / y, r % y);
      assert x == (q + r / y) * y + r % y;
      Quotient(x, y, q + r / y, r % y);
      assert r / y >= 1;
    }
  }

  lemma {:induction false} BitBounds(v: nat)
    requires v > 0
    ensures BitLength(v) > 0 && Pow2(BitLength(v) - 1) <= v < Pow2(BitLength(v))
    decreases v
  {
    if v > 1 {
      BitBounds(v / 2);
    }
  }

  lemma {:induction false} Pow2Monotone(a: nat, b: nat)
    requires a <= b
    ensures Pow2(a) <= Pow2(b)
    decreases b - a
  {
    if a < b {
      Pow2Monotone(a + 1, b);
    }
  }

  lemma {:induction false} BitLengthPow2(k: nat)
    ensures BitLength(Pow2(k)) == k + 1
  {
    if k > 0 {
      BitLengthPow2(k - 1);
    }
  }

  /** The bit length of a quotient. */
  lemma QuotientBounds(x: nat, y: nat)
    requires y > 0
    ensures BitLength(x) < BitLength(y) ==> x / y == 0
    ensures BitLength(x) >= BitLength(y) ==> x / y < Pow2(BitLength(x) - BitLength(y) + 1)
    ensures BitLength(x) > BitLength(y) ==> x / y >= Pow2(BitLength(x) - BitLength(y) - 1)
  {
    var lx, ly := BitLength(x), BitLength(y);
    BitBounds(y);
    if x > 0 {
      BitBounds(x);
    }
    if lx < ly {
      Pow2Monotone(lx, ly - 1);
      Quotient(x, y, 0, x);
    } else {
      var p := Pow2(lx - ly + 1);
      Pow2Add(lx - ly + 1, ly - 1);
      MulMonotone(p, Pow2(ly - 1), y);
      QuotientBelow(x, y, p);
    }
    if lx > ly {
      var p := Pow2(lx - ly - 1);
      Pow2Add(lx - ly - 1, ly);
      MulMonotone(p, y, Pow2(ly));
      QuotientAtLeast(x, y, p);
    }
  }

  lemma MulMonotone(p: nat, a: nat, b: nat)
    requires a <= b
    ensures p * a <= p * b
  {}

  lemma QuotientBelow(x: nat, y: nat, p: nat)
    requires y > 0 && x < p * y
    ensures x / y < p
  {
    if x / y >= p {
      MulMonotone(y, p, x / y);
    }
  }

  lemma QuotientAtLeast(x: nat, y: nat, p: nat)
    requires y > 0 && x >= p * y
    ensures x / y >= p
  {
    assert x == y * (x / y) + x % y;
    if x / y < p {
      MulMonotone(y, x / y + 1, p);
    }
  }
}
