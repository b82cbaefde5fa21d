/** The few facts of multiplication, division, powers of two and finite maps that the other modules need. */
module Arith {

  lemma MulLe(x: int, y: int, d: int)
    requires x <= y && d >= 0
    ensures x * d <= y * d
  {
    assert (y - x) * d >= 0;
  }

  // Division is the only quotient that leaves a remainder below the divisor.
  lemma DivUnique(a: int, d: int, q: int)
    requires d > 0 && q * d <= a < q * d + d
    ensures a / d == q
  {
    var k := a / d;
    if k < q { MulLe(k + 1, q, d); }
    if k > q { MulLe(q + 1, k, d); }
  }

  lemma DivLe(a: int, b: int, d: int)
    requires d > 0 && a <= b
    ensures a / d <= b / d
  {
    if a / d > b / d { MulLe(b / d + 1, a / d, d); }
  }

  // ----- powers of two and bit masks

  function Pow2(k: nat): (p: nat)
    ensures p >= 1
  {
    if k == 0 then 1 else 2 * Pow2(k - 1)
  }

  lemma {:induction false} Pow2Add(j: nat, k: nat)
    ensures Pow2(j + k) == Pow2(j) * Pow2(k)
  {
    if j > 0 {
      Pow2Add(j - 1, k);
      assert Pow2(j) * Pow2(k) == 2 * (Pow2(j - 1) * Pow2(k));
    }
  }

  lemma Pow2Of64()
    ensures Pow2(32) == 0x1_0000_0000 && Pow2(64) == 0x1_0000_0000_0000_0000
  {
    hide Pow2;
    Pow2Of8();
    Pow2Add(8, 8);
    Pow2Add(16, 16);
    Pow2Add(32, 32);
  }

  lemma Doubled(k: nat)
    requires k > 0
    ensures Pow2(k) == 2 * Pow2(k - 1)
  {
  }

  lemma Pow2Of8()
    ensures Pow2(8) == 256
  {
    assert Pow2(4) == 16;
  }

  lemma {:induction false} Pow2Less(j: nat, k: nat)
    requires j < k
    ensures Pow2(j) < Pow2(k)
  {
    if j < k - 1 {
      Pow2Less(j, k - 1);
    }
  }

  // Bitwise and, one binary digit at a time.
  function BitAnd(x: nat, y: nat): (r: nat)
    decreases x
  {
    if x == 0 then 0 else 2 * BitAnd(x / 2, y / 2) + (x % 2) * (y % 2)
  }

  // Masking with a power of two less one is the remainder.
  lemma {:induction false} MaskIsMod(x: nat, k: nat)
    ensures BitAnd(x, Pow2(k) - 1) == x % Pow2(k)
    decreases k, 1
  {
    if k == 0 || x == 0 {
      AndZero(x);
      ModUnique(0, Pow2(k), 0, 0);
    } else {
      MaskStep(x, k);
    }
  }

  lemma {:induction false} MaskStep(x: nat, k: nat)
    requires k > 0 && x > 0
    ensures BitAnd(x, Pow2(k) - 1) == x % Pow2(k)
    decreases k, 0
  {
    hide BitAnd, Pow2;
    var p := Pow2(k - 1);
    Doubled(k);
    MaskIsMod(x / 2, k - 1);
    ModSplit(x, p, 2);
    AndStep(x, Pow2(k) - 1, p);
  }

  lemma AndStep(x: nat, m: nat, p: nat)
    requires x > 0 && p >= 1 && m == 2 * p - 1
    ensures BitAnd(x, m) == 2 * BitAnd(x / 2, p - 1) + x % 2
  {
    assert m / 2 == p - 1 && m % 2 == 1;
  }

  lemma {:induction false} AndZero(x: nat)
    ensures BitAnd(x, 0) == 0
  {
    if x > 0 { AndZero(x / 2); }
  }

  // The last digit, to base d, and the rest of a remainder.
  lemma ModSplit(x: nat, p: nat, d: nat)
    requires p >= 1 && d >= 1
    ensures d * p >= 1 && x % (d * p) == d * ((x / d) % p) + x % d
  {
    var y := x / d;
    var q, r := y / p, y % p;
    assert x == d * y + x % d && y == p * q + r;
    assert d * (p * q + r) == (d * p) * q + d * r;
    MulLe(1, p, d);
    MulLe(r + 1, p, d);
    ModUnique(x, d * p, q, d * r + x % d);
  }

  lemma ModUnique(a: int, d: int, q: int, r: int)
    requires d > 0 && 0 <= r < d && a == d * q + r
    ensures a / d == q && a % d == r
  {
    DivUnique(a, d, q);
    assert a == d * (a / d) + a % d;
  }

  // A remainder by a multiple keeps the remainder by a divisor.
  lemma ModOfMod(x: nat, d: nat, m: nat)
    requires d >= 1 && m >= 1
    ensures d * m >= 1 && (x % (d * m)) % d == x % d
  {
    var n := d * m;
    assert n >= 1 by { MulLe(1, m, d); }
    var q, r := x / n, x % n;
    assert x == n * q + r && r == d * (r / d) + r % d;
    assert n * q == d * (m * q);
    assert x == d * (m * q + r / d) + r % d;
    ModUnique(x, d, m * q + r / d, r % d);
  }

  // ----- finite maps

  lemma OneLess<T>(m: map<nat, T>, k: nat)
    requires k in m
    ensures |m - {k}| == |m| - 1
  {
    assert (m - {k}).Keys == m.Keys - {k};
  }

  // A set of numbers below n, and the same with n if it qualifies.
  lemma OneMoreBelow(a: set<nat>, b: set<nat>, n: nat, qualifies: bool)
    requires forall k :: k in a ==> k < n
    requires forall k :: k in b <==> k in a || (k == n && qualifies)
    ensures |b| == |a| + if qualifies then 1 else 0
  {
    assert b == a + if qualifies then {n} else {};
  }
}
