/** Powers of two and the division facts the bit-level modules use. */
module Powers {

  function Pow2(n: nat): (r: nat)
    ensures r > 0
  {
    if n == 0 then 1 else 2 * Pow2(n - 1)
  }

  lemma {:induction false} Pow2Add(m: nat, n: nat)
    ensures Pow2(m + n) == Pow2(m) * Pow2(n)
  {
    if m > 0 {
      Pow2Add(m - 1, n);
      MulAssoc(2, Pow2(m - 1), Pow2(n));
    }
  }

  lemma {:induction false} MulAssoc(a: int, b: int, c: int)
    ensures (a * b) * c == a * (b * c)
  {
  }

  lemma {:induction false} MulAtLeast(x: int, d: nat)
    requires x >= 1 && d >= 0
    ensures x * d >= d
  {
  }

  lemma {:induction false} Distribute(x: int, y: int, d: int)
    ensures (x + y) * d == x * d + y * d && (x - y) * d == x * d - y * d
  {
  }

  /** A quotient and remainder are determined by their equation. */
  lemma {:induction false} DivModUnique(a: int, d: int, q: int, r: int)
    requires 0 <= r < d && a == q * d + r
    ensures a / d == q && a % d == r
  {
    var q', r' := a / d, a % d;
    assert a == q' * d + r';
    Distribute(q', q, d);
    if q' > q {
      MulAtLeast(q' - q, d);
    } else if q' < q {
      Distribute(q, q', d);
      MulAtLeast(q - q', d);
    }
  }

  lemma {:induction false} MulAtMost(x: int, y: int, d: int)
    requires x <= y && 0 <= d
    ensures x * d <= y * d
  {
  }

  lemma {:induction false} DivDiv(a: nat, c: nat, d: nat)
    requires c > 0 && d > 0
    ensures c * d > 0 && a / (c * d) == (a / c) / d
  {
    var q, r := a / c, a % c;
    var q', r' := q / d, q % d;
    MulAtLeast(d, c);
    Distribute(q' * d, r', c);
    MulAssoc(q', d, c);
    assert a == q' * (d * c) + (r' * c + r);
    MulAtMost(r', d - 1, c);
    Distribute(d, 1, c);
    DivModUnique(a, d * c, q', r' * c + r);
  }

  lemma {:induction false} Pow2AtMost(m: nat, n: nat)
    requires m <= n
    ensures Pow2(m) <= Pow2(n)
  {
    if m < n {
      Pow2AtMost(m, n - 1);
    }
  }

  lemma {:induction false} WordSize()
    ensures Pow2(32) == 0x1_0000_0000
  {
    assert Pow2(8) == 256;
    Pow2Add(8, 8);
    Pow2Add(16, 16);
  }

  /** `x & y`. */
  function BitAnd(x: nat, y: nat): (r: nat)
    ensures r <= x
  {
    if x == 0 then 0 else 2 * BitAnd(x / 2, y / 2) + (x % 2) * (y % 2)
  }

  lemma {:induction false} NothingMasked(v: nat)
    ensures BitAnd(v, 0) == 0
  {
    if v > 0 {
      NothingMasked(v / 2);
    }
  }
}
