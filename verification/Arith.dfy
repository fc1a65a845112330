/** Powers of two and the division facts shared by the bit-level models. */
module Arith {

  function Pow2(n: nat): (p: nat)
    ensures p > 0
  {
    if n == 0 then 1 else 2 * Pow2(n - 1)
  }

  lemma Pow2Succ(n: nat)
    ensures Pow2(n + 1) == 2 * Pow2(n)
  {
  }

  lemma Halves(k: nat)
    ensures (2 * k) / 2 == k && (2 * k) % 2 == 0
    ensures (2 * k + 1) / 2 == k && (2 * k + 1) % 2 == 1
  {
  }

  lemma {:induction false} Pow2Add(a: nat, b: nat)
    ensures Pow2(a + b) == Pow2(a) * Pow2(b)
  {
    if a == 0 {
    } else {
      Pow2Add(a - 1, b);
    }
  }

  lemma {:induction false} Pow2Mono(a: nat, b: nat)
    requires a <= b
    ensures Pow2(a) <= Pow2(b)
  {
    if a < b {
      Pow2Mono(a, b - 1);
    }
  }

  /** The quotient is the only integer whose multiple of `d` lies at most `d - 1` below `x`. */
  lemma DivUnique(x: int, d: int, q: int)
    requires d > 0 && q * d <= x < (q + 1) * d
    ensures x / d == q
  {
    DivBounds(x, d);
    if x / d < q {
      MulMono(x / d + 1, q, d);
    } else if x / d > q {
      MulMono(q + 1, x / d, d);
    }
  }

  lemma SmallMod(x: nat, n: nat)
    requires x < n
    ensures x % n == x
  {
  }

  lemma DivNonNegative(x: nat, d: nat)
    requires d > 0
    ensures x / d >= 0
  {
    DivMono(0, x, d);
  }

  lemma DivBounds(x: int, d: int)
    requires d > 0
    ensures (x / d) * d <= x < (x / d + 1) * d
  {
    assert x == d * (x / d) + x % d;
  }

  lemma DivDiv(x: nat, a: nat, b: nat)
    requires a > 0 && b > 0
    ensures a * b > 0 && (x / a) / b == x / (a * b)
  {
    var y := x / a;
    var q := y / b;
    DivBounds(x, a);
    DivBounds(y, b);
    assert q * b <= y <= q * b + b - 1;
    assert (q * b) * a <= y * a by { MulMono(q * b, y, a); }
    assert (y + 1) * a <= (q * b + b) * a by { MulMono(y + 1, q * b + b, a); }
    assert (q * b) * a == q * (a * b);
    assert (q * b + b) * a == (q + 1) * (a * b);
    DivUnique(x, a * b, q);
  }

  lemma MulMono(x: int, y: int, k: nat)
    requires x <= y
    ensures x * k <= y * k
  {
  }

  lemma DivMono(x: int, y: int, d: int)
    requires d > 0 && x <= y
    ensures x / d <= y / d
  {
    DivBounds(x, d);
    DivBounds(y, d);
    if x / d > y / d {
      MulMono(y / d + 1, x / d, d);
    }
  }

  /** Dropping one more low bit halves the quotient. */
  lemma HalveQuotient(x: nat, e: nat)
    ensures (x / Pow2(e)) / 2 == x / Pow2(e + 1)
  {
    DivDiv(x, Pow2(e), 2);
    assert Pow2(e) * 2 == Pow2(e + 1);
  }

  /** Dropping `d` more low bits divides the quotient by `Pow2(d)`. */
  lemma DropBits(x: nat, e: nat, d: nat)
    ensures (x / Pow2(e)) / Pow2(d) == x / Pow2(e + d)
  {
    DivDiv(x, Pow2(e), Pow2(d));
    Pow2Add(e, d);
  }
}
