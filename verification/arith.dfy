/** Integer facts used for matrix indexing: powers of two and the
    interplay of Euclidean division and remainder on naturals. */
module Arith {

  /** 2^n; the dimension of the state space of n qubits. */
  function Pow2(n: nat): (r: nat)
    ensures r >= 1
  {
    if n == 0 then 1 else 2 * Pow2(n - 1)
  }

  function Max(a: nat, b: nat): (r: nat)
    ensures r >= a && r >= b && (r == a || r == b)
  {
    if a < b then b else a
  }

  lemma {:induction false} Pow2Add(a: nat, b: nat)
    ensures Pow2(a + b) == Pow2(a) * Pow2(b)
  {
    if b > 0 {
      Pow2Add(a, b - 1);
      calc {
        Pow2(a + b);
        2 * Pow2(a + b - 1);
        2 * (Pow2(a) * Pow2(b - 1));
        { MulSwap(2, Pow2(a), Pow2(b - 1)); }
        Pow2(a) * (2 * Pow2(b - 1));
      }
    }
  }

  lemma MulSwap(x: int, y: int, z: int)
    ensures x * (y * z) == y * (x * z)
  {
  }

  lemma MulLe(a: int, b: int, c: int)
    requires a <= b && c >= 0
    ensures a * c <= b * c
  {
    assert b * c - a * c == (b - a) * c;
  }

  /** Division and remainder are the unique quotient/remainder pair. */
  lemma DivModUnique(x: int, d: int, q: int, r: int)
    requires d > 0 && 0 <= r < d && x == q * d + r
    ensures x / d == q && x % d == r
  {
    var q' := x / d;
    var r' := x % d;
    assert x == q' * d + r';
    assert (q - q') * d == r' - r;
    if q > q' {
      MulLe(1, q - q', d);
    } else if q < q' {
      MulLe(1, q' - q, d);
    }
  }

  /** Halving an index below 2h gives an index below h and a low bit. */
  lemma Halve(i: nat, h: nat)
    requires i < 2 * h
    ensures 0 <= i / 2 < h && 0 <= i % 2 < 2 && i == 2 * (i / 2) + i % 2
  {
  }

  lemma DivNonneg(i: nat, d: int)
    requires d > 0
    ensures i / d >= 0 && 0 <= i % d < d
  {
    var q := i / d;
    assert i == q * d + i % d;
    if q < 0 {
      MulLe(q, -1, d);
    }
  }

  lemma DivBound(i: nat, a: nat, b: nat)
    requires b > 0 && i < a * b
    ensures 0 <= i / b < a && 0 <= i % b < b
  {
    DivNonneg(i, b);
    var q := i / b;
    assert i == q * b + i % b;
    if q >= a {
      MulLe(a, q, b);
    }
  }

  lemma {:induction false} DivDiv(i: nat, a: nat, b: nat)
    requires a > 0 && b > 0
    ensures i / a / b == i / (a * b)
  {
    var ab := a * b;
    DivNonneg(i, ab);
    var q := i / ab;
    var r := i % ab;
    assert i == q * ab + r;
    DivBound(r, b, a);
    var s := r / a;
    assert r == s * a + r % a;
    assert q * ab == (q * b) * a;
    assert i == (q * b + s) * a + r % a;
    DivModUnique(i, a, q * b + s, r % a);
    assert i / a == q * b + s;
    DivModUnique(i / a, b, q, s);
  }

  /** The remainder modulo 2c splits into the low bit and the remainder of the
      rest modulo c. */
  lemma {:induction false} ModSplit(i: nat, c: nat)
    requires c > 0
    ensures i % (2 * c) == 2 * ((i / 2) % c) + i % 2
  {
    DivNonneg(i, 2);
    var h := i / 2;
    DivNonneg(h, c);
    var hq, hr := h / c, h % c;
    assert i == 2 * h + i % 2;
    assert h == hq * c + hr;
    assert 2 * (hq * c) == hq * (2 * c);
    assert i == hq * (2 * c) + (2 * hr + i % 2);
    DivModUnique(i, 2 * c, hq, 2 * hr + i % 2);
  }

  /** Halving an index and then splitting by c is splitting it by 2c. */
  lemma HalfSplit(i: nat, c: nat)
    requires c > 0
    ensures 0 <= i / (2 * c) && 0 <= i % (2 * c)
    ensures i / 2 / c == i / (2 * c)
    ensures (i / 2) % c == (i % (2 * c)) / 2
    ensures (i % (2 * c)) % 2 == i % 2
  {
    DivNonneg(i, 2 * c);
    DivNonneg(i, 2);
    DivNonneg(i / 2, c);
    DivDiv(i, 2, c);
    ModSplit(i, c);
    var hr := (i / 2) % c;
    var b := i % 2;
    DivModUnique(2 * hr + b, 2, hr, b);
  }
}
