/** Basis-state indices as bit strings. Bit 0 of an n-bit string is the most
    significant one, so the first wire of a wire order owns the leading bit,
    which is the convention of the tensor-product (Kronecker) layout. */
module Bits {
  import opened Arith

  /** The n low-order bits of i, most significant first (indices are
      naturals; the parameter is an int so that quotients need no sign proof). */
  function ToBits(i: int, n: nat): (bs: seq<bool>)
    ensures |bs| == n
    decreases n
  {
    if n == 0 then [] else ToBits(i / 2, n - 1) + [i % 2 == 1]
  }

  /** The number a big-endian bit string denotes. */
  function FromBits(bs: seq<bool>): (r: nat)
    ensures r < Pow2(|bs|)
  {
    if |bs| == 0 then 0
    else 2 * FromBits(bs[..|bs| - 1]) + (if bs[|bs| - 1] then 1 else 0)
  }

  lemma {:induction false} FromToBits(i: nat, n: nat)
    requires i < Pow2(n)
    ensures FromBits(ToBits(i, n)) == i
  {
    if n > 0 {
      var q := i / 2;
      Halve(i, Pow2(n - 1));
      FromToBits(q, n - 1);
      FromBitsSnoc(ToBits(q, n - 1), i % 2 == 1);
    }
  }

  lemma FromBitsSnoc(bs: seq<bool>, b: bool)
    ensures FromBits(bs + [b]) == 2 * FromBits(bs) + (if b then 1 else 0)
  {
    assert (bs + [b])[..|bs|] == bs;
  }

  lemma {:induction false} ToFromBits(bs: seq<bool>)
    ensures ToBits(FromBits(bs), |bs|) == bs
  {
    if |bs| > 0 {
      var init := bs[..|bs| - 1];
      var x := FromBits(bs);
      DivModUnique(x, 2, FromBits(init), if bs[|bs| - 1] then 1 else 0);
      ToFromBits(init);
      assert bs == init + [bs[|bs| - 1]];
    }
  }

  /** Two indices below 2^n with the same n-bit string are equal. */
  lemma ToBitsInjective(i: nat, j: nat, n: nat)
    requires i < Pow2(n) && j < Pow2(n)
    ensures ToBits(i, n) == ToBits(j, n) <==> i == j
  {
    if ToBits(i, n) == ToBits(j, n) {
      FromToBits(i, n);
      FromToBits(j, n);
    }
  }

  /** The bits of an (n+m)-bit index are the n bits of its quotient by 2^m
      followed by the m bits of its remainder. */
  lemma {:induction false} ToBitsSplit(i: nat, n: nat, m: nat)
    ensures ToBits(i, n + m) == ToBits(i / Pow2(m), n) + ToBits(i % Pow2(m), m)
  {
    if m > 0 {
      var c := Pow2(m - 1);
      var p := Pow2(m);
      assert p == 2 * c;
      HalfSplit(i, c);
      var q, rm := i / p, i % p;
      assert i / 2 / c == q && (i / 2) % c == rm / 2 && rm % 2 == i % 2;
      ToBitsSplit(i / 2, n, m - 1);
      ToBitsStep(rm, m);
      ToBitsStep(i, n + m);
      var b := [i % 2 == 1];
      calc {
        ToBits(i, n + m);
        ToBits(i / 2, n + m - 1) + b;
        (ToBits(q, n) + ToBits(rm / 2, m - 1)) + b;
        ToBits(q, n) + (ToBits(rm / 2, m - 1) + b);
        ToBits(q, n) + ToBits(rm, m);
      }
    }
  }

  lemma ToBitsStep(x: int, m: nat)
    requires m > 0
    ensures ToBits(x, m) == ToBits(x / 2, m - 1) + [x % 2 == 1]
  {
  }

  /** The bits at the given positions, in the order the positions are listed. */
  function Select(bs: seq<bool>, pos: seq<nat>): (r: seq<bool>)
    requires forall k :: 0 <= k < |pos| ==> pos[k] < |bs|
    ensures |r| == |pos|
    ensures forall k :: 0 <= k < |pos| ==> r[k] == bs[pos[k]]
  {
    seq(|pos|, k requires 0 <= k < |pos| => bs[pos[k]])
  }

  /** sp lists the positions of pos moved k places to the right. */
  ghost predicate IsShift(sp: seq<nat>, pos: seq<nat>, k: nat) {
    |sp| == |pos| && forall i :: 0 <= i < |pos| ==> sp[i] == pos[i] + k
  }

  /** pos lists the positions 0, 1, ..., n-1. */
  ghost predicate IsRange(pos: seq<nat>, n: nat) {
    |pos| == n && forall i :: 0 <= i < n ==> pos[i] == i
  }

  function Range(n: nat): (r: seq<nat>)
    ensures IsRange(r, n)
  {
    seq(n, k requires 0 <= k < n => k)
  }

  /** Selecting from a concatenation at positions inside the left part. */
  lemma SelectLeft(hi: seq<bool>, lo: seq<bool>, pos: seq<nat>)
    requires forall k :: 0 <= k < |pos| ==> pos[k] < |hi|
    ensures Select(hi + lo, pos) == Select(hi, pos)
  {
  }

  /** Selecting from a concatenation at positions inside the right part. */
  lemma SelectRight(hi: seq<bool>, lo: seq<bool>, pos: seq<nat>, sp: seq<nat>)
    requires forall k :: 0 <= k < |pos| ==> pos[k] < |lo|
    requires IsShift(sp, pos, |hi|)
    ensures forall k :: 0 <= k < |sp| ==> sp[k] < |hi + lo|
    ensures Select(hi + lo, sp) == Select(lo, pos)
  {
  }

  lemma SelectAll(bs: seq<bool>, pos: seq<nat>)
    requires IsRange(pos, |bs|)
    ensures Select(bs, pos) == bs
  {
  }
}
