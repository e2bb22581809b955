/** Embedding an operator's matrix into a larger wire order: the operator
    acts on the qubits at the given positions, and identity acts on every
    other qubit. Entry (r, c) of the result is zero unless the basis states r
    and c agree on all untouched qubits; otherwise it is the operator's
    entry at the sub-indices read off the touched qubits. */
module Embedding {
  import opened Arith
  import opened Bits
  import opened Matrices
  import opened Seqs

  /** The matrix m of a |pos|-qubit operator, in the shape the embedding needs. */
  ghost predicate Embeddable(m: Matrix, pos: seq<nat>, n: nat) {
    IsSquare(m) && |m| == Pow2(|pos|) && AllBelow(pos, n)
  }

  /** Two basis states coincide on every qubit outside pos. */
  predicate AgreeOutside(rb: seq<bool>, cb: seq<bool>, pos: seq<nat>)
    requires |rb| == |cb|
  {
    forall p :: 0 <= p < |rb| && p !in pos ==> rb[p] == cb[p]
  }

  function EmbedEntry(m: Matrix, pos: seq<nat>, n: nat, r: nat, c: nat): int
    requires Embeddable(m, pos, n)
  {
    var rb := ToBits(r, n);
    var cb := ToBits(c, n);
    if AgreeOutside(rb, cb, pos) then m[FromBits(Select(rb, pos))][FromBits(Select(cb, pos))]
    else 0
  }

  /** m acting on the qubits at positions pos of an n-qubit register. */
  function Embed(m: Matrix, pos: seq<nat>, n: nat): (r: Matrix)
    requires Embeddable(m, pos, n)
    ensures |r| == Pow2(n) && IsSquare(r)
  {
    var d := Pow2(n);
    seq(d, i requires 0 <= i < d => seq(d, j requires 0 <= j < d => EmbedEntry(m, pos, n, i, j)))
  }

  lemma AgreeOutsideLeft(hr: seq<bool>, lr: seq<bool>, hc: seq<bool>, lc: seq<bool>, pos: seq<nat>)
    requires |hr| == |hc| && |lr| == |lc|
    requires AllBelow(pos, |hr|)
    ensures AgreeOutside(hr + lr, hc + lc, pos) <==> AgreeOutside(hr, hc, pos) && lr == lc
  {
    if AgreeOutside(hr + lr, hc + lc, pos) {
      forall p | 0 <= p < |lr|
        ensures lr[p] == lc[p]
      {
        assert |hr| + p !in pos;
        assert (hr + lr)[|hr| + p] == (hc + lc)[|hr| + p];
      }
      forall p | 0 <= p < |hr| && p !in pos
        ensures hr[p] == hc[p]
      {
        assert (hr + lr)[p] == (hc + lc)[p];
      }
    }
  }

  lemma AgreeOutsideRight(hr: seq<bool>, lr: seq<bool>, hc: seq<bool>, lc: seq<bool>, pos: seq<nat>, sp: seq<nat>)
    requires |hr| == |hc| && |lr| == |lc|
    requires AllBelow(pos, |lr|) && IsShift(sp, pos, |hr|)
    ensures AgreeOutside(hr + lr, hc + lc, sp) <==> hr == hc && AgreeOutside(lr, lc, pos)
  {
    if AgreeOutside(hr + lr, hc + lc, sp) {
      forall p | 0 <= p < |hr|
        ensures hr[p] == hc[p]
      {
        assert p !in sp;
        assert (hr + lr)[p] == (hc + lc)[p];
      }
      forall p | 0 <= p < |lr| && p !in pos
        ensures lr[p] == lc[p]
      {
        assert |hr| + p !in sp by {
          forall k | 0 <= k < |sp|
            ensures sp[k] != |hr| + p
          {
            assert pos[k] != p;
          }
        }
        assert (hr + lr)[|hr| + p] == (hc + lc)[|hr| + p];
      }
    }
    if hr == hc && AgreeOutside(lr, lc, pos) {
      forall p | 0 <= p < |hr| + |lr| && p !in sp
        ensures (hr + lr)[p] == (hc + lc)[p]
      {
        if p >= |hr| {
          if p - |hr| in pos {
            var k :| 0 <= k < |pos| && pos[k] == p - |hr|;
            assert sp[k] == p;
          }
        }
      }
    }
  }

  /** An index of hi + lo bits is its quotient by 2^lo followed by its
      remainder. */
  lemma SplitIndex(r: nat, hi: nat, lo: nat, t: nat)
    requires r < Pow2(hi) * Pow2(lo) && t == hi + lo
    ensures 0 <= r / Pow2(lo) < Pow2(hi) && 0 <= r % Pow2(lo) < Pow2(lo)
    ensures ToBits(r, t) == ToBits(r / Pow2(lo), hi) + ToBits(r % Pow2(lo), lo)
  {
    DivBound(r, Pow2(hi), Pow2(lo));
    ToBitsSplit(r, hi, lo);
  }

  /** The bits of r and c after adding k qubits after the register: the
      touched qubits are read from the high-order parts, and the new qubits
      must agree, that is the low-order parts must be equal. */
  lemma BitsExtendRight(pos: seq<nat>, n: nat, k: nat, t: nat, r: nat, c: nat)
    requires AllBelow(pos, n) && t == n + k
    requires r < Pow2(n) * Pow2(k) && c < Pow2(n) * Pow2(k)
    ensures AllBelow(pos, t)
    ensures 0 <= r / Pow2(k) < Pow2(n) && 0 <= c / Pow2(k) < Pow2(n)
    ensures Select(ToBits(r, t), pos) == Select(ToBits(r / Pow2(k), n), pos)
    ensures Select(ToBits(c, t), pos) == Select(ToBits(c / Pow2(k), n), pos)
    ensures AgreeOutside(ToBits(r, t), ToBits(c, t), pos)
        <==> r % Pow2(k) == c % Pow2(k) && AgreeOutside(ToBits(r / Pow2(k), n), ToBits(c / Pow2(k), n), pos)
  {
    var p := Pow2(k);
    SplitIndex(r, n, k, t);
    SplitIndex(c, n, k, t);
    var hr, lr := ToBits(r / p, n), ToBits(r % p, k);
    var hc, lc := ToBits(c / p, n), ToBits(c % p, k);
    SelectLeft(hr, lr, pos);
    SelectLeft(hc, lc, pos);
    AgreeOutsideLeft(hr, lr, hc, lc, pos);
    ToBitsInjective(r % p, c % p, k);
  }

  /** Entry (r, c) after adding k qubits after the register, in terms of the
      entry of the smaller embedding at the high-order parts of r and c. */
  lemma EmbedEntryExtendRight(m: Matrix, pos: seq<nat>, n: nat, k: nat, t: nat, r: nat, c: nat)
    requires Embeddable(m, pos, n) && t == n + k
    requires r < Pow2(n) * Pow2(k) && c < Pow2(n) * Pow2(k)
    ensures Embeddable(m, pos, t)
    ensures 0 <= r / Pow2(k) < Pow2(n) && 0 <= c / Pow2(k) < Pow2(n)
    ensures EmbedEntry(m, pos, t, r, c)
         == if r % Pow2(k) == c % Pow2(k) then EmbedEntry(m, pos, n, r / Pow2(k), c / Pow2(k)) else 0
  {
    BitsExtendRight(pos, n, k, t, r, c);
  }

  lemma EmbedExtendRightAt(m: Matrix, pos: seq<nat>, n: nat, k: nat, t: nat, r: nat, c: nat)
    requires Embeddable(m, pos, n) && t == n + k
    requires r < Pow2(n) * Pow2(k) && c < Pow2(n) * Pow2(k)
    ensures Embeddable(m, pos, t)
    ensures EmbedEntry(m, pos, t, r, c) == KronEntry(Embed(m, pos, n), Identity(Pow2(k)), r, c)
  {
    var e := Embed(m, pos, n);
    var p := Pow2(k);
    EmbedEntryExtendRight(m, pos, n, k, t, r, c);
    KronPadEntry(e, p, r, c);
    assert e[r / p][c / p] == EmbedEntry(m, pos, n, r / p, c / p);
  }

  /** Adding k untouched qubits after the register pads the embedding with
      I_(2^k) on the right. */
  lemma EmbedExtendRight(m: Matrix, pos: seq<nat>, n: nat, k: nat, t: nat)
    requires Embeddable(m, pos, n) && t == n + k
    ensures Embeddable(m, pos, t)
    ensures Embed(m, pos, t) == Kron(Embed(m, pos, n), Identity(Pow2(k)))
  {
    Pow2Add(n, k);
    var lhs := Embed(m, pos, t);
    var rhs := Kron(Embed(m, pos, n), Identity(Pow2(k)));
    forall r, c | 0 <= r < |lhs| && 0 <= c < |lhs|
      ensures lhs[r][c] == rhs[r][c]
    {
      EmbedExtendRightAt(m, pos, n, k, t, r, c);
    }
    MatrixExt(lhs, rhs);
  }

  /** The bits of r and c after adding k qubits before the register: the
      touched qubits are read from the low-order parts, and the new qubits
      must agree, that is the high-order parts must be equal. */
  lemma BitsExtendLeft(pos: seq<nat>, sp: seq<nat>, n: nat, k: nat, t: nat, r: nat, c: nat)
    requires AllBelow(pos, n) && IsShift(sp, pos, k) && t == k + n
    requires r < Pow2(k) * Pow2(n) && c < Pow2(k) * Pow2(n)
    ensures AllBelow(sp, t)
    ensures 0 <= r % Pow2(n) < Pow2(n) && 0 <= c % Pow2(n) < Pow2(n)
    ensures Select(ToBits(r, t), sp) == Select(ToBits(r % Pow2(n), n), pos)
    ensures Select(ToBits(c, t), sp) == Select(ToBits(c % Pow2(n), n), pos)
    ensures AgreeOutside(ToBits(r, t), ToBits(c, t), sp)
        <==> r / Pow2(n) == c / Pow2(n) && AgreeOutside(ToBits(r % Pow2(n), n), ToBits(c % Pow2(n), n), pos)
  {
    var p := Pow2(n);
    SplitIndex(r, k, n, t);
    SplitIndex(c, k, n, t);
    var hr, lr := ToBits(r / p, k), ToBits(r % p, n);
    var hc, lc := ToBits(c / p, k), ToBits(c % p, n);
    SelectRight(hr, lr, pos, sp);
    SelectRight(hc, lc, pos, sp);
    AgreeOutsideRight(hr, lr, hc, lc, pos, sp);
    ToBitsInjective(r / p, c / p, k);
  }

  /** Entry (r, c) after adding k qubits before the register, in terms of
      the entry of the smaller embedding at the low-order parts of r and c. */
  lemma EmbedEntryExtendLeft(m: Matrix, pos: seq<nat>, sp: seq<nat>, n: nat, k: nat, t: nat, r: nat, c: nat)
    requires Embeddable(m, pos, n) && IsShift(sp, pos, k) && t == k + n
    requires r < Pow2(k) * Pow2(n) && c < Pow2(k) * Pow2(n)
    ensures Embeddable(m, sp, t)
    ensures 0 <= r % Pow2(n) < Pow2(n) && 0 <= c % Pow2(n) < Pow2(n)
    ensures EmbedEntry(m, sp, t, r, c)
         == if r / Pow2(n) == c / Pow2(n) then EmbedEntry(m, pos, n, r % Pow2(n), c % Pow2(n)) else 0
  {
    BitsExtendLeft(pos, sp, n, k, t, r, c);
  }

  lemma EmbedExtendLeftAt(m: Matrix, pos: seq<nat>, sp: seq<nat>, n: nat, k: nat, t: nat, r: nat, c: nat)
    requires Embeddable(m, pos, n) && IsShift(sp, pos, k) && t == k + n
    requires r < Pow2(k) * Pow2(n) && c < Pow2(k) * Pow2(n)
    ensures Embeddable(m, sp, t)
    ensures EmbedEntry(m, sp, t, r, c) == KronEntry(Identity(Pow2(k)), Embed(m, pos, n), r, c)
  {
    var e := Embed(m, pos, n);
    var p := Pow2(n);
    EmbedEntryExtendLeft(m, pos, sp, n, k, t, r, c);
    KronLeftPadEntry(Pow2(k), e, r, c);
    assert e[r % p][c % p] == EmbedEntry(m, pos, n, r % p, c % p);
  }

  /** Adding k untouched qubits before the register pads the embedding with
      I_(2^k) on the left. */
  lemma EmbedExtendLeft(m: Matrix, pos: seq<nat>, sp: seq<nat>, n: nat, k: nat, t: nat)
    requires Embeddable(m, pos, n) && IsShift(sp, pos, k) && t == k + n
    ensures Embeddable(m, sp, t)
    ensures Embed(m, sp, t) == Kron(Identity(Pow2(k)), Embed(m, pos, n))
  {
    Pow2Add(k, n);
    var lhs := Embed(m, sp, t);
    var rhs := Kron(Identity(Pow2(k)), Embed(m, pos, n));
    forall r, c | 0 <= r < |lhs| && 0 <= c < |lhs|
      ensures lhs[r][c] == rhs[r][c]
    {
      EmbedExtendLeftAt(m, pos, sp, n, k, t, r, c);
    }
    MatrixExt(lhs, rhs);
  }

  lemma EmbedFullAt(m: Matrix, pos: seq<nat>, n: nat, r: nat, c: nat)
    requires IsSquare(m) && |m| == Pow2(n) && IsRange(pos, n)
    requires r < |m| && c < |m|
    ensures Embeddable(m, pos, n)
    ensures EmbedEntry(m, pos, n, r, c) == m[r][c]
  {
    var rb, cb := ToBits(r, n), ToBits(c, n);
    SelectAll(rb, pos);
    SelectAll(cb, pos);
    FromToBits(r, n);
    FromToBits(c, n);
    assert AgreeOutside(rb, cb, pos) by {
      forall p | 0 <= p < n
        ensures p in pos
      {
        assert pos[p] == p;
      }
    }
  }

  /** An operator acting on every qubit, in order, embeds as itself. */
  lemma EmbedFull(m: Matrix, pos: seq<nat>, n: nat)
    requires IsSquare(m) && |m| == Pow2(n) && IsRange(pos, n)
    ensures Embeddable(m, pos, n)
    ensures Embed(m, pos, n) == m
  {
    var e := Embed(m, pos, n);
    forall r, c | 0 <= r < |m| && 0 <= c < |m|
      ensures e[r][c] == m[r][c]
    {
      EmbedFullAt(m, pos, n, r, c);
    }
    MatrixExt(e, m);
  }

  /** An operator on a contiguous block of n qubits, preceded by a qubits and
      followed by c qubits, embeds as I_(2^a) (x) m (x) I_(2^c). */
  lemma EmbedBlock(m: Matrix, pos: seq<nat>, n: nat, a: nat, c: nat, t: nat)
    requires IsSquare(m) && |m| == Pow2(n)
    requires IsShift(pos, Range(n), a) && t == a + n + c
    ensures Embeddable(m, pos, t)
    ensures Embed(m, pos, t) == Kron(Kron(Identity(Pow2(a)), m), Identity(Pow2(c)))
  {
    var r := Range(n);
    EmbedFull(m, r, n);
    EmbedExtendLeft(m, r, pos, n, a, a + n);
    EmbedExtendRight(m, pos, a + n, c, t);
  }
}
