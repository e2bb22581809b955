/** Square integer matrices with the three operations the Sum operator is
    built from: identity, element-wise addition and the Kronecker product. */
module Matrices {
  import opened Arith

  type Matrix = seq<seq<int>>

  ghost predicate IsSquare(m: Matrix) {
    forall i :: 0 <= i < |m| ==> |m[i]| == |m|
  }

  /** Number of entries, as numpy's `size` reports it for a square matrix. */
  function Size(m: Matrix): nat {
    |m| * |m|
  }

  function Identity(n: nat): (r: Matrix)
    ensures |r| == n && IsSquare(r)
  {
    seq(n, i requires 0 <= i < n => seq(n, j requires 0 <= j < n => if i == j then 1 else 0))
  }

  function Zero(n: nat): (r: Matrix)
    ensures |r| == n && IsSquare(r)
  {
    seq(n, i requires 0 <= i < n => seq(n, j requires 0 <= j < n => 0))
  }

  function Add(a: Matrix, b: Matrix): (r: Matrix)
    requires IsSquare(a) && IsSquare(b) && |a| == |b|
    ensures |r| == |a| && IsSquare(r)
  {
    seq(|a|, i requires 0 <= i < |a| => seq(|a|, j requires 0 <= j < |a| => a[i][j] + b[i][j]))
  }

  function KronEntry(a: Matrix, b: Matrix, i: nat, j: nat): int
    requires IsSquare(a) && IsSquare(b)
    requires i < |a| * |b| && j < |a| * |b|
  {
    DivBound(i, |a|, |b|);
    DivBound(j, |a|, |b|);
    a[i / |b|][j / |b|] * b[i % |b|][j % |b|]
  }

  /** The Kronecker (tensor) product: block (p, q) of the result is a[p][q] * b. */
  function Kron(a: Matrix, b: Matrix): (r: Matrix)
    requires IsSquare(a) && IsSquare(b)
    ensures |r| == |a| * |b| && IsSquare(r)
  {
    var n := |a| * |b|;
    seq(n, i requires 0 <= i < n => seq(n, j requires 0 <= j < n => KronEntry(a, b, i, j)))
  }

  /** Matrices are equal when their shapes and entries are. */
  lemma MatrixExt(a: Matrix, b: Matrix)
    requires IsSquare(a) && IsSquare(b) && |a| == |b|
    requires forall i, j :: 0 <= i < |a| && 0 <= j < |a| ==> a[i][j] == b[i][j]
    ensures a == b
  {
    forall i | 0 <= i < |a|
      ensures a[i] == b[i]
    {
      assert forall j :: 0 <= j < |a| ==> a[i][j] == b[i][j];
    }
  }

  lemma AddZeroLeft(m: Matrix)
    requires IsSquare(m)
    ensures Add(Zero(|m|), m) == m
  {
    MatrixExt(Add(Zero(|m|), m), m);
  }

  lemma AddComm(a: Matrix, b: Matrix)
    requires IsSquare(a) && IsSquare(b) && |a| == |b|
    ensures Add(a, b) == Add(b, a)
  {
    MatrixExt(Add(a, b), Add(b, a));
  }

  lemma AddAssoc(a: Matrix, b: Matrix, c: Matrix)
    requires IsSquare(a) && IsSquare(b) && IsSquare(c) && |a| == |b| == |c|
    ensures Add(Add(a, b), c) == Add(a, Add(b, c))
  {
    MatrixExt(Add(Add(a, b), c), Add(a, Add(b, c)));
  }

  /** An entry of m padded on the right with the identity I_c. */
  lemma KronPadEntry(m: Matrix, c: nat, i: nat, j: nat)
    requires IsSquare(m)
    requires i < |m| * c && j < |m| * c
    ensures KronEntry(m, Identity(c), i, j) == if i % c == j % c then m[i / c][j / c] else 0
  {
    DivBound(i, |m|, c);
    DivBound(j, |m|, c);
  }

  /** An entry of m padded on the left with the identity I_c. */
  lemma KronLeftPadEntry(c: nat, m: Matrix, i: nat, j: nat)
    requires IsSquare(m)
    requires i < c * |m| && j < c * |m|
    ensures KronEntry(Identity(c), m, i, j) == if i / |m| == j / |m| then m[i % |m|][j % |m|] else 0
  {
    DivBound(i, c, |m|);
    DivBound(j, c, |m|);
  }

  lemma KronIdentityOne(m: Matrix)
    requires IsSquare(m)
    ensures Kron(m, Identity(1)) == m
    ensures Kron(Identity(1), m) == m
  {
    var right := Kron(m, Identity(1));
    var left := Kron(Identity(1), m);
    assert |m| * 1 == |m| && 1 * |m| == |m|;
    forall i, j | 0 <= i < |m| && 0 <= j < |m|
      ensures right[i][j] == m[i][j] && left[i][j] == m[i][j]
    {
      KronPadEntry(m, 1, i, j);
      KronLeftPadEntry(1, m, i, j);
      DivModUnique(i, 1, i, 0);
      DivModUnique(j, 1, j, 0);
      DivModUnique(i, |m|, 0, i);
      DivModUnique(j, |m|, 0, j);
    }
    MatrixExt(right, m);
    MatrixExt(left, m);
  }

  /** Index arithmetic behind padding twice: a remainder modulo 2a agrees
      exactly when both the low bit and the rest modulo a agree. */
  lemma PadIndex(i: nat, j: nat, a: nat)
    requires a > 0
    ensures i / 2 / a == i / (2 * a)
    ensures i % (2 * a) == j % (2 * a) <==> (i / 2) % a == (j / 2) % a && i % 2 == j % 2
  {
    DivDiv(i, 2, a);
    ModSplit(i, a);
    ModSplit(j, a);
  }

  /** One entry of the padding identity below. */
  lemma KronIdentityStepAt(m: Matrix, a: nat, i: nat, j: nat)
    requires IsSquare(m) && a > 0
    requires i < |m| * a * 2 && j < |m| * a * 2
    requires |m| * a * 2 == |m| * (2 * a)
    ensures KronEntry(Kron(m, Identity(a)), Identity(2), i, j)
         == KronEntry(m, Identity(2 * a), i, j)
  {
    var k := Kron(m, Identity(a));
    KronPadEntry(k, 2, i, j);
    KronPadEntry(m, 2 * a, i, j);
    PadIndex(i, j, a);
    PadIndex(j, i, a);
    DivBound(i, |m|, 2 * a);
    DivBound(j, |m|, 2 * a);
    if i % 2 == j % 2 {
      var x, y := i / 2, j / 2;
      DivBound(i, |m| * a, 2);
      DivBound(j, |m| * a, 2);
      DivBound(x, |m|, a);
      DivBound(y, |m|, a);
      KronPadEntry(m, a, x, y);
    }
  }

  /** Padding with I_a and then with I_2 is padding with I_(2a). */
  lemma KronIdentityStep(m: Matrix, a: nat)
    requires IsSquare(m) && a > 0
    ensures Kron(Kron(m, Identity(a)), Identity(2)) == Kron(m, Identity(2 * a))
  {
    var lhs := Kron(Kron(m, Identity(a)), Identity(2));
    var rhs := Kron(m, Identity(2 * a));
    assert |lhs| == |rhs| by {
      assert |m| * a * 2 == |m| * (2 * a);
    }
    forall i, j | 0 <= i < |lhs| && 0 <= j < |lhs|
      ensures lhs[i][j] == rhs[i][j]
    {
      assert |m| * a * 2 == |m| * (2 * a);
      KronIdentityStepAt(m, a, i, j);
    }
    MatrixExt(lhs, rhs);
  }
}
