/** The padding helper the Sum matrix tests compare against: of two square
    matrices of different sizes, the smaller one is Kronecker-multiplied on
    the right by I_2 until it is at least as large as the other. */
module ExpandHelper {
  import opened Arith
  import opened Matrices

  /** m padded on the right with the identity on k further qubits. */
  function Pad(m: Matrix, k: nat): (r: Matrix)
    requires IsSquare(m)
    ensures |r| == |m| * Pow2(k) && IsSquare(r)
  {
    Kron(m, Identity(Pow2(k)))
  }

  lemma PadZero(m: Matrix)
    requires IsSquare(m)
    ensures Pad(m, 0) == m
  {
    KronIdentityOne(m);
  }

  /** One more I_2 on the right is one more padded qubit. */
  lemma PadStep(m: Matrix, k: nat)
    requires IsSquare(m)
    ensures Kron(Pad(m, k), Identity(2)) == Pad(m, k + 1)
  {
    KronIdentityStep(m, Pow2(k));
  }

  lemma SizeGrows(m: Matrix)
    requires IsSquare(m) && |m| > 0
    ensures Size(Kron(m, Identity(2))) > Size(m)
  {
    var n := |m|;
    assert |Kron(m, Identity(2))| == n * 2;
    MulLe(n, n * 2, n);
    MulLe(n, n * 2, n * 2);
    MulLe(1, n, n);
  }

  /** The loop of the helper: pad with I_2 while the size is below target. */
  function Grow(m: Matrix, target: nat): (r: Matrix)
    requires IsSquare(m) && |m| > 0
    ensures IsSquare(r) && |r| > 0
    ensures Size(r) >= target
    ensures Size(m) >= target ==> r == m
    decreases target - Size(m)
  {
    if Size(m) < target then
      SizeGrows(m);
      assert |Kron(m, Identity(2))| == |m| * 2;
      Grow(Kron(m, Identity(2)), target)
    else m
  }

  /** Growing pads with the fewest qubits that reach the target size. */
  lemma {:induction false} GrowPad(m: Matrix, j: nat, target: nat)
    requires IsSquare(m) && |m| > 0
    ensures |Pad(m, j)| > 0
    ensures exists k: nat :: j <= k && Grow(Pad(m, j), target) == Pad(m, k)
                            && (j < k ==> Size(Pad(m, k - 1)) < target)
    decreases target - Size(Pad(m, j))
  {
    var p := Pad(m, j);
    MulLe(1, Pow2(j), |m|);
    if Size(p) < target {
      PadStep(m, j);
      SizeGrows(p);
      GrowPad(m, j + 1, target);
      var k: nat :| j + 1 <= k && Grow(Pad(m, j + 1), target) == Pad(m, k)
                    && (j + 1 < k ==> Size(Pad(m, k - 1)) < target);
      assert Grow(p, target) == Pad(m, k);
    } else {
      assert Grow(p, target) == Pad(m, j);
    }
  }

  lemma Pow2Lt(x: nat, y: nat)
    requires x < y
    ensures Pow2(x) < Pow2(y)
  {
    Pow2Add(x, y - x);
    MulLe(2, Pow2(y - x), Pow2(x));
    assert Pow2(y - x) >= 2 by {
      Pow2Add(1, y - x - 1);
    }
  }

  /** A matrix on fewer qubits has fewer entries. */
  lemma SizeLt(x: nat, y: nat)
    requires x < y
    ensures Pow2(x) * Pow2(x) < Pow2(y) * Pow2(y)
  {
    Pow2Lt(x, y);
    MulLe(Pow2(x), Pow2(y) - 1, Pow2(x));
    MulLe(Pow2(x), Pow2(y), Pow2(y));
  }

  /** For an operator matrix on a qubits padded with j of the b - a missing
      qubits, growing adds the rest. */
  lemma {:induction false} GrowPow2From(m: Matrix, a: nat, j: nat, b: nat)
    requires IsSquare(m) && |m| == Pow2(a) && a + j <= b
    ensures |Pad(m, j)| > 0
    ensures Grow(Pad(m, j), Pow2(b) * Pow2(b)) == Pad(m, b - a)
    decreases b - a - j
  {
    var p := Pad(m, j);
    Pow2Add(a, j);
    assert |p| == Pow2(a + j);
    if a + j < b {
      SizeLt(a + j, b);
      PadStep(m, j);
      SizeGrows(p);
      GrowPow2From(m, a, j + 1, b);
    }
  }

  /** An operator matrix on a qubits grown to the size of one on b > a
      qubits gets exactly b - a qubits added. */
  lemma GrowPow2(m: Matrix, a: nat, b: nat)
    requires IsSquare(m) && |m| == Pow2(a) && a < b
    ensures Size(m) < Pow2(b) * Pow2(b)
    ensures Grow(m, Pow2(b) * Pow2(b)) == Pad(m, b - a)
  {
    SizeLt(a, b);
    PadZero(m);
    GrowPow2From(m, a, 0, b);
  }

  /** The helper: equal sizes are returned unchanged; otherwise the smaller
      matrix is grown and the pair keeps the argument order. An empty smaller
      matrix never grows, so the helper demands non-empty matrices when the
      sizes differ. */
  function CompareAndExpand(m1: Matrix, m2: Matrix): (r: (Matrix, Matrix))
    requires IsSquare(m1) && IsSquare(m2)
    requires Size(m1) == Size(m2) || (|m1| > 0 && |m2| > 0)
  {
    if Size(m1) == Size(m2) then (m1, m2)
    else if Size(m1) < Size(m2) then (Grow(m1, Size(m2)), m2)
    else (m1, Grow(m2, Size(m1)))
  }

  /** What the helper returns, for any square matrices: the larger matrix
      untouched, in its argument place, and the smaller one padded on the
      right with the fewest qubits that make it at least as large. */
  lemma CompareAndExpandSpec(m1: Matrix, m2: Matrix)
    requires IsSquare(m1) && IsSquare(m2)
    requires Size(m1) == Size(m2) || (|m1| > 0 && |m2| > 0)
    ensures Size(m1) == Size(m2) ==> CompareAndExpand(m1, m2) == (m1, m2)
    ensures Size(m1) < Size(m2) ==>
              CompareAndExpand(m1, m2).1 == m2
              && exists k: nat :: 0 < k && CompareAndExpand(m1, m2).0 == Pad(m1, k)
                                  && Size(Pad(m1, k)) >= Size(m2) && Size(Pad(m1, k - 1)) < Size(m2)
    ensures Size(m2) < Size(m1) ==>
              CompareAndExpand(m1, m2).0 == m1
              && exists k: nat :: 0 < k && CompareAndExpand(m1, m2).1 == Pad(m2, k)
                                  && Size(Pad(m2, k)) >= Size(m1) && Size(Pad(m2, k - 1)) < Size(m1)
  {
    if Size(m1) < Size(m2) {
      PadZero(m1);
      GrowPad(m1, 0, Size(m2));
    } else if Size(m2) < Size(m1) {
      PadZero(m2);
      GrowPad(m2, 0, Size(m1));
    }
  }

  /** For operator matrices on a and b qubits, both come back padded to
      max(a, b) qubits: the smaller with |a - b| qubits, the larger with none. */
  lemma CompareAndExpandPow2(m1: Matrix, m2: Matrix, a: nat, b: nat)
    requires IsSquare(m1) && IsSquare(m2) && |m1| == Pow2(a) && |m2| == Pow2(b)
    ensures var n := Max(a, b);
            CompareAndExpand(m1, m2) == (Pad(m1, n - a), Pad(m2, n - b))
  {
    PadZero(m1);
    PadZero(m2);
    if a < b {
      GrowPow2(m1, a, b);
    } else if b < a {
      GrowPow2(m2, b, a);
    }
  }
}
