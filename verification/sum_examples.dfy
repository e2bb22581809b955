/** The matrix behaviour the Sum test suite pins down, stated for arbitrary
    summand matrices wherever the tests use a family of gates, and for the
    integer gates where they use particular ones. */
module SumExamples {
  import opened Results
  import opened Arith
  import opened Bits
  import opened Matrices
  import opened Embedding
  import opened WireLists
  import opened SumOp
  import opened ExpandHelper
  import opened Gates
  import opened EigenCache

  // ----- two summands on leading wires --------------------------------------

  /** A summand on wires 0, ..., a - 1 embeds into wires 0, ..., n - 1 by
      padding it on the right with n - a qubits. */
  lemma EmbedOnLeadingRange(op: Operator, n: nat)
    requires WellFormed(op) && op.mat.Some?
    requires op.wires == Range(|op.wires|) && |op.wires| <= n
    ensures EmbedSummand(op, Range(n)) == Ok(Pad(op.mat.value, n - |op.wires|))
  {
    var a := |op.wires|;
    RangeSplit(a, n);
    EmbedLeading(op, Interval(a, n));
  }

  /** The wires of two summands on leading wires are the longer range. */
  lemma LeadingPairWires(op1: Operator, op2: Operator, id: Option<string>, doQueue: bool)
    requires op1.wires == Range(|op1.wires|) && op2.wires == Range(|op2.wires|)
    ensures Wires(Sum([op1, op2], id, doQueue)) == Range(Max(|op1.wires|, |op2.wires|))
  {
    var a, b := |op1.wires|, |op2.wires|;
    assert AllWires([op1, op2]) == Range(a) + Range(b) by {
      assert AllWires([op1, op2][1..]) == op2.wires + AllWires([]);
    }
    DedupRanges(a, b);
  }

  /** Two summands on leading wires, embedded into a range that covers both,
      are each padded on the right. */
  lemma LeadingPairEmbedded(op1: Operator, op2: Operator, n: nat)
    requires WellFormed(op1) && WellFormed(op2) && op1.mat.Some? && op2.mat.Some?
    requires op1.wires == Range(|op1.wires|) && op2.wires == Range(|op2.wires|)
    requires |op1.wires| <= n && |op2.wires| <= n
    ensures AllWellFormed([op1, op2])
    ensures |Pad(op1.mat.value, n - |op1.wires|)| == Pow2(n) == |Pad(op2.mat.value, n - |op2.wires|)|
    ensures EmbeddedSum([op1, op2], Range(n))
         == Ok(Add(Pad(op1.mat.value, n - |op1.wires|), Pad(op2.mat.value, n - |op2.wires|)))
  {
    EmbedOnLeadingRange(op1, n);
    EmbedOnLeadingRange(op2, n);
    EmbeddedSumPair(op1, op2, Range(n));
  }

  /** Two summands on leading wires: the Sum acts on the longer range, n
      wires, and each summand is padded on the right up to it. */
  lemma TwoTermsPadded(op1: Operator, op2: Operator, id: Option<string>, doQueue: bool, n: nat)
    requires WellFormed(op1) && WellFormed(op2) && op1.mat.Some? && op2.mat.Some?
    requires op1.wires == Range(|op1.wires|) && op2.wires == Range(|op2.wires|)
    requires n == Max(|op1.wires|, |op2.wires|)
    ensures AllWellFormed([op1, op2])
    ensures var p1 := Pad(op1.mat.value, n - |op1.wires|);
            var p2 := Pad(op2.mat.value, n - |op2.wires|);
            |p1| == |p2| && SumMatrix(Sum([op1, op2], id, doQueue), None) == Ok(Add(p1, p2))
  {
    LeadingPairWires(op1, op2, id, doQueue);
    SumMatrixOwnOrder(Sum([op1, op2], id, doQueue), Range(n));
    LeadingPairEmbedded(op1, op2, n);
  }

  /** Two summands, each on the wires 0, 1, ..., k - 1 for its own k: the
      Sum's matrix is the sum of the two matrices after the smaller has been
      expanded by the helper. */
  lemma TwoTermsOnLeadingWires(op1: Operator, op2: Operator, id: Option<string>, doQueue: bool)
    requires WellFormed(op1) && WellFormed(op2) && op1.mat.Some? && op2.mat.Some?
    requires op1.wires == Range(|op1.wires|) && op2.wires == Range(|op2.wires|)
    ensures AllWellFormed([op1, op2])
    ensures var e := CompareAndExpand(op1.mat.value, op2.mat.value);
            && IsSquare(e.0) && IsSquare(e.1) && |e.0| == |e.1|
            && SumMatrix(Sum([op1, op2], id, doQueue), None) == Ok(Add(e.0, e.1))
  {
    var a, b, m1, m2 := |op1.wires|, |op2.wires|, op1.mat.value, op2.mat.value;
    var n := Max(a, b);
    var p1, p2 := Pad(m1, n - a), Pad(m2, n - b);
    assert CompareAndExpand(m1, m2) == (p1, p2) by {
      CompareAndExpandPow2(m1, m2, a, b);
    }
    assert |p1| == |p2| && SumMatrix(Sum([op1, op2], id, doQueue), None) == Ok(Add(p1, p2)) by {
      TwoTermsPadded(op1, op2, id, doQueue, n);
    }
  }

  // ----- three single-qubit summands on distinct wires ------------------------

  ghost predicate SingleQubit(op: Operator) {
    WellFormed(op) && op.mat.Some? && |op.wires| == 1
  }

  /** The expected matrix of A on the first, B on the second and C on the
      third of three qubits, added up. */
  function ThreeQubitSum(a: Matrix, b: Matrix, c: Matrix): (r: Matrix)
    requires IsSquare(a) && IsSquare(b) && IsSquare(c) && |a| == |b| == |c| == 2
    ensures |r| == 8 && IsSquare(r)
  {
    Add(Add(Kron(a, Identity(4)), Kron(Kron(Identity(2), b), Identity(2))), Kron(Identity(4), c))
  }

  lemma FirstOfThree(x: Operator, y: Operator, z: Operator)
    requires SingleQubit(x) && SingleQubit(y) && SingleQubit(z)
    ensures EmbedSummand(x, x.wires + y.wires + z.wires) == Ok(Kron(x.mat.value, Identity(4)))
  {
    assert x.wires + y.wires + z.wires == x.wires + (y.wires + z.wires);
    assert Pow2(2) == 4;
    EmbedLeading(x, y.wires + z.wires);
  }

  lemma MiddleOfThree(x: Operator, y: Operator, z: Operator)
    requires SingleQubit(x) && SingleQubit(y) && SingleQubit(z)
    requires x.wires[0] != y.wires[0]
    ensures EmbedSummand(y, x.wires + y.wires + z.wires)
         == Ok(Kron(Kron(Identity(2), y.mat.value), Identity(2)))
  {
    assert Pow2(1) == 2;
    EmbedMiddle(x.wires, y, z.wires);
  }

  lemma LastOfThree(x: Operator, y: Operator, z: Operator)
    requires SingleQubit(x) && SingleQubit(y) && SingleQubit(z)
    requires x.wires[0] != z.wires[0] && y.wires[0] != z.wires[0]
    ensures EmbedSummand(z, x.wires + y.wires + z.wires) == Ok(Kron(Identity(4), z.mat.value))
  {
    assert Pow2(2) == 4;
    EmbedTrailing(x.wires + y.wires, z);
  }

  /** Embedded into the order of their wires, three single-qubit summands
      add up to the expected three-qubit matrix. */
  lemma ThreeSummandsInWireOrder(x: Operator, y: Operator, z: Operator)
    requires SingleQubit(x) && SingleQubit(y) && SingleQubit(z)
    requires x.wires[0] != y.wires[0] && x.wires[0] != z.wires[0] && y.wires[0] != z.wires[0]
    ensures AllWellFormed([x, y, z])
    ensures EmbeddedSum([x, y, z], x.wires + y.wires + z.wires)
         == Ok(ThreeQubitSum(x.mat.value, y.mat.value, z.mat.value))
  {
    var a, b, c := x.mat.value, y.mat.value, z.mat.value;
    FirstOfThree(x, y, z);
    MiddleOfThree(x, y, z);
    LastOfThree(x, y, z);
    EmbeddedSumTriple(x, y, z, x.wires + y.wires + z.wires,
                      Kron(a, Identity(4)), Kron(Kron(Identity(2), b), Identity(2)), Kron(Identity(4), c));
  }

  /** The wires of three single-qubit summands on distinct wires, in order. */
  lemma ThreeWires(x: Operator, y: Operator, z: Operator, id: Option<string>, doQueue: bool)
    requires SingleQubit(x) && SingleQubit(y) && SingleQubit(z)
    requires x.wires[0] != y.wires[0] && x.wires[0] != z.wires[0] && y.wires[0] != z.wires[0]
    ensures Wires(Sum([x, y, z], id, doQueue)) == x.wires + y.wires + z.wires
  {
    var order := x.wires + y.wires + z.wires;
    assert AllWires([x, y, z]) == order by {
      assert AllWires([x, y, z][1..][1..]) == z.wires + AllWires([]);
      assert AllWires([x, y, z][1..]) == y.wires + AllWires([x, y, z][1..][1..]);
    }
    assert order == [x.wires[0], y.wires[0], z.wires[0]];
    DedupNoDups(order);
  }

  /** Sum(A(w0), B(w1), C(w2)).matrix() with the Sum's own wire order. */
  lemma ThreeSingleQubitSummands(x: Operator, y: Operator, z: Operator, id: Option<string>, doQueue: bool)
    requires SingleQubit(x) && SingleQubit(y) && SingleQubit(z)
    requires x.wires[0] != y.wires[0] && x.wires[0] != z.wires[0] && y.wires[0] != z.wires[0]
    ensures AllWellFormed([x, y, z])
    ensures Wires(Sum([x, y, z], id, doQueue)) == x.wires + y.wires + z.wires
    ensures SumMatrix(Sum([x, y, z], id, doQueue), None)
         == Ok(ThreeQubitSum(x.mat.value, y.mat.value, z.mat.value))
  {
    ThreeWires(x, y, z, id, doQueue);
    ThreeSummandsInWireOrder(x, y, z);
    SumMatrixOwnOrder(Sum([x, y, z], id, doQueue), x.wires + y.wires + z.wires);
  }

  /** Moving the last of three summands to the front keeps the matrix. */
  lemma RotateThree(x: Operator, y: Operator, z: Operator, order: seq<Wire>)
    requires WellFormed(x) && WellFormed(y) && WellFormed(z)
    requires EmbeddedSum([x, y, z], order).Ok?
    ensures AllWellFormed([z, x, y])
    ensures EmbeddedSum([z, x, y], order) == EmbeddedSum([x, y, z], order)
  {
    assert [z] + [x, y] == [z, x, y];
    assert [x, y] + [z] == [x, y, z];
    SummandOrderIrrelevant([z], [x, y], order);
  }

  /** Sum(C(w2), A(w0), B(w1)).matrix(wire_order=[w0, w1, w2]): listing the
      summands in another order does not change the matrix. */
  lemma ThreeSummandsExplicitOrder(x: Operator, y: Operator, z: Operator, id: Option<string>, doQueue: bool)
    requires SingleQubit(x) && SingleQubit(y) && SingleQubit(z)
    requires x.wires[0] != y.wires[0] && x.wires[0] != z.wires[0] && y.wires[0] != z.wires[0]
    ensures AllWellFormed([z, x, y])
    ensures SumMatrix(Sum([z, x, y], id, doQueue), Some(x.wires + y.wires + z.wires))
         == Ok(ThreeQubitSum(x.mat.value, y.mat.value, z.mat.value))
  {
    var order := x.wires + y.wires + z.wires;
    assert NoDups(order) by {
      assert order == [x.wires[0], y.wires[0], z.wires[0]];
    }
    ThreeSummandsInWireOrder(x, y, z);
    RotateThree(x, y, z, order);
  }

  // ----- particular gates -----------------------------------------------------

  /** Sum(Barrier(0) or WireCut(0), PauliX(2), PauliZ(1)).matrix() fails with
      the matrix-undefined error naming the gate without a matrix. */
  lemma NoMatrixSummandFails(name: string, id: Option<string>, doQueue: bool)
    ensures AllWellFormed([NoMatrixGate(name, 0), PauliX(2), PauliZ(1)])
    ensures SumMatrix(Sum([NoMatrixGate(name, 0), PauliX(2), PauliZ(1)], id, doQueue), None)
         == Err(MatrixUndefined(name))
  {
    var s := Sum([NoMatrixGate(name, 0), PauliX(2), PauliZ(1)], id, doQueue);
    SumMatrixUndefined(s);
    assert s.summands[0].mat.None?;
  }

  /** Summands on the same wire add up directly: X + Z on one qubit. */
  lemma SameWireSummands(w: Wire, id: Option<string>, doQueue: bool)
    ensures AllWellFormed([PauliX(w), PauliZ(w)])
    ensures SumMatrix(Sum([PauliX(w), PauliZ(w)], id, doQueue), None) == Ok([[1, 1], [1, -1]])
  {
    var x, z := PauliX(w), PauliZ(w);
    assert AllWires([x, z]) == [w, w] by {
      assert AllWires([x, z][1..]) == z.wires + AllWires([]);
    }
    assert Dedup([w, w]) == [w] by {
      assert [w, w][..1] == [w];
      assert [w][..0] == [];
    }
    assert Pow2(0) == 1;
    EmbedLeading(x, []);
    EmbedLeading(z, []);
    assert [w] + [] == [w];
    KronIdentityOne(X);
    KronIdentityOne(Z);
    EmbeddedSumPair(x, z, [w]);
    XPlusZ();
  }

  /** Sum(PauliZ(0), Identity(1)).matrix() is diag(2, 2, 0, 0). */
  lemma ZPlusIdentityMatrix(id: Option<string>, doQueue: bool)
    ensures AllWellFormed([PauliZ(0), IdentityGate(1)])
    ensures SumMatrix(Sum([PauliZ(0), IdentityGate(1)], id, doQueue), None)
         == Ok([[2, 0, 0, 0], [0, 2, 0, 0], [0, 0, 0, 0], [0, 0, 0, 0]])
  {
    DisjointPairMatrix(PauliZ(0), IdentityGate(1), id, doQueue);
    assert Pow2(1) == 2;
    ZPlusIdentityDiag();
  }

  /** The eigendecomposition of Sum(PauliZ(0), Identity(1)), from any sound
      cache: eigenvalues 0, 0, 2, 2 with the basis vectors 2, 3, 0, 1, and
      the cache afterwards holds exactly that pair under the flattening of
      diag(2, 2, 0, 0). */
  lemma ZPlusIdentityEigendecomposition(id: Option<string>, doQueue: bool, cache: Cache)
    requires CacheSound(cache)
    ensures AllWellFormed([PauliZ(0), IdentityGate(1)])
    ensures var r := Eigendecomposition(Sum([PauliZ(0), IdentityGate(1)], id, doQueue), cache);
            var pair := EigenPair([0, 0, 2, 2], [[0, 0, 1, 0], [0, 0, 0, 1], [1, 0, 0, 0], [0, 1, 0, 0]]);
            var key := [2, 0, 0, 0, 0, 2, 0, 0, 0, 0, 0, 0, 0, 0, 0, 0];
            && r.Ok? && r.value.0 == pair && key in r.value.1 && r.value.1[key] == pair
  {
    var s := Sum([PauliZ(0), IdentityGate(1)], id, doQueue);
    ZPlusIdentityMatrix(id, doQueue);
    DiagTwoTwoZeroZero();
    EigendecompositionSound(s, cache);
  }

  // ----- a two-qubit gate whose wires come reversed in the order ----------------

  /** A two-qubit basis index with its two qubits exchanged. */
  function Exchange(i: nat): nat
    requires i < 4
  {
    2 * (i % 2) + i / 2
  }

  /** A two-qubit matrix with its two qubits exchanged: rows and columns
      1 and 2 trade places. */
  function ExchangeQubits(m: Matrix): Matrix
    requires IsSquare(m) && |m| == 4
  {
    [[m[0][0], m[0][2], m[0][1], m[0][3]],
     [m[2][0], m[2][2], m[2][1], m[2][3]],
     [m[1][0], m[1][2], m[1][1], m[1][3]],
     [m[3][0], m[3][2], m[3][1], m[3][3]]]
  }

  /** Entry (r, c) of the exchanged matrix is the entry at the exchanged indices. */
  lemma ExchangeQubitsAt(m: Matrix, r: nat, c: nat)
    requires IsSquare(m) && |m| == 4 && r < 4 && c < 4
    ensures ExchangeQubits(m)[r][c] == m[Exchange(r)][Exchange(c)]
  {
    assert r == 0 || r == 1 || r == 2 || r == 3;
    assert c == 0 || c == 1 || c == 2 || c == 3;
  }

  lemma TwoBits(i: nat)
    requires i < 4
    ensures ToBits(i, 2) == [i / 2 == 1, i % 2 == 1]
  {
    ToBitsStep(i, 2);
    ToBitsStep(i / 2, 1);
  }

  /** Reading the two bits of an index in the order [1, 0] gives the
      exchanged index. */
  lemma SelectReversed(i: nat)
    requires i < 4
    ensures FromBits(Select(ToBits(i, 2), [1, 0])) == Exchange(i)
  {
    TwoBits(i);
    var sel := Select(ToBits(i, 2), [1, 0]);
    assert sel == [i % 2 == 1, i / 2 == 1];
    assert sel[..1] == [i % 2 == 1];
    assert sel[..1][..0] == [];
  }

  /** A two-qubit matrix placed on positions [1, 0] of two qubits acts with
      its qubits exchanged, on row and column indices alike. */
  lemma EmbedReversedEntry(m: Matrix, r: nat, c: nat)
    requires IsSquare(m) && |m| == 4 && r < 4 && c < 4
    ensures Pow2(2) == 4 && Embeddable(m, [1, 0], 2)
    ensures EmbedEntry(m, [1, 0], 2, r, c) == m[Exchange(r)][Exchange(c)]
  {
    assert Pow2(2) == 4;
    var rb, cb := ToBits(r, 2), ToBits(c, 2);
    assert AgreeOutside(rb, cb, [1, 0]);
    SelectReversed(r);
    SelectReversed(c);
  }

  /** Wires [w0, w1] sit at positions [1, 0] of the order [w1, w0]. */
  lemma ReversedPositions(w0: Wire, w1: Wire)
    requires w0 != w1
    ensures Positions([w0, w1], [w1, w0]) == [1, 0]
  {
    assert IndexOf([w1, w0][1..], w0) == 0;
  }

  /** A two-qubit gate on wires [w0, w1], in the order [w1, w0], has its
      matrix with the two qubits exchanged. */
  lemma EmbedReversed(op: Operator, w0: Wire, w1: Wire)
    requires WellFormed(op) && op.wires == [w0, w1] && op.mat.Some?
    ensures |op.mat.value| == 4
    ensures EmbedSummand(op, [w1, w0]) == Ok(ExchangeQubits(op.mat.value))
  {
    var m := op.mat.value;
    assert Pow2(2) == 4;
    assert op.wires[0] != op.wires[1];
    ReversedPositions(w0, w1);
    var e := Embed(m, [1, 0], 2);
    forall r, c | 0 <= r < 4 && 0 <= c < 4
      ensures e[r][c] == ExchangeQubits(m)[r][c]
    {
      EmbedReversedEntry(m, r, c);
      ExchangeQubitsAt(m, r, c);
    }
    MatrixExt(e, ExchangeQubits(m));
  }

  /** CNOT(wires=[0, 1]) in the order [1, 0]: the first qubit of the order is
      now the target, so the basis states |01> and |11> trade places. */
  lemma CnotReversed()
    ensures EmbedSummand(Cnot(0, 1), [1, 0])
         == Ok([[1, 0, 0, 0], [0, 0, 0, 1], [0, 0, 1, 0], [0, 1, 0, 0]])
  {
    EmbedReversed(Cnot(0, 1), 0, 1);
  }

  /** SWAP is symmetric in its wires: in the order [1, 0] its matrix is
      unchanged. */
  lemma SwapReversed()
    ensures EmbedSummand(Swap(0, 1), [1, 0]) == Ok(SWAP)
  {
    EmbedReversed(Swap(0, 1), 0, 1);
  }

  /** A one-qubit matrix padded on the right with one identity qubit. */
  lemma PadOneQubit(m: Matrix)
    requires IsSquare(m) && |m| == 2
    ensures Kron(m, Identity(2))
         == [[m[0][0], 0, m[0][1], 0], [0, m[0][0], 0, m[0][1]],
             [m[1][0], 0, m[1][1], 0], [0, m[1][0], 0, m[1][1]]]
  {
    var d: Matrix := [[m[0][0], 0, m[0][1], 0], [0, m[0][0], 0, m[0][1]],
                      [m[1][0], 0, m[1][1], 0], [0, m[1][0], 0, m[1][1]]];
    var k := Kron(m, Identity(2));
    forall i, j | 0 <= i < 4 && 0 <= j < 4
      ensures k[i][j] == d[i][j]
    {
      KronPadEntry(m, 2, i, j);
      assert i == 0 || i == 1 || i == 2 || i == 3;
      assert j == 0 || j == 1 || j == 2 || j == 3;
    }
    MatrixExt(k, d);
  }

  /** X on wire 1 in the order [1, 0] is kron(X, I2). */
  lemma XOnFirstOfTwo()
    ensures EmbedSummand(PauliX(1), [1, 0])
         == Ok([[0, 0, 1, 0], [0, 0, 0, 1], [1, 0, 0, 0], [0, 1, 0, 0]])
  {
    assert [1] + [0] == [1, 0];
    assert Pow2(1) == 2;
    EmbedLeading(PauliX(1), [0]);
    PadOneQubit(X);
  }

  /** kron(X, I2) plus the reversed CNOT, entry by entry. */
  lemma TopLevelAdd()
    ensures Add([[0, 0, 1, 0], [0, 0, 0, 1], [1, 0, 0, 0], [0, 1, 0, 0]],
                [[1, 0, 0, 0], [0, 0, 0, 1], [0, 0, 1, 0], [0, 1, 0, 0]])
         == [[1, 0, 1, 0], [0, 0, 0, 2], [1, 0, 1, 0], [0, 2, 0, 0]]
  {
    var a: Matrix := [[0, 0, 1, 0], [0, 0, 0, 1], [1, 0, 0, 0], [0, 1, 0, 0]];
    var b: Matrix := [[1, 0, 0, 0], [0, 0, 0, 1], [0, 0, 1, 0], [0, 1, 0, 0]];
    var d: Matrix := [[1, 0, 1, 0], [0, 0, 0, 2], [1, 0, 1, 0], [0, 2, 0, 0]];
    MatrixExt(Add(a, b), d);
  }

  /** The wires of op_sum(PauliX(1), CNOT(wires=[0, 1])) are [1, 0]. */
  lemma TopLevelWires(id: Option<string>, doQueue: bool)
    ensures Wires(Sum([PauliX(1), Cnot(0, 1)], id, doQueue)) == [1, 0]
  {
    var x, cx := PauliX(1), Cnot(0, 1);
    assert AllWires([x, cx]) == [1, 0, 1] by {
      assert AllWires([x, cx][1..]) == cx.wires + AllWires([]);
    }
    assert Dedup([1, 0, 1]) == [1, 0] by {
      assert [1, 0, 1][..2] == [1, 0];
      assert [1, 0][..1] == [1];
      assert [1][..0] == [];
    }
  }

  /** op_sum(PauliX(1), CNOT(wires=[0, 1])), the op_sum test without its
      rotation summand: op_sum succeeds, the Sum's wires are [1, 0], so CNOT
      is placed with its wires reversed, and the matrix is kron(X, I2) plus
      the reversed CNOT. */
  lemma OpSumTopLevel(id: Option<string>, doQueue: bool)
    ensures var r := OpSum([PauliX(1), Cnot(0, 1)], id, doQueue);
            && r.Ok? && r.value.summands == [PauliX(1), Cnot(0, 1)] && r.value.id == id
            && AllWellFormed(r.value.summands)
            && Wires(r.value) == [1, 0]
            && SumMatrix(r.value, None)
               == Ok([[1, 0, 1, 0], [0, 0, 0, 2], [1, 0, 1, 0], [0, 2, 0, 0]])
  {
    var x, cx := PauliX(1), Cnot(0, 1);
    TopLevelWires(id, doQueue);
    SumMatrixOwnOrder(Sum([x, cx], id, doQueue), [1, 0]);
    XOnFirstOfTwo();
    CnotReversed();
    EmbeddedSumPair(x, cx, [1, 0]);
    TopLevelAdd();
  }
}
