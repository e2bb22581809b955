/** A few gates with integer matrices, as summands for the Sum operator, and
    the contract-only gates that have no matrix at all. */
module Gates {
  import opened Results
  import opened Arith
  import opened Matrices
  import opened WireLists
  import opened SumOp

  const I2: Matrix := [[1, 0], [0, 1]]
  const X: Matrix := [[0, 1], [1, 0]]
  const Z: Matrix := [[1, 0], [0, -1]]
  const CNOT: Matrix := [[1, 0, 0, 0], [0, 1, 0, 0], [0, 0, 0, 1], [0, 0, 1, 0]]
  const SWAP: Matrix := [[1, 0, 0, 0], [0, 0, 1, 0], [0, 1, 0, 0], [0, 0, 0, 1]]

  /** A parameterless Hermitian gate with a matrix. */
  function Gate(name: string, wires: seq<Wire>, m: Matrix): (op: Operator)
    requires NoDups(wires) && IsSquare(m) && |m| == Pow2(|wires|)
    ensures WellFormed(op) && op.mat == Some(m) && op.params == [] && op.hermitian
  {
    Operator(name, wires, [], true, Some(m))
  }

  function PauliX(w: Wire): (op: Operator)
    ensures WellFormed(op) && op.wires == [w] && op.mat == Some(X)
  {
    Gate("PauliX", [w], X)
  }

  function PauliZ(w: Wire): (op: Operator)
    ensures WellFormed(op) && op.wires == [w] && op.mat == Some(Z)
  {
    Gate("PauliZ", [w], Z)
  }

  function IdentityGate(w: Wire): (op: Operator)
    ensures WellFormed(op) && op.wires == [w] && op.mat == Some(I2)
  {
    Gate("Identity", [w], I2)
  }

  function Cnot(control: Wire, target: Wire): (op: Operator)
    requires control != target
    ensures WellFormed(op) && op.wires == [control, target] && op.mat == Some(CNOT)
  {
    Gate("CNOT", [control, target], CNOT)
  }

  function Swap(w0: Wire, w1: Wire): (op: Operator)
    requires w0 != w1
    ensures WellFormed(op) && op.wires == [w0, w1] && op.mat == Some(SWAP)
  {
    Gate("SWAP", [w0, w1], SWAP)
  }

  /** Barrier and WireCut: operators that constrain compilation and have no
      matrix representation. */
  function NoMatrixGate(name: string, w: Wire): (op: Operator)
    ensures WellFormed(op) && op.wires == [w] && op.mat.None?
  {
    Operator(name, [w], [], false, None)
  }

  /** The identity constant is the identity matrix on one qubit. */
  lemma I2IsIdentity()
    ensures I2 == Identity(2)
  {
    MatrixExt(I2, Identity(2));
  }

  /** X + Z, the sum of two Paulis on the same qubit. */
  lemma XPlusZ()
    ensures Add(X, Z) == [[1, 1], [1, -1]]
  {
    var d: Matrix := [[1, 1], [1, -1]];
    forall i, j | 0 <= i < 2 && 0 <= j < 2
      ensures Add(X, Z)[i][j] == d[i][j]
    {
    }
    MatrixExt(Add(X, Z), d);
  }

  /** Z on the first of two qubits plus the identity on the second is
      diag(2, 2, 0, 0). */
  lemma ZPlusIdentityDiag()
    ensures Add(Kron(Z, Identity(2)), Kron(Identity(2), I2))
         == [[2, 0, 0, 0], [0, 2, 0, 0], [0, 0, 0, 0], [0, 0, 0, 0]]
  {
    I2IsIdentity();
    var left := Kron(Z, Identity(2));
    var right := Kron(Identity(2), I2);
    var d: Matrix := [[2, 0, 0, 0], [0, 2, 0, 0], [0, 0, 0, 0], [0, 0, 0, 0]];
    forall i, j | 0 <= i < 4 && 0 <= j < 4
      ensures Add(left, right)[i][j] == d[i][j]
    {
      KronPadEntry(Z, 2, i, j);
      KronLeftPadEntry(2, I2, i, j);
    }
    MatrixExt(Add(left, right), d);
  }
}
