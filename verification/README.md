# Sum operator and deferred measurements, in Dafny

This project models two pieces of PennyLane, the quantum-circuit library.

**The symbolic `Sum` operator**, as its test suite pins it down. A `Sum`
holds an ordered, non-empty list of summand operators. Most of its
properties are derived from the summands:

- `num_params` is the total of the summands' parameter counts.
- `num_wires` is the size of the union of their wire sets.
- `is_hermitian` is the AND of their hermiticity flags.
- `_queue_category` is always `None`.
- `matrix(wire_order)` embeds each summand's matrix into the wire order,
  with the identity on every other wire, and adds the results. A summand
  with no matrix (Barrier, WireCut) makes it fail with `MatrixUndefinedError`.
- `op_sum` builds the same `Sum` as the class constructor.
- `eigendecomposition` is memoised in a cache. The cache key is the
  row-major flattening of the matrix.
- The tests compare against a helper, `compare_and_expand_mat`, which pads
  the smaller of two square matrices with `I_2` factors on the right. It
  stops as soon as the padded matrix has at least as many entries as the
  other one, so the two sizes need not end up equal: a 2 × 2 matrix against
  a 3 × 3 one comes back 4 × 4. The helper is modelled as well.

Matrices are `seq<seq<int>>`. An operator's matrix over `k` wires is
`2^k × 2^k`. Embedding is defined bit by bit, with the first wire of the
order as the most significant bit. It is proved equal to the Kronecker
forms the tests write down: `kron(A, I)`, `kron(I, A)` and
`kron(kron(I, A), I)`.

**The `defer_measurements` tape transform**, which makes one left-to-right
pass over a tape's queue:

- mid-circuit measurements are dropped;
- each conditional `_IfOp` becomes the controlled version of the operation
  it wraps, controlled on the wires its measured value depends on, with the
  same parameters (none if it has none) and the same target wires;
- every other entry is passed through unchanged.

Modules, in dependency order:

- `Results`: `Option` and `Result`.
- `Seqs`: small facts about sequences and multisets.
- `Arith`: powers of two and division facts.
- `Bits`: big-endian bit strings of indices.
- `Matrices`: identity, zero, addition, Kronecker product.
- `Embedding`: a matrix placed on chosen qubits of a register.
- `WireLists`: duplicate-free wire lists, first-occurrence union, positions.
- `SumOp`: the operator and the `Sum`.
- `Gates`: integer gates and the gates without a matrix.
- `ExpandHelper`: the test helper.
- `EigenCache`: flattening, the diagonal eigendecomposition and the cache.
- `SumExamples`: the matrices the test cases expect.
- `Deferral`: the tape transform.

## Model

| member | source | states |
|---|---|---|
| ExpandHelper.CompareAndExpandSpec | tests/ops/op_math/test_sum.py:71-88 | equal sizes come back unchanged; otherwise the larger matrix stays in its argument place, and the smaller is padded on the right with the fewest identity qubits that make it at least as large |
| ExpandHelper.CompareAndExpandPow2 | tests/ops/op_math/test_sum.py:71-88 | for matrices on a and b qubits, both come back padded to max(a, b) qubits, each in its own argument place |
| ExpandHelper.Grow | tests/ops/op_math/test_sum.py:82-83 | the padding loop stops with a matrix at least as large as the target, and does nothing when the matrix is already large enough |
| ExpandHelper.GrowPad | tests/ops/op_math/test_sum.py:82-83 | the loop's result is the input padded with k identity qubits, and k - 1 qubits would fall short of the target |
| SumOp.NumParamsIsSum | tests/ops/op_math/test_sum.py:253-261 | num_params equals the summands' num_params added up |
| SumOp.NumWiresIsUnionSize | tests/ops/op_math/test_sum.py:263-271 | num_wires equals the size of the union of the summands' wire sets |
| SumOp.IsHermitian | tests/ops/op_math/test_sum.py:273-281 | the Sum is Hermitian exactly when every summand is |
| SumOp.QueueCategory | tests/ops/op_math/test_sum.py:283-286 | a Sum's queue category is None, whatever its summands |
| SumOp.EmbedSummand | tests/ops/op_math/test_sum.py:121-125 | a summand embeds exactly when it has a matrix and all its wires are in the order; it then gives a 2^n × 2^n matrix for an order of n wires; a summand without a matrix gives the matrix-undefined error naming it |
| SumOp.EmbeddedSum | tests/ops/op_math/test_sum.py:121-125 | the sum exists exactly when every summand embeds; on failure the error is that of the first summand that does not embed |
| SumOp.SumMatrixEntries | tests/ops/op_math/test_sum.py:139-170 | matrix(wire_order) exists exactly when the chosen order (the given one, else the Sum's own wires) repeats no wire and every summand has a matrix on wires of that order; an order that repeats a wire fails with the wire-order error; entry (i, j) of the result is the sum over the summands of their embedded entries (i, j) |
| SumOp.EmbeddedSumEntries | tests/ops/op_math/test_sum.py:147-151 | when the embedded sum exists, every summand embeds and each entry of the sum is the sum of the summands' embedded entries |
| SumOp.WiresFirstOccurrence | tests/ops/op_math/test_sum.py:139-153 | the Sum's wires repeat no wire, are exactly the wires of its summands, and come in the order of their first occurrence across the summands |
| WireLists.DedupFirstOccurrence | tests/ops/op_math/test_sum.py:139-153 | removing repeated wires keeps each wire's first occurrence, in the order of those first occurrences |
| SumOp.SumMatrixUndefined | tests/ops/op_math/test_sum.py:121-125 | with the Sum's own wires, matrix() fails exactly when some summand has no matrix, and the error names the first such summand |
| SumOp.SummandOrderIrrelevant | tests/ops/op_math/test_sum.py:155-170 | for a fixed wire order, swapping two blocks of summands changes neither whether the matrix exists nor the matrix itself |
| SumOp.EmbeddedSumPermutation | tests/ops/op_math/test_sum.py:155-170 | for a fixed wire order, any rearrangement of the summands (the same summands with the same multiplicities) has a matrix exactly when the original list has one, and then the same matrix |
| SumOp.ExplicitOrderPermutation | tests/ops/op_math/test_sum.py:155-170 | two Sums whose summands are rearrangements of each other have, for the same explicit wire order, a matrix together and then the same matrix |
| SumOp.EmbeddedSumAppend | tests/ops/op_math/test_sum.py:147-151 | the matrix of two concatenated summand lists is the sum of the two lists' matrices |
| SumOp.EmbeddedSumConcatOk | tests/ops/op_math/test_sum.py:121-125 | a concatenation of summand lists has a matrix exactly when both parts have one |
| SumOp.EmbedLeading | tests/ops/op_math/test_sum.py:148 | a summand on the leading wires of the order becomes kron(A, I) |
| SumOp.EmbedMiddle | tests/ops/op_math/test_sum.py:149 | a summand on a middle block of the order becomes kron(kron(I, A), I) |
| SumOp.EmbedTrailing | tests/ops/op_math/test_sum.py:150 | a summand on the trailing wires of the order becomes kron(I, A) |
| SumOp.EmbeddedSumTriple | tests/ops/op_math/test_sum.py:147-151 | three embeddable summands give their three embeddings added left to right |
| SumOp.DisjointPairMatrix | tests/ops/op_math/test_sum.py:228-236 | two summands on disjoint wires give kron(A, I) + kron(I, B) with the Sum's own wire order |
| SumExamples.TwoTermsOnLeadingWires | tests/ops/op_math/test_sum.py:94-119 | for any two summands on wires range(k1) and range(k2), with or without parameters, the Sum's matrix is the sum of the helper's two expanded matrices |
| SumExamples.ThreeSingleQubitSummands | tests/ops/op_math/test_sum.py:139-153 | three single-qubit summands on distinct wires give kron(A, I4) + kron(kron(I2, B), I2) + kron(I4, C), and the Sum's wires are theirs in order |
| SumExamples.ThreeSummandsExplicitOrder | tests/ops/op_math/test_sum.py:155-170 | the same matrix when the summands are listed C, A, B and the wire order is given explicitly |
| SumExamples.OpSumTopLevel | tests/ops/op_math/test_sum.py:339-354 | op_sum(PauliX(1), CNOT(wires=[0, 1])) succeeds with those summands and that id, its wires are [1, 0], and its matrix is kron(X, I2) plus CNOT with control and target exchanged: [[1, 0, 1, 0], [0, 0, 0, 2], [1, 0, 1, 0], [0, 2, 0, 0]] |
| SumExamples.EmbedReversed | tests/ops/op_math/test_sum.py:343 | a two-qubit summand on wires [w0, w1], placed into the order [w1, w0], gets its matrix with the two qubits exchanged (rows and columns 1 and 2 swapped) |
| SumExamples.CnotReversed | tests/ops/op_math/test_sum.py:343 | CNOT(wires=[0, 1]) in the order [1, 0] is the CNOT whose control is the second qubit of the order: it swaps the basis states 1 and 3 and fixes 0 and 2 |
| SumExamples.NoMatrixSummandFails | tests/ops/op_math/test_sum.py:121-125 | Sum(Barrier(0) or WireCut(0), PauliX(2), PauliZ(1)).matrix() fails with the matrix-undefined error naming the gate |
| SumExamples.SameWireSummands | tests/ops/op_math/test_sum.py:127-137 | summands on the same wire add directly: X + Z on one qubit is [[1, 1], [1, -1]] |
| SumExamples.ZPlusIdentityMatrix | tests/ops/op_math/test_sum.py:288-289 | Sum(PauliZ(0), Identity(1)) has the matrix diag(2, 2, 0, 0) |
| SumExamples.ZPlusIdentityEigendecomposition | tests/ops/op_math/test_sum.py:288-317 | from any sound cache, Sum(PauliZ(0), Identity(1)) has eigenvalues 0, 0, 2, 2 and eigenvectors that are the columns of the permutation matrix the test expects; afterwards the cache holds that same pair under the flattened key (2, 0, 0, 0, 0, 2, 0, …, 0) |
| EigenCache.Eigendecomposition | tests/ops/op_math/test_sum.py:303-317 | the result is stored under the flattening of the Sum's matrix; only that key is added and no earlier entry changes; a Sum without a matrix fails with the matrix error |
| EigenCache.EigendecompositionSound | tests/ops/op_math/test_sum.py:288-301 | starting from a sound cache, the result is the decomposition of the Sum's matrix on a hit and on a miss alike, the cache stays sound, and the call succeeds exactly for diagonal matrices |
| EigenCache.EigendecompositionCached | tests/ops/op_math/test_sum.py:303-317 | a second request for a Sum with the same matrix, using the cache the first left, returns the same pair and leaves the cache unchanged |
| EigenCache.FlattenInjective | tests/ops/op_math/test_sum.py:310-312 | two square matrices with the same flattening are equal, so the key identifies the matrix |
| EigenCache.FlattenAt | tests/ops/op_math/test_sum.py:310-312 | entry (i, j) of a matrix of width w sits at position i·w + j of the key |
| EigenCache.DiagonalEigenvalues | tests/ops/op_math/test_sum.py:298-300 | the eigenvalues are ascending and are the diagonal entries with their multiplicities |
| EigenCache.DiagonalEigenvectors | tests/ops/op_math/test_sum.py:294-301 | matrix times eigenvector column k equals eigenvalue k times that column, and the eigenvector columns are orthonormal |
| EigenCache.DiagonalEigenBasis | tests/ops/op_math/test_sum.py:294-300 | the eigenvector matrix is made of the standard basis columns picked by a permutation of the indices; eigenvalue k is the diagonal entry at the k-th picked index; equal eigenvalues keep their indices in increasing order |
| Deferral.DeferMeasurements | pennylane/transforms/defer_measurements.py:18-41 | the pass leaves no mid-circuit measurement or conditional, its output is as long as the input less its measurements, and it equals the entry-wise rewrite |
| Deferral.DeferEntry | pennylane/transforms/defer_measurements.py:21-35 | a measurement contributes nothing, a conditional contributes its controlled copy, and any other entry contributes itself |
| Deferral.ControlledCopyFields | pennylane/transforms/defer_measurements.py:25-33 | the controlled copy has the wrapped operation's class, is controlled on the measured value's dependencies, and keeps the data and target wires; with empty data it takes no parameters |
| Deferral.DeferClean | pennylane/transforms/defer_measurements.py:21-35 | no mid-circuit measurement and no conditional is left in the output |
| Deferral.DeferLength | pennylane/transforms/defer_measurements.py:21-35 | the output length is the input length minus the number of mid-circuit measurements |
| Deferral.DeferConcat | pennylane/transforms/defer_measurements.py:21-35 | the pass works entry by entry: rewriting a concatenation is concatenating the rewrites |
| Deferral.DeferCleanUnchanged | pennylane/transforms/defer_measurements.py:34-35 | a tape without measurements or conditionals passes through unchanged |
| Deferral.DeferIdempotent | pennylane/transforms/defer_measurements.py:18-41 | applying the transform twice gives the same tape as applying it once |
| Deferral.DeferAt | pennylane/transforms/defer_measurements.py:21-35 | every entry that is not a measurement appears in the output, rewritten, after exactly the kept entries that precede it |
| Deferral.DeferOrder | pennylane/transforms/defer_measurements.py:21-35 | kept entries keep their relative order |
| Deferral.DeferIsRewriteOfKept | pennylane/transforms/defer_measurements.py:21-35 | the output is the input with the measurements filtered out, then rewritten entry by entry |
| Deferral.MeasureThenConditional | pennylane/transforms/defer_measurements.py:22-33 | a measurement followed by a conditional on it becomes the single controlled operation, and the entries around them stay in place |

## Left out

- The `Sum` class itself (pennylane/ops/op_math/sum.py) is not part of this model. Its behaviour is taken from what its test file requires.
- Floating-point and complex matrices are not modelled. Matrices are integer, so Hadamard, rotations, QFT, Grover, the qchem gates and `gate_data` are not modelled. The lemmas are stated for arbitrary summand matrices, and the concrete cases use integer gates (X, Z, I, CNOT, SWAP) in their place. For example, the X + H + Z test becomes X + Z, and the op_sum test keeps PauliX(1) and CNOT(wires=[0, 1]) but drops RX(1.23).
- `np.allclose` is modelled as exact equality.
- `math.cast_like` in the helper only fixes the dtype, so it is left out.
- SumOp.SumMatrix: a wire order that repeats a wire, or that misses one of a summand's wires, yields `WireOrderInvalid`. How the library reacts in that case is not exercised by the tests, so this error is a modelling choice.
- SumOp.Parameters: the Sum's parameters are the summands' parameters concatenated in summand order. The tests check their count (test_sum.py:253-261) and that op_sum and the class agree on them (test_sum.py:354). Neither fixes the flat shape or the order, so concatenation in summand order is a modelling choice.
- SumOp.OpSum: op_sum is modelled as the constructor itself, so the agreement that test_sum.py:350-354 checks between the two holds by construction. SumExamples.OpSumTopLevel computes the Sum of that test concretely, without its RX summand.
- SumOp.EmbeddedSumPermutation: the rearrangement result is stated for a fixed wire order. With the Sum's own wire order, reordering the summands can reorder the wires and so permute the matrix's rows and columns. The tests only compare rearranged summands under an explicit order.
- SumOp.NewSum: an empty list of summands is refused. A single summand is a valid Sum.
- ExpandHelper.CompareAndExpand: two matrices of different sizes must both be non-empty. With an empty smaller matrix the Python loop would never terminate.
- EigenCache.Eigendecomposition: only diagonal integer matrices are decomposed, which is the only case the tests exercise. A non-diagonal matrix on a cache miss returns `NotDiagonal`, which stands for a numeric eigensolver this model does not have. The eigenvector convention (ascending eigenvalues, equal ones in index order, standard basis columns) is the one the test expects.
- EigenCache.Eigendecomposition: the cache is passed in and returned explicitly instead of being a class attribute shared by all Sums. Thread safety is not modelled.
- `diagonalizing_gates` is not modelled, because it builds a unitary gate object from numeric eigenvectors.
- The `TestIntegration` cases are not modelled, because they need device execution and measurement statistics. The `UnsupportedObservable` errors they check are not modelled either.
- The empty tests (`test_sum_private`, `test_dtype`, `test_cast_like`, `test_differentiable_measurement_process`) assert nothing.
- Deferral.DeferMeasurements returns the list of new entries.
  - The `QuantumTape` context and `qml.apply` at defer_measurements.py lines 37-39 only re-queue that list in order.
  - `qml.qfunc_transform` only wraps the function.
  - Gate parameters are `real` values and are never inspected.
- Deferral.ControlledCopy: the wrapped class is a string, and `qml.ctrl` is modelled as building the `Controlled` entry.
- Deferral: a conditional whose measured value has unresolved dependencies is not an error. The code reads `_dependent_on` directly, with no lookup that could fail, so the model copies that field as it is.
