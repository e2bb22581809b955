/** The eigendecomposition of a Sum and the cache it is memoised in. The
    cache key is the row-major flattening of the Sum's matrix; the value is
    the pair of ascending eigenvalues and the matrix whose columns are the
    matching eigenvectors. Only diagonal integer matrices are decomposed. */
module EigenCache {
  import opened Results
  import opened Arith
  import opened Bits
  import opened Matrices
  import opened SumOp
  import opened Seqs

  // ----- the cache key ------------------------------------------------------

  /** The rows of m, one after the other. */
  function Flatten(m: Matrix): seq<int> {
    if |m| == 0 then [] else Flatten(m[..|m| - 1]) + m[|m| - 1]
  }

  ghost predicate RowsOfWidth(m: Matrix, w: nat) {
    forall i :: 0 <= i < |m| ==> |m[i]| == w
  }

  lemma RowOffset(i: nat, j: nat, w: nat, h: nat)
    requires i < h && j < w
    ensures i * w + j < h * w
  {
    MulLe(i + 1, h, w);
  }

  lemma MulSucc(h: nat, w: nat)
    ensures h * w + w == (h + 1) * w
  {
  }

  lemma {:induction false} FlattenLength(m: Matrix, w: nat)
    requires RowsOfWidth(m, w)
    ensures |Flatten(m)| == |m| * w
  {
    if |m| > 0 {
      FlattenLength(m[..|m| - 1], w);
      MulSucc(|m| - 1, w);
    }
  }

  /** Entry (i, j) of a matrix with rows of width w sits at place i * w + j
      of its flattening. */
  lemma {:induction false} FlattenAt(m: Matrix, w: nat, i: nat, j: nat)
    requires RowsOfWidth(m, w) && i < |m| && j < w
    ensures i * w + j < |Flatten(m)| && Flatten(m)[i * w + j] == m[i][j]
  {
    var h := |m| - 1;
    var init := m[..h];
    FlattenLength(m, w);
    FlattenLength(init, w);
    assert Flatten(m) == Flatten(init) + m[h];
    if i < h {
      FlattenAt(init, w, i, j);
      RowOffset(i, j, w, h);
      assert m[i] == init[i];
    }
  }

  lemma SquareSizes(a: nat, b: nat)
    requires a * a == b * b
    ensures a == b
  {
    if a < b {
      MulLe(a, b - 1, a);
      MulLe(a, b, b);
    } else if b < a {
      MulLe(b, a - 1, b);
      MulLe(b, a, a);
    }
  }

  /** Different square matrices have different flattenings, so the key
      identifies the matrix. */
  lemma FlattenInjective(a: Matrix, b: Matrix)
    requires IsSquare(a) && IsSquare(b)
    requires Flatten(a) == Flatten(b)
    ensures a == b
  {
    var n := |a|;
    assert n == |b| by {
      FlattenLength(a, |a|);
      FlattenLength(b, |b|);
      SquareSizes(|a|, |b|);
    }
    forall i, j | 0 <= i < n && 0 <= j < n
      ensures a[i][j] == b[i][j]
    {
      FlattenAt(a, n, i, j);
      FlattenAt(b, n, i, j);
    }
    MatrixExt(a, b);
  }

  // ----- eigenvalues of a diagonal matrix -----------------------------------

  predicate IsDiagonal(m: Matrix)
    requires IsSquare(m)
  {
    forall i, j :: 0 <= i < |m| && 0 <= j < |m| && i != j ==> m[i][j] == 0
  }

  function Diagonal(m: Matrix): (d: seq<int>)
    requires IsSquare(m)
    ensures |d| == |m|
  {
    seq(|m|, i requires 0 <= i < |m| => m[i][i])
  }

  /** Index p comes before index q: a smaller diagonal entry first, and equal
      entries in index order. */
  predicate Before(d: seq<int>, p: nat, q: nat)
    requires p < |d| && q < |d|
  {
    d[p] < d[q] || (d[p] == d[q] && p < q)
  }

  ghost predicate SortedBy(d: seq<int>, s: seq<nat>)
    requires AllBelow(s, |d|)
  {
    forall a, b :: 0 <= a < b < |s| ==> Before(d, s[a], s[b])
  }

  /** Inserts index k, larger than every index in s, after the indices whose
      entry is at most d[k]. */
  function Insert(d: seq<int>, k: nat, s: seq<nat>): (r: seq<nat>)
    requires k < |d| && AllBelow(s, k)
    ensures |r| == |s| + 1 && AllBelow(r, k + 1)
  {
    if |s| == 0 then [k]
    else if d[k] < d[s[0]] then [k] + s
    else [s[0]] + Insert(d, k, s[1..])
  }

  /** Inserting adds k and keeps every index already there. */
  lemma {:induction false} InsertMultiset(d: seq<int>, k: nat, s: seq<nat>)
    requires k < |d| && AllBelow(s, k)
    ensures multiset(Insert(d, k, s)) == multiset(s) + multiset{k}
  {
    if |s| > 0 && d[s[0]] <= d[k] {
      InsertMultiset(d, k, s[1..]);
      assert s == [s[0]] + s[1..];
    }
  }

  lemma {:induction false} InsertSorted(d: seq<int>, k: nat, s: seq<nat>)
    requires k < |d| && AllBelow(s, k) && SortedBy(d, s)
    ensures SortedBy(d, Insert(d, k, s))
  {
    if |s| > 0 && d[s[0]] <= d[k] {
      var tail := s[1..];
      InsertSorted(d, k, tail);
      var r := Insert(d, k, s);
      var rest := Insert(d, k, tail);
      assert r == [s[0]] + rest;
      forall b | 0 < b < |r|
        ensures Before(d, s[0], r[b])
      {
        assert r[b] == rest[b - 1];
        InsertMultiset(d, k, tail);
        assert rest[b - 1] in multiset(tail) + multiset{k};
        if rest[b - 1] != k {
          var c :| 0 <= c < |tail| && tail[c] == rest[b - 1];
          assert tail[c] == s[c + 1];
        }
      }
    }
  }

  lemma RangeMultiset(n: nat)
    ensures multiset(Range(n + 1)) == multiset(Range(n)) + multiset{n}
  {
    assert Range(n + 1) == Range(n) + [n];
  }

  /** The indices 0, ..., n - 1 in stable ascending order of their entries. */
  function SortIndices(d: seq<int>, n: nat): (r: seq<nat>)
    requires n <= |d|
    ensures |r| == n && AllBelow(r, n)
  {
    if n == 0 then [] else Insert(d, n - 1, SortIndices(d, n - 1))
  }

  /** The sorted indices are a permutation of 0, ..., n - 1. */
  lemma {:induction false} SortIndicesPermutation(d: seq<int>, n: nat)
    requires n <= |d|
    ensures multiset(SortIndices(d, n)) == multiset(Range(n))
  {
    if n > 0 {
      SortIndicesPermutation(d, n - 1);
      InsertMultiset(d, n - 1, SortIndices(d, n - 1));
      RangeMultiset(n - 1);
    }
  }

  lemma {:induction false} SortIndicesSorted(d: seq<int>, n: nat)
    requires n <= |d|
    ensures SortedBy(d, SortIndices(d, n))
  {
    if n > 0 {
      SortIndicesSorted(d, n - 1);
      InsertSorted(d, n - 1, SortIndices(d, n - 1));
    }
  }

  /** The entries of d read in the order of the indices p. */
  function Pick(d: seq<int>, p: seq<nat>): (r: seq<int>)
    requires AllBelow(p, |d|)
    ensures |r| == |p| && forall k :: 0 <= k < |p| ==> r[k] == d[p[k]]
  {
    seq(|p|, k requires 0 <= k < |p| => d[p[k]])
  }

  lemma PickConcat(d: seq<int>, a: seq<nat>, b: seq<nat>)
    requires AllBelow(a, |d|) && AllBelow(b, |d|)
    ensures AllBelow(a + b, |d|)
    ensures Pick(d, a + b) == Pick(d, a) + Pick(d, b)
  {
    assert AllBelow(a + b, |d|) by {
      forall k | 0 <= k < |a + b| ensures (a + b)[k] < |d| {
        if k >= |a| {
          assert (a + b)[k] == b[k - |a|];
        }
      }
    }
  }

  /** Removing one index from the reading order removes its entry. */
  lemma PickRemove(d: seq<int>, b: seq<nat>, c: seq<nat>, x: nat)
    requires AllBelow(b + [x] + c, |d|)
    ensures AllBelow(b + c, |d|) && x < |d|
    ensures multiset(Pick(d, b + [x] + c)) == multiset(Pick(d, b + c)) + multiset{d[x]}
  {
    var q := b + [x] + c;
    assert AllBelow(b, |d|) && AllBelow(c, |d|) && x < |d| by {
      assert forall k :: 0 <= k < |b| ==> b[k] == q[k];
      assert forall k :: 0 <= k < |c| ==> c[k] == q[|b| + 1 + k];
      assert q[|b|] == x;
    }
    PickConcat(d, b, c);
    PickConcat(d, b, [x]);
    PickConcat(d, b + [x], c);
    assert Pick(d, [x]) == [d[x]];
  }

  /** Reading d through two orderings of the same indices gives the same
      multiset of entries. */
  lemma {:induction false} PickPermutation(d: seq<int>, p: seq<nat>, q: seq<nat>)
    requires AllBelow(p, |d|) && AllBelow(q, |d|)
    requires multiset(p) == multiset(q)
    ensures multiset(Pick(d, p)) == multiset(Pick(d, q))
  {
    if |p| == 0 {
      assert |q| == |multiset(q)| == 0;
    } else {
      var init, x := p[..|p| - 1], p[|p| - 1];
      assert p == init + [x];
      assert x in multiset(q);
      var i :| 0 <= i < |q| && q[i] == x;
      var q1, q2 := q[..i], q[i + 1..];
      SplitAround(q, i);
      MultisetCancel(init, q1, q2, x);
      PickRemove(d, q1, q2, x);
      PickRemove(d, init, [], x);
      assert init + [x] + [] == p && init + [] == init;
      PickPermutation(d, init, q1 + q2);
    }
  }

  // ----- the decomposition --------------------------------------------------

  /** Eigenvalues, and the matrix whose column k is an eigenvector for
      eigenvalue k. */
  datatype EigenPair = EigenPair(eigval: seq<int>, eigvec: Matrix)

  /** The basis vectors of the indices p, as the columns of a matrix. */
  function BasisColumns(p: seq<nat>): (v: Matrix)
    ensures |v| == |p| && IsSquare(v)
  {
    var n := |p|;
    seq(n, i requires 0 <= i < n => seq(n, k requires 0 <= k < n => if i == p[k] then 1 else 0))
  }

  /** The decomposition of a diagonal matrix in the convention the Sum tests
      expect: the diagonal entries in ascending order, equal entries in index
      order, and the matching standard basis vectors as columns. */
  function DiagonalEigen(m: Matrix): (e: EigenPair)
    requires IsSquare(m) && IsDiagonal(m)
    ensures |e.eigval| == |m| && |e.eigvec| == |m| && IsSquare(e.eigvec)
  {
    var p := SortIndices(Diagonal(m), |m|);
    EigenPair(Pick(Diagonal(m), p), BasisColumns(p))
  }

  function Dot(u: seq<int>, v: seq<int>): int
    requires |u| == |v|
  {
    if |u| == 0 then 0 else Dot(u[..|u| - 1], v[..|v| - 1]) + u[|u| - 1] * v[|v| - 1]
  }

  function Column(m: Matrix, k: nat): (c: seq<int>)
    requires IsSquare(m) && k < |m|
    ensures |c| == |m|
  {
    seq(|m|, i requires 0 <= i < |m| => m[i][k])
  }

  lemma {:induction false} DotZero(u: seq<int>, v: seq<int>)
    requires |u| == |v|
    requires forall j :: 0 <= j < |u| ==> u[j] == 0
    ensures Dot(u, v) == 0
  {
    if |u| > 0 {
      DotZero(u[..|u| - 1], v[..|v| - 1]);
    }
  }

  /** A vector with one non-zero entry picks out one term of the product. */
  lemma {:induction false} DotSingle(u: seq<int>, v: seq<int>, i: nat)
    requires |u| == |v| && i < |u|
    requires forall j :: 0 <= j < |u| && j != i ==> u[j] == 0
    ensures Dot(u, v) == u[i] * v[i]
  {
    var h := |u| - 1;
    if i < h {
      DotSingle(u[..h], v[..h], i);
    } else {
      DotZero(u[..h], v[..h]);
    }
  }

  /** The eigenvalues are ascending and are the diagonal entries with their
      multiplicities. The order among equal eigenvalues, by index, is stated
      by DiagonalEigenBasis. */
  lemma DiagonalEigenvalues(m: Matrix)
    requires IsSquare(m) && IsDiagonal(m)
    ensures var e := DiagonalEigen(m);
            && (forall a, b :: 0 <= a <= b < |m| ==> e.eigval[a] <= e.eigval[b])
            && multiset(e.eigval) == multiset(Diagonal(m))
  {
    var d := Diagonal(m);
    var p := SortIndices(d, |m|);
    SortIndicesSorted(d, |m|);
    SortIndicesPermutation(d, |m|);
    PickPermutation(d, p, Range(|m|));
    assert Pick(d, Range(|m|)) == d;
  }

  lemma EigenColumn(m: Matrix, k: nat, i: nat)
    requires IsSquare(m) && IsDiagonal(m) && k < |m| && i < |m|
    ensures var e := DiagonalEigen(m);
            Dot(m[i], Column(e.eigvec, k)) == e.eigval[k] * e.eigvec[i][k]
  {
    var e := DiagonalEigen(m);
    var p := SortIndices(Diagonal(m), |m|);
    var col := Column(e.eigvec, k);
    DotSingle(m[i], col, i);
    assert e.eigval[k] == m[p[k]][p[k]];
    if i == p[k] {
      assert col[i] == 1 == e.eigvec[i][k];
    } else {
      assert col[i] == 0 == e.eigvec[i][k];
    }
  }

  /** Each column of the eigenvector matrix is an eigenvector: the matrix
      times column k is eigenvalue k times column k; and the columns are
      orthonormal, so none of them is zero and no two coincide. */
  lemma DiagonalEigenvectors(m: Matrix)
    requires IsSquare(m) && IsDiagonal(m)
    ensures var e := DiagonalEigen(m);
            forall k, i :: 0 <= k < |m| && 0 <= i < |m| ==>
              Dot(m[i], Column(e.eigvec, k)) == e.eigval[k] * e.eigvec[i][k]
    ensures var v := DiagonalEigen(m).eigvec;
            forall k, l :: 0 <= k < |m| && 0 <= l < |m| ==>
              Dot(Column(v, k), Column(v, l)) == if k == l then 1 else 0
  {
    EigenvectorsOrthonormal(m);
    forall k, i | 0 <= k < |m| && 0 <= i < |m|
      ensures Dot(m[i], Column(DiagonalEigen(m).eigvec, k)) == DiagonalEigen(m).eigval[k] * DiagonalEigen(m).eigvec[i][k]
    {
      EigenColumn(m, k, i);
    }
  }

  /** The eigenvector matrix holds distinct standard basis vectors: column k
      is the basis vector of index p[k], where p lists every index exactly
      once, column k belongs to the diagonal entry at p[k], and equal
      eigenvalues take their basis vectors in index order. */
  lemma DiagonalEigenBasis(m: Matrix)
    requires IsSquare(m) && IsDiagonal(m)
    ensures var e, p := DiagonalEigen(m), SortIndices(Diagonal(m), |m|);
            && multiset(p) == multiset(Range(|m|))
            && (forall k, l :: 0 <= k < l < |m| ==> p[k] != p[l])
            && e.eigvec == BasisColumns(p)
            && (forall k :: 0 <= k < |m| ==> e.eigval[k] == m[p[k]][p[k]])
            && (forall k, l :: 0 <= k < l < |m| && e.eigval[k] == e.eigval[l] ==> p[k] < p[l])
  {
    var d := Diagonal(m);
    SortIndicesPermutation(d, |m|);
    SortIndicesSorted(d, |m|);
  }

  /** The eigenvector columns are orthonormal: the transpose of the
      eigenvector matrix times the matrix is the identity. */
  lemma EigenvectorsOrthonormal(m: Matrix)
    requires IsSquare(m) && IsDiagonal(m)
    ensures var v := DiagonalEigen(m).eigvec;
            forall k, l :: 0 <= k < |m| && 0 <= l < |m| ==>
              Dot(Column(v, k), Column(v, l)) == if k == l then 1 else 0
  {
    var v := DiagonalEigen(m).eigvec;
    var p := SortIndices(Diagonal(m), |m|);
    DiagonalEigenBasis(m);
    forall k, l | 0 <= k < |m| && 0 <= l < |m|
      ensures Dot(Column(v, k), Column(v, l)) == if k == l then 1 else 0
    {
      var ck, cl := Column(v, k), Column(v, l);
      DotSingle(ck, cl, p[k]);
      assert ck[p[k]] == 1;
      assert cl[p[k]] == if k == l then 1 else 0;
    }
  }

  lemma SortTwoTwoZeroZero()
    ensures SortIndices([2, 2, 0, 0], 4) == [2, 3, 0, 1]
  {
    var d := [2, 2, 0, 0];
    assert SortIndices(d, 0) == [];
    assert SortIndices(d, 1) == Insert(d, 0, []) == [0];
    assert Insert(d, 1, [0]) == [0] + Insert(d, 1, []) == [0, 1];
    assert SortIndices(d, 2) == [0, 1];
    assert SortIndices(d, 3) == Insert(d, 2, [0, 1]) == [2, 0, 1];
    assert Insert(d, 3, [0, 1]) == [3, 0, 1];
    assert Insert(d, 3, [2, 0, 1]) == [2] + Insert(d, 3, [0, 1]);
  }

  lemma FlattenFourByFour(m: Matrix)
    requires |m| == 4
    ensures Flatten(m) == m[0] + m[1] + m[2] + m[3]
  {
    assert m[..1][..0] == [];
    assert Flatten(m[..1]) == m[0];
    assert m[..2][..1] == m[..1];
    assert Flatten(m[..2]) == m[0] + m[1];
    assert m[..3][..2] == m[..2];
    assert Flatten(m[..3]) == m[0] + m[1] + m[2];
    assert Flatten(m) == Flatten(m[..3]) + m[3];
  }

  lemma BasisColumnsTwoThreeZeroOne()
    ensures BasisColumns([2, 3, 0, 1]) == [[0, 0, 1, 0], [0, 0, 0, 1], [1, 0, 0, 0], [0, 1, 0, 0]]
  {
    var p := [2, 3, 0, 1];
    var v: Matrix := [[0, 0, 1, 0], [0, 0, 0, 1], [1, 0, 0, 0], [0, 1, 0, 0]];
    forall i, k | 0 <= i < 4 && 0 <= k < 4
      ensures BasisColumns(p)[i][k] == v[i][k]
    {
    }
    MatrixExt(BasisColumns(p), v);
  }

  /** diag(2, 2, 0, 0): eigenvalues 0, 0, 2, 2; the eigenvectors are the
      basis vectors 2, 3, 0, 1, equal eigenvalues in index order. */
  lemma DiagTwoTwoZeroZero()
    ensures var m: Matrix := [[2, 0, 0, 0], [0, 2, 0, 0], [0, 0, 0, 0], [0, 0, 0, 0]];
            && IsSquare(m) && IsDiagonal(m)
            && Flatten(m) == [2, 0, 0, 0, 0, 2, 0, 0, 0, 0, 0, 0, 0, 0, 0, 0]
            && DiagonalEigen(m) == EigenPair([0, 0, 2, 2],
                 [[0, 0, 1, 0], [0, 0, 0, 1], [1, 0, 0, 0], [0, 1, 0, 0]])
  {
    var m: Matrix := [[2, 0, 0, 0], [0, 2, 0, 0], [0, 0, 0, 0], [0, 0, 0, 0]];
    var d := Diagonal(m);
    assert d == [2, 2, 0, 0];
    SortTwoTwoZeroZero();
    var p := [2, 3, 0, 1];
    assert Pick(d, p) == [0, 0, 2, 2];
    BasisColumnsTwoThreeZeroOne();
    FlattenFourByFour(m);
  }

  // ----- the cache ----------------------------------------------------------

  /** Eigendecompositions by the flattening of the matrix they belong to.
      Entries are added and never removed or replaced. */
  type Cache = map<seq<int>, EigenPair>

  datatype EigenError =
    | MatrixFailed(cause: MatrixError)  // the Sum has no matrix
    | NotDiagonal                      // outside this model: a non-diagonal matrix on a cache miss

  /** Every entry is the decomposition of the matrix whose flattening is its
      key. */
  ghost predicate CacheSound(c: Cache) {
    forall m: Matrix :: IsSquare(m) && Flatten(m) in c ==> IsDiagonal(m) && c[Flatten(m)] == DiagonalEigen(m)
  }

  /** Sum.eigendecomposition: look the Sum's matrix up by its flattening and
      decompose and store it on a miss. Returns the decomposition and the
      cache afterwards. */
  function Eigendecomposition(s: Sum, cache: Cache): (r: Result<(EigenPair, Cache), EigenError>)
    requires AllWellFormed(s.summands)
    ensures SumMatrix(s, None).Err? ==> r == Err(MatrixFailed(SumMatrix(s, None).error))
    ensures r.Ok? ==> SumMatrix(s, None).Ok?
    ensures r.Ok? ==> var key := Flatten(SumMatrix(s, None).value);
                      && key in r.value.1 && r.value.1[key] == r.value.0
                      && r.value.1.Keys == cache.Keys + {key}
                      && (forall k :: k in cache ==> r.value.1[k] == cache[k])
  {
    var mr := SumMatrix(s, None);
    if mr.Err? then Err(MatrixFailed(mr.error))
    else
      var key := Flatten(mr.value);
      if key in cache then Ok((cache[key], cache))
      else if !IsDiagonal(mr.value) then Err(NotDiagonal)
      else
        var e := DiagonalEigen(mr.value);
        Ok((e, cache[key := e]))
  }

  /** With a sound cache the result is the decomposition of the Sum's matrix
      whether it was a hit or a miss, the cache stays sound, and only
      non-diagonal matrices fail. */
  lemma EigendecompositionSound(s: Sum, cache: Cache)
    requires AllWellFormed(s.summands) && CacheSound(cache)
    ensures var r := Eigendecomposition(s, cache);
            SumMatrix(s, None).Ok? ==>
              var m := SumMatrix(s, None).value;
              && (r.Ok? <==> IsDiagonal(m))
              && (r.Ok? ==> r.value.0 == DiagonalEigen(m) && CacheSound(r.value.1))
  {
    var r := Eigendecomposition(s, cache);
    if SumMatrix(s, None).Ok? {
      var m := SumMatrix(s, None).value;
      var key := Flatten(m);
      if r.Ok? && key !in cache {
        var c := r.value.1;
        forall m': Matrix | IsSquare(m') && Flatten(m') in c
          ensures IsDiagonal(m') && c[Flatten(m')] == DiagonalEigen(m')
        {
          if Flatten(m') == key {
            FlattenInjective(m', m);
          }
        }
      }
    }
  }

  /** A second request for a Sum with the same matrix, made with the cache
      the first one left, is a hit: same decomposition, cache unchanged. */
  lemma EigendecompositionCached(s1: Sum, s2: Sum, cache: Cache)
    requires AllWellFormed(s1.summands) && AllWellFormed(s2.summands)
    requires SumMatrix(s1, None) == SumMatrix(s2, None)
    requires Eigendecomposition(s1, cache).Ok?
    ensures var first := Eigendecomposition(s1, cache).value;
            Eigendecomposition(s2, first.1) == Ok(first)
  {
  }
}
