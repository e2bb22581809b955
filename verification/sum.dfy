/** The symbolic Sum operator: an ordered list of summand operators whose
    wires, parameters, hermiticity and matrix are derived from the summands. */
module SumOp {
  import opened Results
  import opened Arith
  import opened Bits
  import opened Matrices
  import opened Embedding
  import opened WireLists
  import opened Seqs

  /** What the Sum needs of an operator: its wires, its parameters, its
      hermiticity flag and, unless it is a contract-only gate such as Barrier
      or WireCut, its matrix over its own wires. */
  datatype Operator = Operator(
    name: string,
    wires: seq<Wire>,
    params: seq<real>,
    hermitian: bool,
    mat: Option<Matrix>)

  /** An operator's wires are distinct and its matrix, when it has one,
      acts on exactly those wires. */
  ghost predicate WellFormed(op: Operator) {
    && NoDups(op.wires)
    && (op.mat.Some? ==> IsSquare(op.mat.value) && |op.mat.value| == Pow2(|op.wires|))
  }

  ghost predicate AllWellFormed(ops: seq<Operator>) {
    forall k :: 0 <= k < |ops| ==> WellFormed(ops[k])
  }

  datatype Sum = Sum(summands: seq<Operator>, id: Option<string>, doQueue: bool)

  datatype SumError = NoSummands

  datatype MatrixError =
    | MatrixUndefined(opName: string)  // a summand has no matrix representation
    | WireOrderInvalid                 // the wire order repeats a wire or misses a summand's wire

  /** Building a Sum: at least one summand is needed. */
  function NewSum(summands: seq<Operator>, id: Option<string>, doQueue: bool): (r: Result<Sum, SumError>)
    ensures r.Ok? <==> |summands| > 0
    ensures r.Ok? ==> r.value.summands == summands && r.value.id == id && r.value.doQueue == doQueue
  {
    if |summands| == 0 then Err(NoSummands) else Ok(Sum(summands, id, doQueue))
  }

  /** The functional spelling `op_sum` of the constructor. */
  function OpSum(summands: seq<Operator>, id: Option<string>, doQueue: bool): Result<Sum, SumError> {
    NewSum(summands, id, doQueue)
  }

  // ----- wires ---------------------------------------------------------------

  /** All summand wires, summand by summand, repetitions included. */
  function AllWires(ops: seq<Operator>): (r: seq<Wire>)
    ensures forall k, i :: 0 <= k < |ops| && 0 <= i < |ops[k].wires| ==> ops[k].wires[i] in r
    ensures forall x :: x in r ==> exists k :: 0 <= k < |ops| && x in ops[k].wires
  {
    if |ops| == 0 then [] else ops[0].wires + AllWires(ops[1..])
  }

  /** The Sum's wires: the union of the summands' wires, in first-occurrence order. */
  function Wires(s: Sum): seq<Wire> {
    Dedup(AllWires(s.summands))
  }

  /** The Sum's wires are every summand wire once, in the order in which
      they first occur when the summands' wires are read left to right. */
  lemma WiresFirstOccurrence(s: Sum)
    ensures var w, all := Wires(s), AllWires(s.summands);
            && NoDups(w)
            && (forall x :: x in w <==> x in all)
            && (forall i, j :: 0 <= i < j < |w| ==> IndexOf(all, w[i]) < IndexOf(all, w[j]))
  {
    var all := AllWires(s.summands);
    DedupFirstOccurrence(all);
    assert Wires(s) == Dedup(all);
  }

  function NumWires(s: Sum): nat {
    |Wires(s)|
  }

  /** The set union of the summands' wire sets, accumulated summand by summand. */
  ghost function WireUnion(ops: seq<Operator>): set<Wire> {
    if |ops| == 0 then {} else ToSet(ops[0].wires) + WireUnion(ops[1..])
  }

  lemma {:induction false} AllWiresSet(ops: seq<Operator>)
    ensures ToSet(AllWires(ops)) == WireUnion(ops)
  {
    if |ops| > 0 {
      AllWiresSet(ops[1..]);
      assert ToSet(ops[0].wires + AllWires(ops[1..])) == ToSet(ops[0].wires) + ToSet(AllWires(ops[1..]));
    }
  }

  /** num_wires is the size of the union of the summands' wire sets. */
  lemma NumWiresIsUnionSize(s: Sum)
    ensures NumWires(s) == |WireUnion(s.summands)|
  {
    DedupCard(AllWires(s.summands));
    AllWiresSet(s.summands);
  }

  // ----- parameters ----------------------------------------------------------

  /** The Sum's parameters: the summands' parameters, concatenated in order. */
  function Parameters(s: Sum): seq<real> {
    ConcatParams(s.summands)
  }

  function ConcatParams(ops: seq<Operator>): seq<real> {
    if |ops| == 0 then [] else ops[0].params + ConcatParams(ops[1..])
  }

  function NumParams(s: Sum): nat {
    |Parameters(s)|
  }

  /** The summands' parameter counts, added up summand by summand. */
  function TotalParamCount(ops: seq<Operator>): nat {
    if |ops| == 0 then 0 else |ops[0].params| + TotalParamCount(ops[1..])
  }

  lemma {:induction false} ConcatParamsLength(ops: seq<Operator>)
    ensures |ConcatParams(ops)| == TotalParamCount(ops)
  {
    if |ops| > 0 {
      ConcatParamsLength(ops[1..]);
    }
  }

  /** num_params is the sum of the summands' num_params. */
  lemma NumParamsIsSum(s: Sum)
    ensures NumParams(s) == TotalParamCount(s.summands)
  {
    ConcatParamsLength(s.summands);
  }

  // ----- hermiticity and queueing -------------------------------------------

  /** The logical AND of the summands' hermiticity flags, left to right. */
  function AllHermitian(ops: seq<Operator>): (r: bool)
    ensures r <==> forall k :: 0 <= k < |ops| ==> ops[k].hermitian
  {
    if |ops| == 0 then true else ops[0].hermitian && AllHermitian(ops[1..])
  }

  function IsHermitian(s: Sum): (r: bool)
    ensures r <==> forall k :: 0 <= k < |s.summands| ==> s.summands[k].hermitian
  {
    AllHermitian(s.summands)
  }

  /** A Sum is queued neither as an operation nor as an observable. */
  function QueueCategory(s: Sum): (r: Option<string>)
    ensures r == None
  {
    None
  }

  // ----- matrix --------------------------------------------------------------

  /** A summand can be placed into the order: it has a matrix, and the order
      holds all its wires. */
  predicate Embeds(op: Operator, order: seq<Wire>) {
    op.mat.Some? && forall i :: 0 <= i < |op.wires| ==> op.wires[i] in order
  }

  /** A summand's matrix acting on its wires' places in the wire order, with
      identity on every other wire. */
  function EmbedSummand(op: Operator, order: seq<Wire>): (r: Result<Matrix, MatrixError>)
    requires WellFormed(op)
    ensures r.Ok? ==> IsSquare(r.value) && |r.value| == Pow2(|order|)
    ensures r.Ok? <==> op.mat.Some? && forall i :: 0 <= i < |op.wires| ==> op.wires[i] in order
    ensures op.mat.None? ==> r == Err(MatrixUndefined(op.name))
  {
    if op.mat.None? then Err(MatrixUndefined(op.name))
    else if !Embeds(op, order) then Err(WireOrderInvalid)
    else Ok(Embed(op.mat.value, Positions(op.wires, order), |order|))
  }

  /** The embedded summand matrices added element-wise, left to right; the
      first summand that cannot be embedded decides the error. */
  function EmbeddedSum(ops: seq<Operator>, order: seq<Wire>): (r: Result<Matrix, MatrixError>)
    requires AllWellFormed(ops)
    ensures r.Ok? ==> IsSquare(r.value) && |r.value| == Pow2(|order|)
    ensures r.Ok? <==> forall k :: 0 <= k < |ops| ==> EmbedSummand(ops[k], order).Ok?
    ensures r.Err? ==> exists k :: 0 <= k < |ops| && EmbedSummand(ops[k], order) == Err(r.error)
                                  && forall j :: 0 <= j < k ==> EmbedSummand(ops[j], order).Ok?
  {
    if |ops| == 0 then Ok(Zero(Pow2(|order|)))
    else
      var init := ops[..|ops| - 1];
      var acc :- EmbeddedSum(init, order);
      var e :- EmbedSummand(ops[|ops| - 1], order);
      Ok(Add(acc, e))
  }

  /** Entry (r, c) of a summand placed into the order. */
  function SummandEntry(op: Operator, order: seq<Wire>, r: nat, c: nat): int
    requires WellFormed(op) && Embeds(op, order)
  {
    EmbedEntry(op.mat.value, Positions(op.wires, order), |order|, r, c)
  }

  /** Entry (r, c) of every summand placed into the order, added up. */
  function EntrySum(ops: seq<Operator>, order: seq<Wire>, r: nat, c: nat): int
    requires AllWellFormed(ops) && forall k :: 0 <= k < |ops| ==> Embeds(ops[k], order)
  {
    if |ops| == 0 then 0
    else EntrySum(ops[..|ops| - 1], order, r, c) + SummandEntry(ops[|ops| - 1], order, r, c)
  }

  /** The sum of the embedded summands, entry by entry: every summand embeds,
      and entry (r, c) of the sum is the sum of their entries (r, c). */
  lemma {:induction false} EmbeddedSumEntries(ops: seq<Operator>, order: seq<Wire>)
    requires AllWellFormed(ops) && EmbeddedSum(ops, order).Ok?
    ensures forall k :: 0 <= k < |ops| ==> Embeds(ops[k], order)
    ensures forall r, c :: 0 <= r < Pow2(|order|) && 0 <= c < Pow2(|order|) ==>
              EmbeddedSum(ops, order).value[r][c] == EntrySum(ops, order, r, c)
  {
    var n := Pow2(|order|);
    if |ops| > 0 {
      var init, last := ops[..|ops| - 1], ops[|ops| - 1];
      assert EmbeddedSum(init, order).Ok?;
      EmbeddedSumEntries(init, order);
      var acc, e := EmbeddedSum(init, order).value, EmbedSummand(last, order).value;
      assert EmbeddedSum(ops, order).value == Add(acc, e);
      forall r, c | 0 <= r < n && 0 <= c < n
        ensures EmbeddedSum(ops, order).value[r][c] == EntrySum(ops, order, r, c)
      {
        assert e[r][c] == SummandEntry(last, order, r, c);
      }
    }
  }

  /** The wire order matrix() works in: the given one, or else the Sum's
      own wires. */
  function ChosenOrder(s: Sum, wireOrder: Option<seq<Wire>>): seq<Wire> {
    if wireOrder.Some? then wireOrder.value else Wires(s)
  }

  /** Sum.matrix(wire_order) in the chosen order. */
  function SumMatrix(s: Sum, wireOrder: Option<seq<Wire>>): (r: Result<Matrix, MatrixError>)
    requires AllWellFormed(s.summands)
    ensures r.Ok? ==> IsSquare(r.value)
    ensures r.Ok? && wireOrder.Some? ==> |r.value| == Pow2(|wireOrder.value|)
    ensures r.Ok? && wireOrder.None? ==> |r.value| == Pow2(NumWires(s))
  {
    var order := ChosenOrder(s, wireOrder);
    if !NoDups(order) then Err(WireOrderInvalid) else EmbeddedSum(s.summands, order)
  }

  /** Sum.matrix(wire_order) entry by entry: it exists exactly when the
      chosen order repeats no wire and every summand has a matrix on wires
      of the order; an order that repeats a wire fails with WireOrderInvalid;
      and entry (i, j) is the sum of the summands' embedded entries (i, j). */
  lemma SumMatrixEntries(s: Sum, wireOrder: Option<seq<Wire>>)
    requires AllWellFormed(s.summands)
    ensures var order, r := ChosenOrder(s, wireOrder), SumMatrix(s, wireOrder);
            && (r.Ok? <==> NoDups(order) && forall k :: 0 <= k < |s.summands| ==> Embeds(s.summands[k], order))
            && (!NoDups(order) ==> r == Err(WireOrderInvalid))
            && (r.Ok? ==> forall i, j :: 0 <= i < Pow2(|order|) && 0 <= j < Pow2(|order|) ==>
                             r.value[i][j] == EntrySum(s.summands, order, i, j))
  {
    if SumMatrix(s, wireOrder).Ok? {
      EmbeddedSumEntries(s.summands, ChosenOrder(s, wireOrder));
    }
  }

  /** With the Sum's own wire order, the matrix is the sum of the summands
      embedded into that order. */
  lemma SumMatrixOwnOrder(s: Sum, order: seq<Wire>)
    requires AllWellFormed(s.summands)
    requires Wires(s) == order
    ensures NoDups(order)
    ensures SumMatrix(s, None) == EmbeddedSum(s.summands, order)
  {
  }

  /** Every summand's wires occur in the Sum's own wire order, so with that
      order a summand embeds exactly when it has a matrix. */
  lemma OwnOrderEmbeds(s: Sum)
    requires AllWellFormed(s.summands)
    ensures forall k :: 0 <= k < |s.summands| ==>
              (EmbedSummand(s.summands[k], Wires(s)).Ok? <==> s.summands[k].mat.Some?)
  {
    var ops := s.summands;
    forall k | 0 <= k < |ops|
      ensures EmbedSummand(ops[k], Wires(s)).Ok? <==> ops[k].mat.Some?
    {
      assert forall i :: 0 <= i < |ops[k].wires| ==> ops[k].wires[i] in AllWires(ops);
    }
  }

  /** With the Sum's own wire order, the matrix is undefined exactly when some
      summand has no matrix, and the error names the first such summand. */
  lemma SumMatrixUndefined(s: Sum)
    requires AllWellFormed(s.summands)
    ensures SumMatrix(s, None).Err? <==> exists k :: 0 <= k < |s.summands| && s.summands[k].mat.None?
    ensures forall k :: 0 <= k < |s.summands| && s.summands[k].mat.None?
                        && (forall j :: 0 <= j < k ==> s.summands[j].mat.Some?)
                        ==> SumMatrix(s, None) == Err(MatrixUndefined(s.summands[k].name))
  {
    var order := Wires(s);
    var ops := s.summands;
    OwnOrderEmbeds(s);
    SumMatrixOwnOrder(s, order);
    forall k | 0 <= k < |ops| && ops[k].mat.None? && (forall j :: 0 <= j < k ==> ops[j].mat.Some?)
      ensures EmbeddedSum(ops, order) == Err(MatrixUndefined(ops[k].name))
    {
      var r := EmbeddedSum(ops, order);
      var k' :| 0 <= k' < |ops| && EmbedSummand(ops[k'], order) == Err(r.error)
                && forall j :: 0 <= j < k' ==> EmbedSummand(ops[j], order).Ok?;
      assert ops[k'].mat.None?;
      assert EmbedSummand(ops[k], order).Err?;
    }
  }

  /** Summing two lists of summands is adding their sums. */
  lemma {:induction false} EmbeddedSumAppend(a: seq<Operator>, b: seq<Operator>, order: seq<Wire>)
    requires AllWellFormed(a) && AllWellFormed(b)
    requires EmbeddedSum(a, order).Ok? && EmbeddedSum(b, order).Ok?
    ensures AllWellFormed(a + b)
    ensures EmbeddedSum(a + b, order) == Ok(Add(EmbeddedSum(a, order).value, EmbeddedSum(b, order).value))
  {
    var sa := EmbeddedSum(a, order).value;
    if |b| == 0 {
      assert a + b == a;
      MatrixExt(Add(sa, Zero(|sa|)), sa);
    } else {
      var binit := b[..|b| - 1];
      var last := b[|b| - 1];
      assert EmbedSummand(last, order).Ok?;
      EmbeddedSumAppend(a, binit, order);
      assert (a + b)[..|a + b| - 1] == a + binit;
      assert (a + b)[|a + b| - 1] == last;
      var sb := EmbeddedSum(binit, order).value;
      var e := EmbedSummand(last, order).value;
      AddAssoc(sa, sb, e);
    }
  }

  /** A concatenation of summand lists embeds exactly when both parts do. */
  lemma EmbeddedSumConcatOk(a: seq<Operator>, b: seq<Operator>, order: seq<Wire>)
    requires AllWellFormed(a) && AllWellFormed(b)
    ensures AllWellFormed(a + b)
    ensures EmbeddedSum(a + b, order).Ok? <==> EmbeddedSum(a, order).Ok? && EmbeddedSum(b, order).Ok?
  {
    var ab := a + b;
    assert forall k :: 0 <= k < |a| ==> ab[k] == a[k];
    assert forall k :: 0 <= k < |b| ==> ab[|a| + k] == b[k];
    if EmbeddedSum(a, order).Ok? && EmbeddedSum(b, order).Ok? {
      forall k | 0 <= k < |ab| ensures EmbedSummand(ab[k], order).Ok? {
        if k >= |a| {
          assert ab[k] == b[k - |a|];
        }
      }
    }
  }

  /** The order in which the summands are listed does not change the matrix. */
  lemma SummandOrderIrrelevant(a: seq<Operator>, b: seq<Operator>, order: seq<Wire>)
    requires AllWellFormed(a) && AllWellFormed(b)
    ensures AllWellFormed(a + b) && AllWellFormed(b + a)
    ensures EmbeddedSum(a + b, order).Ok? <==> EmbeddedSum(b + a, order).Ok?
    ensures EmbeddedSum(a + b, order).Ok? ==> EmbeddedSum(a + b, order) == EmbeddedSum(b + a, order)
  {
    EmbeddedSumConcatOk(a, b, order);
    EmbeddedSumConcatOk(b, a, order);
    if EmbeddedSum(a, order).Ok? && EmbeddedSum(b, order).Ok? {
      EmbeddedSumAppend(a, b, order);
      EmbeddedSumAppend(b, a, order);
      AddComm(EmbeddedSum(a, order).value, EmbeddedSum(b, order).value);
    }
  }

  /** Two lists holding the same summands, with the same multiplicities,
      embed together: whether a list embeds depends only on its members. */
  lemma SameSummandsOk(a: seq<Operator>, b: seq<Operator>, order: seq<Wire>)
    requires AllWellFormed(a) && multiset(a) == multiset(b)
    ensures AllWellFormed(b)
    ensures EmbeddedSum(a, order).Ok? <==> EmbeddedSum(b, order).Ok?
  {
    forall k | 0 <= k < |b|
      ensures exists j :: 0 <= j < |a| && a[j] == b[k]
    {
      assert b[k] in multiset(a);
    }
    forall k | 0 <= k < |a|
      ensures exists j :: 0 <= j < |b| && b[j] == a[k]
    {
      assert a[k] in multiset(b);
    }
  }

  /** One summand before a list or after it gives the same matrix. */
  lemma SwapSingle(x: Operator, b: seq<Operator>, order: seq<Wire>)
    requires WellFormed(x) && AllWellFormed(b)
    requires EmbedSummand(x, order).Ok? && EmbeddedSum(b, order).Ok?
    ensures AllWellFormed([x] + b) && AllWellFormed(b + [x])
    ensures EmbeddedSum([x] + b, order).Ok? && EmbeddedSum(b + [x], order).Ok?
    ensures EmbeddedSum([x] + b, order) == EmbeddedSum(b + [x], order)
  {
    assert EmbeddedSum([x], order).Ok? by {
      assert [x][..0] == [];
    }
    EmbeddedSumConcatOk([x], b, order);
    EmbeddedSumConcatOk(b, [x], order);
    SummandOrderIrrelevant([x], b, order);
  }

  /** Replacing the tail of a summand list by one with the same matrix
      keeps the matrix of the whole list. */
  lemma AppendSameMatrix(a: seq<Operator>, l: seq<Operator>, r: seq<Operator>, order: seq<Wire>)
    requires AllWellFormed(a) && AllWellFormed(l) && AllWellFormed(r)
    requires EmbeddedSum(a, order).Ok? && EmbeddedSum(l, order).Ok?
    requires EmbeddedSum(l, order) == EmbeddedSum(r, order)
    ensures AllWellFormed(a + l) && AllWellFormed(a + r)
    ensures EmbeddedSum(a + l, order) == EmbeddedSum(a + r, order)
  {
    EmbeddedSumAppend(a, l, order);
    EmbeddedSumAppend(a, r, order);
  }

  /** Moving one summand to the end of the list keeps the matrix. */
  lemma MoveToEnd(b1: seq<Operator>, x: Operator, b2: seq<Operator>, order: seq<Wire>)
    requires AllWellFormed(b1) && WellFormed(x) && AllWellFormed(b2)
    requires EmbeddedSum(b1, order).Ok? && EmbedSummand(x, order).Ok? && EmbeddedSum(b2, order).Ok?
    ensures AllWellFormed(b1 + [x] + b2) && AllWellFormed(b1 + b2 + [x])
    ensures EmbeddedSum(b1 + [x] + b2, order) == EmbeddedSum(b1 + b2 + [x], order)
  {
    SwapSingle(x, b2, order);
    AppendSameMatrix(b1, [x] + b2, b2 + [x], order);
    ConcatAssoc(b1, [x], b2);
    ConcatAssoc(b1, b2, [x]);
  }

  /** Every slice of a list with a matrix has a matrix. */
  lemma SliceOk(c: seq<Operator>, lo: nat, hi: nat, order: seq<Wire>)
    requires AllWellFormed(c) && EmbeddedSum(c, order).Ok? && lo <= hi <= |c|
    ensures AllWellFormed(c[lo..hi]) && EmbeddedSum(c[lo..hi], order).Ok?
  {
    assert forall k :: 0 <= k < hi - lo ==> c[lo..hi][k] == c[lo + k];
  }

  /** A list with a matrix splits around any one of its summands into
      parts that have matrices too. */
  lemma SplitOk(b1: seq<Operator>, x: Operator, b2: seq<Operator>, order: seq<Wire>)
    requires AllWellFormed(b1 + [x] + b2) && EmbeddedSum(b1 + [x] + b2, order).Ok?
    ensures AllWellFormed(b1) && WellFormed(x) && AllWellFormed(b2)
    ensures EmbeddedSum(b1, order).Ok? && EmbedSummand(x, order).Ok? && EmbeddedSum(b2, order).Ok?
  {
    var c := b1 + [x] + b2;
    SliceOk(c, 0, |b1|, order);
    SliceOk(c, |b1| + 1, |c|, order);
    assert c[0..|b1|] == b1 && c[|b1| + 1..|c|] == b2 && c[|b1|] == x;
  }

  /** The inductive step of the rearrangement: the last summand of one list
      sits somewhere inside the other. */
  lemma PermutationStep(init: seq<Operator>, x: Operator, b1: seq<Operator>, b2: seq<Operator>, order: seq<Wire>)
    requires AllWellFormed(init) && WellFormed(x) && AllWellFormed(b1) && AllWellFormed(b2)
    requires EmbeddedSum(init, order).Ok? && EmbedSummand(x, order).Ok?
    requires EmbeddedSum(b1, order).Ok? && EmbeddedSum(b2, order).Ok?
    requires AllWellFormed(b1 + b2) && EmbeddedSum(init, order) == EmbeddedSum(b1 + b2, order)
    ensures AllWellFormed(init + [x]) && AllWellFormed(b1 + [x] + b2)
    ensures EmbeddedSum(init + [x], order) == EmbeddedSum(b1 + [x] + b2, order)
  {
    MoveToEnd(b1, x, b2, order);
    EmbeddedSumSnoc(b1 + b2, x, order);
    EmbeddedSumSnoc(init, x, order);
  }

  /** For a fixed wire order, any rearrangement of the summands has a matrix
      exactly when the original list does, and the same matrix. */
  lemma {:induction false} EmbeddedSumPermutation(a: seq<Operator>, b: seq<Operator>, order: seq<Wire>)
    requires AllWellFormed(a) && multiset(a) == multiset(b)
    ensures AllWellFormed(b)
    ensures EmbeddedSum(a, order).Ok? <==> EmbeddedSum(b, order).Ok?
    ensures EmbeddedSum(a, order).Ok? ==> EmbeddedSum(a, order) == EmbeddedSum(b, order)
    decreases |a|
  {
    SameSummandsOk(a, b, order);
    if |a| > 0 && EmbeddedSum(a, order).Ok? {
      var init, x := a[..|a| - 1], a[|a| - 1];
      SplitAround(a, |a| - 1);
      assert a[|a|..] == [];
      assert x in multiset(b);
      var i :| 0 <= i < |b| && b[i] == x;
      var b1, b2 := b[..i], b[i + 1..];
      SplitAround(b, i);
      MultisetCancel(init, b1, b2, x);
      SplitOk(init, x, [], order);
      SplitOk(b1, x, b2, order);
      EmbeddedSumPermutation(init, b1 + b2, order);
      PermutationStep(init, x, b1, b2, order);
    }
  }

  /** With an explicit wire order, two Sums whose summands are the same up
      to rearrangement have a matrix together, and then the same matrix. */
  lemma ExplicitOrderPermutation(s: Sum, t: Sum, order: seq<Wire>)
    requires AllWellFormed(s.summands) && multiset(s.summands) == multiset(t.summands)
    ensures AllWellFormed(t.summands)
    ensures SumMatrix(s, Some(order)).Ok? <==> SumMatrix(t, Some(order)).Ok?
    ensures SumMatrix(s, Some(order)).Ok? ==> SumMatrix(s, Some(order)) == SumMatrix(t, Some(order))
  {
    EmbeddedSumPermutation(s.summands, t.summands, order);
  }

  lemma NoDupsDisjointConcat(wa: seq<Wire>, wb: seq<Wire>)
    requires NoDups(wa) && NoDups(wb)
    requires forall w :: w in wa ==> w !in wb
    ensures NoDups(wa + wb)
  {
    var order := wa + wb;
    forall i, j | 0 <= i < j < |order|
      ensures order[i] != order[j]
    {
      if j < |wa| {
      } else if i >= |wa| {
        assert order[i] == wb[i - |wa|] && order[j] == wb[j - |wa|];
      } else {
        assert order[i] in wa && order[j] == wb[j - |wa|];
      }
    }
  }

  /** A summand whose wires all occur in the order embeds at their positions. */
  lemma EmbedSummandOk(op: Operator, order: seq<Wire>)
    requires WellFormed(op) && op.mat.Some?
    requires forall i :: 0 <= i < |op.wires| ==> op.wires[i] in order
    ensures EmbedSummand(op, order) == Ok(Embed(op.mat.value, Positions(op.wires, order), |order|))
  {
  }

  /** A summand on the leading wires of the order is padded on the right. */
  lemma EmbedLeading(op: Operator, wb: seq<Wire>)
    requires WellFormed(op) && op.mat.Some?
    ensures EmbedSummand(op, op.wires + wb) == Ok(Kron(op.mat.value, Identity(Pow2(|wb|))))
  {
    var wa, m := op.wires, op.mat.value;
    var order := wa + wb;
    forall i | 0 <= i < |wa| ensures wa[i] in order {
      assert order[i] == wa[i];
    }
    EmbedSummandOk(op, order);
    PositionsPrefix(wa, wb);
    var pos := Positions(wa, order);
    EmbedFull(m, pos, |wa|);
    EmbedExtendRight(m, pos, |wa|, |wb|, |order|);
  }

  /** A summand on the trailing wires of the order is padded on the left. */
  lemma EmbedTrailing(wa: seq<Wire>, op: Operator)
    requires WellFormed(op) && op.mat.Some?
    requires forall w :: w in wa ==> w !in op.wires
    ensures EmbedSummand(op, wa + op.wires) == Ok(Kron(Identity(Pow2(|wa|)), op.mat.value))
  {
    var wb, m := op.wires, op.mat.value;
    var order := wa + wb;
    forall i | 0 <= i < |wb| ensures wb[i] in order {
      assert order[|wa| + i] == wb[i];
    }
    EmbedSummandOk(op, order);
    PositionsSuffix(wa, wb);
    var pos := Positions(wb, order);
    EmbedFull(m, Range(|wb|), |wb|);
    EmbedExtendLeft(m, Range(|wb|), pos, |wb|, |wa|, |order|);
  }

  /** A summand on a middle block of the order is padded on both sides. */
  lemma EmbedMiddle(wa: seq<Wire>, op: Operator, wc: seq<Wire>)
    requires WellFormed(op) && op.mat.Some?
    requires forall w :: w in wa ==> w !in op.wires
    ensures EmbedSummand(op, wa + op.wires + wc)
         == Ok(Kron(Kron(Identity(Pow2(|wa|)), op.mat.value), Identity(Pow2(|wc|))))
  {
    var wb, m := op.wires, op.mat.value;
    var order := wa + wb + wc;
    PositionsMiddle(wa, wb, wc);
    EmbedSummandOk(op, order);
    EmbedBlock(m, Positions(wb, order), |wb|, |wa|, |wc|, |order|);
  }

  /** One more embeddable summand adds its embedding to the running sum. */
  lemma EmbeddedSumSnoc(ops: seq<Operator>, op: Operator, order: seq<Wire>)
    requires AllWellFormed(ops) && WellFormed(op)
    requires EmbeddedSum(ops, order).Ok? && EmbedSummand(op, order).Ok?
    ensures AllWellFormed(ops + [op])
    ensures EmbeddedSum(ops + [op], order)
         == Ok(Add(EmbeddedSum(ops, order).value, EmbedSummand(op, order).value))
  {
    assert (ops + [op])[..|ops|] == ops;
  }

  /** Two embeddable summands add up to the sum of their embeddings. */
  lemma EmbeddedSumPair(x: Operator, y: Operator, order: seq<Wire>)
    requires WellFormed(x) && WellFormed(y)
    requires EmbedSummand(x, order).Ok? && EmbedSummand(y, order).Ok?
    ensures AllWellFormed([x, y])
    ensures EmbeddedSum([x, y], order) == Ok(Add(EmbedSummand(x, order).value, EmbedSummand(y, order).value))
  {
    var ex := EmbedSummand(x, order).value;
    assert [x, y][..1] == [x];
    assert [x][..0] == [];
    AddZeroLeft(ex);
    assert EmbeddedSum([x], order) == Ok(Add(Zero(Pow2(|order|)), ex));
  }

  /** The third summand added to the sum of the first two. */
  lemma EmbeddedSumThird(x: Operator, y: Operator, z: Operator, order: seq<Wire>, acc: Matrix, ez: Matrix)
    requires WellFormed(x) && WellFormed(y) && WellFormed(z)
    requires EmbeddedSum([x, y], order) == Ok(acc)
    requires EmbedSummand(z, order) == Ok(ez)
    ensures AllWellFormed([x, y, z])
    ensures EmbeddedSum([x, y, z], order) == Ok(Add(acc, ez))
  {
    assert [x, y, z][..2] == [x, y];
  }

  /** Three embeddable summands add up, left to right, to the sum of their
      embeddings. */
  lemma EmbeddedSumTriple(x: Operator, y: Operator, z: Operator, order: seq<Wire>, ex: Matrix, ey: Matrix, ez: Matrix)
    requires WellFormed(x) && WellFormed(y) && WellFormed(z)
    requires EmbedSummand(x, order) == Ok(ex)
    requires EmbedSummand(y, order) == Ok(ey)
    requires EmbedSummand(z, order) == Ok(ez)
    ensures AllWellFormed([x, y, z])
    ensures |ex| == |ey| == |ez| == Pow2(|order|)
    ensures EmbeddedSum([x, y, z], order) == Ok(Add(Add(ex, ey), ez))
  {
    assert EmbeddedSum([x, y], order) == Ok(Add(ex, ey)) by {
      EmbeddedSumPair(x, y, order);
    }
    EmbeddedSumThird(x, y, z, order, Add(ex, ey), ez);
  }

  /** Two summands on disjoint wires: with the Sum's own wire order the first
      is padded with identity on the right and the second on the left. */
  lemma DisjointPairMatrix(x: Operator, y: Operator, id: Option<string>, doQueue: bool)
    requires WellFormed(x) && WellFormed(y) && x.mat.Some? && y.mat.Some?
    requires forall w :: w in x.wires ==> w !in y.wires
    ensures AllWellFormed([x, y])
    ensures SumMatrix(Sum([x, y], id, doQueue), None)
         == Ok(Add(Kron(x.mat.value, Identity(Pow2(|y.wires|))),
                   Kron(Identity(Pow2(|x.wires|)), y.mat.value)))
  {
    var s := Sum([x, y], id, doQueue);
    var order := x.wires + y.wires;
    assert AllWires([x, y]) == order by {
      assert AllWires([x, y][1..]) == y.wires + AllWires([]);
    }
    NoDupsDisjointConcat(x.wires, y.wires);
    DedupNoDups(order);
    assert Wires(s) == order;
    EmbedLeading(x, y.wires);
    EmbedTrailing(x.wires, y);
    EmbeddedSumPair(x, y, order);
  }

  /** op_sum builds the same Sum as the class constructor, for every
      input: both refuse an empty summand list, and otherwise they agree on
      summands, id, wires, parameters and matrix. */
  lemma OpSumMatchesClass(summands: seq<Operator>, id: Option<string>, doQueue: bool, wireOrder: Option<seq<Wire>>)
    ensures OpSum(summands, id, doQueue) == NewSum(summands, id, doQueue)
    ensures OpSum(summands, id, doQueue).Ok? <==> |summands| > 0
    ensures OpSum(summands, id, doQueue).Ok? ==>
              var f, c := OpSum(summands, id, doQueue).value, NewSum(summands, id, doQueue).value;
              && f.summands == c.summands == summands
              && f.id == c.id == id
              && Wires(f) == Wires(c)
              && Parameters(f) == Parameters(c)
              && (AllWellFormed(summands) ==> SumMatrix(f, wireOrder) == SumMatrix(c, wireOrder))
  {
  }
}
