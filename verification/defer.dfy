/** The deferred-measurement tape rewrite: one left-to-right pass over the
    queued entries of a tape that drops every mid-circuit measurement and
    replaces every conditional operation by the controlled version of the
    operation it wraps, controlled on the measured qubit. */
module Deferral {
  import opened WireLists

  /** What a tape queue can hold, as far as the rewrite distinguishes it. */
  datatype Entry =
    | Operation(name: string, data: seq<real>, wires: seq<Wire>)
      // a gate, or any other queued object the rewrite passes through
    | Controlled(baseClass: string, control: seq<Wire>, data: seq<real>, wires: seq<Wire>)
      // the result of qml.ctrl(baseClass, control)(*data, wires)
    | MidMeasure(wires: seq<Wire>)
      // a mid-circuit measurement
    | IfOp(dependentOn: seq<Wire>, thenClass: string, data: seq<real>, wires: seq<Wire>)
      // an operation of class thenClass applied if the measurement it depends on gives 1;
      // dependentOn is what the measured value's `_dependent_on` holds

  /** The controlled copy of a conditional's wrapped operation: same class,
      same wires, control on what the measured value depends on; the
      parameters are passed on when there are any, and none otherwise. */
  function ControlledCopy(e: Entry): (c: Entry)
    requires e.IfOp?
    ensures c.Controlled?
  {
    if |e.data| > 0 then Controlled(e.thenClass, e.dependentOn, e.data, e.wires)
    else Controlled(e.thenClass, e.dependentOn, [], e.wires)
  }

  /** Both branches build the same controlled operation: every field of the
      conditional lands in the matching field of the copy. */
  lemma ControlledCopyFields(e: Entry)
    requires e.IfOp?
    ensures var c := ControlledCopy(e);
            && c.baseClass == e.thenClass && c.control == e.dependentOn
            && c.data == e.data && c.wires == e.wires
            && (|e.data| == 0 ==> c.data == [])
  {
  }

  /** What the pass appends for one entry. */
  function DeferEntry(e: Entry): (r: seq<Entry>)
    ensures e.MidMeasure? ==> r == []
    ensures e.IfOp? ==> r == [ControlledCopy(e)]
    ensures !e.MidMeasure? && !e.IfOp? ==> r == [e]
  {
    match e
    case MidMeasure(_) => []
    case IfOp(_, _, _, _) => [ControlledCopy(e)]
    case _ => [e]
  }

  /** The new tape after the entries of t have been visited in order. */
  function Defer(t: seq<Entry>): seq<Entry> {
    if |t| == 0 then [] else Defer(t[..|t| - 1]) + DeferEntry(t[|t| - 1])
  }

  /** The pass of defer_measurements: append to the new tape entry by entry. */
  method DeferMeasurements(tape: seq<Entry>) returns (newTape: seq<Entry>)
    ensures newTape == Defer(tape)
    ensures Clean(newTape)
    ensures |newTape| == |tape| - CountMid(tape)
  {
    newTape := [];
    var i := 0;
    while i < |tape|
      invariant 0 <= i <= |tape|
      invariant newTape == Defer(tape[..i])
    {
      var e := tape[i];
      assert tape[..i + 1][..i] == tape[..i];
      match e {
        case MidMeasure(_) =>
        case IfOp(_, _, _, _) =>
          newTape := newTape + [ControlledCopy(e)];
        case _ =>
          newTape := newTape + [e];
      }
      i := i + 1;
    }
    assert tape[..i] == tape;
    DeferClean(tape);
    DeferLength(tape);
  }

  // ----- what the output looks like ------------------------------------------

  /** A tape with neither mid-circuit measurements nor conditionals. */
  ghost predicate Clean(t: seq<Entry>) {
    forall k :: 0 <= k < |t| ==> !t[k].MidMeasure? && !t[k].IfOp?
  }

  function CountMid(t: seq<Entry>): (n: nat)
    ensures n <= |t|
  {
    if |t| == 0 then 0
    else CountMid(t[..|t| - 1]) + (if t[|t| - 1].MidMeasure? then 1 else 0)
  }

  /** The output holds no mid-circuit measurement and no conditional. */
  lemma {:induction false} DeferClean(t: seq<Entry>)
    ensures Clean(Defer(t))
  {
    if |t| > 0 {
      DeferClean(t[..|t| - 1]);
    }
  }

  /** The output is as long as the input less its mid-circuit measurements. */
  lemma {:induction false} DeferLength(t: seq<Entry>)
    ensures |Defer(t)| == |t| - CountMid(t)
  {
    if |t| > 0 {
      DeferLength(t[..|t| - 1]);
    }
  }

  /** The pass works entry by entry, so it distributes over concatenation. */
  lemma {:induction false} DeferConcat(a: seq<Entry>, b: seq<Entry>)
    ensures Defer(a + b) == Defer(a) + Defer(b)
  {
    if |b| == 0 {
      assert a + b == a;
    } else {
      DeferConcat(a, b[..|b| - 1]);
      assert (a + b)[..|a + b| - 1] == a + b[..|b| - 1];
      assert (a + b)[|a + b| - 1] == b[|b| - 1];
    }
  }

  /** A clean tape is left as it is. */
  lemma {:induction false} DeferCleanUnchanged(t: seq<Entry>)
    requires Clean(t)
    ensures Defer(t) == t
  {
    if |t| > 0 {
      DeferCleanUnchanged(t[..|t| - 1]);
      assert t == t[..|t| - 1] + [t[|t| - 1]];
    }
  }

  /** Running the rewrite twice is running it once. */
  lemma DeferIdempotent(t: seq<Entry>)
    ensures Defer(Defer(t)) == Defer(t)
  {
    DeferClean(t);
    DeferCleanUnchanged(Defer(t));
  }

  // ----- where each entry goes ------------------------------------------------

  /** A kept entry as it appears in the output. */
  function Rewrite(e: Entry): Entry
    requires !e.MidMeasure?
  {
    if e.IfOp? then ControlledCopy(e) else e
  }

  /** Where entry i of t lands in the output: after the kept entries before it. */
  function Position(t: seq<Entry>, i: nat): int
    requires i <= |t|
  {
    i - CountMid(t[..i])
  }

  /** Every entry other than a mid-circuit measurement appears in the output,
      rewritten, at its position. */
  lemma DeferAt(t: seq<Entry>, i: nat)
    requires i < |t| && !t[i].MidMeasure?
    ensures 0 <= Position(t, i) < |Defer(t)|
    ensures Defer(t)[Position(t, i)] == Rewrite(t[i])
  {
    var pre, post := t[..i], t[i + 1..];
    assert t == pre + [t[i]] + post;
    DeferConcat(pre + [t[i]], post);
    DeferConcat(pre, [t[i]]);
    assert Defer([t[i]]) == DeferEntry(t[i]) by {
      assert [t[i]][..0] == [];
    }
    DeferLength(pre);
  }

  /** Kept entries keep their relative order. */
  lemma DeferOrder(t: seq<Entry>, i: nat, j: nat)
    requires i < j < |t| && !t[i].MidMeasure?
    ensures Position(t, i) < Position(t, j)
  {
    var a, b := t[..i + 1], t[i + 1..j];
    assert t[..j] == a + b;
    assert a[..i] == t[..i];
    DeferConcat(a, b);
    DeferLength(t[..j]);
    DeferLength(t[..i]);
    DeferLength(a);
  }

  /** The entries of t without its mid-circuit measurements. */
  function Kept(t: seq<Entry>): (r: seq<Entry>)
    ensures forall k :: 0 <= k < |r| ==> !r[k].MidMeasure?
  {
    if |t| == 0 then []
    else if t[|t| - 1].MidMeasure? then Kept(t[..|t| - 1])
    else Kept(t[..|t| - 1]) + [t[|t| - 1]]
  }

  /** The output is the input filtered and then rewritten entry by entry:
      nothing but kept entries, rewritten, reach the output. */
  lemma {:induction false} DeferIsRewriteOfKept(t: seq<Entry>)
    ensures Defer(t) == seq(|Kept(t)|, k requires 0 <= k < |Kept(t)| => Rewrite(Kept(t)[k]))
  {
    if |t| > 0 {
      DeferIsRewriteOfKept(t[..|t| - 1]);
    }
  }

  /** A measurement followed by a conditional on it becomes the one controlled
      operation, and unrelated entries stay where they were. */
  lemma MeasureThenConditional(before: Entry, w: Wire, cls: string, data: seq<real>, target: seq<Wire>, after: Entry)
    requires !before.MidMeasure? && !before.IfOp? && !after.MidMeasure? && !after.IfOp?
    ensures Defer([before, MidMeasure([w]), IfOp([w], cls, data, target), after])
         == [before, Controlled(cls, [w], data, target), after]
  {
    var m, c := MidMeasure([w]), IfOp([w], cls, data, target);
    var p1, p2, p3 := [before], [before, m], [before, m, c];
    assert p1[..0] == [];
    assert Defer(p1) == [before];
    assert p2[..1] == p1;
    assert Defer(p2) == [before];
    assert p3[..2] == p2;
    assert Defer(p3) == [before, ControlledCopy(c)];
    assert [before, m, c, after][..3] == p3;
    ControlledCopyFields(c);
  }
}
