/** Wire bookkeeping: wire labels are naturals, an operator's wires are a
    duplicate-free sequence, and a composite operator's wires are the union of
    its parts' wires in order of first occurrence. */
module WireLists {
  import opened Arith
  import opened Bits

  type Wire = nat

  predicate NoDups(s: seq<Wire>) {
    forall i, j :: 0 <= i < j < |s| ==> s[i] != s[j]
  }

  ghost function ToSet(s: seq<Wire>): set<Wire> {
    set x | x in s
  }

  /** The wires of s without repetitions, each kept where it first occurs. */
  function Dedup(s: seq<Wire>): (r: seq<Wire>)
    ensures NoDups(r)
    ensures forall x :: x in r <==> x in s
    ensures |r| <= |s|
  {
    if |s| == 0 then []
    else
      var d := Dedup(s[..|s| - 1]);
      if s[|s| - 1] in d then d else d + [s[|s| - 1]]
  }

  /** A duplicate-free sequence has as many elements as its set. */
  lemma {:induction false} NoDupsCard(s: seq<Wire>)
    requires NoDups(s)
    ensures |ToSet(s)| == |s|
  {
    if |s| > 0 {
      var init := s[..|s| - 1];
      var last := s[|s| - 1];
      NoDupsCard(init);
      assert ToSet(s) == ToSet(init) + {last};
      assert last !in ToSet(init);
    }
  }

  /** Removing repetitions leaves exactly one copy of every wire. */
  lemma DedupCard(s: seq<Wire>)
    ensures |Dedup(s)| == |ToSet(s)|
  {
    NoDupsCard(Dedup(s));
    assert ToSet(Dedup(s)) == ToSet(s);
  }

  /** A sequence that already has no repetitions is its own deduplication. */
  lemma {:induction false} DedupNoDups(s: seq<Wire>)
    requires NoDups(s)
    ensures Dedup(s) == s
  {
    if |s| > 0 {
      var init := s[..|s| - 1];
      DedupNoDups(init);
      assert s[|s| - 1] !in init;
      assert s == init + [s[|s| - 1]];
    }
  }

  /** The first position of x in s. */
  function IndexOf(s: seq<Wire>, x: Wire): (k: nat)
    requires x in s
    ensures k < |s| && s[k] == x
    ensures forall j :: 0 <= j < k ==> s[j] != x
  {
    if s[0] == x then 0 else 1 + IndexOf(s[1..], x)
  }

  /** A wire of a keeps its first position when more wires are appended. */
  lemma IndexOfPrefix(a: seq<Wire>, b: seq<Wire>, x: Wire)
    requires x in a
    ensures IndexOf(a + b, x) == IndexOf(a, x)
  {
    assert (a + b)[IndexOf(a, x)] == x;
    assert forall j :: 0 <= j < |a| ==> (a + b)[j] == a[j];
  }

  /** Deduplication keeps the wires in the order of their first occurrence:
      with NoDups and the same elements, this determines Dedup(s). */
  lemma {:induction false} DedupFirstOccurrence(s: seq<Wire>)
    ensures forall i, j :: 0 <= i < j < |Dedup(s)| ==> IndexOf(s, Dedup(s)[i]) < IndexOf(s, Dedup(s)[j])
  {
    if |s| > 0 {
      var init, last := s[..|s| - 1], s[|s| - 1];
      assert s == init + [last];
      DedupFirstOccurrence(init);
      var d := Dedup(init);
      forall i | 0 <= i < |d|
        ensures IndexOf(s, d[i]) == IndexOf(init, d[i])
      {
        IndexOfPrefix(init, [last], d[i]);
      }
      if last !in d {
        assert forall j :: 0 <= j < |init| ==> s[j] == init[j];
        assert IndexOf(s, last) == |init|;
        var r := d + [last];
        forall i, j | 0 <= i < j < |r|
          ensures IndexOf(s, r[i]) < IndexOf(s, r[j])
        {
          assert r[i] == d[i] && IndexOf(s, d[i]) == IndexOf(init, d[i]) < |init|;
          if j == |d| {
            assert r[j] == last;
          } else {
            assert r[j] == d[j] && IndexOf(s, d[j]) == IndexOf(init, d[j]);
            assert IndexOf(init, d[i]) < IndexOf(init, d[j]);
          }
        }
        assert Dedup(s) == r;
      } else {
        assert Dedup(s) == d;
        forall i, j | 0 <= i < j < |d|
          ensures IndexOf(s, d[i]) < IndexOf(s, d[j])
        {
          assert IndexOf(s, d[i]) == IndexOf(init, d[i]);
          assert IndexOf(s, d[j]) == IndexOf(init, d[j]);
        }
      }
    }
  }

  /** Where each wire of ws sits in the wire order. */
  function Positions(ws: seq<Wire>, order: seq<Wire>): (r: seq<nat>)
    requires forall k :: 0 <= k < |ws| ==> ws[k] in order
    ensures |r| == |ws|
    ensures forall k :: 0 <= k < |ws| ==> r[k] < |order| && order[r[k]] == ws[k]
  {
    seq(|ws|, k requires 0 <= k < |ws| => IndexOf(order, ws[k]))
  }

  /** The wires of the first part of a wire order sit at positions 0, 1, .... */
  lemma PositionsPrefix(wa: seq<Wire>, wb: seq<Wire>)
    requires NoDups(wa)
    ensures IsRange(Positions(wa, wa + wb), |wa|)
  {
    forall k | 0 <= k < |wa|
      ensures IndexOf(wa + wb, wa[k]) == k
    {
      var i := IndexOf(wa + wb, wa[k]);
      assert (wa + wb)[k] == wa[k];
    }
  }

  /** The wires of the second part of a wire order sit after the first part. */
  lemma PositionsSuffix(wa: seq<Wire>, wb: seq<Wire>)
    requires NoDups(wb)
    requires forall x :: x in wa ==> x !in wb
    ensures IsShift(Positions(wb, wa + wb), Range(|wb|), |wa|)
  {
    forall k | 0 <= k < |wb|
      ensures IndexOf(wa + wb, wb[k]) == |wa| + k
    {
      var i := IndexOf(wa + wb, wb[k]);
      assert (wa + wb)[|wa| + k] == wb[k];
    }
  }

  /** The wires of a middle part of a wire order sit after the part before it. */
  lemma PositionsMiddle(wa: seq<Wire>, wb: seq<Wire>, wc: seq<Wire>)
    requires NoDups(wb)
    requires forall x :: x in wa ==> x !in wb
    ensures forall k :: 0 <= k < |wb| ==> wb[k] in wa + wb + wc
    ensures IsShift(Positions(wb, wa + wb + wc), Range(|wb|), |wa|)
  {
    var order := wa + wb + wc;
    forall k | 0 <= k < |wb|
      ensures wb[k] in order && IndexOf(order, wb[k]) == |wa| + k
    {
      assert order[|wa| + k] == wb[k];
      forall j | 0 <= j < |wa| + k
        ensures order[j] != wb[k]
      {
        if j < |wa| {
          assert order[j] == wa[j] && wa[j] in wa;
        } else {
          assert order[j] == wb[j - |wa|];
        }
      }
    }
  }

  /** Appending wires that are all present already leaves the deduplication
      of a duplicate-free sequence unchanged. */
  lemma {:induction false} DedupCovered(a: seq<Wire>, b: seq<Wire>)
    requires NoDups(a)
    requires forall x :: x in b ==> x in a
    ensures Dedup(a + b) == a
  {
    if |b| == 0 {
      assert a + b == a;
      DedupNoDups(a);
    } else {
      var init := b[..|b| - 1];
      DedupCovered(a, init);
      assert (a + b)[..|a + b| - 1] == a + init;
      assert (a + b)[|a + b| - 1] == b[|b| - 1];
    }
  }

  /** Appending fresh, distinct wires appends them to the deduplication. */
  lemma {:induction false} DedupFresh(s: seq<Wire>, t: seq<Wire>)
    requires NoDups(t)
    requires forall x :: x in t ==> x !in s
    ensures Dedup(s + t) == Dedup(s) + t
  {
    if |t| == 0 {
      assert s + t == s;
    } else {
      var init := t[..|t| - 1];
      var last := t[|t| - 1];
      DedupFresh(s, init);
      assert (s + t)[..|s + t| - 1] == s + init;
      assert (s + t)[|s + t| - 1] == last;
      assert last !in s && last !in init;
      assert Dedup(s) + t == (Dedup(s) + init) + [last];
    }
  }

  /** The wires lo, lo + 1, ..., hi - 1. */
  function Interval(lo: nat, hi: nat): (r: seq<Wire>)
    requires lo <= hi
    ensures |r| == hi - lo
    ensures forall k :: 0 <= k < |r| ==> r[k] == lo + k
  {
    seq(hi - lo, k requires 0 <= k < hi - lo => lo + k)
  }

  /** The wires 0, ..., b - 1 are the wires 0, ..., a - 1 followed by a, ..., b - 1. */
  lemma RangeSplit(a: nat, b: nat)
    requires a <= b
    ensures Range(a) + Interval(a, b) == Range(b)
  {
  }

  lemma RangeNoDups(n: nat)
    ensures NoDups(Range(n))
  {
  }

  /** The wires of two ranges starting at wire 0, without repetitions, are
      the longer range. */
  lemma DedupRanges(a: nat, b: nat)
    ensures Dedup(Range(a) + Range(b)) == Range(Max(a, b))
  {
    RangeNoDups(a);
    if a < b {
      var tail := Interval(a, b);
      RangeSplit(a, b);
      assert Range(a) + Range(b) == (Range(a) + Range(a)) + tail;
      DedupFresh(Range(a) + Range(a), tail);
      DedupCovered(Range(a), Range(a));
    } else {
      forall x | x in Range(b) ensures x in Range(a) {
        assert Range(a)[x] == x;
      }
      DedupCovered(Range(a), Range(b));
    }
  }
}
