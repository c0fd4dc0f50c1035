/** The fan-in nodes within one step.  A LiftN node over `n` parents, a
    SampleOn and a Merge receive one arrival per parent occurrence in each
    step, in an order fixed by the graph, and must fire exactly once, on the
    last arrival, with an outcome that does not depend on that order. */
module FanIn {

  import opened Values
  import opened Nodes

  // LIFTN

  /** LiftN's reaction to the arrivals `fs` of one step, delivered in this
      order; its parents hold `vals` when the last one arrives.  Until the
      `n`-th arrival the node only counts and remembers whether anything
      changed; its value stays as it was. */
  function LiftFeed(update: seq<Value> -> Value, vals: seq<Value>, c: Cell, fs: seq<bool>): (r: Reaction)
    requires c.count + |fs| <= |vals|
    ensures c.count + |fs| < |vals| ==>
              r == Hold(c.(count := c.count + |fs|, isChanged := c.isChanged || true in fs))
    decreases |fs|
  {
    if fs == [] then Hold(c)
    else
      assert fs == fs[..|fs| - 1] + [fs[|fs| - 1]];
      LiftRecv(update, vals, LiftFeed(update, vals, c, fs[..|fs| - 1]).cell, fs[|fs| - 1])
  }

  /** On the `n`-th arrival LiftN broadcasts once, with the OR of all the
      arrival flags, recomputes its value only if one of them was set, and
      resets its counters. */
  lemma LiftFanIn(update: seq<Value> -> Value, vals: seq<Value>, c: Cell, fs: seq<bool>)
    requires 0 < |fs| && c.count + |fs| == |vals|
    ensures var ch := c.isChanged || true in fs;
            var v := if ch then update(vals) else c.value;
            LiftFeed(update, vals, c, fs) == Emit(ch, Cell(v, |vals|, ch, c.next), Cell(v, 0, false, c.next))
  {
    assert fs == fs[..|fs| - 1] + [fs[|fs| - 1]];
  }

  /** The outcome of a step does not depend on the order of the arrivals. */
  lemma LiftOrderFree(update: seq<Value> -> Value, vals: seq<Value>, c: Cell, fs: seq<bool>, gs: seq<bool>)
    requires multiset(fs) == multiset(gs) && c.count + |fs| <= |vals|
    ensures c.count + |gs| <= |vals|
    ensures LiftFeed(update, vals, c, fs) == LiftFeed(update, vals, c, gs)
  {
    assert |fs| == |multiset(fs)| == |multiset(gs)| == |gs|;
    assert (true in fs) == (true in multiset(fs)) == (true in multiset(gs)) == (true in gs);
    if 0 < |fs| && c.count + |fs| == |vals| {
      LiftFanIn(update, vals, c, fs);
      LiftFanIn(update, vals, c, gs);
    }
  }

  // SAMPLEON

  /** `sampleOn(s1, s2)` in one step, whichever parent arrives first: the
      first arrival changes nothing observable, and the second broadcasts
      `s1`'s flag, ignoring `s2`'s, adopting `s2`'s value when `s1`
      changed, and resets the counters. */
  lemma SampleOnPair(s1: nat, s2: nat, v2: Value, c: Cell, f1: bool, f2: bool)
    requires s1 != s2 && c.count == 0
    ensures var r := SampleOnRecv(s1, v2, c, f1, s1);
            && r.Hold? && r.cell.value == c.value
            && SampleOnRecv(s1, v2, r.cell, f2, s2) == Emit(f1, SampledDuring(v2, c, f1), SampledAfter(v2, c, f1))
    ensures var r := SampleOnRecv(s1, v2, c, f2, s2);
            && r.Hold? && r.cell.value == c.value
            && SampleOnRecv(s1, v2, r.cell, f1, s1) == Emit(f1, SampledDuring(v2, c, f1), SampledAfter(v2, c, f1))
  {
  }

  /** `sampleOn(s, s)`: both arrivals come from `s` with the same flag. */
  lemma SampleOnSelf(s: nat, v: Value, c: Cell, f: bool)
    requires c.count == 0
    ensures var r := SampleOnRecv(s, v, c, f, s);
            && r.Hold? && r.cell.value == c.value
            && SampleOnRecv(s, v, r.cell, f, s) == Emit(f, SampledDuring(v, c, f), SampledAfter(v, c, f))
  {
  }

  /** SampleOn while it broadcasts: `s2`'s value if `s1` changed. */
  function SampledDuring(v2: Value, c: Cell, f1: bool): Cell
  {
    c.(value := if f1 then v2 else c.value, count := 2, isChanged := f1)
  }

  /** SampleOn after the step: the same value, counters reset. */
  function SampledAfter(v2: Value, c: Cell, f1: bool): Cell
  {
    c.(value := if f1 then v2 else c.value, count := 0, isChanged := false)
  }

  // MERGE

  /** The value Merge takes on in a step: `s1`'s if it changed, otherwise
      `s2`'s if that changed, otherwise its own. */
  function Merged(v1: Value, v2: Value, c: Cell, f1: bool, f2: bool): Value
  {
    if f1 then v1 else if f2 then v2 else c.value
  }

  /** `merge(s1, s2)` in one step, whichever parent arrives first: the first
      arrival changes nothing observable; the second broadcasts the OR of
      both flags, with `s1` taking priority when both changed, and leaves
      the counters and the staged value cleared. */
  lemma MergePair(s1: nat, s2: nat, v1: Value, v2: Value, c: Cell, f1: bool, f2: bool)
    requires s1 != s2 && Quiet(c) && Staged(c)
    ensures var r := MergeRecv(s1, s2, v1, v2, c, f1, s1);
            var v, ch := Merged(v1, v2, c, f1, f2), f1 || f2;
            && r.Hold? && r.cell.value == c.value && Staged(r.cell)
            && MergeRecv(s1, s2, v1, v2, r.cell, f2, s2) == Emit(ch, Cell(v, 2, ch, None), Cell(v, 0, false, None))
    ensures var r := MergeRecv(s1, s2, v1, v2, c, f2, s2);
            var v, ch := Merged(v1, v2, c, f1, f2), f1 || f2;
            && r.Hold? && r.cell.value == c.value && Staged(r.cell)
            && MergeRecv(s1, s2, v1, v2, r.cell, f1, s1) == Emit(ch, Cell(v, 2, ch, None), Cell(v, 0, false, None))
  {
  }

  /** `merge(s, s)`: both arrivals come from `s` with the same flag, and the
      node follows `s`. */
  lemma MergeSelf(s: nat, v: Value, c: Cell, f: bool)
    requires Quiet(c) && Staged(c)
    ensures var r := MergeRecv(s, s, v, v, c, f, s);
            var w := if f then v else c.value;
            && r.Hold? && r.cell.value == c.value && Staged(r.cell)
            && MergeRecv(s, s, v, v, r.cell, f, s) == Emit(f, Cell(w, 2, f, None), Cell(w, 0, false, None))
  {
  }

}
