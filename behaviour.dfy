/** How a one-parent node (Foldp, DropIf, DropRepeats, Timestamp) behaves
    over a run of steps.  Such a node receives exactly one arrival per step
    from its parent (a `Tick`: the step's time, the parent's change flag and
    the parent's value); `Run` is the cell after a sequence of steps and
    `Flags` the change flags it broadcast, one per step. */
module Behaviour {

  import opened Values
  import opened Nodes

  /** The cell of a one-parent node of kind `k` after the steps `ticks`. */
  function Run(k: Kind, c: Cell, ticks: seq<Tick>): (r: Cell)
    requires OneParent(k)
    ensures r.count == c.count && r.isChanged == c.isChanged && r.next == c.next
  {
    if ticks == [] then c
    else SingleRecv(k, Run(k, c, ticks[..|ticks| - 1]), ticks[|ticks| - 1]).after
  }

  /** The flag the node broadcast in each of the steps `ticks`. */
  function Flags(k: Kind, c: Cell, ticks: seq<Tick>): (fs: seq<bool>)
    requires OneParent(k)
    ensures |fs| == |ticks|
  {
    if ticks == [] then []
    else Flags(k, c, ticks[..|ticks| - 1]) + [SingleRecv(k, Run(k, c, ticks[..|ticks| - 1]), ticks[|ticks| - 1]).flag]
  }

  /** The values the node broadcast as changed, in order. */
  function Emitted(k: Kind, c: Cell, ticks: seq<Tick>): (e: seq<Value>)
    requires OneParent(k)
    ensures |e| <= |ticks|
  {
    if ticks == [] then []
    else
      var r := SingleRecv(k, Run(k, c, ticks[..|ticks| - 1]), ticks[|ticks| - 1]);
      Emitted(k, c, ticks[..|ticks| - 1]) + (if r.flag then [r.after.value] else [])
  }

  /** The parent's change flags, step by step. */
  function ChangeFlags(ticks: seq<Tick>): (fs: seq<bool>)
    ensures |fs| == |ticks|
    ensures forall j :: 0 <= j < |ticks| ==> fs[j] == ticks[j].changed
  {
    if ticks == [] then [] else ChangeFlags(ticks[..|ticks| - 1]) + [ticks[|ticks| - 1].changed]
  }

  /** The last of `vs`, or `v0` if there is none. */
  function Latest(v0: Value, vs: seq<Value>): (v: Value)
    ensures v == v0 || v in vs
  {
    if vs == [] then v0 else vs[|vs| - 1]
  }

  /** The last step of `ticks` that `keep` selects. */
  function LastWhere(ticks: seq<Tick>, keep: Tick -> bool): (r: Option<nat>)
    ensures r.Some? ==> r.value < |ticks| && keep(ticks[r.value])
  {
    if ticks == [] then None
    else if keep(ticks[|ticks| - 1]) then Some(|ticks| - 1)
    else LastWhere(ticks[..|ticks| - 1], keep)
  }

  /** `LastWhere` finds the last selected step, and finds one whenever there
      is one. */
  lemma {:induction false} LastWhereExact(ticks: seq<Tick>, keep: Tick -> bool)
    ensures LastWhere(ticks, keep).None? <==> forall j :: 0 <= j < |ticks| ==> !keep(ticks[j])
    ensures LastWhere(ticks, keep).Some? ==>
              forall j :: LastWhere(ticks, keep).value < j < |ticks| ==> !keep(ticks[j])
  {
    if ticks != [] && !keep(ticks[|ticks| - 1]) {
      var init := ticks[..|ticks| - 1];
      LastWhereExact(init, keep);
      assert forall j :: 0 <= j < |init| ==> init[j] == ticks[j];
    }
  }

  // VALUES FOLLOW THE BROADCAST FLAGS

  /** A one-parent node holds the last value it broadcast as changed, its
      initial value if it never did, and broadcasts a change only when its
      parent changed. */
  lemma {:induction false} RunHoldsLastEmitted(k: Kind, c: Cell, ticks: seq<Tick>)
    requires OneParent(k)
    ensures Run(k, c, ticks).value == Latest(c.value, Emitted(k, c, ticks))
    ensures forall j :: 0 <= j < |ticks| && Flags(k, c, ticks)[j] ==> ticks[j].changed
  {
    if ticks != [] {
      var init := ticks[..|ticks| - 1];
      RunHoldsLastEmitted(k, c, init);
      assert Flags(k, c, ticks)[..|init|] == Flags(k, c, init);
    }
  }

  /** The first `n` steps of a run are a run of their own. */
  lemma {:induction false} FlagsPrefix(k: Kind, c: Cell, ticks: seq<Tick>, n: nat)
    requires OneParent(k) && n <= |ticks|
    ensures Flags(k, c, ticks[..n]) == Flags(k, c, ticks)[..n]
  {
    if n < |ticks| {
      var init := ticks[..|ticks| - 1];
      FlagsPrefix(k, c, init, n);
      assert init[..n] == ticks[..n];
    } else {
      assert ticks[..n] == ticks;
    }
  }

  /** Step `j` of a run is the node's reaction to tick `j` in the cell the
      first `j` steps left it in. */
  lemma RunStep(k: Kind, c: Cell, ticks: seq<Tick>, j: nat)
    requires OneParent(k) && j < |ticks|
    ensures var r := SingleRecv(k, Run(k, c, ticks[..j]), ticks[j]);
            Flags(k, c, ticks)[j] == r.flag && Run(k, c, ticks[..j + 1]) == r.after
  {
    FlagsPrefix(k, c, ticks, j + 1);
    var pre := ticks[..j + 1];
    assert pre[..|pre| - 1] == ticks[..j];
    assert Flags(k, c, pre)[j] == Flags(k, c, ticks)[j];
  }

  // FOLDP

  /** The values of the steps in which the parent changed. */
  function ChangedValues(ticks: seq<Tick>): (vs: seq<Value>)
    ensures |vs| <= |ticks|
  {
    if ticks == [] then []
    else ChangedValues(ticks[..|ticks| - 1]) + (if ticks[|ticks| - 1].changed then [ticks[|ticks| - 1].value] else [])
  }

  /** `step` folded over `vs` from the left, each value passed first and
      the accumulator second, as Elm's `foldp` does. */
  function Accumulate(step: (Value, Value) -> Value, acc: Value, vs: seq<Value>): (v: Value)
  {
    if vs == [] then acc else step(vs[|vs| - 1], Accumulate(step, acc, vs[..|vs| - 1]))
  }

  /** Foldp is a left fold of `step` over the parent's changed values, and
      forwards the parent's flag unmodified. */
  lemma {:induction false} FoldpRun(step: (Value, Value) -> Value, input: nat, c: Cell, ticks: seq<Tick>)
    ensures Run(Kind.Foldp(step, input), c, ticks).value == Accumulate(step, c.value, ChangedValues(ticks))
    ensures Flags(Kind.Foldp(step, input), c, ticks) == ChangeFlags(ticks)
  {
    if ticks != [] {
      var init := ticks[..|ticks| - 1];
      var t := ticks[|ticks| - 1];
      FoldpRun(step, input, c, init);
      var before := Run(Kind.Foldp(step, input), c, init);
      assert SingleRecv(Kind.Foldp(step, input), before, t) == FoldpRecv(step, before, t);
      if t.changed {
        var vs := ChangedValues(init) + [t.value];
        assert vs[..|vs| - 1] == ChangedValues(init);
        assert Accumulate(step, c.value, vs) == step(t.value, Accumulate(step, c.value, ChangedValues(init)));
      } else {
        assert ChangedValues(ticks) == ChangedValues(init) + [] == ChangedValues(init);
        assert Run(Kind.Foldp(step, input), c, ticks) == before;
      }
    }
  }

  function Plus(x: Value, acc: Value): Value
  {
    if x.Num? && acc.Num? then Num(x.n + acc.n) else acc
  }

  /** `foldp (+) 0` over the changes 3, 4, -1 holds 3, then 7, then 6. */
  lemma FoldpSumExample(input: nat)
    ensures var k, c := Kind.Foldp(Plus, input), Fresh(Num(0));
            var t1, t2, t3 := Tick(1, true, Num(3)), Tick(2, true, Num(4)), Tick(3, true, Num(-1));
            && Run(k, c, [t1]).value == Num(3)
            && Run(k, c, [t1, t2]).value == Num(7)
            && Run(k, c, [t1, t2, t3]).value == Num(6)
  {
    var k, c := Kind.Foldp(Plus, input), Fresh(Num(0));
    var t1, t2, t3 := Tick(1, true, Num(3)), Tick(2, true, Num(4)), Tick(3, true, Num(-1));
    assert [t1, t2][..1] == [t1];
    assert [t1, t2, t3][..2] == [t1, t2];
  }

  // TIMESTAMP

  function IsChange(t: Tick): bool
  {
    t.changed
  }

  /** Timestamp holds the time and value of the parent's last change, and
      forwards the parent's flag unmodified. */
  lemma {:induction false} TimestampRun(input: nat, c: Cell, ticks: seq<Tick>)
    ensures Run(Kind.Timestamp(input), c, ticks).value ==
            match LastWhere(ticks, IsChange)
            case None => c.value
            case Some(j) => Tuple2(Num(ticks[j].ts), ticks[j].value)
    ensures Flags(Kind.Timestamp(input), c, ticks) == ChangeFlags(ticks)
  {
    if ticks != [] {
      var init := ticks[..|ticks| - 1];
      TimestampRun(input, c, init);
      if !ticks[|ticks| - 1].changed {
        match LastWhere(init, IsChange)
        case None =>
        case Some(j) => assert ticks[j] == init[j];
      }
    }
  }

  // DROPIF AND KEEPIF

  /** The initial value of `DropIf(pred, base, input)`, the parent holding `v`. */
  function DropIfStart(pred: Value -> bool, base: Value, v: Value): Value
  {
    if pred(v) then base else v
  }

  /** What a DropIf node may hold: its fallback, or a value it does not drop. */
  predicate Admissible(pred: Value -> bool, base: Value, v: Value)
  {
    v == base || !pred(v)
  }

  /** What `pred` lets through. */
  function Passes(pred: Value -> bool): Tick -> bool
  {
    (t: Tick) => t.changed && !pred(t.value)
  }

  /** DropIf holds the last changed value `pred` let through, or its
      initial value; it broadcasts a change exactly on those steps; and it
      never holds a value it drops other than its fallback. */
  lemma {:induction false} DropIfRun(pred: Value -> bool, base: Value, input: nat, c: Cell, ticks: seq<Tick>)
    requires Admissible(pred, base, c.value)
    ensures Run(Kind.DropIf(pred, input), c, ticks).value ==
            match LastWhere(ticks, Passes(pred))
            case None => c.value
            case Some(j) => ticks[j].value
    ensures forall j :: 0 <= j < |ticks| ==>
              Flags(Kind.DropIf(pred, input), c, ticks)[j] == (ticks[j].changed && !pred(ticks[j].value))
    ensures Admissible(pred, base, Run(Kind.DropIf(pred, input), c, ticks).value)
  {
    if ticks != [] {
      var k := Kind.DropIf(pred, input);
      var init := ticks[..|ticks| - 1];
      var t := ticks[|ticks| - 1];
      DropIfRun(pred, base, input, c, init);
      assert Flags(k, c, ticks)[..|init|] == Flags(k, c, init);
      assert Passes(pred)(t) == (t.changed && !pred(t.value));
      if !Passes(pred)(t) {
        match LastWhere(init, Passes(pred))
        case None =>
        case Some(j) => assert ticks[j] == init[j];
      }
    }
  }

  /** A DropIf as its constructor builds it, over a parent holding `v`: after
      any run it holds the last value `pred` let through, or its initial
      value, and never a dropped value other than its fallback. */
  lemma DropIfFromStart(pred: Value -> bool, base: Value, input: nat, v: Value, ticks: seq<Tick>)
    ensures var c := Fresh(DropIfStart(pred, base, v));
            && Run(Kind.DropIf(pred, input), c, ticks).value ==
               (match LastWhere(ticks, Passes(pred))
                case None => DropIfStart(pred, base, v)
                case Some(j) => ticks[j].value)
            && Admissible(pred, base, Run(Kind.DropIf(pred, input), c, ticks).value)
  {
    DropIfRun(pred, base, input, Fresh(DropIfStart(pred, base, v)), ticks);
  }

  /** The predicate `keepIf(isGood, ...)` hands to DropIf. */
  function Not(isGood: Value -> bool): Value -> bool
  {
    (x: Value) => !isGood(x)
  }

  /** `keepIf(isGood, base, s)` broadcasts a change exactly when the parent
      changed to a value `isGood` accepts, holds the last such value (the
      steps `Passes(Not(isGood))` selects) or its initial value, and only
      ever holds its fallback or an accepted value. */
  lemma KeepIfRun(isGood: Value -> bool, base: Value, input: nat, c: Cell, ticks: seq<Tick>)
    requires c.value == base || isGood(c.value)
    ensures forall j :: 0 <= j < |ticks| ==>
              Flags(Kind.DropIf(Not(isGood), input), c, ticks)[j] == (ticks[j].changed && isGood(ticks[j].value))
    ensures Run(Kind.DropIf(Not(isGood), input), c, ticks).value ==
            match LastWhere(ticks, Passes(Not(isGood)))
            case None => c.value
            case Some(j) => ticks[j].value
    ensures var v := Run(Kind.DropIf(Not(isGood), input), c, ticks).value; v == base || isGood(v)
  {
    assert forall x :: Not(isGood)(x) == !isGood(x);
    DropIfRun(Not(isGood), base, input, c, ticks);
  }

  function IsEven(v: Value): bool
  {
    v.Num? && v.n % 2 == 0
  }

  /** `keepIf isEven 0` over a parent holding 3 starts with the fallback 0,
      and moves to 4 once the parent changes to 4. */
  lemma KeepIfFallbackExample(input: nat)
    ensures var c := Fresh(DropIfStart(Not(IsEven), Num(0), Num(3)));
            && c.value == Num(0)
            && Run(Kind.DropIf(Not(IsEven), input), c, [Tick(1, true, Num(5))]).value == Num(0)
            && Run(Kind.DropIf(Not(IsEven), input), c, [Tick(1, true, Num(5)), Tick(2, true, Num(4))]).value == Num(4)
  {
    var c := Fresh(DropIfStart(Not(IsEven), Num(0), Num(3)));
    assert !IsEven(Num(3)) && !IsEven(Num(5)) && IsEven(Num(4));
    assert Not(IsEven)(Num(3)) == !IsEven(Num(3));
    assert Not(IsEven)(Num(5)) == !IsEven(Num(5));
    assert Not(IsEven)(Num(4)) == !IsEven(Num(4));
    assert [Tick(1, true, Num(5)), Tick(2, true, Num(4))][..1] == [Tick(1, true, Num(5))];
  }

  // DROPREPEATS

  /** The same value arriving in two successive steps, changed the first
      time, is not broadcast as a change the second time. */
  lemma DropRepeatsTwice(input: nat, c: Cell, t1: Tick, t2: Tick)
    requires t1.changed && t2.value == t1.value
    ensures !SingleRecv(Kind.DropRepeats(input), SingleRecv(Kind.DropRepeats(input), c, t1).after, t2).flag
  {
  }

  /** Step `j` of a DropRepeats run: it broadcasts a change exactly when the
      parent changed to a value other than the one it holds, and adopts the
      parent's value exactly then. */
  lemma DropRepeatsStep(input: nat, c: Cell, ticks: seq<Tick>, j: nat)
    requires j < |ticks|
    ensures Flags(Kind.DropRepeats(input), c, ticks)[j] ==
            (ticks[j].changed && ticks[j].value != Run(Kind.DropRepeats(input), c, ticks[..j]).value)
    ensures Run(Kind.DropRepeats(input), c, ticks[..j + 1]).value ==
            if Flags(Kind.DropRepeats(input), c, ticks)[j] then ticks[j].value
            else Run(Kind.DropRepeats(input), c, ticks[..j]).value
  {
    RunStep(Kind.DropRepeats(input), c, ticks, j);
  }

  /** DropRepeats never broadcasts the same value twice in a row: each value
      differs from the one broadcast just before it (an earlier one may come
      back), and the first from the initial value. */
  lemma {:induction false} DropRepeatsNoRepeat(input: nat, c: Cell, ticks: seq<Tick>)
    ensures var e := Emitted(Kind.DropRepeats(input), c, ticks);
            && (forall j :: 0 < j < |e| ==> e[j - 1] != e[j])
            && (|e| > 0 ==> e[0] != c.value)
  {
    var k := Kind.DropRepeats(input);
    if ticks != [] {
      var init := ticks[..|ticks| - 1];
      DropRepeatsNoRepeat(input, c, init);
      RunHoldsLastEmitted(k, c, init);
    }
  }

  /** DropRepeats broadcasts a change exactly when the parent changed to a
      value other than the one it holds, adopts the parent's value exactly
      then, and so it never broadcasts the same value twice in a row, and it
      holds the last value it broadcast. */
  lemma DropRepeatsRun(input: nat, c: Cell, ticks: seq<Tick>)
    ensures forall j :: 0 <= j < |ticks| ==>
              Flags(Kind.DropRepeats(input), c, ticks)[j] ==
              (ticks[j].changed && ticks[j].value != Run(Kind.DropRepeats(input), c, ticks[..j]).value)
    ensures forall j :: 0 <= j < |ticks| ==>
              Run(Kind.DropRepeats(input), c, ticks[..j + 1]).value ==
              if Flags(Kind.DropRepeats(input), c, ticks)[j] then ticks[j].value
              else Run(Kind.DropRepeats(input), c, ticks[..j]).value
    ensures var e := Emitted(Kind.DropRepeats(input), c, ticks);
            && (forall j :: 0 < j < |e| ==> e[j - 1] != e[j])
            && (|e| > 0 ==> e[0] != c.value)
    ensures Run(Kind.DropRepeats(input), c, ticks).value == Latest(c.value, Emitted(Kind.DropRepeats(input), c, ticks))
  {
    forall j | 0 <= j < |ticks| {
      DropRepeatsStep(input, c, ticks, j);
    }
    DropRepeatsNoRepeat(input, c, ticks);
    RunHoldsLastEmitted(Kind.DropRepeats(input), c, ticks);
  }

}
