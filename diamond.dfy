/** A diamond: one Input feeding two mappings that a `map2` joins.  The
    event reaches the join along both paths, and the join fires once, on
    the second arrival, with both of its parents already updated: no
    intermediate value mixing a new and a stale parent is ever computed. */
module Diamond {

  import opened Values
  import opened Nodes
  import opened Propagation

  function Inc(vs: seq<Value>): Value
  {
    if |vs| == 1 && vs[0].Num? then Num(vs[0].n + 1) else Num(0)
  }

  function Dbl(vs: seq<Value>): Value
  {
    if |vs| == 1 && vs[0].Num? then Num(2 * vs[0].n) else Num(0)
  }

  function Sum(vs: seq<Value>): Value
  {
    if |vs| == 2 && vs[0].Num? && vs[1].Num? then Num(vs[0].n + vs[1].n) else Num(0)
  }

  /** `input`, `map Inc input`, `map Dbl input`, `map2 Sum` of the two,
      registered as the constructors register them. */
  function Diamond(): Graph
  {
    Graph([Input, Lift(Inc, [0]), Lift(Dbl, [0]), Lift(Sum, [1, 2])], [[1, 2], [3], [3], []])
  }

  lemma DiamondWellFormed()
    ensures WellFormed(Diamond())
  {
    var g := Diamond();
    assert KidOf(g, 0, 1) && KidOf(g, 0, 2) && KidOf(g, 1, 3) && KidOf(g, 2, 3);
  }

  lemma DiamondOrder()
    ensures Reversed(Diamond().kids[0]) == [2, 1]
    ensures Reversed(Diamond().kids[1]) == [3] && Reversed(Diamond().kids[2]) == [3]
  {
    assert Reversed([1, 2]) == Reversed([2]) + [1];
  }

  /** Node 2 reaches the join first; the join only counts. */
  lemma JoinHolds(ts: int)
    ensures var c := [Fresh(Num(5)), Fresh(Num(1)), Cell(Num(10), 1, true, None), Fresh(Num(1))];
            && Ready(Diamond(), c)
            && Broadcast(Diamond(), c, 2, ts, true) == c[3 := Cell(Num(1), 1, true, None)]
  {
    DiamondWellFormed();
    DiamondOrder();
  }

  /** Node 2 fires and its broadcast reaches the join. */
  lemma RightFires(ts: int)
    ensures var c := [Fresh(Num(5)), Fresh(Num(1)), Fresh(Num(0)), Fresh(Num(1))];
            && Ready(Diamond(), c)
            && Recv(Diamond(), c, 2, ts, true, 0) == c[2 := Fresh(Num(10))][3 := Cell(Num(1), 1, true, None)]
  {
    DiamondWellFormed();
    JoinHolds(ts);
    var c := [Fresh(Num(5)), Fresh(Num(1)), Fresh(Num(0)), Fresh(Num(1))];
    assert ParentValues(c, [0]) == [Num(5)];
  }

  /** Node 1 reaches the join second; the join fires with both new values. */
  lemma JoinFires(ts: int)
    ensures var c := [Fresh(Num(5)), Cell(Num(6), 1, true, None), Fresh(Num(10)), Cell(Num(1), 1, true, None)];
            && Ready(Diamond(), c)
            && Broadcast(Diamond(), c, 1, ts, true) == c[3 := Fresh(Num(16))]
  {
    DiamondWellFormed();
    DiamondOrder();
    var c := [Fresh(Num(5)), Cell(Num(6), 1, true, None), Fresh(Num(10)), Cell(Num(1), 1, true, None)];
    assert ParentValues(c, [1, 2]) == [Num(6), Num(10)];
    assert Reversed(Diamond().kids[3]) == [];
  }

  /** Node 1 fires and its broadcast completes the join. */
  lemma LeftFires(ts: int)
    ensures var c := [Fresh(Num(5)), Fresh(Num(1)), Fresh(Num(10)), Cell(Num(1), 1, true, None)];
            && Ready(Diamond(), c)
            && Recv(Diamond(), c, 1, ts, true, 0) == [Fresh(Num(5)), Fresh(Num(6)), Fresh(Num(10)), Fresh(Num(16))]
  {
    DiamondWellFormed();
    JoinFires(ts);
    var c := [Fresh(Num(5)), Fresh(Num(1)), Fresh(Num(10)), Cell(Num(1), 1, true, None)];
    assert ParentValues(c, [0]) == [Num(5)];
  }

  /** The Input's broadcast, to node 2 first and then node 1. */
  lemma InputBroadcast(ts: int)
    ensures var c := [Fresh(Num(5)), Fresh(Num(1)), Fresh(Num(0)), Fresh(Num(1))];
            && Ready(Diamond(), c)
            && Broadcast(Diamond(), c, 0, ts, true) == [Fresh(Num(5)), Fresh(Num(6)), Fresh(Num(10)), Fresh(Num(16))]
  {
    DiamondWellFormed();
    DiamondOrder();
    ReversedKids(Diamond(), 0);
    RightFires(ts);
    LeftFires(ts);
    var g := Diamond();
    var c1 := [Fresh(Num(5)), Fresh(Num(1)), Fresh(Num(0)), Fresh(Num(1))];
    var c2 := Recv(g, c1, 2, ts, true, 0);
    assert [2, 1][1..] == [1] && [1][1..] == [];
    assert RecvAll(g, c1, 0, [2, 1], ts, true) == RecvAll(g, c2, 0, [1], ts, true);
  }

  /** The whole step: the event sets the Input to 5, both mappings follow,
      and the join holds 6 + 10 with its counters reset, having fired once. */
  lemma DiamondStep(ts: int)
    ensures var c := [Fresh(Num(0)), Fresh(Num(1)), Fresh(Num(0)), Fresh(Num(1))];
            && Ready(Diamond(), c)
            && InputStep(Diamond(), c, 0, ts, 0, Num(5)) == [Fresh(Num(5)), Fresh(Num(6)), Fresh(Num(10)), Fresh(Num(16))]
  {
    DiamondWellFormed();
    InputBroadcast(ts);
    var c := [Fresh(Num(0)), Fresh(Num(1)), Fresh(Num(0)), Fresh(Num(1))];
    assert c[0 := Fresh(Num(5))] == [Fresh(Num(5)), Fresh(Num(1)), Fresh(Num(0)), Fresh(Num(1))];
  }
}
