/** The runtime of src/Native/Signal.js as an object over an arena.

    `Runtime` owns every node built so far.  A node is an index into the
    arena: `kinds[j]` is what it is (its user function and parents),
    `kids[j]` the nodes registered with it, `cells[j]` its value and private
    counters.  `inputs` is `localRuntime.inputs`.  The constructors append a
    node and push it onto its parents' kids; the `recv` methods mutate
    `cells` in place and are proved equal to the functions of Propagation. */
module Signal {

  import opened Values
  import opened Nodes
  import opened Propagation
  import opened Construction
  import opened Behaviour

  /** The `k`-th argument of a mapping node (`vs` always has its arity). */
  function Arg(vs: seq<Value>, k: nat): Value
  {
    if k < |vs| then vs[k] else Num(0)
  }

  /** The `update` closure of `map` ... `map5`: the user function applied to
      the current values of the arguments, in order. */
  function Update1(func: Value -> Value): seq<Value> -> Value
  {
    (vs: seq<Value>) => func(Arg(vs, 0))
  }

  function Update2(func: (Value, Value) -> Value): seq<Value> -> Value
  {
    (vs: seq<Value>) => func(Arg(vs, 0), Arg(vs, 1))
  }

  function Update3(func: (Value, Value, Value) -> Value): seq<Value> -> Value
  {
    (vs: seq<Value>) => func(Arg(vs, 0), Arg(vs, 1), Arg(vs, 2))
  }

  function Update4(func: (Value, Value, Value, Value) -> Value): seq<Value> -> Value
  {
    (vs: seq<Value>) => func(Arg(vs, 0), Arg(vs, 1), Arg(vs, 2), Arg(vs, 3))
  }

  function Update5(func: (Value, Value, Value, Value, Value) -> Value): seq<Value> -> Value
  {
    (vs: seq<Value>) => func(Arg(vs, 0), Arg(vs, 1), Arg(vs, 2), Arg(vs, 3), Arg(vs, 4))
  }

  /** On 1 values, the closure of `map` calls the user function on them. */
  lemma Update1Applies(func: Value -> Value, vs: seq<Value>)
    requires |vs| == 1
    ensures Update1(func)(vs) == func(vs[0])
  {
    assert Arg(vs, 0) == vs[0];
    assert Update1(func)(vs) == func(Arg(vs, 0));
  }

  /** On 2 values, the closure of `map2` calls the user function on them. */
  lemma Update2Applies(func: (Value, Value) -> Value, vs: seq<Value>)
    requires |vs| == 2
    ensures Update2(func)(vs) == func(vs[0], vs[1])
  {
    assert Arg(vs, 0) == vs[0] && Arg(vs, 1) == vs[1];
    assert Update2(func)(vs) == func(Arg(vs, 0), Arg(vs, 1));
  }

  /** On 3 values, the closure of `map3` calls the user function on them. */
  lemma Update3Applies(func: (Value, Value, Value) -> Value, vs: seq<Value>)
    requires |vs| == 3
    ensures Update3(func)(vs) == func(vs[0], vs[1], vs[2])
  {
    assert Arg(vs, 0) == vs[0] && Arg(vs, 1) == vs[1] && Arg(vs, 2) == vs[2];
    assert Update3(func)(vs) == func(Arg(vs, 0), Arg(vs, 1), Arg(vs, 2));
  }

  /** On 4 values, the closure of `map4` calls the user function on them. */
  lemma Update4Applies(func: (Value, Value, Value, Value) -> Value, vs: seq<Value>)
    requires |vs| == 4
    ensures Update4(func)(vs) == func(vs[0], vs[1], vs[2], vs[3])
  {
    assert Arg(vs, 0) == vs[0] && Arg(vs, 1) == vs[1] && Arg(vs, 2) == vs[2] && Arg(vs, 3) == vs[3];
    assert Update4(func)(vs) == func(Arg(vs, 0), Arg(vs, 1), Arg(vs, 2), Arg(vs, 3));
  }

  /** On 5 values, the closure of `map5` calls the user function on them. */
  lemma Update5Applies(func: (Value, Value, Value, Value, Value) -> Value, vs: seq<Value>)
    requires |vs| == 5
    ensures Update5(func)(vs) == func(vs[0], vs[1], vs[2], vs[3], vs[4])
  {
    assert Arg(vs, 0) == vs[0] && Arg(vs, 1) == vs[1] && Arg(vs, 2) == vs[2] && Arg(vs, 3) == vs[3] && Arg(vs, 4) == vs[4];
    assert Update5(func)(vs) == func(Arg(vs, 0), Arg(vs, 1), Arg(vs, 2), Arg(vs, 3), Arg(vs, 4));
  }

  class Runtime {

    /** `localRuntime.timer.programStart`, the time Timestamp starts with. */
    const programStart: int

    var kinds: seq<Kind>
    var kids: seq<seq<nat>>
    var cells: seq<Cell>
    var inputs: seq<nat>

    ghost function Topology(): Graph
      reads this
    {
      Graph(kinds, kids)
    }

    ghost predicate Valid()
      reads this
    {
      Built(Topology(), cells, inputs)
    }

    constructor (programStart: int)
      ensures Valid()
      ensures this.programStart == programStart
      ensures kinds == [] && kids == [] && cells == [] && inputs == []
    {
      this.programStart := programStart;
      kinds, kids, cells, inputs := [], [], [], [];
    }

    // INPUTS

    /** `new Input(base)` (src/Native/Signal.js:24-39). */
    method NewInput(base: Value) returns (id: nat)
      requires Valid()
      modifies this
      ensures Valid() && id == |old(kinds)|
      ensures kinds == old(kinds) + [Input]
      ensures cells == old(cells) + [Fresh(base)]
      ensures kids == old(kids) + [[]]
      ensures inputs == old(inputs) + [id]
    {
      id := |kinds|;
      AttachKeepsBuilt(Topology(), cells, inputs, Input, Fresh(base), kids + [[]]);
      kinds := kinds + [Input];
      cells := cells + [Fresh(base)];
      kids := kids + [[]];
      inputs := inputs + [id];
    }

    /** `recv(timestep, eid, v)` of the Input `i` (src/Native/Signal.js:29-37). */
    method RecvInput(i: nat, timestep: int, eid: nat, v: Value) returns (changed: bool)
      requires Valid() && i < |kinds| && kinds[i].Input?
      modifies this`cells
      ensures Valid()
      ensures changed <==> eid == i
      ensures cells == InputStep(Topology(), old(cells), i, timestep, eid, v)
    {
      changed := eid == i;
      if changed {
        cells := cells[i := cells[i].(value := v)];
      }
      var c := cells[i];
      assert cells == old(cells)[i := c];
      assert InputRecv(i, old(cells)[i], eid, v) == Emit(changed, c, c);
      BroadcastToKids(i, timestep, changed);
      assert cells[i := c] == cells;
    }

    // MAPPING

    /** `new LiftN(update, args)` (src/Native/Signal.js:44-74): the value is
        computed once from the parents, and the node is pushed onto the kids
        of `args[n-1]`, ..., `args[0]`. */
    method LiftN(update: seq<Value> -> Value, args: seq<nat>) returns (id: nat)
      requires Valid()
      requires forall n :: 0 <= n < |args| ==> args[n] < |kinds|
      modifies this
      ensures Valid() && id == |old(kinds)|
      ensures kinds == old(kinds) + [Lift(update, args)]
      ensures cells == old(cells) + [Fresh(update(ParentValues(old(cells), args)))]
      ensures Attached(old(kids), kids, id, multiset(args))
      ensures inputs == old(inputs)
    {
      id := |kinds|;
      var value := update(ParentValues(cells, args));
      ghost var g0, cells0 := Topology(), cells;
      kinds := kinds + [Lift(update, args)];
      cells := cells + [Fresh(value)];
      kids := kids + [[]];
      PushOntoAll(g0.kids, id, args);
      AttachKeepsBuilt(g0, cells0, inputs, Lift(update, args), Fresh(value), kids);
    }

    /** The registration loop of LiftN (src/Native/Signal.js:70-73): pushes
        the new node `id` onto the kids of `args[n-1]`, ..., `args[0]`. */
    method PushOntoAll(ghost before: seq<seq<nat>>, id: nat, args: seq<nat>)
      requires Attached(before, kids, id, multiset{})
      requires forall n :: 0 <= n < |args| ==> args[n] < id
      modifies this`kids
      ensures Attached(before, kids, id, multiset(args))
    {
      var i := |args|;
      while i > 0
        invariant 0 <= i <= |args|
        invariant Attached(before, kids, id, multiset(args[i..]))
      {
        i := i - 1;
        assert args[i..] == [args[i]] + args[i + 1..];
        AttachPush(before, kids, id, multiset(args[i + 1..]), args[i]);
        kids := kids[args[i] := kids[args[i]] + [id]];
      }
      assert args[0..] == args;
    }

    /** `map(func, a)` (src/Native/Signal.js:76-81). */
    method Map(func: Value -> Value, a: nat) returns (id: nat)
      requires Valid() && a < |kinds|
      modifies this
      ensures Valid() && id == |old(kinds)|
      ensures kinds == old(kinds) + [Lift(Update1(func), [a])]
      ensures cells == old(cells) + [Fresh(func(old(cells)[a].value))]
      ensures Attached(old(kids), kids, id, multiset{a})
      ensures inputs == old(inputs)
    {
      ghost var pv := ParentValues(cells, [a]);
      assert pv == [cells[a].value];
      Update1Applies(func, pv);
      id := LiftN(Update1(func), [a]);
      assert multiset([a]) == multiset{a};
    }

    /** `map2(func, a, b)` (src/Native/Signal.js:82-87). */
    method Map2(func: (Value, Value) -> Value, a: nat, b: nat) returns (id: nat)
      requires Valid() && a < |kinds| && b < |kinds|
      modifies this
      ensures Valid() && id == |old(kinds)|
      ensures kinds == old(kinds) + [Lift(Update2(func), [a, b])]
      ensures cells == old(cells) + [Fresh(func(old(cells)[a].value, old(cells)[b].value))]
      ensures Attached(old(kids), kids, id, multiset{a, b})
      ensures inputs == old(inputs)
    {
      ghost var pv := ParentValues(cells, [a, b]);
      assert pv == [cells[a].value, cells[b].value];
      Update2Applies(func, pv);
      id := LiftN(Update2(func), [a, b]);
      assert multiset([a, b]) == multiset{a, b};
    }

    /** `map3(func, a, b, c)` (src/Native/Signal.js:88-93). */
    method Map3(func: (Value, Value, Value) -> Value, a: nat, b: nat, c: nat) returns (id: nat)
      requires Valid() && a < |kinds| && b < |kinds| && c < |kinds|
      modifies this
      ensures Valid() && id == |old(kinds)|
      ensures kinds == old(kinds) + [Lift(Update3(func), [a, b, c])]
      ensures cells == old(cells) + [Fresh(func(old(cells)[a].value, old(cells)[b].value, old(cells)[c].value))]
      ensures Attached(old(kids), kids, id, multiset{a, b, c})
      ensures inputs == old(inputs)
    {
      ghost var pv := ParentValues(cells, [a, b, c]);
      assert pv == [cells[a].value, cells[b].value, cells[c].value];
      Update3Applies(func, pv);
      id := LiftN(Update3(func), [a, b, c]);
      assert multiset([a, b, c]) == multiset{a, b, c};
    }

    /** `map4(func, a, b, c, d)` (src/Native/Signal.js:94-99). */
    method Map4(func: (Value, Value, Value, Value) -> Value, a: nat, b: nat, c: nat, d: nat) returns (id: nat)
      requires Valid() && a < |kinds| && b < |kinds| && c < |kinds| && d < |kinds|
      modifies this
      ensures Valid() && id == |old(kinds)|
      ensures kinds == old(kinds) + [Lift(Update4(func), [a, b, c, d])]
      ensures cells == old(cells) + [Fresh(func(old(cells)[a].value, old(cells)[b].value, old(cells)[c].value, old(cells)[d].value))]
      ensures Attached(old(kids), kids, id, multiset{a, b, c, d})
      ensures inputs == old(inputs)
    {
      ghost var pv := ParentValues(cells, [a, b, c, d]);
      assert pv == [cells[a].value, cells[b].value, cells[c].value, cells[d].value];
      Update4Applies(func, pv);
      id := LiftN(Update4(func), [a, b, c, d]);
      assert multiset([a, b, c, d]) == multiset{a, b, c, d};
    }

    /** `map5(func, a, b, c, d, e)` (src/Native/Signal.js:100-105). */
    method Map5(func: (Value, Value, Value, Value, Value) -> Value, a: nat, b: nat, c: nat, d: nat, e: nat) returns (id: nat)
      requires Valid() && a < |kinds| && b < |kinds| && c < |kinds| && d < |kinds| && e < |kinds|
      modifies this
      ensures Valid() && id == |old(kinds)|
      ensures kinds == old(kinds) + [Lift(Update5(func), [a, b, c, d, e])]
      ensures cells == old(cells) + [Fresh(func(old(cells)[a].value, old(cells)[b].value, old(cells)[c].value, old(cells)[d].value, old(cells)[e].value))]
      ensures Attached(old(kids), kids, id, multiset{a, b, c, d, e})
      ensures inputs == old(inputs)
    {
      ghost var pv := ParentValues(cells, [a, b, c, d, e]);
      assert pv == [cells[a].value, cells[b].value, cells[c].value, cells[d].value, cells[e].value];
      Update5Applies(func, pv);
      id := LiftN(Update5(func), [a, b, c, d, e]);
      assert multiset([a, b, c, d, e]) == multiset{a, b, c, d, e};
    }

    // ONE-PARENT NODES

    /** Appends node `k` holding `v`, with `input` as its only parent. */
    method AttachOne(k: Kind, v: Value, input: nat) returns (id: nat)
      requires Valid() && input < |kinds| && Parents(k) == [input]
      modifies this
      ensures Valid() && id == |old(kinds)|
      ensures kinds == old(kinds) + [k] && cells == old(cells) + [Fresh(v)]
      ensures Attached(old(kids), kids, id, multiset{input})
      ensures inputs == old(inputs)
    {
      id := |kinds|;
      ghost var g0, cells0 := Topology(), cells;
      kinds := kinds + [k];
      cells := cells + [Fresh(v)];
      kids := kids + [[]];
      AttachPush(g0.kids, kids, id, multiset{}, input);
      kids := kids[input := kids[input] + [id]];
      assert multiset{} + multiset{input} == multiset(Parents(k));
      AttachKeepsBuilt(g0, cells0, inputs, k, Fresh(v), kids);
    }

    /** `new Foldp(step, state, input)` (src/Native/Signal.js:110-123). */
    method Foldp(step: (Value, Value) -> Value, state: Value, input: nat) returns (id: nat)
      requires Valid() && input < |kinds|
      modifies this
      ensures Valid() && id == |old(kinds)|
      ensures kinds == old(kinds) + [Kind.Foldp(step, input)] && cells == old(cells) + [Fresh(state)]
      ensures Attached(old(kids), kids, id, multiset{input}) && inputs == old(inputs)
    {
      id := AttachOne(Kind.Foldp(step, input), state, input);
    }

    /** `new DropIf(pred, base, input)` (src/Native/Signal.js:132-145): the
        node starts with `base` if the parent's value is dropped. */
    method DropIf(pred: Value -> bool, base: Value, input: nat) returns (id: nat)
      requires Valid() && input < |kinds|
      modifies this
      ensures Valid() && id == |old(kinds)|
      ensures kinds == old(kinds) + [Kind.DropIf(pred, input)]
      ensures cells == old(cells) + [Fresh(DropIfStart(pred, base, old(cells)[input].value))]
      ensures Attached(old(kids), kids, id, multiset{input}) && inputs == old(inputs)
    {
      id := AttachOne(Kind.DropIf(pred, input), DropIfStart(pred, base, cells[input].value), input);
    }

    /** `keepIf(isGood, base, signal)` (src/Native/Signal.js:151-156): a
        DropIf whose predicate is the negation of `isGood`. */
    method KeepIf(isGood: Value -> bool, base: Value, input: nat) returns (id: nat)
      requires Valid() && input < |kinds|
      modifies this
      ensures Valid() && id == |old(kinds)|
      ensures kinds == old(kinds) + [Kind.DropIf(Not(isGood), input)]
      ensures cells == old(cells) + [Fresh(DropIfStart(Not(isGood), base, old(cells)[input].value))]
      ensures Attached(old(kids), kids, id, multiset{input}) && inputs == old(inputs)
    {
      id := DropIf(Not(isGood), base, input);
    }

    /** `new DropRepeats(input)` (src/Native/Signal.js:159-172). */
    method DropRepeats(input: nat) returns (id: nat)
      requires Valid() && input < |kinds|
      modifies this
      ensures Valid() && id == |old(kinds)|
      ensures kinds == old(kinds) + [Kind.DropRepeats(input)] && cells == old(cells) + [Fresh(old(cells)[input].value)]
      ensures Attached(old(kids), kids, id, multiset{input}) && inputs == old(inputs)
    {
      id := AttachOne(Kind.DropRepeats(input), cells[input].value, input);
    }

    /** `new Timestamp(input)` (src/Native/Signal.js:181-193): the first
        timestamp is the program's start time. */
    method Timestamp(input: nat) returns (id: nat)
      requires Valid() && input < |kinds|
      modifies this
      ensures Valid() && id == |old(kinds)|
      ensures kinds == old(kinds) + [Kind.Timestamp(input)]
      ensures cells == old(cells) + [Fresh(Tuple2(Num(programStart), old(cells)[input].value))]
      ensures Attached(old(kids), kids, id, multiset{input}) && inputs == old(inputs)
    {
      id := AttachOne(Kind.Timestamp(input), Tuple2(Num(programStart), cells[input].value), input);
    }

    // TWO-PARENT NODES

    /** Appends node `k` holding `v`, pushing it onto the kids of `s1` and
        then of `s2`. */
    method AttachTwo(k: Kind, v: Value, s1: nat, s2: nat) returns (id: nat)
      requires Valid() && s1 < |kinds| && s2 < |kinds| && Parents(k) == [s1, s2]
      modifies this
      ensures Valid() && id == |old(kinds)|
      ensures kinds == old(kinds) + [k] && cells == old(cells) + [Fresh(v)]
      ensures Attached(old(kids), kids, id, multiset{s1, s2})
      ensures inputs == old(inputs)
    {
      id := |kinds|;
      ghost var g0, cells0 := Topology(), cells;
      kinds := kinds + [k];
      cells := cells + [Fresh(v)];
      kids := kids + [[]];
      AttachPush(g0.kids, kids, id, multiset{}, s1);
      kids := kids[s1 := kids[s1] + [id]];
      AttachPush(g0.kids, kids, id, multiset{} + multiset{s1}, s2);
      kids := kids[s2 := kids[s2] + [id]];
      assert multiset{} + multiset{s1} + multiset{s2} == multiset(Parents(k));
      AttachKeepsBuilt(g0, cells0, inputs, k, Fresh(v), kids);
    }

    /** `new SampleOn(s1, s2)` (src/Native/Signal.js:199-226). */
    method SampleOn(s1: nat, s2: nat) returns (id: nat)
      requires Valid() && s1 < |kinds| && s2 < |kinds|
      modifies this
      ensures Valid() && id == |old(kinds)|
      ensures kinds == old(kinds) + [Kind.SampleOn(s1, s2)] && cells == old(cells) + [Fresh(old(cells)[s2].value)]
      ensures Attached(old(kids), kids, id, multiset{s1, s2}) && inputs == old(inputs)
    {
      id := AttachTwo(Kind.SampleOn(s1, s2), cells[s2].value, s1, s2);
    }

    /** `new Merge(s1, s2)` (src/Native/Signal.js:252-290). */
    method Merge(s1: nat, s2: nat) returns (id: nat)
      requires Valid() && s1 < |kinds| && s2 < |kinds|
      modifies this
      ensures Valid() && id == |old(kinds)|
      ensures kinds == old(kinds) + [Kind.Merge(s1, s2)] && cells == old(cells) + [Fresh(old(cells)[s1].value)]
      ensures Attached(old(kids), kids, id, multiset{s1, s2}) && inputs == old(inputs)
    {
      id := AttachTwo(Kind.Merge(s1, s2), cells[s1].value, s1, s2);
    }

    // PROPAGATION

    /** `broadcastToKids(node, timestep, changed)` (src/Native/Signal.js:13-19). */
    method BroadcastToKids(i: nat, timestep: int, changed: bool)
      requires Valid() && i < |kinds|
      modifies this`cells
      ensures Valid()
      ensures cells == Broadcast(Topology(), old(cells), i, timestep, changed)
      decreases |kinds| - i, 0
    {
      var k := |kids[i]|;
      SuffixKids(Topology(), i, k);
      while k > 0
        invariant 0 <= k <= |kids[i]|
        invariant Valid()
        invariant AllKids(Topology(), i, Reversed(kids[i][k..]))
        invariant cells == RecvAll(Topology(), old(cells), i, Reversed(kids[i][k..]), timestep, changed)
      {
        k := k - 1;
        BroadcastTurn(Topology(), old(cells), i, k, timestep, changed);
        Recv(kids[i][k], timestep, changed, i);
      }
      assert kids[i][0..] == kids[i];
    }

    /** `kids[i].recv(timestep, changed, parentID)`: the `recv` of whatever
        kind node `i` is (an Input is never anybody's kid). */
    method Recv(i: nat, timestep: int, changed: bool, parentID: nat)
      requires Valid() && i < |kinds| && parentID in Parents(kinds[i])
      modifies this`cells
      ensures Valid()
      ensures cells == Propagation.Recv(Topology(), old(cells), i, timestep, changed, parentID)
      decreases |kinds| - i, 2
    {
      match kinds[i]
      case Lift(_, _) => RecvLift(i, timestep, changed, parentID);
      case Foldp(_, _) => RecvFoldp(i, timestep, changed, parentID);
      case DropIf(_, _) => RecvDropIf(i, timestep, changed, parentID);
      case DropRepeats(_) => RecvDropRepeats(i, timestep, changed, parentID);
      case Timestamp(_) => RecvTimestamp(i, timestep, changed, parentID);
      case SampleOn(_, _) => RecvSampleOn(i, timestep, changed, parentID);
      case Merge(_, _) => RecvMerge(i, timestep, changed, parentID);
    }

    /** LiftN's `recv` (src/Native/Signal.js:53-69). */
    method RecvLift(i: nat, timestep: int, changed: bool, parentID: nat)
      requires Valid() && i < |kinds| && kinds[i].Lift? && parentID in Parents(kinds[i])
      modifies this`cells
      ensures Valid()
      ensures cells == Propagation.Recv(Topology(), old(cells), i, timestep, changed, parentID)
      decreases |kinds| - i, 1
    {
      var update, args := kinds[i].update, kinds[i].args;
      var c := cells[i];
      c := c.(count := c.count + 1);
      if changed {
        c := c.(isChanged := true);
      }
      if c.count == |args| {
        if c.isChanged {
          c := c.(value := update(ParentValues(cells, args)));
        }
        assert React(Topology(), old(cells), i, timestep, changed, parentID) == Emit(c.isChanged, c, c.(isChanged := false, count := 0));
        cells := cells[i := c];
        BroadcastToKids(i, timestep, c.isChanged);
        cells := cells[i := c.(isChanged := false, count := 0)];
      } else {
        assert React(Topology(), old(cells), i, timestep, changed, parentID) == Hold(c);
        cells := cells[i := c];
      }
    }

    /** Foldp's `recv` (src/Native/Signal.js:115-121). */
    method RecvFoldp(i: nat, timestep: int, changed: bool, parentID: nat)
      requires Valid() && i < |kinds| && kinds[i].Foldp? && parentID in Parents(kinds[i])
      modifies this`cells
      ensures Valid()
      ensures cells == Propagation.Recv(Topology(), old(cells), i, timestep, changed, parentID)
      decreases |kinds| - i, 1
    {
      var step, input := kinds[i].step, kinds[i].input;
      var c := cells[i];
      if changed {
        c := c.(value := step(cells[input].value, c.value));
        cells := cells[i := c];
      }
      assert cells == old(cells)[i := c];
      assert React(Topology(), old(cells), i, timestep, changed, parentID) == Emit(changed, c, c);
      BroadcastToKids(i, timestep, changed);
      assert cells[i := c] == cells;
    }

    /** DropIf's `recv` (src/Native/Signal.js:136-143). */
    method RecvDropIf(i: nat, timestep: int, changed: bool, parentID: nat)
      requires Valid() && i < |kinds| && kinds[i].DropIf? && parentID in Parents(kinds[i])
      modifies this`cells
      ensures Valid()
      ensures cells == Propagation.Recv(Topology(), old(cells), i, timestep, changed, parentID)
      decreases |kinds| - i, 1
    {
      var pred, input := kinds[i].pred, kinds[i].input;
      var c := cells[i];
      var chng := changed && !pred(cells[input].value);
      if chng {
        c := c.(value := cells[input].value);
        cells := cells[i := c];
      }
      assert cells == old(cells)[i := c];
      assert React(Topology(), old(cells), i, timestep, changed, parentID) == Emit(chng, c, c);
      BroadcastToKids(i, timestep, chng);
      assert cells[i := c] == cells;
    }

    /** DropRepeats' `recv` (src/Native/Signal.js:163-170). */
    method RecvDropRepeats(i: nat, timestep: int, changed: bool, parentID: nat)
      requires Valid() && i < |kinds| && kinds[i].DropRepeats? && parentID in Parents(kinds[i])
      modifies this`cells
      ensures Valid()
      ensures cells == Propagation.Recv(Topology(), old(cells), i, timestep, changed, parentID)
      decreases |kinds| - i, 1
    {
      var input := kinds[i].input;
      var c := cells[i];
      var chng := changed && c.value != cells[input].value;
      if chng {
        c := c.(value := cells[input].value);
        cells := cells[i := c];
      }
      assert cells == old(cells)[i := c];
      assert React(Topology(), old(cells), i, timestep, changed, parentID) == Emit(chng, c, c);
      BroadcastToKids(i, timestep, chng);
      assert cells[i := c] == cells;
    }

    /** Timestamp's `recv` (src/Native/Signal.js:185-191). */
    method RecvTimestamp(i: nat, timestep: int, changed: bool, parentID: nat)
      requires Valid() && i < |kinds| && kinds[i].Timestamp? && parentID in Parents(kinds[i])
      modifies this`cells
      ensures Valid()
      ensures cells == Propagation.Recv(Topology(), old(cells), i, timestep, changed, parentID)
      decreases |kinds| - i, 1
    {
      var input := kinds[i].input;
      var c := cells[i];
      if changed {
        c := c.(value := Tuple2(Num(timestep), cells[input].value));
        cells := cells[i := c];
      }
      assert cells == old(cells)[i := c];
      assert React(Topology(), old(cells), i, timestep, changed, parentID) == Emit(changed, c, c);
      BroadcastToKids(i, timestep, changed);
      assert cells[i := c] == cells;
    }

    /** SampleOn's `recv` (src/Native/Signal.js:207-223). */
    method RecvSampleOn(i: nat, timestep: int, changed: bool, parentID: nat)
      requires Valid() && i < |kinds| && kinds[i].SampleOn? && parentID in Parents(kinds[i])
      modifies this`cells
      ensures Valid()
      ensures cells == Propagation.Recv(Topology(), old(cells), i, timestep, changed, parentID)
      decreases |kinds| - i, 1
    {
      var s1, s2 := kinds[i].s1, kinds[i].s2;
      var c := cells[i];
      if parentID == s1 {
        c := c.(isChanged := changed);
      }
      c := c.(count := c.count + 1);
      if c.count == 2 {
        if c.isChanged {
          c := c.(value := cells[s2].value);
        }
        assert React(Topology(), old(cells), i, timestep, changed, parentID) == Emit(c.isChanged, c, c.(isChanged := false, count := 0));
        cells := cells[i := c];
        BroadcastToKids(i, timestep, c.isChanged);
        cells := cells[i := c.(count := 0, isChanged := false)];
      } else {
        assert React(Topology(), old(cells), i, timestep, changed, parentID) == Hold(c);
        cells := cells[i := c];
      }
    }

    /** Merge's `recv` (src/Native/Signal.js:261-287). */
    method RecvMerge(i: nat, timestep: int, changed: bool, parentID: nat)
      requires Valid() && i < |kinds| && kinds[i].Merge? && parentID in Parents(kinds[i])
      modifies this`cells
      ensures Valid()
      ensures cells == Propagation.Recv(Topology(), old(cells), i, timestep, changed, parentID)
      decreases |kinds| - i, 1
    {
      var s1, s2 := kinds[i].s1, kinds[i].s2;
      ghost var rx := MergeRecv(s1, s2, cells[s1].value, cells[s2].value, cells[i], changed, parentID);
      assert React(Topology(), cells, i, timestep, changed, parentID) == rx;
      var c := cells[i];
      c := c.(count := c.count + 1);
      if changed {
        c := c.(isChanged := true);
        if parentID == s2 && c.next.None? {
          c := c.(next := Some(cells[s2].value));
        }
        if parentID == s1 {
          c := c.(next := Some(cells[s1].value));
        }
      }
      if c.count == 2 {
        if c.isChanged {
          c := c.(value := c.next.value, next := None);
        }
        assert rx == Emit(c.isChanged, c, c.(isChanged := false, count := 0));
        cells := cells[i := c];
        BroadcastToKids(i, timestep, c.isChanged);
        cells := cells[i := c.(isChanged := false, count := 0)];
      } else {
        assert rx == Hold(c);
        cells := cells[i := c];
      }
    }

  }

}
