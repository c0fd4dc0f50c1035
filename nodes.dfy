/** The node kinds of the signal graph and what one node does with one
    arrival, in isolation from the rest of the graph.

    In src/Native/Signal.js every node is an object with a `value`, a `kids`
    array and a `recv` closure that may keep private counters.  Here a node
    is split into its immutable description (`Kind`: the user function and
    the indices of its parents, fixed when the node is built) and its mutable
    part (`Cell`: the value and the private counters).  A node's `recv` is a
    function from the cell and the arrival to a `Reaction`, which says whether
    the node broadcasts, with which flag, and what the cell is while the
    broadcast runs and after it. */
module Nodes {

  import opened Values

  /** One node kind per constructor of src/Native/Signal.js.  Parents are
      arena indices; `update` of a mapping node receives the current values
      of `args`, in the order of `args`. */
  datatype Kind =
    | Input
    | Lift(update: seq<Value> -> Value, args: seq<nat>)
    | Foldp(step: (Value, Value) -> Value, input: nat)
    | DropIf(pred: Value -> bool, input: nat)
    | DropRepeats(input: nat)
    | Timestamp(input: nat)
    | SampleOn(s1: nat, s2: nat)
    | Merge(s1: nat, s2: nat)

  /** The nodes a node registers itself with, once per occurrence. */
  function Parents(k: Kind): seq<nat>
  {
    match k
    case Input => []
    case Lift(_, args) => args
    case Foldp(_, input) => [input]
    case DropIf(_, input) => [input]
    case DropRepeats(input) => [input]
    case Timestamp(input) => [input]
    case SampleOn(s1, s2) => [s1, s2]
    case Merge(s1, s2) => [s1, s2]
  }

  /** Every parent of a node of kind `k` is older than node `j`. */
  predicate Older(k: Kind, j: nat)
  {
    match k
    case Input => true
    case Lift(_, args) => forall n :: 0 <= n < |args| ==> args[n] < j
    case Foldp(_, input) => input < j
    case DropIf(_, input) => input < j
    case DropRepeats(input) => input < j
    case Timestamp(input) => input < j
    case SampleOn(s1, s2) => s1 < j && s2 < j
    case Merge(s1, s2) => s1 < j && s2 < j
  }

  /** The kinds that wrap exactly one parent and react to every arrival. */
  predicate OneParent(k: Kind)
  {
    k.Foldp? || k.DropIf? || k.DropRepeats? || k.Timestamp?
  }

  /** The mutable part of a node: `value` and the closure variables `count`,
      `isChanged` and (Merge only) `next`.  Kinds without counters leave them
      at their initial values. */
  datatype Cell = Cell(value: Value, count: nat, isChanged: bool, next: Option<Value>)

  /** A freshly built node holding `v`. */
  function Fresh(v: Value): Cell
  {
    Cell(v, 0, false, None)
  }

  /** Between two steps a fan-in node has seen no arrival. */
  predicate Quiet(c: Cell)
  {
    c.count == 0 && !c.isChanged
  }

  /** What `recv` does with one arrival: either it only updates its private
      state (`Hold`), or it broadcasts `flag` to its kids while holding
      `during`, and is left holding `after` (counters reset). */
  datatype Reaction = Hold(cell: Cell) | Emit(flag: bool, during: Cell, after: Cell)
  {
    /** The cell once the arrival has been handled completely. */
    function Final(): Cell
    {
      if Hold? then cell else after
    }
  }

  /** What a one-parent node sees of its parent in one step. */
  datatype Tick = Tick(ts: int, changed: bool, value: Value)

  /** Input.recv (src/Native/Signal.js:29-37): the node changed iff the event
      is addressed to it; it broadcasts in every case. */
  function InputRecv(id: nat, c: Cell, eid: nat, v: Value): (r: Reaction)
    ensures r.Emit? && r.during == r.after
    ensures r.flag <==> eid == id
    ensures r.flag ==> r.after == c.(value := v)
    ensures !r.flag ==> r.after == c
  {
    var changed := eid == id;
    var c' := if changed then c.(value := v) else c;
    Emit(changed, c', c')
  }

  /** LiftN.recv (src/Native/Signal.js:53-69), `vals` being the current values
      of its `args` (so `n` is `|vals|`). */
  function LiftRecv(update: seq<Value> -> Value, vals: seq<Value>, c: Cell, changed: bool): (r: Reaction)
    ensures r.Emit? <==> c.count + 1 == |vals|
    ensures r.Hold? ==> r.cell == c.(count := c.count + 1, isChanged := c.isChanged || changed)
    ensures r.Emit? ==> Quiet(r.after) && r.after.value == r.during.value
  {
    var count := c.count + 1;
    var isChanged := c.isChanged || changed;
    if count == |vals| then
      var during := Cell(if isChanged then update(vals) else c.value, count, isChanged, c.next);
      Emit(isChanged, during, during.(count := 0, isChanged := false))
    else
      Hold(c.(count := count, isChanged := isChanged))
  }

  /** Foldp.recv (src/Native/Signal.js:115-121). */
  function FoldpRecv(step: (Value, Value) -> Value, c: Cell, t: Tick): (r: Reaction)
    ensures r.Emit? && r.during == r.after && r.flag == t.changed
    ensures r.after.value == if t.changed then step(t.value, c.value) else c.value
    ensures r.after.count == c.count && r.after.isChanged == c.isChanged && r.after.next == c.next
  {
    var c' := if t.changed then c.(value := step(t.value, c.value)) else c;
    Emit(t.changed, c', c')
  }

  /** DropIf.recv (src/Native/Signal.js:136-143). */
  function DropIfRecv(pred: Value -> bool, c: Cell, t: Tick): (r: Reaction)
    ensures r.Emit? && r.during == r.after
    ensures r.flag <==> t.changed && !pred(t.value)
    ensures r.flag ==> r.after == c.(value := t.value)
    ensures !r.flag ==> r.after == c
  {
    var chng := t.changed && !pred(t.value);
    var c' := if chng then c.(value := t.value) else c;
    Emit(chng, c', c')
  }

  /** DropRepeats.recv (src/Native/Signal.js:163-170), with `Utils.eq` as
      value equality. */
  function DropRepeatsRecv(c: Cell, t: Tick): (r: Reaction)
    ensures r.Emit? && r.during == r.after
    ensures r.flag <==> t.changed && t.value != c.value
    ensures r.flag ==> r.after == c.(value := t.value)
    ensures !r.flag ==> r.after == c
    ensures t.changed ==> r.after.value == t.value
  {
    var chng := t.changed && c.value != t.value;
    var c' := if chng then c.(value := t.value) else c;
    Emit(chng, c', c')
  }

  /** Timestamp.recv (src/Native/Signal.js:185-191). */
  function TimestampRecv(c: Cell, t: Tick): (r: Reaction)
    ensures r.Emit? && r.during == r.after && r.flag == t.changed
    ensures t.changed ==> r.after == c.(value := Tuple2(Num(t.ts), t.value))
    ensures !t.changed ==> r.after == c
  {
    var c' := if t.changed then c.(value := Tuple2(Num(t.ts), t.value)) else c;
    Emit(t.changed, c', c')
  }

  /** The reaction of a one-parent node to one step of its parent. */
  function SingleRecv(k: Kind, c: Cell, t: Tick): (r: Reaction)
    requires OneParent(k)
    ensures r.Emit? && r.during == r.after
    ensures r.after.count == c.count && r.after.isChanged == c.isChanged && r.after.next == c.next
    ensures !r.flag ==> r.after == c
    ensures r.flag ==> t.changed
  {
    match k
    case Foldp(step, _) => FoldpRecv(step, c, t)
    case DropIf(pred, _) => DropIfRecv(pred, c, t)
    case DropRepeats(_) => DropRepeatsRecv(c, t)
    case Timestamp(_) => TimestampRecv(c, t)
  }

  /** SampleOn.recv (src/Native/Signal.js:207-223), `v2` being the current
      value of `s2`. */
  function SampleOnRecv(s1: nat, v2: Value, c: Cell, changed: bool, from: nat): (r: Reaction)
    ensures r.Emit? <==> c.count == 1
    ensures r.Hold? ==> r.cell.value == c.value
    ensures r.Emit? ==> Quiet(r.after) && r.after.value == r.during.value
  {
    var isChanged := if from == s1 then changed else c.isChanged;
    var count := c.count + 1;
    if count == 2 then
      var during := c.(value := if isChanged then v2 else c.value, count := count, isChanged := isChanged);
      Emit(isChanged, during, during.(count := 0, isChanged := false))
    else
      Hold(c.(count := count, isChanged := isChanged))
  }

  /** Merge's private invariant: while a step is under way (fewer than two
      arrivals), a value is staged in `next` exactly when a change has been
      seen. */
  predicate Staged(c: Cell)
  {
    c.count < 2 ==> (c.next.Some? <==> c.isChanged)
  }

  /** The cell invariant a node of kind `k` keeps between arrivals. */
  predicate Sound(k: Kind, c: Cell)
  {
    k.Merge? ==> Staged(c)
  }

  /** Merge.recv (src/Native/Signal.js:261-287), `v1` and `v2` being the
      current values of `s1` and `s2`.  An arrival from `s2` stages its value
      only when nothing is staged yet; one from `s1` always overwrites. */
  function MergeRecv(s1: nat, s2: nat, v1: Value, v2: Value, c: Cell, changed: bool, from: nat): (r: Reaction)
    requires from == s1 || from == s2
    requires Staged(c)
    ensures r.Emit? <==> c.count == 1
    ensures r.Hold? ==> r.cell.value == c.value
    ensures r.Emit? ==> Quiet(r.after) && r.after.next.None? && r.after.value == r.during.value
    ensures r.Emit? ==> Staged(r.during)
    ensures Staged(r.Final())
  {
    var count := c.count + 1;
    var isChanged := c.isChanged || changed;
    var next :=
      if !changed then c.next
      else if from == s1 then Some(v1)
      else if from == s2 && c.next.None? then Some(v2)
      else c.next;
    if count == 2 then
      var during := Cell(if isChanged then next.value else c.value, count, isChanged, if isChanged then None else next);
      Emit(isChanged, during, during.(count := 0, isChanged := false))
    else
      Hold(Cell(c.value, count, isChanged, next))
  }

}
