/** One propagation step over the arena, as pure functions.

    The graph is an arena: node `j` is `kinds[j]`, its kids are `kids[j]`
    (indices, duplicates allowed, in registration order) and its mutable state
    is `cells[j]`.  A node is only ever registered with nodes built before it,
    so kids have larger indices than their parents; `|kinds| - i` bounds the
    depth of the recv -> broadcast -> recv recursion. */
module Propagation {

  import opened Values
  import opened Nodes

  datatype Graph = Graph(kinds: seq<Kind>, kids: seq<seq<nat>>)

  /** Node `t` is younger than `p` and lists `p` among its parents. */
  ghost predicate KidOf(g: Graph, p: nat, t: nat)
  {
    p < t < |g.kinds| && p in Parents(g.kinds[t])
  }

  /** Every element of `targets` may be notified by `p`. */
  ghost predicate AllKids(g: Graph, p: nat, targets: seq<nat>)
  {
    forall n :: 0 <= n < |targets| ==> KidOf(g, p, targets[n])
  }

  /** Parents are older than their kids, and every kid of `p` lists `p` among
      its parents. */
  ghost predicate WellFormed(g: Graph)
  {
    && |g.kinds| == |g.kids|
    && (forall j :: 0 <= j < |g.kinds| ==> Older(g.kinds[j], j))
    && (forall p :: 0 <= p < |g.kids| ==> AllKids(g, p, g.kids[p]))
  }

  /** A well-formed graph with one cell per node, each keeping its kind's
      cell invariant. */
  ghost predicate Ready(g: Graph, cells: seq<Cell>)
  {
    && WellFormed(g)
    && |cells| == |g.kinds|
    && (forall j :: 0 <= j < |cells| ==> Sound(g.kinds[j], cells[j]))
  }

  /** The current values of the nodes `args`, in order. */
  function ParentValues(cells: seq<Cell>, args: seq<nat>): (vs: seq<Value>)
    requires forall n :: 0 <= n < |args| ==> args[n] < |cells|
    ensures |vs| == |args|
    ensures forall k :: 0 <= k < |args| ==> vs[k] == cells[args[k]].value
  {
    if args == [] then [] else [cells[args[0]].value] + ParentValues(cells, args[1..])
  }

  function Reversed(s: seq<nat>): (r: seq<nat>)
  {
    if s == [] then [] else Reversed(s[1..]) + [s[0]]
  }

  /** Reversal puts the last element first and keeps every element. */
  lemma {:induction false} ReversedAt(s: seq<nat>)
    ensures |Reversed(s)| == |s|
    ensures forall k :: 0 <= k < |s| ==> Reversed(s)[k] == s[|s| - 1 - k]
    ensures multiset(Reversed(s)) == multiset(s)
  {
    if s != [] {
      ReversedAt(s[1..]);
      assert s == [s[0]] + s[1..];
    }
  }

  /** A broadcast notifies only kids. */
  lemma ReversedKids(g: Graph, p: nat)
    requires WellFormed(g) && p < |g.kids|
    ensures AllKids(g, p, Reversed(g.kids[p]))
  {
    ReversedAt(g.kids[p]);
  }

  /** So does the part of a broadcast already delivered: the suffix
      `kids[p][k..]`, reversed. */
  lemma SuffixKids(g: Graph, p: nat, k: nat)
    requires WellFormed(g) && p < |g.kids| && k <= |g.kids[p]|
    ensures AllKids(g, p, Reversed(g.kids[p][k..]))
  {
    ReversedAt(g.kids[p][k..]);
    assert AllKids(g, p, g.kids[p]);
  }

  /** What node `i` does with the arrival `(changed, from)` in step `ts`, its
      parents' values being read from `cells` at that moment. */
  function React(g: Graph, cells: seq<Cell>, i: nat, ts: int, changed: bool, from: nat): (r: Reaction)
    requires Ready(g, cells) && i < |cells| && from in Parents(g.kinds[i])
    ensures Sound(g.kinds[i], r.Final())
    ensures r.Emit? ==> Sound(g.kinds[i], r.during)
  {
    var c := cells[i];
    match g.kinds[i]
    case Lift(update, args) => LiftRecv(update, ParentValues(cells, args), c, changed)
    case Foldp(_, input) => SingleRecv(g.kinds[i], c, Tick(ts, changed, cells[input].value))
    case DropIf(_, input) => SingleRecv(g.kinds[i], c, Tick(ts, changed, cells[input].value))
    case DropRepeats(input) => SingleRecv(g.kinds[i], c, Tick(ts, changed, cells[input].value))
    case Timestamp(input) => SingleRecv(g.kinds[i], c, Tick(ts, changed, cells[input].value))
    case SampleOn(s1, s2) => SampleOnRecv(s1, cells[s2].value, c, changed, from)
    case Merge(s1, s2) => MergeRecv(s1, s2, cells[s1].value, cells[s2].value, c, changed, from)
  }

  /** `recv(timestep, changed, parentID)` on node `i`. */
  function Recv(g: Graph, cells: seq<Cell>, i: nat, ts: int, changed: bool, from: nat): (r: seq<Cell>)
    requires Ready(g, cells) && i < |cells| && from in Parents(g.kinds[i])
    ensures Ready(g, r)
    ensures forall j :: 0 <= j < i ==> r[j] == cells[j]
    ensures r[i] == React(g, cells, i, ts, changed, from).Final()
    decreases |g.kinds| - i, 3
  {
    Apply(g, cells, i, ts, React(g, cells, i, ts, changed, from))
  }

  /** Carries out a reaction of node `i`: store the new cell and, if the node
      fires, broadcast while holding `during` and settle on `after`. */
  function Apply(g: Graph, cells: seq<Cell>, i: nat, ts: int, rx: Reaction): (r: seq<Cell>)
    requires Ready(g, cells) && i < |cells|
    requires Sound(g.kinds[i], rx.Final())
    requires rx.Emit? ==> Sound(g.kinds[i], rx.during)
    ensures Ready(g, r)
    ensures forall j :: 0 <= j < i ==> r[j] == cells[j]
    ensures r[i] == rx.Final()
    ensures rx.Hold? ==> r == cells[i := rx.cell]
    decreases |g.kinds| - i, 2
  {
    match rx
    case Hold(c) => cells[i := c]
    case Emit(flag, during, after) => Broadcast(g, cells[i := during], i, ts, flag)[i := after]
  }

  /** broadcastToKids (src/Native/Signal.js:13-19): every kid of `i` receives
      the step and the flag, last registered first. */
  function Broadcast(g: Graph, cells: seq<Cell>, i: nat, ts: int, changed: bool): (r: seq<Cell>)
    requires Ready(g, cells) && i < |cells|
    ensures Ready(g, r)
    ensures forall j :: 0 <= j <= i ==> r[j] == cells[j]
    decreases |g.kinds| - i, 1
  {
    ReversedKids(g, i);
    RecvAll(g, cells, i, Reversed(g.kids[i]), ts, changed)
  }

  /** Delivers `(ts, changed, from)` to each of `targets` in turn. */
  function RecvAll(g: Graph, cells: seq<Cell>, from: nat, targets: seq<nat>, ts: int, changed: bool): (r: seq<Cell>)
    requires Ready(g, cells) && from < |cells|
    requires AllKids(g, from, targets)
    ensures Ready(g, r)
    ensures forall j :: 0 <= j <= from ==> r[j] == cells[j]
    decreases |g.kinds| - from, 0, |targets|
  {
    if targets == [] then cells
    else RecvAll(g, Recv(g, cells, targets[0], ts, changed, from), from, targets[1..], ts, changed)
  }

  /** Input.recv on node `i` (src/Native/Signal.js:29-37). */
  function InputStep(g: Graph, cells: seq<Cell>, i: nat, ts: int, eid: nat, v: Value): (r: seq<Cell>)
    requires Ready(g, cells) && i < |cells| && g.kinds[i].Input?
    ensures Ready(g, r)
    ensures forall j :: 0 <= j < i ==> r[j] == cells[j]
    ensures r[i] == (if eid == i then cells[i].(value := v) else cells[i])
  {
    Apply(g, cells, i, ts, InputRecv(i, cells[i], eid, v))
  }

  /** Delivering to `xs` and then to `ys` is delivering to `xs + ys`. */
  lemma {:induction false} RecvAllAppend(g: Graph, cells: seq<Cell>, from: nat, xs: seq<nat>, ys: seq<nat>, ts: int, changed: bool)
    requires Ready(g, cells) && from < |cells|
    requires AllKids(g, from, xs) && AllKids(g, from, ys)
    ensures RecvAll(g, cells, from, xs + ys, ts, changed)
         == RecvAll(g, RecvAll(g, cells, from, xs, ts, changed), from, ys, ts, changed)
    decreases |xs|
  {
    if xs == [] {
      assert xs + ys == ys;
    } else {
      assert (xs + ys)[0] == xs[0] && (xs + ys)[1..] == xs[1..] + ys;
      var c1 := Recv(g, cells, xs[0], ts, changed, from);
      RecvAllAppend(g, c1, from, xs[1..], ys, ts, changed);
    }
  }

  /** The step the broadcast loop takes: delivering to one more kid. */
  lemma RecvAllSnoc(g: Graph, cells: seq<Cell>, from: nat, xs: seq<nat>, t: nat, ts: int, changed: bool)
    requires Ready(g, cells) && from < |cells|
    requires AllKids(g, from, xs) && KidOf(g, from, t)
    ensures RecvAll(g, cells, from, xs + [t], ts, changed)
         == Recv(g, RecvAll(g, cells, from, xs, ts, changed), t, ts, changed, from)
  {
    RecvAllAppend(g, cells, from, xs, [t], ts, changed);
    var c1 := RecvAll(g, cells, from, xs, ts, changed);
    assert [t][1..] == [];
  }

  /** One turn of the decrementing broadcast loop: going from kid `k + 1`
      down to kid `k` is one more `Recv`, on a kid of the broadcaster. */
  lemma BroadcastTurn(g: Graph, cells: seq<Cell>, p: nat, k: nat, ts: int, changed: bool)
    requires Ready(g, cells) && p < |cells| && k < |g.kids[p]|
    ensures KidOf(g, p, g.kids[p][k])
    ensures AllKids(g, p, Reversed(g.kids[p][k + 1..]))
    ensures AllKids(g, p, Reversed(g.kids[p][k..]))
    ensures RecvAll(g, cells, p, Reversed(g.kids[p][k..]), ts, changed)
         == Recv(g, RecvAll(g, cells, p, Reversed(g.kids[p][k + 1..]), ts, changed), g.kids[p][k], ts, changed, p)
  {
    var s := g.kids[p];
    assert AllKids(g, p, s);
    assert s[k..][1..] == s[k + 1..];
    assert Reversed(s[k..]) == Reversed(s[k + 1..]) + [s[k]];
    SuffixKids(g, p, k + 1);
    SuffixKids(g, p, k);
    RecvAllSnoc(g, cells, p, Reversed(s[k + 1..]), s[k], ts, changed);
  }

}
