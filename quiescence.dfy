/** Change flags are honest: a step that starts from an unchanged arrival
    changes no value anywhere below it.  Every node computes its new value
    only when a change reached it (LiftN, Foldp, Timestamp, SampleOn, Merge)
    or when a changed value passes its filter (DropIf, DropRepeats), so an
    event addressed to another Input leaves the whole graph as it was,
    provided no node is half-way through a step with a change pending. */
module Quiescence {

  import opened Values
  import opened Nodes
  import opened Propagation

  /** No change is pending in the node: no arrival of the current step was
      marked changed, and Merge has nothing staged. */
  predicate Calm(c: Cell)
  {
    !c.isChanged && c.next.None?
  }

  ghost predicate AllCalm(cells: seq<Cell>)
  {
    forall j :: 0 <= j < |cells| ==> Calm(cells[j])
  }

  /** `after` holds the same values as `before`. */
  ghost predicate SameValues(before: seq<Cell>, after: seq<Cell>)
  {
    |before| == |after| && forall j :: 0 <= j < |before| ==> after[j].value == before[j].value
  }

  /** One unchanged arrival at a calm node leaves its value as it was,
      leaves it calm, and is passed on, if at all, as unchanged. */
  lemma ReactQuiet(g: Graph, cells: seq<Cell>, i: nat, ts: int, from: nat)
    requires Ready(g, cells) && i < |cells| && from in Parents(g.kinds[i]) && Calm(cells[i])
    ensures var rx := React(g, cells, i, ts, false, from);
            && rx.Final().value == cells[i].value && Calm(rx.Final())
            && (rx.Emit? ==> !rx.flag && rx.during.value == cells[i].value && Calm(rx.during))
  {
  }

  /** In a graph where no node has a change pending, an unchanged arrival at
      node `i` changes no value and leaves every node calm. */
  lemma {:induction false} RecvQuiet(g: Graph, cells: seq<Cell>, i: nat, ts: int, from: nat)
    requires Ready(g, cells) && AllCalm(cells) && i < |cells| && from in Parents(g.kinds[i])
    ensures SameValues(cells, Recv(g, cells, i, ts, false, from))
    ensures AllCalm(Recv(g, cells, i, ts, false, from))
    decreases |g.kinds| - i, 3
  {
    var rx := React(g, cells, i, ts, false, from);
    ReactQuiet(g, cells, i, ts, from);
    match rx
    case Hold(c) =>
    case Emit(flag, during, after) =>
      var mid := cells[i := during];
      BroadcastQuiet(g, mid, i, ts);
  }

  /** In a calm graph, an unchanged broadcast changes no value and leaves
      every node calm. */
  lemma {:induction false} BroadcastQuiet(g: Graph, cells: seq<Cell>, i: nat, ts: int)
    requires Ready(g, cells) && AllCalm(cells) && i < |cells|
    ensures SameValues(cells, Broadcast(g, cells, i, ts, false))
    ensures AllCalm(Broadcast(g, cells, i, ts, false))
    decreases |g.kinds| - i, 1
  {
    ReversedKids(g, i);
    RecvAllQuiet(g, cells, i, Reversed(g.kids[i]), ts);
  }

  lemma {:induction false} RecvAllQuiet(g: Graph, cells: seq<Cell>, from: nat, targets: seq<nat>, ts: int)
    requires Ready(g, cells) && AllCalm(cells) && from < |cells| && AllKids(g, from, targets)
    ensures SameValues(cells, RecvAll(g, cells, from, targets, ts, false))
    ensures AllCalm(RecvAll(g, cells, from, targets, ts, false))
    decreases |g.kinds| - from, 0, |targets|
  {
    if targets != [] {
      assert KidOf(g, from, targets[0]);
      var next := Recv(g, cells, targets[0], ts, false, from);
      RecvQuiet(g, cells, targets[0], ts, from);
      assert AllKids(g, from, targets[1..]) by {
        forall n | 0 <= n < |targets[1..]|
          ensures KidOf(g, from, targets[1..][n])
        {
          assert targets[1..][n] == targets[n + 1];
        }
      }
      RecvAllQuiet(g, next, from, targets[1..], ts);
    }
  }

  /** An event addressed to another node reaches Input `i`: nothing in the
      graph changes value, and nothing is left pending. */
  lemma InputQuiet(g: Graph, cells: seq<Cell>, i: nat, ts: int, eid: nat, v: Value)
    requires Ready(g, cells) && AllCalm(cells) && i < |cells| && g.kinds[i].Input? && eid != i
    ensures SameValues(cells, InputStep(g, cells, i, ts, eid, v))
    ensures AllCalm(InputStep(g, cells, i, ts, eid, v))
  {
    var rx := InputRecv(i, cells[i], eid, v);
    assert cells[i := rx.during] == cells;
    BroadcastQuiet(g, cells, i, ts);
  }

}
