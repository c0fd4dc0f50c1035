/** What building a node does to the arena, and the invariants building
    keeps.  A node registers itself with each of its parents, once per
    occurrence (`args[i].kids.push(this)` and the like), and an Input also
    registers itself with the runtime (`localRuntime.inputs.push(this)`). */
module Construction {

  import opened Nodes
  import opened Propagation

  /** `n` copies of `x`. */
  function Copies(x: nat, n: nat): (s: seq<nat>)
    ensures |s| == n
    ensures forall k :: 0 <= k < n ==> s[k] == x
  {
    if n == 0 then [] else Copies(x, n - 1) + [x]
  }

  lemma CopiesCount(x: nat, n: nat)
    ensures multiset(Copies(x, n))[x] == n
    ensures forall y :: y != x ==> multiset(Copies(x, n))[y] == 0
  {
    if n > 0 {
      CopiesCount(x, n - 1);
    }
  }

  /** Fan-in bookkeeping is consistent: node `k` occurs among the kids of `p`
      exactly as often as `p` occurs among the parents of `k`. */
  ghost predicate Registered(g: Graph)
  {
    forall p, k {:trigger multiset(g.kids[p])[k]} :: 0 <= p < |g.kids| && 0 <= k < |g.kinds| ==>
      multiset(g.kids[p])[k] == multiset(Parents(g.kinds[k]))[p]
  }

  /** In one broadcast of `p`, node `k` receives the step once for each time
      it lists `p` among its parents. */
  lemma BroadcastArrivals(g: Graph, p: nat, k: nat)
    requires Registered(g) && p < |g.kids| && k < |g.kinds|
    ensures multiset(Reversed(g.kids[p]))[k] == multiset(Parents(g.kinds[k]))[p]
  {
    ReversedAt(g.kids[p]);
  }

  /** `merge(x, x)` receives exactly two arrivals when `x` broadcasts, as its
      second-arrival rule expects. */
  lemma MergeSelfArrivals(g: Graph, x: nat, k: nat)
    requires Registered(g) && x < |g.kids| && k < |g.kinds| && g.kinds[k] == Kind.Merge(x, x)
    ensures multiset(Reversed(g.kids[x]))[k] == 2
  {
    BroadcastArrivals(g, x, k);
    assert multiset([x, x])[x] == 2;
  }

  /** `kids` is `before` with a new, kid-less node `id` appended and registered
      with the nodes of `ps`, once per occurrence, at the end of their kids. */
  ghost predicate Attached(before: seq<seq<nat>>, kids: seq<seq<nat>>, id: nat, ps: multiset<nat>)
  {
    && |before| == id && |kids| == id + 1 && kids[id] == []
    && forall p :: 0 <= p < id ==> kids[p] == before[p] + Copies(id, ps[p])
  }

  /** One `push` of the new node onto the kids of `p`. */
  lemma AttachPush(before: seq<seq<nat>>, kids: seq<seq<nat>>, id: nat, ps: multiset<nat>, p: nat)
    requires Attached(before, kids, id, ps) && p < id
    ensures Attached(before, kids[p := kids[p] + [id]], id, ps + multiset{p})
  {
  }

  /** The indices of the Input nodes, in the order they were built. */
  function InputIndices(kinds: seq<Kind>): (r: seq<nat>)
    ensures forall n :: 0 <= n < |r| ==> r[n] < |kinds| && kinds[r[n]].Input?
  {
    if kinds == [] then []
    else InputIndices(kinds[..|kinds| - 1]) + (if kinds[|kinds| - 1].Input? then [|kinds| - 1] else [])
  }

  /** Every Input is registered with the runtime, and nothing else is. */
  lemma {:induction false} InputIndicesExact(kinds: seq<Kind>, j: nat)
    ensures j in InputIndices(kinds) <==> j < |kinds| && kinds[j].Input?
  {
    if kinds != [] {
      InputIndicesExact(kinds[..|kinds| - 1], j);
    }
  }

  /** Building one more node registers it iff it is an Input. */
  lemma InputIndicesAppend(kinds: seq<Kind>, k: Kind)
    ensures InputIndices(kinds + [k]) == InputIndices(kinds) + (if k.Input? then [|kinds|] else [])
  {
    assert (kinds + [k])[..|kinds|] == kinds;
  }

  lemma OlderParents(k: Kind, j: nat, p: nat)
    requires Older(k, j) && p in Parents(k)
    ensures p < j
  {
  }

  /** After appending, every kid of `p` is still a kid of `p`. */
  lemma AttachKeepsKids(g: Graph, k: Kind, kids: seq<seq<nat>>, p: nat)
    requires WellFormed(g)
    requires Attached(g.kids, kids, |g.kinds|, multiset(Parents(k))) && p < |kids|
    ensures AllKids(Graph(g.kinds + [k], kids), p, kids[p])
  {
    var id := |g.kinds|;
    var g' := Graph(g.kinds + [k], kids);
    if p < id {
      var m := multiset(Parents(k))[p];
      forall n | 0 <= n < |kids[p]|
        ensures KidOf(g', p, kids[p][n])
      {
        if n < |g.kids[p]| {
          assert kids[p][n] == g.kids[p][n];
          assert KidOf(g, p, g.kids[p][n]);
          assert g'.kinds[kids[p][n]] == g.kinds[kids[p][n]];
        } else {
          assert kids[p][n] == Copies(id, m)[n - |g.kids[p]|] == id;
          assert m > 0;
        }
      }
    }
  }

  /** A new node is nobody's kid yet. */
  lemma NewNodeNotKid(g: Graph, p: nat)
    requires p < |g.kids| && AllKids(g, p, g.kids[p])
    ensures multiset(g.kids[p])[|g.kinds|] == 0
  {
  }

  /** After appending, an old node `p` occurs among the kids of `t` as often
      as `t` occurs among the parents of `p`. */
  lemma AttachKeepsCountOld(g: Graph, k: Kind, kids: seq<seq<nat>>, p: nat, t: nat)
    requires Registered(g) && |g.kids| == |g.kinds|
    requires p < |g.kinds| && t < |g.kinds| + 1 && AllKids(g, p, g.kids[p])
    requires Attached(g.kids, kids, |g.kinds|, multiset(Parents(k)))
    ensures multiset(kids[p])[t] == multiset(Parents((g.kinds + [k])[t]))[p]
  {
    var id := |g.kinds|;
    var m := multiset(Parents(k))[p];
    CopiesCount(id, m);
    assert multiset(kids[p]) == multiset(g.kids[p]) + multiset(Copies(id, m));
    if t == id {
      NewNodeNotKid(g, p);
    } else {
      assert (g.kinds + [k])[t] == g.kinds[t];
    }
  }

  /** The new node has no kids, and no node lists it as a parent. */
  lemma AttachKeepsCountNew(g: Graph, k: Kind, kids: seq<seq<nat>>, t: nat)
    requires forall j :: 0 <= j < |g.kinds| ==> Older(g.kinds[j], j)
    requires Older(k, |g.kinds|)
    requires Attached(g.kids, kids, |g.kinds|, multiset(Parents(k)))
    requires t < |g.kinds| + 1
    ensures multiset(kids[|g.kinds|])[t] == multiset(Parents((g.kinds + [k])[t]))[|g.kinds|]
  {
    var id := |g.kinds|;
    var kinds' := g.kinds + [k];
    if id in Parents(kinds'[t]) {
      if t < id {
        assert kinds'[t] == g.kinds[t];
        OlderParents(g.kinds[t], t, id);
      } else {
        OlderParents(k, id, id);
      }
    }
  }

  /** Appending a node whose parents all exist, and registering it with
      them, keeps the arena well formed. */
  lemma AttachKeepsWellFormed(g: Graph, k: Kind, kids: seq<seq<nat>>)
    requires WellFormed(g)
    requires Older(k, |g.kinds|)
    requires Attached(g.kids, kids, |g.kinds|, multiset(Parents(k)))
    ensures WellFormed(Graph(g.kinds + [k], kids))
  {
    var id := |g.kinds|;
    var g' := Graph(g.kinds + [k], kids);
    forall p | 0 <= p < |kids|
      ensures AllKids(g', p, kids[p])
    {
      AttachKeepsKids(g, k, kids, p);
    }
    forall j | 0 <= j < |g'.kinds|
      ensures Older(g'.kinds[j], j)
    {
      if j < id {
        assert g'.kinds[j] == g.kinds[j];
      }
    }
  }

  /** ... and keeps the fan-in counts consistent. */
  lemma AttachKeepsRegistered(g: Graph, k: Kind, kids: seq<seq<nat>>)
    requires WellFormed(g) && Registered(g)
    requires Older(k, |g.kinds|)
    requires Attached(g.kids, kids, |g.kinds|, multiset(Parents(k)))
    ensures Registered(Graph(g.kinds + [k], kids))
  {
    var id := |g.kinds|;
    var g' := Graph(g.kinds + [k], kids);
    forall p, t | 0 <= p < |kids| && 0 <= t < |g'.kinds|
      ensures multiset(kids[p])[t] == multiset(Parents(g'.kinds[t]))[p]
    {
      if p < id {
        AttachKeepsCountOld(g, k, kids, p, t);
      } else {
        AttachKeepsCountNew(g, k, kids, t);
      }
    }
  }

  /** Appending a node whose parents all exist, and registering it with
      them, keeps the arena well formed and the fan-in counts consistent. */
  lemma AttachKeepsReady(g: Graph, cells: seq<Cell>, k: Kind, c: Cell, kids: seq<seq<nat>>)
    requires Ready(g, cells) && Registered(g)
    requires Older(k, |g.kinds|) && Sound(k, c)
    requires Attached(g.kids, kids, |g.kinds|, multiset(Parents(k)))
    ensures Ready(Graph(g.kinds + [k], kids), cells + [c])
    ensures Registered(Graph(g.kinds + [k], kids))
  {
    var id := |g.kinds|;
    var g' := Graph(g.kinds + [k], kids);
    AttachKeepsWellFormed(g, k, kids);
    AttachKeepsRegistered(g, k, kids);
    forall j | 0 <= j < |cells| + 1
      ensures Sound(g'.kinds[j], (cells + [c])[j])
    {
      if j < id {
        assert g'.kinds[j] == g.kinds[j];
      }
    }
  }

  /** The state a runtime keeps between operations: a ready arena whose
      fan-in counts match the registrations, and the list of its Inputs. */
  ghost predicate Built(g: Graph, cells: seq<Cell>, inputs: seq<nat>)
  {
    Ready(g, cells) && Registered(g) && inputs == InputIndices(g.kinds)
  }

  /** Building a node keeps the runtime's state consistent, and registers
      the node with the runtime iff it is an Input. */
  lemma AttachKeepsBuilt(g: Graph, cells: seq<Cell>, inputs: seq<nat>, k: Kind, c: Cell, kids: seq<seq<nat>>)
    requires Built(g, cells, inputs)
    requires Older(k, |g.kinds|) && Sound(k, c)
    requires Attached(g.kids, kids, |g.kinds|, multiset(Parents(k)))
    ensures Built(Graph(g.kinds + [k], kids), cells + [c], inputs + (if k.Input? then [|g.kinds|] else []))
  {
    AttachKeepsReady(g, cells, k, c, kids);
    InputIndicesAppend(g.kinds, k);
  }

}
