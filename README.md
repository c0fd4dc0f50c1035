# Elm signal propagation engine, modelled in Dafny

This project models `src/Native/Signal.js`, the push-based engine that evaluates an
Elm program's signal graph. Every node holds a `value`, a list of `kids` and a
`recv(timestep, changed, parentID)` procedure. An external event is handed to every Input.
The Input it is addressed to takes the new value. Every Input then broadcasts the step,
with its change flag, to its kids. Each kid decides whether it changed and broadcasts
in turn. Fan-in nodes (LiftN over `n` parents, SampleOn, Merge) count arrivals, and
fire only when every parent occurrence has reported. This counting is what makes a step
glitch-free.

## Structure

- `values.dfy`: the payloads (`Value`: numbers and pairs) and `Option`.
- `nodes.dfy`: the node kinds (`Kind`), each node's mutable part (`Cell`: value,
  `count`, `isChanged`, `next`), and one function per node kind. Each function
  says what that kind's `recv` does with one arrival (`Reaction`).
- `propagation.dfy`: the graph as an arena (`Graph`: node `j` is `kinds[j]`, its
  kids are `kids[j]`), and one propagation step as mutually recursive functions
  (`Recv`, `Apply`, `Broadcast`, `RecvAll`, `InputStep`). This module also defines
  the invariant: parents are older than kids, and every kid lists its parent.
- `construction.dfy`: what building a node does to the arena. It proves that
  registering with the parents keeps the invariant and the fan-in counts
  consistent (`Registered`: `k` occurs among `p`'s kids exactly as often as `p`
  occurs among `k`'s parents).
- `signal.dfy`: `Runtime`, a class holding the arena in fields.
  - Its constructors (`NewInput`, `LiftN`, `Map`..`Map5`, `Foldp`, `DropIf`,
    `KeepIf`, `DropRepeats`, `Timestamp`, `SampleOn`, `Merge`) append a node and
    push it onto its parents' kids.
  - Its `recv` methods (`RecvInput`, `Recv` with one method per kind,
    `BroadcastToKids` with its decrementing loop) update `cells` in place.
  - Each `recv` method is proved equal to the function of `propagation.dfy` it
    implements; the constructors are tied to `construction.dfy` through `Attached`
    and the runtime invariant `Built`.
- `behaviour.dfy`: one-parent nodes over many steps. Foldp is a left fold,
  Timestamp holds the last change, DropIf/keepIf hold the last value that passed,
  and DropRepeats never broadcasts the same value twice in a row.
- `fanin.dfy`: LiftN, SampleOn and Merge within one step. They fire once, on the
  last arrival, and the outcome does not depend on the arrival order.
- `quiescence.dfy`: when no node has a change pending (`AllCalm`), an unchanged
  arrival changes no value anywhere below it.
- `diamond.dfy`: a worked step through `input → map Inc, map Dbl → map2 Sum`.

Node identifiers are arena indices: node `j` is the `j`-th node built. A node is only
ever registered with nodes built before it, so `|kinds| - i` bounds the depth of the
recv → broadcast → recv recursion.

Kids are notified last registered first (`for (var i = kids.length; i--; )`,
src/Native/Signal.js:15); `Broadcast` delivers to `Reversed(kids[i])`.

## Model

| member | source | states |
|---|---|---|
| Nodes.InputRecv | src/Native/Signal.js:29-37 | the Input reports a change exactly when the event id is its own, and replaces its value by `v` only then; it broadcasts in either case |
| Nodes.LiftRecv | src/Native/Signal.js:53-69 | LiftN fires exactly on the `n`-th arrival; before that it only counts and ORs the flag, keeping its value; after firing its counters are reset and it holds the value it broadcast |
| Nodes.FoldpRecv | src/Native/Signal.js:115-121 | Foldp forwards its parent's flag unmodified; on a change it takes `step(parent value, old value)`, otherwise keeps its value; its counters are untouched (over many steps: `Behaviour.FoldpRun`) |
| Nodes.DropIfRecv | src/Native/Signal.js:136-143 | DropIf reports a change exactly when the parent changed to a value `pred` does not drop, takes that value exactly then, and otherwise keeps its cell (over many steps: `Behaviour.DropIfRun`) |
| Nodes.DropRepeatsRecv | src/Native/Signal.js:163-170 | DropRepeats reports a change exactly when the parent changed to a value other than the one it holds, takes that value exactly then, and otherwise keeps its cell; after any changed arrival it holds the parent's value (over many steps: `Behaviour.DropRepeatsRun`) |
| Nodes.TimestampRecv | src/Native/Signal.js:185-191 | Timestamp forwards its parent's flag unmodified, takes `(timestep, parent value)` on a change and otherwise keeps its cell (over many steps: `Behaviour.TimestampRun`) |
| Nodes.SingleRecv | src/Native/Signal.js:115-191 | a one-parent node reacts to every arrival by broadcasting; it reports a change only if its parent did, and keeps its cell unchanged when it reports none |
| Nodes.SampleOnRecv | src/Native/Signal.js:207-223 | SampleOn fires exactly on its second arrival, keeps its value on the first, and resets its counters after firing |
| Nodes.MergeRecv | src/Native/Signal.js:261-287 | Merge fires exactly on its second arrival, keeps its value on the first, and after firing has its counters reset and nothing staged; a value is staged exactly when a change was seen |
| Propagation.ParentValues | src/Native/Signal.js:76-105 | the values handed to a mapping's function are the parents' current values, in argument order |
| Propagation.ReversedAt | src/Native/Signal.js:15-18 | the broadcast order visits the kids last registered first, each occurrence of a kid exactly once |
| Propagation.ReversedKids | src/Native/Signal.js:13-19 | everything a broadcast notifies is a kid that lists the broadcaster among its parents |
| Propagation.SuffixKids | src/Native/Signal.js:15-18 | so is every suffix `kids[p][k..]`, the part the decrementing loop has already visited once its index reaches `k` |
| Propagation.React | src/Native/Signal.js:53-287 | every node's reaction preserves Merge's staging invariant |
| Propagation.Recv | src/Native/Signal.js:17 | a `recv` leaves the graph well formed, never touches a node older than the receiver, and leaves the receiver in its reaction's final state |
| Propagation.Apply | src/Native/Signal.js:29-287 | a node that holds changes only its own cell; a node that fires is left on its reset cell; no older node is touched and the graph stays well formed |
| Propagation.Broadcast | src/Native/Signal.js:13-19 | broadcasting leaves the broadcaster and every older node untouched and the graph well formed |
| Propagation.RecvAll | src/Native/Signal.js:15-18 | delivering to a sequence of kids leaves the sender and older nodes untouched |
| Propagation.InputStep | src/Native/Signal.js:29-37 | after an Input's `recv` it holds `v` if the event was addressed to it and its old value otherwise, and no older node is touched |
| Propagation.RecvAllAppend | src/Native/Signal.js:15-18 | delivering to `xs + ys` is delivering to `xs` then to `ys` |
| Propagation.RecvAllSnoc | src/Native/Signal.js:15-18 | one more turn of the broadcast loop is one more `recv` |
| Propagation.BroadcastTurn | src/Native/Signal.js:15-18 | one turn of the decrementing loop, from kid `k + 1` down to kid `k`, is one more `recv` on a kid of the broadcaster |
| Construction.InputIndices | src/Native/Signal.js:38 | the runtime's input list holds only Inputs |
| Construction.InputIndicesExact | src/Native/Signal.js:38 | a node is in the runtime's input list exactly when it is an Input |
| Construction.InputIndicesAppend | src/Native/Signal.js:38 | building a node adds it to the input list exactly when it is an Input |
| Construction.BroadcastArrivals | src/Native/Signal.js:15-18 | in one broadcast of `p`, each node receives the step exactly as many times as it lists `p` among its parents |
| Construction.MergeSelfArrivals | src/Native/Signal.js:252-287 | `merge(x, x)` receives exactly two arrivals when `x` broadcasts, the number its second-arrival rule waits for |
| Construction.AttachPush | src/Native/Signal.js:72 | one `kids.push(this)` registers the new node with one more parent occurrence |
| Construction.AttachKeepsWellFormed | src/Native/Signal.js:70-73 | appending a node whose parents exist and registering it with them keeps parents older than kids and every kid listing its parent |
| Construction.AttachKeepsRegistered | src/Native/Signal.js:70-73 | registering the new node once per parent occurrence keeps every node's fan-in count equal to its registrations |
| Construction.AttachKeepsReady | src/Native/Signal.js:70-73 | appending a node whose parents exist and registering it with each parent occurrence keeps the graph well formed and the fan-in counts consistent |
| Construction.AttachKeepsBuilt | src/Native/Signal.js:38 | building a node keeps the runtime's state consistent, and adds the node to the runtime's inputs exactly when it is an Input |
| Behaviour.Run | src/Native/Signal.js:115-191 | a one-parent node's counters are never touched by its `recv`; only its value changes |
| Behaviour.RunStep | src/Native/Signal.js:115-191 | step `j` of a run is the node's `recv` of tick `j` in the state the earlier steps left it in, both for the flag broadcast and the new state |
| Behaviour.RunHoldsLastEmitted | src/Native/Signal.js:115-191 | a one-parent node holds the last value it broadcast as changed, or its initial value if it never did, and reports a change only in steps where its parent changed |
| Behaviour.FoldpRun | src/Native/Signal.js:115-121 | Foldp holds `step` folded from the left over the parent's changed values, newest value first, and forwards the parent's flag unmodified |
| Behaviour.FoldpSumExample | src/Native/Signal.js:115-121 | `foldp (+) 0` fed 3, 4, -1 holds 3, 7, 6 |
| Behaviour.TimestampRun | src/Native/Signal.js:185-191 | Timestamp holds the time and value of the parent's last change, its initial pair if there was none, and forwards the parent's flag unmodified |
| Behaviour.LastWhereExact | src/Native/Signal.js:185-191 | the "last change" used above is the last step selected, and exists exactly when some step is selected |
| Behaviour.DropIfFromStart | src/Native/Signal.js:134-143 | a DropIf as its constructor builds it holds, after any run, the last value `pred` let through or else its initial value (`base` if the parent's first value is dropped), and never a dropped value other than `base` |
| Behaviour.DropIfRun | src/Native/Signal.js:136-143 | DropIf reports a change exactly when the parent changed to a value `pred` lets through, holds the last such value (or its initial value), and only ever holds its fallback or a value it lets through |
| Behaviour.KeepIfRun | src/Native/Signal.js:151-156 | `keepIf(isGood)` reports a change exactly when the parent changed to a value `isGood` accepts, holds the last accepted value or else its initial value, and only ever holds its fallback or an accepted value |
| Behaviour.KeepIfFallbackExample | src/Native/Signal.js:151-156 | `keepIf isEven 0` over a parent holding 3 starts at 0, stays there when 5 arrives, and moves to 4 |
| Behaviour.DropRepeatsTwice | src/Native/Signal.js:163-170 | the same value arriving as a change in two successive steps is not reported the second time |
| Behaviour.DropRepeatsStep | src/Native/Signal.js:163-170 | in step `j`, DropRepeats broadcasts a change exactly when the parent changed to a value other than the one it holds, and takes the parent's value exactly then |
| Behaviour.DropRepeatsNoRepeat | src/Native/Signal.js:163-170 | each value DropRepeats broadcasts differs from the one it broadcast just before (an earlier value may come back), and the first differs from its initial value |
| Behaviour.DropRepeatsRun | src/Native/Signal.js:163-170 | in each step DropRepeats broadcasts a change exactly when the parent changed to a value other than the one it holds, and adopts the parent's value exactly then; so it never broadcasts the same value twice in a row, nor its initial value first, and holds the last value it broadcast |
| FanIn.LiftFeed | src/Native/Signal.js:53-69 | before the `n`-th arrival LiftN has only counted the arrivals and ORed their flags, its value untouched |
| FanIn.LiftFanIn | src/Native/Signal.js:53-69 | on the `n`-th arrival LiftN broadcasts once with the OR of all flags, recomputes from the parents' values only if a flag was set, and resets its counters |
| FanIn.LiftOrderFree | src/Native/Signal.js:53-69 | the outcome of a LiftN step does not depend on the order of the arrivals |
| FanIn.SampleOnPair | src/Native/Signal.js:207-223 | whichever parent arrives first, SampleOn does nothing observable on the first arrival, broadcasts `s1`'s flag ignoring `s2`'s, adopts `s2`'s value exactly when `s1` changed, and resets |
| FanIn.SampleOnSelf | src/Native/Signal.js:207-225 | `sampleOn(s, s)` receives two arrivals from `s` and follows it |
| FanIn.MergePair | src/Native/Signal.js:261-287 | whichever parent arrives first, Merge broadcasts the OR of both flags, takes `s1`'s value if it changed, `s2`'s if only that changed, keeps its own otherwise, and resets counter, flag and staged value |
| FanIn.MergeSelf | src/Native/Signal.js:261-289 | `merge(s, s)` receives two arrivals from `s` and follows it |
| Quiescence.ReactQuiet | src/Native/Signal.js:53-287 | an unchanged arrival at a node with no change pending keeps its value and passes on only an unchanged flag |
| Quiescence.RecvQuiet | src/Native/Signal.js:13-287 | when no node has a change pending (`AllCalm`), an unchanged arrival changes no value anywhere below the receiver and leaves no change pending |
| Quiescence.BroadcastQuiet | src/Native/Signal.js:13-19 | when no node has a change pending (`AllCalm`), an unchanged broadcast changes no value anywhere and leaves no change pending |
| Quiescence.RecvAllQuiet | src/Native/Signal.js:15-18 | when no node has a change pending (`AllCalm`), delivering an unchanged flag to any sequence of kids changes no value and leaves no change pending |
| Quiescence.InputQuiet | src/Native/Signal.js:29-37 | when no node has a change pending (`AllCalm`), an event addressed to another node leaves every value in the graph as it was |
| Diamond.DiamondStep | src/Native/Signal.js:44-74 | in `map2 Sum (map Inc i) (map Dbl i)`, setting the Input to 5 gives 6, 10 and 16 with every counter reset: the join fires once, after both parents are updated |
| Signal.Update1Applies | src/Native/Signal.js:76-81 | `map`'s update calls the function on its parent's value |
| Signal.Update2Applies | src/Native/Signal.js:82-87 | `map2`'s update calls the function on the two parents' values, in order |
| Signal.Update3Applies | src/Native/Signal.js:88-93 | `map3`'s update calls the function on the three parents' values, in order |
| Signal.Update4Applies | src/Native/Signal.js:94-99 | `map4`'s update calls the function on the four parents' values, in order |
| Signal.Update5Applies | src/Native/Signal.js:100-105 | `map5`'s update calls the function on the five parents' values, in order |
| Signal.Runtime.NewInput | src/Native/Signal.js:24-39 | `new Input(base)` appends a kid-less node holding `base` and adds it to the runtime's inputs |
| Signal.Runtime.RecvInput | src/Native/Signal.js:29-37 | the Input's `recv` returns whether the event was its own and leaves the graph as `InputStep` says |
| Signal.Runtime.LiftN | src/Native/Signal.js:44-74 | `new LiftN(update, args)` computes its value once from the parents and pushes itself onto the kids of every argument occurrence |
| Signal.Runtime.PushOntoAll | src/Native/Signal.js:70-73 | the registration loop pushes the new node onto the kids of each argument, once per occurrence; the contract states only the final kids, so the last-to-first order of the pushes is not in it |
| Signal.Runtime.Map | src/Native/Signal.js:76-81 | `map(func, a)` is a LiftN over `[a]`, starting at `func` of `a`'s value |
| Signal.Runtime.Map2 | src/Native/Signal.js:82-87 | `map2(func, a, b)` is a LiftN over `[a, b]`, starting at `func` of their values |
| Signal.Runtime.Map3 | src/Native/Signal.js:88-93 | likewise over three parents |
| Signal.Runtime.Map4 | src/Native/Signal.js:94-99 | likewise over four parents |
| Signal.Runtime.Map5 | src/Native/Signal.js:100-105 | likewise over five parents |
| Signal.Runtime.AttachOne | src/Native/Signal.js:122 | a one-parent node is appended and registered once with its parent (`input.kids.push(this)`, likewise lines 144, 171, 192), as `Attached` states, keeping `Valid()` |
| Signal.Runtime.Foldp | src/Native/Signal.js:110-127 | `new Foldp(step, state, input)` starts at `state` and registers with `input` |
| Signal.Runtime.DropIf | src/Native/Signal.js:132-149 | `new DropIf(pred, base, input)` starts at `base` if the parent's value is dropped, at that value otherwise |
| Signal.Runtime.KeepIf | src/Native/Signal.js:151-156 | `keepIf(isGood, ...)` is a DropIf whose predicate is the negation of `isGood` |
| Signal.Runtime.DropRepeats | src/Native/Signal.js:159-176 | `new DropRepeats(input)` starts at the parent's value |
| Signal.Runtime.Timestamp | src/Native/Signal.js:181-197 | `new Timestamp(input)` starts at the program's start time paired with the parent's value |
| Signal.Runtime.AttachTwo | src/Native/Signal.js:224-225 | a two-parent node is appended and registered once with `s1`, then once with `s2` (likewise lines 288-289), as `Attached` states, keeping `Valid()` |
| Signal.Runtime.SampleOn | src/Native/Signal.js:199-230 | `new SampleOn(s1, s2)` starts at `s2`'s value and registers with `s1`, then `s2` |
| Signal.Runtime.Merge | src/Native/Signal.js:252-294 | `new Merge(s1, s2)` starts at `s1`'s value and registers with `s1`, then `s2` |
| Signal.Runtime.BroadcastToKids | src/Native/Signal.js:13-19 | the decrementing loop over `kids` leaves the arena exactly as `Broadcast` says |
| Signal.Runtime.Recv | src/Native/Signal.js:17 | `kids[i].recv(...)` dispatches on the node's kind and leaves the arena exactly as `Propagation.Recv` says |
| Signal.Runtime.RecvLift | src/Native/Signal.js:53-69 | LiftN's `recv`, in place, equals the functional step |
| Signal.Runtime.RecvFoldp | src/Native/Signal.js:115-121 | Foldp's `recv`, in place, equals the functional step |
| Signal.Runtime.RecvDropIf | src/Native/Signal.js:136-143 | DropIf's `recv`, in place, equals the functional step |
| Signal.Runtime.RecvDropRepeats | src/Native/Signal.js:163-170 | DropRepeats' `recv`, in place, equals the functional step |
| Signal.Runtime.RecvTimestamp | src/Native/Signal.js:185-191 | Timestamp's `recv`, in place, equals the functional step |
| Signal.Runtime.RecvSampleOn | src/Native/Signal.js:207-223 | SampleOn's `recv`, in place, equals the functional step |
| Signal.Runtime.RecvMerge | src/Native/Signal.js:261-287 | Merge's `recv`, in place, equals the functional step |

## Left out

- `Utils.guid` (src/Native/Signal.js:25 and each constructor): identifiers are arena indices, in construction order.
- `Utils.eq` (src/Native/Signal.js:164): value equality on `Value`.
- `Utils.Tuple2`: the `Value.Tuple2` constructor.
- The `A2`..`A5` and `F2`..`F6` currying helpers: library glue; Dafny functions take several arguments directly.
- The lower-case wrappers `foldp`, `dropIf`, `dropRepeats`, `timestamp`, `sampleOn`, `merge` and `input`: each only calls its constructor, so the constructor method stands for both.
- `delay` (src/Native/Signal.js:232-247): is asynchronous timer I/O through `setTimeout` and `localRuntime.notify`. It is built from an Input, `map`, `map2` and SampleOn, which are modelled.
- `send` and `subscribe` (src/Native/Signal.js:303-311), and the driver that calls `recv` on every Input for each event: are runtime plumbing outside this file. `inputs` records the Inputs, in order.
- The memoisation in `Elm.Native.Signal.make` (src/Native/Signal.js:4-9) and the unused `defaultNumberOfKids` field: are runtime wiring only.
- `localRuntime.timer.programStart`: a constant given to the `Runtime` constructor.
- Payloads: a small datatype of numbers and pairs. The engine only compares payloads and pairs them with a time.
- Timesteps: unbounded integers. JavaScript numbers are not modelled.
- LiftN's `update()`: in the source it takes no arguments and reads its parents' `value` fields when called. Here it is a function of those values, which `ParentValues` reads at the same moment.
- Merge's `next = null`: `Option.None`. A payload that is itself JavaScript `null` is not modelled.
- A general "each node receives exactly one arrival per parent occurrence in each step" theorem is not stated over arbitrary graphs. The fan-in lemmas take that as their setting, the one-parent lemmas take one step per arrival, and `Diamond.DiamondStep` checks it on a diamond.
- Quiescence.InputQuiet: assumes that no node has a change pending when the event arrives. That this holds between any two events is not proved in general.
- Node references: the source passes node objects; the runtime methods take node indices and require them to exist.

