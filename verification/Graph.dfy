/** Directed graphs as adjacency maps: cycle detection with an explicit stack, and reachability. */
module Graph {

  function Targets<T>(adj: map<T, seq<T>>, n: T): seq<T> {
    if n in adj then adj[n] else []
  }

  ghost predicate Path<T>(adj: map<T, seq<T>>, p: seq<T>) {
    p != [] && forall i :: 0 <= i < |p| - 1 ==> p[i + 1] in Targets(adj, p[i])
  }

  ghost predicate CyclicPath<T>(adj: map<T, seq<T>>, p: seq<T>) {
    |p| >= 2 && Path(adj, p) && p[0] == p[|p| - 1]
  }

  ghost predicate Cyclic<T(!new)>(adj: map<T, seq<T>>) {
    exists p: seq<T> :: CyclicPath(adj, p)
  }

  ghost predicate Connects<T>(adj: map<T, seq<T>>, p: seq<T>, a: T, b: T) {
    Path(adj, p) && p[0] == a && p[|p| - 1] == b
  }

  ghost predicate Reaches<T(!new)>(adj: map<T, seq<T>>, a: T, b: T) {
    exists p: seq<T> :: Connects(adj, p, a, b)
  }

  /** Every node that occurs anywhere in the map. */
  ghost function Nodes<T>(adj: map<T, seq<T>>): set<T> {
    adj.Keys + set k, t | k in adj && t in adj[k] :: t
  }

  // ----- A finish order rules out cycles

  /** Every target of a finished node was finished before it. */
  ghost predicate Finished<T>(adj: map<T, seq<T>>, order: seq<T>) {
    forall i, t :: 0 <= i < |order| && t in Targets(adj, order[i]) ==> t in order[..i]
  }

  /** Walking a path descends in the finish order. */
  lemma {:induction false} Descend<T>(adj: map<T, seq<T>>, order: seq<T>, p: seq<T>, i: nat) returns (j: nat)
    requires Finished(adj, order) && Path(adj, p) && i < |order| && order[i] == p[0]
    ensures j + |p| - 1 <= i && order[j] == p[|p| - 1]
    decreases |p|
  {
    if |p| == 1 {
      j := i;
    } else {
      assert p[1] in order[..i];
      var k :| 0 <= k < i && order[k] == p[1];
      assert Path(adj, p[1..]);
      j := Descend(adj, order, p[1..], k);
    }
  }

  lemma {:induction false} NoCycleFrom<T>(adj: map<T, seq<T>>, order: seq<T>, p: seq<T>, i: nat)
    requires Finished(adj, order) && p != [] && i < |order| && order[i] == p[0]
    ensures !CyclicPath(adj, p)
    decreases i
  {
    if CyclicPath(adj, p) {
      var j := Descend(adj, order, p, i);
      NoCycleFrom(adj, order, p, j);
    }
  }

  lemma FinishedIsAcyclic<T(!new)>(adj: map<T, seq<T>>, order: seq<T>)
    requires Finished(adj, order) && forall k <- adj :: k in order
    ensures !Cyclic(adj)
  {
    forall p: seq<T>
      ensures !CyclicPath(adj, p)
    {
      if |p| >= 2 && Path(adj, p) {
        assert p[0 + 1] in Targets(adj, p[0]);
        var i :| 0 <= i < |order| && order[i] == p[0];
        NoCycleFrom(adj, order, p, i);
      }
    }
  }

  // ----- Depth-first search

  datatype Frame<T> = Frame(node: T, index: nat)

  /** The stack is a path: each frame's last target tried is the node above it. */
  ghost predicate Stacked<T>(adj: map<T, seq<T>>, stack: seq<Frame<T>>) {
    && (forall i :: 0 <= i < |stack| ==> stack[i].index <= |Targets(adj, stack[i].node)|)
    && (forall i :: 0 <= i < |stack| - 1 ==>
          stack[i].index >= 1 && Targets(adj, stack[i].node)[stack[i].index - 1] == stack[i + 1].node)
  }

  /** How many targets of the i-th frame are dealt with; the last one tried below the top is still on the stack. */
  function Done<T>(stack: seq<Frame<T>>, i: nat): int
    requires i < |stack|
  {
    if i < |stack| - 1 then stack[i].index - 1 else stack[i].index
  }

  ghost predicate TriedAt<T>(adj: map<T, seq<T>>, n: T, done: int, order: seq<T>) {
    forall k :: 0 <= k < done && k < |Targets(adj, n)| ==> Targets(adj, n)[k] in order
  }

  /** Every target that a frame has dealt with is finished. */
  ghost predicate Tried<T>(adj: map<T, seq<T>>, stack: seq<Frame<T>>, order: seq<T>) {
    forall i :: 0 <= i < |stack| ==> TriedAt(adj, stack[i].node, Done(stack, i), order)
  }

  /** Grey nodes are those on the stack, black ones those finished. */
  ghost predicate Coloured<T>(state: map<T, int>, stack: seq<Frame<T>>, order: seq<T>) {
    && (forall n <- state :: if state[n] == 1 then OnStack(stack, n) else state[n] == 2 && n in order)
    && (forall n <- order :: n in state && state[n] == 2)
    && (forall i :: 0 <= i < |stack| ==> stack[i].node in state && state[stack[i].node] == 1)
    && (forall i, j :: 0 <= i < j < |stack| ==> stack[i].node != stack[j].node)
  }

  ghost predicate OnStack<T>(stack: seq<Frame<T>>, n: T) {
    exists i :: 0 <= i < |stack| && stack[i].node == n
  }

  ghost predicate Searching<T>(adj: map<T, seq<T>>, state: map<T, int>, stack: seq<Frame<T>>, order: seq<T>) {
    && Stacked(adj, stack) && Tried(adj, stack, order) && Coloured(state, stack, order) && Finished(adj, order)
    && state.Keys <= Nodes(adj)
  }

  /** Steps left on the frames of the stack. */
  ghost function Work<T>(adj: map<T, seq<T>>, stack: seq<Frame<T>>): nat
    requires Stacked(adj, stack)
  {
    if stack == [] then 0 else
      var top := stack[|stack| - 1];
      Work(adj, stack[..|stack| - 1]) + |Targets(adj, top.node)| - top.index + 1
  }

  function NodesOf<T>(stack: seq<Frame<T>>): (r: seq<T>)
    ensures |r| == |stack| && forall i :: 0 <= i < |stack| ==> r[i] == stack[i].node
  {
    if stack == [] then [] else NodesOf(stack[..|stack| - 1]) + [stack[|stack| - 1].node]
  }

  /** A grey target closes a cycle through the stack. */
  lemma GreyTargetIsCycle<T(!new)>(adj: map<T, seq<T>>, stack: seq<Frame<T>>, m: nat, target: T)
    requires Stacked(adj, stack) && m < |stack| && stack[m].node == target
    requires target in Targets(adj, stack[|stack| - 1].node)
    ensures Cyclic(adj)
  {
    var nodes := NodesOf(stack[m..]);
    var p := nodes + [target];
    forall i | 0 <= i < |p| - 1
      ensures p[i + 1] in Targets(adj, p[i])
    {
      if i < |nodes| - 1 {
        assert Targets(adj, stack[m + i].node)[stack[m + i].index - 1] == stack[m + i + 1].node;
      }
    }
    assert CyclicPath(adj, p);
  }

  lemma TargetIsNode<T>(adj: map<T, seq<T>>, n: T, t: T)
    requires t in Targets(adj, n)
    ensures t in Nodes(adj)
  {
  }

  lemma FinishOne<T>(adj: map<T, seq<T>>, n: T, order: seq<T>)
    requires Finished(adj, order) && TriedAt(adj, n, |Targets(adj, n)|, order)
    ensures Finished(adj, order + [n])
  {
    var longer := order + [n];
    forall i, t | 0 <= i < |longer| && t in Targets(adj, longer[i])
      ensures t in longer[..i]
    {
      if i < |order| {
        assert t in order[..i];
        assert longer[..i] == order[..i];
      } else {
        assert longer[..i] == order;
      }
    }
  }

  lemma PopTried<T>(adj: map<T, seq<T>>, stack: seq<Frame<T>>, order: seq<T>)
    requires Stacked(adj, stack) && Tried(adj, stack, order) && stack != []
    ensures Tried(adj, stack[..|stack| - 1], order + [stack[|stack| - 1].node])
  {
    var rest, longer := stack[..|stack| - 1], order + [stack[|stack| - 1].node];
    forall i | 0 <= i < |rest|
      ensures TriedAt(adj, rest[i].node, Done(rest, i), longer)
    {
      assert TriedAt(adj, stack[i].node, Done(stack, i), order);
    }
  }

  lemma PopColoured<T>(state: map<T, int>, stack: seq<Frame<T>>, order: seq<T>)
    requires Coloured(state, stack, order) && stack != []
    ensures
      var n := stack[|stack| - 1].node;
      Coloured(state[n := 2], stack[..|stack| - 1], order + [n])
  {
    var top, rest := stack[|stack| - 1], stack[..|stack| - 1];
    forall x <- state | x != top.node && state[x] == 1
      ensures OnStack(rest, x)
    {
      assert OnStack(stack, x);
      var i :| 0 <= i < |stack| && stack[i].node == x;
      assert rest[i].node == x;
    }
    assert forall i :: 0 <= i < |rest| ==> rest[i] == stack[i] && rest[i].node != top.node;
    hide OnStack;
  }

  /** The top frame has nothing left to try. */
  lemma TopIsDone<T>(adj: map<T, seq<T>>, stack: seq<Frame<T>>, order: seq<T>)
    requires Tried(adj, stack, order) && stack != []
    requires stack[|stack| - 1].index >= |Targets(adj, stack[|stack| - 1].node)|
    ensures TriedAt(adj, stack[|stack| - 1].node, |Targets(adj, stack[|stack| - 1].node)|, order)
  {
    assert TriedAt(adj, stack[|stack| - 1].node, Done(stack, |stack| - 1), order);
  }

  lemma TopIsColoured<T>(state: map<T, int>, stack: seq<Frame<T>>, order: seq<T>)
    requires Coloured(state, stack, order) && stack != []
    ensures stack[|stack| - 1].node in state
    ensures forall n <- state :: state[n] == 1 || (state[n] == 2 && n in order)
  {
  }

  lemma PopStacked<T>(adj: map<T, seq<T>>, stack: seq<Frame<T>>)
    requires Stacked(adj, stack) && stack != []
    ensures Stacked(adj, stack[..|stack| - 1])
    ensures Work(adj, stack[..|stack| - 1]) < Work(adj, stack)
  {
  }

  lemma PopKeeps<T>(adj: map<T, seq<T>>, state: map<T, int>, stack: seq<Frame<T>>, order: seq<T>)
    requires Searching(adj, state, stack, order) && stack != []
    requires stack[|stack| - 1].index >= |Targets(adj, stack[|stack| - 1].node)|
    ensures
      var n := stack[|stack| - 1].node;
      Searching(adj, state[n := 2], stack[..|stack| - 1], order + [n])
  {
    hide Stacked, Tried, Coloured, Finished, TriedAt, Nodes;
    var n := stack[|stack| - 1].node;
    PopStacked(adj, stack);
    PopTried(adj, stack, order);
    PopColoured(state, stack, order);
    TopIsColoured(state, stack, order);
    TopIsDone(adj, stack, order);
    FinishOne(adj, n, order);
    assert state[n := 2].Keys == state.Keys;
  }

  /** The stack after its top frame has moved on to the next target. */
  function Advance<T>(stack: seq<Frame<T>>): seq<Frame<T>>
    requires stack != []
  {
    stack[|stack| - 1 := Frame(stack[|stack| - 1].node, stack[|stack| - 1].index + 1)]
  }

  /** The target that the top frame turns to next. */
  function Next<T>(adj: map<T, seq<T>>, stack: seq<Frame<T>>): T
    requires stack != [] && stack[|stack| - 1].index < |Targets(adj, stack[|stack| - 1].node)|
  {
    Targets(adj, stack[|stack| - 1].node)[stack[|stack| - 1].index]
  }

  lemma AdvanceWork<T>(adj: map<T, seq<T>>, stack: seq<Frame<T>>)
    requires Stacked(adj, stack) && stack != []
    requires stack[|stack| - 1].index < |Targets(adj, stack[|stack| - 1].node)|
    ensures Stacked(adj, Advance(stack)) && Work(adj, Advance(stack)) < Work(adj, stack)
  {
    assert Advance(stack)[..|stack| - 1] == stack[..|stack| - 1];
  }

  lemma SameColours<T>(state: map<T, int>, stack: seq<Frame<T>>, next: seq<Frame<T>>, order: seq<T>)
    requires Coloured(state, stack, order)
    requires |next| == |stack| && forall i :: 0 <= i < |stack| ==> next[i].node == stack[i].node
    ensures Coloured(state, next, order)
  {
    forall n <- state | state[n] == 1
      ensures OnStack(next, n)
    {
      assert OnStack(stack, n);
      var i :| 0 <= i < |stack| && stack[i].node == n;
      assert next[i].node == n;
    }
    hide OnStack;
  }

  lemma SkipTried<T>(adj: map<T, seq<T>>, stack: seq<Frame<T>>, order: seq<T>)
    requires Tried(adj, stack, order) && stack != []
    requires stack[|stack| - 1].index < |Targets(adj, stack[|stack| - 1].node)| && Next(adj, stack) in order
    ensures Tried(adj, Advance(stack), order)
  {
    var next := Advance(stack);
    forall i | 0 <= i < |next|
      ensures TriedAt(adj, next[i].node, Done(next, i), order)
    {
      assert TriedAt(adj, stack[i].node, Done(stack, i), order);
    }
  }

  lemma SkipKeeps<T>(adj: map<T, seq<T>>, state: map<T, int>, stack: seq<Frame<T>>, order: seq<T>)
    requires Searching(adj, state, stack, order) && stack != []
    requires stack[|stack| - 1].index < |Targets(adj, stack[|stack| - 1].node)| && Next(adj, stack) in order
    ensures Searching(adj, state, Advance(stack), order)
  {
    hide Stacked, Tried, Coloured, Finished;
    AdvanceWork(adj, stack);
    SkipTried(adj, stack, order);
    SameColours(state, stack, Advance(stack), order);
  }

  lemma PushColoured<T>(state: map<T, int>, stack: seq<Frame<T>>, t: T, order: seq<T>)
    requires Coloured(state, stack, order) && t !in state
    ensures Coloured(state[t := 1], stack + [Frame(t, 0)], order)
  {
    var next := stack + [Frame(t, 0)];
    forall n <- state[t := 1] | state[t := 1][n] == 1
      ensures OnStack(next, n)
    {
      if n == t {
        assert next[|stack|].node == t;
      } else {
        assert OnStack(stack, n);
        var i :| 0 <= i < |stack| && stack[i].node == n;
        assert next[i].node == n;
      }
    }
    hide OnStack;
  }

  lemma PushTried<T>(adj: map<T, seq<T>>, stack: seq<Frame<T>>, order: seq<T>, t: T)
    requires Tried(adj, stack, order) && stack != []
    ensures Tried(adj, Advance(stack) + [Frame(t, 0)], order)
  {
    var next := Advance(stack) + [Frame(t, 0)];
    forall i | 0 <= i < |next|
      ensures TriedAt(adj, next[i].node, Done(next, i), order)
    {
      if i < |stack| {
        assert TriedAt(adj, stack[i].node, Done(stack, i), order);
      }
    }
  }

  lemma PushStacked<T>(adj: map<T, seq<T>>, stack: seq<Frame<T>>)
    requires Stacked(adj, stack) && stack != []
    requires stack[|stack| - 1].index < |Targets(adj, stack[|stack| - 1].node)|
    ensures Stacked(adj, Advance(stack) + [Frame(Next(adj, stack), 0)])
    ensures Next(adj, stack) in Nodes(adj)
  {
    TargetIsNode(adj, stack[|stack| - 1].node, Next(adj, stack));
    hide Nodes;
  }

  lemma PushKeeps<T>(adj: map<T, seq<T>>, state: map<T, int>, stack: seq<Frame<T>>, order: seq<T>)
    requires Searching(adj, state, stack, order) && stack != []
    requires stack[|stack| - 1].index < |Targets(adj, stack[|stack| - 1].node)| && Next(adj, stack) !in state
    ensures Next(adj, stack) in Nodes(adj)
    ensures Searching(adj, state[Next(adj, stack) := 1], Advance(stack) + [Frame(Next(adj, stack), 0)], order)
  {
    hide Stacked, Tried, Coloured, Finished, Nodes, Next;
    var t := Next(adj, stack);
    PushStacked(adj, stack);
    PushTried(adj, stack, order, t);
    SameColours(state, stack, Advance(stack), order);
    hide Advance;
    PushColoured(state, Advance(stack), t, order);
    assert state[t := 1].Keys == state.Keys + {t};
  }

  lemma GreyIsCycle<T(!new)>(adj: map<T, seq<T>>, state: map<T, int>, stack: seq<Frame<T>>, order: seq<T>)
    requires Searching(adj, state, stack, order) && stack != []
    requires stack[|stack| - 1].index < |Targets(adj, stack[|stack| - 1].node)|
    requires Next(adj, stack) in state && state[Next(adj, stack)] == 1
    ensures Cyclic(adj)
  {
    assert OnStack(stack, Next(adj, stack));
    var m :| 0 <= m < |stack| && stack[m].node == Next(adj, stack);
    GreyTargetIsCycle(adj, stack, m, Next(adj, stack));
  }

  lemma StartKeeps<T>(adj: map<T, seq<T>>, state: map<T, int>, order: seq<T>, start: T)
    requires Searching(adj, state, [], order) && start in adj && start !in state
    ensures Searching(adj, state[start := 1], [Frame(start, 0)], order)
  {
    PushColoured(state, [], start, order);
    assert [] + [Frame(start, 0)] == [Frame(start, 0)];
    hide Coloured, Finished;
  }

  /** Colouring a node leaves fewer without a colour. */
  lemma OneFewer<T>(all: set<T>, some: set<T>, t: T)
    requires t in all && t !in some
    ensures |all - (some + {t})| < |all - some|
  {
    assert all - (some + {t}) == (all - some) - {t};
  }

  /** One turn of the search loop keeps the search going, and there is less left to do. */
  ghost predicate Turned<T>(adj: map<T, seq<T>>, before: map<T, int>, frames: seq<Frame<T>>, finished: seq<T>,
                            state: map<T, int>, stack: seq<Frame<T>>, order: seq<T>) {
    && Searching(adj, state, stack, order) && finished <= order && frames != []
    && (if stack == [] then frames[0].node in order else stack[0].node == frames[0].node)
    && (|Nodes(adj) - state.Keys| < |Nodes(adj) - before.Keys|
        || (state.Keys == before.Keys && Stacked(adj, frames) && Stacked(adj, stack) &&
            Work(adj, stack) < Work(adj, frames)))
  }

  lemma TurnPop<T>(adj: map<T, seq<T>>, state: map<T, int>, stack: seq<Frame<T>>, order: seq<T>)
    requires Searching(adj, state, stack, order) && stack != []
    requires stack[|stack| - 1].index >= |Targets(adj, stack[|stack| - 1].node)|
    ensures
      var n := stack[|stack| - 1].node;
      Turned(adj, state, stack, order, state[n := 2], stack[..|stack| - 1], order + [n])
  {
    hide Stacked, Tried, Coloured, Finished, Nodes, Work;
    PopStacked(adj, stack);
    PopKeeps(adj, state, stack, order);
    TopIsColoured(state, stack, order);
    assert state[stack[|stack| - 1].node := 2].Keys == state.Keys;
    hide Searching;
  }

  lemma TurnPush<T>(adj: map<T, seq<T>>, state: map<T, int>, stack: seq<Frame<T>>, order: seq<T>)
    requires Searching(adj, state, stack, order) && stack != []
    requires stack[|stack| - 1].index < |Targets(adj, stack[|stack| - 1].node)| && Next(adj, stack) !in state
    ensures Turned(adj, state, stack, order, state[Next(adj, stack) := 1],
                   Advance(stack) + [Frame(Next(adj, stack), 0)], order)
  {
    hide Searching, Stacked, Nodes, Work, Next;
    var t, next := Next(adj, stack), Advance(stack);
    assert |next| == |stack| && next[0].node == stack[0].node;
    hide Advance;
    PushKeeps(adj, state, stack, order);
    OneFewer(Nodes(adj), state.Keys, t);
    assert state[t := 1].Keys == state.Keys + {t};
    assert (next + [Frame(t, 0)])[0] == next[0];
  }

  lemma TurnSkip<T>(adj: map<T, seq<T>>, state: map<T, int>, stack: seq<Frame<T>>, order: seq<T>)
    requires Searching(adj, state, stack, order) && stack != []
    requires stack[|stack| - 1].index < |Targets(adj, stack[|stack| - 1].node)|
    requires Next(adj, stack) in state && state[Next(adj, stack)] != 1
    ensures Turned(adj, state, stack, order, state, Advance(stack), order)
  {
    hide Stacked, Tried, Coloured, Finished, Nodes, Work;
    TopIsColoured(state, stack, order);
    AdvanceWork(adj, stack);
    SkipKeeps(adj, state, stack, order);
    hide Searching;
  }

  /** One turn of the search loop: finish the top frame, close a cycle, or turn to the next target. */
  method Turn<T(==,!new)>(adj: map<T, seq<T>>, before: map<T, int>, frames: seq<Frame<T>>, ghost finished: seq<T>)
    returns (cyclic: bool, state: map<T, int>, stack: seq<Frame<T>>, ghost order: seq<T>)
    requires Searching(adj, before, frames, finished) && frames != []
    ensures cyclic ==> Cyclic(adj)
    ensures !cyclic ==> Turned(adj, before, frames, finished, state, stack, order)
  {
    hide Searching, Turned, Cyclic;
    state, stack, order := before, frames, finished;
    var top := frames[|frames| - 1];
    var targets := Targets(adj, top.node);
    if top.index >= |targets| {
      TurnPop(adj, before, frames, finished);
      return false, before[top.node := 2], frames[..|frames| - 1], finished + [top.node];
    }
    var target := targets[top.index];
    if target !in before {
      TurnPush(adj, before, frames, finished);
      return false, before[target := 1], Advance(frames) + [Frame(target, 0)], finished;
    }
    if before[target] == 1 {
      GreyIsCycle(adj, before, frames, finished);
      return true, before, frames, finished;
    }
    TurnSkip(adj, before, frames, finished);
    return false, before, Advance(frames), finished;
  }

  /** The search from one start node. */
  method Visit<T(==,!new)>(adj: map<T, seq<T>>, start: T, before: map<T, int>, ghost finished: seq<T>)
    returns (cyclic: bool, state: map<T, int>, ghost order: seq<T>)
    requires start in adj && start !in before && Searching(adj, before, [], finished)
    ensures cyclic ==> Cyclic(adj)
    ensures !cyclic ==> Searching(adj, state, [], order) && start in order && finished <= order
  {
    state := before[start := 1];
    order := finished;
    var stack := [Frame(start, 0)];
    StartKeeps(adj, before, finished, start);
    cyclic := false;
    while stack != []
      invariant Searching(adj, state, stack, order)
      invariant finished <= order
      invariant if stack == [] then start in order else stack[0].node == start
      decreases |Nodes(adj) - state.Keys|, Work(adj, stack)
    {
      hide Searching, Cyclic, Nodes, Stacked, Work;
      cyclic, state, stack, order := Turn(adj, state, stack, order);
      if cyclic {
        return;
      }
    }
  }

  /** `_has_cycle`: true exactly when the adjacency map contains a directed cycle. */
  method HasCycle<T(==,!new)>(adj: map<T, seq<T>>) returns (cyclic: bool)
    ensures cyclic <==> Cyclic(adj)
  {
    var state: map<T, int> := map[];
    ghost var order: seq<T> := [];
    var starts := adj.Keys;
    while starts != {}
      invariant starts <= adj.Keys
      invariant Searching(adj, state, [], order)
      invariant forall k <- adj :: k in starts || k in order
      decreases |starts|
    {
      var start :| start in starts;
      starts := starts - {start};
      if start !in state {
        var found;
        found, state, order := Visit(adj, start, state, order);
        if found {
          return true;
        }
      }
    }
    FinishedIsAcyclic(adj, order);
    return false;
  }

  // ----- Reachability

  lemma {:induction false} ClosedContains<T>(adj: map<T, seq<T>>, seen: set<T>, p: seq<T>)
    requires Path(adj, p) && p[0] in seen
    requires forall n, t :: n in seen && t in Targets(adj, n) ==> t in seen
    ensures p[|p| - 1] in seen
    decreases |p|
  {
    if |p| > 1 {
      assert p[1] in Targets(adj, p[0]);
      assert Path(adj, p[1..]);
      ClosedContains(adj, seen, p[1..]);
    }
  }

  lemma ReachesNext<T(!new)>(adj: map<T, seq<T>>, root: T, n: T, t: T)
    requires Reaches(adj, root, n) && t in Targets(adj, n)
    ensures Reaches(adj, root, t)
  {
    var p :| Connects(adj, p, root, n);
    assert Connects(adj, p + [t], root, t);
  }

  /** What the worklist search has established: nothing unreachable, and no edge left behind. */
  ghost predicate Explored<T(!new)>(adj: map<T, seq<T>>, root: T, seen: set<T>, stack: seq<T>) {
    && (root in seen || root in stack)
    && (forall n :: n in seen || n in stack ==> Reaches(adj, root, n) && n in Nodes(adj) + {root})
    && (forall n, t :: n in seen && t in Targets(adj, n) ==> t in seen || t in stack)
  }

  lemma ExploreOne<T(!new)>(adj: map<T, seq<T>>, root: T, seen: set<T>, stack: seq<T>, n: T)
    requires Explored(adj, root, seen, stack + [n])
    ensures n in seen ==> Explored(adj, root, seen, stack)
    ensures n !in seen ==> Explored(adj, root, seen + {n}, stack + Targets(adj, n)) && n in Nodes(adj) + {root}
  {
    assert n in stack + [n];
    forall t <- Targets(adj, n)
      ensures Reaches(adj, root, t) && t in Nodes(adj)
    {
      ReachesNext(adj, root, n, t);
      TargetIsNode(adj, n, t);
    }
    hide Reaches, Nodes, Targets;
    assert forall x :: x in stack + [n] <==> x in stack || x == n;
  }

  /** The worklist search of the verifier: exactly the nodes some path leads to. */
  method ReachableFrom<T(==,!new)>(adj: map<T, seq<T>>, root: T) returns (reachable: set<T>)
    ensures forall n :: n in reachable <==> Reaches(adj, root, n)
  {
    reachable := {};
    var stack := [root];
    ExploreStart(adj, root);
    ghost var all := Nodes(adj) + {root};
    hide Reaches, Targets, Explored, Nodes;
    while stack != []
      invariant Explored(adj, root, reachable, stack)
      decreases |all - reachable|, |stack|
    {
      var current, rest := stack[|stack| - 1], stack[..|stack| - 1];
      assert stack == rest + [current];
      ExploreOne(adj, root, reachable, rest, current);
      if current in reachable {
        stack := rest;
      } else {
        OneFewer(all, reachable, current);
        reachable := reachable + {current};
        stack := rest + Targets(adj, current);
      }
    }
    ExploredExactly(adj, root, reachable);
  }

  lemma ExploreStart<T(!new)>(adj: map<T, seq<T>>, root: T)
    ensures Explored(adj, root, {}, [root])
  {
    assert Connects(adj, [root], root, root);
  }

  lemma ExploredExactly<T(!new)>(adj: map<T, seq<T>>, root: T, seen: set<T>)
    requires Explored(adj, root, seen, [])
    ensures forall n :: n in seen <==> Reaches(adj, root, n)
  {
    forall n | Reaches(adj, root, n)
      ensures n in seen
    {
      var p :| Connects(adj, p, root, n);
      ClosedContains(adj, seen, p);
    }
  }

  /** An edge back to where a path started closes a cycle. */
  lemma BackEdgeIsCycle<T(!new)>(adj: map<T, seq<T>>, root: T, n: T)
    requires Reaches(adj, root, n) && root in Targets(adj, n)
    ensures Cyclic(adj)
  {
    var p :| Connects(adj, p, root, n);
    assert CyclicPath(adj, p + [root]);
  }
}
