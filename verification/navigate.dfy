/**
 The breadth-first path search of the navigator: a FIFO queue of whole paths,
 without a visited set, in which every dequeued path that does not end at
 the goal is pushed back extended by successor 0 and then by successor 1.
 */
module Navigate {
  import opened Optional
  import opened TapState
  import opened TmsOrder
  import opened TapDistance

  /** The entries of `queue` are the paths of `Code(from)`, `Code(from + 1)`, ... in that order. */
  predicate PathsFrom(start: State, from: nat, queue: seq<seq<State>>)
    decreases |queue|
  {
    queue == [] || (queue[0] == Walk(start, Code(from)) && PathsFrom(start, from + 1, queue[1..]))
  }

  /**
   `queue` is the search queue after `n` paths have been dequeued and
   expanded: the paths of `Code(n)` through `Code(2n)`, in that order.
   */
  predicate IsFrontier(start: State, n: nat, queue: seq<seq<State>>)
  {
    |queue| == n + 1 && PathsFrom(start, n, queue)
  }

  /** Pushing the path of the next code at the back keeps the entries in order. */
  lemma {:induction false} PathsFromSnoc(start: State, from: nat, queue: seq<seq<State>>, index: nat, last: seq<State>)
    requires PathsFrom(start, from, queue)
    requires index == from + |queue|
    requires last == Walk(start, Code(index))
    ensures PathsFrom(start, from, queue + [last])
    decreases |queue|
  {
    if queue != [] {
      PathsFromSnoc(start, from + 1, queue[1..], index, last);
      assert (queue + [last])[1..] == queue[1..] + [last];
    }
  }

  lemma AppendTwo(queue: seq<seq<State>>, a: seq<State>, b: seq<State>)
    ensures queue + [a, b] == queue + [a] + [b]
  {
  }

  /** The two paths pushed after the n-th one are its extensions by successor 0 and successor 1. */
  lemma ChildPaths(start: State, n: nat)
    ensures Walk(start, Code(n))[|Code(n)|] == Run(start, Code(n))
    ensures Walk(start, Code(2 * n + 1)) == Walk(start, Code(n)) + [Successors(Run(start, Code(n))).0]
    ensures Walk(start, Code(2 * n + 2)) == Walk(start, Code(n)) + [Successors(Run(start, Code(n))).1]
  {
    WalkLast(start, Code(n));
    CodeChildren(n);
    WalkSnoc(start, Code(n), 0);
    WalkSnoc(start, Code(n), 1);
  }

  /**
   Expanding the front path of the queue (dequeue it, push its extensions by
   successor 0 and successor 1) gives the queue of the next round.
   */
  lemma FrontierStep(start: State, n: nat, queue: seq<seq<State>>)
    requires IsFrontier(start, n, queue)
    ensures queue[0] == Walk(start, Code(n))
    ensures queue[0][|queue[0]| - 1] == Run(start, Code(n))
    ensures var successors := Successors(Run(start, Code(n)));
      IsFrontier(start, n + 1, queue[1..] + [queue[0] + [successors.0], queue[0] + [successors.1]])
  {
    ChildPaths(start, n);
    var successors := Successors(Run(start, Code(n)));
    var a, b := queue[0] + [successors.0], queue[0] + [successors.1];
    var rest := queue[1..];
    PathsFromSnoc(start, n + 1, rest, 2 * n + 1, a);
    PathsFromSnoc(start, n + 1, rest + [a], 2 * n + 2, b);
    AppendTwo(rest, a, b);
  }

  /** Before anything is dequeued, the queue holds the path of the empty string alone. */
  lemma FrontierStart(start: State)
    ensures IsFrontier(start, 0, [[start]])
  {
    assert Walk(start, Code(0)) == [start];
    assert [[start]][1..] == [];
  }

  /** Some path in queue order ends at the goal: the one of a route to it. */
  lemma RouteIndex(start: State, goal: State) returns (bound: nat)
    ensures Run(start, Code(bound)) == goal
  {
    var route := Connected(start, goal);
    bound := Index(route);
    CodeIndex(route);
  }

  /** None of the first `n` paths in queue order ends at the goal. */
  predicate Unreached(start: State, goal: State, n: nat)
  {
    n == 0 || (Unreached(start, goal, n - 1) && Run(start, Code(n - 1)) != goal)
  }

  lemma {:induction false} UnreachedBefore(start: State, goal: State, n: nat)
    requires Unreached(start, goal, n)
    ensures forall k :: 0 <= k < n ==> Run(start, Code(k)) != goal
    decreases n
  {
    if n > 0 {
      UnreachedBefore(start, goal, n - 1);
    }
  }

  /**
   A path that misses the goal is not the route with index `bound`, which
   reaches it, so the search goes on below that bound.
   */
  lemma StillSearching(start: State, goal: State, n: nat, bound: nat)
    requires Run(start, Code(bound)) == goal
    requires Unreached(start, goal, n) && n <= bound
    requires Run(start, Code(n)) != goal
    ensures Unreached(start, goal, n + 1) && n + 1 <= bound
  {
  }

  /**
   The first path in queue order that ends at the goal is the walk of its own
   TMS values, and those values are the first route.
   */
  lemma FirstHit(start: State, goal: State, n: nat)
    requires Run(start, Code(n)) == goal
    requires forall k :: 0 <= k < n ==> Run(start, Code(k)) != goal
    ensures Tms(Walk(start, Code(n))) == Code(n)
    ensures IsFirstRoute(start, goal, Tms(Walk(start, Code(n))))
  {
    FirstHitIsFirstRoute(start, goal, n);
    TmsOfWalk(start, Code(n));
  }

  /**
   The search loop: dequeue the front path, return it if it ends at the goal,
   otherwise push its extensions by successor 0 and successor 1. The path
   returned is the n-th one dequeued, the walk of `Code(n)`, and it is the
   first in queue order to end at the goal. The queue never empties, because
   every path has two extensions, and the loop ends because some route
   reaches the goal.
   */
  method BreadthFirst(current: State, goal: State) returns (path: seq<State>, ghost n: nat)
    ensures path == Walk(current, Code(n))
    ensures Run(current, Code(n)) == goal
    ensures forall k :: 0 <= k < n ==> Run(current, Code(k)) != goal
  {
    ghost var bound := RouteIndex(current, goal);
    var queue: seq<seq<State>> := [[current]];
    n := 0;
    FrontierStart(current);
    while |queue| > 0
      invariant IsFrontier(current, n, queue)
      invariant Unreached(current, goal, n)
      invariant n <= bound
      decreases bound - n
    {
      FrontierStep(current, n, queue);
      var p := queue[0];
      queue := queue[1..];
      var node := p[|p| - 1];
      if node == goal {
        UnreachedBefore(current, goal, n);
        return p, n;
      }
      StillSearching(current, goal, n, bound);
      var successors := Successors(node);
      queue := queue + [p + [successors.0], p + [successors.1]];
      n := n + 1;
    }
    assert false;
    return [], n;
  }

  /**
   The path the search returns for a goal, or `None` when the goal is the
   current state. The returned path steps along transitions of the table,
   ends at the goal, is the walk of its own TMS values, and those values are
   the first route in the search order.
   */
  method NavigatePath(current: State, goal: State) returns (path: Option<seq<State>>)
    ensures goal == current ==> path == None
    ensures goal != current ==> path.Some?
    ensures path.Some? ==> path.value != [] && IsWalk(path.value) && path.value[|path.value| - 1] == goal
    ensures path.Some? ==> path.value == Walk(current, Tms(path.value))
    ensures path.Some? ==> IsFirstRoute(current, goal, Tms(path.value))
  {
    if goal == current {
      return None;
    }
    ghost var n;
    var found;
    found, n := BreadthFirst(current, goal);
    FirstHit(current, goal, n);
    WalkIsWalk(current, Code(n));
    WalkLast(current, Code(n));
    return Some(found);
  }
}
