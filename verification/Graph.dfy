/** The dependency graph: a deterministic start order, or a cycle that rules one out. */
module Graph {
  import opened Prelude
  import opened Order

  /** Each service with the services it depends on. */
  type Deps = map<Name, seq<Name>>

  /** Every dependency is itself a service. */
  predicate Closed(deps: Deps) {
    forall n <- deps :: forall d <- deps[n] :: d in deps
  }

  /** A walk along dependencies that comes back to where it began. */
  predicate ClosedWalk(deps: Deps, c: seq<Name>) {
    && |c| >= 2 && c[0] == c[|c| - 1]
    && forall i :: 0 <= i < |c| - 1 ==> c[i] in deps && c[i + 1] in deps[c[i]]
  }

  /** One that meets no service twice on the way. */
  predicate IsCycle(deps: Deps, c: seq<Name>) {
    ClosedWalk(deps, c) && Distinct(c[..|c| - 1])
  }

  ghost predicate Acyclic(deps: Deps) {
    forall c :: !ClosedWalk(deps, c)
  }

  predicate DependenciesFirst(deps: Deps, order: seq<Name>) {
    forall i :: 0 <= i < |order| ==>
      order[i] in deps && forall d <- deps[order[i]] :: d in order[..i]
  }

  /** Every service once, none before something it depends on. */
  ghost predicate IsStartOrder(deps: Deps, order: seq<Name>) {
    Distinct(order) && Lists(order, deps.Keys) && DependenciesFirst(deps, order)
  }

  /** A service that may start next. */
  predicate Ready(deps: Deps, done: seq<Name>, n: Name) {
    n in deps && n !in done && forall d <- deps[n] :: d in done
  }

  /** Each service is the first by name among those that could have been next. */
  ghost predicate Greedy(deps: Deps, order: seq<Name>) {
    forall i :: 0 <= i < |order| ==>
      && Ready(deps, order[..i], order[i])
      && forall n :: Ready(deps, order[..i], n) ==> order[i] <= n
  }

  /** Equal, or smaller at the first place they differ. */
  ghost predicate LexLeq(a: seq<Name>, b: seq<Name>) {
    a == b || exists k: nat :: FirstDifference(a, b, k) && a[k] < b[k]
  }

  predicate FirstDifference(a: seq<Name>, b: seq<Name>, k: nat) {
    k < |a| && k < |b| && a[..k] == b[..k] && a[k] != b[k]
  }

  // ── What a start order says about the graph ───────────────────────────────

  function Position(order: seq<Name>, n: Name): (p: nat)
    requires n in order
    ensures p < |order| && order[p] == n && n !in order[..p]
  {
    if order[0] == n then 0 else 1 + Position(order[1..], n)
  }

  /** Each step along a dependency goes at least one place towards the start. */
  lemma {:induction false} WalksGoDown(deps: Deps, order: seq<Name>, c: seq<Name>, k: nat)
    requires IsStartOrder(deps, order) && ClosedWalk(deps, c) && k < |c|
    ensures c[0] in order && c[k] in order && Position(order, c[k]) + k <= Position(order, c[0])
  {
    if k == 0 {
    } else {
      WalksGoDown(deps, order, c, k - 1);
      var p := Position(order, c[k - 1]);
      assert c[k - 1 + 1] in deps[c[k - 1]];
      assert order[p] in deps && forall d <- deps[order[p]] :: d in order[..p];
      var r :| 0 <= r < p && order[r] == c[k];
      assert c[k] !in order[..Position(order, c[k])];
    }
  }

  lemma StartOrderMeansAcyclic(deps: Deps, order: seq<Name>)
    requires IsStartOrder(deps, order)
    ensures Acyclic(deps) && Closed(deps)
  {
    forall c ensures !ClosedWalk(deps, c) {
      if ClosedWalk(deps, c) {
        WalksGoDown(deps, order, c, |c| - 1);
        assert false;
      }
    }
    forall n, d | n in deps && d in deps[n] ensures d in deps {
      assert d in order[..Position(order, n)];
    }
  }

  lemma FirstDifferenceExists(a: seq<Name>, b: seq<Name>) returns (k: nat)
    requires |a| == |b| && a != b
    ensures FirstDifference(a, b, k)
  {
    k := 0;
    while k < |a| && a[k] == b[k]
      invariant k <= |a| && a[..k] == b[..k]
    {
      k := k + 1;
    }
  }

  /** Among all start orders the greedy one comes first. */
  lemma GreedyIsLeast(deps: Deps, order: seq<Name>, other: seq<Name>)
    requires IsStartOrder(deps, order) && Greedy(deps, order)
    requires IsStartOrder(deps, other)
    ensures LexLeq(order, other)
  {
    if order != other {
      DistinctSize(order, deps.Keys);
      DistinctSize(other, deps.Keys);
      var k := FirstDifferenceExists(order, other);
      assert Ready(deps, order[..k], other[k]);
      assert order[k] < other[k];
    }
  }

  // ── Counting unmet dependencies ───────────────────────────────────────────

  /** How many entries of a dependency list are not done, repetitions counted. */
  function Unmet(ds: seq<Name>, done: seq<Name>): nat {
    if ds == [] then 0 else (if ds[0] in done then 0 else 1) + Unmet(ds[1..], done)
  }

  lemma {:induction false} UnmetOneLess(ds: seq<Name>, done: seq<Name>, x: Name)
    requires x !in done
    ensures Unmet(ds, done + [x]) + multiset(ds)[x] == Unmet(ds, done)
  {
    if ds != [] {
      assert ds == [ds[0]] + ds[1..];
      UnmetOneLess(ds[1..], done, x);
    }
  }

  lemma {:induction false} UnmetZero(ds: seq<Name>, done: seq<Name>)
    ensures Unmet(ds, done) == 0 <==> forall d <- ds :: d in done
  {
    if ds != [] {
      assert forall d <- ds :: d == ds[0] || d in ds[1..];
      assert forall d <- ds[1..] :: d in ds;
      UnmetZero(ds[1..], done);
    }
  }

  lemma {:induction false} UnmetNothingDone(ds: seq<Name>)
    ensures Unmet(ds, []) == |ds|
  {
    if ds != [] {
      UnmetNothingDone(ds[1..]);
    }
  }

  /** Who waits on `d`. */
  function Waiting(adj: map<Name, seq<Name>>, d: Name): seq<Name> {
    if d in adj then adj[d] else []
  }

  /** `adj` lists `n` under `d` as often as `d` is among the dependencies of `n`. */
  predicate Listed(adj: map<Name, seq<Name>>, edges: Deps, d: Name, n: Name) {
    multiset(Waiting(adj, d))[n] == if n in edges then multiset(edges[n])[d] else 0
  }

  ghost predicate Reverses(adj: map<Name, seq<Name>>, edges: Deps) {
    forall d, n :: Listed(adj, edges, d, n)
  }

  lemma AddEdge(adj: map<Name, seq<Name>>, edges: Deps, n: Name, d: Name)
    requires Reverses(adj, edges) && n in edges
    ensures Reverses(adj[d := Waiting(adj, d) + [n]], edges[n := edges[n] + [d]])
  {
    var adj', edges' := adj[d := Waiting(adj, d) + [n]], edges[n := edges[n] + [d]];
    forall e, m ensures Listed(adj', edges', e, m) {
      assert Listed(adj, edges, e, m);
    }
  }

  // ── Kahn's algorithm ──────────────────────────────────────────────────────

  ghost predicate DegreesCount(inDegree: map<Name, nat>, edges: Deps) {
    inDegree.Keys == edges.Keys && forall n <- edges :: inDegree[n] == |edges[n]|
  }

  /** Every service, with no edge yet. */
  method NoEdges(names: seq<Name>) returns (inDegree: map<Name, nat>, adj: map<Name, seq<Name>>, ghost edges: Deps)
    ensures Lists(names, edges.Keys) && forall n <- edges :: edges[n] == []
    ensures DegreesCount(inDegree, edges) && Reverses(adj, edges)
  {
    inDegree, adj, edges := map[], map[], map[];
    for k := 0 to |names|
      invariant inDegree.Keys == edges.Keys && Lists(names[..k], edges.Keys)
      invariant forall n <- edges :: edges[n] == [] && inDegree[n] == 0
      invariant forall n <- adj :: adj[n] == []
    {
      assert names[..k + 1] == names[..k] + [names[k]];
      inDegree := inDegree[names[k] := 0];
      adj := adj[names[k] := []];
      edges := edges[names[k] := []];
    }
    assert names[..|names|] == names;
  }

  /** The edges out of one service. */
  method EdgesOf(n: Name, ds: seq<Name>, inDegree: map<Name, nat>, adj: map<Name, seq<Name>>, ghost edges: Deps)
    returns (inDegree': map<Name, nat>, adj': map<Name, seq<Name>>, ghost edges': Deps)
    requires n in edges && edges[n] == [] && DegreesCount(inDegree, edges) && Reverses(adj, edges)
    ensures edges' == edges[n := ds]
    ensures DegreesCount(inDegree', edges') && Reverses(adj', edges')
  {
    inDegree', adj', edges' := inDegree, adj, edges;
    for j := 0 to |ds|
      invariant edges' == edges[n := ds[..j]]
      invariant DegreesCount(inDegree', edges') && Reverses(adj', edges')
    {
      AddEdge(adj', edges', n, ds[j]);
      inDegree' := inDegree'[n := inDegree'[n] + 1];
      adj' := adj'[ds[j] := Waiting(adj', ds[j]) + [n]];
      edges' := edges'[n := edges'[n] + [ds[j]]];
      assert ds[..j + 1] == ds[..j] + [ds[j]];
    }
    assert ds[..|ds|] == ds;
  }

  /** `edges` has the dependencies of the first `k` names, and nothing for the others. */
  ghost predicate FilledIn(deps: Deps, edges: Deps, names: seq<Name>, k: nat) {
    && k <= |names|
    && edges.Keys == deps.Keys
    && forall i :: 0 <= i < |names| ==> names[i] in deps && edges[names[i]] == if i < k then deps[names[i]] else []
  }

  lemma FillIn(deps: Deps, edges: Deps, names: seq<Name>, k: nat)
    requires Ascending(names) && k < |names| && FilledIn(deps, edges, names, k)
    ensures FilledIn(deps, edges[names[k] := deps[names[k]]], names, k + 1)
  {
  }

  lemma FilledMeansEqual(deps: Deps, edges: Deps, names: seq<Name>)
    requires Lists(names, deps.Keys) && FilledIn(deps, edges, names, |names|)
    ensures edges == deps
  {
  }

  /** Register every edge: how many dependencies each service has, and who waits on whom. */
  method CountEdges(deps: Deps) returns (inDegree: map<Name, nat>, adj: map<Name, seq<Name>>)
    ensures DegreesCount(inDegree, deps) && Reverses(adj, deps)
  {
    var names := InOrder(deps.Keys);
    ghost var edges: Deps;
    inDegree, adj, edges := NoEdges(names);
    for k := 0 to |names|
      invariant DegreesCount(inDegree, edges) && Reverses(adj, edges)
      invariant FilledIn(deps, edges, names, k)
    {
      FillIn(deps, edges, names, k);
      inDegree, adj, edges := EdgesOf(names[k], deps[names[k]], inDegree, adj, edges);
    }
    FilledMeansEqual(deps, edges, names);
  }

  /** The queue holds, in order, exactly the unscheduled services with nothing left to wait for. */
  ghost predicate QueueIsReady(deps: Deps, inDegree: map<Name, nat>, order: seq<Name>, queue: seq<Name>) {
    && inDegree.Keys == deps.Keys
    && Ascending(queue)
    && (forall n <- queue :: n in deps)
    && (forall n <- deps :: n in queue <==> n !in order && inDegree[n] == 0)
    && (forall n <- order :: n in deps && inDegree[n] == 0)
  }

  ghost predicate DegreesAreUnmet(deps: Deps, inDegree: map<Name, nat>, done: seq<Name>, released: multiset<Name>)
    requires inDegree.Keys == deps.Keys
  {
    forall n <- deps :: inDegree[n] + released[n] == Unmet(deps[n], done)
  }

  /** One service has one dependency less to wait for, and queues up if that was the last. */
  method Decrement(ghost deps: Deps, inDegree: map<Name, nat>, ghost order: seq<Name>, queue: seq<Name>, successor: Name)
    returns (inDegree': map<Name, nat>, queue': seq<Name>)
    requires QueueIsReady(deps, inDegree, order, queue)
    requires successor in deps && inDegree[successor] > 0
    ensures inDegree' == inDegree[successor := inDegree[successor] - 1]
    ensures QueueIsReady(deps, inDegree', order, queue')
  {
    inDegree' := inDegree[successor := inDegree[successor] - 1];
    queue' := queue;
    if inDegree'[successor] == 0 {
      InsertKeepsOrder(queue, successor);
      var pos := PartitionPoint(queue, successor);
      queue' := queue[..pos] + [successor] + queue[pos..];
      assert queue' == Insert(queue, successor);
    }
  }

  /** Tell everyone who waits on `name` that it is scheduled. */
  method Release(ghost deps: Deps, inDegree: map<Name, nat>, adj: map<Name, seq<Name>>, ghost done: seq<Name>,
                 ghost order: seq<Name>, queue: seq<Name>, name: Name)
    returns (inDegree': map<Name, nat>, queue': seq<Name>)
    requires QueueIsReady(deps, inDegree, order, queue) && Reverses(adj, deps)
    requires DegreesAreUnmet(deps, inDegree, done, multiset{})
    requires name !in done
    ensures QueueIsReady(deps, inDegree', order, queue')
    ensures DegreesAreUnmet(deps, inDegree', done + [name], multiset{})
  {
    inDegree', queue' := inDegree, queue;
    var next := Sorted(Waiting(adj, name));
    for k := 0 to |next|
      invariant QueueIsReady(deps, inDegree', order, queue')
      invariant DegreesAreUnmet(deps, inDegree', done, multiset(next[..k]))
    {
      SuccessorIsWaiting(deps, inDegree', adj, done, name, next, k);
      OneMoreTold(deps, inDegree', done, next, k);
      inDegree', queue' := Decrement(deps, inDegree', order, queue', next[k]);
    }
    assert next[..|next|] == next;
    EveryoneWasTold(deps, inDegree', adj, done, name, next);
  }

  lemma OneMoreTold(deps: Deps, inDegree: map<Name, nat>, done: seq<Name>, next: seq<Name>, k: nat)
    requires inDegree.Keys == deps.Keys && k < |next| && next[k] in deps && inDegree[next[k]] > 0
    requires DegreesAreUnmet(deps, inDegree, done, multiset(next[..k]))
    ensures
      var inDegree' := inDegree[next[k] := inDegree[next[k]] - 1];
      inDegree'.Keys == deps.Keys && DegreesAreUnmet(deps, inDegree', done, multiset(next[..k + 1]))
  {
    assert next[..k + 1] == next[..k] + [next[k]];
  }

  lemma EveryoneWasTold(deps: Deps, inDegree: map<Name, nat>, adj: map<Name, seq<Name>>, done: seq<Name>,
                        name: Name, next: seq<Name>)
    requires inDegree.Keys == deps.Keys && Reverses(adj, deps) && name !in done
    requires multiset(next) == multiset(Waiting(adj, name))
    requires DegreesAreUnmet(deps, inDegree, done, multiset(next))
    ensures DegreesAreUnmet(deps, inDegree, done + [name], multiset{})
  {
    forall n | n in deps ensures inDegree[n] == Unmet(deps[n], done + [name]) {
      UnmetOneLess(deps[n], done, name);
      assert Listed(adj, deps, name, n);
    }
  }

  lemma SuccessorIsWaiting(deps: Deps, inDegree: map<Name, nat>, adj: map<Name, seq<Name>>, done: seq<Name>,
                           name: Name, next: seq<Name>, k: nat)
    requires inDegree.Keys == deps.Keys && Reverses(adj, deps) && name !in done
    requires k < |next| && multiset(next) == multiset(Waiting(adj, name))
    requires DegreesAreUnmet(deps, inDegree, done, multiset(next[..k]))
    ensures next[k] in deps && inDegree[next[k]] > 0
  {
    var n := next[k];
    assert next == next[..k] + [n] + next[k + 1..];
    assert multiset(next)[n] >= multiset(next[..k])[n] + 1;
    assert Listed(adj, deps, name, n);
    UnmetOneLess(deps[n], done, name);
  }

  lemma QueueMeansReady(deps: Deps, inDegree: map<Name, nat>, order: seq<Name>, queue: seq<Name>, n: Name)
    requires QueueIsReady(deps, inDegree, order, queue)
    requires DegreesAreUnmet(deps, inDegree, order, multiset{})
    ensures n in queue <==> Ready(deps, order, n)
  {
    if n in deps {
      UnmetZero(deps[n], order);
    }
  }

  /** Schedule services until nobody is ready. */
  method Schedule(deps: Deps) returns (order: seq<Name>, inDegree: map<Name, nat>)
    ensures Distinct(order) && Greedy(deps, order)
    ensures QueueIsReady(deps, inDegree, order, [])
    ensures DegreesAreUnmet(deps, inDegree, order, multiset{})
  {
    var adj;
    inDegree, adj := CountEdges(deps);
    forall n | n in deps ensures inDegree[n] == Unmet(deps[n], []) {
      UnmetNothingDone(deps[n]);
    }
    var queue := InOrder(set n | n in inDegree && inDegree[n] == 0);
    order := [];
    while queue != []
      invariant QueueIsReady(deps, inDegree, order, queue)
      invariant DegreesAreUnmet(deps, inDegree, order, multiset{})
      invariant Distinct(order) && Greedy(deps, order)
      invariant |order| <= |deps|
      decreases |deps| - |order|
    {
      var name := queue[0];
      PopIsNext(deps, inDegree, order, queue);
      ScheduleNext(deps, order, name);
      OrderSize(deps, order + [name]);
      ghost var done := order;
      queue := queue[1..];
      order := order + [name];
      inDegree, queue := Release(deps, inDegree, adj, done, order, queue, name);
    }
  }

  /** The head of the queue is the first ready service, and the rest stays queued. */
  lemma PopIsNext(deps: Deps, inDegree: map<Name, nat>, order: seq<Name>, queue: seq<Name>)
    requires QueueIsReady(deps, inDegree, order, queue) && queue != []
    requires DegreesAreUnmet(deps, inDegree, order, multiset{})
    ensures Ready(deps, order, queue[0]) && queue[0] !in order
    ensures forall n :: Ready(deps, order, n) ==> queue[0] <= n
    ensures QueueIsReady(deps, inDegree, order + [queue[0]], queue[1..])
  {
    forall n ensures n in queue <==> Ready(deps, order, n) {
      QueueMeansReady(deps, inDegree, order, queue, n);
    }
    assert queue == [queue[0]] + queue[1..];
  }

  /**
   Compute the start order: dependencies first, and among the services that
   could come next always the first by name.  There is one exactly when every
   dependency is a service and no dependency chain comes back to its start;
   when only the second fails the error is a cycle.
   */
  method TopologicalSort(deps: Deps) returns (r: Result<seq<Name>, Trouble>)
    ensures r.Ok? <==> Closed(deps) && Acyclic(deps)
    ensures r.Ok? ==> IsStartOrder(deps, r.value) && Greedy(deps, r.value)
    ensures r.Err? && Closed(deps) ==> r.error.Cycle?
    ensures r.Err? && r.error.Cycle? ==> IsCycle(deps, r.error.names)
  {
    var order, inDegree := Schedule(deps);
    OrderSize(deps, order);
    if |order| != |deps| {
      var remaining := set n | n in inDegree && inDegree[n] > 0;
      StuckMeansLeft(deps, inDegree, order, remaining);
      var trouble := FindCycle(deps, remaining);
      assert trouble.Cycle? ==> ClosedWalk(deps, trouble.names);
      return Err(trouble);
    }
    StartOrderMeansAcyclic(deps, order);
    return Ok(order);
  }

  lemma OrderSize(deps: Deps, order: seq<Name>)
    requires Distinct(order) && Greedy(deps, order)
    ensures (forall n <- order :: n in deps) && |order| <= |deps|
    ensures |order| == |deps| <==> Lists(order, deps.Keys)
  {
    forall i | 0 <= i < |order| ensures order[i] in deps {
      assert Ready(deps, order[..i], order[i]);
    }
    DistinctCovers(order, deps.Keys);
    assert |deps| == |deps.Keys|;
  }

  lemma ScheduleNext(deps: Deps, order: seq<Name>, name: Name)
    requires Distinct(order) && Greedy(deps, order) && Ready(deps, order, name)
    requires forall n :: Ready(deps, order, n) ==> name <= n
    ensures Distinct(order + [name]) && Greedy(deps, order + [name])
  {
    var longer := order + [name];
    forall i | 0 <= i < |longer|
      ensures Ready(deps, longer[..i], longer[i]) && forall n :: Ready(deps, longer[..i], n) ==> longer[i] <= n
    {
      assert longer[..i] == order[..i];
      if i == |order| {
        assert order[..i] == order;
      }
    }
  }

  /** When nothing is ready, what is left over waits on something left over, or on something unknown. */
  lemma StuckMeansLeft(deps: Deps, inDegree: map<Name, nat>, order: seq<Name>, remaining: set<Name>)
    requires QueueIsReady(deps, inDegree, order, [])
    requires DegreesAreUnmet(deps, inDegree, order, multiset{})
    requires !Lists(order, deps.Keys) && remaining == (set n | n in inDegree && inDegree[n] > 0)
    ensures remaining != {} && remaining <= deps.Keys
    ensures Closed(deps) ==> forall n <- remaining :: exists d <- deps[n] :: d in remaining
  {
    if forall n <- deps :: n in order {
      assert Lists(order, deps.Keys);
    }
    var n :| n in deps && n !in order;
    assert n in remaining;
    if Closed(deps) {
      forall n | n in remaining ensures exists d <- deps[n] :: d in remaining {
        UnmetZero(deps[n], order);
      }
    }
  }

  // ── Finding a cycle ───────────────────────────────────────────────────────

  /** What the error shows: a cycle, or for want of one the names left over. */
  datatype Trouble = Cycle(names: seq<Name>) | Listing(names: seq<Name>)

  class CycleFinder {
    const deps: Deps
    const remaining: set<Name>
    var path: seq<Name>
    var onPath: set<Name>
    var finished: set<Name>
    ghost var closing: seq<Name>  // `finished`, in the order the search left them

    constructor (deps: Deps, remaining: set<Name>)
      ensures this.deps == deps && this.remaining == remaining
      ensures Valid() && path == [] && finished == {}
    {
      this.deps, this.remaining := deps, remaining;
      path, onPath, finished, closing := [], {}, {}, [];
    }

    ghost predicate Valid()
      reads this
    {
      && IsPath(deps, path) && Lists(path, onPath) && onPath <= remaining
      && Lists(closing, finished) && finished <= remaining
      && LeftInOrder(deps, remaining, closing)
    }

    method Dfs(node: Name) returns (cycle: Option<seq<Name>>)
      requires Valid()
      requires path != [] ==> path[|path| - 1] in deps && node in deps[path[|path| - 1]]
      modifies this
      ensures cycle.None? ==> Valid() && path == old(path) && old(finished) <= finished
      ensures cycle.None? && node in remaining ==> node in finished
      ensures cycle.Some? ==> IsCycleWithin(deps, remaining, cycle.value)
      decreases remaining - onPath, 1
    {
      if node in onPath {
        var at := IndexOf(path, node);
        return Some(path[at..] + [node]);
      }
      if node in finished || node !in remaining {
        return None;
      }
      cycle := Descend(node);
    }

    /** Search on from a service that is new to the search. */
    method Descend(node: Name) returns (cycle: Option<seq<Name>>)
      requires Valid() && node in remaining && node !in onPath
      requires path != [] ==> path[|path| - 1] in deps && node in deps[path[|path| - 1]]
      modifies this
      ensures cycle.None? ==> Valid() && path == old(path) && old(finished) <= finished && node in finished
      ensures cycle.Some? ==> IsCycleWithin(deps, remaining, cycle.value)
      decreases remaining - onPath, 0
    {
      Enter(node);
      if node in deps {
        cycle := VisitAll(node, Sorted(deps[node]));
        if cycle.Some? {
          return;
        }
      }
      Leave(node);
      return None;
    }

    method Enter(node: Name)
      requires Valid() && node in remaining && node !in onPath
      requires path != [] ==> path[|path| - 1] in deps && node in deps[path[|path| - 1]]
      modifies this`path, this`onPath
      ensures Valid() && path == old(path) + [node] && onPath == old(onPath) + {node}
    {
      onPath := onPath + {node};
      path := path + [node];
    }

    /** Everything under `node` was searched without closing a loop. */
    method Leave(node: Name)
      requires Valid() && path != [] && path[|path| - 1] == node
      requires node in deps ==> forall d <- deps[node] :: d in remaining ==> d in closing
      modifies this
      ensures Valid() && path == old(path)[..|old(path)| - 1] && finished == old(finished) + {node}
    {
      LeftInOrderExtends(deps, remaining, closing, node);
      assert path == path[..|path| - 1] + [node];
      assert node in onPath;
      path := path[..|path| - 1];
      onPath := onPath - {node};
      finished := finished + {node};
      closing := closing + [node];
    }

    /** Follow, in order, every dependency of the end of the path. */
    method VisitAll(node: Name, sorted: seq<Name>) returns (cycle: Option<seq<Name>>)
      requires Valid() && path != [] && path[|path| - 1] == node
      requires node in deps && multiset(sorted) == multiset(deps[node])
      modifies this
      ensures cycle.None? ==> Valid() && path == old(path) && old(finished) <= finished
      ensures cycle.None? ==> forall d <- deps[node] :: d in remaining ==> d in closing
      ensures cycle.Some? ==> IsCycleWithin(deps, remaining, cycle.value)
      decreases remaining - onPath, 2
    {
      for k := 0 to |sorted|
        invariant Valid() && path == old(path) && old(finished) <= finished
        invariant forall i :: 0 <= i < k && sorted[i] in remaining ==> sorted[i] in finished
      {
        assert sorted[k] in multiset(sorted);
        cycle := Dfs(sorted[k]);
        if cycle.Some? {
          return;
        }
      }
      AllVisited(deps[node], sorted, remaining, closing);
      return None;
    }
  }

  predicate IsCycleWithin(deps: Deps, remaining: set<Name>, c: seq<Name>) {
    IsCycle(deps, c) && forall n <- c :: n in remaining
  }

  /** A chain of dependencies without repetitions. */
  predicate IsPath(deps: Deps, path: seq<Name>) {
    Distinct(path) && forall i :: 0 <= i < |path| - 1 ==> path[i] in deps && path[i + 1] in deps[path[i]]
  }

  /** Whatever the search left depends, within `remaining`, only on what it left earlier. */
  predicate LeftInOrder(deps: Deps, remaining: set<Name>, closing: seq<Name>) {
    forall i :: 0 <= i < |closing| && closing[i] in deps ==>
      forall d <- deps[closing[i]] :: d in remaining ==> d in closing[..i]
  }

  lemma LeftInOrderExtends(deps: Deps, remaining: set<Name>, closing: seq<Name>, node: Name)
    requires LeftInOrder(deps, remaining, closing)
    requires node in deps ==> forall d <- deps[node] :: d in remaining ==> d in closing
    ensures LeftInOrder(deps, remaining, closing + [node])
  {
    var longer := closing + [node];
    forall i | 0 <= i < |longer| && longer[i] in deps
      ensures forall d <- deps[longer[i]] :: d in remaining ==> d in longer[..i]
    {
      assert longer[..i] == closing[..i];
      if i == |closing| {
        assert closing[..i] == closing;
      }
    }
  }

  lemma AllVisited(ds: seq<Name>, sorted: seq<Name>, remaining: set<Name>, closing: seq<Name>)
    requires multiset(sorted) == multiset(ds)
    requires forall i :: 0 <= i < |sorted| && sorted[i] in remaining ==> sorted[i] in closing
    ensures forall d <- ds :: d in remaining ==> d in closing
  {
    forall d | d in ds && d in remaining ensures d in closing {
      assert d in multiset(ds);
      assert d in sorted;
    }
  }

  method IndexOf(s: seq<Name>, x: Name) returns (k: nat)
    requires x in s
    ensures k < |s| && s[k] == x && x !in s[..k]
  {
    k := 0;
    while s[k] != x
      invariant k < |s| && x !in s[..k]
      invariant x in s[k..]
      decreases |s| - k
    {
      k := k + 1;
    }
  }

  /** Search what is left over for one cycle; the plain listing means some service there waits on none of the others. */
  method FindCycle(deps: Deps, remaining: set<Name>) returns (r: Trouble)
    ensures r.Cycle? ==> IsCycleWithin(deps, remaining, r.names)
    ensures r.Listing? ==> r.names == InOrder(remaining)
    ensures r.Listing? && remaining != {} ==>
              exists n <- remaining :: n !in deps || forall d <- deps[n] :: d !in remaining
  {
    var finder := new CycleFinder(deps, remaining);
    var starts := InOrder(remaining);
    for k := 0 to |starts|
      invariant finder.Valid() && finder.path == [] && finder.deps == deps && finder.remaining == remaining
      invariant fresh(finder)
      invariant forall i :: 0 <= i < k ==> starts[i] in finder.finished
    {
      if starts[k] !in finder.finished {
        var cycle := finder.Dfs(starts[k]);
        if cycle.Some? {
          return Cycle(cycle.value);
        }
      }
    }
    if remaining != {} {
      forall n | n in remaining ensures n in finder.finished {
        assert n in starts;
      }
      var first := finder.closing[0];
      assert first in finder.closing;
    }
    return Listing(starts);
  }
}
