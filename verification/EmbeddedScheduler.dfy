/**
 The embedded scheduler: tasks name their dependencies by handle, and executing a task
 first executes its dependencies, each time it is asked.
 */
module EmbeddedScheduler {
  /** The dependencies of every task queued so far; handle `h` is entry `h - 1`. */
  type Tasks = seq<seq<nat>>

  /** Every task names only handles given out before its own. */
  ghost predicate Closed(tasks: Tasks) {
    forall t, i :: 0 <= t < |tasks| && 0 <= i < |tasks[t]| ==> 1 <= tasks[t][i] <= t
  }

  ghost predicate Handle(tasks: Tasks, id: nat) {
    1 <= id <= |tasks|
  }

  ghost function Deps(tasks: Tasks, id: nat): (r: seq<nat>)
    requires Closed(tasks) && Handle(tasks, id)
    ensures forall i :: 0 <= i < |r| ==> Handle(tasks, r[i]) && r[i] < id
  {
    tasks[id - 1]
  }

  /** What executing a task runs, in order. */
  ghost function Trace(tasks: Tasks, id: nat): (r: seq<nat>)
    requires Closed(tasks) && Handle(tasks, id)
    ensures |r| > 0 && r[|r| - 1] == id
    decreases id, |Deps(tasks, id)| + 1
  {
    TraceDeps(tasks, id, |Deps(tasks, id)|) + [id]
  }

  ghost function TraceDeps(tasks: Tasks, id: nat, n: nat): (r: seq<nat>)
    requires Closed(tasks) && Handle(tasks, id) && n <= |Deps(tasks, id)|
    decreases id, n
  {
    if n == 0 then [] else TraceDeps(tasks, id, n - 1) + Trace(tasks, Deps(tasks, id)[n - 1])
  }

  // ---------------------------------------------------------------- order

  /** `part` stands in `r` right up to and including position `k`. */
  ghost predicate EndsAt(r: seq<nat>, k: nat, part: seq<nat>)
    requires k < |r|
  {
    |part| <= k + 1 && r[k + 1 - |part|..k + 1] == part
  }

  /** Position `k` of a trace ends a whole execution of whatever runs there. */
  ghost predicate EndsWhole(tasks: Tasks, r: seq<nat>, k: nat)
    requires Closed(tasks) && k < |r|
  {
    Handle(tasks, r[k]) && EndsAt(r, k, Trace(tasks, r[k]))
  }

  ghost predicate AllWhole(tasks: Tasks, r: seq<nat>)
    requires Closed(tasks)
  {
    forall k :: 0 <= k < |r| ==> EndsWhole(tasks, r, k)
  }

  lemma WholeLeft(tasks: Tasks, a: seq<nat>, b: seq<nat>, k: nat)
    requires Closed(tasks) && k < |a| && EndsWhole(tasks, a, k)
    ensures EndsWhole(tasks, a + b, k)
  {
  }

  lemma WholeRight(tasks: Tasks, a: seq<nat>, b: seq<nat>, j: nat)
    requires Closed(tasks) && j < |b| && EndsWhole(tasks, b, j)
    ensures EndsWhole(tasks, a + b, |a| + j)
  {
  }

  lemma WholeJoin(tasks: Tasks, a: seq<nat>, b: seq<nat>)
    requires Closed(tasks) && AllWhole(tasks, a) && AllWhole(tasks, b)
    ensures AllWhole(tasks, a + b)
  {
    var r := a + b;
    forall k | 0 <= k < |r| ensures EndsWhole(tasks, r, k) {
      if k < |a| {
        WholeLeft(tasks, a, b, k);
      } else {
        var j := k - |a|;
        WholeRight(tasks, a, b, j);
        assert k == |a| + j;
      }
    }
  }

  /** Wherever a task runs, a complete execution of its dependencies comes directly before it. */
  lemma {:induction false} DependenciesFirst(tasks: Tasks, id: nat)
    requires Closed(tasks) && Handle(tasks, id)
    ensures AllWhole(tasks, Trace(tasks, id))
    decreases id, |Deps(tasks, id)| + 1
  {
    var r, deps := Trace(tasks, id), TraceDeps(tasks, id, |Deps(tasks, id)|);
    DependenciesFirstUpto(tasks, id, |Deps(tasks, id)|);
    forall k | 0 <= k < |r| ensures EndsWhole(tasks, r, k) {
      if k < |deps| {
        WholeLeft(tasks, deps, [id], k);
      } else {
        assert r[0..|r|] == r;
      }
    }
  }

  lemma {:induction false} DependenciesFirstUpto(tasks: Tasks, id: nat, n: nat)
    requires Closed(tasks) && Handle(tasks, id) && n <= |Deps(tasks, id)|
    ensures AllWhole(tasks, TraceDeps(tasks, id, n))
    decreases id, n
  {
    if n > 0 {
      DependenciesFirstUpto(tasks, id, n - 1);
      DependenciesFirst(tasks, Deps(tasks, id)[n - 1]);
      WholeJoin(tasks, TraceDeps(tasks, id, n - 1), Trace(tasks, Deps(tasks, id)[n - 1]));
    }
  }

  // ---------------------------------------------------------------- paths

  /** A path: at each task, which of its dependencies to go to. */
  ghost predicate IsPath(tasks: Tasks, id: nat, path: seq<nat>, goal: nat)
    requires Closed(tasks) && Handle(tasks, id)
    decreases |path|
  {
    if path == [] then id == goal
    else path[0] < |Deps(tasks, id)| && IsPath(tasks, Deps(tasks, id)[path[0]], path[1..], goal)
  }

  ghost function Prefixed(edge: nat, paths: set<seq<nat>>): (r: set<seq<nat>>) {
    set p | p in paths :: [edge] + p
  }

  /** All paths from a task to a goal. */
  ghost function Paths(tasks: Tasks, id: nat, goal: nat): (r: set<seq<nat>>)
    requires Closed(tasks) && Handle(tasks, id)
    decreases id, |Deps(tasks, id)| + 1
  {
    PathsVia(tasks, id, |Deps(tasks, id)|, goal) + if id == goal then {[]} else {}
  }

  /** Those whose first step is one of the first `n` dependencies. */
  ghost function PathsVia(tasks: Tasks, id: nat, n: nat, goal: nat): (r: set<seq<nat>>)
    requires Closed(tasks) && Handle(tasks, id) && n <= |Deps(tasks, id)|
    decreases id, n
  {
    if n == 0 then {}
    else PathsVia(tasks, id, n - 1, goal) + Prefixed(n - 1, Paths(tasks, Deps(tasks, id)[n - 1], goal))
  }

  lemma {:induction false} PathsAreAll(tasks: Tasks, id: nat, goal: nat, path: seq<nat>)
    requires Closed(tasks) && Handle(tasks, id)
    ensures path in Paths(tasks, id, goal) <==> IsPath(tasks, id, path, goal)
    decreases id, |Deps(tasks, id)| + 1
  {
    PathsViaAreAll(tasks, id, |Deps(tasks, id)|, goal, path);
  }

  lemma {:induction false} PathsViaAreAll(tasks: Tasks, id: nat, n: nat, goal: nat, path: seq<nat>)
    requires Closed(tasks) && Handle(tasks, id) && n <= |Deps(tasks, id)|
    ensures path in PathsVia(tasks, id, n, goal) <==> path != [] && path[0] < n && IsPath(tasks, id, path, goal)
    decreases id, n
  {
    if n > 0 {
      PathsViaAreAll(tasks, id, n - 1, goal, path);
      var next := Deps(tasks, id)[n - 1];
      if path != [] {
        PathsAreAll(tasks, next, goal, path[1..]);
        PrefixedHas(n - 1, Paths(tasks, next, goal), path);
      }
    }
  }

  lemma PrefixedHas(edge: nat, paths: set<seq<nat>>, path: seq<nat>)
    requires path != []
    ensures path in Prefixed(edge, paths) <==> path[0] == edge && path[1..] in paths
  {
    if path[0] == edge && path[1..] in paths {
      assert path == [edge] + path[1..];
    }
    if path in Prefixed(edge, paths) {
      var p :| p in paths && path == [edge] + p;
      assert path[1..] == p;
    }
  }

  lemma {:induction false} PrefixedSize(edge: nat, paths: set<seq<nat>>)
    ensures |Prefixed(edge, paths)| == |paths|
  {
    if paths == {} {
      assert Prefixed(edge, paths) == {};
    } else {
      var p :| p in paths;
      var rest := paths - {p};
      PrefixedSize(edge, rest);
      PrefixedHas(edge, rest, [edge] + p);
      assert ([edge] + p)[1..] == p;
      forall q ensures q in Prefixed(edge, paths) <==> q in Prefixed(edge, rest) + {[edge] + p} {
        if q != [] {
          PrefixedHas(edge, paths, q);
          PrefixedHas(edge, rest, q);
          assert q[1..] == p && q[0] == edge ==> q == [edge] + p;
        }
      }
      assert Prefixed(edge, paths) == Prefixed(edge, rest) + {[edge] + p};
    }
  }

  /** How many paths there are, counted along the dependencies. */
  ghost function PathCount(tasks: Tasks, id: nat, goal: nat): (c: nat)
    requires Closed(tasks) && Handle(tasks, id)
    decreases id, |Deps(tasks, id)| + 1
  {
    PathCountVia(tasks, id, |Deps(tasks, id)|, goal) + if id == goal then 1 else 0
  }

  ghost function PathCountVia(tasks: Tasks, id: nat, n: nat, goal: nat): (c: nat)
    requires Closed(tasks) && Handle(tasks, id) && n <= |Deps(tasks, id)|
    decreases id, n
  {
    if n == 0 then 0 else PathCountVia(tasks, id, n - 1, goal) + PathCount(tasks, Deps(tasks, id)[n - 1], goal)
  }

  lemma {:induction false} RunsAreCounted(tasks: Tasks, id: nat, goal: nat)
    requires Closed(tasks) && Handle(tasks, id)
    ensures multiset(Trace(tasks, id))[goal] == PathCount(tasks, id, goal)
    decreases id, |Deps(tasks, id)| + 1
  {
    var n := |Deps(tasks, id)|;
    RunsAreCountedVia(tasks, id, n, goal);
    CountJoined(TraceDeps(tasks, id, n), [id], goal);
  }

  lemma {:induction false} RunsAreCountedVia(tasks: Tasks, id: nat, n: nat, goal: nat)
    requires Closed(tasks) && Handle(tasks, id) && n <= |Deps(tasks, id)|
    ensures multiset(TraceDeps(tasks, id, n))[goal] == PathCountVia(tasks, id, n, goal)
    decreases id, n
  {
    if n > 0 {
      RunsAreCountedVia(tasks, id, n - 1, goal);
      RunsAreCounted(tasks, Deps(tasks, id)[n - 1], goal);
      CountDeps(tasks, id, n, goal);
    }
  }

  lemma {:induction false} PathsAreCounted(tasks: Tasks, id: nat, goal: nat)
    requires Closed(tasks) && Handle(tasks, id)
    ensures |Paths(tasks, id, goal)| == PathCount(tasks, id, goal)
    decreases id, |Deps(tasks, id)| + 1
  {
    var n := |Deps(tasks, id)|;
    PathsAreCountedVia(tasks, id, n, goal);
    PathsViaAreAll(tasks, id, n, goal, []);
    assert [] !in PathsVia(tasks, id, n, goal);
  }

  lemma {:induction false} PathsAreCountedVia(tasks: Tasks, id: nat, n: nat, goal: nat)
    requires Closed(tasks) && Handle(tasks, id) && n <= |Deps(tasks, id)|
    ensures |PathsVia(tasks, id, n, goal)| == PathCountVia(tasks, id, n, goal)
    decreases id, n
  {
    if n > 0 {
      PathsAreCountedVia(tasks, id, n - 1, goal);
      PathsAreCounted(tasks, Deps(tasks, id)[n - 1], goal);
      PathsViaSize(tasks, id, n, goal);
    }
  }

  /** A task runs exactly as many times as there are dependency paths to it. */
  lemma RunsPerPath(tasks: Tasks, id: nat, goal: nat)
    requires Closed(tasks) && Handle(tasks, id)
    ensures multiset(Trace(tasks, id))[goal] == |Paths(tasks, id, goal)|
    ensures forall path :: path in Paths(tasks, id, goal) <==> IsPath(tasks, id, path, goal)
  {
    RunsAreCounted(tasks, id, goal);
    PathsAreCounted(tasks, id, goal);
    forall path ensures path in Paths(tasks, id, goal) <==> IsPath(tasks, id, path, goal) {
      PathsAreAll(tasks, id, goal, path);
    }
  }

  lemma PathsViaSize(tasks: Tasks, id: nat, n: nat, goal: nat)
    requires Closed(tasks) && Handle(tasks, id) && 0 < n <= |Deps(tasks, id)|
    ensures |PathsVia(tasks, id, n, goal)|
            == |PathsVia(tasks, id, n - 1, goal)| + |Paths(tasks, Deps(tasks, id)[n - 1], goal)|
  {
    var m := n - 1;
    var a, b := PathsVia(tasks, id, m, goal), Paths(tasks, Deps(tasks, id)[m], goal);
    forall p | p in a ensures p != [] && p[0] < m {
      PathsViaAreAll(tasks, id, m, goal, p);
    }
    JoinedSize(a, m, b);
    assert PathsVia(tasks, id, n, goal) == a + Prefixed(m, b);
  }

  lemma JoinedSize(a: set<seq<nat>>, m: nat, b: set<seq<nat>>)
    requires forall p :: p in a ==> p != [] && p[0] < m
    ensures |a + Prefixed(m, b)| == |a| + |b|
  {
    PrefixedSize(m, b);
    forall p | p in a ensures p !in Prefixed(m, b) {
      PrefixedHas(m, b, p);
    }
    DisjointSize(a, Prefixed(m, b));
  }

  lemma DisjointSize(a: set<seq<nat>>, b: set<seq<nat>>)
    requires forall p :: p in a ==> p !in b
    ensures |a + b| == |a| + |b|
  {
  }

  lemma CountDeps(tasks: Tasks, id: nat, n: nat, goal: nat)
    requires Closed(tasks) && Handle(tasks, id) && 0 < n <= |Deps(tasks, id)|
    ensures multiset(TraceDeps(tasks, id, n))[goal]
            == multiset(TraceDeps(tasks, id, n - 1))[goal] + multiset(Trace(tasks, Deps(tasks, id)[n - 1]))[goal]
  {
  }

  lemma CountJoined(a: seq<nat>, b: seq<nat>, goal: nat)
    ensures multiset(a + b)[goal] == multiset(a)[goal] + multiset(b)[goal]
  {
  }

  lemma {:induction false} PathsDescend(tasks: Tasks, id: nat, path: seq<nat>, goal: nat)
    requires Closed(tasks) && Handle(tasks, id) && IsPath(tasks, id, path, goal)
    ensures path == [] ==> goal == id
    ensures path != [] ==> goal < id
    decreases |path|
  {
    if path != [] {
      PathsDescend(tasks, Deps(tasks, id)[path[0]], path[1..], goal);
    }
  }

  lemma {:induction false} ReachedRuns(tasks: Tasks, id: nat, path: seq<nat>, goal: nat)
    requires Closed(tasks) && Handle(tasks, id) && IsPath(tasks, id, path, goal)
    ensures goal in Trace(tasks, id)
  {
    PathsAreAll(tasks, id, goal, path);
    RunsPerPath(tasks, id, goal);
    assert multiset(Trace(tasks, id))[goal] > 0;
  }

  /** Every transitive dependency of a task has run before it, wherever it runs. */
  lemma TransitiveDependenciesFirst(tasks: Tasks, id: nat, k: nat, path: seq<nat>, goal: nat)
    requires Closed(tasks) && Handle(tasks, id) && k < |Trace(tasks, id)| && Handle(tasks, Trace(tasks, id)[k])
    requires path != [] && IsPath(tasks, Trace(tasks, id)[k], path, goal)
    ensures goal in Trace(tasks, id)[..k]
  {
    var r := Trace(tasks, id);
    DependenciesFirst(tasks, id);
    assert EndsWhole(tasks, r, k);
    PathsDescend(tasks, r[k], path, goal);
    ReachedRuns(tasks, r[k], path, goal);
    var whole := Trace(tasks, r[k]);
    var i :| 0 <= i < |whole| && whole[i] == goal;
    var from := k + 1 - |whole|;
    assert r[from..k + 1][i] == r[from + i];
    assert r[..k][from + i] == goal;
  }

  // ---------------------------------------------------------------- the order of a trace

  /** Depth first: earlier dependencies before later ones, and whatever lies below a task before the task. */
  ghost predicate Before(p: seq<nat>, q: seq<nat>)
    decreases |p|
  {
    p != [] && (q == [] || p[0] < q[0] || (p[0] == q[0] && Before(p[1..], q[1..])))
  }

  /** `order` lists paths from `id`, strictly depth first, to the tasks that `r` lists. */
  ghost predicate Visits(tasks: Tasks, id: nat, order: seq<seq<nat>>, r: seq<nat>)
    requires Closed(tasks) && Handle(tasks, id)
  {
    && |order| == |r|
    && (forall k :: 0 <= k < |r| ==> IsPath(tasks, id, order[k], r[k]))
    && (forall j, k :: 0 <= j < k < |order| ==> Before(order[j], order[k]))
  }

  ghost function Below(edge: nat, order: seq<seq<nat>>): (r: seq<seq<nat>>)
    ensures |r| == |order| && forall k :: 0 <= k < |r| ==> r[k] == [edge] + order[k]
  {
    seq(|order|, k requires 0 <= k < |order| => [edge] + order[k])
  }

  lemma BelowVisits(tasks: Tasks, id: nat, edge: nat, order: seq<seq<nat>>)
    requires Closed(tasks) && Handle(tasks, id) && edge < |Deps(tasks, id)|
    requires var next := Deps(tasks, id)[edge]; Visits(tasks, next, order, Trace(tasks, next))
    ensures Visits(tasks, id, Below(edge, order), Trace(tasks, Deps(tasks, id)[edge]))
  {
    var below := Below(edge, order);
    forall k | 0 <= k < |order| ensures below[k][1..] == order[k] && below[k][0] == edge {
      assert below[k] == [edge] + order[k];
    }
  }

  lemma VisitsJoin(tasks: Tasks, id: nat, a: seq<seq<nat>>, r: seq<nat>, b: seq<seq<nat>>, s: seq<nat>, n: nat)
    requires Closed(tasks) && Handle(tasks, id) && Visits(tasks, id, a, r) && Visits(tasks, id, b, s)
    requires (forall k :: 0 <= k < |a| ==> a[k] != [] && a[k][0] < n)
    requires (forall k :: 0 <= k < |b| ==> b[k] == [] || b[k][0] >= n)
    ensures Visits(tasks, id, a + b, r + s)
  {
  }

  /** A trace runs through all paths depth first, each exactly once: it is their endpoints in that order. */
  lemma {:induction false} TraceIsDepthFirst(tasks: Tasks, id: nat) returns (order: seq<seq<nat>>)
    requires Closed(tasks) && Handle(tasks, id)
    ensures Visits(tasks, id, order, Trace(tasks, id))
    ensures ListsAll(tasks, id, order)
    decreases id, |Deps(tasks, id)| + 1
  {
    var n := |Deps(tasks, id)|;
    var first := DepsAreDepthFirst(tasks, id, n);
    order := first + [[]];
    assert order[|first|] == [];
    VisitsJoin(tasks, id, first, TraceDeps(tasks, id, n), [[]], [id], n);
  }

  lemma {:induction false} DepsAreDepthFirst(tasks: Tasks, id: nat, n: nat) returns (order: seq<seq<nat>>)
    requires Closed(tasks) && Handle(tasks, id) && n <= |Deps(tasks, id)|
    ensures DepthFirstVia(tasks, id, n, order, TraceDeps(tasks, id, n))
    decreases id, n
  {
    if n == 0 {
      order := [];
    } else {
      var edge := n - 1;
      var first := DepsAreDepthFirst(tasks, id, edge);
      var last := TraceIsDepthFirst(tasks, Deps(tasks, id)[edge]);
      var r, all := TraceDeps(tasks, id, edge), TraceDeps(tasks, id, n);
      order := DepthFirstMore(tasks, id, edge, n, r, all, first, last);
    }
  }

  /** `order` goes depth first through all paths that start with one of the first `n` dependencies. */
  ghost predicate DepthFirstVia(tasks: Tasks, id: nat, n: nat, order: seq<seq<nat>>, r: seq<nat>)
    requires Closed(tasks) && Handle(tasks, id)
  {
    && Visits(tasks, id, order, r) && ListsAllVia(tasks, id, n, order)
    && forall k :: 0 <= k < |order| ==> order[k] != [] && order[k][0] < n
  }

  lemma DepthFirstMore(tasks: Tasks, id: nat, edge: nat, n: nat, r: seq<nat>, all: seq<nat>, first: seq<seq<nat>>,
                       last: seq<seq<nat>>) returns (order: seq<seq<nat>>)
    requires Closed(tasks) && Handle(tasks, id) && edge < |Deps(tasks, id)| && n == edge + 1
    requires DepthFirstVia(tasks, id, edge, first, r) && all == r + Trace(tasks, Deps(tasks, id)[edge])
    requires var next := Deps(tasks, id)[edge];
      Visits(tasks, next, last, Trace(tasks, next)) && ListsAll(tasks, next, last)
    ensures DepthFirstVia(tasks, id, n, order, all)
  {
    var below := Below(edge, last);
    order := first + below;
    BelowVisits(tasks, id, edge, last);
    VisitsJoin(tasks, id, first, r, below, Trace(tasks, Deps(tasks, id)[edge]), edge);
    ListsMore(tasks, id, edge, n, first, last, order);
  }

  /** No path from `id` is missing, and none that starts with one of the first `n` dependencies. */
  ghost predicate ListsAll(tasks: Tasks, id: nat, order: seq<seq<nat>>)
    requires Closed(tasks) && Handle(tasks, id)
  {
    forall p, goal :: IsPath(tasks, id, p, goal) ==> p in order
  }

  ghost predicate ListsAllVia(tasks: Tasks, id: nat, n: nat, order: seq<seq<nat>>)
    requires Closed(tasks) && Handle(tasks, id)
  {
    forall p, goal :: IsPath(tasks, id, p, goal) && p != [] && p[0] < n ==> p in order
  }

  lemma ListsMore(tasks: Tasks, id: nat, edge: nat, n: nat, first: seq<seq<nat>>, last: seq<seq<nat>>,
                  order: seq<seq<nat>>)
    requires Closed(tasks) && Handle(tasks, id) && edge < |Deps(tasks, id)| && n == edge + 1
    requires ListsAllVia(tasks, id, edge, first) && ListsAll(tasks, Deps(tasks, id)[edge], last)
    requires order == first + Below(edge, last)
    ensures ListsAllVia(tasks, id, n, order)
  {
    forall p, goal | IsPath(tasks, id, p, goal) && p != [] && p[0] < n ensures p in order {
      if p[0] == edge {
        assert IsPath(tasks, Deps(tasks, id)[edge], p[1..], goal);
        BelowHas(edge, last, p);
      } else {
        assert p in first;
      }
    }
  }

  lemma BelowHas(edge: nat, order: seq<seq<nat>>, p: seq<nat>)
    requires p != [] && p[0] == edge && p[1..] in order
    ensures p in Below(edge, order)
  {
    var k :| 0 <= k < |order| && order[k] == p[1..];
    assert Below(edge, order)[k] == p;
  }

  /** Queueing more tasks changes nothing about executing an earlier one. */
  lemma {:induction false} LaterTasksDoNotMatter(tasks: Tasks, more: Tasks, id: nat)
    requires Closed(tasks) && Closed(tasks + more) && Handle(tasks, id)
    ensures Trace(tasks + more, id) == Trace(tasks, id)
    decreases id, |Deps(tasks, id)| + 1
  {
    assert Deps(tasks + more, id) == Deps(tasks, id);
    LaterDepsDoNotMatter(tasks, more, id, |Deps(tasks, id)|);
  }

  lemma {:induction false} LaterDepsDoNotMatter(tasks: Tasks, more: Tasks, id: nat, n: nat)
    requires Closed(tasks) && Closed(tasks + more) && Handle(tasks, id) && n <= |Deps(tasks, id)|
    requires Deps(tasks + more, id) == Deps(tasks, id)
    ensures TraceDeps(tasks + more, id, n) == TraceDeps(tasks, id, n)
    decreases id, n
  {
    if n > 0 {
      LaterDepsDoNotMatter(tasks, more, id, n - 1);
      LaterTasksDoNotMatter(tasks, more, Deps(tasks, id)[n - 1]);
    }
  }

  lemma TraceDepsMore(tasks: Tasks, id: nat, n: nat, start: seq<nat>)
    requires Closed(tasks) && Handle(tasks, id) && n < |Deps(tasks, id)|
    ensures start + TraceDeps(tasks, id, n) + Trace(tasks, Deps(tasks, id)[n]) == start + TraceDeps(tasks, id, n + 1)
  {
  }

  class Scheduler {
    var tasks: Tasks
    ghost var ran: seq<nat>

    constructor ()
      ensures Closed(tasks) && tasks == [] && ran == []
    {
      tasks, ran := [], [];
    }

    /** Queues a task that depends on handles given out before; answers its own handle. */
    method AddTask(dependencies: seq<nat>) returns (handle: nat)
      requires Closed(tasks) && forall i :: 0 <= i < |dependencies| ==> Handle(tasks, dependencies[i])
      modifies this`tasks
      ensures Closed(tasks) && tasks == old(tasks) + [dependencies]
      ensures Handle(tasks, handle) && !Handle(old(tasks), handle) && Deps(tasks, handle) == dependencies
    {
      tasks := tasks + [dependencies];
      handle := |tasks|;
    }

    /** Executes a task after its dependencies. */
    method ExecTask(taskId: nat)
      requires Closed(tasks) && Handle(tasks, taskId)
      modifies this`ran
      ensures ran == old(ran) + Trace(tasks, taskId)
      decreases taskId
    {
      var len := |tasks[taskId - 1]|;
      ghost var start := ran;
      for dep := 0 to len
        invariant ran == start + TraceDeps(tasks, taskId, dep)
      {
        var depTask := tasks[taskId - 1][dep];
        TraceDepsMore(tasks, taskId, dep, start);
        ExecTask(depTask);
      }
      ran := ran + [taskId];
    }
  }
}
