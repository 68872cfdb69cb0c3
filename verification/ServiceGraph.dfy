/**
  Init's dependency graph: the depth-first cycle check and Kahn's sort with levels.

  A graph is given by its dependency lists: `g[i]` holds the `target_idx` of every
  dependency of service `i`, duplicates included.
  */
module ServiceGraph {
  import opened Lists

  type Graph = seq<seq<nat>>

  ghost predicate WellFormed(g: Graph) {
    forall i, d :: 0 <= i < |g| && d in g[i] ==> d < |g|
  }

  /** A walk follows dependencies: each node depends on the next one. */
  ghost predicate Walk(g: Graph, p: seq<nat>) {
    && 0 < |p|
    && (forall i :: 0 <= i < |p| ==> p[i] < |g|)
    && (forall i :: 0 <= i < |p| - 1 ==> p[i + 1] in g[p[i]])
  }

  ghost predicate Cycle(g: Graph, p: seq<nat>) {
    Walk(g, p) && 1 < |p| && p[0] == p[|p| - 1]
  }

  ghost predicate Cyclic(g: Graph) {
    exists p :: Cycle(g, p)
  }

  // ---------------------------------------------------------------- counting

  lemma {:induction false} DistinctBound(s: seq<nat>, n: nat)
    requires Distinct(s) && forall x :: x in s ==> x < n
    ensures |s| <= n
    ensures |s| == n ==> forall x: nat :: x < n ==> x in s
    decreases n
  {
    hide Without, Distinct;
    assert s == [] || s[0] in s;
    if n == 0 {
    } else if n - 1 in s {
      WithoutFacts(s, n - 1, 0);
      DistinctBound(Without(s, n - 1), n - 1);
    } else {
      assert forall x :: x in s ==> x != n - 1;
      DistinctBound(s, n - 1);
    }
  }

  /** A walk longer than the graph repeats a node, and the part in between is a cycle. */
  lemma LongWalkIsCyclic(g: Graph, p: seq<nat>)
    requires Walk(g, p) && |p| > |g|
    ensures Cyclic(g)
  {
    if Distinct(p) {
      DistinctBound(p, |g|);
    } else {
      var i, j :| 0 <= i < j < |p| && p[i] == p[j];
      assert Cycle(g, p[i..j + 1]);
    }
  }

  ghost predicate DependsInto(g: Graph, x: nat, s: set<nat>) {
    x < |g| && exists y :: y in s && y in g[x]
  }

  lemma {:induction false} WalkFrom(g: Graph, start: nat, s: set<nat>, n: nat) returns (p: seq<nat>)
    requires start in s && forall x :: x in s ==> DependsInto(g, x, s)
    ensures |p| == n + 1 && Walk(g, p) && p[n] in s
  {
    if n == 0 {
      p := [start];
      assert DependsInto(g, start, s);
    } else {
      var q := WalkFrom(g, start, s, n - 1);
      assert DependsInto(g, q[n - 1], s);
      var y :| y in s && y in g[q[n - 1]];
      assert DependsInto(g, y, s);
      p := q + [y];
    }
  }

  /** If every node of a non-empty set depends on a node of the set, there is a cycle. */
  lemma StuckSetIsCyclic(g: Graph, s: set<nat>)
    requires s != {} && forall x :: x in s ==> DependsInto(g, x, s)
    ensures Cyclic(g)
  {
    var start :| start in s;
    var p := WalkFrom(g, start, s, |g|);
    LongWalkIsCyclic(g, p);
  }

  // -------------------------------------------------------- depth-first check

  ghost predicate DependsWithin(g: Graph, x: nat, s: seq<nat>) {
    x < |g| && forall d :: d in g[x] ==> d in s
  }

  /** A finishing order: every dependency of a node was finished before the node. */
  ghost predicate Finished(g: Graph, order: seq<nat>) {
    && Distinct(order)
    && (forall k :: 0 <= k < |order| ==> DependsWithin(g, order[k], order[..k]))
  }

  lemma {:induction false} WalkDescends(g: Graph, order: seq<nat>, p: seq<nat>, a: nat) returns (b: nat)
    requires Finished(g, order) && Walk(g, p) && a < |order| && order[a] == p[0]
    ensures b <= a && order[b] == p[|p| - 1] && (1 < |p| ==> b < a)
    decreases |p|
  {
    if |p| == 1 {
      b := a;
    } else {
      assert DependsWithin(g, order[a], order[..a]);
      assert p[1] in order[..a];
      var c :| 0 <= c < a && order[c] == p[1];
      var q := p[1..];
      assert Walk(g, q) by {
        assert forall i :: 0 <= i < |q| ==> q[i] == p[i + 1];
      }
      b := WalkDescends(g, order, q, c);
    }
  }

  lemma FinishedIsAcyclic(g: Graph, order: seq<nat>)
    requires Finished(g, order) && forall x: nat :: x < |g| ==> x in order
    ensures !Cyclic(g)
  {
    if p :| Cycle(g, p) {
      assert p[0] in order;
      var a :| 0 <= a < |order| && order[a] == p[0];
      var b := WalkDescends(g, order, p, a);
      assert false;
    }
  }

  /** The flags of a search in progress: `in_path` marks the current path and `visited` the
      finished nodes. */
  ghost predicate Searching(g: Graph, visited: seq<bool>, inPath: seq<bool>, path: seq<nat>, order: seq<nat>) {
    && WellFormed(g) && |visited| == |inPath| == |g|
    && Finished(g, order)
    && (forall x: nat :: x < |g| ==> (visited[x] <==> x in order))
    && (path == [] || Walk(g, path)) && Distinct(path)
    && (forall x: nat :: x < |g| ==> (inPath[x] <==> x in path))
    && (forall x :: x in path ==> x !in order)
  }

  lemma BackEdgeIsCycle(g: Graph, path: seq<nat>, idx: nat)
    requires Walk(g, path) && idx in path && idx in g[path[|path| - 1]]
    ensures Cyclic(g)
  {
    var a :| 0 <= a < |path| && path[a] == idx;
    assert Cycle(g, path[a..] + [idx]);
  }

  lemma PushNode(g: Graph, visited: seq<bool>, inPath: seq<bool>, path: seq<nat>, order: seq<nat>, idx: nat)
    requires Searching(g, visited, inPath, path, order)
    requires idx < |g| && !inPath[idx] && !visited[idx]
    requires path == [] || idx in g[path[|path| - 1]]
    ensures |path| < |g|
    ensures Searching(g, visited, inPath[idx := true], path + [idx], order)
  {
    var path' := path + [idx];
    assert Distinct(path');
    assert Walk(g, path');
    DistinctBound(path', |g|);
  }

  lemma FinishOne(g: Graph, order: seq<nat>, idx: nat)
    requires WellFormed(g) && Finished(g, order) && idx < |g| && idx !in order
    requires forall d :: d in g[idx] ==> d in order
    ensures Finished(g, order + [idx])
  {
    var order' := order + [idx];
    forall k | 0 <= k < |order'| ensures DependsWithin(g, order'[k], order'[..k]) {
      if k < |order| {
        assert order'[..k] == order[..k];
      } else {
        assert order'[..k] == order;
      }
    }
  }

  lemma InAppended(s: seq<nat>, idx: nat)
    ensures forall x :: x in s + [idx] <==> x in s || x == idx
  {
  }

  lemma ShorterWalk(g: Graph, path: seq<nat>, idx: nat)
    requires Walk(g, path + [idx]) && Distinct(path + [idx])
    ensures (path == [] || Walk(g, path)) && Distinct(path) && idx !in path
  {
    var path' := path + [idx];
    assert path'[|path|] == idx;
    forall i | 0 <= i < |path| ensures path[i] == path'[i] && path[i] != idx { }
  }

  lemma PopNode(g: Graph, visited: seq<bool>, inPath: seq<bool>, path: seq<nat>, order: seq<nat>, idx: nat)
    requires idx < |g| && Searching(g, visited, inPath, path + [idx], order)
    requires forall d :: d in g[idx] ==> d in order
    ensures Searching(g, visited[idx := true], inPath[idx := false], path, order + [idx])
  {
    hide Finished, Walk, Distinct;
    InAppended(path, idx);
    InAppended(order, idx);
    FinishOne(g, order, idx);
    ShorterWalk(g, path, idx);
  }

  // -------------------------------------------------------------- Kahn's sort

  /** The dependencies, with multiplicity, that are not yet processed. */
  function Remaining(deps: seq<nat>, done: seq<nat>): nat {
    if deps == [] then 0
    else Remaining(deps[..|deps| - 1], done) + if deps[|deps| - 1] in done then 0 else 1
  }

  /** How many dependencies point at `idx`. */
  function Hits(deps: seq<nat>, idx: nat): nat {
    if deps == [] then 0
    else Hits(deps[..|deps| - 1], idx) + if deps[|deps| - 1] == idx then 1 else 0
  }

  lemma {:induction false} RemainingStep(deps: seq<nat>, done: seq<nat>, idx: nat)
    requires idx !in done
    ensures Remaining(deps, done) == Remaining(deps, done + [idx]) + Hits(deps, idx)
  {
    if deps != [] {
      RemainingStep(deps[..|deps| - 1], done, idx);
    }
  }

  lemma {:induction false} RemainingZero(deps: seq<nat>, done: seq<nat>)
    ensures Remaining(deps, done) == 0 <==> forall d :: d in deps ==> d in done
  {
    if deps != [] {
      var rest, last := deps[..|deps| - 1], deps[|deps| - 1];
      assert deps == rest + [last];
      RemainingZero(rest, done);
    }
  }

  lemma {:induction false} RemainingNone(deps: seq<nat>)
    ensures Remaining(deps, []) == |deps|
  {
    if deps != [] {
      RemainingNone(deps[..|deps| - 1]);
    }
  }

  lemma {:induction false} HitsPrefix(deps: seq<nat>, idx: nat, k: nat)
    requires k <= |deps|
    ensures Hits(deps[..k], idx) <= Hits(deps, idx)
    decreases |deps|
  {
    if k < |deps| {
      assert deps[..|deps| - 1][..k] == deps[..k];
      HitsPrefix(deps[..|deps| - 1], idx, k);
    } else {
      assert deps[..k] == deps;
    }
  }

  lemma HitsNext(deps: seq<nat>, idx: nat, k: nat)
    requires k < |deps|
    ensures Hits(deps[..k + 1], idx) == Hits(deps[..k], idx) + if deps[k] == idx then 1 else 0
    ensures Hits(deps[..k + 1], idx) <= Hits(deps, idx)
  {
    assert deps[..k + 1][..k] == deps[..k];
    HitsPrefix(deps, idx, k + 1);
  }

  /** The level of `x` is one above the highest level among its dependencies, 0 without any. */
  ghost predicate LevelAt(g: Graph, level: seq<nat>, x: nat)
    requires WellFormed(g) && |level| == |g| && x < |g|
  {
    && (forall d :: d in g[x] ==> level[d] < level[x])
    && (level[x] == 0 || exists d :: d in g[x] && level[d] + 1 == level[x])
  }

  /** The in-degrees of a sort in progress. `front` nodes of the queue are processed; while the node
      after them is being processed, the degrees below `j` already take it into account. */
  ghost predicate Degrees(g: Graph, degree: seq<nat>, queue: seq<nat>, front: nat, j: nat) {
    && |degree| == |g| && front <= |queue| && (0 < j ==> front < |queue|)
    && (forall x: nat :: x < j && x < |g| ==> degree[x] == Remaining(g[x], queue[..front + 1]))
    && (forall x: nat :: j <= x < |g| ==> degree[x] == Remaining(g[x], queue[..front]))
    && (forall x: nat :: x < |g| ==> (degree[x] == 0 <==> x in queue))
  }

  ghost predicate Levels(g: Graph, level: seq<nat>, queue: seq<nat>) {
    && WellFormed(g) && |level| == |g|
    && (forall a :: 0 <= a < |queue| ==> queue[a] < |g| && LevelAt(g, level, queue[a]))
  }

  ghost predicate Queued(g: Graph, degree: seq<nat>, queue: seq<nat>, front: nat, level: seq<nat>, j: nat) {
    Degrees(g, degree, queue, front, j) && Finished(g, queue) && Levels(g, level, queue)
  }

  /** Levels along the queue: below `cur` up to `base`, exactly `cur` up to `mark`, then `cur + 1`. */
  ghost predicate Layered(queue: seq<nat>, level: seq<nat>, base: nat, mark: nat, cur: nat) {
    && base <= mark <= |queue|
    && (forall a :: 0 <= a < |queue| ==> queue[a] < |level|)
    && (forall a :: 0 <= a < base ==> level[queue[a]] < cur)
    && (forall a :: base <= a < mark ==> level[queue[a]] == cur)
    && (forall a :: mark <= a < |queue| ==> level[queue[a]] == cur + 1)
    && (forall a, b :: 0 <= a < b < |queue| ==> level[queue[a]] <= level[queue[b]])
    && (if base == 0 then cur == 0 else level[queue[base - 1]] == cur - 1)
  }

  /** Node `j` is not released by the node being processed. */
  lemma RelaxKeeps(g: Graph, degree: seq<nat>, queue: seq<nat>, front: nat, j: nat, d: nat)
    requires Degrees(g, degree, queue, front, j) && front < |queue| && j < |g|
    requires queue[front] !in queue[..front]
    requires degree[j] == d + Hits(g[j], queue[front])
    requires Hits(g[j], queue[front]) == 0 || d > 0
    ensures Degrees(g, degree[j := d], queue, front, j + 1)
  {
    hide Remaining, Hits;
    var done, idx := queue[..front], queue[front];
    assert done + [idx] == queue[..front + 1];
    RemainingStep(g[j], done, idx);
    var degree' := degree[j := d];
    forall x: nat | x < j + 1 ensures degree'[x] == Remaining(g[x], queue[..front + 1]) {
      assert x < j || x == j;
    }
  }

  /** The processed node was the last dependency `j` was waiting for: `j` is queued. */
  lemma RelaxReleases(g: Graph, degree: seq<nat>, queue: seq<nat>, front: nat, j: nat)
    requires Degrees(g, degree, queue, front, j) && front < |queue| && j < |g|
    requires queue[front] !in queue[..front]
    requires degree[j] == Hits(g[j], queue[front]) > 0
    ensures j !in queue && queue[front] in g[j] && DependsWithin(g, j, queue[..front + 1])
    ensures Degrees(g, degree[j := 0], queue + [j], front, j + 1)
  {
    hide Remaining, Hits;
    var done, idx, queue' := queue[..front], queue[front], queue + [j];
    assert done + [idx] == queue[..front + 1] == queue'[..front + 1] && done == queue'[..front];
    RemainingStep(g[j], done, idx);
    RemainingZero(g[j], done + [idx]);
    RemainingZero(g[j], done);
    assert DependsWithin(g, j, queue[..front + 1]);
    assert forall x :: x in queue' <==> x in queue || x == j;
    var degree' := degree[j := 0];
    forall x: nat | x < j + 1 ensures degree'[x] == Remaining(g[x], queue'[..front + 1]) {
      assert x < j || x == j;
    }
  }

  lemma QueueGrows(g: Graph, queue: seq<nat>, j: nat, n: nat)
    requires Finished(g, queue) && j !in queue && n <= |queue| && DependsWithin(g, j, queue[..n])
    ensures Finished(g, queue + [j])
  {
    var queue' := queue + [j];
    forall k | 0 <= k < |queue'| ensures DependsWithin(g, queue'[k], queue'[..k]) {
      assert queue'[..k] == queue[..k];
      if k == |queue| {
        assert queue[..k] == queue;
      }
    }
  }

  lemma LevelOfReleased(g: Graph, queue: seq<nat>, level: seq<nat>, j: nat, base: nat, front: nat, mark: nat, cur: nat)
    requires WellFormed(g) && |level| == |g| && j < |g| && j !in queue
    requires Layered(queue, level, base, mark, cur) && base <= front < mark
    requires queue[front] in g[j] && DependsWithin(g, j, queue[..front + 1])
    ensures LevelAt(g, level[j := cur + 1], j)
  {
    var level' := level[j := cur + 1];
    forall d | d in g[j] ensures level'[d] <= cur {
      var a :| 0 <= a < front + 1 && queue[a] == d;
      assert d in queue;
    }
    assert queue[front] in queue && level'[queue[front]] + 1 == level'[j];
  }

  lemma LayersAfterRelease(queue: seq<nat>, level: seq<nat>, j: nat, base: nat, mark: nat, cur: nat)
    requires Layered(queue, level, base, mark, cur) && j < |level| && j !in queue
    ensures Layered(queue + [j], level[j := cur + 1], base, mark, cur)
  {
    var queue' := queue + [j];
    assert forall a :: 0 <= a < |queue| ==> queue'[a] == queue[a] && queue[a] in queue;
  }

  lemma LevelUnaffected(g: Graph, level: seq<nat>, queue: seq<nat>, a: nat, j: nat, l: nat)
    requires Levels(g, level, queue) && Finished(g, queue) && j < |g| && j !in queue && a < |queue|
    ensures queue[a] < |g| && LevelAt(g, level[j := l], queue[a])
  {
    assert DependsWithin(g, queue[a], queue[..a]) && LevelAt(g, level, queue[a]);
    forall d | d in g[queue[a]] ensures d != j {
      assert d in queue[..a];
    }
  }

  lemma LevelsAfterRelease(g: Graph, queue: seq<nat>, level: seq<nat>, j: nat, base: nat, front: nat, mark: nat,
                           cur: nat)
    requires Levels(g, level, queue) && Finished(g, queue) && j < |g| && j !in queue
    requires Layered(queue, level, base, mark, cur) && base <= front < mark
    requires queue[front] in g[j] && DependsWithin(g, j, queue[..front + 1])
    ensures Levels(g, level[j := cur + 1], queue + [j])
  {
    hide LevelAt, Finished, Layered, DependsWithin;
    LevelOfReleased(g, queue, level, j, base, front, mark, cur);
    forall a | 0 <= a < |queue| ensures queue[a] < |g| && LevelAt(g, level[j := cur + 1], queue[a]) {
      LevelUnaffected(g, level, queue, a, j, cur + 1);
    }
  }

  lemma FrontOfQueue(g: Graph, queue: seq<nat>, level: seq<nat>, base: nat, front: nat, mark: nat, cur: nat)
    requires Finished(g, queue) && Layered(queue, level, base, mark, cur) && base <= front < mark
    ensures front < |queue| && queue[front] < |g| && queue[front] < |level| && level[queue[front]] == cur
    ensures queue[front] !in queue[..front]
  {
    assert DependsWithin(g, queue[front], queue[..front]);
  }

  lemma NodeDone(g: Graph, degree: seq<nat>, queue: seq<nat>, front: nat, level: seq<nat>)
    requires Queued(g, degree, queue, front, level, |g|) && front < |queue|
    ensures Queued(g, degree, queue, front + 1, level, 0)
  {
    hide Finished, Levels, Remaining;
  }

  lemma NextLayer(queue: seq<nat>, level: seq<nat>, base: nat, mark: nat, cur: nat)
    requires Layered(queue, level, base, mark, cur) && base < mark
    ensures Layered(queue, level, mark, |queue|, cur + 1)
  {
  }

  lemma EmptyQueueMeansDone(g: Graph, degree: seq<nat>, queue: seq<nat>, level: seq<nat>)
    requires Queued(g, degree, queue, |queue|, level, 0)
    ensures |queue| <= |g|
    ensures |queue| == |g| <==> !Cyclic(g)
    ensures |queue| == |g| ==> forall x: nat :: x < |g| ==> x in queue
  {
    QueueFits(g, degree, queue, |queue|, level, 0);
    if |queue| == |g| {
      DistinctBound(queue, |g|);
      FinishedIsAcyclic(g, queue);
    } else {
      var s := set x: nat | x < |g| && x !in queue;
      if s == {} {
        forall x: nat | x < |g| ensures x in queue {
          assert x !in s;
        }
        AllNodesQueued(queue, |g|);
      }
      forall x | x in s ensures DependsInto(g, x, s) {
        assert queue[..|queue|] == queue;
        RemainingZero(g[x], queue);
        var y :| y in g[x] && y !in queue;
        assert y in s;
      }
      StuckSetIsCyclic(g, s);
    }
  }

  lemma {:induction false} AllNodesQueued(queue: seq<nat>, n: nat)
    requires forall x: nat :: x < n ==> x in queue
    ensures n <= |queue|
    decreases n
  {
    if n > 0 {
      assert n - 1 in queue;
      var i :| 0 <= i < |queue| && queue[i] == n - 1;
      var r := queue[..i] + queue[i + 1..];
      forall x: nat | x < n - 1 ensures x in r {
        assert x in queue;
        var k :| 0 <= k < |queue| && queue[k] == x;
        assert r[if k < i then k else k - 1] == x;
      }
      AllNodesQueued(r, n - 1);
    }
  }

  // --------------------------------------------------------- what a sort means

  /** A topological order with levels: a permutation of the nodes, every dependency first. */
  ghost predicate Sorted(g: Graph, order: seq<nat>, level: seq<nat>, maxLevel: int) {
    && WellFormed(g) && |level| == |g| == |order|
    && Finished(g, order)
    && (forall x: nat :: x < |g| ==> x in order)
    && (forall x: nat :: x < |g| ==> LevelAt(g, level, x))
    && (forall i, j :: 0 <= i < j < |order| ==> level[order[i]] <= level[order[j]])
    && (forall x: nat :: x < |g| ==> level[x] <= maxLevel)
    && (if |g| == 0 then maxLevel == -1 else exists x: nat :: x < |g| && level[x] == maxLevel)
  }

  lemma QueueFits(g: Graph, degree: seq<nat>, queue: seq<nat>, front: nat, level: seq<nat>, j: nat)
    requires Queued(g, degree, queue, front, level, j)
    ensures |queue| <= |g|
  {
    DistinctBound(queue, |g|);
  }

  lemma SortIsComplete(g: Graph, degree: seq<nat>, queue: seq<nat>, level: seq<nat>, cur: nat)
    requires Queued(g, degree, queue, |queue|, level, 0) && |queue| == |g|
    requires forall x: nat :: x < |g| ==> x in queue
    requires Layered(queue, level, |queue|, |queue|, cur)
    ensures Sorted(g, queue, level, cur - 1)
  {
    hide LevelAt, DependsWithin, Finished;
    forall x: nat | x < |g| ensures LevelAt(g, level, x) && level[x] < cur {
      assert x in queue;
    }
  }

  lemma {:induction false} WalkFitsLevel(g: Graph, level: seq<nat>, p: seq<nat>)
    requires WellFormed(g) && |level| == |g| && (forall x: nat :: x < |g| ==> LevelAt(g, level, x))
    requires Walk(g, p)
    ensures |p| - 1 <= level[p[0]]
    decreases |p|
  {
    if 1 < |p| {
      var q := p[1..];
      assert forall i :: 0 <= i < |q| ==> q[i] == p[i + 1];
      WalkFitsLevel(g, level, q);
      assert LevelAt(g, level, p[0]);
    }
  }

  lemma {:induction false} WalkOfLevel(g: Graph, level: seq<nat>, x: nat) returns (p: seq<nat>)
    requires WellFormed(g) && |level| == |g| && (forall y: nat :: y < |g| ==> LevelAt(g, level, y))
    requires x < |g|
    ensures Walk(g, p) && p[0] == x && |p| - 1 == level[x]
    decreases level[x]
  {
    if level[x] == 0 {
      p := [x];
    } else {
      assert LevelAt(g, level, x);
      var d :| d in g[x] && level[d] + 1 == level[x];
      var q := WalkOfLevel(g, level, d);
      p := [x] + q;
    }
  }

  /** The level of a node is the length of the longest dependency path from it. */
  lemma LevelIsLongestPath(g: Graph, order: seq<nat>, level: seq<nat>, maxLevel: int, x: nat)
    requires Sorted(g, order, level, maxLevel) && x < |g|
    ensures exists p :: Walk(g, p) && p[0] == x && |p| - 1 == level[x]
    ensures forall p :: Walk(g, p) && p[0] == x ==> |p| - 1 <= level[x]
  {
    var p := WalkOfLevel(g, level, x);
    forall p | Walk(g, p) && p[0] == x ensures |p| - 1 <= level[x] {
      WalkFitsLevel(g, level, p);
    }
  }

  const SVC_MAX_SERVICES := 24

  /** The graph part of `svc_manager`. */
  class DependencyGraph {
    const deps: Graph
    var visited: seq<bool>
    var inPath: seq<bool>
    var topoLevel: seq<nat>
    var topoOrder: seq<nat>
    var maxTopoLevel: int

    constructor (g: Graph)
      requires WellFormed(g)
      ensures deps == g && |topoLevel| == |g|
    {
      deps := g;
      visited, inPath := seq(|g|, _ => false), seq(|g|, _ => false);
      topoLevel, topoOrder, maxTopoLevel := seq(|g|, _ => 0), [], 0;
    }

    method DfsCycleCheck(idx: nat, path: array<nat>, pathLen: nat, ghost order: seq<nat>)
      returns (found: bool, ghost order': seq<nat>)
      requires pathLen <= path.Length && |deps| <= path.Length && idx < |deps|
      requires Searching(deps, visited, inPath, path[..pathLen], order)
      requires 0 < pathLen ==> idx in deps[path[pathLen - 1]]
      modifies this`visited, this`inPath, path
      ensures found ==> Cyclic(deps)
      ensures !found ==> Searching(deps, visited, inPath, path[..pathLen], order')
      ensures !found ==> path[..pathLen] == old(path[..pathLen]) && order <= order' && idx in order'
      decreases |deps| - pathLen
    {
      order' := order;
      ghost var before := path[..pathLen];
      if inPath[idx] {
        BackEdgeIsCycle(deps, before, idx);
        return true, order';
      }
      if visited[idx] {
        return false, order';
      }
      PushNode(deps, visited, inPath, before, order, idx);
      inPath := inPath[idx := true];
      path[pathLen] := idx;
      assert path[..pathLen + 1] == before + [idx];
      for i := 0 to |deps[idx]|
        invariant Searching(deps, visited, inPath, before + [idx], order')
        invariant path[..pathLen + 1] == before + [idx]
        invariant order <= order'
        invariant forall k :: 0 <= k < i ==> deps[idx][k] in order'
      {
        var target := deps[idx][i];
        assert target in deps[idx];
        found, order' := DfsCycleCheck(target, path, pathLen + 1, order');
        if found {
          return true, order';
        }
      }
      PopNode(deps, visited, inPath, before, order', idx);
      assert path[..pathLen] == path[..pathLen + 1][..pathLen];
      inPath := inPath[idx := false];
      visited := visited[idx := true];
      order' := order' + [idx];
      return false, order';
    }

    /** Answers exactly whether the graph has a cycle. */
    method DetectCycles() returns (cyclic: bool)
      requires WellFormed(deps) && |deps| <= SVC_MAX_SERVICES
      modifies this`visited, this`inPath
      ensures cyclic <==> Cyclic(deps)
    {
      var path := new nat[SVC_MAX_SERVICES];
      visited := seq(|deps|, _ => false);
      inPath := seq(|deps|, _ => false);
      ghost var order: seq<nat> := [];
      for i := 0 to |deps|
        invariant Searching(deps, visited, inPath, path[..0], order)
        invariant forall x: nat :: x < i ==> x in order
      {
        if !visited[i] {
          ghost var order' := order;
          cyclic, order := DfsCycleCheck(i, path, 0, order');
          if cyclic {
            return;
          }
          assert forall x :: x in order' ==> x in order;
        }
      }
      FinishedIsAcyclic(deps, order);
      return false;
    }

    /** One dependant `j` of the node being processed: the innermost loop of the sort. */
    method Relax(idx: nat, j: nat, degree: seq<nat>, queue: seq<nat>, ghost base: nat, ghost front: nat,
                 ghost mark: nat, ghost cur: nat)
      returns (degree': seq<nat>, queue': seq<nat>)
      requires Queued(deps, degree, queue, front, topoLevel, j) && j < |deps|
      requires Layered(queue, topoLevel, base, mark, cur) && base <= front < mark && queue[front] == idx
      modifies this`topoLevel
      ensures Queued(deps, degree', queue', front, topoLevel, j + 1)
      ensures Layered(queue', topoLevel, base, mark, cur) && queue <= queue'
    {
      hide Finished, LevelAt, DependsWithin, Layered, Remaining;
      FrontOfQueue(deps, queue, topoLevel, base, front, mark, cur);
      degree', queue' := degree, queue;
      ghost var d0, level0 := degree[j], topoLevel;
      assert d0 >= Hits(deps[j], idx) by {
        RemainingStep(deps[j], queue[..front], idx);
      }
      assert deps[j][..0] == [];
      for k := 0 to |deps[j]|
        invariant |degree'| == |degree| && degree' == degree[j := degree'[j]]
        invariant degree'[j] + Hits(deps[j][..k], idx) == d0
        invariant if degree'[j] == 0 && 0 < d0
                  then queue' == queue + [j] && topoLevel == level0[j := cur + 1]
                  else queue' == queue && topoLevel == level0
      {
        HitsNext(deps[j], idx, k);
        if deps[j][k] == idx {
          degree' := degree'[j := degree'[j] - 1];
          if degree'[j] == 0 {
            queue' := queue' + [j];
            topoLevel := topoLevel[j := topoLevel[idx] + 1];
          }
        }
      }
      assert deps[j][..|deps[j]|] == deps[j];
      if 0 < d0 && degree'[j] == 0 {
        RelaxReleases(deps, degree, queue, front, j);
        QueueGrows(deps, queue, j, front + 1);
        LevelsAfterRelease(deps, queue, level0, j, base, front, mark, cur);
        LayersAfterRelease(queue, level0, j, base, mark, cur);
      } else {
        RelaxKeeps(deps, degree, queue, front, j, degree'[j]);
      }
    }

    /** The nodes without dependencies start the queue at level 0. */
    method InitialQueue() returns (degree: seq<nat>, queue: seq<nat>)
      requires WellFormed(deps) && |topoLevel| == |deps|
      modifies this`topoLevel
      ensures Queued(deps, degree, queue, 0, topoLevel, 0)
      ensures Layered(queue, topoLevel, 0, |queue|, 0) && |queue| <= |deps|
    {
      degree := seq(|deps|, i requires 0 <= i < |deps| => |deps[i]|);
      queue := [];
      for i := 0 to |deps|
        invariant |topoLevel| == |deps| && Distinct(queue)
        invariant forall x: nat :: x in queue <==> x < i && deps[x] == []
        invariant forall x: nat :: x in queue ==> topoLevel[x] == 0
      {
        if degree[i] == 0 {
          queue := queue + [i];
          topoLevel := topoLevel[i := 0];
        }
      }
      forall x: nat | x < |deps| ensures degree[x] == Remaining(deps[x], queue[..0]) {
        RemainingNone(deps[x]);
      }
      assert forall a :: 0 <= a < |queue| ==> queue[a] in queue;
      DistinctBound(queue, |deps|);
    }

    /** Succeeds exactly on acyclic graphs, and then leaves a topological order with levels. */
    method TopologicalSort() returns (ok: bool)
      requires WellFormed(deps) && |topoLevel| == |deps|
      modifies this`topoLevel, this`topoOrder, this`maxTopoLevel
      ensures ok <==> !Cyclic(deps)
      ensures ok ==> Sorted(deps, topoOrder, topoLevel, maxTopoLevel)
    {
      hide *;
      topoOrder := [];
      var degree, queue := InitialQueue();
      var front, level := 0, 0;
      while front < |queue|
        invariant Queued(deps, degree, queue, front, topoLevel, 0)
        invariant Layered(queue, topoLevel, front, |queue|, level)
        invariant front <= |queue| <= |deps| && topoOrder == queue[..front]
        decreases |deps| - front
      {
        var mark := |queue|;
        ghost var base := front;
        while front < mark
          invariant base <= front <= mark <= |queue| <= |deps|
          invariant Queued(deps, degree, queue, front, topoLevel, 0)
          invariant Layered(queue, topoLevel, base, mark, level)
          invariant topoOrder == queue[..front]
        {
          var idx := queue[front];
          topoOrder := topoOrder + [idx];
          for j := 0 to |deps|
            invariant front < mark <= |queue| <= |deps| && queue[front] == idx
            invariant Queued(deps, degree, queue, front, topoLevel, j)
            invariant Layered(queue, topoLevel, base, mark, level)
            invariant topoOrder == queue[..front + 1]
          {
            degree, queue := Relax(idx, j, degree, queue, base, front, mark, level);
            QueueFits(deps, degree, queue, front, topoLevel, j + 1);
          }
          NodeDone(deps, degree, queue, front, topoLevel);
          front := front + 1;
        }
        NextLayer(queue, topoLevel, base, mark, level);
        level := level + 1;
      }
      EmptyQueueMeansDone(deps, degree, queue, topoLevel);
      assert queue[..|queue|] == queue;
      if |topoOrder| != |deps| {
        return false;
      }
      maxTopoLevel := level - 1;
      SortIsComplete(deps, degree, queue, topoLevel, level);
      return true;
    }
  }
}
