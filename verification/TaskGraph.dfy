/** The dependency-cycle check of the documentation gate: Kahn's algorithm over the task graph. */
module TaskGraph {

  datatype Id = Id(name: string)

  datatype Task = Task(id: Id, dependencies: seq<Id>)

  /** One dependency occurrence between known tasks; a repeated dependency gives repeated edges. */
  datatype Edge = Edge(from: Id, to: Id)

  function Ids(tasks: seq<Task>): set<Id> {
    set t | t in tasks :: t.id
  }

  // ---------------------------------------------------------------- cycles

  predicate DependsOn(tasks: seq<Task>, task: Id, dependency: Id) {
    dependency in Ids(tasks) && exists i :: 0 <= i < |tasks| && tasks[i].id == task && dependency in tasks[i].dependencies
  }

  /** A walk along the dependency relation: each task depends on the next one. */
  predicate IsWalk(tasks: seq<Task>, walk: seq<Id>) {
    forall i :: 0 <= i < |walk| - 1 ==> DependsOn(tasks, walk[i], walk[i + 1])
  }

  ghost predicate IsCycle(tasks: seq<Task>, walk: seq<Id>) {
    |walk| >= 2 && walk[0] == walk[|walk| - 1] && IsWalk(tasks, walk)
  }

  ghost predicate HasCycle(tasks: seq<Task>) {
    exists walk :: IsCycle(tasks, walk)
  }

  // ---------------------------------------------------------------- the edge list

  function EdgesTo(ids: set<Id>, task: Id, dependencies: seq<Id>, n: nat): (edges: seq<Edge>)
    requires n <= |dependencies|
    ensures forall e :: e in edges <==> e.to == task && e.from in dependencies[..n] && e.from in ids
  {
    if n == 0 then []
    else
      assert dependencies[..n] == dependencies[..n - 1] + [dependencies[n - 1]];
      EdgesTo(ids, task, dependencies, n - 1)
      + if dependencies[n - 1] in ids then [Edge(dependencies[n - 1], task)] else []
  }

  /** The edges that the first `n` tasks contribute. */
  function Edges(ids: set<Id>, tasks: seq<Task>, n: nat): seq<Edge>
    requires n <= |tasks|
  {
    if n == 0 then []
    else Edges(ids, tasks, n - 1) + EdgesTo(ids, tasks[n - 1].id, tasks[n - 1].dependencies, |tasks[n - 1].dependencies|)
  }

  lemma {:induction false} EdgesAreDependencies(ids: set<Id>, tasks: seq<Task>, n: nat, e: Edge)
    requires n <= |tasks|
    ensures e in Edges(ids, tasks, n)
            <==> e.from in ids && exists i :: 0 <= i < n && tasks[i].id == e.to && e.from in tasks[i].dependencies
  {
    if n > 0 {
      EdgesAreDependencies(ids, tasks, n - 1, e);
      var t := tasks[n - 1];
      assert t.dependencies[..|t.dependencies|] == t.dependencies;
    }
  }

  /** Edges into `task` that come from outside `done`. */
  function Waiting(edges: seq<Edge>, done: set<Id>, task: Id): nat {
    if edges == [] then 0
    else
      var n := |edges| - 1;
      Waiting(edges[..n], done, task) + if edges[n].to == task && edges[n].from !in done then 1 else 0
  }

  lemma {:induction false} WaitingZero(edges: seq<Edge>, done: set<Id>, task: Id)
    ensures Waiting(edges, done, task) == 0 <==> forall e :: e in edges && e.to == task ==> e.from in done
  {
    if edges != [] {
      var n := |edges| - 1;
      WaitingZero(edges[..n], done, task);
      assert edges == edges[..n] + [edges[n]];
      assert edges[n] in edges;
    }
  }

  /** The targets of the edges leaving `task`, with repetitions. */
  function Targets(edges: seq<Edge>, task: Id): seq<Id> {
    if edges == [] then []
    else
      var n := |edges| - 1;
      Targets(edges[..n], task) + if edges[n].from == task then [edges[n].to] else []
  }

  function Count(s: seq<Id>, id: Id): nat {
    multiset(s)[id]
  }

  /** Finishing one more task releases each dependent as often as it is listed. */
  lemma {:induction false} FinishingReleases(edges: seq<Edge>, done: set<Id>, node: Id, task: Id)
    requires node !in done
    ensures Waiting(edges, done, task) == Waiting(edges, done + {node}, task) + Count(Targets(edges, node), task)
  {
    if edges != [] {
      var n := |edges| - 1;
      FinishingReleases(edges[..n], done, node, task);
    }
  }

  lemma {:induction false} TargetsAreEdges(edges: seq<Edge>, node: Id, task: Id)
    ensures task in Targets(edges, node) <==> Edge(node, task) in edges
  {
    if edges != [] {
      var n := |edges| - 1;
      TargetsAreEdges(edges[..n], node, task);
      assert edges == edges[..n] + [edges[n]];
    }
  }

  lemma {:induction false} SnocWaiting(edges: seq<Edge>, e: Edge, done: set<Id>, task: Id)
    ensures Waiting(edges + [e], done, task)
            == Waiting(edges, done, task) + if e.to == task && e.from !in done then 1 else 0
    ensures Targets(edges + [e], task) == Targets(edges, task) + if e.from == task then [e.to] else []
  {
    assert (edges + [e])[..|edges|] == edges;
  }

  // ---------------------------------------------------------------- building the two tables

  ghost predicate Tables(ids: set<Id>, edges: seq<Edge>, indegree: map<Id, nat>, outgoing: map<Id, seq<Id>>) {
    && indegree.Keys == ids && outgoing.Keys == ids
    && (forall v :: v in ids ==> indegree[v] == Waiting(edges, {}, v) && outgoing[v] == Targets(edges, v))
  }

  lemma {:induction false} AddEdge(ids: set<Id>, edges: seq<Edge>, indegree: map<Id, nat>, outgoing: map<Id, seq<Id>>, e: Edge)
    requires Tables(ids, edges, indegree, outgoing) && e.from in ids && e.to in ids
    ensures indegree.Keys == ids == outgoing.Keys
    ensures Tables(ids, edges + [e], indegree[e.to := indegree[e.to] + 1], outgoing[e.from := outgoing[e.from] + [e.to]])
  {
    hide Waiting, Targets;
    forall v | v in ids
      ensures indegree[e.to := indegree[e.to] + 1][v] == Waiting(edges + [e], {}, v)
      ensures outgoing[e.from := outgoing[e.from] + [e.to]][v] == Targets(edges + [e], v)
    {
      SnocWaiting(edges, e, {}, v);
    }
  }

  method BuildTables(tasks: seq<Task>) returns (indegree: map<Id, nat>, outgoing: map<Id, seq<Id>>)
    ensures Tables(Ids(tasks), Edges(Ids(tasks), tasks, |tasks|), indegree, outgoing)
  {
    var ids := Ids(tasks);
    indegree, outgoing := NewTables(ids);
    assert Tables(ids, Edges(ids, tasks, 0), indegree, outgoing);
    hide *;
    var i := 0;
    while i < |tasks|
      invariant i <= |tasks|
      invariant Tables(ids, Edges(ids, tasks, i), indegree, outgoing)
    {
      KnownTask(tasks, i);
      indegree, outgoing := AddTask(ids, Edges(ids, tasks, i), tasks[i], indegree, outgoing);
      NextTask(ids, tasks, i);
      i := i + 1;
    }
  }

  /** Enters one task's known dependencies; unknown ones are only reported. */
  method AddTask(ids: set<Id>, ghost before: seq<Edge>, t: Task, indegree0: map<Id, nat>, outgoing0: map<Id, seq<Id>>)
      returns (indegree: map<Id, nat>, outgoing: map<Id, seq<Id>>)
    requires Tables(ids, before, indegree0, outgoing0) && t.id in ids
    ensures Tables(ids, before + EdgesTo(ids, t.id, t.dependencies, |t.dependencies|), indegree, outgoing)
  {
    indegree, outgoing := indegree0, outgoing0;
    NoEdges(ids, before, t);
    hide Tables, EdgesTo;
    var j := 0;
    while j < |t.dependencies|
      invariant j <= |t.dependencies|
      invariant Tables(ids, before + EdgesTo(ids, t.id, t.dependencies, j), indegree, outgoing)
    {
      var dep := t.dependencies[j];
      NextEdge(ids, before, t, j);
      if dep in ids {
        AddEdge(ids, before + EdgesTo(ids, t.id, t.dependencies, j), indegree, outgoing, Edge(dep, t.id));
        outgoing := outgoing[dep := outgoing[dep] + [t.id]];
        indegree := indegree[t.id := indegree[t.id] + 1];
      }
      j := j + 1;
    }
  }

  lemma {:induction false} KnownTask(tasks: seq<Task>, i: nat)
    requires i < |tasks|
    ensures tasks[i].id in Ids(tasks)
  {
  }

  method NewTables(ids: set<Id>) returns (indegree: map<Id, nat>, outgoing: map<Id, seq<Id>>)
    ensures Tables(ids, [], indegree, outgoing)
  {
    indegree := map id | id in ids :: 0;
    outgoing := map id | id in ids :: [];
  }

  lemma {:induction false} NoEdges(ids: set<Id>, before: seq<Edge>, t: Task)
    ensures before + EdgesTo(ids, t.id, t.dependencies, 0) == before
  {
  }

  lemma {:induction false} NextEdge(ids: set<Id>, before: seq<Edge>, t: Task, j: nat)
    requires j < |t.dependencies|
    ensures var edges := before + EdgesTo(ids, t.id, t.dependencies, j);
            before + EdgesTo(ids, t.id, t.dependencies, j + 1)
            == if t.dependencies[j] in ids then edges + [Edge(t.dependencies[j], t.id)] else edges
  {
  }

  lemma {:induction false} NextTask(ids: set<Id>, tasks: seq<Task>, i: nat)
    requires i < |tasks|
    ensures Edges(ids, tasks, i + 1)
            == Edges(ids, tasks, i) + EdgesTo(ids, tasks[i].id, tasks[i].dependencies, |tasks[i].dependencies|)
  {
  }

  // ---------------------------------------------------------------- acyclic

  /** Every finished task has only finished dependencies, each finished before it. */
  ghost predicate Ranked(edges: seq<Edge>, rank: map<Id, nat>) {
    forall e :: e in edges && e.to in rank ==> e.from in rank && rank[e.from] < rank[e.to]
  }

  lemma {:induction false} RankFallsAlongWalk(tasks: seq<Task>, rank: map<Id, nat>, walk: seq<Id>, k: nat)
    requires Ranked(Edges(Ids(tasks), tasks, |tasks|), rank) && IsWalk(tasks, walk)
    requires 0 < k < |walk| && walk[0] in rank
    ensures walk[k] in rank && rank[walk[k]] < rank[walk[0]]
  {
    if k > 1 {
      RankFallsAlongWalk(tasks, rank, walk, k - 1);
    }
    assert DependsOn(tasks, walk[k - 1], walk[k - 1 + 1]);
    EdgesAreDependencies(Ids(tasks), tasks, |tasks|, Edge(walk[k], walk[k - 1]));
    assert Edge(walk[k], walk[k - 1]) in Edges(Ids(tasks), tasks, |tasks|);
  }

  lemma {:induction false} AllRankedMeansAcyclic(tasks: seq<Task>, rank: map<Id, nat>)
    requires Ranked(Edges(Ids(tasks), tasks, |tasks|), rank) && rank.Keys == Ids(tasks)
    ensures !HasCycle(tasks)
  {
    forall walk | IsCycle(tasks, walk)
      ensures false
    {
      assert DependsOn(tasks, walk[0], walk[0 + 1]);
      RankFallsAlongWalk(tasks, rank, walk, |walk| - 1);
    }
  }

  // ---------------------------------------------------------------- cyclic

  /** Every unfinished task waits for an unfinished one. */
  ghost predicate Stuck(tasks: seq<Task>, rest: set<Id>) {
    forall v :: v in rest ==> exists u :: u in rest && DependsOn(tasks, v, u)
  }

  lemma {:induction false} StuckWalk(tasks: seq<Task>, rest: set<Id>, length: nat) returns (walk: seq<Id>)
    requires Stuck(tasks, rest) && rest != {}
    ensures |walk| == length + 1 && IsWalk(tasks, walk) && forall i :: 0 <= i < |walk| ==> walk[i] in rest
  {
    hide DependsOn, Stuck;
    if length == 0 {
      var v :| v in rest;
      walk := [v];
    } else {
      hide IsWalk;
      var shorter := StuckWalk(tasks, rest, length - 1);
      var u := StuckStep(tasks, rest, shorter[length - 1]);
      walk := shorter + [u];
      LengthenWalk(tasks, shorter, u);
    }
  }

  lemma {:induction false} StuckStep(tasks: seq<Task>, rest: set<Id>, v: Id) returns (u: Id)
    requires Stuck(tasks, rest) && v in rest
    ensures u in rest && DependsOn(tasks, v, u)
  {
    hide DependsOn;
    u :| u in rest && DependsOn(tasks, v, u);
  }

  lemma {:induction false} LengthenWalk(tasks: seq<Task>, walk: seq<Id>, u: Id)
    requires IsWalk(tasks, walk) && (walk != [] ==> DependsOn(tasks, walk[|walk| - 1], u))
    ensures IsWalk(tasks, walk + [u])
  {
    hide DependsOn;
    forall i | 0 <= i < |walk|
      ensures DependsOn(tasks, (walk + [u])[i], (walk + [u])[i + 1])
    {
      if i < |walk| - 1 {
        assert DependsOn(tasks, walk[i], walk[i + 1]);
      }
    }
  }

  lemma {:induction false} PartOfWalk(tasks: seq<Task>, walk: seq<Id>, i: nat, j: nat)
    requires IsWalk(tasks, walk) && i <= j <= |walk|
    ensures IsWalk(tasks, walk[i..j])
  {
    hide DependsOn;
    forall k | 0 <= k < j - i - 1
      ensures DependsOn(tasks, walk[i..j][k], walk[i..j][k + 1])
    {
      assert DependsOn(tasks, walk[i + k], walk[i + k + 1]);
    }
  }

  lemma {:induction false} Pigeonhole(s: seq<Id>, pool: set<Id>) returns (i: nat, j: nat)
    requires |s| > |pool| && forall k :: 0 <= k < |s| ==> s[k] in pool
    ensures i < j < |s| && s[i] == s[j]
    decreases |s|
  {
    var n := |s| - 1;
    if k :| 0 <= k < n && s[k] == s[n] {
      return k, n;
    }
    i, j := Pigeonhole(s[..n], pool - {s[n]});
  }

  lemma {:induction false} StuckMeansCyclic(tasks: seq<Task>, rest: set<Id>)
    requires Stuck(tasks, rest) && rest != {}
    ensures HasCycle(tasks)
  {
    hide DependsOn, Stuck, IsWalk;
    var walk := StuckWalk(tasks, rest, |rest|);
    var i, j := Pigeonhole(walk, rest);
    PartOfWalk(tasks, walk, i, j + 1);
    assert IsCycle(tasks, walk[i..j + 1]);
  }

  // ---------------------------------------------------------------- the queue

  predicate Distinct(s: seq<Id>) {
    forall i, j :: 0 <= i < j < |s| ==> s[i] != s[j]
  }

  /** The table counts what each task still waits for, and the queue holds the unfinished tasks that wait
      for nothing, once each. */
  ghost predicate Progress(ids: set<Id>, edges: seq<Edge>, rank: map<Id, nat>, indegree: map<Id, nat>, queue: seq<Id>) {
    && rank.Keys <= ids && indegree.Keys == ids && Ranked(edges, rank)
    && (forall v :: v in ids ==> indegree[v] == Waiting(edges, rank.Keys, v))
    && Distinct(queue)
    && (forall v :: v in queue <==> v in ids && v !in rank && indegree[v] == 0)
    && (forall v :: v in rank ==> rank[v] < |rank|)
  }

  /** The state inside the release loop: `node` is finished, and `rest` of its dependents are not yet
      counted down. */
  ghost predicate Releasing(ids: set<Id>, edges: seq<Edge>, rank: map<Id, nat>, rest: seq<Id>, indegree: map<Id, nat>, queue: seq<Id>) {
    && rank.Keys <= ids && indegree.Keys == ids && Ranked(edges, rank)
    && (forall v :: v in ids ==> indegree[v] == Waiting(edges, rank.Keys, v) + Count(rest, v))
    && (forall v :: v in rest ==> v in ids && v !in rank)
    && Distinct(queue)
    && (forall v :: v in queue <==> v in ids && v !in rank && indegree[v] == 0)
    && (forall v :: v in rank ==> rank[v] < |rank|)
  }

  lemma {:induction false} FinishNode(ids: set<Id>, edges: seq<Edge>, rank: map<Id, nat>, indegree: map<Id, nat>, queue: seq<Id>, outgoing: seq<Id>)
    requires Progress(ids, edges, rank, indegree, queue) && queue != [] && outgoing == Targets(edges, queue[0])
    requires forall e :: e in edges ==> e.to in ids
    ensures Releasing(ids, edges, rank[queue[0] := |rank|], outgoing, indegree, queue[1..])
  {
    hide Waiting, Targets, Distinct, Count, Ranked;
    var node := queue[0];
    var after := rank[node := |rank|];
    assert node in queue;
    assert after.Keys == rank.Keys + {node};
    forall v | v in ids
      ensures indegree[v] == Waiting(edges, after.Keys, v) + Count(outgoing, v)
    {
      FinishingReleases(edges, rank.Keys, node, v);
    }
    RankNode(edges, rank, node);
    DropFirst(queue);
  }

  /** A task that waits for nothing can be ranked last, and none of its dependents is ranked yet. */
  lemma {:induction false} RankNode(edges: seq<Edge>, rank: map<Id, nat>, node: Id)
    requires Ranked(edges, rank) && Waiting(edges, rank.Keys, node) == 0 && node !in rank
    requires forall v :: v in rank ==> rank[v] < |rank|
    ensures Ranked(edges, rank[node := |rank|])
    ensures forall v :: v in Targets(edges, node) ==> Edge(node, v) in edges && v !in rank && v != node
  {
    hide Waiting, Targets;
    WaitingZero(edges, rank.Keys, node);
    forall v | v in Targets(edges, node)
      ensures Edge(node, v) in edges && v !in rank && v != node
    {
      TargetsAreEdges(edges, node, v);
    }
  }

  lemma {:induction false} DropFirst(queue: seq<Id>)
    requires queue != [] && Distinct(queue)
    ensures Distinct(queue[1..]) && forall v :: v in queue[1..] <==> v in queue && v != queue[0]
  {
    assert queue == [queue[0]] + queue[1..];
  }

  lemma {:induction false} ReleaseOne(ids: set<Id>, edges: seq<Edge>, rank: map<Id, nat>, rest: seq<Id>, indegree: map<Id, nat>, queue: seq<Id>)
    requires Releasing(ids, edges, rank, rest, indegree, queue) && rest != []
    ensures rest[0] in indegree && indegree[rest[0]] > 0
    ensures var fewer := indegree[rest[0]] - 1;
            Releasing(ids, edges, rank, rest[1..], indegree[rest[0] := fewer], if fewer == 0 then queue + [rest[0]] else queue)
  {
    hide Waiting, Ranked, Distinct, Count;
    var child := rest[0];
    CountRest(rest);
    var fewer := indegree[child] - 1;
    if fewer == 0 {
      AppendNew(queue, child);
    }
  }

  lemma {:induction false} CountRest(rest: seq<Id>)
    requires rest != []
    ensures forall v :: Count(rest, v) == Count(rest[1..], v) + if v == rest[0] then 1 else 0
    ensures forall v :: v in rest[1..] ==> v in rest
    ensures rest[0] in rest
  {
    assert rest == [rest[0]] + rest[1..];
  }

  lemma {:induction false} AppendNew(queue: seq<Id>, v: Id)
    requires Distinct(queue) && v !in queue
    ensures Distinct(queue + [v])
    ensures forall u :: u in queue + [v] <==> u in queue || u == v
  {
  }

  /** Counts down every dependent of a finished task, queueing those that no longer wait. */
  method Release(ghost ids: set<Id>, ghost edges: seq<Edge>, ghost rank: map<Id, nat>, children: seq<Id>,
                 indegree0: map<Id, nat>, queue0: seq<Id>)
      returns (indegree: map<Id, nat>, queue: seq<Id>)
    requires Releasing(ids, edges, rank, children, indegree0, queue0)
    ensures Releasing(ids, edges, rank, [], indegree, queue)
  {
    hide Releasing;
    indegree, queue := indegree0, queue0;
    var k := 0;
    assert children[0..] == children;
    while k < |children|
      invariant k <= |children|
      invariant Releasing(ids, edges, rank, children[k..], indegree, queue)
    {
      var child := children[k];
      ReleaseOne(ids, edges, rank, children[k..], indegree, queue);
      assert children[k..][1..] == children[k + 1..];
      indegree := indegree[child := indegree[child] - 1];
      if indegree[child] == 0 {
        queue := queue + [child];
      }
      k := k + 1;
    }
    assert children[|children|..] == [];
  }

  /** Reports a cycle exactly when the dependency relation between known tasks has one. `taken` lists the
      tasks as they leave the queue: none leaves twice, which is why the loop ends, and all of them leave
      when there is no cycle. */
  method CheckTaskGraph(tasks: seq<Task>) returns (cycle: bool, ghost taken: seq<Id>)
    ensures cycle <==> HasCycle(tasks)
    ensures Distinct(taken) && (forall v :: v in taken ==> v in Ids(tasks))
    ensures cycle <==> exists v :: v in Ids(tasks) && v !in taken
  {
    var ids := Ids(tasks);
    ghost var edges := Edges(ids, tasks, |tasks|);
    var indegree, outgoing := BuildTables(tasks);
    var queue := ZeroKeys(indegree);
    var visited := 0;
    ghost var rank: map<Id, nat> := map[];
    KnownTargets(tasks);
    Start(ids, edges, indegree, outgoing, queue);
    taken := [];
    hide *;
    assert Distinct(taken) by { NoneTaken(); }
    while queue != []
      invariant Progress(ids, edges, rank, indegree, queue)
      invariant visited == |rank.Keys|
      invariant Distinct(taken) && forall v :: v in taken <==> v in rank
      decreases |ids| - |rank.Keys|
    {
      var node := queue[0];
      HeadIsKnown(ids, edges, rank, indegree, queue);
      FinishNode(ids, edges, rank, indegree, queue, outgoing[node]);
      queue := queue[1..];
      visited := visited + 1;
      AppendNew(taken, node);
      taken := taken + [node];
      rank := rank[node := |rank|];
      indegree, queue := Release(ids, edges, rank, outgoing[node], indegree, queue);
      ReleasedAll(ids, edges, rank, indegree, queue);
    }
    cycle := visited != |ids|;
    Verdict(tasks, rank, indegree);
    RankedAreKnown(ids, edges, rank, indegree);
  }

  lemma {:induction false} NoneTaken()
    ensures Distinct([])
  {
  }

  /** The ranked tasks are known ones, and all of them when there are as many. */
  lemma {:induction false} RankedAreKnown(ids: set<Id>, edges: seq<Edge>, rank: map<Id, nat>, indegree: map<Id, nat>)
    requires Progress(ids, edges, rank, indegree, [])
    ensures rank.Keys <= ids
    ensures |rank.Keys| != |ids| <==> exists v :: v in ids && v !in rank
  {
    hide Ranked, Waiting, Distinct;
    assert ids == rank.Keys + (ids - rank.Keys);
    if |rank.Keys| != |ids| {
      assert ids - rank.Keys != {};
      var v :| v in ids - rank.Keys;
    }
  }

  lemma {:induction false} Start(ids: set<Id>, edges: seq<Edge>, indegree: map<Id, nat>, outgoing: map<Id, seq<Id>>, queue: seq<Id>)
    requires Tables(ids, edges, indegree, outgoing)
    requires Distinct(queue) && forall v :: v in queue <==> v in indegree && indegree[v] == 0
    ensures Progress(ids, edges, map[], indegree, queue)
    ensures outgoing.Keys == ids && forall v :: v in ids ==> outgoing[v] == Targets(edges, v)
  {
    hide Waiting, Targets, Distinct;
    var none: map<Id, nat> := map[];
    assert none.Keys == {};
  }

  lemma {:induction false} HeadIsKnown(ids: set<Id>, edges: seq<Edge>, rank: map<Id, nat>, indegree: map<Id, nat>, queue: seq<Id>)
    requires Progress(ids, edges, rank, indegree, queue) && queue != []
    ensures queue[0] in ids && queue[0] !in rank
    ensures rank[queue[0] := |rank|].Keys == rank.Keys + {queue[0]}
    ensures |rank.Keys| + 1 == |rank.Keys + {queue[0]}| <= |ids|
  {
    hide Ranked, Waiting, Distinct;
    assert queue[0] in queue;
    FitsIn(rank.Keys + {queue[0]}, ids);
  }

  lemma {:induction false} FitsIn(part: set<Id>, whole: set<Id>)
    requires part <= whole
    ensures |part| <= |whole|
  {
    assert whole == part + (whole - part);
  }

  lemma {:induction false} KnownTargets(tasks: seq<Task>)
    ensures forall e :: e in Edges(Ids(tasks), tasks, |tasks|) ==> e.to in Ids(tasks)
  {
    forall e | e in Edges(Ids(tasks), tasks, |tasks|)
      ensures e.to in Ids(tasks)
    {
      EdgesAreDependencies(Ids(tasks), tasks, |tasks|, e);
    }
  }

  lemma {:induction false} ReleasedAll(ids: set<Id>, edges: seq<Edge>, rank: map<Id, nat>, indegree: map<Id, nat>, queue: seq<Id>)
    requires Releasing(ids, edges, rank, [], indegree, queue)
    ensures Progress(ids, edges, rank, indegree, queue)
  {
  }

  lemma {:induction false} Verdict(tasks: seq<Task>, rank: map<Id, nat>, indegree: map<Id, nat>)
    requires Progress(Ids(tasks), Edges(Ids(tasks), tasks, |tasks|), rank, indegree, [])
    ensures |rank.Keys| != |Ids(tasks)| <==> HasCycle(tasks)
  {
    hide Ids, Edges, Waiting, Ranked;
    var ids, edges := Ids(tasks), Edges(Ids(tasks), tasks, |tasks|);
    var rest := ids - rank.Keys;
    assert ids == rank.Keys + rest;
    if rest == {} {
      AllRankedMeansAcyclic(tasks, rank);
    } else {
      assert Stuck(tasks, rest) by {
        forall v | v in rest
          ensures exists u :: u in rest && DependsOn(tasks, v, u)
        {
          assert indegree[v] > 0;
          var u := WaitsFor(tasks, rank.Keys, v);
        }
      }
      StuckMeansCyclic(tasks, rest);
    }
  }

  lemma {:induction false} WaitsFor(tasks: seq<Task>, done: set<Id>, v: Id) returns (u: Id)
    requires Waiting(Edges(Ids(tasks), tasks, |tasks|), done, v) > 0
    ensures u in Ids(tasks) && u !in done && DependsOn(tasks, v, u)
  {
    hide Edges, Waiting;
    WaitingZero(Edges(Ids(tasks), tasks, |tasks|), done, v);
    var e :| e in Edges(Ids(tasks), tasks, |tasks|) && e.to == v && e.from !in done;
    EdgesAreDependencies(Ids(tasks), tasks, |tasks|, e);
    u := e.from;
  }

  /** The keys whose count is zero, each once. */
  method ZeroKeys(counts: map<Id, nat>) returns (zero: seq<Id>)
    ensures Distinct(zero) && forall v :: v in zero <==> v in counts && counts[v] == 0
  {
    zero := [];
    var left := counts.Keys;
    while left != {}
      invariant left <= counts.Keys && Distinct(zero)
      invariant forall v :: v in zero <==> v in counts && v !in left && counts[v] == 0
      decreases |left|
    {
      var v :| v in left;
      left := left - {v};
      if counts[v] == 0 {
        zero := zero + [v];
      }
    }
  }
}
