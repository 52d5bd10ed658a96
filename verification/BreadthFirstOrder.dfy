/**
 When the calls of a breadth-first traversal come in the documented order: the handler's prior calls
 were for origins not further from the start nodes. A node's distance is counted in the whole graph,
 or around the nodes that the handler abandoned; the traversal itself can only go by the latter.
 */
module BreadthFirstOrder {
  import opened HeapGraphs
  import opened BreadthFirstModel
  import opened BreadthFirstRuns

  // ---------- From calls to dequeues and back ----------

  lemma {:induction false} TracePrefix<N>(g: EdgeMap<N>, order: seq<N>, k: nat)
    requires k <= |order|
    ensures Trace(g, order[..k]) <= Trace(g, order)
    decreases |order|
  {
    if k == |order| {
      assert order[..k] == order;
    } else {
      var front := order[..|order| - 1];
      TracePrefix(g, front, k);
      assert front[..k] == order[..k];
    }
  }

  lemma TraceGrows<N>(g: EdgeMap<N>, order: seq<N>, j: nat, k: nat)
    requires j <= k <= |order|
    ensures |Trace(g, order[..j])| <= |Trace(g, order[..k])|
  {
    assert order[..k][..j] == order[..j];
    TracePrefix(g, order[..k], j);
  }

  lemma TraceStep<N>(g: EdgeMap<N>, order: seq<N>, k: nat)
    requires k < |order|
    ensures Trace(g, order[..k + 1]) ==
            Trace(g, order[..k]) + Edges(order[k], if order[k] in g then |g[order[k]]| else 0)
  {
    assert order[..k + 1][..k] == order[..k];
  }

  /** The dequeue that the i-th call belongs to. */
  lemma {:induction false} DequeueOf<N>(g: EdgeMap<N>, order: seq<N>, i: nat) returns (k: nat)
    requires i < |Trace(g, order)|
    ensures k < |order| && Trace(g, order)[i].0 == order[k]
    ensures |Trace(g, order[..k])| <= i < |Trace(g, order[..k + 1])|
    decreases |order|
  {
    var front := order[..|order| - 1];
    if i < |Trace(g, front)| {
      k := DequeueOf(g, front, i);
      assert front[..k] == order[..k] && front[..k + 1] == order[..k + 1];
    } else {
      k := |order| - 1;
      assert order[..k + 1] == order;
    }
  }

  /** The first call of a dequeue whose node has edges. */
  lemma FirstCall<N>(g: EdgeMap<N>, order: seq<N>, k: nat) returns (i: nat)
    requires k < |order| && order[k] in g && g[order[k]] != []
    ensures i == |Trace(g, order[..k])| < |Trace(g, order)| && Trace(g, order)[i].0 == order[k]
    ensures i < |Trace(g, order[..k + 1])|
  {
    i := |Trace(g, order[..k])|;
    TraceStep(g, order, k);
    TracePrefix(g, order, k + 1);
    hide Trace;
    assert Trace(g, order[..k + 1])[i] == Edges(order[k], |g[order[k]]|)[0];
  }

  // ---------- From first edges to the queue and back ----------

  /** A first edge to a node that was not abandoned. */
  predicate Queues<N(==)>(g: EdgeMap<N>, e: Event<N>, abandoned: set<N>) {
    EventOf(g, e) && e.first && Referent(g, e) !in abandoned
  }

  lemma QueuedStep<N>(g: EdgeMap<N>, log: seq<Event<N>>, abandoned: set<N>, k: nat)
    requires k < |log|
    ensures Queued(g, log[..k + 1], abandoned) ==
            Queued(g, log[..k], abandoned) + if Queues(g, log[k], abandoned) then [Referent(g, log[k])] else []
  {
    assert log[..k + 1] == log[..k] + [log[k]];
    QueuedMore(g, log[..k], log[k], abandoned);
  }

  lemma {:induction false} QueuedPrefix<N>(g: EdgeMap<N>, log: seq<Event<N>>, abandoned: set<N>, j: nat, k: nat)
    requires j <= k <= |log|
    ensures Queued(g, log[..j], abandoned) <= Queued(g, log[..k], abandoned)
    decreases k
  {
    if j == k {
    } else {
      QueuedPrefix(g, log, abandoned, j, k - 1);
      QueuedStep(g, log, abandoned, k - 1);
      hide Queued;
    }
  }

  /** The first edge that put the k-th queued node into the queue. */
  lemma {:induction false} EdgeThatQueued<N>(g: EdgeMap<N>, log: seq<Event<N>>, abandoned: set<N>, k: nat) returns (a: nat)
    requires k < |Queued(g, log, abandoned)|
    ensures a < |log| && Queues(g, log[a], abandoned)
    ensures Referent(g, log[a]) == Queued(g, log, abandoned)[k] && |Queued(g, log[..a], abandoned)| == k
    decreases |log|
  {
    var front := log[..|log| - 1];
    if k < |Queued(g, front, abandoned)| {
      a := EdgeThatQueued(g, front, abandoned, k);
      assert front[..a] == log[..a];
    } else {
      a := |log| - 1;
    }
  }

  /** Where in the queue a first edge puts its node. */
  lemma PlaceInQueue<N>(g: EdgeMap<N>, log: seq<Event<N>>, abandoned: set<N>, a: nat) returns (k: nat)
    requires a < |log| && Queues(g, log[a], abandoned)
    ensures k == |Queued(g, log[..a], abandoned)| < |Queued(g, log, abandoned)|
    ensures k < |Queued(g, log[..a + 1], abandoned)|
    ensures Queued(g, log, abandoned)[k] == Referent(g, log[a])
  {
    k := |Queued(g, log[..a], abandoned)|;
    QueuedStep(g, log, abandoned, a);
    QueuedPrefix(g, log, abandoned, a + 1, |log|);
    assert log[..|log|] == log;
    hide Queued;
    assert Queued(g, log[..a + 1], abandoned)[k] == Referent(g, log[a]);
  }

  // ---------- Calls that fall back to a start ----------

  /** The origins of prior calls are not further from the starts, counted around the nodes to avoid. */
  ghost predicate InOrderAround<N(!new)>(g: EdgeMap<N>, r: Run<N>, avoid: set<N>) {
    forall i, j, d, e ::
      (&& 0 <= i < j < |r.log|
       && IsDistance(g, r.search.starts, avoid, r.log[i].origin, d)
       && IsDistance(g, r.search.starts, avoid, r.log[j].origin, e)) ==> d <= e
  }

  /** The documented order: by distance in the whole graph. */
  ghost predicate InDocumentedOrder<N(!new)>(g: EdgeMap<N>, r: Run<N>) {
    InOrderAround(g, r, {})
  }

  /** What the traversal can keep to: by distance around the abandoned nodes. */
  ghost predicate InOwnOrder<N(!new)>(g: EdgeMap<N>, r: Run<N>) {
    InOrderAround(g, r, r.search.abandoned)
  }

  /** A call for another node comes before a call for a start. */
  ghost predicate FallsBack<N>(r: Run<N>) {
    exists i, j :: 0 <= i < j < |r.log| && r.log[i].origin !in r.search.starts && r.log[j].origin in r.search.starts
  }

  /** The first edges into two nodes with edges of their own, neither abandoned: first one that is no start, then a start. */
  ghost predicate Overtaken<N>(g: EdgeMap<N>, r: Run<N>) {
    exists a, b :: 0 <= a < b < |r.log| && OvertakenAt(g, r, a, b)
  }

  ghost predicate OvertakenAt<N>(g: EdgeMap<N>, r: Run<N>, a: nat, b: nat)
    requires a < |r.log| && b < |r.log|
  {
    && Queues(g, r.log[a], r.search.abandoned) && Queues(g, r.log[b], r.search.abandoned)
    && var n, s := Referent(g, r.log[a]), Referent(g, r.log[b]);
       && n !in r.search.starts && n in g && g[n] != []
       && s in r.search.starts && s in g && g[s] != []
  }

  lemma OrderIsNoFallBack<N(!new)>(g: EdgeMap<N>, r: Run<N>)
    requires Completed(g, r)
    ensures InOwnOrder(g, r) <==> !FallsBack(r)
  {
    hide Inv, IsDistance, Layered, Completed, FirstIsDeeper;
    CompletedLayers(g, r);
    if InOwnOrder(g, r) {
      forall i, j | 0 <= i < j < |r.log| && r.log[i].origin !in r.search.starts
        ensures r.log[j].origin !in r.search.starts
      {
        var d := FirstEdgesEndShortestPaths(g, r, i);
        var e := FirstEdgesEndShortestPaths(g, r, j);
        assert d <= e;
        LevelZero(g, r, r.log[i].origin);
        LevelZero(g, r, r.log[j].origin);
      }
    }
    if !FallsBack(r) {
      forall i, j, d, e | 0 <= i < j < |r.log|
          && IsDistance(g, r.search.starts, r.search.abandoned, r.log[i].origin, d)
          && IsDistance(g, r.search.starts, r.search.abandoned, r.log[j].origin, e)
        ensures d <= e
      {
        NoFallBackHere(g, r, i, j, d, e);
      }
    }
  }

  lemma LevelZero<N(!new)>(g: EdgeMap<N>, r: Run<N>, n: N)
    requires Completed(g, r) && n in r.search.level
    ensures n in r.search.starts <==> r.search.level[n] == 0
  {
    hide Traced, Counted, Firsts, Ordered, QueueKept, Sound, Complete, Admitted;
  }

  lemma NoFallBackHere<N(!new)>(g: EdgeMap<N>, r: Run<N>, i: nat, j: nat, d: nat, e: nat)
    requires Completed(g, r) && !FallsBack(r) && i < j < |r.log|
    requires IsDistance(g, r.search.starts, r.search.abandoned, r.log[i].origin, d)
    requires IsDistance(g, r.search.starts, r.search.abandoned, r.log[j].origin, e)
    ensures d <= e
  {
    hide Inv, IsDistance, Layered, Completed, FirstIsDeeper;
    var x, y := r.log[i].origin, r.log[j].origin;
    CompletedLayers(g, r);
    var d' := FirstEdgesEndShortestPaths(g, r, i);
    var e' := FirstEdgesEndShortestPaths(g, r, j);
    DistanceIsUnique(g, r.search.starts, r.search.abandoned, x, d, d');
    DistanceIsUnique(g, r.search.starts, r.search.abandoned, y, e, e');
    LevelZero(g, r, x);
  }

  // ---------- The exact condition ----------

  /** A completed traversal has dequeued its starts and then the queued nodes, and called the handler for their edges. */
  lemma CompletedQueue<N(!new)>(g: EdgeMap<N>, r: Run<N>)
    requires Completed(g, r)
    ensures r.order == r.search.starts + Queued(g, r.log, r.search.abandoned)
    ensures Calls(r.log) == Trace(g, r.order)
  {
    hide Inv, Layered, Counted, Firsts, Ordered, Queued;
    assert r.order + [] == r.order;
  }

  lemma OvertakenFallsBack<N(!new)>(g: EdgeMap<N>, r: Run<N>, a: nat, b: nat)
    requires Completed(g, r) && a < b < |r.log| && OvertakenAt(g, r, a, b)
    ensures FallsBack(r)
  {
    hide Completed, Trace, Queued;
    CompletedQueue(g, r);
    var ab := r.search.abandoned;
    var k := PlaceInQueue(g, r.log, ab, a);
    var m := PlaceInQueue(g, r.log, ab, b);
    QueuedPrefix(g, r.log, ab, a + 1, b);
    var p, q := |r.search.starts| + k, |r.search.starts| + m;
    var i := FirstCall(g, r.order, p);
    var j := FirstCall(g, r.order, q);
    TraceGrows(g, r.order, p + 1, q);
    assert Calls(r.log)[i].0 == r.log[i].origin && Calls(r.log)[j].0 == r.log[j].origin;
  }

  /** The dequeue of a call for a node that is no start, or that comes after one, is of a queued node. */
  lemma FallBackIsOvertaken<N(!new)>(g: EdgeMap<N>, r: Run<N>, i: nat, j: nat)
    requires Completed(g, r) && i < j < |r.log|
    requires r.log[i].origin !in r.search.starts && r.log[j].origin in r.search.starts
    ensures Overtaken(g, r)
  {
    hide Completed, Trace, Queued;
    CompletedQueue(g, r);
    var ab := r.search.abandoned;
    assert Calls(r.log)[i].0 == r.log[i].origin && Calls(r.log)[j].0 == r.log[j].origin;
    var p := DequeueOf(g, r.order, i);
    var q := DequeueOf(g, r.order, j);
    if q < p { TraceGrows(g, r.order, q + 1, p); }
    assert p < q;
    assert p >= |r.search.starts|;
    var k, m := p - |r.search.starts|, q - |r.search.starts|;
    var a := EdgeThatQueued(g, r.log, ab, k);
    var b := EdgeThatQueued(g, r.log, ab, m);
    if b < a { QueuedPrefix(g, r.log, ab, b, a); }
    HasEdges(g, r, i);
    HasEdges(g, r, j);
    assert OvertakenAt(g, r, a, b);
  }

  lemma HasEdges<N(!new)>(g: EdgeMap<N>, r: Run<N>, i: nat)
    requires Completed(g, r) && i < |r.log|
    ensures r.log[i].origin in g && g[r.log[i].origin] != []
  {
    hide Inv, Layered, Counted, Firsts, Traced, QueueKept;
  }

  /**
   For every completed traversal: by distance around abandoned nodes, the calls come in order exactly when no
   first edge into a node that is no start comes before a first edge into a start, both with edges and neither
   abandoned.
   */
  lemma OrderExactly<N(!new)>(g: EdgeMap<N>, r: Run<N>)
    requires Completed(g, r)
    ensures InOwnOrder(g, r) <==> !Overtaken(g, r)
  {
    hide Completed, IsDistance, InOwnOrder;
    OrderIsNoFallBack(g, r);
    if FallsBack(r) {
      var i, j :| 0 <= i < j < |r.log| && r.log[i].origin !in r.search.starts && r.log[j].origin in r.search.starts;
      FallBackIsOvertaken(g, r, i, j);
    }
    if Overtaken(g, r) {
      var a, b :| 0 <= a < b < |r.log| && OvertakenAt(g, r, a, b);
      OvertakenFallsBack(g, r, a, b);
    }
  }

  /** A traversal that abandoned nothing has the documented order exactly then. */
  lemma DocumentedOrderExactly<N(!new)>(g: EdgeMap<N>, r: Run<N>)
    requires Completed(g, r) && r.search.abandoned == {}
    ensures InDocumentedOrder(g, r) <==> !Overtaken(g, r)
  {
    hide Completed, IsDistance, Overtaken, InOrderAround;
    OrderExactly(g, r);
  }

  // ---------- How often, and in what order, edges are visited ----------

  lemma TraceElements<N>(u: N, n: nat, v: N, k: nat)
    ensures multiset(Edges(u, n))[(v, k)] == if v == u && k < n then 1 else 0
  {
    if n > 0 {
      TraceElements(u, n - 1, v, k);
      assert Edges(u, n) == Edges(u, n - 1) + [(u, n - 1)];
    } else {
      assert Edges(u, n) == [];
    }
  }

  lemma {:induction false} TraceCount<N>(g: EdgeMap<N>, order: seq<N>, v: N, k: nat)
    ensures multiset(Trace(g, order))[(v, k)] == if v in g && k < |g[v]| then multiset(order)[v] else 0
  {
    if order == [] {
    } else {
      var front, u := order[..|order| - 1], order[|order| - 1];
      assert order == front + [u];
      TraceCount(g, front, v, k);
      TraceElements(u, if u in g then |g[u]| else 0, v, k);
    }
  }

  /** In a completed traversal the handler is called for every edge of a node as often as the node is dequeued. */
  lemma CallsCounted<N(!new)>(g: EdgeMap<N>, r: Run<N>, u: N, k: nat)
    requires Completed(g, r)
    ensures multiset(Calls(r.log))[(u, k)] == if u in g && k < |g[u]| then multiset(r.order)[u] else 0
  {
    hide Completed;
    CompletedQueue(g, r);
    TraceCount(g, r.order, u, k);
  }

  lemma {:induction false} TraceInTurn<N>(g: EdgeMap<N>, order: seq<N>, i: nat)
    requires i < |Trace(g, order)| && Trace(g, order)[i].1 > 0
    ensures i > 0 && Trace(g, order)[i - 1] == (Trace(g, order)[i].0, Trace(g, order)[i].1 - 1)
  {
    var front := order[..|order| - 1];
    if i < |Trace(g, front)| {
      TraceInTurn(g, front, i);
    }
  }

  /** An edge that is not its node's first is visited right after the one before it. */
  lemma CallsInTurn<N(!new)>(g: EdgeMap<N>, r: Run<N>, i: nat)
    requires Completed(g, r) && i < |r.log| && r.log[i].edge > 0
    ensures i > 0 && r.log[i - 1].origin == r.log[i].origin && r.log[i - 1].edge + 1 == r.log[i].edge
  {
    hide Completed;
    CompletedQueue(g, r);
    assert Calls(r.log)[i] == (r.log[i].origin, r.log[i].edge);
    TraceInTurn(g, r.order, i);
    assert Calls(r.log)[i - 1] == (r.log[i - 1].origin, r.log[i - 1].edge);
  }

  // ---------- Conditions on the graph and the starts ----------

  /** A path of one or more edges leads from a start to n. */
  ghost predicate ReachedAgain<N(!new)>(g: EdgeMap<N>, starts: seq<N>, n: N) {
    exists p :: |p| > 1 && IsPath(g, p) && p[0] in starts && p[|p| - 1] == n
  }

  /** Every start that is reached again was marked, or has no edges to traverse twice. */
  ghost predicate StartsAreSafe<N(!new)>(g: EdgeMap<N>, s: Search<N>) {
    forall n :: n in s.starts && n in g && g[n] != [] && ReachedAgain(g, s.starts, n) ==> n in s.marked
  }

  lemma FirstIsReachedAgain<N(!new)>(g: EdgeMap<N>, r: Run<N>, a: nat)
    requires Completed(g, r) && a < |r.log| && Queues(g, r.log[a], r.search.abandoned)
    ensures Referent(g, r.log[a]) !in r.search.marked && ReachedAgain(g, r.search.starts, Referent(g, r.log[a]))
  {
    hide Layered, Counted, Traced, Ordered, QueueKept, Complete, Admitted, Bounds;
    var n := Referent(g, r.log[a]);
    assert n in r.search.visited && n !in r.search.marked;
    assert OverAnEdge(g, r.search.starts, r.search.Open(), n);
    OverEdgeIsReachedAgain(g, r.search.starts, r.search.Open(), n);
  }

  lemma OverEdgeIsReachedAgain<N(!new)>(g: EdgeMap<N>, starts: seq<N>, open: set<N>, n: N)
    requires OverAnEdge(g, starts, open, n)
    ensures ReachedAgain(g, starts, n)
  {
    var d :| d > 0 && ReachedIn(g, starts, open, n, d);
    var p :| |p| == d + 1 && Arrives(g, starts, open, p, n);
  }

  /** Then the calls come in order, by distance around abandoned nodes, and by distance if there are none. */
  lemma SafeStartsKeepOrder<N(!new)>(g: EdgeMap<N>, r: Run<N>)
    requires Completed(g, r) && StartsAreSafe(g, r.search)
    ensures InOwnOrder(g, r)
    ensures r.search.abandoned == {} ==> InDocumentedOrder(g, r)
  {
    hide Completed, IsDistance, InOrderAround, ReachedAgain;
    OrderExactly(g, r);
    if a, b :| 0 <= a < b < |r.log| && OvertakenAt(g, r, a, b) {
      FirstIsReachedAgain(g, r, b);
    }
  }

  /** In particular when every start was added as visited. */
  lemma MarkedStartsKeepOrder<N(!new)>(g: EdgeMap<N>, r: Run<N>)
    requires Completed(g, r) && AllMarked(r.search)
    ensures InOwnOrder(g, r)
    ensures r.search.abandoned == {} ==> InDocumentedOrder(g, r)
  {
    hide Completed, IsDistance, InOrderAround, ReachedAgain;
    SafeStartsKeepOrder(g, r);
  }

  // ---------- Runs out of order ----------

  /** An unmarked start on a cycle is enough to break it. */
  lemma UnmarkedStartOutOfOrder() returns (r: Run<nat>)
    ensures Completed(Pair(), r) && r.search.starts == [0] && !InDocumentedOrder(Pair(), r)
  {
    hide Completed, IsDistance, Pair;
    r := UnmarkedStartBreaksOrder();
    assert r.log[1].origin == 1 && r.log[2].origin == 0;
    assert IsDistance(Pair(), r.search.starts, r.search.abandoned, r.log[1].origin, 1);
    assert IsDistance(Pair(), r.search.starts, r.search.abandoned, r.log[2].origin, 0);
  }

  /** From 0 the way to 5 over 1 is short, and the one over 2, 3 and 4 is long. */
  function Detour(): EdgeMap<nat> {
    map[0 := [1, 2], 1 := [5], 2 := [3], 3 := [4], 4 := [5], 5 := [0]]
  }

  /** The next node of the queue is expanded; it has one edge. */
  function OneEdgeStep(g: EdgeMap<nat>, r: Run<nat>): Run<nat>
    requires r.search.pending != [] && r.search.pending[0] in r.search.level
    requires r.search.pending[0] in g && |g[r.search.pending[0]]| == 1
  {
    var u := r.search.pending[0];
    Done(Seen(g, Begun(r), u, 0, GO_ON), u)
  }

  lemma OneEdgeKeepsInv(g: EdgeMap<nat>, r: Run<nat>)
    requires RunInv(g, r, Between) && r.search.pending != []
    requires r.search.pending[0] in g && |g[r.search.pending[0]]| == 1
    ensures r.search.pending[0] in r.search.level && RunInv(g, OneEdgeStep(g, r), Between)
  {
    hide RunInv;
    BeginRun(g, r);
    var u := r.search.pending[0];
    SeeRun(g, Begun(r), u, 0, GO_ON);
    FinishRun(g, Seen(g, Begun(r), u, 0, GO_ON), u);
  }

  /** The search of Detour from 0, marked, when 1 has been abandoned. */
  function DetourSearch(visited: set<nat>, pending: seq<nat>, expanded: set<nat>, level: map<nat, nat>): Search<nat> {
    Search([0], {0}, visited, pending, expanded, {1}, level)
  }

  /** Node 0 is expanded and 1 abandoned. */
  lemma DetourBegins() returns (r: Run<nat>)
    ensures RunInv(Detour(), r, Between)
    ensures r == Run(DetourSearch({0, 1, 2}, [2], {0}, map[0 := 0, 1 := 1, 2 := 1]), [0], [Event(0, 0, true, ABANDON), Event(0, 1, true, GO_ON)], 0)
  {
    hide RunInv;
    var g, r0 := Detour(), Started(NoStarts(), 0, true);
    FreshRun(g, r0);
    BeginRun(g, r0);
    var r1 := Begun(r0);
    SeeRun(g, r1, 0, 0, ABANDON);
    var r2 := Seen(g, r1, 0, 0, ABANDON);
    assert r2.search == Search([0], {0}, {0, 1}, [], {}, {1}, map[0 := 0, 1 := 1]);
    SeeRun(g, r2, 0, 1, GO_ON);
    FinishRun(g, Seen(g, r2, 0, 1, GO_ON), 0);
    r := Done(Seen(g, r2, 0, 1, GO_ON), 0);
  }

  lemma DetourRun() returns (r: Run<nat>)
    ensures Completed(Detour(), r) && AllMarked(r.search) && r.search.starts == [0] && r.search.abandoned == {1}
    ensures |r.log| == 6 && r.log[4].origin == 4 && r.log[5].origin == 5
  {
    hide RunInv;
    var g := Detour();
    r := DetourBegins();
    OneEdgeKeepsInv(g, r);
    r := OneEdgeStep(g, r);
    assert r.search.pending == [3];
    OneEdgeKeepsInv(g, r);
    r := OneEdgeStep(g, r);
    assert r.search.pending == [4];
    OneEdgeKeepsInv(g, r);
    r := OneEdgeStep(g, r);
    assert r.search.pending == [5];
    OneEdgeKeepsInv(g, r);
    r := OneEdgeStep(g, r);
    assert r.search.pending == [];
  }

  /** In the whole graph 4 is further from the start than 5. */
  lemma DetourDistances()
    ensures IsDistance(Detour(), [0], {}, 4, 3) && IsDistance(Detour(), [0], {}, 5, 2)
  {
    hide IsDistance;
    DetourToFour();
    DetourToFive();
  }

  lemma DetourToFive()
    ensures IsDistance(Detour(), [0], {}, 5, 2)
  {
    var g := Detour();
    assert Unabandoned(g, [0], {}, [0, 1, 5], 5);
    forall p | Unabandoned(g, [0], {}, p, 5)
      ensures |p| >= 3
    {
      assert p[0] == 0;
      if |p| >= 2 { assert p[1] in g[p[0]]; }
    }
  }

  lemma DetourToFour()
    ensures IsDistance(Detour(), [0], {}, 4, 3)
  {
    var g := Detour();
    assert Unabandoned(g, [0], {}, [0, 2, 3, 4], 4);
    forall p | Unabandoned(g, [0], {}, p, 4)
      ensures |p| >= 4
    {
      assert p[0] == 0;
      if |p| >= 2 { assert p[1] in g[p[0]]; }
      if |p| >= 3 { assert p[2] in g[p[1]]; }
    }
  }

  /** So a marked start is not enough for the documented order once a node is abandoned. */
  lemma AbandoningBreaksOrder() returns (r: Run<nat>)
    ensures Completed(Detour(), r) && AllMarked(r.search) && !InDocumentedOrder(Detour(), r)
  {
    hide Completed, IsDistance, Detour;
    r := DetourRun();
    DetourDistances();
    assert IsDistance(Detour(), r.search.starts, {}, r.log[4].origin, 3);
    assert IsDistance(Detour(), r.search.starts, {}, r.log[5].origin, 2);
  }
}
