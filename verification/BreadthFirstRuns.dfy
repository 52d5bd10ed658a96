/**
 What a breadth-first traversal shows its handler: the calls so far, the order in which
 nodes were taken off the queue, and how both relate to the search.
 */
module BreadthFirstRuns {
  import Graphs
  import opened HeapGraphs
  import opened BreadthFirstModel

  /** What the handler returns, and what it has asked the traversal for. */
  datatype Reply = Reply(ok: bool, stop: bool, abandon: bool)

  const GO_ON: Reply := Reply(true, false, false)
  const ABANDON: Reply := Reply(true, false, true)

  /** One call of the handler: an outgoing edge of origin, by its index, whether it is the first into its referent, and the reply. */
  datatype Event<N> = Event(origin: N, edge: nat, first: bool, reply: Reply)

  /** Any handler: its reply to a call depends on the calls so far, the edge, and whether it is the first into its referent. */
  type Handler<!N> = (seq<Event<N>>, N, nat, bool) -> Reply

  /** Every reply in the log is the handler's to that call. */
  ghost predicate Answered<N>(handler: Handler<N>, log: seq<Event<N>>) {
    forall i :: 0 <= i < |log| ==> log[i].reply == handler(log[..i], log[i].origin, log[i].edge, log[i].first)
  }

  /** No call failed or stopped the traversal. */
  ghost predicate WentOn<N>(log: seq<Event<N>>) {
    forall i :: 0 <= i < |log| ==> log[i].reply.ok && !log[i].reply.stop
  }

  lemma AnsweredOnce<N>(handler: Handler<N>, log: seq<Event<N>>, e: Event<N>)
    requires Answered(handler, log) && e.reply == handler(log, e.origin, e.edge, e.first)
    ensures Answered(handler, log + [e])
    ensures WentOn(log) && e.reply.ok && !e.reply.stop ==> WentOn(log + [e])
  {
    var more := log + [e];
    assert more[..|log|] == log;
    forall i | 0 <= i < |log|
      ensures more[i] == log[i] && more[..i] == log[..i]
    {
    }
  }

  /** The search, the nodes dequeued, the handler's calls, and the highest level of an origin so far. */
  datatype Run<N(==)> = Run(search: Search<N>, order: seq<N>, log: seq<Event<N>>, base: nat)

  /** Between two origins, or inside one with its edges before next done. */
  datatype Position<N> = Between | Inside(origin: N, next: nat)
  {
    ghost function Current(): set<N> { if Inside? then {origin} else {} }
  }

  function Begun<N>(r: Run<N>): Run<N>
    requires r.search.pending != [] && r.search.pending[0] in r.search.level
  {
    var origin := r.search.pending[0];
    r.(search := r.search.(pending := r.search.pending[1..]), order := r.order + [origin], base := Later(r.base, r.search.level[origin]))
  }

  function Seen<N>(g: EdgeMap<N>, r: Run<N>, origin: N, k: nat, reply: Reply): Run<N>
    requires origin in g && k < |g[origin]| && origin in r.search.level
  {
    var n := g[origin][k];
    var first := n !in r.search.visited;
    r.(log := r.log + [Event(origin, k, first, reply)],
       search := if first then Visit(r.search, origin, n, reply.abandon) else r.search)
  }

  lemma SeenFacts<N>(g: EdgeMap<N>, r: Run<N>, origin: N, k: nat, reply: Reply)
    requires origin in g && k < |g[origin]| && origin in r.search.level
    ensures var r', n := Seen(g, r, origin, k, reply), g[origin][k];
            var first := n !in r.search.visited;
            && r'.log == r.log + [Event(origin, k, first, reply)] && r'.search.visited == r.search.visited + {n}
            && r'.search.pending == r.search.pending + (if first && !reply.abandon then [n] else [])
            && r'.search.starts == r.search.starts && r'.search.marked == r.search.marked
  {
  }

  function Done<N>(r: Run<N>, origin: N): Run<N> {
    r.(search := r.search.(expanded := r.search.expanded + {origin}))
  }

  // ---------- Which calls are made ----------

  function Calls<N>(log: seq<Event<N>>): seq<(N, nat)> {
    seq(|log|, i requires 0 <= i < |log| => (log[i].origin, log[i].edge))
  }

  /** The first k edges of u, in order. */
  function Edges<N>(u: N, k: nat): seq<(N, nat)> {
    seq(k, i => (u, i))
  }

  /** Every edge of every node of order, in order. */
  function Trace<N>(g: EdgeMap<N>, order: seq<N>): seq<(N, nat)>
  {
    if order == [] then []
    else
      var u := order[|order| - 1];
      Trace(g, order[..|order| - 1]) + Edges(u, if u in g then |g[u]| else 0)
  }

  ghost predicate Traced<N>(g: EdgeMap<N>, r: Run<N>, at: Position<N>) {
    match at
    case Between => Calls(r.log) == Trace(g, r.order)
    case Inside(u, k) =>
      && r.order != [] && r.order[|r.order| - 1] == u
      && Calls(r.log) == Trace(g, r.order[..|r.order| - 1]) + Edges(u, k)
  }

  lemma BeginTraced<N>(g: EdgeMap<N>, r: Run<N>)
    requires Traced(g, r, Between) && r.search.pending != [] && r.search.pending[0] in r.search.level
    ensures Traced(g, Begun(r), Inside(r.search.pending[0], 0))
  {
    assert Begun(r).order[..|r.order|] == r.order;
    assert Trace(g, r.order) + Edges(r.search.pending[0], 0) == Trace(g, r.order);
  }

  lemma SeeTraced<N>(g: EdgeMap<N>, r: Run<N>, u: N, k: nat, reply: Reply)
    requires Traced(g, r, Inside(u, k)) && u in g && k < |g[u]| && u in r.search.level
    ensures Traced(g, Seen(g, r, u, k, reply), Inside(u, k + 1))
  {
    hide Trace;
    var r' := Seen(g, r, u, k, reply);
    var before := Trace(g, r.order[..|r.order| - 1]);
    assert Calls(r'.log) == Calls(r.log) + [(u, k)];
    assert Edges(u, k + 1) == Edges(u, k) + [(u, k)];
    assert before + Edges(u, k) + [(u, k)] == before + Edges(u, k + 1);
  }

  lemma FinishTraced<N>(g: EdgeMap<N>, r: Run<N>, u: N)
    requires u in g && Traced(g, r, Inside(u, |g[u]|))
    ensures Traced(g, Done(r, u), Between)
  {
  }

  // ---------- How often nodes are dequeued ----------

  ghost predicate AllMarked<N>(s: Search<N>) {
    forall i :: 0 <= i < |s.starts| ==> s.starts[i] in s.marked
  }

  /** Every start and every unabandoned first visit is queued once; what has been dequeued is expanded. */
  ghost predicate Counted<N(!new)>(r: Run<N>, current: set<N>) {
    && |r.order| + |r.search.pending| + |r.search.abandoned| + |r.search.marked| == |r.search.starts| + |r.search.visited|
    && (forall u :: u in r.order <==> u in r.search.expanded || u in current)
    && (AllMarked(r.search) && Graphs.NoRepeats(r.search.starts) ==>
          && Graphs.NoRepeats(r.order + r.search.pending)
          && forall i :: 0 <= i < |r.order + r.search.pending| ==> (r.order + r.search.pending)[i] in r.search.visited)
  }

  lemma BeginCounted<N(!new)>(r: Run<N>)
    requires Counted(r, {}) && r.search.pending != [] && r.search.pending[0] in r.search.level
    ensures Counted(Begun(r), {r.search.pending[0]})
  {
    var r' := Begun(r);
    assert r'.order + r'.search.pending == r.order + r.search.pending;
    assert AllMarked(r'.search) == AllMarked(r.search);
  }

  lemma SeeCounted<N(!new)>(g: EdgeMap<N>, r: Run<N>, u: N, k: nat, reply: Reply)
    requires Counted(r, {u}) && u in g && k < |g[u]| && u in r.search.level && Bounds(g, r.search)
    ensures Counted(Seen(g, r, u, k, reply), {u})
  {
    var n := g[u][k];
    var r' := Seen(g, r, u, k, reply);
    assert AllMarked(r'.search) == AllMarked(r.search);
    if n !in r.search.visited {
      assert n !in r.search.abandoned;
      assert r'.search.pending == if reply.abandon then r.search.pending else r.search.pending + [n];
      assert r'.order + r'.search.pending == if reply.abandon then r.order + r.search.pending else r.order + r.search.pending + [n];
    }
  }

  lemma FinishCounted<N(!new)>(r: Run<N>, u: N)
    requires Counted(r, {u})
    ensures Counted(Done(r, u), {})
  {
    assert AllMarked(Done(r, u).search) == AllMarked(r.search);
  }

  // ---------- First edges ----------

  predicate EventOf<N>(g: EdgeMap<N>, e: Event<N>) {
    e.origin in g && e.edge < |g[e.origin]|
  }

  function Referent<N>(g: EdgeMap<N>, e: Event<N>): N
    requires EventOf(g, e)
  {
    g[e.origin][e.edge]
  }

  ghost predicate FirstInto<N>(g: EdgeMap<N>, log: seq<Event<N>>, n: N) {
    exists i :: 0 <= i < |log| && EventOf(g, log[i]) && log[i].first && Referent(g, log[i]) == n
  }

  /** The first edges lead to the visited nodes that were not marked beforehand, one each. */
  ghost predicate Firsts<N(!new)>(g: EdgeMap<N>, log: seq<Event<N>>, s: Search<N>) {
    && (forall i :: 0 <= i < |log| ==> EventOf(g, log[i]))
    && (forall i :: 0 <= i < |log| && log[i].first ==>
          Referent(g, log[i]) in s.visited && Referent(g, log[i]) !in s.marked)
    && (forall i, j :: 0 <= i < j < |log| && log[i].first && log[j].first ==>
          Referent(g, log[i]) != Referent(g, log[j]))
    && (forall n :: n in s.visited && n !in s.marked ==> FirstInto(g, log, n))
  }

  lemma FirstIntoLonger<N>(g: EdgeMap<N>, log: seq<Event<N>>, e: Event<N>, n: N)
    requires FirstInto(g, log, n)
    ensures FirstInto(g, log + [e], n)
  {
    var i :| 0 <= i < |log| && EventOf(g, log[i]) && log[i].first && Referent(g, log[i]) == n;
    assert (log + [e])[i] == log[i];
  }

  lemma SeeFirsts<N(!new)>(g: EdgeMap<N>, r: Run<N>, u: N, k: nat, reply: Reply)
    requires Firsts(g, r.log, r.search) && u in g && k < |g[u]| && u in r.search.level && r.search.marked <= r.search.visited
    ensures Firsts(g, Seen(g, r, u, k, reply).log, Seen(g, r, u, k, reply).search)
  {
    hide FirstInto;
    var r' := Seen(g, r, u, k, reply);
    var e := r'.log[|r.log|];
    assert r'.log == r.log + [e];
    forall n | n in r'.search.visited && n !in r'.search.marked
      ensures FirstInto(g, r'.log, n)
    {
      if n in r.search.visited {
        FirstIntoLonger(g, r.log, e, n);
      } else {
        FirstIntoLast(g, r.log, e, n);
      }
    }
  }

  lemma FirstIntoLast<N>(g: EdgeMap<N>, log: seq<Event<N>>, e: Event<N>, n: N)
    requires EventOf(g, e) && e.first && Referent(g, e) == n
    ensures FirstInto(g, log + [e], n)
  {
    assert (log + [e])[|log|] == e;
  }

  // ---------- What the handler was told, and what it asked for ----------

  /** An earlier call was for an edge into the same node. */
  ghost predicate MetBefore<N>(g: EdgeMap<N>, log: seq<Event<N>>, i: nat)
    requires i < |log|
  {
    exists j :: 0 <= j < i && SameReferent(g, log[j], log[i])
  }

  ghost predicate SameReferent<N>(g: EdgeMap<N>, e: Event<N>, f: Event<N>) {
    EventOf(g, e) && EventOf(g, f) && Referent(g, e) == Referent(g, f)
  }

  /** Each call said truly whether its edge was the first into a node, and a node is abandoned if the reply to that call asked for it. */
  ghost predicate Truthful<N>(g: EdgeMap<N>, log: seq<Event<N>>, s: Search<N>) {
    && (forall i :: 0 <= i < |log| ==> EventOf(g, log[i]) && Referent(g, log[i]) in s.visited)
    && (forall i :: 0 <= i < |log| ==> (log[i].first <==> Referent(g, log[i]) !in s.marked && !MetBefore(g, log, i)))
    && (forall i :: 0 <= i < |log| && log[i].first ==> (log[i].reply.abandon <==> Referent(g, log[i]) in s.abandoned))
  }

  lemma MetBeforeInLonger<N>(g: EdgeMap<N>, log: seq<Event<N>>, e: Event<N>, i: nat)
    requires i < |log|
    ensures MetBefore(g, log + [e], i) <==> MetBefore(g, log, i)
  {
    var more := log + [e];
    assert forall j :: 0 <= j <= i ==> more[j] == log[j];
    if MetBefore(g, more, i) {
      var j :| 0 <= j < i && SameReferent(g, more[j], more[i]);
      assert SameReferent(g, log[j], log[i]);
    }
    if MetBefore(g, log, i) {
      var j :| 0 <= j < i && SameReferent(g, log[j], log[i]);
      assert SameReferent(g, more[j], more[i]);
    }
  }

  /** The last call is for a node that was not visited, or one met before or marked. */
  lemma LastIsTruthful<N(!new)>(g: EdgeMap<N>, r: Run<N>, e: Event<N>)
    requires Truthful(g, r.log, r.search) && Firsts(g, r.log, r.search) && EventOf(g, e) && r.search.marked <= r.search.visited
    ensures Referent(g, e) !in r.search.visited <==> Referent(g, e) !in r.search.marked && !MetBefore(g, r.log + [e], |r.log|)
  {
    var more, n := r.log + [e], Referent(g, e);
    assert more[|r.log|] == e;
    if MetBefore(g, more, |r.log|) {
      var j :| 0 <= j < |r.log| && SameReferent(g, more[j], e);
      assert more[j] == r.log[j];
    }
    if n in r.search.visited && n !in r.search.marked {
      assert FirstInto(g, r.log, n);
      var i :| 0 <= i < |r.log| && EventOf(g, r.log[i]) && r.log[i].first && Referent(g, r.log[i]) == n;
      assert more[i] == r.log[i] && SameReferent(g, more[i], more[|r.log|]);
    }
  }

  lemma SeeTruthful<N(!new)>(g: EdgeMap<N>, r: Run<N>, u: N, k: nat, reply: Reply)
    requires Truthful(g, r.log, r.search) && Firsts(g, r.log, r.search) && u in g && k < |g[u]| && u in r.search.level
    requires r.search.marked <= r.search.visited && r.search.abandoned <= r.search.visited
    ensures Truthful(g, Seen(g, r, u, k, reply).log, Seen(g, r, u, k, reply).search)
  {
    hide Firsts, MetBefore;
    var r' := Seen(g, r, u, k, reply);
    var e := r'.log[|r.log|];
    assert r'.log == r.log + [e];
    LastIsTruthful(g, r, e);
    forall i | 0 <= i < |r.log|
      ensures r'.log[i] == r.log[i] && (MetBefore(g, r'.log, i) <==> MetBefore(g, r.log, i))
    {
      MetBeforeInLonger(g, r.log, e, i);
    }
  }

  // ---------- The order of the calls ----------

  /** Origins that are not starts come level by level, and a first edge to such a node leads exactly one level down. */
  ghost predicate Ordered<N>(g: EdgeMap<N>, r: Run<N>) {
    && (forall i :: 0 <= i < |r.log| ==> EventOf(g, r.log[i]) && r.log[i].origin in r.search.level
                                         && r.search.level[r.log[i].origin] <= r.base)
    && (forall i, j :: 0 <= i < j < |r.log| && r.log[j].origin !in r.search.starts ==>
          r.search.level[r.log[i].origin] <= r.search.level[r.log[j].origin])
    && (forall i :: 0 <= i < |r.log| && r.log[i].first ==> FirstIsDeeper(g, r.search, r.log[i]))
  }

  ghost predicate FirstIsDeeper<N>(g: EdgeMap<N>, s: Search<N>, e: Event<N>)
    requires EventOf(g, e) && e.origin in s.level
  {
    var n := Referent(g, e);
    n in s.level && (n in s.starts || s.level[n] == s.level[e.origin] + 1)
  }

  lemma SeeOrdered<N>(g: EdgeMap<N>, r: Run<N>, u: N, k: nat, reply: Reply)
    requires Ordered(g, r) && u in g && k < |g[u]| && AtBase(r.search, u, r.base)
    requires g[u][k] !in r.search.visited && g[u][k] in r.search.level ==> g[u][k] in r.search.starts
    ensures Ordered(g, Seen(g, r, u, k, reply))
  {
    var r' := Seen(g, r, u, k, reply);
    forall i | 0 <= i < |r.log| && r.log[i].first
      ensures FirstIsDeeper(g, r'.search, r.log[i])
    {
      assert FirstIsDeeper(g, r.search, r.log[i]);
    }
  }

  // ---------- The queue over the whole run ----------

  /** The newly visited nodes that were not abandoned, in the order of their first edges. */
  function Queued<N>(g: EdgeMap<N>, log: seq<Event<N>>, abandoned: set<N>): seq<N> {
    if log == [] then []
    else
      var front, e := log[..|log| - 1], log[|log| - 1];
      Queued(g, front, abandoned)
      + if EventOf(g, e) && e.first && Referent(g, e) !in abandoned then [Referent(g, e)] else []
  }

  /** The queue takes the starts and then those nodes, each in turn. */
  ghost predicate QueueKept<N>(g: EdgeMap<N>, r: Run<N>) {
    r.order + r.search.pending == r.search.starts + Queued(g, r.log, r.search.abandoned)
  }

  lemma QueuedMore<N>(g: EdgeMap<N>, log: seq<Event<N>>, e: Event<N>, abandoned: set<N>)
    ensures Queued(g, log + [e], abandoned) ==
            Queued(g, log, abandoned)
            + if EventOf(g, e) && e.first && Referent(g, e) !in abandoned then [Referent(g, e)] else []
  {
    assert (log + [e])[..|log|] == log;
  }

  /** Abandoning a node that no first edge has led to takes nothing back. */
  lemma {:induction false} QueuedStays<N>(g: EdgeMap<N>, log: seq<Event<N>>, abandoned: set<N>, n: N)
    requires forall i :: 0 <= i < |log| && EventOf(g, log[i]) && log[i].first ==> Referent(g, log[i]) != n
    ensures Queued(g, log, abandoned + {n}) == Queued(g, log, abandoned)
  {
    if log == [] {
    } else {
      QueuedStays(g, log[..|log| - 1], abandoned, n);
    }
  }

  lemma BeginQueueKept<N>(g: EdgeMap<N>, r: Run<N>)
    requires QueueKept(g, r) && r.search.pending != [] && r.search.pending[0] in r.search.level
    ensures QueueKept(g, Begun(r))
  {
    var r' := Begun(r);
    assert r'.order + r'.search.pending == r.order + r.search.pending;
  }

  lemma SeeQueueKept<N(!new)>(g: EdgeMap<N>, r: Run<N>, u: N, k: nat, reply: Reply)
    requires QueueKept(g, r) && Firsts(g, r.log, r.search) && r.search.abandoned <= r.search.visited
    requires u in g && k < |g[u]| && u in r.search.level
    ensures QueueKept(g, Seen(g, r, u, k, reply))
  {
    var n, r' := g[u][k], Seen(g, r, u, k, reply);
    var e := Event(u, k, n !in r.search.visited, reply);
    QueuedMore(g, r.log, e, r'.search.abandoned);
    hide Queued, Firsts;
    if n !in r.search.visited {
      if reply.abandon {
        QueuedStays(g, r.log, r.search.abandoned, n);
      } else {
        assert r'.order + r'.search.pending == r.order + r.search.pending + [n];
        assert r.search.starts + Queued(g, r.log, r.search.abandoned) + [n]
            == r.search.starts + (Queued(g, r.log, r.search.abandoned) + [n]);
      }
    } else {
      assert Queued(g, r.log, r.search.abandoned) + [] == Queued(g, r.log, r.search.abandoned);
    }
  }

  // ---------- The whole invariant ----------

  /** What the origin's edges so far have led to. */
  ghost predicate Passed<N>(g: EdgeMap<N>, s: Search<N>, at: Position<N>) {
    at.Inside? ==>
      && at.origin in g && at.origin in s.level && at.next <= |g[at.origin]|
      && forall j :: 0 <= j < at.next ==> g[at.origin][j] in s.visited
  }

  /** Starts that have not been dequeued as starts. */
  function Waiting<N>(r: Run<N>): nat {
    if |r.order| < |r.search.starts| then |r.search.starts| - |r.order| else 0
  }

  /** What the queue's order gives. */
  ghost predicate ByLevel<N(!new)>(g: EdgeMap<N>, r: Run<N>, at: Position<N>) {
    && Layered(g, r.search, at.Current(), Waiting(r), r.base) && Ordered(g, r) && QueueKept(g, r)
    && (at.Inside? ==> AtBase(r.search, at.origin, r.base))
  }

  ghost predicate RunInv<N(!new)>(g: EdgeMap<N>, r: Run<N>, at: Position<N>) {
    && Closed(g) && Inv(g, r.search, at.Current()) && Passed(g, r.search, at)
    && Traced(g, r, at) && Counted(r, at.Current()) && Firsts(g, r.log, r.search) && Truthful(g, r.log, r.search)
    && ByLevel(g, r, at)
  }

  lemma BeginByLevel<N(!new)>(g: EdgeMap<N>, r: Run<N>)
    requires ByLevel(g, r, Between) && r.search.pending != [] && r.search.pending[0] in r.search.level
    requires r.search.pending[0] in r.search.starts ==> r.search.level[r.search.pending[0]] == 0
    ensures ByLevel(g, Begun(r), Inside(r.search.pending[0], 0))
  {
    hide Layered, QueueKept, FirstIsDeeper;
    BeginLayer(g, r.search, Waiting(r), r.base);
    BeginQueueKept(g, r);
    hide AtBase;
    var r' := Begun(r);
    forall i | 0 <= i < |r.log| && r.log[i].first
      ensures FirstIsDeeper(g, r'.search, r.log[i])
    {
      SameFirst(g, r.search, r'.search, r.log[i]);
    }
  }

  lemma SameFirst<N>(g: EdgeMap<N>, s: Search<N>, s': Search<N>, e: Event<N>)
    requires s.level == s'.level && s.starts == s'.starts && EventOf(g, e) && e.origin in s.level
    ensures FirstIsDeeper(g, s', e) == FirstIsDeeper(g, s, e)
  {
  }

  lemma BeginRun<N(!new)>(g: EdgeMap<N>, r: Run<N>)
    requires RunInv(g, r, Between) && r.search.pending != []
    ensures r.search.pending[0] in r.search.level && r.search.pending[0] in g
    ensures RunInv(g, Begun(r), Inside(r.search.pending[0], 0))
  {
    hide Admitted, Complete, Sound, Traced, Counted, ByLevel, MetBefore;
    BeginNode(g, r.search);
    BeginTraced(g, r);
    BeginCounted(r);
    BeginByLevel(g, r);
    hide Bounds;
  }

  lemma SeeByLevel<N(!new)>(g: EdgeMap<N>, r: Run<N>, u: N, k: nat, reply: Reply)
    requires ByLevel(g, r, Inside(u, k)) && u in g && k < |g[u]| && Bounds(g, r.search) && Firsts(g, r.log, r.search)
    requires forall v, j :: v in r.search.expanded && v in g && 0 <= j < |g[v]| ==> g[v][j] in r.search.visited
    ensures ByLevel(g, Seen(g, r, u, k, reply), Inside(u, k + 1))
  {
    hide Layered, Ordered, QueueKept, Firsts;
    var n := g[u][k];
    if n !in r.search.visited {
      VisitKeepsLayers(g, r.search, u, n, reply.abandon, Waiting(r), r.base);
    }
    SeeOrdered(g, r, u, k, reply);
    SeeQueueKept(g, r, u, k, reply);
  }

  lemma SeeRun<N(!new)>(g: EdgeMap<N>, r: Run<N>, u: N, k: nat, reply: Reply)
    requires RunInv(g, r, Inside(u, k)) && k < |g[u]|
    ensures RunInv(g, Seen(g, r, u, k, reply), Inside(u, k + 1))
  {
    hide Traced, Counted, Firsts, Truthful, Sound, Admitted, ByLevel;
    assert Bounds(g, r.search);
    SeeTraced(g, r, u, k, reply);
    SeeCounted(g, r, u, k, reply);
    SeeFirsts(g, r, u, k, reply);
    SeeTruthful(g, r, u, k, reply);
    SeeByLevel(g, r, u, k, reply);
    if g[u][k] !in r.search.visited {
      VisitKeepsInv(g, r.search, u, g[u][k], reply.abandon);
    }
    hide Complete, Bounds;
  }

  lemma FinishByLevel<N(!new)>(g: EdgeMap<N>, r: Run<N>, u: N)
    requires u in g && ByLevel(g, r, Inside(u, |g[u]|)) && Bounds(g, r.search)
    requires forall k :: 0 <= k < |g[u]| ==> g[u][k] in r.search.visited
    ensures ByLevel(g, Done(r, u), Between)
  {
    hide Layered, QueueKept, FirstIsDeeper;
    var r' := Done(r, u);
    FinishLayer(g, r.search, u, Waiting(r), r.base);
    hide AtBase;
    forall i | 0 <= i < |r.log| && r.log[i].first
      ensures FirstIsDeeper(g, r'.search, r.log[i])
    {
      SameFirst(g, r.search, r'.search, r.log[i]);
    }
    assert QueueKept(g, r') by { SameQueue(g, r, r'); }
  }

  lemma SameQueue<N>(g: EdgeMap<N>, r: Run<N>, r': Run<N>)
    requires QueueKept(g, r) && r'.order == r.order && r'.log == r.log && r'.search.pending == r.search.pending
    requires r'.search.starts == r.search.starts && r'.search.abandoned == r.search.abandoned
    ensures QueueKept(g, r')
  {
  }

  lemma FinishRun<N(!new)>(g: EdgeMap<N>, r: Run<N>, u: N)
    requires u in g && RunInv(g, r, Inside(u, |g[u]|))
    ensures RunInv(g, Done(r, u), Between)
  {
    hide Admitted, Complete, Sound, Traced, Counted, Firsts, Truthful, ByLevel;
    FinishNode(g, r.search, u);
    FinishTraced(g, r, u);
    FinishCounted(r, u);
    FirstsIgnoresExpanded(g, r, u);
    FinishByLevel(g, r, u);
    hide Bounds;
  }

  lemma FirstsIgnoresExpanded<N(!new)>(g: EdgeMap<N>, r: Run<N>, u: N)
    requires Firsts(g, r.log, r.search) && Truthful(g, r.log, r.search)
    ensures Firsts(g, r.log, Done(r, u).search) && Truthful(g, r.log, Done(r, u).search)
  {
    hide MetBefore, FirstInto;
  }

  lemma InsideOrigin<N(!new)>(g: EdgeMap<N>, r: Run<N>, u: N, k: nat)
    requires RunInv(g, r, Inside(u, k))
    ensures u in g && u in r.search.level && k <= |g[u]|
  {
  }

  lemma VisitedInside<N(!new)>(g: EdgeMap<N>, r: Run<N>)
    requires RunInv(g, r, Between)
    ensures r.search.visited <= g.Keys
  {
  }

  predicate SameStarts<N>(s: Search<N>, t: Search<N>) {
    s.starts == t.starts && s.marked == t.marked
  }

  // ---------- Starting ----------

  function Started<N>(r: Run<N>, n: N, mark: bool): Run<N> {
    var s := r.search;
    r.(search := s.(starts := s.starts + [n], pending := s.pending + [n], level := s.level[n := 0],
                    marked := if mark then s.marked + {n} else s.marked,
                    visited := if mark then s.visited + {n} else s.visited))
  }

  lemma StartedFacts<N>(r: Run<N>, n: N, mark: bool)
    ensures var r' := Started(r, n, mark);
            && r'.log == r.log && r'.search.pending == r.search.pending + [n]
            && r'.search.visited == r.search.visited + if mark then {n} else {}
  {
  }

  function NoStarts<N>(): Run<N> {
    Run(Search([], {}, {}, [], {}, {}, map[]), [], [], 0)
  }

  /** A traversal that has only been given starts. */
  ghost predicate Fresh<N(!new)>(g: EdgeMap<N>, r: Run<N>) {
    && Closed(g) && r.order == [] && r.log == [] && r.base == 0
    && r.search.expanded == {} && r.search.abandoned == {} && r.search.pending == r.search.starts
    && r.search.visited == r.search.marked
    && (forall u :: u in r.search.marked ==> u in r.search.starts)
    && (forall u :: u in r.search.level <==> u in r.search.starts)
    && (forall u :: u in r.search.level ==> u in g && r.search.level[u] == 0)
  }

  lemma StartKeepsFresh<N(!new)>(g: EdgeMap<N>, r: Run<N>, n: N, mark: bool)
    requires Fresh(g, r) && n in g
    ensures Fresh(g, Started(r, n, mark))
  {
    assert forall u :: u in r.search.starts + [n] <==> u in r.search.starts || u == n;
  }

  lemma FreshSearch<N(!new)>(g: EdgeMap<N>, r: Run<N>)
    requires Fresh(g, r)
    ensures Inv(g, r.search, {})
  {
    forall u | u in r.search.level
      ensures ReachedIn(g, r.search.starts, r.search.Open(), u, r.search.level[u])
    {
      StartReached(g, r.search.starts, r.search.Open(), u);
    }
    hide ReachedIn;
  }

  lemma FreshCounted<N(!new)>(g: EdgeMap<N>, r: Run<N>)
    requires Fresh(g, r)
    ensures Counted(r, {}) && Traced(g, r, Between) && Firsts(g, r.log, r.search) && Truthful(g, r.log, r.search)
  {
    assert r.order + r.search.pending == r.search.starts;
    if AllMarked(r.search) {
      assert forall u :: u in r.search.starts ==> u in r.search.marked;
    }
  }

  lemma FreshByLevel<N(!new)>(g: EdgeMap<N>, r: Run<N>)
    requires Fresh(g, r)
    ensures ByLevel(g, r, Between)
  {
    hide InTurn, QueueKept;
    FreshQueue(g, r);
    FreshTurn(r.search);
    assert forall i :: 0 <= i < |r.search.pending| ==> r.search.pending[i] in r.search.starts;
  }

  lemma FreshQueue<N>(g: EdgeMap<N>, r: Run<N>)
    requires r.order == [] && r.log == [] && r.search.pending == r.search.starts
    ensures QueueKept(g, r)
  {
    assert [] + r.search.starts == r.search.starts + [];
  }

  lemma FreshTurn<N>(s: Search<N>)
    requires s.pending == s.starts
    ensures InTurn(s, {}, |s.starts|)
  {
  }

  lemma FreshRun<N(!new)>(g: EdgeMap<N>, r: Run<N>)
    requires Fresh(g, r)
    ensures RunInv(g, r, Between)
  {
    hide Inv, Counted, Traced, Firsts, Truthful, ByLevel;
    FreshSearch(g, r);
    FreshCounted(g, r);
    FreshByLevel(g, r);
    hide Fresh;
  }

  // ---------- What a completed traversal has shown its handler ----------

  ghost predicate Completed<N(!new)>(g: EdgeMap<N>, r: Run<N>) {
    RunInv(g, r, Between) && r.search.pending == []
  }

  lemma CompletedLayers<N(!new)>(g: EdgeMap<N>, r: Run<N>)
    requires Completed(g, r)
    ensures Inv(g, r.search, {}) && r.search.pending == [] && Layered(g, r.search, {}, 0, r.base) && Ordered(g, r)
  {
    hide Inv, Ordered, Traced, Counted, Firsts, QueueKept;
  }

  /**
   The level of every origin is its distance from the starts, and the first edge into any node but a start
   ends a shortest path, both among the paths around abandoned nodes.
   */
  lemma FirstEdgesEndShortestPaths<N(!new)>(g: EdgeMap<N>, r: Run<N>, i: nat) returns (d: nat)
    requires Completed(g, r) && i < |r.log|
    ensures EventOf(g, r.log[i]) && IsDistance(g, r.search.starts, r.search.abandoned, r.log[i].origin, d)
    ensures r.log[i].first && Referent(g, r.log[i]) !in r.search.starts ==>
              IsDistance(g, r.search.starts, r.search.abandoned, Referent(g, r.log[i]), d + 1)
    ensures r.log[i].origin in r.search.level && d == r.search.level[r.log[i].origin]
  {
    hide Inv, IsDistance, Layered, Completed;
    CompletedLayers(g, r);
    d := r.search.level[r.log[i].origin];
    FinishedDistances(g, r.search, r.base, r.log[i].origin);
    if r.log[i].first && Referent(g, r.log[i]) !in r.search.starts {
      assert FirstIsDeeper(g, r.search, r.log[i]);
      FinishedDistances(g, r.search, r.base, Referent(g, r.log[i]));
    }
  }

  lemma DistanceIsUnique<N(!new)>(g: EdgeMap<N>, starts: seq<N>, abandoned: set<N>, n: N, d: nat, e: nat)
    requires IsDistance(g, starts, abandoned, n, d) && IsDistance(g, starts, abandoned, n, e)
    ensures d == e
  {
    var p :| |p| == d + 1 && Unabandoned(g, starts, abandoned, p, n);
    var q :| |q| == e + 1 && Unabandoned(g, starts, abandoned, q, n);
  }

  /** Nodes expanded: with abandoned nodes aside, the starts and the newly visited nodes, each start as often as it was added. */
  lemma DequeuesAreBounded<N(!new)>(g: EdgeMap<N>, r: Run<N>)
    requires Completed(g, r)
    ensures |r.order| + |r.search.abandoned| == |r.search.starts| + |r.search.visited - r.search.marked|
    ensures forall u :: u in r.order <==> u in r.search.starts || u in r.search.Open()
    ensures AllMarked(r.search) && Graphs.NoRepeats(r.search.starts) ==> Graphs.NoRepeats(r.order)
  {
    hide Traced, Firsts, ByLevel, Sound;
    assert r.search.visited == r.search.marked + (r.search.visited - r.search.marked);
    assert r.order + r.search.pending == r.order;
  }

  /** The handler was asked about the first edge into n, and asked to abandon it. */
  ghost predicate AskedToAbandon<N>(g: EdgeMap<N>, log: seq<Event<N>>, i: nat, n: N) {
    && i < |log| && EventOf(g, log[i]) && Referent(g, log[i]) == n && log[i].reply.abandon
    && forall j :: 0 <= j < i && EventOf(g, log[j]) ==> Referent(g, log[j]) != n
  }

  /** A node that was not marked is abandoned exactly when the handler asked for it at the first edge into it. */
  lemma AbandonedExactly<N(!new)>(g: EdgeMap<N>, r: Run<N>, at: Position<N>, n: N)
    requires RunInv(g, r, at)
    ensures n in r.search.abandoned <==> n !in r.search.marked && exists i: nat :: AskedToAbandon(g, r.log, i, n)
  {
    hide Traced, Counted, ByLevel, Sound, Admitted, Complete;
    if n in r.search.abandoned {
      assert FirstInto(g, r.log, n);
      var i :| 0 <= i < |r.log| && EventOf(g, r.log[i]) && r.log[i].first && Referent(g, r.log[i]) == n;
      forall j | 0 <= j < i
        ensures Referent(g, r.log[j]) != n
      {
        assert !SameReferent(g, r.log[j], r.log[i]);
      }
      assert AskedToAbandon(g, r.log, i, n);
    }
    if i: nat :| n !in r.search.marked && AskedToAbandon(g, r.log, i, n) {
      FirstAskedIsFirst(g, r.log, i, n);
      assert r.log[i].first;
    }
  }

  lemma FirstAskedIsFirst<N>(g: EdgeMap<N>, log: seq<Event<N>>, i: nat, n: N)
    requires AskedToAbandon(g, log, i, n)
    ensures !MetBefore(g, log, i)
  {
  }

  /** The flag each call was given: true for the first edge into a node that was not marked, and only then. */
  lemma FirstExactly<N(!new)>(g: EdgeMap<N>, r: Run<N>, at: Position<N>, i: nat)
    requires RunInv(g, r, at) && i < |r.log|
    ensures EventOf(g, r.log[i])
    ensures r.log[i].first <==>
            && Referent(g, r.log[i]) !in r.search.marked
            && forall j :: 0 <= j < i && EventOf(g, r.log[j]) ==> Referent(g, r.log[j]) != Referent(g, r.log[i])
  {
    hide Inv, Traced, Counted, ByLevel, Firsts;
    if !MetBefore(g, r.log, i) {
      forall j | 0 <= j < i && EventOf(g, r.log[j])
        ensures Referent(g, r.log[j]) != Referent(g, r.log[i])
      {
        assert !SameReferent(g, r.log[j], r.log[i]);
      }
    }
  }

  // ---------- Unmarked starts ----------

  /** Nodes 0 and 1 point at each other; 0 is the only start and was not marked visited. */
  function Pair(): EdgeMap<nat> { map[0 := [1], 1 := [0]] }

  /** The search of Pair from 0 when p is queued, v visited, x expanded and l the levels. */
  function PairSearch(v: set<nat>, p: seq<nat>, x: set<nat>, l: map<nat, nat>): Search<nat> {
    Search([0], {}, v, p, x, {}, l)
  }

  /** A node of Pair is expanded: its one edge is seen and followed. */
  function PairStep(r: Run<nat>): Run<nat>
    requires r.search.pending != [] && r.search.pending[0] in r.search.level && r.search.pending[0] in Pair()
  {
    var u := r.search.pending[0];
    Done(Seen(Pair(), Begun(r), u, 0, GO_ON), u)
  }

  lemma PairStepKeepsInv(r: Run<nat>)
    requires RunInv(Pair(), r, Between) && r.search.pending != []
    ensures r.search.pending[0] in r.search.level && r.search.pending[0] in Pair()
    ensures RunInv(Pair(), PairStep(r), Between)
  {
    hide RunInv;
    BeginRun(Pair(), r);
    var u := r.search.pending[0];
    SeeRun(Pair(), Begun(r), u, 0, GO_ON);
    FinishRun(Pair(), Seen(Pair(), Begun(r), u, 0, GO_ON), u);
  }

  /**
   The traversal of Pair from its unmarked start 0 meets 0 again as a first visit and expands it
   once more, after node 1, which is further from the start.
   */
  lemma UnmarkedStartBreaksOrder() returns (r: Run<nat>)
    ensures Completed(Pair(), r) && r.search.starts == [0] && r.search.abandoned == {}
    ensures r.log == [Event(0, 0, true, GO_ON), Event(1, 0, true, GO_ON), Event(0, 0, false, GO_ON)]
    ensures IsDistance(Pair(), [0], {}, 1, 1) && IsDistance(Pair(), [0], {}, 0, 0)
  {
    hide RunInv, IsDistance;
    var r2 := PairBegins();
    PairStepKeepsInv(r2);
    r := PairStep(r2);
    assert r.search.pending == [];
    PairDistances();
  }

  lemma PairBegins() returns (r: Run<nat>)
    ensures RunInv(Pair(), r, Between)
    ensures r == Run(PairSearch({1, 0}, [0], {0, 1}, map[0 := 0, 1 := 1]), [0, 1], [Event(0, 0, true, GO_ON), Event(1, 0, true, GO_ON)], 1)
  {
    hide RunInv;
    var r0 := Started(NoStarts(), 0, false);
    assert r0 == Run(PairSearch({}, [0], {}, map[0 := 0]), [], [], 0);
    FreshRun(Pair(), r0);
    PairStepKeepsInv(r0);
    var r1 := PairStep(r0);
    assert r1 == Run(PairSearch({1}, [1], {0}, map[0 := 0, 1 := 1]), [0], [Event(0, 0, true, GO_ON)], 0);
    PairStepKeepsInv(r1);
    r := PairStep(r1);
  }

  lemma PairDistances()
    ensures IsDistance(Pair(), [0], {}, 1, 1) && IsDistance(Pair(), [0], {}, 0, 0)
  {
    assert Unabandoned(Pair(), [0], {}, [0], 0);
    assert Unabandoned(Pair(), [0], {}, [0, 1], 1);
  }
}
