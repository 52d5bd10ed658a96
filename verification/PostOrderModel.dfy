/**
 The post-order traversal of js/public/UbiNodePostOrder.h: the stack of nodes with their
 edges still to follow, and the calls of the two visitors so far.
 */
module PostOrderModel {
  import Graphs
  import opened HeapGraphs

  datatype Frame<N> = Frame(origin: N, edges: seq<N>)

  /** calls holds an edge as its origin and index, as onEdge was called; nodes the calls of onNode. */
  datatype Run<N(==)> = Run(stack: seq<Frame<N>>, seen: set<N>, nodes: seq<N>, calls: seq<(N, nat)>)

  function Origins<N>(stack: seq<Frame<N>>): (s: seq<N>)
    ensures |s| == |stack| && forall i :: 0 <= i < |s| ==> s[i] == stack[i].origin
  {
    if stack == [] then [] else Origins(stack[..|stack| - 1]) + [stack[|stack| - 1].origin]
  }

  // ---------- The steps ----------

  function NoStarts<N>(): Run<N> { Run([], {}, [], []) }

  function Pushed<N>(g: EdgeMap<N>, r: Run<N>, n: N): Run<N>
    requires n in g
  {
    r.(stack := r.stack + [Frame(n, g[n])], seen := r.seen + {n})
  }

  /** The top node has no edge left: it is visited and popped. */
  function NodeDone<N>(r: Run<N>): Run<N>
    requires r.stack != []
  {
    r.(stack := r.stack[..|r.stack| - 1], nodes := r.nodes + [r.stack[|r.stack| - 1].origin])
  }

  /** The last of the top node's edges is taken and visited. */
  function EdgeTaken<N>(r: Run<N>): Run<N>
    requires r.stack != [] && r.stack[|r.stack| - 1].edges != []
  {
    var top := r.stack[|r.stack| - 1];
    var k := |top.edges| - 1;
    r.(stack := r.stack[|r.stack| - 1 := Frame(top.origin, top.edges[..k])], calls := r.calls + [(top.origin, k)])
  }

  function Followed<N>(g: EdgeMap<N>, r: Run<N>, n: N): Run<N>
    requires n in g
  {
    if n in r.seen then r else Pushed(g, r, n)
  }

  // ---------- How often nodes are visited ----------

  ghost predicate FromStarts<N(!new)>(g: EdgeMap<N>, starts: seq<N>, u: N) {
    exists s :: s in starts && Leads(g, s, u, {})
  }

  function Expected<N>(starts: seq<N>, seen: set<N>, u: N): nat {
    if u in starts then multiset(starts)[u] else if u in seen then 1 else 0
  }

  /** Visited or on the stack: a start as often as it was added, any other seen node once. */
  ghost predicate Counted<N(!new)>(starts: seq<N>, r: Run<N>) {
    && (forall u :: multiset(r.nodes)[u] + multiset(Origins(r.stack))[u] == Expected(starts, r.seen, u))
    && (forall i :: 0 <= i < |starts| ==> starts[i] in r.seen)
  }

  ghost predicate Reachable<N(!new)>(g: EdgeMap<N>, starts: seq<N>, seen: set<N>) {
    forall u :: u in seen ==> u in g && FromStarts(g, starts, u)
  }

  ghost predicate FrameOk<N>(g: EdgeMap<N>, seen: set<N>, f: Frame<N>) {
    && f.origin in g && f.origin in seen && f.edges <= g[f.origin]
    && forall k :: |f.edges| <= k < |g[f.origin]| ==> g[f.origin][k] in seen
  }

  /** Every edge that has been taken leads to a seen node. */
  ghost predicate Covered<N>(g: EdgeMap<N>, r: Run<N>) {
    && (forall i :: 0 <= i < |r.stack| ==> FrameOk(g, r.seen, r.stack[i]))
    && (forall i :: 0 <= i < |r.nodes| ==> FrameOk(g, r.seen, Frame(r.nodes[i], [])))
  }

  lemma AppendCount<N>(s: seq<N>, x: N)
    ensures multiset(s + [x]) == multiset(s) + multiset{x}
  {
  }

  lemma OriginsOfPushed<N>(stack: seq<Frame<N>>, f: Frame<N>)
    ensures Origins(stack + [f]) == Origins(stack) + [f.origin]
  {
    assert (stack + [f])[..|stack|] == stack;
  }

  lemma OriginsOfSame<N>(s: seq<Frame<N>>, t: seq<Frame<N>>)
    requires |s| == |t| && forall i :: 0 <= i < |s| ==> s[i].origin == t[i].origin
    ensures Origins(s) == Origins(t)
  {
  }

  lemma PopOrigins<N>(stack: seq<Frame<N>>)
    requires stack != []
    ensures Origins(stack) == Origins(stack[..|stack| - 1]) + [stack[|stack| - 1].origin]
  {
  }

  lemma NodeDoneCounted<N(!new)>(starts: seq<N>, r: Run<N>)
    requires Counted(starts, r) && r.stack != []
    ensures Counted(starts, NodeDone(r))
  {
    var rest := r.stack[..|r.stack| - 1];
    var u := r.stack[|r.stack| - 1].origin;
    PopOrigins(r.stack);
    AppendCount(Origins(rest), u);
    AppendCount(r.nodes, u);
    hide Origins, Expected;
  }

  lemma EdgeTakenCounted<N(!new)>(starts: seq<N>, r: Run<N>)
    requires Counted(starts, r) && r.stack != [] && r.stack[|r.stack| - 1].edges != []
    ensures Counted(starts, EdgeTaken(r))
  {
    OriginsOfSame(r.stack, EdgeTaken(r).stack);
    hide Origins, Expected;
  }

  lemma FollowedCounted<N(!new)>(g: EdgeMap<N>, starts: seq<N>, r: Run<N>, n: N)
    requires Counted(starts, r) && n in g
    ensures Counted(starts, Followed(g, r, n))
  {
    if n !in r.seen {
      OriginsOfPushed(r.stack, Frame(n, g[n]));
      AppendCount(Origins(r.stack), n);
      hide Origins;
      assert n !in starts;
    }
  }

  lemma ExpectedStart<N>(starts: seq<N>, seen: set<N>, n: N, u: N)
    requires forall v :: v in seen <==> v in starts
    ensures Expected(starts + [n], seen + {n}, u) == Expected(starts, seen, u) + if u == n then 1 else 0
  {
    AppendCount(starts, n);
    assert u in starts + [n] <==> u in multiset(starts + [n]);
    assert u in starts <==> u in multiset(starts);
  }

  lemma StartedCounted<N(!new)>(g: EdgeMap<N>, starts: seq<N>, r: Run<N>, n: N)
    requires Counted(starts, r) && n in g && r.nodes == [] && forall u :: u in r.seen ==> u in starts
    ensures Counted(starts + [n], Pushed(g, r, n))
  {
    hide Origins, Expected;
    var r' := Pushed(g, r, n);
    OriginsOfPushed(r.stack, Frame(n, g[n]));
    AppendCount(Origins(r.stack), n);
    forall u
      ensures multiset(r'.nodes)[u] + multiset(Origins(r'.stack))[u] == Expected(starts + [n], r'.seen, u)
    {
      ExpectedStart(starts, r.seen, n, u);
    }
  }

  // ---------- How often edges are visited ----------

  /** On how many frames of u the edge with index k has been taken. */
  function TakenOnStack<N(==)>(stack: seq<Frame<N>>, u: N, k: nat): nat {
    if stack == [] then 0
    else
      var top := stack[|stack| - 1];
      TakenOnStack(stack[..|stack| - 1], u, k) + if top.origin == u && |top.edges| <= k then 1 else 0
  }

  /** Every edge of a node has been visited as often as the node has, counting nodes on the stack that have passed it. */
  ghost predicate Visits<N>(g: EdgeMap<N>, r: Run<N>, u: N, k: nat) {
    multiset(r.calls)[(u, k)] == if u in g && k < |g[u]| then multiset(r.nodes)[u] + TakenOnStack(r.stack, u, k) else 0
  }

  ghost predicate AllVisits<N(!new)>(g: EdgeMap<N>, r: Run<N>) {
    forall u, k :: Visits(g, r, u, k)
  }

  lemma TakenPop<N>(rest: seq<Frame<N>>, top: Frame<N>, u: N, k: nat)
    ensures TakenOnStack(rest + [top], u, k) == TakenOnStack(rest, u, k) + if top.origin == u && |top.edges| <= k then 1 else 0
  {
    assert (rest + [top])[..|rest|] == rest;
  }

  lemma SplitTop<N>(stack: seq<Frame<N>>) returns (rest: seq<Frame<N>>, top: Frame<N>)
    requires stack != []
    ensures rest == stack[..|stack| - 1] && top == stack[|stack| - 1] && stack == rest + [top]
  {
    rest, top := stack[..|stack| - 1], stack[|stack| - 1];
  }

  lemma NodeDoneVisits<N(!new)>(g: EdgeMap<N>, r: Run<N>)
    requires AllVisits(g, r) && r.stack != [] && r.stack[|r.stack| - 1].edges == []
    ensures AllVisits(g, NodeDone(r))
  {
    var rest, top := SplitTop(r.stack);
    AppendCount(r.nodes, top.origin);
    forall u, k: nat
      ensures Visits(g, NodeDone(r), u, k)
    {
      TakenPop(rest, top, u, k);
      assert Visits(g, r, u, k);
    }
  }

  lemma EdgeTakenVisits<N(!new)>(g: EdgeMap<N>, r: Run<N>)
    requires AllVisits(g, r) && r.stack != [] && r.stack[|r.stack| - 1].edges != []
    requires r.stack[|r.stack| - 1].origin in g && r.stack[|r.stack| - 1].edges <= g[r.stack[|r.stack| - 1].origin]
    ensures AllVisits(g, EdgeTaken(r))
  {
    var rest, top := SplitTop(r.stack);
    var r' := EdgeTaken(r);
    var top' := Frame(top.origin, top.edges[..|top.edges| - 1]);
    AppendCount(r.calls, (top.origin, |top.edges| - 1));
    assert r'.stack == rest + [top'];
    forall u, k: nat
      ensures Visits(g, r', u, k)
    {
      TakenPop(rest, top, u, k);
      TakenPop(rest, top', u, k);
      hide TakenOnStack;
      assert Visits(g, r, u, k);
    }
  }

  lemma PushedVisits<N(!new)>(g: EdgeMap<N>, r: Run<N>, n: N)
    requires AllVisits(g, r) && n in g
    ensures AllVisits(g, Pushed(g, r, n))
  {
    forall u, k: nat
      ensures Visits(g, Pushed(g, r, n), u, k)
    {
      TakenPop(r.stack, Frame(n, g[n]), u, k);
      assert Visits(g, r, u, k);
    }
  }

  // ---------- Covering and reachability ----------

  lemma NodeDoneCovered<N>(g: EdgeMap<N>, r: Run<N>)
    requires Covered(g, r) && r.stack != [] && r.stack[|r.stack| - 1].edges == []
    ensures Covered(g, NodeDone(r))
  {
    assert FrameOk(g, r.seen, r.stack[|r.stack| - 1]);
  }

  lemma FrameOkWider<N>(g: EdgeMap<N>, seen: set<N>, wider: set<N>, f: Frame<N>)
    requires FrameOk(g, seen, f) && seen <= wider
    ensures FrameOk(g, wider, f)
  {
  }

  lemma PushedCovered<N>(g: EdgeMap<N>, r: Run<N>, n: N)
    requires Covered(g, r) && n in g
    ensures Covered(g, Pushed(g, r, n))
  {
    var r' := Pushed(g, r, n);
    forall i | 0 <= i < |r'.stack|
      ensures FrameOk(g, r'.seen, r'.stack[i])
    {
      if i < |r.stack| { FrameOkWider(g, r.seen, r'.seen, r.stack[i]); }
    }
    forall i | 0 <= i < |r.nodes|
      ensures FrameOk(g, r'.seen, Frame(r.nodes[i], []))
    {
      FrameOkWider(g, r.seen, r'.seen, Frame(r.nodes[i], []));
    }
  }

  /** Taking an edge and following it: the one edge more that is taken leads to a seen node. */
  lemma EdgeFollowedCovered<N>(g: EdgeMap<N>, r: Run<N>)
    requires Closed(g) && Covered(g, r) && r.stack != [] && r.stack[|r.stack| - 1].edges != []
    ensures TopEdge(r) in g && Covered(g, Followed(g, EdgeTaken(r), TopEdge(r)))
  {
    var top := r.stack[|r.stack| - 1];
    var n := TopEdge(r);
    assert FrameOk(g, r.seen, top);
    assert n == g[top.origin][|top.edges| - 1];
    var wider := r.(seen := r.seen + {n});
    forall i | 0 <= i < |r.stack|
      ensures FrameOk(g, wider.seen, r.stack[i])
    {
      FrameOkWider(g, r.seen, wider.seen, r.stack[i]);
    }
    forall i | 0 <= i < |r.nodes|
      ensures FrameOk(g, wider.seen, Frame(r.nodes[i], []))
    {
      FrameOkWider(g, r.seen, wider.seen, Frame(r.nodes[i], []));
    }
    TakeCovered(g, wider, n);
    if n in r.seen {
      assert wider == r;
    } else {
      PushedCovered(g, EdgeTaken(wider), n);
      assert Pushed(g, EdgeTaken(wider), n) == Pushed(g, EdgeTaken(r), n);
    }
  }

  function TopEdge<N>(r: Run<N>): N
    requires r.stack != [] && r.stack[|r.stack| - 1].edges != []
  {
    var edges := r.stack[|r.stack| - 1].edges;
    edges[|edges| - 1]
  }

  lemma TakeCovered<N>(g: EdgeMap<N>, r: Run<N>, n: N)
    requires Covered(g, r) && r.stack != [] && r.stack[|r.stack| - 1].edges != []
    requires n == TopEdge(r) && n in r.seen
    ensures Covered(g, EdgeTaken(r))
  {
    var top := r.stack[|r.stack| - 1];
    assert FrameOk(g, r.seen, top);
    assert n == g[top.origin][|top.edges| - 1];
    assert FrameOk(g, r.seen, EdgeTaken(r).stack[|r.stack| - 1]);
  }

  lemma FollowReachable<N(!new)>(g: EdgeMap<N>, starts: seq<N>, seen: set<N>, u: N, n: N)
    requires Reachable(g, starts, seen) && u in seen && n in g[u] && n in g
    ensures Reachable(g, starts, seen + {n})
  {
    assert FromStarts(g, starts, u);
    var s :| s in starts && Leads(g, s, u, {});
    LeadsOn(g, s, u, n, {});
  }

  // ---------- What every run keeps ----------

  ghost predicate Inv<N(!new)>(g: EdgeMap<N>, starts: seq<N>, r: Run<N>) {
    && Closed(g) && Counted(starts, r) && Covered(g, r) && Reachable(g, starts, r.seen) && AllVisits(g, r)
  }

  lemma NodeDoneKeepsInv<N(!new)>(g: EdgeMap<N>, starts: seq<N>, r: Run<N>)
    requires Inv(g, starts, r) && r.stack != [] && r.stack[|r.stack| - 1].edges == []
    ensures Inv(g, starts, NodeDone(r))
  {
    hide Closed, Counted, Covered, Reachable, AllVisits;
    NodeDoneCounted(starts, r);
    NodeDoneCovered(g, r);
    NodeDoneVisits(g, r);
  }

  /** One turn of the loop with an edge to take. */
  function EdgeFollowed<N>(g: EdgeMap<N>, r: Run<N>): Run<N>
    requires r.stack != [] && r.stack[|r.stack| - 1].edges != [] && TopEdge(r) in g
  {
    Followed(g, EdgeTaken(r), TopEdge(r))
  }

  lemma TopIsNode<N(!new)>(g: EdgeMap<N>, starts: seq<N>, r: Run<N>)
    requires Inv(g, starts, r) && r.stack != []
    ensures FrameOk(g, r.seen, r.stack[|r.stack| - 1])
    ensures r.stack[|r.stack| - 1].edges != [] ==> TopEdge(r) in g && TopEdge(r) in g[r.stack[|r.stack| - 1].origin]
  {
    hide Counted, Reachable, AllVisits;
    var top := r.stack[|r.stack| - 1];
    if top.edges != [] {
      assert TopEdge(r) == g[top.origin][|top.edges| - 1];
    }
  }

  lemma EdgeFollowedKeepsInv<N(!new)>(g: EdgeMap<N>, starts: seq<N>, r: Run<N>)
    requires Inv(g, starts, r) && r.stack != [] && r.stack[|r.stack| - 1].edges != []
    ensures TopEdge(r) in g && Inv(g, starts, EdgeFollowed(g, r))
  {
    TopIsNode(g, starts, r);
    hide Closed, Counted, Covered, Reachable, AllVisits;
    var n := TopEdge(r);
    EdgeFollowedCovered(g, r);
    EdgeTakenCounted(starts, r);
    FollowedCounted(g, starts, EdgeTaken(r), n);
    EdgeTakenVisits(g, r);
    if n !in r.seen {
      PushedVisits(g, EdgeTaken(r), n);
      FollowReachable(g, starts, r.seen, r.stack[|r.stack| - 1].origin, n);
    }
  }

  /** What has only been given starts. */
  ghost predicate Fresh<N(!new)>(g: EdgeMap<N>, starts: seq<N>, r: Run<N>) {
    && Inv(g, starts, r) && r.nodes == [] && r.calls == []
    && Origins(r.stack) == starts && (forall u :: u in r.seen ==> u in starts)
  }

  lemma StartKeepsFresh<N(!new)>(g: EdgeMap<N>, starts: seq<N>, r: Run<N>, n: N)
    requires Fresh(g, starts, r) && n in g
    ensures Fresh(g, starts + [n], Pushed(g, r, n))
  {
    hide Closed, Counted, Covered, Reachable, AllVisits, Origins;
    StartedCounted(g, starts, r, n);
    PushedCovered(g, r, n);
    PushedVisits(g, r, n);
    OriginsOfPushed(r.stack, Frame(n, g[n]));
    StartedReachable(g, starts, r.seen, n);
    assert forall u :: u in starts ==> u in starts + [n];
  }

  lemma StartedReachable<N(!new)>(g: EdgeMap<N>, starts: seq<N>, seen: set<N>, n: N)
    requires Reachable(g, starts, seen) && n in g
    ensures Reachable(g, starts + [n], seen + {n})
  {
    hide Leads;
    forall u | u in seen + {n}
      ensures u in g && FromStarts(g, starts + [n], u)
    {
      if u in seen {
        assert FromStarts(g, starts, u);
        var s :| s in starts && Leads(g, s, u, {});
        assert s in starts + [n];
      } else {
        LeadsSelf(g, n, {});
        assert n in starts + [n];
      }
    }
  }

  lemma NoStartsFresh<N(!new)>(g: EdgeMap<N>)
    requires Closed(g)
    ensures Fresh(g, [], NoStarts())
  {
  }

  // ---------- What a completed traversal amounts to ----------

  ghost predicate Completed<N(!new)>(g: EdgeMap<N>, starts: seq<N>, r: Run<N>) {
    Inv(g, starts, r) && r.stack == []
  }

  lemma CompletedSeen<N(!new)>(g: EdgeMap<N>, starts: seq<N>, r: Run<N>, u: N)
    requires Completed(g, starts, r)
    ensures u in r.seen <==> FromStarts(g, starts, u)
    ensures multiset(r.nodes)[u] == Expected(starts, r.seen, u)
  {
    hide AllVisits, Leads;
    if FromStarts(g, starts, u) {
      var s :| s in starts && Leads(g, s, u, {});
      forall v, w | v in r.seen && v in g && w in g[v]
        ensures w in r.seen
      {
        SeenIsVisited(starts, r, v);
        var i :| 0 <= i < |r.nodes| && r.nodes[i] == v;
        assert FrameOk(g, r.seen, Frame(r.nodes[i], []));
      }
      LeadsStays(g, r.seen, s, u, {});
    }
  }

  lemma SeenIsVisited<N(!new)>(starts: seq<N>, r: Run<N>, v: N)
    requires Counted(starts, r) && v in r.seen && v !in Origins(r.stack)
    ensures v in r.nodes
  {
    assert v in starts ==> v in multiset(starts);
    assert v !in multiset(Origins(r.stack));
    assert v in multiset(r.nodes);
  }

  /** onNode is called for every start as often as it was added, and once for every other reachable node. */
  lemma NodesVisited<N(!new)>(g: EdgeMap<N>, starts: seq<N>, r: Run<N>, u: N)
    requires Completed(g, starts, r)
    ensures multiset(r.nodes)[u] ==
            if u in starts then multiset(starts)[u] else if FromStarts(g, starts, u) then 1 else 0
  {
    CompletedSeen(g, starts, r, u);
  }

  /** onEdge is called for each edge as often as onNode is for its origin. */
  lemma EdgesVisited<N(!new)>(g: EdgeMap<N>, starts: seq<N>, r: Run<N>, u: N, k: nat)
    requires Completed(g, starts, r)
    ensures multiset(r.calls)[(u, k)] == if u in g && k < |g[u]| then multiset(r.nodes)[u] else 0
  {
    assert Visits(g, r, u, k);
  }

  lemma {:induction false} CountOnce<N>(s: seq<N>, x: N)
    requires Graphs.NoRepeats(s)
    ensures multiset(s)[x] == if x in s then 1 else 0
  {
    if s == [] {
    } else {
      var rest := s[..|s| - 1];
      assert s == rest + [s[|s| - 1]];
      CountOnce(rest, x);
      assert s[|s| - 1] !in rest;
    }
  }

  lemma RepeatCounts<N>(s: seq<N>, i: nat, j: nat)
    requires i < j < |s| && s[i] == s[j]
    ensures multiset(s)[s[i]] >= 2
  {
    assert s == s[..j] + [s[j]] + s[j + 1..];
    assert s[i] == s[..j][i];
    assert multiset(s[..j])[s[i]] >= 1;
  }

  /** The documentation promises one call for every reachable node: that is so exactly when no start was added twice. */
  lemma NodesVisitedOnce<N(!new)>(g: EdgeMap<N>, starts: seq<N>, r: Run<N>)
    requires Completed(g, starts, r)
    ensures Graphs.NoRepeats(starts) <==>
            forall u :: multiset(r.nodes)[u] == if FromStarts(g, starts, u) then 1 else 0
  {
    hide Inv, Leads;
    forall u
      ensures u in starts ==> FromStarts(g, starts, u)
    {
      if u in starts { LeadsSelf(g, u, {}); }
    }
    if Graphs.NoRepeats(starts) {
      forall u
        ensures multiset(r.nodes)[u] == if FromStarts(g, starts, u) then 1 else 0
      {
        NodesVisited(g, starts, r, u);
        CountOnce(starts, u);
      }
    } else {
      var i, j :| 0 <= i < j < |starts| && starts[i] == starts[j];
      RepeatCounts(starts, i, j);
      NodesVisited(g, starts, r, starts[i]);
      assert multiset(r.nodes)[starts[i]] != 1;
    }
  }
}
