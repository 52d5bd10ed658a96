/** The traversal object of js/public/UbiNodePostOrder.h. */
module PostOrderSearch {
  import Graphs
  import opened HeapGraphs
  import opened PostOrderModel
  import opened PostOrderOrder

  class PostOrder<N(==,!new)> {
    const edges: EdgeMap<N>
    var seen: set<N>
    var stack: seq<Frame<N>>
    var traversed: bool
    /** The calls of the two visitors so far. */
    var nodes: seq<N>
    var calls: seq<(N, nat)>
    ghost var starts: seq<N>
    ghost var run: Run<N>
    /** How often memory has run out or a visitor failed. */
    ghost var failures: nat

    ghost predicate Valid()
      reads this
    {
      stack == run.stack && seen == run.seen && nodes == run.nodes && calls == run.calls
    }

    constructor (g: EdgeMap<N>)
      requires Closed(g)
      ensures edges == g && Valid() && !traversed && starts == [] && Fresh(g, starts, run) && failures == 0
    {
      edges := g;
      seen, stack, traversed := {}, [], false;
      nodes, calls := [], [];
      starts, run, failures := [], NoStarts(), 0;
      NoStartsFresh(g);
    }

    /** Whatever may fail. */
    method Attempt() returns (ok: bool)
      modifies this`failures
      ensures failures == old(failures) + if ok then 0 else 1
    {
      ok := *;
      if !ok {
        failures := failures + 1;
      }
    }

    method OnNode(node: N) returns (ok: bool)
      modifies this`nodes, this`failures
      ensures nodes == old(nodes) + [node] && failures == old(failures) + if ok then 0 else 1
    {
      nodes := nodes + [node];
      ok := Attempt();
    }

    method OnEdge(origin: N, k: nat) returns (ok: bool)
      modifies this`calls, this`failures
      ensures calls == old(calls) + [(origin, k)] && failures == old(failures) + if ok then 0 else 1
    {
      calls := calls + [(origin, k)];
      ok := Attempt();
    }

    /** Fetching or copying the edges may fail, which leaves the stack as it was. */
    method PushForTraversing(node: N) returns (ok: bool)
      requires node in edges
      modifies this`stack, this`failures
      ensures stack == if ok then old(stack) + [Frame(node, edges[node])] else old(stack)
      ensures failures == old(failures) + if ok then 0 else 1
    {
      var left := edges[node];
      ok := Attempt();
      if ok {
        stack := stack + [Frame(node, left)];
      }
    }

    method AddStart(node: N) returns (ok: bool)
      requires Valid() && Fresh(edges, starts, run) && node in edges && !traversed
      modifies this`seen, this`stack, this`starts, this`run, this`failures
      ensures ok <==> failures == old(failures)
      ensures ok ==> Valid() && Fresh(edges, starts, run) && starts == old(starts) + [node]
      ensures ok ==> run == Pushed(edges, old(run), node)
      ensures !ok ==> stack == old(stack) && starts == old(starts) && run == old(run)
      ensures !ok ==> seen == old(seen) || seen == old(seen) + {node}
    {
      hide Fresh;
      var put := Attempt();
      if !put {
        return false;
      }
      seen := seen + {node};
      ok := PushForTraversing(node);
      if ok {
        StartKeepsFresh(edges, starts, run, node);
        starts, run := starts + [node], Pushed(edges, run, node);
      }
    }

    /** The order invariant, for starts that are all different. */
    ghost predicate InOrder()
      reads this
    {
      Graphs.NoRepeats(starts) ==> exists turns :: OrderInv(edges, starts, run, turns)
    }

    /** The stack's top frame has no edges left. */
    method FinishNode() returns (ok: bool)
      requires Valid() && Inv(edges, starts, run) && InOrder()
      requires stack != [] && stack[|stack| - 1].edges == []
      modifies this`stack, this`run, this`nodes, this`failures
      ensures ok ==> Valid() && Inv(edges, starts, run) && InOrder() && run == NodeDone(old(run))
      ensures !ok ==> run == old(run) && nodes == NodeDone(run).nodes
      ensures ok <==> failures == old(failures)
    {
      hide Inv, OrderInv;
      ok := OnNode(stack[|stack| - 1].origin);
      if ok {
        stack := stack[..|stack| - 1];
        NodeDoneKeepsInv(edges, starts, run);
        NodeDoneInOrder(edges, starts, run);
        run := NodeDone(run);
      }
    }

    /** The last edge of the top frame is taken, visited and followed. */
    method FollowEdge() returns (ok: bool)
      requires Valid() && Inv(edges, starts, run) && InOrder()
      requires stack != [] && stack[|stack| - 1].edges != []
      modifies this`stack, this`seen, this`run, this`calls, this`failures
      ensures ok <==> failures == old(failures)
      ensures calls == EdgeTaken(old(run)).calls
      ensures ok ==> TopEdge(old(run)) in edges && run == EdgeFollowed(edges, old(run))
      ensures ok ==> Valid() && Inv(edges, starts, run) && InOrder()
      ensures !ok ==> run == old(run)
    {
      hide Inv, OrderInv;
      var top := stack[|stack| - 1];
      var referent := top.edges[|top.edges| - 1];
      EdgeFollowedKeepsInv(edges, starts, run);
      EdgeFollowedInOrder(edges, starts, run);
      stack := stack[|stack| - 1 := Frame(top.origin, top.edges[..|top.edges| - 1])];
      var visited := OnEdge(top.origin, |top.edges| - 1);
      if !visited {
        return false;
      }
      if referent !in seen {
        var added := Attempt();
        if !added {
          return false;
        }
        seen := seen + {referent};
        var pushed := PushForTraversing(referent);
        if !pushed {
          return false;
        }
      }
      run := EdgeFollowed(edges, run);
      ok := true;
    }

    /**
     Returns false exactly when memory runs out or a visitor fails. Whether it fails or not, the run stays one
     that PostOrderModel and PostOrderOrder describe, and the calls are those of the run, but for one that failed.
     */
    method Traverse() returns (ok: bool)
      requires Valid() && Fresh(edges, starts, run) && !traversed
      modifies this`traversed, this`stack, this`seen, this`run, this`nodes, this`calls, this`failures
      ensures ok <==> failures == old(failures)
      ensures Inv(edges, starts, run) && InOrder()
      ensures run.nodes <= nodes && |nodes| <= |run.nodes| + 1 && run.calls <= calls && |calls| <= |run.calls| + 1
      ensures ok ==> Valid() && Completed(edges, starts, run)
      ensures ok && Graphs.NoRepeats(starts) ==> OrderInv(edges, starts, run, 0)
    {
      hide Inv, OrderInv, Weight, Fresh;
      FreshInOrder(edges, starts, run);
      traversed := true;
      while stack != []
        invariant Valid() && Inv(edges, starts, run) && InOrder() && failures == old(failures)
        decreases edges.Keys - seen, Weight(stack)
      {
        SeenInGraph(edges, starts, run);
        var top := stack[|stack| - 1];
        ghost var before := stack;
        if top.edges == [] {
          ok := FinishNode();
          if !ok {
            return;
          }
          Lighter(before);
        } else {
          ok := FollowEdge();
          if !ok {
            return;
          }
          SeenInGraph(edges, starts, run);
          Lighter(before);
        }
      }
      ok := true;
      if Graphs.NoRepeats(starts) {
        OrderAtEnd(edges, starts, run);
      }
    }
  }

  // ---------- Termination ----------

  /** Frames and edges left on the stack. */
  function Weight<N>(stack: seq<Frame<N>>): nat {
    if stack == [] then 0 else Weight(stack[..|stack| - 1]) + 1 + |stack[|stack| - 1].edges|
  }

  lemma WeightOf<N>(rest: seq<Frame<N>>, top: Frame<N>)
    ensures Weight(rest + [top]) == Weight(rest) + 1 + |top.edges|
  {
    assert (rest + [top])[..|rest|] == rest;
  }

  lemma Lighter<N>(stack: seq<Frame<N>>)
    requires stack != []
    ensures Weight(stack[..|stack| - 1]) < Weight(stack)
    ensures var top := stack[|stack| - 1];
            top.edges != [] ==> Weight(stack[|stack| - 1 := Frame(top.origin, top.edges[..|top.edges| - 1])]) < Weight(stack)
  {
    var rest, top := SplitTop(stack);
    if top.edges != [] {
      var less := Frame(top.origin, top.edges[..|top.edges| - 1]);
      assert stack[|stack| - 1 := less] == rest + [less];
      WeightOf(rest, less);
    }
  }

  lemma SeenInGraph<N(!new)>(g: EdgeMap<N>, starts: seq<N>, r: Run<N>)
    requires Inv(g, starts, r)
    ensures r.seen <= g.Keys
  {
    hide FromStarts, AllVisits, Covered, Counted;
  }

  // ---------- The order invariant, whatever turn it is ----------

  lemma FreshInOrder<N(!new)>(g: EdgeMap<N>, starts: seq<N>, r: Run<N>)
    requires Fresh(g, starts, r)
    ensures Inv(g, starts, r) && (Graphs.NoRepeats(starts) ==> exists turns :: OrderInv(g, starts, r, turns))
  {
    hide OrderInv;
    if Graphs.NoRepeats(starts) {
      FreshOrder(g, starts, r);
    }
  }

  lemma NodeDoneInOrder<N(!new)>(g: EdgeMap<N>, starts: seq<N>, r: Run<N>)
    requires Graphs.NoRepeats(starts) ==> exists turns :: OrderInv(g, starts, r, turns)
    requires r.stack != [] && r.stack[|r.stack| - 1].edges == []
    ensures Graphs.NoRepeats(starts) ==> exists turns :: OrderInv(g, starts, NodeDone(r), turns)
  {
    hide OrderInv;
    if Graphs.NoRepeats(starts) {
      var turns :| OrderInv(g, starts, r, turns);
      NodeDoneKeepsOrder(g, starts, r, turns);
    }
  }

  lemma EdgeFollowedInOrder<N(!new)>(g: EdgeMap<N>, starts: seq<N>, r: Run<N>)
    requires Graphs.NoRepeats(starts) ==> exists turns :: OrderInv(g, starts, r, turns)
    requires r.stack != [] && r.stack[|r.stack| - 1].edges != [] && TopEdge(r) in g
    ensures Graphs.NoRepeats(starts) ==> exists turns :: OrderInv(g, starts, EdgeFollowed(g, r), turns)
  {
    hide OrderInv;
    if Graphs.NoRepeats(starts) {
      var turns :| OrderInv(g, starts, r, turns);
      EdgeFollowedKeepsOrder(g, starts, r, turns);
    }
  }

  lemma OrderAtEnd<N(!new)>(g: EdgeMap<N>, starts: seq<N>, r: Run<N>)
    requires exists turns :: OrderInv(g, starts, r, turns)
    requires r.stack == []
    ensures OrderInv(g, starts, r, 0)
  {
    hide Inv, AllSettled, TurnsOver;
    var turns :| OrderInv(g, starts, r, turns);
    assert turns == 0;
  }
}
