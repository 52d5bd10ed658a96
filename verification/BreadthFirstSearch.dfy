/**
 The traversal object of js/public/UbiNodeBreadthFirst.h and its two-vector queue. Each method
 says what it makes of the abstract search; BreadthFirstRuns says what a whole traversal amounts to.
 */
module BreadthFirstSearch {
  import opened HeapGraphs
  import opened BreadthFirstRuns

  class Queue<T> {
    var head: seq<T>
    var tail: seq<T>
    var frontIndex: nat

    ghost predicate Valid()
      reads this
    {
      if frontIndex == 0 then tail == [] else frontIndex < |head|
    }

    ghost function Contents(): seq<T>
      requires Valid()
      reads this
    {
      head[frontIndex..] + tail
    }

    constructor ()
      ensures Valid() && Contents() == []
    {
      head, tail, frontIndex := [], [], 0;
    }

    predicate Empty()
      requires Valid()
      reads this
      ensures Empty() <==> Contents() == []
    {
      frontIndex >= |head|
    }

    function Front(): (x: T)
      requires Valid() && !Empty()
      reads this
      ensures x == Contents()[0]
    {
      head[frontIndex]
    }

    method PopFront()
      requires Valid() && !Empty()
      modifies this
      ensures Valid() && Contents() == old(Contents())[1..]
    {
      frontIndex := frontIndex + 1;
      if frontIndex >= |head| {
        head := [];
        head, tail := tail, head;
        frontIndex := 0;
      }
    }

    /** Appending may run out of memory, which leaves the queue as it was. */
    method Append(elt: T) returns (ok: bool)
      requires Valid()
      modifies this
      ensures Valid() && Contents() == if ok then old(Contents()) + [elt] else old(Contents())
    {
      ok := *;
      if ok {
        if frontIndex == 0 {
          head := head + [elt];
        } else {
          tail := tail + [elt];
        }
      }
    }
  }

  /** What became of one edge. */
  datatype Outcome = OutOfMemory | Failed | Stopped | Went

  class BreadthFirst<N(==,!new)> {
    const edges: EdgeMap<N>
    const handler: Handler<N>
    var visited: set<N>
    const pending: Queue<N>
    var traversalBegun: bool
    var stopRequested: bool
    var abandonRequested: bool
    /** The calls of the handler so far. */
    var calls: seq<Event<N>>
    ghost var run: Run<N>
    /** How often memory has run out or the handler failed. */
    ghost var failures: nat

    /** The fields hold the search that run describes, and no call has ended the traversal. */
    ghost predicate Valid()
      reads this, pending
    {
      && pending.Valid() && pending.Contents() == run.search.pending && visited == run.search.visited
      && calls == run.log && Answered(handler, calls) && WentOn(calls)
      && !stopRequested && !abandonRequested
    }

    constructor (g: EdgeMap<N>, handler: Handler<N>)
      requires Closed(g)
      ensures edges == g && this.handler == handler && failures == 0
      ensures Valid() && !traversalBegun && Fresh(g, run) && run == NoStarts()
      ensures fresh(pending)
    {
      edges, this.handler := g, handler;
      visited := {};
      pending := new Queue<N>();
      traversalBegun, stopRequested, abandonRequested := false, false, false;
      calls, run, failures := [], NoStarts(), 0;
    }

    method Allocate() returns (ok: bool)
      modifies this`failures
      ensures failures == old(failures) + if ok then 0 else 1
    {
      ok := *;
      if !ok {
        failures := failures + 1;
      }
    }

    method Enqueue(node: N) returns (ok: bool)
      requires pending.Valid()
      modifies this`failures, pending
      ensures pending.Valid() && pending.Contents() == if ok then old(pending.Contents()) + [node] else old(pending.Contents())
      ensures failures == old(failures) + if ok then 0 else 1
    {
      ok := pending.Append(node);
      if !ok {
        failures := failures + 1;
      }
    }

    method AddStart(node: N) returns (ok: bool)
      requires Valid() && Fresh(edges, run) && node in edges && !traversalBegun
      modifies this`run, this`failures, pending
      ensures Valid() && Fresh(edges, run)
      ensures run == if ok then Started(old(run), node, false) else old(run)
      ensures ok <==> failures == old(failures)
    {
      ok := Enqueue(node);
      if ok {
        StartKeepsFresh(edges, run, node, false);
        run := Started(run, node, false);
      }
    }

    /** The node is entered in the visited table, unless it is there. */
    method Mark(node: N) returns (ok: bool)
      modifies this`visited, this`failures
      ensures visited == if ok then old(visited) + {node} else old(visited)
      ensures failures == old(failures) + if ok then 0 else 1
    {
      if node !in visited {
        ok := Allocate();
        if !ok {
          return;
        }
        visited := visited + {node};
      }
      ok := true;
    }

    /** On failure nothing is promised but that no other node was marked. */
    method AddStartVisited(node: N) returns (ok: bool)
      requires Valid() && Fresh(edges, run) && node in edges && !traversalBegun
      modifies this`visited, this`run, this`failures, pending
      ensures ok ==> Valid() && Fresh(edges, run) && run == Started(old(run), node, true)
      ensures !ok ==> run == old(run) && (visited == old(visited) || visited == old(visited) + {node})
      ensures !ok ==> pending.Valid() && pending.Contents() == old(pending.Contents())
      ensures ok <==> failures == old(failures)
    {
      hide Fresh, Answered, WentOn, Started;
      StartedFacts(run, node, true);
      var marked := Mark(node);
      if !marked {
        return false;
      }
      ok := Enqueue(node);
      if ok {
        StartKeepsFresh(edges, run, node, true);
        run := Started(run, node, true);
      }
    }

    method Stop()
      modifies this`stopRequested
      ensures stopRequested
    {
      stopRequested := true;
    }

    method AbandonReferent()
      modifies this`abandonRequested
      ensures abandonRequested
    {
      abandonRequested := true;
    }

    /** The handler is called: it may stop the traversal, abandon the referent, do both, and fail. */
    method CallHandler(origin: N, k: nat, first: bool) returns (ok: bool)
      modifies this`stopRequested, this`abandonRequested, this`calls, this`failures
      ensures var reply := handler(old(calls), origin, k, first);
              && calls == old(calls) + [Event(origin, k, first, reply)] && ok == reply.ok
              && stopRequested == (old(stopRequested) || reply.stop) && abandonRequested == (old(abandonRequested) || reply.abandon)
      ensures failures == old(failures) + if ok then 0 else 1
    {
      var reply := handler(calls, origin, k, first);
      calls := calls + [Event(origin, k, first, reply)];
      if reply.stop { Stop(); }
      if reply.abandon { AbandonReferent(); }
      ok := reply.ok;
      if !ok {
        failures := failures + 1;
      }
    }

    /** How the traversal of one edge ended: after what the handler replied, if it was called. */
    ghost predicate EndsWith(outcome: Outcome, reply: Reply) {
      match outcome
      case Failed => !reply.ok
      case Stopped => reply.ok && reply.stop
      case OutOfMemory => reply.ok && !reply.stop && !reply.abandon
      case Went => reply.ok && !reply.stop
    }

    /** As Valid says, but for the referent of an edge, which has been marked visited before the handler is called. */
    ghost predicate Marked(origin: N, k: nat, first: bool)
      reads this, pending
    {
      && pending.Valid() && pending.Contents() == run.search.pending
      && calls == run.log && Answered(handler, calls) && WentOn(calls)
      && !stopRequested && !abandonRequested
      && origin in edges && k < |edges[origin]| && visited == run.search.visited + {edges[origin][k]}
      && (first <==> edges[origin][k] !in run.search.visited)
    }

    /** What becomes of the referent once the handler has returned without failing. */
    method FollowUp(referent: N, first: bool) returns (outcome: Outcome)
      requires pending.Valid()
      modifies this`abandonRequested, this`failures, pending
      ensures !outcome.Failed? && (outcome.Stopped? <==> stopRequested)
      ensures outcome.OutOfMemory? ==> first && !old(abandonRequested)
      ensures outcome.Went? ==>
                && !abandonRequested && pending.Valid()
                && pending.Contents() == old(pending.Contents()) + if first && !old(abandonRequested) then [referent] else []
      ensures failures == old(failures) + if outcome.OutOfMemory? then 1 else 0
    {
      if stopRequested {
        return Stopped;
      }
      if abandonRequested {
        abandonRequested := false;
      } else if first {
        var appended := Enqueue(referent);
        if !appended {
          return OutOfMemory;
        }
      }
      outcome := Went;
    }

    /** The handler is called for the edge, and its referent queued unless it asked otherwise. */
    method Report(origin: N, k: nat, first: bool) returns (outcome: Outcome)
      requires Marked(origin, k, first) && RunInv(edges, run, Inside(origin, k))
      modifies this`stopRequested, this`abandonRequested, this`calls, this`run, this`failures, pending
      ensures EndedBy(outcome)
      ensures var reply := handler(old(calls), origin, k, first);
              && origin in run.search.level && origin in old(run).search.level
              && EndsWith(outcome, reply) && run == Seen(edges, old(run), origin, k, reply) && stopRequested == reply.stop
      ensures outcome.Went? ==> Valid()
      ensures RunInv(edges, run, Inside(origin, k + 1)) && run != old(run)
      ensures outcome.Went? || outcome.Stopped? <==> failures == old(failures)
    {
      hide RunInv, Answered, WentOn, Seen, Closed, SameStarts;
      ghost var reply := handler(calls, origin, k, first);
      ReportedRun(edges, handler, run, origin, k, reply);
      run := Seen(edges, run, origin, k, reply);
      var ok := CallHandler(origin, k, first);
      if !ok {
        return Failed;
      }
      outcome := FollowUp(edges[origin][k], first);
    }

    method TraverseEdge(origin: N, k: nat) returns (outcome: Outcome)
      requires Valid() && RunInv(edges, run, Inside(origin, k)) && k < |edges[origin]|
      modifies this`visited, this`stopRequested, this`abandonRequested, this`calls, this`run, this`failures, pending
      ensures EndedBy(outcome)
      ensures var reply := handler(old(calls), origin, k, edges[origin][k] !in old(visited));
              || (outcome.OutOfMemory? && run == old(run) && !stopRequested)
              || (EndsWith(outcome, reply) && run == Seen(edges, old(run), origin, k, reply) && stopRequested == reply.stop)
      ensures outcome.Went? ==> Valid()
      ensures run != old(run) ==> RunInv(edges, run, Inside(origin, k + 1))
      ensures outcome.Went? ==> run != old(run)
      ensures outcome.Went? || outcome.Stopped? <==> failures == old(failures)
    {
      hide RunInv, Answered, WentOn, Seen;
      InsideOrigin(edges, run, origin, k);
      var referent := edges[origin][k];
      var first := referent !in visited;
      var added := Mark(referent);
      if !added {
        return OutOfMemory;
      }
      outcome := Report(origin, k, first);
    }

    /** All of an origin's edges, until one fails or stops the traversal. */
    method TraverseEdges(origin: N) returns (outcome: Outcome)
      requires Valid() && RunInv(edges, run, Inside(origin, 0))
      modifies this`visited, this`stopRequested, this`abandonRequested, this`calls, this`run, this`failures, pending
      ensures origin in edges
      ensures outcome.Went? ==> Valid() && RunInv(edges, run, Inside(origin, |edges[origin]|))
      ensures !outcome.Went? ==> exists k: nat :: RunInv(edges, run, Inside(origin, k))
      ensures outcome.Went? || outcome.Stopped? <==> failures == old(failures)
      ensures EndedBy(outcome)
      ensures old(run.search.visited) <= run.search.visited
      ensures run.search.visited == old(run.search.visited) ==> run.search.pending == old(run.search.pending)
      ensures SameStarts(old(run.search), run.search)
    {
      hide RunInv, Answered, WentOn;
      InsideOrigin(edges, run, origin, 0);
      var k := 0;
      while k < |edges[origin]|
        invariant k <= |edges[origin]|
        invariant Valid() && RunInv(edges, run, Inside(origin, k)) && failures == old(failures)
        invariant old(run.search.visited) <= run.search.visited
        invariant run.search.visited == old(run.search.visited) ==> run.search.pending == old(run.search.pending)
        invariant SameStarts(old(run.search), run.search)
      {
        InsideOrigin(edges, run, origin, k);
        outcome := TraverseEdge(origin, k);
        if !outcome.Went? {
          return;
        }
        k := k + 1;
      }
      outcome := Went;
    }

    /** The calls are those logged; none but the last failed or stopped the traversal, and the last as outcome says. */
    ghost predicate EndedBy(outcome: Outcome)
      reads this
    {
      && calls == run.log && Answered(handler, calls)
      && match outcome
         case Went => WentOn(calls) && !stopRequested
         case OutOfMemory => WentOn(calls) && !stopRequested
         case Stopped => calls != [] && WentOn(calls[..|calls| - 1]) && Last(calls).ok && Last(calls).stop && stopRequested
         case Failed => calls != [] && WentOn(calls[..|calls| - 1]) && !Last(calls).ok
    }

    /** The next node of the queue, with all its edges. */
    method ExpandNext() returns (ended: Outcome)
      requires Valid() && RunInv(edges, run, Between) && !pending.Empty()
      modifies this`visited, this`stopRequested, this`abandonRequested, this`calls, this`run, this`failures, pending
      ensures EndedBy(ended)
      ensures ended.Went? || ended.Stopped? <==> failures == old(failures)
      ensures ended.Went? ==> Valid() && RunInv(edges, run, Between)
      ensures exists at :: RunInv(edges, run, at)
      ensures ended.Went? ==>
                && old(visited) <= visited <= edges.Keys
                && (visited == old(visited) ==> |run.search.pending| < old(|run.search.pending|))
      ensures SameStarts(old(run.search), run.search)
    {
      hide RunInv, Answered, WentOn;
      var origin := pending.Front();
      BeginRun(edges, run);
      pending.PopFront();
      run := Begun(run);
      var rangeMade := Allocate();
      if !rangeMade {
        return OutOfMemory;
      }
      ended := TraverseEdges(origin);
      if ended.Went? {
        FinishRun(edges, run, origin);
        VisitedInside(edges, Done(run, origin));
        run := Done(run, origin);
      }
    }

    /**
     Returns false exactly when memory runs out or the handler fails. A traversal that neither failed nor was
     stopped has completed; any traversal has kept the invariant of its run, and called the handler as logged.
     */
    method Traverse() returns (ok: bool, ghost outcome: Outcome)
      requires Valid() && Fresh(edges, run) && !traversalBegun
      modifies this, pending
      ensures ok <==> failures == old(failures)
      ensures ok <==> outcome.Went? || outcome.Stopped?
      ensures EndedBy(outcome)
      ensures outcome.Went? ==> Valid() && Completed(edges, run)
      ensures exists at :: RunInv(edges, run, at)
      ensures SameStarts(old(run.search), run.search)
    {
      hide RunInv, Answered, WentOn, Fresh;
      traversalBegun := true;
      FreshRun(edges, run);
      while !pending.Empty()
        invariant Valid() && RunInv(edges, run, Between) && failures == old(failures)
        invariant SameStarts(old(run.search), run.search)
        decreases edges.Keys - visited, |run.search.pending|
      {
        var ended := ExpandNext();
        match ended {
          case Stopped => return true, Stopped;
          case OutOfMemory => return false, OutOfMemory;
          case Failed => return false, Failed;
          case Went =>
        }
      }
      return true, Went;
    }
  }

  /** What the run is after the handler's reply to the call for the k-th edge of origin. */
  lemma ReportedRun<N(!new)>(g: EdgeMap<N>, handler: Handler<N>, r: Run<N>, origin: N, k: nat, reply: Reply)
    requires RunInv(g, r, Inside(origin, k)) && origin in g && k < |g[origin]|
    requires Answered(handler, r.log) && WentOn(r.log) && reply == handler(r.log, origin, k, g[origin][k] !in r.search.visited)
    ensures origin in r.search.level
    ensures var r', n := Seen(g, r, origin, k, reply), g[origin][k];
            var first := n !in r.search.visited;
            && RunInv(g, r', Inside(origin, k + 1)) && origin in r'.search.level && r' != r
            && r'.log == r.log + [Event(origin, k, first, reply)] && r'.search.visited == r.search.visited + {n}
            && r'.search.pending == r.search.pending + (if first && !reply.abandon then [n] else [])
            && Answered(handler, r'.log) && (reply.ok && !reply.stop ==> WentOn(r'.log))
            && Last(r'.log) == reply && r'.log[..|r'.log| - 1] == r.log
  {
    hide RunInv, Answered, WentOn, Seen;
    var e := Event(origin, k, g[origin][k] !in r.search.visited, reply);
    InsideOrigin(g, r, origin, k);
    SeeRun(g, r, origin, k, reply);
    SeenFacts(g, r, origin, k, reply);
    AnsweredOnce(handler, r.log, e);
    LastOfLonger(r.log, e);
    InsideOrigin(g, Seen(g, r, origin, k, reply), origin, k + 1);
  }

  lemma LastOfLonger<N>(calls: seq<Event<N>>, e: Event<N>)
    ensures Last(calls + [e]) == e.reply && (calls + [e])[..|calls + [e]| - 1] == calls
  {
  }

  /** The reply to the last call. */
  function Last<N>(calls: seq<Event<N>>): Reply
    requires calls != []
  {
    calls[|calls| - 1].reply
  }
}
