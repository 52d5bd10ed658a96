/** tarjan of config/check_spidermonkey_style.py, on the mutable dictionaries and lists it uses. */
module TarjanSearch {
  import opened Graphs
  import opened TarjanModel

  class Tarjan<V(==, !new)> {
    const E: Graph<V>
    var vertexIndex: map<V, nat>
    var vertexLowlink: map<V, nat>
    var S: seq<V>
    var allSCCs: seq<seq<V>>

    ghost function St(): State<V>
      reads this
    {
      State(vertexIndex, vertexLowlink, S, allSCCs)
    }

    constructor (E: Graph<V>)
      ensures this.E == E && St() == State(map[], map[], [], [])
    {
      this.E := E;
      vertexIndex, vertexLowlink, S, allSCCs := map[], map[], [], [];
    }

    /** The call for v: open are the vertices whose calls it is nested in. */
    method StrongConnect(v: V, index: nat, ghost open: set<V>) returns (next: nat)
      requires Closed(E) && v in E && v !in vertexIndex
      requires Inv(E, St(), open, index)
      requires forall x :: x in open ==> Reach(E, x, v)
      modifies this
      ensures Inv(E, St(), open, next) && next > index
      ensures Extends(old(St()), St())
      ensures Returned(E, St(), |old(S)|, v) && vertexIndex[v] == index
      decreases E.Keys - vertexIndex.Keys
    {
      hide Inv, InCall, Returned, Reach, Extends, AtEnd, AtLoop;
      ghost var before := St();
      LoopStarts(E, before, v, open, index);
      vertexIndex := vertexIndex[v := index];
      vertexLowlink := vertexLowlink[v := index];
      S := S + [v];
      next := index + 1;

      var left := E[v];
      assert E[v] - left == {};
      while left != {}
        invariant left <= E[v]
        invariant AtLoop(E, before, St(), v, E[v] - left, open, index, next)
      {
        var w :| w in left;
        ghost var s, seen := St(), E[v] - left;
        LoopFacts(E, before, s, v, seen, open, index, next);
        left := left - {w};
        if w !in vertexIndex {
          OpenReachesSuccessor(E, open, v, w);
          ghost var entered := next;
          next := StrongConnect(w, next, open + {v});
          LoopAfterCall(E, before, s, St(), v, w, seen, open, index, entered, next);
          vertexLowlink := vertexLowlink[v := Min(vertexLowlink[v], vertexLowlink[w])];
        } else if w in S {
          LoopAfterStacked(E, before, s, v, w, seen, open, index, next);
          vertexLowlink := vertexLowlink[v := Min(vertexLowlink[v], vertexIndex[w])];
        } else {
          LoopAfterDone(E, before, s, v, w, seen, open, index, next);
        }
        assert E[v] - left == seen + {w};
      }
      LoopFacts(E, before, St(), v, E[v] - left, open, index, next);
      assert E[v] - left == E[v];
      LoopEnds(E, before, St(), v, open, index, next);
      Leave(v, next, open, before);
    }

    /** The end of a call: a root takes its component off the stack. */
    method Leave(v: V, ghost next: nat, ghost open: set<V>, ghost before: State<V>)
      requires AtEnd(E, St(), |before.stack|, v, open, next) && Extends(before, St())
      modifies this`S, this`allSCCs
      ensures Inv(E, St(), open, next) && Extends(before, St()) && Returned(E, St(), |before.stack|, v)
    {
      hide Inv, Reach, Bounded, Witnessed, Covered, Emitted, Elements, Extends;
      ghost var s, n := St(), |before.stack|;
      if vertexLowlink[v] == vertexIndex[v] {
        PopKeepsInv(E, s, n, v, open, next);
        PopExtends(before, s);
        PopReturns(E, s, n, v);
        OnStackOnce(E, s, n, v, open + {v}, next);
        var i := IndexOf(S, v);
        var scc := S[i..];
        S := S[..i];
        allSCCs := allSCCs + [scc];
        assert St() == Pop(s, n);
      } else {
        StayKeepsInv(E, s, n, v, open, next);
        StayReturns(E, s, n, v, open, next);
      }
    }

    lemma OnStackOnce(g: Graph<V>, s: State<V>, n: nat, v: V, open: set<V>, next: nat)
      requires Inv(g, s, open, next) && n < |s.stack| && s.stack[n] == v
      ensures forall i :: 0 <= i < |s.stack| && s.stack[i] == v ==> i == n
    {
      OrderedHasNoRepeats(s, next);
    }
  }

  /** list.index: the first position of x. */
  method IndexOf<V(==)>(s: seq<V>, x: V) returns (i: nat)
    requires x in s
    ensures i < |s| && s[i] == x && x !in s[..i]
  {
    i := 0;
    while s[i] != x
      invariant i < |s| && x !in s[..i]
      decreases |s| - i
    {
      assert x in s[i + 1..];
      i := i + 1;
    }
  }

  /**
   tarjan: the blocks partition the vertices, two vertices share a block exactly when
   each reaches the other, and blocks come in reverse topological order.
   */
  method StronglyConnectedComponents<V(==, !new)>(vs: seq<V>, g: Graph<V>) returns (sccs: seq<seq<V>>)
    requires Closed(g) && Elements(vs) == g.Keys
    ensures Partitions(sccs, g.Keys)
    ensures BlocksAreComponents(g, sccs)
    ensures ReverseTopological(g, sccs)
  {
    hide Inv, Returned, Reach, Partitions, BlocksAreComponents, ReverseTopological;
    var t := new Tarjan(g);
    EmptyStateInv(g);
    var index := 0;
    for k := 0 to |vs|
      invariant t.E == g && fresh(t) && Inv(g, t.St(), {}, index)
      invariant forall i :: 0 <= i < k ==> vs[i] in t.vertexIndex
    {
      var v := vs[k];
      assert v in Elements(vs);
      if v !in t.vertexIndex {
        ghost var before := t.St();
        index := t.StrongConnect(v, index, {});
        CallVisits(g, before, t.St(), |before.stack|, v);
      }
    }
    NothingOpen(g, t.St(), index);
    DoneAbsorbs(g, t.allSCCs);
    assert t.vertexIndex.Keys == g.Keys;
    sccs := t.allSCCs;
    EmittedPartitions(g, sccs);
    EmittedAreComponents(g, sccs);
    EmittedIsReverseTopological(g, sccs);
  }

  lemma CallVisits<V(!new)>(g: Graph<V>, s: State<V>, s': State<V>, n: nat, v: V)
    requires Extends(s, s') && Returned(g, s', n, v)
    ensures s.index.Keys + {v} <= s'.index.Keys
  {
  }
}
