/**
 The strongly connected components of config/check_spidermonkey_style.py: the state of
 the recursion as a value, and what each of its steps keeps.
 */
module TarjanModel {
  import opened Graphs

  /** vertex_index, vertex_lowlink, S and all_SCCs. */
  datatype State<V(==)> = State(index: map<V, nat>, low: map<V, nat>, stack: seq<V>, sccs: seq<seq<V>>)

  // ---------- What the result must be ----------

  /** One whole component: exactly the vertices connected to each of its members. */
  ghost predicate IsComponent<V(!new)>(g: Graph<V>, c: seq<V>) {
    && |c| > 0 && NoRepeats(c)
    && (forall x :: x in c ==> x in g)
    && (forall x, y :: x in c ==> (y in c <==> Connected(g, x, y)))
  }

  ghost function Done<V>(sccs: seq<seq<V>>): set<V> {
    if sccs == [] then {} else Done(sccs[..|sccs| - 1]) + Elements(sccs[|sccs| - 1])
  }

  /** Disjoint components, each with no edge but to itself and earlier ones. */
  ghost predicate Emitted<V(!new)>(g: Graph<V>, sccs: seq<seq<V>>) {
    if sccs == [] then true
    else
      var init, last := sccs[..|sccs| - 1], sccs[|sccs| - 1];
      && Emitted(g, init)
      && IsComponent(g, last)
      && Done(init) !! Elements(last)
      && forall x :: x in last ==> g[x] <= Done(init) + Elements(last)
  }

  // ---------- The invariant between steps ----------

  /** The stack is in order of discovery, and every index is below the next one. */
  ghost predicate Ordered<V>(s: State<V>, next: nat) {
    && (forall x :: x in s.stack ==> x in s.index)
    && (forall i, j :: 0 <= i < j < |s.stack| ==> s.index[s.stack[i]] < s.index[s.stack[j]])
    && (forall x :: x in s.index ==> s.index[x] < next)
  }

  /** A visited vertex is either on the stack or in an emitted component. */
  ghost predicate Split<V>(g: Graph<V>, s: State<V>) {
    && s.index.Keys == Elements(s.stack) + Done(s.sccs)
    && Elements(s.stack) !! Done(s.sccs)
    && s.index.Keys <= g.Keys
  }

  /** Only vertices whose call is still open have unvisited successors. */
  ghost predicate NoGaps<V>(g: Graph<V>, s: State<V>, open: set<V>) {
    && open <= Elements(s.stack)
    && forall x :: x in s.index && x !in open && x in g ==> g[x] <= s.index.Keys
  }

  /** Lower stack entries reach higher ones. */
  ghost predicate Upward<V(!new)>(g: Graph<V>, s: State<V>) {
    forall i, j :: 0 <= i <= j < |s.stack| ==> Reach(g, s.stack[i], s.stack[j])
  }

  /** Stack entry j reaches an open vertex at or below it. */
  ghost predicate Anchored<V(!new)>(g: Graph<V>, s: State<V>, open: set<V>, j: nat)
    requires j < |s.stack|
  {
    exists i :: 0 <= i <= j && s.stack[i] in open && Reach(g, s.stack[j], s.stack[i])
  }

  ghost predicate Downward<V(!new)>(g: Graph<V>, s: State<V>, open: set<V>) {
    forall j :: 0 <= j < |s.stack| ==> Anchored(g, s, open, j)
  }

  ghost predicate Inv<V(!new)>(g: Graph<V>, s: State<V>, open: set<V>, next: nat) {
    && Ordered(s, next) && Split(g, s) && NoGaps(g, s, open)
    && Upward(g, s) && Downward(g, s, open) && Emitted(g, s.sccs)
  }

  /** s' continues s: nothing recorded is lost or changed. */
  ghost predicate Extends<V>(s: State<V>, s': State<V>) {
    && (forall x :: x in s.index ==> x in s'.index && s'.index[x] == s.index[x])
    && (forall x :: x in s.index && x in s.low ==> x in s'.low && s'.low[x] == s.low[x])
    && s.stack <= s'.stack
    && s.sccs <= s'.sccs
  }

  // ---------- Lowlinks ----------

  /** Every edge from a stack entry at or above b to one of the first n ends at index low or more. */
  ghost predicate Bounded<V>(g: Graph<V>, s: State<V>, n: nat, b: nat, low: nat) {
    forall i, j :: 0 <= i < n && i < |s.stack| && b <= j < |s.stack| && s.stack[j] in g && s.stack[i] in g[s.stack[j]] ==>
      s.stack[i] in s.index && low <= s.index[s.stack[i]]
  }

  /** low is the index of one of the first n stack entries, and v reaches that entry. */
  ghost predicate Witnessed<V(!new)>(g: Graph<V>, s: State<V>, n: nat, v: V, low: nat) {
    exists i :: 0 <= i < n && i < |s.stack| && s.stack[i] in s.index && s.index[s.stack[i]] == low && Reach(g, v, s.stack[i])
  }

  /** The successors in seen are visited, and low is no more than the index of those among the first n stack entries. */
  ghost predicate Covered<V>(s: State<V>, n: nat, low: nat, seen: set<V>) {
    && seen <= s.index.Keys
    && forall i :: 0 <= i < n && i < |s.stack| && s.stack[i] in seen ==> low <= s.index[s.stack[i]]
  }

  /** The call for v, which sits at position n of the stack, has dealt with the successors in seen. */
  ghost predicate InCall<V(!new)>(g: Graph<V>, s: State<V>, n: nat, v: V, seen: set<V>) {
    && n < |s.stack| && s.stack[n] == v && v in s.index && v in s.low && v in g
    && s.low[v] <= s.index[v]
    && Witnessed(g, s, n + 1, v, s.low[v])
    && Bounded(g, s, n, n + 1, s.low[v])
    && Covered(s, n, s.low[v], seen)
  }

  /** The call for v has returned, to a stack that was n high before it. */
  ghost predicate Returned<V(!new)>(g: Graph<V>, s: State<V>, n: nat, v: V) {
    && v in s.index && v in s.low && n <= |s.stack|
    && Bounded(g, s, n, n, s.low[v])
    && if s.low[v] == s.index[v] then |s.stack| == n
       else s.low[v] < s.index[v] && Witnessed(g, s, n, v, s.low[v])
  }

  // ---------- Entering a call ----------

  function Push<V>(s: State<V>, v: V, next: nat): State<V> {
    State(s.index[v := next], s.low[v := next], s.stack + [v], s.sccs)
  }

  lemma PushKeepsInv<V(!new)>(g: Graph<V>, s: State<V>, v: V, open: set<V>, next: nat)
    requires Inv(g, s, open, next) && v in g && v !in s.index
    requires forall x :: x in open ==> Reach(g, x, v)
    ensures Inv(g, Push(s, v, next), open + {v}, next + 1)
  {
    hide Reach, Emitted, Upward, Downward, Ordered, Split, NoGaps;
    PushKeepsOrdered(s, v, next);
    PushKeepsSplit(g, s, v, open, next);
    PushKeepsUpward(g, s, v, open, next);
    PushKeepsDownward(g, s, v, open, next);
  }

  lemma PushKeepsOrdered<V>(s: State<V>, v: V, next: nat)
    requires Ordered(s, next) && v !in s.index
    ensures Ordered(Push(s, v, next), next + 1)
  {
  }

  lemma PushKeepsSplit<V>(g: Graph<V>, s: State<V>, v: V, open: set<V>, next: nat)
    requires Split(g, s) && NoGaps(g, s, open) && v in g && v !in s.index
    ensures Split(g, Push(s, v, next)) && NoGaps(g, Push(s, v, next), open + {v})
  {
    hide Done;
    assert Elements(Push(s, v, next).stack) == Elements(s.stack) + {v};
    assert Push(s, v, next).index.Keys == s.index.Keys + {v};
  }

  lemma PushKeepsDownward<V(!new)>(g: Graph<V>, s: State<V>, v: V, open: set<V>, next: nat)
    requires Downward(g, s, open)
    ensures Downward(g, Push(s, v, next), open + {v})
  {
    var s' := Push(s, v, next);
    forall j | 0 <= j < |s'.stack|
      ensures Anchored(g, s', open + {v}, j)
    {
      if j == |s.stack| {
        ReachSelf(g, v);
        assert s'.stack[j] == v && Reach(g, s'.stack[j], s'.stack[j]);
      } else {
        assert Anchored(g, s, open, j);
        var i :| 0 <= i <= j && s.stack[i] in open && Reach(g, s.stack[j], s.stack[i]);
        assert s'.stack[i] in open + {v} && Reach(g, s'.stack[j], s'.stack[i]);
      }
    }
  }

  lemma PushKeepsUpward<V(!new)>(g: Graph<V>, s: State<V>, v: V, open: set<V>, next: nat)
    requires Upward(g, s) && Downward(g, s, open)
    requires forall x :: x in open ==> Reach(g, x, v)
    ensures Upward(g, Push(s, v, next))
  {
    var s' := Push(s, v, next);
    forall i, j | 0 <= i <= j < |s'.stack|
      ensures Reach(g, s'.stack[i], s'.stack[j])
    {
      if i == |s.stack| {
        ReachSelf(g, v);
      } else if j == |s.stack| {
        assert Anchored(g, s, open, i);
        var a :| 0 <= a <= i && s.stack[a] in open && Reach(g, s.stack[i], s.stack[a]);
        ReachTrans(g, s.stack[i], s.stack[a], v);
      }
    }
  }

  lemma PushStartsCall<V(!new)>(g: Graph<V>, s: State<V>, v: V, open: set<V>, next: nat)
    requires Inv(g, s, open, next) && v in g && v !in s.index
    ensures InCall(g, Push(s, v, next), |s.stack|, v, {}) && Extends(s, Push(s, v, next))
  {
    var s' := Push(s, v, next);
    ReachSelf(g, v);
    assert s'.stack[|s.stack|] == v;
  }

  // ---------- Dealing with one successor ----------

  function Min(a: nat, b: nat): nat {
    if a <= b then a else b
  }

  /** vertex_lowlink[v] = min(vertex_lowlink[v], x). */
  function Lower<V>(s: State<V>, v: V, x: nat): State<V>
    requires v in s.low
  {
    s.(low := s.low[v := Min(s.low[v], x)])
  }

  lemma LowerKeepsInv<V(!new)>(g: Graph<V>, s: State<V>, v: V, x: nat, open: set<V>, next: nat)
    requires Inv(g, s, open, next) && v in s.low
    ensures Inv(g, Lower(s, v, x), open, next)
  {
    var s' := Lower(s, v, x);
    forall j | 0 <= j < |s'.stack|
      ensures Anchored(g, s', open, j)
    {
      assert Anchored(g, s, open, j);
    }
  }

  /** A successor on the stack. */
  lemma SeeStacked<V(!new)>(g: Graph<V>, s: State<V>, n: nat, v: V, seen: set<V>, w: V, next: nat)
    requires Ordered(s, next) && InCall(g, s, n, v, seen) && w in g[v] && w in s.stack
    ensures w in s.index && InCall(g, Lower(s, v, s.index[w]), n, v, seen + {w})
  {
    var k :| 0 <= k < |s.stack| && s.stack[k] == w;
    var s' := Lower(s, v, s.index[w]);
    ReachEdge(g, v, w);
    if s.index[w] < s.low[v] {
      assert k < n + 1;
      assert s'.index[s'.stack[k]] == s'.low[v] && Reach(g, v, s'.stack[k]);
    } else {
      WitnessMoves(g, s, s', n + 1, v, s.low[v]);
    }
  }

  lemma WitnessMoves<V(!new)>(g: Graph<V>, s: State<V>, s': State<V>, n: nat, v: V, low: nat)
    requires Witnessed(g, s, n, v, low)
    requires s.stack <= s'.stack && forall x :: x in s.index ==> x in s'.index && s'.index[x] == s.index[x]
    ensures Witnessed(g, s', n, v, low)
  {
    var i :| 0 <= i < n && i < |s.stack| && s.stack[i] in s.index && s.index[s.stack[i]] == low && Reach(g, v, s.stack[i]);
    assert s'.stack[i] == s.stack[i];
  }

  /** A successor in an emitted component. */
  lemma SeeDone<V(!new)>(g: Graph<V>, s: State<V>, n: nat, v: V, seen: set<V>, w: V)
    requires InCall(g, s, n, v, seen) && w in s.index && w !in s.stack
    ensures InCall(g, s, n, v, seen + {w})
  {
  }

  /** A successor whose call has just returned. */
  lemma SeeReturned<V(!new)>(g: Graph<V>, s: State<V>, s1: State<V>, n: nat, v: V, seen: set<V>, w: V, next: nat)
    requires Ordered(s1, next) && InCall(g, s, n, v, seen) && w in g[v] && w !in s.index
    requires s.index.Keys >= Elements(s.stack)
    requires Extends(s, s1) && Returned(g, s1, |s.stack|, w) && s1.index[w] > s.index[v]
    ensures v in s1.low && w in s1.low && InCall(g, Lower(s1, v, s1.low[w]), n, v, seen + {w})
  {
    var s' := Lower(s1, v, s1.low[w]);
    WitnessReturned(g, s, s1, n, v, w, next);
    BoundReturned(g, s, s1, n, v, w);
    assert forall i :: 0 <= i < n ==> s1.stack[i] == s.stack[i];
    assert Covered(s', n, s'.low[v], seen + {w}) by {
      forall i | 0 <= i < n && s'.stack[i] in seen + {w}
        ensures s'.low[v] <= s'.index[s'.stack[i]]
      {
        assert s.stack[i] in Elements(s.stack);
      }
    }
  }

  lemma WitnessReturned<V(!new)>(g: Graph<V>, s: State<V>, s1: State<V>, n: nat, v: V, w: V, next: nat)
    requires Ordered(s1, next) && n < |s.stack| && s.stack[n] == v && v in s.index && v in s.low && v in g
    requires s.low[v] <= s.index[v] && Witnessed(g, s, n + 1, v, s.low[v]) && w in g[v]
    requires Extends(s, s1) && Returned(g, s1, |s.stack|, w) && s1.index[w] > s.index[v]
    ensures v in s1.low && w in s1.low
    ensures Witnessed(g, Lower(s1, v, s1.low[w]), n + 1, v, Min(s1.low[v], s1.low[w]))
  {
    var s' := Lower(s1, v, s1.low[w]);
    if s1.low[w] < s1.low[v] {
      var i :| 0 <= i < |s.stack| && i < |s1.stack| && s1.stack[i] in s1.index && s1.index[s1.stack[i]] == s1.low[w] && Reach(g, w, s1.stack[i]);
      assert s1.stack[n] == v;
      ReachEdge(g, v, w);
      ReachTrans(g, v, w, s1.stack[i]);
      assert s'.stack[i] == s1.stack[i];
    } else {
      WitnessMoves(g, s, s', n + 1, v, s.low[v]);
    }
  }

  lemma BoundReturned<V(!new)>(g: Graph<V>, s: State<V>, s1: State<V>, n: nat, v: V, w: V)
    requires n < |s.stack| && v in s.low && v in s.index && Bounded(g, s, n, n + 1, s.low[v])
    requires Extends(s, s1) && Returned(g, s1, |s.stack|, w)
    ensures v in s1.low && w in s1.low
    ensures Bounded(g, Lower(s1, v, s1.low[w]), n, n + 1, Min(s1.low[v], s1.low[w]))
  {
    var s' := Lower(s1, v, s1.low[w]);
    var low := Min(s1.low[v], s1.low[w]);
    forall i, j | 0 <= i < n && i < |s'.stack| && n + 1 <= j < |s'.stack| && s'.stack[j] in g && s'.stack[i] in g[s'.stack[j]]
      ensures s'.stack[i] in s'.index && low <= s'.index[s'.stack[i]]
    {
      assert s1.stack[i] == s.stack[i];
      if j < |s.stack| {
        assert s1.stack[j] == s.stack[j];
      } else {
        assert s1.stack[i] in g[s1.stack[j]];
      }
    }
  }

  // ---------- Leaving a call ----------

  /** The call for v, at position n, has dealt with every successor; the calls open around it lie below. */
  ghost predicate AtEnd<V(!new)>(g: Graph<V>, s: State<V>, n: nat, v: V, open: set<V>, next: nat) {
    && v in g && InCall(g, s, n, v, g[v])
    && Inv(g, s, open + {v}, next)
    && forall x :: x in open ==> x in s.stack[..n]
  }

  lemma EndReturns<V(!new)>(g: Graph<V>, s: State<V>, n: nat, v: V)
    requires v in g && InCall(g, s, n, v, g[v])
    ensures Bounded(g, s, n, n, s.low[v])
  {
  }

  lemma OnlyVIsOpenAbove<V(!new)>(g: Graph<V>, s: State<V>, n: nat, v: V, open: set<V>, next: nat, j: nat)
    requires AtEnd(g, s, n, v, open, next) && j < |s.stack|
    ensures j >= n ==> s.stack[j] !in open
    ensures j < n ==> s.stack[j] != v
    ensures j > n ==> s.stack[j] != v
  {
    var below := s.stack[..n];
    assert forall x :: x in below ==> exists i :: 0 <= i < n && s.stack[i] == x;
  }

  // The vertex keeps its place on the stack: its low is an earlier index.

  lemma AnchorBelow<V(!new)>(g: Graph<V>, s: State<V>, n: nat, v: V, open: set<V>, next: nat) returns (i: nat)
    requires AtEnd(g, s, n, v, open, next) && s.low[v] < s.index[v]
    ensures i < n && i < |s.stack| && s.stack[i] in open && Reach(g, v, s.stack[i])
  {
    hide Reach, Ordered, Split, NoGaps, Upward, Emitted, Bounded, Covered;
    var k :| 0 <= k < n + 1 && k < |s.stack| && s.stack[k] in s.index && s.index[s.stack[k]] == s.low[v] && Reach(g, v, s.stack[k]);
    assert Anchored(g, s, open + {v}, k);
    i :| 0 <= i <= k && s.stack[i] in open + {v} && Reach(g, s.stack[k], s.stack[i]);
    OnlyVIsOpenAbove(g, s, n, v, open, next, i);
    ReachTrans(g, v, s.stack[k], s.stack[i]);
  }

  lemma StayKeepsInv<V(!new)>(g: Graph<V>, s: State<V>, n: nat, v: V, open: set<V>, next: nat)
    requires AtEnd(g, s, n, v, open, next) && s.low[v] < s.index[v]
    ensures Inv(g, s, open, next)
  {
    forall j | 0 <= j < |s.stack|
      ensures Anchored(g, s, open, j)
    {
      StayAnchored(g, s, n, v, open, next, j);
    }
    assert g[v] <= s.index.Keys;
  }

  lemma StayAnchored<V(!new)>(g: Graph<V>, s: State<V>, n: nat, v: V, open: set<V>, next: nat, j: nat)
    requires AtEnd(g, s, n, v, open, next) && s.low[v] < s.index[v] && j < |s.stack|
    ensures Anchored(g, s, open, j)
  {
    assert Anchored(g, s, open + {v}, j);
    var i :| 0 <= i <= j && s.stack[i] in open + {v} && Reach(g, s.stack[j], s.stack[i]);
    if s.stack[i] !in open {
      OnlyVIsOpenAbove(g, s, n, v, open, next, i);
      var k := AnchorBelow(g, s, n, v, open, next);
      ReachTrans(g, s.stack[j], v, s.stack[k]);
    }
  }

  lemma StayReturns<V(!new)>(g: Graph<V>, s: State<V>, n: nat, v: V, open: set<V>, next: nat)
    requires AtEnd(g, s, n, v, open, next) && s.low[v] < s.index[v]
    ensures Returned(g, s, n, v)
  {
    hide Inv;
    EndReturns(g, s, n, v);
    StayWitness(g, s, n, v);
  }

  lemma StayWitness<V(!new)>(g: Graph<V>, s: State<V>, n: nat, v: V)
    requires n < |s.stack| && s.stack[n] == v && v in s.index && v in s.low
    requires Witnessed(g, s, n + 1, v, s.low[v]) && s.low[v] < s.index[v]
    ensures Witnessed(g, s, n, v, s.low[v])
  {
    var k :| 0 <= k < n + 1 && k < |s.stack| && s.stack[k] in s.index && s.index[s.stack[k]] == s.low[v] && Reach(g, v, s.stack[k]);
    assert k < n;
  }

  // The vertex is a root: its low is its own index.

  function Pop<V>(s: State<V>, n: nat): State<V>
    requires n <= |s.stack|
  {
    s.(stack := s.stack[..n], sccs := s.sccs + [s.stack[n..]])
  }

  lemma {:induction false} DoneAbsorbs<V(!new)>(g: Graph<V>, sccs: seq<seq<V>>)
    requires Emitted(g, sccs)
    ensures Absorbing(g, Done(sccs)) && Done(sccs) <= g.Keys
  {
    if sccs == [] {
    } else {
      DoneAbsorbs(g, sccs[..|sccs| - 1]);
    }
  }

  /** No edge leaves the top of the stack downwards. */
  lemma TopEdge<V(!new)>(g: Graph<V>, s: State<V>, n: nat, v: V, open: set<V>, next: nat, j: nat, y: V)
    requires AtEnd(g, s, n, v, open, next) && s.low[v] == s.index[v]
    requires n <= j < |s.stack| && s.stack[j] in g && y in g[s.stack[j]]
    ensures y in s.stack[n..] || y in Done(s.sccs)
  {
    OnlyVIsOpenAbove(g, s, n, v, open, next, j);
    EndReturns(g, s, n, v);
    assert y in s.index by {
      if j != n {
        assert s.stack[j] in s.index && s.stack[j] !in open + {v};
      }
    }
    if y in s.stack {
      var i :| 0 <= i < |s.stack| && s.stack[i] == y;
      assert i >= n;
      assert s.stack[n..][i - n] == y;
    }
  }

  lemma TopAbsorbs<V(!new)>(g: Graph<V>, s: State<V>, n: nat, v: V, open: set<V>, next: nat)
    requires AtEnd(g, s, n, v, open, next) && s.low[v] == s.index[v]
    ensures Absorbing(g, Elements(s.stack[n..]) + Done(s.sccs))
  {
    var all := Elements(s.stack[n..]) + Done(s.sccs);
    DoneAbsorbs(g, s.sccs);
    forall x, y | x in all && x in g && y in g[x]
      ensures y in all
    {
      if x !in Done(s.sccs) {
        var j :| 0 <= j < |s.stack[n..]| && s.stack[n..][j] == x;
        TopEdge(g, s, n, v, open, next, n + j, y);
      }
    }
  }

  lemma TopIsConnected<V(!new)>(g: Graph<V>, s: State<V>, n: nat, v: V, open: set<V>, next: nat, j: nat)
    requires AtEnd(g, s, n, v, open, next) && s.low[v] == s.index[v] && n <= j < |s.stack|
    ensures Connected(g, v, s.stack[j])
  {
    hide Reach, Emitted, Bounded, Witnessed, Covered, NoGaps;
    assert Anchored(g, s, open + {v}, j);
    var i :| 0 <= i <= j && s.stack[i] in open + {v} && Reach(g, s.stack[j], s.stack[i]);
    TopReachesTop(g, s, n, v, open, next, j, i);
    OnlyVIsOpenAbove(g, s, n, v, open, next, i);
    assert Reach(g, s.stack[n], s.stack[j]);
  }

  lemma TopReachesTop<V(!new)>(g: Graph<V>, s: State<V>, n: nat, v: V, open: set<V>, next: nat, j: nat, i: nat)
    requires AtEnd(g, s, n, v, open, next) && s.low[v] == s.index[v]
    requires n <= j < |s.stack| && i < |s.stack| && Reach(g, s.stack[j], s.stack[i])
    ensures i >= n
  {
    hide Reach, Emitted, Bounded, Witnessed, Covered, NoGaps, Upward, Downward;
    var top := s.stack[n..];
    TopAbsorbs(g, s, n, v, open, next);
    assert top[j - n] in Elements(top) + Done(s.sccs);
    ReachStays(g, Elements(top) + Done(s.sccs), s.stack[j], s.stack[i]);
    assert s.stack[i] in Elements(s.stack);
    OrderedHasNoRepeats(s, next);
  }

  /** What is popped is one whole component. */
  lemma TopIsComponent<V(!new)>(g: Graph<V>, s: State<V>, n: nat, v: V, open: set<V>, next: nat)
    requires AtEnd(g, s, n, v, open, next) && s.low[v] == s.index[v]
    ensures IsComponent(g, s.stack[n..])
  {
    hide Reach, Emitted, Bounded, Witnessed, Covered, Upward, Downward, NoGaps;
    var c := s.stack[n..];
    forall x | x in c
      ensures x in g && Connected(g, v, x)
    {
      var j :| 0 <= j < |c| && c[j] == x;
      assert x == s.stack[n + j] && x in Elements(s.stack);
      TopIsConnected(g, s, n, v, open, next, n + j);
    }
    forall x, y | x in c
      ensures y in c <==> Connected(g, x, y)
    {
      TopIsWhole(g, s, n, v, open, next, x, y);
    }
  }

  lemma TopIsWhole<V(!new)>(g: Graph<V>, s: State<V>, n: nat, v: V, open: set<V>, next: nat, x: V, y: V)
    requires AtEnd(g, s, n, v, open, next) && s.low[v] == s.index[v] && x in s.stack[n..]
    ensures y in s.stack[n..] <==> Connected(g, x, y)
  {
    hide Reach, AtEnd;
    if y in s.stack[n..] {
      TopIsJoined(g, s, n, v, open, next, x);
      TopIsJoined(g, s, n, v, open, next, y);
      ReachTrans(g, x, v, y);
      ReachTrans(g, y, v, x);
    }
    if Connected(g, x, y) {
      TopHolds(g, s, n, v, open, next, x, y);
    }
  }

  lemma TopIsJoined<V(!new)>(g: Graph<V>, s: State<V>, n: nat, v: V, open: set<V>, next: nat, x: V)
    requires AtEnd(g, s, n, v, open, next) && s.low[v] == s.index[v] && x in s.stack[n..]
    ensures Connected(g, v, x)
  {
    hide Reach, Inv;
    var i :| 0 <= i < |s.stack[n..]| && s.stack[n..][i] == x;
    TopIsConnected(g, s, n, v, open, next, n + i);
  }

  lemma TopHolds<V(!new)>(g: Graph<V>, s: State<V>, n: nat, v: V, open: set<V>, next: nat, x: V, y: V)
    requires AtEnd(g, s, n, v, open, next) && s.low[v] == s.index[v] && x in s.stack[n..]
    requires Reach(g, x, y) && Reach(g, y, x)
    ensures y in s.stack[n..]
  {
    hide Reach, Emitted, Bounded, Witnessed, Covered, Upward, Downward, NoGaps;
    var c := s.stack[n..];
    TopAbsorbs(g, s, n, v, open, next);
    ReachStays(g, Elements(c) + Done(s.sccs), x, y);
    DoneAbsorbs(g, s.sccs);
    assert x in Elements(s.stack);
    if y in Done(s.sccs) {
      ReachStays(g, Done(s.sccs), y, x);
    }
  }

  lemma PopKeepsInv<V(!new)>(g: Graph<V>, s: State<V>, n: nat, v: V, open: set<V>, next: nat)
    requires AtEnd(g, s, n, v, open, next) && s.low[v] == s.index[v]
    ensures Inv(g, Pop(s, n), open, next)
  {
    hide Reach, IsComponent;
    PopKeepsEmitted(g, s, n, v, open, next);
    PopKeepsSplit(g, s, n, v, open, next);
    PopKeepsDownward(g, s, n, v, open, next);
    PopKeepsUpward(g, s, n);
  }

  lemma PopKeepsUpward<V(!new)>(g: Graph<V>, s: State<V>, n: nat)
    requires n <= |s.stack| && Upward(g, s)
    ensures Upward(g, Pop(s, n))
  {
  }

  lemma OrderedHasNoRepeats<V>(s: State<V>, next: nat)
    requires Ordered(s, next)
    ensures NoRepeats(s.stack)
  {
  }

  lemma PopKeepsOrdered<V>(s: State<V>, n: nat, next: nat)
    requires n <= |s.stack| && Ordered(s, next)
    ensures Ordered(Pop(s, n), next)
  {
  }

  lemma PopKeepsSplit<V(!new)>(g: Graph<V>, s: State<V>, n: nat, v: V, open: set<V>, next: nat)
    requires AtEnd(g, s, n, v, open, next) && s.low[v] == s.index[v]
    requires Done(Pop(s, n).sccs) == Done(s.sccs) + Elements(s.stack[n..])
    ensures Ordered(Pop(s, n), next) && Split(g, Pop(s, n)) && NoGaps(g, Pop(s, n), open)
  {
    hide Reach, Upward, Downward, Emitted, Bounded, Witnessed, Done, NoRepeats, Ordered;
    OrderedHasNoRepeats(s, next);
    CutElements(s.stack, n);
    PopKeepsOrdered(s, n, next);
    PopKeepsNoGaps(g, s, n, v, open, next);
  }

  lemma PopKeepsNoGaps<V(!new)>(g: Graph<V>, s: State<V>, n: nat, v: V, open: set<V>, next: nat)
    requires AtEnd(g, s, n, v, open, next)
    ensures NoGaps(g, Pop(s, n), open)
  {
    hide Reach, Upward, Downward, Emitted, Bounded, Witnessed, Ordered, Split;
    assert g[v] <= s.index.Keys;
  }

  lemma PopKeepsDownward<V(!new)>(g: Graph<V>, s: State<V>, n: nat, v: V, open: set<V>, next: nat)
    requires AtEnd(g, s, n, v, open, next)
    ensures Downward(g, Pop(s, n), open)
  {
    var s' := Pop(s, n);
    forall j | 0 <= j < |s'.stack|
      ensures Anchored(g, s', open, j)
    {
      assert Anchored(g, s, open + {v}, j);
      var i :| 0 <= i <= j && s.stack[i] in open + {v} && Reach(g, s.stack[j], s.stack[i]);
      OnlyVIsOpenAbove(g, s, n, v, open, next, i);
      assert s'.stack[i] == s.stack[i] && s'.stack[j] == s.stack[j];
    }
  }

  lemma PopKeepsEmitted<V(!new)>(g: Graph<V>, s: State<V>, n: nat, v: V, open: set<V>, next: nat)
    requires AtEnd(g, s, n, v, open, next) && s.low[v] == s.index[v]
    ensures Emitted(g, Pop(s, n).sccs) && Done(Pop(s, n).sccs) == Done(s.sccs) + Elements(s.stack[n..])
  {
    hide Reach, IsComponent, Bounded, Witnessed, Covered, Ordered, NoGaps, Upward, Downward;
    var c := s.stack[n..];
    TopIsComponent(g, s, n, v, open, next);
    TopAbsorbs(g, s, n, v, open, next);
    EmitOne(g, s.sccs, c) by {
      assert forall x :: x in c ==> x in Elements(s.stack);
    }
  }

  lemma EmitOne<V(!new)>(g: Graph<V>, sccs: seq<seq<V>>, c: seq<V>)
    requires Emitted(g, sccs) && IsComponent(g, c) && Done(sccs) !! Elements(c)
    requires Absorbing(g, Elements(c) + Done(sccs))
    ensures Emitted(g, sccs + [c]) && Done(sccs + [c]) == Done(sccs) + Elements(c)
  {
    hide Connected, NoRepeats;
    assert (sccs + [c])[..|sccs|] == sccs;
  }

  // ---------- Facts the calls pass along ----------

  lemma ExtendsTrans<V>(s: State<V>, s1: State<V>, s2: State<V>)
    requires Extends(s, s1) && Extends(s1, s2)
    ensures Extends(s, s2)
  {
  }

  lemma LowerExtends<V>(s: State<V>, s': State<V>, v: V, x: nat)
    requires Extends(s, s') && v in s'.low && v !in s.index
    ensures Extends(s, Lower(s', v, x))
  {
  }

  lemma PopExtends<V>(s: State<V>, s': State<V>)
    requires Extends(s, s')
    ensures Extends(s, Pop(s', |s.stack|))
  {
    assert s'.stack[..|s.stack|] == s.stack;
  }

  lemma PopReturns<V(!new)>(g: Graph<V>, s: State<V>, n: nat, v: V)
    requires v in s.index && v in s.low && n <= |s.stack| && s.low[v] == s.index[v]
    ensures Returned(g, Pop(s, n), n, v)
  {
  }

  lemma OpenReachesSuccessor<V(!new)>(g: Graph<V>, open: set<V>, v: V, w: V)
    requires v in g && w in g[v] && forall x :: x in open ==> Reach(g, x, v)
    ensures forall x :: x in open + {v} ==> Reach(g, x, w)
  {
    ReachEdge(g, v, w);
    forall x | x in open
      ensures Reach(g, x, w)
    {
      ReachTrans(g, x, v, w);
    }
  }

  /** What holds at the head of the loop over the successors of v, in a call that began in state before. */
  ghost predicate AtLoop<V(!new)>(g: Graph<V>, before: State<V>, s: State<V>, v: V, seen: set<V>, open: set<V>, index: nat, next: nat) {
    && Inv(g, s, open + {v}, next) && InCall(g, s, |before.stack|, v, seen)
    && Extends(before, s) && v !in before.index
    && s.index[v] == index && next > index
  }

  lemma LoopStarts<V(!new)>(g: Graph<V>, s: State<V>, v: V, open: set<V>, index: nat)
    requires Inv(g, s, open, index) && v in g && v !in s.index
    requires forall x :: x in open ==> Reach(g, x, v)
    ensures AtLoop(g, s, Push(s, v, index), v, {}, open, index, index + 1)
  {
    hide Inv, InCall, Reach;
    PushKeepsInv(g, s, v, open, index);
    PushStartsCall(g, s, v, open, index);
  }

  lemma LoopAfterCall<V(!new)>(g: Graph<V>, before: State<V>, s: State<V>, s1: State<V>, v: V, w: V, seen: set<V>,
                               open: set<V>, index: nat, next: nat, next': nat)
    requires AtLoop(g, before, s, v, seen, open, index, next) && v in g && w in g[v] && w !in s.index
    requires Inv(g, s1, open + {v}, next') && next' > next && Extends(s, s1)
    requires Returned(g, s1, |s.stack|, w) && s1.index[w] == next
    ensures v in s1.low && w in s1.low
    ensures AtLoop(g, before, Lower(s1, v, s1.low[w]), v, seen + {w}, open, index, next')
  {
    hide Upward, Downward, Emitted, NoGaps, Bounded, Witnessed, Covered;
    SeeReturned(g, s, s1, |before.stack|, v, seen, w, next');
    LowerKeepsInv(g, s1, v, s1.low[w], open + {v}, next');
    ExtendsTrans(before, s, s1);
    LowerExtends(before, s1, v, s1.low[w]);
  }

  lemma LoopAfterStacked<V(!new)>(g: Graph<V>, before: State<V>, s: State<V>, v: V, w: V, seen: set<V>,
                                  open: set<V>, index: nat, next: nat)
    requires AtLoop(g, before, s, v, seen, open, index, next) && v in g && w in g[v] && w in s.stack
    ensures v in s.low && w in s.index
    ensures AtLoop(g, before, Lower(s, v, s.index[w]), v, seen + {w}, open, index, next)
  {
    hide Upward, Downward, Emitted, NoGaps, Bounded, Witnessed, Covered;
    SeeStacked(g, s, |before.stack|, v, seen, w, next);
    LowerKeepsInv(g, s, v, s.index[w], open + {v}, next);
    LowerExtends(before, s, v, s.index[w]);
  }

  lemma LoopAfterDone<V(!new)>(g: Graph<V>, before: State<V>, s: State<V>, v: V, w: V, seen: set<V>,
                               open: set<V>, index: nat, next: nat)
    requires AtLoop(g, before, s, v, seen, open, index, next) && w in s.index && w !in s.stack
    ensures AtLoop(g, before, s, v, seen + {w}, open, index, next)
  {
    hide Inv;
    SeeDone(g, s, |before.stack|, v, seen, w);
  }

  lemma LoopEnds<V(!new)>(g: Graph<V>, before: State<V>, s: State<V>, v: V, open: set<V>, index: nat, next: nat)
    requires v in g && Inv(g, before, open, index) && AtLoop(g, before, s, v, g[v], open, index, next)
    ensures AtEnd(g, s, |before.stack|, v, open, next)
  {
    hide Upward, Downward, Emitted, Bounded, Witnessed, Covered;
    assert s.stack[..|before.stack|] == before.stack;
    assert open <= Elements(before.stack);
  }

  /** The plain facts a caller needs of the state at the loop head. */
  lemma LoopFacts<V(!new)>(g: Graph<V>, before: State<V>, s: State<V>, v: V, seen: set<V>, open: set<V>, index: nat, next: nat)
    requires AtLoop(g, before, s, v, seen, open, index, next)
    ensures Inv(g, s, open + {v}, next) && Extends(before, s) && next > index
    ensures v in s.index && v in s.low && v in g && s.index[v] == index
    ensures s.index.Keys <= g.Keys && before.index.Keys <= s.index.Keys && Elements(s.stack) <= s.index.Keys
  {
    hide Upward, Downward, Emitted, Bounded, Witnessed, Covered;
  }

  // ---------- What the emitted components amount to ----------

  lemma {:induction false} EmittedBlock<V(!new)>(g: Graph<V>, sccs: seq<seq<V>>, i: nat)
    requires Emitted(g, sccs) && i < |sccs|
    ensures IsComponent(g, sccs[i]) && Elements(sccs[i]) <= Done(sccs)
    ensures forall x :: x in sccs[i] && x in g ==> g[x] <= Done(sccs[..i]) + Elements(sccs[i])
    ensures Done(sccs[..i]) !! Elements(sccs[i])
  {
    var n := |sccs| - 1;
    if i < n {
      EmittedBlock(g, sccs[..n], i);
      assert sccs[..n][..i] == sccs[..i];
    }
  }

  lemma {:induction false} DoneIsUnion<V>(sccs: seq<seq<V>>, x: V)
    ensures x in Done(sccs) <==> exists i :: 0 <= i < |sccs| && x in sccs[i]
  {
    if sccs == [] {
    } else {
      var n := |sccs| - 1;
      DoneIsUnion(sccs[..n], x);
      if x in Done(sccs[..n]) {
        var i :| 0 <= i < n && x in sccs[..n][i];
        assert x in sccs[i];
      }
    }
  }

  lemma EmittedPartitions<V(!new)>(g: Graph<V>, sccs: seq<seq<V>>)
    requires Emitted(g, sccs)
    ensures Partitions(sccs, Done(sccs))
  {
    forall i | 0 <= i < |sccs|
      ensures |sccs[i]| > 0 && NoRepeats(sccs[i])
    {
      EmittedBlock(g, sccs, i);
    }
    forall i, j | 0 <= i < j < |sccs|
      ensures Elements(sccs[i]) !! Elements(sccs[j])
    {
      EmittedBlock(g, sccs, j);
      forall x | x in sccs[i]
        ensures x in Done(sccs[..j])
      {
        DoneIsUnion(sccs[..j], x);
        assert x in sccs[..j][i];
      }
    }
    forall x
      ensures x in Done(sccs) <==> exists i :: 0 <= i < |sccs| && x in sccs[i]
    {
      DoneIsUnion(sccs, x);
    }
  }

  lemma EmittedIsReverseTopological<V(!new)>(g: Graph<V>, sccs: seq<seq<V>>)
    requires Emitted(g, sccs)
    ensures ReverseTopological(g, sccs)
  {
    forall i, x, y | 0 <= i < |sccs| && x in sccs[i] && x in g && y in g[x] && y !in sccs[i]
      ensures exists j :: 0 <= j < i && y in sccs[j]
    {
      EmittedBlock(g, sccs, i);
      DoneIsUnion(sccs[..i], y);
      var j :| 0 <= j < |sccs[..i]| && y in sccs[..i][j];
      assert y in sccs[j];
    }
  }

  lemma EmittedAreComponents<V(!new)>(g: Graph<V>, sccs: seq<seq<V>>)
    requires Emitted(g, sccs)
    ensures BlocksAreComponents(g, sccs)
  {
    forall i, x, y | 0 <= i < |sccs| && x in sccs[i]
      ensures y in sccs[i] <==> Connected(g, x, y)
    {
      EmittedBlock(g, sccs, i);
    }
  }

  lemma EmptyStateInv<V(!new)>(g: Graph<V>)
    ensures Inv(g, State(map[], map[], [], []), {}, 0)
  {
  }

  /** Between top-level calls no call is open, so the stack is empty and everything visited is emitted. */
  lemma NothingOpen<V(!new)>(g: Graph<V>, s: State<V>, next: nat)
    requires Inv(g, s, {}, next)
    ensures s.stack == [] && s.index.Keys == Done(s.sccs) && Emitted(g, s.sccs)
  {
    assert |s.stack| > 0 ==> Anchored(g, s, {}, 0);
  }
}
