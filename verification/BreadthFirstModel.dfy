/**
 The breadth-first traversal of js/public/UbiNodeBreadthFirst.h: the search as a value,
 what each edge does to it, and what a finished search amounts to.
 */
module BreadthFirstModel {

  import opened HeapGraphs

  /**
   The start nodes, those of them marked visited beforehand, the visited set, the queue,
   the nodes whose edges have all been traversed, the nodes abandoned when first reached,
   and the level at which each node joined: 0 for starts.
   */
  datatype Search<N(==)> = Search(
    starts: seq<N>, marked: set<N>, visited: set<N>, pending: seq<N>,
    expanded: set<N>, abandoned: set<N>, level: map<N, nat>)
  {
    /** What a path may pass through. It only grows: a node is abandoned on its first visit or never. */
    function Open(): set<N> { visited - abandoned }
  }

  // ---------- Paths ----------

  /** A path from a start to n whose nodes strictly between the ends are in open. */
  ghost predicate Arrives<N>(g: EdgeMap<N>, starts: seq<N>, open: set<N>, p: seq<N>, n: N) {
    && IsPath(g, p) && p[0] in starts && p[|p| - 1] == n
    && forall i :: 0 < i < |p| - 1 ==> p[i] in open
  }

  /** n is reached from a start over d edges. */
  ghost predicate ReachedIn<N(!new)>(g: EdgeMap<N>, starts: seq<N>, open: set<N>, n: N, d: nat) {
    exists p :: |p| == d + 1 && Arrives(g, starts, open, p, n)
  }

  lemma StartReached<N(!new)>(g: EdgeMap<N>, starts: seq<N>, open: set<N>, n: N)
    requires n in starts
    ensures ReachedIn(g, starts, open, n, 0)
  {
    assert Arrives(g, starts, open, [n], n);
  }

  /** One more edge, out of a start or of an open node. */
  lemma ReachedOverEdge<N(!new)>(g: EdgeMap<N>, starts: seq<N>, open: set<N>, u: N, d: nat, n: N)
    requires ReachedIn(g, starts, open, u, d) && u in g && n in g[u]
    requires u in open || d == 0
    ensures ReachedIn(g, starts, open, n, d + 1)
  {
    var p :| |p| == d + 1 && Arrives(g, starts, open, p, u);
    var q := p + [n];
    assert q[d] == u && q[d + 1] == n;
    assert Arrives(g, starts, open, q, n);
  }

  lemma ReachedWiden<N(!new)>(g: EdgeMap<N>, starts: seq<N>, open: set<N>, wider: set<N>, n: N, d: nat)
    requires ReachedIn(g, starts, open, n, d) && open <= wider
    ensures ReachedIn(g, starts, wider, n, d)
  {
    var p :| |p| == d + 1 && Arrives(g, starts, open, p, n);
    assert Arrives(g, starts, wider, p, n);
  }

  // ---------- The invariant ----------

  ghost predicate Bounds<N(!new)>(g: EdgeMap<N>, s: Search<N>) {
    && s.marked <= s.visited <= g.Keys && s.abandoned <= s.visited && s.abandoned !! s.marked
    && (forall u :: u in s.marked ==> u in s.starts)
    && (forall u :: u in s.level <==> u in s.visited || u in s.starts)
    && (forall u :: u in s.starts ==> u in g && s.level[u] == 0)
  }

  /** Whatever is expanded is a start or open; current holds the node being expanded, if any. */
  ghost predicate Admitted<N(!new)>(s: Search<N>, current: set<N>) {
    forall u :: u in s.pending || u in s.expanded || u in current ==> u in s.starts || u in s.Open()
  }

  /** Nothing to expand is forgotten, and what has been expanded left no successor unvisited. */
  ghost predicate Complete<N(!new)>(g: EdgeMap<N>, s: Search<N>, current: set<N>) {
    && (forall u :: u in s.starts || u in s.Open() ==> u in s.expanded || u in s.pending || u in current)
    && (forall u, k :: u in s.expanded && u in g && 0 <= k < |g[u]| ==> g[u][k] in s.visited)
  }

  /** Every level is the length of a path, and what was not marked beforehand was reached over an edge. */
  ghost predicate Sound<N(!new)>(g: EdgeMap<N>, s: Search<N>) {
    && (forall u :: u in s.level ==> ReachedIn(g, s.starts, s.Open(), u, s.level[u]))
    && (forall u :: u in s.visited && u !in s.marked ==> OverAnEdge(g, s.starts, s.Open(), u))
  }

  ghost predicate OverAnEdge<N(!new)>(g: EdgeMap<N>, starts: seq<N>, open: set<N>, u: N) {
    exists d :: d > 0 && ReachedIn(g, starts, open, u, d)
  }

  ghost predicate Inv<N(!new)>(g: EdgeMap<N>, s: Search<N>, current: set<N>) {
    Bounds(g, s) && Admitted(s, current) && Complete(g, s, current) && Sound(g, s)
  }

  // ---------- One edge ----------

  /** Reaching n for the first time, from origin. */
  function Visit<N>(s: Search<N>, origin: N, n: N, abandon: bool): Search<N>
    requires origin in s.level
  {
    s.(visited := s.visited + {n},
       level := if n in s.level then s.level else s.level[n := s.level[origin] + 1],
       abandoned := if abandon then s.abandoned + {n} else s.abandoned,
       pending := if abandon then s.pending else s.pending + [n])
  }

  lemma VisitOpens<N>(s: Search<N>, origin: N, n: N, abandon: bool)
    requires origin in s.level && n !in s.visited && s.abandoned <= s.visited
    ensures Visit(s, origin, n, abandon).Open() == if abandon then s.Open() else s.Open() + {n}
  {
  }

  lemma VisitKeepsSound<N(!new)>(g: EdgeMap<N>, s: Search<N>, origin: N, n: N, abandon: bool)
    requires Inv(g, s, {origin}) && origin in g && n in g[origin] && n !in s.visited
    ensures origin in s.level && Sound(g, Visit(s, origin, n, abandon))
  {
    hide Complete, ReachedIn;
    var s' := Visit(s, origin, n, abandon);
    VisitOpens(s, origin, n, abandon);
    ReachedOverEdge(g, s.starts, s.Open(), origin, s.level[origin], n);
    forall u | u in s'.level
      ensures ReachedIn(g, s'.starts, s'.Open(), u, s'.level[u])
    {
      ReachedWiden(g, s.starts, s.Open(), s'.Open(), u, s'.level[u]);
    }
    forall u | u in s'.visited && u !in s'.marked
      ensures OverAnEdge(g, s'.starts, s'.Open(), u)
    {
      if u == n {
        ReachedWiden(g, s.starts, s.Open(), s'.Open(), n, s.level[origin] + 1);
      } else {
        assert OverAnEdge(g, s.starts, s.Open(), u);
        var d :| d > 0 && ReachedIn(g, s.starts, s.Open(), u, d);
        ReachedWiden(g, s.starts, s.Open(), s'.Open(), u, d);
      }
    }
  }

  lemma VisitKeepsInv<N(!new)>(g: EdgeMap<N>, s: Search<N>, origin: N, n: N, abandon: bool)
    requires Inv(g, s, {origin}) && origin in g && n in g[origin] && n in g && n !in s.visited
    ensures origin in s.level && Inv(g, Visit(s, origin, n, abandon), {origin})
  {
    hide ReachedIn;
    VisitKeepsSound(g, s, origin, n, abandon);
    VisitOpens(s, origin, n, abandon);
    hide Sound;
    var s' := Visit(s, origin, n, abandon);
    assert forall u :: u in s'.pending ==> u in s.pending || (u == n && !abandon);
    assert forall u :: u in s.pending ==> u in s'.pending;
    assert !abandon ==> s'.pending[|s.pending|] == n;
  }

  // ---------- Starting and finishing a node ----------

  lemma BeginNode<N(!new)>(g: EdgeMap<N>, s: Search<N>)
    requires Inv(g, s, {}) && s.pending != []
    ensures Inv(g, s.(pending := s.pending[1..]), {s.pending[0]})
    ensures s.pending[0] in s.level && s.pending[0] in g
  {
    hide ReachedIn, OverAnEdge;
    var s' := s.(pending := s.pending[1..]);
    assert forall u :: u in s.pending <==> u == s.pending[0] || u in s'.pending;
    assert s'.Open() == s.Open();
  }

  lemma FinishNode<N(!new)>(g: EdgeMap<N>, s: Search<N>, origin: N)
    requires Inv(g, s, {origin}) && origin in g
    requires forall k :: 0 <= k < |g[origin]| ==> g[origin][k] in s.visited
    ensures Inv(g, s.(expanded := s.expanded + {origin}), {})
  {
    hide ReachedIn, OverAnEdge;
    assert s.(expanded := s.expanded + {origin}).Open() == s.Open();
  }

  // ---------- Layers ----------

  /**
   While origins up to level base are being expanded, and waiting starts have not come up yet: the queue
   begins with those starts, its other nodes are in order of their levels, none of them below base, and
   no edge out of an expanded node leads more than one level down. A start that was not marked may be
   in the queue again.
   */
  ghost predicate Layered<N(!new)>(g: EdgeMap<N>, s: Search<N>, current: set<N>, waiting: nat, base: nat) {
    && InTurn(s, current, waiting) && (waiting > 0 ==> base == 0)
    && (forall u :: u in s.level ==> s.level[u] <= base + 1 && (s.level[u] == 0 ==> u in s.starts))
    && (forall i :: 0 <= i < |s.pending| && s.pending[i] !in s.starts ==>
          s.pending[i] in s.level && base <= s.level[s.pending[i]])
    && (forall i, j :: 0 <= i < j < |s.pending| && s.pending[i] !in s.starts && s.pending[j] !in s.starts
                       && s.pending[i] in s.level && s.pending[j] in s.level ==>
          s.level[s.pending[i]] <= s.level[s.pending[j]])
    && (forall u :: u in s.expanded ==> u in s.level && s.level[u] <= base)
    && (forall u, k :: u in s.expanded && u in g && 0 <= k < |g[u]| && u in s.level && g[u][k] in s.level ==>
          s.level[g[u][k]] <= s.level[u] + 1)
  }

  /** The first of the queue are the starts that have not come up; the others have been expanded. */
  ghost predicate InTurn<N>(s: Search<N>, current: set<N>, waiting: nat) {
    && waiting <= |s.pending| && waiting <= |s.starts|
    && (forall i :: 0 <= i < waiting ==> s.pending[i] == s.starts[|s.starts| - waiting + i])
    && (forall i :: 0 <= i < |s.starts| - waiting ==> s.starts[i] in s.expanded || s.starts[i] in current)
  }

  /** A node expanded for the first time is at level base, and so is any that is not a start. */
  ghost predicate AtBase<N>(s: Search<N>, origin: N, base: nat) {
    && origin in s.level && s.level[origin] <= base
    && (origin in s.expanded || s.level[origin] == base) && (origin in s.starts || s.level[origin] == base)
  }

  function OneFewer(waiting: nat): nat { if waiting == 0 then 0 else waiting - 1 }

  function Later(base: nat, level: nat): nat { if level > base then level else base }

  lemma BeginTurn<N>(s: Search<N>, waiting: nat)
    requires InTurn(s, {}, waiting) && s.pending != []
    ensures InTurn(s.(pending := s.pending[1..]), {s.pending[0]}, OneFewer(waiting))
    ensures waiting > 0 ==> s.pending[0] in s.starts
    ensures waiting == 0 && s.pending[0] in s.starts ==> s.pending[0] in s.expanded
  {
    var s' := s.(pending := s.pending[1..]);
    if waiting > 0 {
      assert s.starts[|s.starts| - waiting] == s.pending[0];
      forall i | 0 <= i < waiting - 1
        ensures s'.pending[i] == s.starts[|s.starts| - (waiting - 1) + i]
      {
        assert s'.pending[i] == s.pending[i + 1];
      }
    }
  }

  lemma BeginLayer<N(!new)>(g: EdgeMap<N>, s: Search<N>, waiting: nat, base: nat)
    requires Layered(g, s, {}, waiting, base) && s.pending != [] && s.pending[0] in s.level
    requires s.pending[0] in s.starts ==> s.level[s.pending[0]] == 0
    ensures Layered(g, s.(pending := s.pending[1..]), {s.pending[0]}, OneFewer(waiting), Later(base, s.level[s.pending[0]]))
    ensures AtBase(s.(pending := s.pending[1..]), s.pending[0], Later(base, s.level[s.pending[0]]))
  {
    BeginTurn(s, waiting);
    hide InTurn;
  }

  lemma VisitKeepsTurn<N>(s: Search<N>, origin: N, n: N, abandon: bool, waiting: nat)
    requires InTurn(s, {origin}, waiting) && origin in s.level
    ensures InTurn(Visit(s, origin, n, abandon), {origin}, waiting)
  {
    assert s.pending <= Visit(s, origin, n, abandon).pending;
  }

  lemma VisitKeepsLayers<N(!new)>(g: EdgeMap<N>, s: Search<N>, origin: N, n: N, abandon: bool, waiting: nat, base: nat)
    requires origin in s.level && s.level[origin] == base && Layered(g, s, {origin}, waiting, base)
    requires n in s.level ==> n in s.starts
    requires forall u, k :: u in s.expanded && u in g && 0 <= k < |g[u]| ==> g[u][k] in s.level
    ensures Layered(g, Visit(s, origin, n, abandon), {origin}, waiting, base)
  {
    VisitKeepsTurn(s, origin, n, abandon, waiting);
    hide InTurn;
  }

  lemma FinishLayer<N(!new)>(g: EdgeMap<N>, s: Search<N>, origin: N, waiting: nat, base: nat)
    requires origin in g && Layered(g, s, {origin}, waiting, base) && AtBase(s, origin, base)
    requires forall k :: 0 <= k < |g[origin]| ==> g[origin][k] in s.level
    ensures Layered(g, s.(expanded := s.expanded + {origin}), {}, waiting, base)
  {
  }

  // ---------- What a finished search amounts to ----------

  /** No path to n avoids the abandoned nodes and is shorter than d edges, and one is d edges long. */
  ghost predicate IsDistance<N(!new)>(g: EdgeMap<N>, starts: seq<N>, abandoned: set<N>, n: N, d: nat) {
    && (exists p :: |p| == d + 1 && Unabandoned(g, starts, abandoned, p, n))
    && (forall p :: Unabandoned(g, starts, abandoned, p, n) ==> |p| >= d + 1)
  }

  /** A path from a start to n with no abandoned node strictly between its ends. */
  ghost predicate Unabandoned<N>(g: EdgeMap<N>, starts: seq<N>, abandoned: set<N>, p: seq<N>, n: N) {
    && IsPath(g, p) && p[0] in starts && p[|p| - 1] == n
    && forall i :: 0 < i < |p| - 1 ==> p[i] !in abandoned
  }

  /** Everything on such a path is visited, from its second node on. */
  lemma {:induction false} PathIsVisited<N(!new)>(g: EdgeMap<N>, s: Search<N>, p: seq<N>, n: N, i: nat)
    requires Inv(g, s, {}) && s.pending == [] && Unabandoned(g, s.starts, s.abandoned, p, n)
    requires 0 < i < |p|
    ensures p[i] in s.visited && p[i - 1] in s.expanded
  {
    hide Sound;
    if i == 1 {
      assert p[0] in s.expanded;
    } else {
      PathIsVisited(g, s, p, n, i - 1);
      assert p[i - 1] in s.Open();
    }
    assert p[i] in g[p[i - 1]];
    var k :| 0 <= k < |g[p[i - 1]]| && g[p[i - 1]][k] == p[i];
  }

  /** The visited set is the marked starts and whatever a path over at least one edge, through no abandoned node, leads to. */
  lemma FinishedVisited<N(!new)>(g: EdgeMap<N>, s: Search<N>, n: N)
    requires Inv(g, s, {}) && s.pending == []
    ensures n in s.visited <==>
            n in s.marked || exists p :: |p| > 1 && Unabandoned(g, s.starts, s.abandoned, p, n)
  {
    if n in s.visited && n !in s.marked {
      assert OverAnEdge(g, s.starts, s.Open(), n);
      var d :| d > 0 && ReachedIn(g, s.starts, s.Open(), n, d);
      var p :| |p| == d + 1 && Arrives(g, s.starts, s.Open(), p, n);
      assert Unabandoned(g, s.starts, s.abandoned, p, n);
    }
    if p :| |p| > 1 && Unabandoned(g, s.starts, s.abandoned, p, n) {
      PathIsVisited(g, s, p, n, |p| - 1);
    }
  }

  lemma {:induction false} PathLevels<N(!new)>(g: EdgeMap<N>, s: Search<N>, p: seq<N>, n: N, i: nat, base: nat)
    requires Inv(g, s, {}) && s.pending == [] && Layered(g, s, {}, 0, base) && Unabandoned(g, s.starts, s.abandoned, p, n)
    requires i < |p|
    ensures p[i] in s.level && s.level[p[i]] <= i
  {
    hide Sound, Complete;
    if i == 0 {
    } else {
      PathLevels(g, s, p, n, i - 1, base);
      PathIsVisited(g, s, p, n, i);
      assert p[i] in g[p[i - 1]];
      var k :| 0 <= k < |g[p[i - 1]]| && g[p[i - 1]][k] == p[i];
    }
  }

  /** The level of every node that has one is its distance from the starts around abandoned nodes. */
  lemma FinishedDistances<N(!new)>(g: EdgeMap<N>, s: Search<N>, base: nat, n: N)
    requires Inv(g, s, {}) && s.pending == [] && Layered(g, s, {}, 0, base) && n in s.level
    ensures IsDistance(g, s.starts, s.abandoned, n, s.level[n])
  {
    assert ReachedIn(g, s.starts, s.Open(), n, s.level[n]);
    var p :| |p| == s.level[n] + 1 && Arrives(g, s.starts, s.Open(), p, n);
    assert Unabandoned(g, s.starts, s.abandoned, p, n);
    forall q | Unabandoned(g, s.starts, s.abandoned, q, n)
      ensures |q| >= s.level[n] + 1
    {
      PathLevels(g, s, q, n, |q| - 1, base);
    }
  }
}
