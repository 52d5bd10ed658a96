/** Heap graphs as the traversals see them: every node has a list of outgoing edges. */
module HeapGraphs {

  /** The referents of a node's outgoing edges, in the order its range lists them. */
  type EdgeMap<N(==)> = map<N, seq<N>>

  ghost predicate Closed<N>(g: EdgeMap<N>) {
    forall u, k :: u in g && 0 <= k < |g[u]| ==> g[u][k] in g
  }

  ghost predicate IsPath<N>(g: EdgeMap<N>, p: seq<N>) {
    |p| > 0 && forall i :: 0 <= i < |p| - 1 ==> p[i] in g && p[i + 1] in g[p[i]]
  }

  ghost predicate PathAround<N>(g: EdgeMap<N>, p: seq<N>, x: N, y: N, avoid: set<N>) {
    && IsPath(g, p) && p[0] == x && p[|p| - 1] == y
    && forall i :: 0 <= i < |p| ==> p[i] !in avoid
  }

  /** A path leads from x to y around the nodes to avoid. */
  ghost predicate Leads<N(!new)>(g: EdgeMap<N>, x: N, y: N, avoid: set<N>) {
    exists p :: PathAround(g, p, x, y, avoid)
  }

  lemma LeadsSelf<N(!new)>(g: EdgeMap<N>, x: N, avoid: set<N>)
    requires x !in avoid
    ensures Leads(g, x, x, avoid)
  {
    assert PathAround(g, [x], x, x, avoid);
  }

  lemma LeadsOn<N(!new)>(g: EdgeMap<N>, x: N, y: N, z: N, avoid: set<N>)
    requires Leads(g, x, y, avoid) && y in g && z in g[y] && z !in avoid
    ensures Leads(g, x, z, avoid)
  {
    var p :| PathAround(g, p, x, y, avoid);
    assert PathAround(g, p + [z], x, z, avoid);
  }

  lemma LeadsWiden<N(!new)>(g: EdgeMap<N>, x: N, y: N, avoid: set<N>)
    requires Leads(g, x, y, avoid)
    ensures Leads(g, x, y, {})
  {
    var p :| PathAround(g, p, x, y, avoid);
    assert PathAround(g, p, x, y, {});
  }

  /** A set closed under edges, up to the avoided nodes, keeps what its members lead to around them. */
  lemma LeadsStays<N(!new)>(g: EdgeMap<N>, inside: set<N>, x: N, y: N, avoid: set<N>)
    requires forall u, v :: u in inside && u in g && v in g[u] ==> v in inside || v in avoid
    requires x in inside && Leads(g, x, y, avoid)
    ensures y in inside
  {
    var p :| PathAround(g, p, x, y, avoid);
    PathStays(g, inside, p, avoid, |p| - 1);
  }

  lemma {:induction false} PathStays<N>(g: EdgeMap<N>, inside: set<N>, p: seq<N>, avoid: set<N>, n: nat)
    requires forall u, v :: u in inside && u in g && v in g[u] ==> v in inside || v in avoid
    requires n < |p| && p[0] in inside && PathAround(g, p, p[0], p[|p| - 1], avoid)
    ensures p[n] in inside
  {
    if n == 0 {
    } else {
      PathStays(g, inside, p, avoid, n - 1);
    }
  }
}
