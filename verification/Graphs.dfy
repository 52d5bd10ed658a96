/** Finite directed graphs and reachability. */
module Graphs {

  type Graph<V(==)> = map<V, set<V>>

  /** Every edge stays inside the vertex set. */
  ghost predicate Closed<V>(g: Graph<V>) {
    forall v :: v in g ==> g[v] <= g.Keys
  }

  ghost predicate IsPath<V>(g: Graph<V>, p: seq<V>, x: V, y: V) {
    && |p| > 0 && p[0] == x && p[|p| - 1] == y
    && forall i :: 0 <= i < |p| - 1 ==> p[i] in g && p[i + 1] in g[p[i]]
  }

  ghost predicate Reach<V(!new)>(g: Graph<V>, x: V, y: V) {
    exists p :: IsPath(g, p, x, y)
  }

  lemma ReachSelf<V(!new)>(g: Graph<V>, x: V)
    ensures Reach(g, x, x)
  {
    assert IsPath(g, [x], x, x);
  }

  lemma ReachEdge<V(!new)>(g: Graph<V>, x: V, y: V)
    requires x in g && y in g[x]
    ensures Reach(g, x, y)
  {
    assert IsPath(g, [x, y], x, y);
  }

  lemma ReachTrans<V(!new)>(g: Graph<V>, x: V, y: V, z: V)
    requires Reach(g, x, y) && Reach(g, y, z)
    ensures Reach(g, x, z)
  {
    var p :| IsPath(g, p, x, y);
    var q :| IsPath(g, q, y, z);
    var r := p + q[1..];
    forall i | 0 <= i < |r| - 1
      ensures r[i] in g && r[i + 1] in g[r[i]]
    {
      if i >= |p| - 1 {
        assert r[i] == q[i - (|p| - 1)];
      }
    }
    assert IsPath(g, r, x, z);
  }

  /** A set closed under edges keeps everything its members reach. */
  ghost predicate Absorbing<V>(g: Graph<V>, s: set<V>) {
    forall v :: v in s && v in g ==> g[v] <= s
  }

  lemma ReachStays<V(!new)>(g: Graph<V>, s: set<V>, x: V, y: V)
    requires Absorbing(g, s) && x in s && Reach(g, x, y)
    ensures y in s
  {
    var p :| IsPath(g, p, x, y);
    PathStays(g, s, p, |p| - 1);
  }

  lemma {:induction false} PathStays<V>(g: Graph<V>, s: set<V>, p: seq<V>, n: nat)
    requires Absorbing(g, s) && n < |p| && p[0] in s && IsPath(g, p, p[0], p[|p| - 1])
    ensures p[n] in s
  {
    if n == 0 {
    } else {
      PathStays(g, s, p, n - 1);
    }
  }

  /** Two vertices lie on a common cycle, or are the same. */
  ghost predicate Connected<V(!new)>(g: Graph<V>, x: V, y: V) {
    Reach(g, x, y) && Reach(g, y, x)
  }

  function Elements<V>(s: seq<V>): set<V> {
    set x | x in s
  }

  ghost predicate NoRepeats<V>(s: seq<V>) {
    forall i, j :: 0 <= i < j < |s| ==> s[i] != s[j]
  }

  lemma CutElements<V>(s: seq<V>, n: nat)
    requires n <= |s| && NoRepeats(s)
    ensures Elements(s) == Elements(s[..n]) + Elements(s[n..])
    ensures Elements(s[..n]) !! Elements(s[n..])
  {
    assert s == s[..n] + s[n..];
    forall x | x in s[n..]
      ensures x !in s[..n]
    {
      var j :| n <= j < |s| && s[j] == x;
    }
  }

  /** The blocks cover vs, and no vertex is listed twice, in one block or in two. */
  ghost predicate Partitions<V(!new)>(blocks: seq<seq<V>>, vs: set<V>) {
    && (forall i :: 0 <= i < |blocks| ==> |blocks[i]| > 0 && NoRepeats(blocks[i]))
    && (forall i, j :: 0 <= i < j < |blocks| ==> Elements(blocks[i]) !! Elements(blocks[j]))
    && (forall x :: x in vs <==> exists i :: 0 <= i < |blocks| && x in blocks[i])
  }

  /** Two vertices share a block exactly when each reaches the other. */
  ghost predicate BlocksAreComponents<V(!new)>(g: Graph<V>, blocks: seq<seq<V>>) {
    forall i, x, y :: 0 <= i < |blocks| && x in blocks[i] ==> (y in blocks[i] <==> Connected(g, x, y))
  }

  /** Every edge leaving a block leads to an earlier block. */
  ghost predicate ReverseTopological<V>(g: Graph<V>, blocks: seq<seq<V>>) {
    forall i, x, y :: 0 <= i < |blocks| && x in blocks[i] && x in g && y in g[x] && y !in blocks[i] ==>
      exists j :: 0 <= j < i && y in blocks[j]
  }
}
