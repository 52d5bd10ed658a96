/** How draw_SCC of config/check_spidermonkey_style.py draws one component of the include graph. */
module CycleDrawings {
  import opened Graphs

  datatype Line<V> = Vertex(v: V, indent: nat) | Blank

  /** The edges from vertices in s to members of the component. */
  ghost function Arcs<V>(g: Graph<V>, cset: set<V>, s: set<V>): set<(V, V)> {
    set x, y | x in s && x in g && y in g[x] && y in cset :: (x, y)
  }

  lemma ArcsAdd<V>(g: Graph<V>, cset: set<V>, s: set<V>, t: set<V>)
    requires s !! t
    ensures |Arcs(g, cset, s + t)| == |Arcs(g, cset, s)| + |Arcs(g, cset, t)|
  {
    assert Arcs(g, cset, s + t) == Arcs(g, cset, s) + Arcs(g, cset, t);
    assert Arcs(g, cset, s) !! Arcs(g, cset, t);
  }

  ghost function ArcsFrom<V>(v: V, targets: set<V>): set<(V, V)> {
    set y | y in targets :: (v, y)
  }

  lemma {:induction false} ArcsFromCount<V>(v: V, targets: set<V>)
    ensures |ArcsFrom(v, targets)| == |targets|
    decreases targets
  {
    if targets == {} {
    } else {
      var y :| y in targets;
      ArcsFromCount(v, targets - {y});
      assert ArcsFrom(v, targets) == ArcsFrom(v, targets - {y}) + {(v, y)};
    }
  }

  lemma ArcsOfOne<V>(g: Graph<V>, cset: set<V>, v: V)
    requires v in g
    ensures |Arcs(g, cset, {v})| == |g[v] * cset|
  {
    assert Arcs(g, cset, {v}) == ArcsFrom(v, g[v] * cset);
    ArcsFromCount(v, g[v] * cset);
  }

  /** sorted(): any listing of a set that names each member once. */
  ghost predicate Lists<V(!new)>(sorted: set<V> -> seq<V>) {
    forall s :: NoRepeats(sorted(s)) && Elements(sorted(s)) == s
  }

  lemma ListsOf<V(!new)>(sorted: set<V> -> seq<V>, s: set<V>)
    requires Lists(sorted)
    ensures NoRepeats(sorted(s)) && Elements(sorted(s)) == s
  {
  }

  // ---------- The drawing ----------

  /** draw: the lines for v, and the members drawn after them. */
  ghost function Drawing<V(!new)>(g: Graph<V>, cset: set<V>, sorted: set<V> -> seq<V>, v: V, indent: nat, drawn: set<V>)
    : (r: (seq<Line<V>>, set<V>))
    requires cset <= g.Keys && v in cset && drawn <= cset
    ensures drawn + {v} <= r.1 <= cset
    decreases cset - drawn, 0
  {
    if v in drawn then ([Vertex(v, indent)], drawn)
    else
      var below := DrawingsBelow(g, cset, sorted, sorted(g[v]), indent + 1, drawn + {v});
      ([Vertex(v, indent)] + below.0, below.1)
  }

  /** Its loop: those of succs that are members, in turn. */
  ghost function DrawingsBelow<V(!new)>(g: Graph<V>, cset: set<V>, sorted: set<V> -> seq<V>, succs: seq<V>, indent: nat, drawn: set<V>)
    : (r: (seq<Line<V>>, set<V>))
    requires cset <= g.Keys && drawn <= cset
    ensures drawn <= r.1 <= cset
    decreases cset - drawn, |succs| + 1
  {
    if succs == [] then ([], drawn)
    else if succs[0] !in cset then DrawingsBelow(g, cset, sorted, succs[1..], indent, drawn)
    else
      var here := Drawing(g, cset, sorted, succs[0], indent, drawn);
      var rest := DrawingsBelow(g, cset, sorted, succs[1..], indent, here.1);
      (here.0 + rest.0, rest.1)
  }

  /** draw_SCC: from the first member, and a blank line. */
  ghost function ComponentDrawing<V(!new)>(g: Graph<V>, c: seq<V>, sorted: set<V> -> seq<V>): seq<Line<V>>
    requires Drawable(g, c) && Lists(sorted)
  {
    FirstMember(c, sorted);
    Drawing(g, Elements(c), sorted, sorted(Elements(c))[0], 0, {}).0 + [Blank]
  }

  ghost predicate Drawable<V>(g: Graph<V>, c: seq<V>) {
    |c| > 0 && Elements(c) <= g.Keys
  }

  lemma FirstMember<V(!new)>(c: seq<V>, sorted: set<V> -> seq<V>)
    requires |c| > 0 && Lists(sorted)
    ensures sorted(Elements(c)) != [] && sorted(Elements(c))[0] in Elements(c)
  {
    var order := sorted(Elements(c));
    assert c[0] in Elements(order);
    assert order[0] in Elements(order);
  }

  // ---------- Lines and their parents ----------

  /** Line j is the parent of line i: one step less indented, nothing so shallow between them, and joined by an inner edge. */
  ghost predicate IsParent<V>(g: Graph<V>, cset: set<V>, block: seq<Line<V>>, j: nat, i: nat)
    requires j < i < |block|
  {
    && block[j].Vertex? && block[i].Vertex? && block[j].indent + 1 == block[i].indent
    && block[j].v in g && block[i].v in g[block[j].v] && block[i].v in cset
    && forall m :: j < m < i ==> block[m].Vertex? && block[m].indent >= block[i].indent
  }

  ghost predicate HasParent<V>(g: Graph<V>, cset: set<V>, block: seq<Line<V>>, i: nat)
    requires i < |block|
  {
    exists j :: 0 <= j < i && IsParent(g, cset, block, j, i)
  }

  /** An outline headed by v: every further line lies below a parent. */
  ghost predicate Outline<V>(g: Graph<V>, cset: set<V>, block: seq<Line<V>>, v: V, indent: nat) {
    && |block| > 0 && block[0] == Vertex(v, indent)
    && (forall i :: 0 < i < |block| ==> block[i].Vertex? && block[i].indent > indent)
    && (forall i :: 0 < i < |block| ==> HasParent(g, cset, block, i))
  }

  /** The outline of a successor, one step further in, goes under the outline so far. */
  lemma OutlineGrows<V>(g: Graph<V>, cset: set<V>, block: seq<Line<V>>, v: V, indent: nat, sub: seq<Line<V>>, w: V)
    requires Outline(g, cset, block, v, indent) && Outline(g, cset, sub, w, indent + 1)
    requires v in g && w in g[v] && w in cset
    ensures Outline(g, cset, block + sub, v, indent)
  {
    var all, n := block + sub, |block|;
    forall i | 0 < i < |all|
      ensures HasParent(g, cset, all, i)
    {
      if i < n {
        assert HasParent(g, cset, block, i);
        var j :| 0 <= j < i && IsParent(g, cset, block, j, i);
        assert IsParent(g, cset, all, j, i);
      } else if i == n {
        assert IsParent(g, cset, all, 0, i);
      } else {
        var k := i - n;
        assert HasParent(g, cset, sub, k);
        var j :| 0 <= j < k && IsParent(g, cset, sub, j, k);
        SubParent(g, cset, block, sub, j, k);
      }
    }
  }

  lemma SubParent<V>(g: Graph<V>, cset: set<V>, block: seq<Line<V>>, sub: seq<Line<V>>, j: nat, i: nat)
    requires j < i < |sub| && IsParent(g, cset, sub, j, i)
    ensures IsParent(g, cset, block + sub, |block| + j, |block| + i)
  {
    var all, n := block + sub, |block|;
    forall m | n + j < m < n + i
      ensures all[m].Vertex? && all[m].indent >= all[n + i].indent
    {
      assert all[m] == sub[m - n];
    }
  }

  ghost predicate AllVertices<V>(block: seq<Line<V>>) {
    forall i :: 0 <= i < |block| ==> block[i].Vertex?
  }

  /** The vertex of the last line that is less indented, or of the first line. */
  ghost function Above<V>(block: seq<Line<V>>, indent: nat): V
    requires |block| > 0 && AllVertices(block)
  {
    var last := block[|block| - 1];
    if |block| == 1 || last.indent < indent then last.v else Above(block[..|block| - 1], indent)
  }

  /** For each line but the first, the vertex it is drawn below and its own. */
  ghost function ParentArcs<V>(block: seq<Line<V>>): (arcs: seq<(V, V)>)
    requires AllVertices(block)
    ensures |arcs| == if block == [] then 0 else |block| - 1
  {
    if |block| <= 1 then []
    else
      var front, last := block[..|block| - 1], block[|block| - 1];
      ParentArcs(front) + [(Above(front, last.indent), last.v)]
  }

  /** Above finds the parent. */
  lemma {:induction false} ParentIsAbove<V>(g: Graph<V>, cset: set<V>, block: seq<Line<V>>, j: nat, i: nat, k: nat)
    requires AllVertices(block) && j < i < |block| && IsParent(g, cset, block, j, i) && j < k <= i
    ensures Above(block[..k], block[i].indent) == block[j].v
    decreases k
  {
    var prefix := block[..k];
    assert prefix[k - 1] == block[k - 1];
    if k - 1 > j {
      ParentIsAbove(g, cset, block, j, i, k - 1);
      assert prefix[..k - 1] == block[..k - 1];
    }
  }

  lemma {:induction false} ParentArcAt<V>(g: Graph<V>, cset: set<V>, block: seq<Line<V>>, j: nat, i: nat)
    requires AllVertices(block) && j < i < |block| && IsParent(g, cset, block, j, i)
    ensures ParentArcs(block)[i - 1] == (block[j].v, block[i].v)
    decreases |block|
  {
    var front := block[..|block| - 1];
    if i == |block| - 1 {
      ParentIsAbove(g, cset, block, j, i, i);
    } else {
      assert IsParent(g, cset, front, j, i);
      ParentArcAt(g, cset, front, j, i);
    }
  }

  /** Lines headed by v, the further ones further in. */
  ghost predicate Headed<V>(block: seq<Line<V>>, v: V, indent: nat) {
    && |block| > 0 && AllVertices(block) && block[0] == Vertex(v, indent)
    && forall i :: 0 < i < |block| ==> block[i].indent > indent
  }

  lemma {:induction false} AboveIsHead<V>(block: seq<Line<V>>, v: V, indent: nat)
    requires Headed(block, v, indent)
    ensures Above(block, indent + 1) == v
  {
    if |block| > 1 {
      AboveIsHead(block[..|block| - 1], v, indent);
    }
  }

  lemma {:induction false} AboveInSub<V>(block: seq<Line<V>>, sub: seq<Line<V>>, indent: nat)
    requires |block| > 0 && |sub| > 0 && AllVertices(block) && AllVertices(sub) && sub[0].indent < indent
    ensures Above(block + sub, indent) == Above(sub, indent)
    decreases |sub|
  {
    var all := block + sub;
    assert all[|all| - 1] == sub[|sub| - 1];
    if |sub| > 1 && sub[|sub| - 1].indent >= indent {
      AboveInSub(block, sub[..|sub| - 1], indent);
      assert all[..|all| - 1] == block + sub[..|sub| - 1];
    }
  }

  /** Lines for a member put below v bring the arc to it and their own. */
  lemma {:induction false} ArcsOfJoined<V>(block: seq<Line<V>>, v: V, indent: nat, sub: seq<Line<V>>, w: V)
    requires Headed(block, v, indent) && Headed(sub, w, indent + 1)
    ensures ParentArcs(block + sub) == ParentArcs(block) + [(v, w)] + ParentArcs(sub)
    decreases |sub|
  {
    var all, front := block + sub, sub[..|sub| - 1];
    assert all[..|all| - 1] == block + front;
    assert all[|all| - 1] == sub[|sub| - 1];
    if |sub| == 1 {
      assert block + front == block;
      AboveIsHead(block, v, indent);
    } else {
      ArcsOfJoined(block, v, indent, front, w);
      AboveInSub(block, front, sub[|sub| - 1].indent);
    }
  }

  lemma ElementsOfSum<T>(a: seq<T>, b: seq<T>)
    ensures Elements(a + b) == Elements(a) + Elements(b)
  {
  }

  lemma {:induction false} AsManyAsMembers<T>(s: seq<T>)
    ensures |Elements(s)| <= |s|
    ensures |Elements(s)| == |s| ==> NoRepeats(s)
  {
    if s == [] {
    } else {
      var front, x := s[..|s| - 1], s[|s| - 1];
      AsManyAsMembers(front);
      assert Elements(s) == Elements(front) + {x};
      assert x in front <==> x in Elements(front);
    }
  }

  // ---------- What is drawn ----------

  /** Members drawn since then point only at drawn members. */
  ghost predicate Settled<V>(g: Graph<V>, cset: set<V>, since: set<V>, drawn: set<V>) {
    forall x, y :: x in drawn - since && x in g && y in g[x] && y in cset ==> y in drawn
  }

  /** The lines headed by v show every inner edge of every member drawn since, one line each. */
  ghost predicate Shows<V>(g: Graph<V>, cset: set<V>, block: seq<Line<V>>, v: V, indent: nat, since: set<V>, drawn: set<V>) {
    && Outline(g, cset, block, v, indent) && Headed(block, v, indent)
    && Elements(ParentArcs(block)) == Arcs(g, cset, drawn - since)
    && |block| == 1 + |Arcs(g, cset, drawn - since)| && Settled(g, cset, since, drawn)
  }

  /** The same while v's own inner edges have been followed only to those in done. */
  ghost predicate ShowsSoFar<V>(g: Graph<V>, cset: set<V>, block: seq<Line<V>>, v: V, indent: nat,
                                since: set<V>, done: set<V>, drawn: set<V>) {
    && Outline(g, cset, block, v, indent) && Headed(block, v, indent)
    && Elements(ParentArcs(block)) == ArcsFrom(v, done) + Arcs(g, cset, drawn - since)
    && |block| == 1 + |done| + |Arcs(g, cset, drawn - since)| && Settled(g, cset, since, drawn) && done <= drawn
  }

  lemma DrawnInTurn<V>(g: Graph<V>, cset: set<V>, a: set<V>, b: set<V>, c: set<V>)
    requires a <= b <= c && Settled(g, cset, a, b) && Settled(g, cset, b, c)
    ensures Settled(g, cset, a, c)
    ensures |Arcs(g, cset, c - a)| == |Arcs(g, cset, b - a)| + |Arcs(g, cset, c - b)|
  {
    assert c - a == (b - a) + (c - b);
    ArcsAdd(g, cset, b - a, c - b);
  }

  lemma DrawnHere<V>(g: Graph<V>, cset: set<V>, v: V, before: set<V>, entered: set<V>, drawn: set<V>)
    requires v in g && v !in before && entered == before + {v} && entered <= drawn
    requires Settled(g, cset, entered, drawn) && g[v] * cset <= drawn
    ensures Settled(g, cset, before, drawn)
    ensures |Arcs(g, cset, drawn - before)| == |g[v] * cset| + |Arcs(g, cset, drawn - entered)|
  {
    ArcsOfOne(g, cset, v);
    assert drawn - before == {v} + (drawn - entered);
    ArcsAdd(g, cset, {v}, drawn - entered);
  }

  lemma NothingNew<V>(g: Graph<V>, cset: set<V>, drawn: set<V>)
    ensures Arcs(g, cset, drawn - drawn) == {} && Settled(g, cset, drawn, drawn)
  {
  }

  lemma ShowsOne<V>(g: Graph<V>, cset: set<V>, v: V, indent: nat, drawn: set<V>)
    ensures Shows(g, cset, [Vertex(v, indent)], v, indent, drawn, drawn)
    ensures ShowsSoFar(g, cset, [Vertex(v, indent)], v, indent, drawn, {}, drawn)
  {
    NothingNew(g, cset, drawn);
  }

  lemma ShowsMore<V>(g: Graph<V>, cset: set<V>, block: seq<Line<V>>, v: V, indent: nat, since: set<V>, done: set<V>,
                     drawn: set<V>, sub: seq<Line<V>>, w: V, later: set<V>)
    requires ShowsSoFar(g, cset, block, v, indent, since, done, drawn) && since <= drawn <= later && w in later
    requires Shows(g, cset, sub, w, indent + 1, drawn, later)
    requires v in g && w in g[v] && w in cset && w !in done
    ensures ShowsSoFar(g, cset, block + sub, v, indent, since, done + {w}, later)
  {
    hide Outline, Settled, Arcs, ParentArcs, Elements;
    OutlineGrows(g, cset, block, v, indent, sub, w);
    ArcsOfJoined(block, v, indent, sub, w);
    ElementsOfSum(ParentArcs(block) + [(v, w)], ParentArcs(sub));
    ElementsOfSum(ParentArcs(block), [(v, w)]);
    DrawnInTurn(g, cset, since, drawn, later);
    assert Arcs(g, cset, later - since) == Arcs(g, cset, drawn - since) + Arcs(g, cset, later - drawn) by {
      ArcsOfSum(g, cset, since, drawn, later);
    }
    assert Elements([(v, w)]) == {(v, w)} by { ElementsOfOne((v, w)); }
    assert ArcsFrom(v, done + {w}) == ArcsFrom(v, done) + {(v, w)};
  }

  lemma ElementsOfOne<T>(x: T)
    ensures Elements([x]) == {x}
  {
  }

  lemma ArcsOfSum<V>(g: Graph<V>, cset: set<V>, a: set<V>, b: set<V>, c: set<V>)
    requires a <= b <= c
    ensures Arcs(g, cset, c - a) == Arcs(g, cset, b - a) + Arcs(g, cset, c - b)
  {
  }

  lemma ShowsAll<V>(g: Graph<V>, cset: set<V>, block: seq<Line<V>>, v: V, indent: nat, before: set<V>, drawn: set<V>)
    requires v in g && v !in before && before + {v} <= drawn
    requires ShowsSoFar(g, cset, block, v, indent, before + {v}, g[v] * cset, drawn)
    ensures Shows(g, cset, block, v, indent, before, drawn)
  {
    hide Outline;
    DrawnHere(g, cset, v, before, before + {v}, drawn);
    ArcsOfSum(g, cset, before, before + {v}, drawn);
    assert (before + {v}) - before == {v};
    assert Arcs(g, cset, {v}) == ArcsFrom(v, g[v] * cset);
  }

  lemma {:induction false} DrawingShows<V(!new)>(g: Graph<V>, cset: set<V>, sorted: set<V> -> seq<V>, v: V, indent: nat, drawn: set<V>)
    requires Lists(sorted) && cset <= g.Keys && v in cset && drawn <= cset
    ensures var (lines, later) := Drawing(g, cset, sorted, v, indent, drawn);
            Shows(g, cset, lines, v, indent, drawn, later)
    decreases cset - drawn, 0
  {
    hide Shows, ShowsSoFar, Lists;
    ShowsOne(g, cset, v, indent, drawn);
    if v !in drawn {
      var succs := sorted(g[v]);
      ListsOf(sorted, g[v]);
      ShowsOne(g, cset, v, indent, drawn + {v});
      BelowShows(g, cset, sorted, succs, indent + 1, drawn + {v}, [Vertex(v, indent)], v, drawn + {v}, {});
      assert Elements(succs) * cset + {} == g[v] * cset;
      ShowsAll(g, cset, Drawing(g, cset, sorted, v, indent, drawn).0, v, indent, drawn, Drawing(g, cset, sorted, v, indent, drawn).1);
    }
  }

  lemma {:induction false} BelowShows<V(!new)>(g: Graph<V>, cset: set<V>, sorted: set<V> -> seq<V>, succs: seq<V>, indent: nat,
                                               drawn: set<V>, block: seq<Line<V>>, v: V, since: set<V>, done: set<V>)
    requires Lists(sorted) && cset <= g.Keys && drawn <= cset && since <= drawn && indent > 0
    requires v in g && Elements(succs) <= g[v] && NoRepeats(succs) && done !! Elements(succs)
    requires ShowsSoFar(g, cset, block, v, indent - 1, since, done, drawn)
    ensures var (lines, later) := DrawingsBelow(g, cset, sorted, succs, indent, drawn);
            ShowsSoFar(g, cset, block + lines, v, indent - 1, since, done + Elements(succs) * cset, later)
    decreases cset - drawn, |succs| + 1
  {
    hide Shows, ShowsSoFar, Lists, NoRepeats, Elements;
    var all := DrawingsBelow(g, cset, sorted, succs, indent, drawn);
    if succs == [] {
      NoElements<V>();
      assert block + [] == block && done + Elements(succs) * cset == done;
    } else {
      FirstElement(succs);
      var w, rest := succs[0], succs[1..];
      if w !in cset {
        BelowShows(g, cset, sorted, rest, indent, drawn, block, v, since, done);
        assert done + Elements(succs) * cset == done + Elements(rest) * cset;
      } else {
        var here := Drawing(g, cset, sorted, w, indent, drawn);
        DrawingShows(g, cset, sorted, w, indent, drawn);
        ShowsMore(g, cset, block, v, indent - 1, since, done, drawn, here.0, w, here.1);
        BelowShows(g, cset, sorted, rest, indent, here.1, block + here.0, v, since, done + {w});
        var below := DrawingsBelow(g, cset, sorted, rest, indent, here.1);
        assert block + here.0 + below.0 == block + all.0;
        assert done + {w} + Elements(rest) * cset == done + Elements(succs) * cset;
      }
    }
  }

  lemma NoElements<T>()
    ensures Elements<T>([]) == {}
  {
  }

  lemma FirstElement<T>(s: seq<T>)
    requires s != [] && NoRepeats(s)
    ensures Elements(s) == {s[0]} + Elements(s[1..]) && s[0] !in Elements(s[1..]) && NoRepeats(s[1..])
  {
    assert s == [s[0]] + s[1..];
  }

  // ---------- In what order, and how often ----------

  function Members<V(==)>(succs: seq<V>, cset: set<V>): seq<V> {
    if succs == [] then [] else (if succs[0] in cset then [succs[0]] else []) + Members(succs[1..], cset)
  }

  /** What is drawn below x, in the order of the lines. */
  ghost function Targets<V>(arcs: seq<(V, V)>, x: V): seq<V> {
    if arcs == [] then []
    else
      var last := arcs[|arcs| - 1];
      Targets(arcs[..|arcs| - 1], x) + if last.0 == x then [last.1] else []
  }

  lemma {:induction false} TargetsOfSum<V>(a: seq<(V, V)>, b: seq<(V, V)>, x: V)
    ensures Targets(a + b, x) == Targets(a, x) + Targets(b, x)
  {
    if b == [] {
      assert a + b == a;
    } else {
      var front := b[..|b| - 1];
      TargetsOfSum(a, front, x);
      assert (a + b)[..|a + b| - 1] == a + front;
    }
  }

  lemma TargetsOfOne<V>(v: V, w: V, x: V)
    ensures Targets([(v, w)], x) == if x == v then [w] else []
  {
    assert [(v, w)][..0] == [];
  }

  /** The inner successors of x, as sorted, if x has been drawn since. */
  ghost function Opened<V(!new)>(g: Graph<V>, cset: set<V>, sorted: set<V> -> seq<V>, x: V, since: set<V>, drawn: set<V>): seq<V>
    requires x in g
  {
    if x in drawn - since then Members(sorted(g[x]), cset) else []
  }

  lemma OpenedInTurn<V(!new)>(g: Graph<V>, cset: set<V>, sorted: set<V> -> seq<V>, x: V, a: set<V>, b: set<V>, c: set<V>)
    requires x in g && a <= b <= c
    ensures Opened(g, cset, sorted, x, a, c) == Opened(g, cset, sorted, x, a, b) + Opened(g, cset, sorted, x, b, c)
  {
  }

  lemma NoneOpened<V(!new)>(g: Graph<V>, cset: set<V>, sorted: set<V> -> seq<V>, x: V, drawn: set<V>)
    requires x in g
    ensures Opened(g, cset, sorted, x, drawn, drawn) == []
  {
  }

  lemma OpenedBefore<V(!new)>(g: Graph<V>, cset: set<V>, sorted: set<V> -> seq<V>, x: V, since: set<V>, drawn: set<V>)
    requires x in g && x in since
    ensures Opened(g, cset, sorted, x, since, drawn) == []
  {
  }

  lemma HeadedGrows<V>(block: seq<Line<V>>, v: V, indent: nat, sub: seq<Line<V>>, w: V)
    requires Headed(block, v, indent) && Headed(sub, w, indent + 1)
    ensures Headed(block + sub, v, indent)
  {
  }

  lemma TargetsOfJoined<V>(block: seq<Line<V>>, v: V, indent: nat, sub: seq<Line<V>>, w: V, x: V)
    requires Headed(block, v, indent) && Headed(sub, w, indent + 1)
    ensures AllVertices(block + sub)
    ensures Targets(ParentArcs(block + sub), x) ==
            Targets(ParentArcs(block), x) + (if x == v then [w] else []) + Targets(ParentArcs(sub), x)
  {
    hide Targets, ParentArcs;
    ArcsOfJoined(block, v, indent, sub, w);
    TargetsOfSum(ParentArcs(block) + [(v, w)], ParentArcs(sub), x);
    TargetsOfSum(ParentArcs(block), [(v, w)], x);
    TargetsOfOne(v, w, x);
  }

  lemma {:induction false} DrawingTargets<V(!new)>(g: Graph<V>, cset: set<V>, sorted: set<V> -> seq<V>, v: V, indent: nat,
                                                   drawn: set<V>, x: V)
    requires Lists(sorted) && cset <= g.Keys && v in cset && drawn <= cset && x in g
    ensures var (lines, later) := Drawing(g, cset, sorted, v, indent, drawn);
            Headed(lines, v, indent) && Targets(ParentArcs(lines), x) == Opened(g, cset, sorted, x, drawn, later)
    decreases cset - drawn, 0
  {
    hide Lists, DrawingsBelow, Targets, Members;
    DrawingShows(g, cset, sorted, v, indent, drawn);
    NoTargets(x);
    if v !in drawn {
      var entered := drawn + {v};
      BelowTargets(g, cset, sorted, sorted(g[v]), indent + 1, entered, [Vertex(v, indent)], v, x);
      var below := DrawingsBelow(g, cset, sorted, sorted(g[v]), indent + 1, entered);
      OpenedInTurn(g, cset, sorted, x, drawn, entered, below.1);
    }
  }

  lemma NoTargets<V>(x: V)
    ensures Targets([], x) == []
  {
  }

  /** Drawing further successors below v brings those that are members, and what is drawn below any of them. */
  lemma {:induction false} BelowTargets<V(!new)>(g: Graph<V>, cset: set<V>, sorted: set<V> -> seq<V>, succs: seq<V>, indent: nat,
                                                 drawn: set<V>, block: seq<Line<V>>, v: V, x: V)
    requires Lists(sorted) && cset <= g.Keys && drawn <= cset && x in g && v in drawn
    requires indent > 0 && Headed(block, v, indent - 1)
    ensures var (lines, later) := DrawingsBelow(g, cset, sorted, succs, indent, drawn);
            && Headed(block + lines, v, indent - 1)
            && Targets(ParentArcs(block + lines), x) ==
               Targets(ParentArcs(block), x) + (if x == v then Members(succs, cset) else []) + Opened(g, cset, sorted, x, drawn, later)
    decreases cset - drawn, |succs| + 1
  {
    hide Lists, Headed, Targets, ParentArcs, Drawing, Opened;
    var all := DrawingsBelow(g, cset, sorted, succs, indent, drawn);
    if succs == [] {
      NoneOpened(g, cset, sorted, x, drawn);
      assert block + [] == block;
    } else {
      var w, rest := succs[0], succs[1..];
      if w !in cset {
        BelowTargets(g, cset, sorted, rest, indent, drawn, block, v, x);
      } else {
        var here := Drawing(g, cset, sorted, w, indent, drawn);
        DrawingTargets(g, cset, sorted, w, indent, drawn, x);
        HeadedGrows(block, v, indent - 1, here.0, w);
        TargetsOfJoined(block, v, indent - 1, here.0, w, x);
        if x == v {
          OpenedBefore(g, cset, sorted, x, drawn, here.1);
        }
        BelowTargets(g, cset, sorted, rest, indent, here.1, block + here.0, v, x);
        var below := DrawingsBelow(g, cset, sorted, rest, indent, here.1);
        assert block + here.0 + below.0 == block + all.0;
        OpenedInTurn(g, cset, sorted, x, drawn, here.1, below.1);
      }
    }
  }

  /** No earlier line is for the vertex of line j. */
  ghost predicate FirstOfItsVertex<V>(block: seq<Line<V>>, j: nat)
    requires j < |block|
  {
    forall m :: 0 <= m < j && block[m].Vertex? && block[j].Vertex? ==> block[m].v != block[j].v
  }

  /** Only the first line for a vertex has lines below it, and none if the vertex was drawn before. */
  ghost predicate OpenedOnce<V>(g: Graph<V>, cset: set<V>, block: seq<Line<V>>, before: set<V>) {
    forall j, i :: 0 <= j < i < |block| && IsParent(g, cset, block, j, i) ==>
      block[j].v !in before && FirstOfItsVertex(block, j)
  }

  ghost predicate Within<V>(block: seq<Line<V>>, s: set<V>) {
    forall i :: 0 <= i < |block| && block[i].Vertex? ==> block[i].v in s
  }

  lemma OpenedJoined<V>(g: Graph<V>, cset: set<V>, block: seq<Line<V>>, v: V, indent: nat, sub: seq<Line<V>>, w: V,
                        before: set<V>, drawn: set<V>)
    requires Headed(block, v, indent) && Headed(sub, w, indent + 1) && v !in before && before <= drawn
    requires OpenedOnce(g, cset, block, before) && OpenedOnce(g, cset, sub, drawn) && Within(block, drawn)
    ensures OpenedOnce(g, cset, block + sub, before)
  {
    var all, n := block + sub, |block|;
    forall j, i | 0 <= j < i < |all| && IsParent(g, cset, all, j, i)
      ensures all[j].v !in before && FirstOfItsVertex(all, j)
    {
      if i < n {
        ParentInFront(g, cset, block, sub, j, i);
      } else if j >= n {
        ParentInSub(g, cset, block, sub, j, i);
        assert FirstOfItsVertex(sub, j - n);
      } else {
        OnlyHeadAbove(g, cset, block, v, indent, sub, w, j, i);
      }
    }
  }

  lemma ParentInFront<V>(g: Graph<V>, cset: set<V>, block: seq<Line<V>>, sub: seq<Line<V>>, j: nat, i: nat)
    requires j < i < |block| && IsParent(g, cset, block + sub, j, i)
    ensures IsParent(g, cset, block, j, i)
    ensures FirstOfItsVertex(block, j) ==> FirstOfItsVertex(block + sub, j)
  {
    var all := block + sub;
    forall m | j < m < i
      ensures block[m].Vertex? && block[m].indent >= block[i].indent
    {
      assert all[m] == block[m];
    }
  }

  lemma ParentInSub<V>(g: Graph<V>, cset: set<V>, block: seq<Line<V>>, sub: seq<Line<V>>, j: nat, i: nat)
    requires |block| <= j < i < |block + sub| && IsParent(g, cset, block + sub, j, i)
    ensures IsParent(g, cset, sub, j - |block|, i - |block|)
  {
    var all, n := block + sub, |block|;
    forall m | j - n < m < i - n
      ensures sub[m].Vertex? && sub[m].indent >= sub[i - n].indent
    {
      assert all[n + m] == sub[m];
    }
  }

  lemma OnlyHeadAbove<V>(g: Graph<V>, cset: set<V>, block: seq<Line<V>>, v: V, indent: nat, sub: seq<Line<V>>, w: V, j: nat, i: nat)
    requires Headed(block, v, indent) && Headed(sub, w, indent + 1)
    requires j < |block| <= i < |block + sub| && IsParent(g, cset, block + sub, j, i)
    ensures j == 0
  {
    var all, n := block + sub, |block|;
    assert all[n] == sub[0] && all[i] == sub[i - n];
  }

  lemma {:induction false} DrawingOpens<V(!new)>(g: Graph<V>, cset: set<V>, sorted: set<V> -> seq<V>, v: V, indent: nat, drawn: set<V>)
    requires Lists(sorted) && cset <= g.Keys && v in cset && drawn <= cset
    ensures var (lines, later) := Drawing(g, cset, sorted, v, indent, drawn);
            Headed(lines, v, indent) && OpenedOnce(g, cset, lines, drawn) && Within(lines, later)
    decreases cset - drawn, 0
  {
    hide Lists, DrawingsBelow;
    DrawingShows(g, cset, sorted, v, indent, drawn);
    if v !in drawn {
      BelowOpens(g, cset, sorted, sorted(g[v]), indent + 1, drawn + {v}, [Vertex(v, indent)], v, drawn);
    }
  }

  lemma {:induction false} BelowOpens<V(!new)>(g: Graph<V>, cset: set<V>, sorted: set<V> -> seq<V>, succs: seq<V>, indent: nat,
                                               drawn: set<V>, block: seq<Line<V>>, v: V, before: set<V>)
    requires Lists(sorted) && cset <= g.Keys && drawn <= cset && before <= drawn && v !in before
    requires indent > 0 && Headed(block, v, indent - 1) && OpenedOnce(g, cset, block, before) && Within(block, drawn)
    ensures var (lines, later) := DrawingsBelow(g, cset, sorted, succs, indent, drawn);
            OpenedOnce(g, cset, block + lines, before) && Within(block + lines, later)
    decreases cset - drawn, |succs| + 1
  {
    hide Lists, Headed, OpenedOnce;
    var all := DrawingsBelow(g, cset, sorted, succs, indent, drawn);
    if succs == [] {
      assert block + [] == block;
    } else {
      var w, rest := succs[0], succs[1..];
      if w !in cset {
        BelowOpens(g, cset, sorted, rest, indent, drawn, block, v, before);
      } else {
        var here := Drawing(g, cset, sorted, w, indent, drawn);
        DrawingOpens(g, cset, sorted, w, indent, drawn);
        HeadedGrows(block, v, indent - 1, here.0, w);
        OpenedJoined(g, cset, block, v, indent - 1, here.0, w, before, drawn);
        BelowOpens(g, cset, sorted, rest, indent, here.1, block + here.0, v, before);
        assert block + here.0 + DrawingsBelow(g, cset, sorted, rest, indent, here.1).0 == block + all.0;
      }
    }
  }

  // ---------- A whole component ----------

  /** Every member of a component is reached from any other without leaving it. */
  lemma ComponentIsDrawn<V(!new)>(g: Graph<V>, cset: set<V>, drawn: set<V>, v: V, y: V)
    requires v in drawn && drawn <= cset && Settled(g, cset, {}, drawn)
    requires forall x, z :: x in cset ==> (z in cset <==> Connected(g, x, z))
    requires y in cset && Closed(g) && cset <= g.Keys
    ensures y in drawn
  {
    var s := drawn + set z | z in g && !Reach(g, z, y);
    forall x, w | x in s && x in g && w in g[x]
      ensures w in s
    {
      if x in drawn {
        if w !in cset {
          LeavingIsFinal(g, cset, v, x, w, y);
        }
      } else if Reach(g, w, y) {
        ReachEdge(g, x, w);
        ReachTrans(g, x, w, y);
      }
    }
    ReachStays(g, s, v, y);
    ReachSelf(g, y);
  }

  lemma LeavingIsFinal<V(!new)>(g: Graph<V>, cset: set<V>, v: V, x: V, w: V, y: V)
    requires forall a, z :: a in cset ==> (z in cset <==> Connected(g, a, z))
    requires v in cset && x in cset && y in cset && x in g && w in g[x] && w !in cset
    ensures !Reach(g, w, y)
  {
    if Reach(g, w, y) {
      ReachEdge(g, x, w);
      assert Connected(g, y, x);
      ReachTrans(g, w, y, x);
      assert Connected(g, x, w);
    }
  }

  /**
   A blank line after an outline from the member sorted first, in which the pairs of a line's parent and the line
   are the edges inside the component, each exactly once. Below a member are those of its sorted successors
   that are members, and only below its first line.
   */
  ghost predicate IsDrawing<V(!new)>(g: Graph<V>, cset: set<V>, sorted: set<V> -> seq<V>, lines: seq<Line<V>>) {
    && |lines| > 1 && lines[|lines| - 1] == Blank
    && sorted(cset) != [] && lines[0] == Vertex(sorted(cset)[0], 0)
    && var block := lines[..|lines| - 1];
       && AllVertices(block) && block[0].v in cset && Outline(g, cset, block, block[0].v, 0)
       && NoRepeats(ParentArcs(block)) && Elements(ParentArcs(block)) == Arcs(g, cset, cset)
       && (forall x :: x in cset && x in g ==> Targets(ParentArcs(block), x) == Members(sorted(g[x]), cset))
       && OpenedOnce(g, cset, block, {})
  }

  lemma ComponentIsShown<V(!new)>(g: Graph<V>, c: seq<V>, sorted: set<V> -> seq<V>)
    requires Lists(sorted) && Closed(g) && Drawable(g, c)
    requires forall x, z :: x in c ==> (z in c <==> Connected(g, x, z))
    ensures IsDrawing(g, Elements(c), sorted, ComponentDrawing(g, c, sorted))
  {
    hide Reach, Lists, Arcs, Settled, Drawing, NoRepeats, ParentArcs, Targets, Members, OpenedOnce;
    var cset := Elements(c);
    FirstMember(c, sorted);
    var root := sorted(cset)[0];
    var (block, drawn) := Drawing(g, cset, sorted, root, 0, {});
    DrawingShows(g, cset, sorted, root, 0, {});
    forall y | y in cset
      ensures y in drawn
    {
      ComponentIsDrawn(g, cset, drawn, root, y);
    }
    assert drawn - {} == cset;
    AsManyAsMembers(ParentArcs(block));
    DrawingOpens(g, cset, sorted, root, 0, {});
    forall x | x in cset && x in g
      ensures Targets(ParentArcs(block), x) == Members(sorted(g[x]), cset)
    {
      DrawingTargets(g, cset, sorted, root, 0, {}, x);
    }
    var lines := ComponentDrawing(g, c, sorted);
    assert lines[..|lines| - 1] == block;
  }

  // ---------- The code ----------

  class Drawer<V(==, !new)> {
    const edges: Graph<V>
    const cset: set<V>
    const sorted: set<V> -> seq<V>
    var drawn: set<V>
    var output: seq<Line<V>>

    constructor (edges: Graph<V>, cset: set<V>, sorted: set<V> -> seq<V>)
      ensures this.edges == edges && this.cset == cset && this.sorted == sorted
      ensures drawn == {} && output == []
    {
      this.edges, this.cset, this.sorted := edges, cset, sorted;
      drawn, output := {}, [];
    }

    method Draw(v: V, indent: nat)
      requires cset <= edges.Keys && v in cset && drawn <= cset
      modifies this
      ensures old(drawn) + {v} <= drawn <= cset
      ensures output == old(output) + Drawing(edges, cset, sorted, v, indent, old(drawn)).0
      ensures drawn == Drawing(edges, cset, sorted, v, indent, old(drawn)).1
      decreases cset - drawn
    {
      hide Drawing, DrawingsBelow;
      DrawingUnfolds(edges, cset, sorted, v, indent, drawn);
      output := output + [Vertex(v, indent)];
      if v in drawn {
        return;
      }
      drawn := drawn + {v};
      ghost var entered, start := drawn, output;
      var succs := sorted(edges[v]);
      ghost var all := DrawingsBelow(edges, cset, sorted, succs, indent + 1, entered);
      ghost var emitted := [];
      assert succs[0..] == succs;
      for i := 0 to |succs|
        invariant entered <= drawn <= cset && output == start + emitted
        invariant var rest := DrawingsBelow(edges, cset, sorted, succs[i..], indent + 1, drawn);
                  all.0 == emitted + rest.0 && all.1 == rest.1
      {
        ghost var here := if succs[i] in cset then Drawing(edges, cset, sorted, succs[i], indent + 1, drawn).0 else [];
        BelowFrom(edges, cset, sorted, succs, i, indent + 1, drawn);
        if succs[i] in cset {
          Draw(succs[i], indent + 1);
        }
        emitted := emitted + here;
      }
      NothingBelow(edges, cset, sorted, indent + 1, drawn);
      assert succs[|succs|..] == [];
    }
  }

  lemma DrawingUnfolds<V(!new)>(g: Graph<V>, cset: set<V>, sorted: set<V> -> seq<V>, v: V, indent: nat, drawn: set<V>)
    requires cset <= g.Keys && v in cset && drawn <= cset
    ensures Drawing(g, cset, sorted, v, indent, drawn) ==
            if v in drawn then ([Vertex(v, indent)], drawn)
            else
              var below := DrawingsBelow(g, cset, sorted, sorted(g[v]), indent + 1, drawn + {v});
              ([Vertex(v, indent)] + below.0, below.1)
  {
    hide DrawingsBelow;
  }

  lemma BelowFrom<V(!new)>(g: Graph<V>, cset: set<V>, sorted: set<V> -> seq<V>, succs: seq<V>, i: nat, indent: nat, drawn: set<V>)
    requires cset <= g.Keys && drawn <= cset && i < |succs|
    ensures var below := DrawingsBelow(g, cset, sorted, succs[i..], indent, drawn);
            if succs[i] in cset then
              var here := Drawing(g, cset, sorted, succs[i], indent, drawn);
              var rest := DrawingsBelow(g, cset, sorted, succs[i + 1..], indent, here.1);
              below == (here.0 + rest.0, rest.1)
            else
              below == DrawingsBelow(g, cset, sorted, succs[i + 1..], indent, drawn)
  {
    hide Drawing;
    assert succs[i..][1..] == succs[i + 1..];
  }

  lemma NothingBelow<V(!new)>(g: Graph<V>, cset: set<V>, sorted: set<V> -> seq<V>, indent: nat, drawn: set<V>)
    requires cset <= g.Keys && drawn <= cset
    ensures DrawingsBelow(g, cset, sorted, [], indent, drawn) == ([], drawn)
  {
  }

  method DrawComponent<V(==, !new)>(g: Graph<V>, c: seq<V>, sorted: set<V> -> seq<V>) returns (lines: seq<Line<V>>)
    requires Lists(sorted) && Closed(g) && Drawable(g, c)
    requires forall x, z :: x in c ==> (z in c <==> Connected(g, x, z))
    ensures lines == ComponentDrawing(g, c, sorted) && IsDrawing(g, Elements(c), sorted, lines)
  {
    hide Reach, Lists, IsDrawing, Drawing;
    var cset := Elements(c);
    FirstMember(c, sorted);
    var d := new Drawer(g, cset, sorted);
    d.Draw(sorted(cset)[0], 0);
    lines := d.output + [Blank];
    ComponentIsShown(g, c, sorted);
  }
}
