/** The include graph that check_style of config/check_spidermonkey_style.py collects. */
module IncludeGraphs {
  import opened Options
  import opened Graphs

  datatype FileKind = C | CPP | INL_H | H | TBL | MSG {
    /** Only these files are read; the name of any other is given the set of the file read before it. */
    predicate IsRead()
      ensures IsRead() <==> !TBL? && !MSG?
    {
      C? || CPP? || H? || INL_H?
    }

    predicate IsHeader()
      ensures IsHeader() ==> IsRead()
      ensures !IsHeader() <==> C? || CPP? || TBL? || MSG?
    {
      H? || INL_H?
    }
  }

  datatype Include = Include(inclname: string, isSystem: bool)

  /** A JS file by the name others include it by, and the includes found in it if it is read. */
  datatype Source = Source(inclname: string, includes: seq<Include>)

  /** The names of the tree, those that includes may leave unchecked, and the kind of a name. */
  datatype Tree = Tree(all: set<string>, ignored: set<string>, kindOf: string -> FileKind)

  /** check_include_statement records this include as an edge. */
  predicate Recorded(i: Include, tree: Tree) {
    !i.isSystem && i.inclname !in tree.ignored && i.inclname in tree.all && tree.kindOf(i.inclname).IsHeader()
  }

  function RecordedIn(includes: seq<Include>, tree: Tree): set<string> {
    set i | 0 <= i < |includes| && Recorded(includes[i], tree) :: includes[i].inclname
  }

  method IncludedHeaders(includes: seq<Include>, tree: Tree) returns (included: set<string>)
    ensures included == RecordedIn(includes, tree)
    ensures forall h :: h in included <==>
              && Include(h, false) in includes && h !in tree.ignored && h in tree.all
              && (tree.kindOf(h).H? || tree.kindOf(h).INL_H?)
  {
    hide RecordedIn;
    forall h
      ensures h in RecordedIn(includes, tree) <==>
                && Include(h, false) in includes && h !in tree.ignored && h in tree.all
                && (tree.kindOf(h).H? || tree.kindOf(h).INL_H?)
    {
      RecordedExactly(includes, tree, h);
    }
    NoneRecorded(tree);
    assert includes[..0] == [];
    included := {};
    for k := 0 to |includes|
      invariant included == RecordedIn(includes[..k], tree)
    {
      RecordedMore(includes, tree, k);
      if !includes[k].isSystem {
        if includes[k].inclname !in tree.ignored {
          if includes[k].inclname in tree.all && tree.kindOf(includes[k].inclname).IsHeader() {
            included := included + {includes[k].inclname};
          }
        }
      }
    }
    assert includes[..|includes|] == includes;
  }

  /** The headers that are included, not as system headers, that the tree has and that are not ignored. */
  lemma RecordedExactly(includes: seq<Include>, tree: Tree, h: string)
    ensures h in RecordedIn(includes, tree) <==>
              && Include(h, false) in includes && h !in tree.ignored && h in tree.all
              && (tree.kindOf(h).H? || tree.kindOf(h).INL_H?)
  {
    if Include(h, false) in includes {
      var i :| 0 <= i < |includes| && includes[i] == Include(h, false);
      assert Recorded(includes[i], tree) <==> h !in tree.ignored && h in tree.all && tree.kindOf(h).IsHeader();
    }
    if i :| 0 <= i < |includes| && Recorded(includes[i], tree) && includes[i].inclname == h {
      assert includes[i] == Include(h, false);
    }
  }

  lemma NoneRecorded(tree: Tree)
    ensures RecordedIn([], tree) == {}
  {
  }

  lemma RecordedMore(includes: seq<Include>, tree: Tree, k: nat)
    requires k < |includes|
    ensures RecordedIn(includes[..k + 1], tree) ==
            RecordedIn(includes[..k], tree) + if Recorded(includes[k], tree) then {includes[k].inclname} else {}
  {
    var some, more := includes[..k], includes[..k + 1];
    assert more[k] == includes[k] && forall i :: 0 <= i < k ==> more[i] == some[i];
    forall h | h in RecordedIn(more, tree)
      ensures h in RecordedIn(some, tree) + if Recorded(includes[k], tree) then {includes[k].inclname} else {}
    {
      var i :| 0 <= i <= k && Recorded(more[i], tree) && more[i].inclname == h;
      assert i < k ==> some[i] == more[i];
    }
  }

  function NamesOf(sources: seq<Source>): set<string> {
    set i | 0 <= i < |sources| :: sources[i].inclname
  }

  /** Source c is the one read last when source i is dealt with. */
  ghost predicate ReadLast(sources: seq<Source>, tree: Tree, c: nat, i: nat)
    requires i < |sources|
  {
    && c <= i && tree.kindOf(sources[c].inclname).IsRead()
    && forall m :: c < m <= i ==> !tree.kindOf(sources[m].inclname).IsRead()
  }

  /** No later source has the name of source i. */
  ghost predicate LastOfName(sources: seq<Source>, i: nat)
    requires i < |sources|
  {
    forall j :: i < j < |sources| ==> sources[j].inclname != sources[i].inclname
  }

  /** The edges after the loop has dealt with the sources: whose includes each name has. */
  ghost predicate Collected(nonJs: set<string>, sources: seq<Source>, tree: Tree, edges: Graph<string>) {
    && edges.Keys == nonJs + NamesOf(sources)
    && (forall h :: h in nonJs && h !in NamesOf(sources) ==> edges[h] == {})
    && (forall i, c :: 0 <= i < |sources| && 0 <= c < |sources| && LastOfName(sources, i) && ReadLast(sources, tree, c, i) ==>
          edges[sources[i].inclname] == RecordedIn(sources[c].includes, tree))
    && IntoHeaders(edges, tree.kindOf) && forall h :: h in edges ==> edges[h] <= tree.all
  }

  /** Dealing with one more source, when source c is the one read last. */
  lemma CollectedMore(nonJs: set<string>, sources: seq<Source>, tree: Tree, edges: Graph<string>, k: nat, c: nat)
    requires k < |sources| && Collected(nonJs, sources[..k], tree, edges) && ReadLast(sources, tree, c, k)
    ensures Collected(nonJs, sources[..k + 1], tree, edges[sources[k].inclname := RecordedIn(sources[c].includes, tree)])
  {
    var some, more := sources[..k], sources[..k + 1];
    var edges' := edges[sources[k].inclname := RecordedIn(sources[c].includes, tree)];
    NamesMore(sources, k);
    forall i, d | 0 <= i < |more| && 0 <= d < |more| && LastOfName(more, i) && ReadLast(more, tree, d, i)
      ensures edges'[more[i].inclname] == RecordedIn(more[d].includes, tree)
    {
      SourceBefore(sources, tree, k, c, i, d);
    }
    hide ReadLast, LastOfName, NamesOf;
  }

  lemma NamesMore(sources: seq<Source>, k: nat)
    requires k < |sources|
    ensures NamesOf(sources[..k + 1]) == NamesOf(sources[..k]) + {sources[k].inclname}
  {
    var some, more := sources[..k], sources[..k + 1];
    assert more[k] == sources[k];
    assert forall i :: 0 <= i < k ==> more[i] == some[i];
  }

  lemma SourceBefore(sources: seq<Source>, tree: Tree, k: nat, c: nat, i: nat, d: nat)
    requires k < |sources| && i <= k && d <= k && ReadLast(sources, tree, c, k)
    requires LastOfName(sources[..k + 1], i) && ReadLast(sources[..k + 1], tree, d, i)
    ensures i == k ==> d == c
    ensures i < k ==> LastOfName(sources[..k], i) && ReadLast(sources[..k], tree, d, i)
    ensures i < k ==> sources[i].inclname != sources[k].inclname
  {
    var more := sources[..k + 1];
    assert forall m :: 0 <= m <= k ==> more[m] == sources[m];
    if i < k {
      assert more[k].inclname != more[i].inclname;
    }
  }

  /** None stands for the error raised when a file that is not read comes before any that is. */
  method IncludeGraph(nonJs: set<string>, sources: seq<Source>, tree: Tree) returns (edges: Option<Graph<string>>)
    ensures edges.None? <==> sources != [] && !tree.kindOf(sources[0].inclname).IsRead()
    ensures edges.Some? ==> Collected(nonJs, sources, tree, edges.value)
  {
    hide Collected;
    var graph: Graph<string> := map h | h in nonJs :: {};
    var included: Option<set<string>> := None;
    ghost var c: nat := 0;
    assert Collected(nonJs, sources[..0], tree, graph) by { NothingCollected(nonJs, tree, graph); }
    for k := 0 to |sources|
      invariant Collected(nonJs, sources[..k], tree, graph)
      invariant k == 0 <==> included.None?
      invariant k > 0 ==> tree.kindOf(sources[0].inclname).IsRead() && ReadLast(sources, tree, c, k - 1)
      invariant k > 0 ==> included == Some(RecordedIn(sources[c].includes, tree))
    {
      if tree.kindOf(sources[k].inclname).IsRead() {
        var headers := IncludedHeaders(sources[k].includes, tree);
        included := Some(headers);
        c := k;
      }
      if included.None? {
        return None;
      }
      CollectedMore(nonJs, sources, tree, graph, k, c);
      graph := graph[sources[k].inclname := included.value];
    }
    assert sources[..|sources|] == sources;
    edges := Some(graph);
  }

  lemma NothingCollected(nonJs: set<string>, tree: Tree, edges: Graph<string>)
    requires edges == map h | h in nonJs :: {}
    ensures Collected(nonJs, [], tree, edges)
  {
  }

  // ---------- What files that are not read do to cycles ----------

  /** The graph without the sets handed on to names of files that are not read. */
  ghost function OwnIncludes(edges: Graph<string>, kindOf: string -> FileKind): Graph<string> {
    map h | h in edges :: if kindOf(h).IsRead() then edges[h] else {}
  }

  /** For a file that is read they are its own, in its last form. */
  lemma OwnIsRecorded(nonJs: set<string>, sources: seq<Source>, tree: Tree, edges: Graph<string>, i: nat)
    requires Collected(nonJs, sources, tree, edges) && i < |sources| && LastOfName(sources, i)
    ensures sources[i].inclname in edges
    ensures OwnIncludes(edges, tree.kindOf)[sources[i].inclname] ==
            if tree.kindOf(sources[i].inclname).IsRead() then RecordedIn(sources[i].includes, tree) else {}
  {
    hide RecordedIn, LastOfName, IntoHeaders;
    assert sources[i].inclname in NamesOf(sources);
    assert tree.kindOf(sources[i].inclname).IsRead() ==> ReadLast(sources, tree, i, i);
  }

  /** Some cycle passes through two or more distinct headers. */
  ghost predicate HasCycle<V(!new)>(g: Graph<V>) {
    exists x, y :: x in g && y in g && x != y && Connected(g, x, y)
  }

  ghost predicate IntoHeaders(edges: Graph<string>, kindOf: string -> FileKind) {
    forall h :: h in edges ==> forall w :: w in edges[h] ==> kindOf(w).IsHeader()
  }

  /** What another name reaches is a header. */
  lemma ReachedIsHeader(edges: Graph<string>, kindOf: string -> FileKind, x: string, y: string)
    requires IntoHeaders(edges, kindOf) && Reach(edges, x, y) && x != y
    ensures kindOf(y).IsHeader()
  {
    var p :| IsPath(edges, p, x, y);
    assert p[|p| - 1] in edges[p[|p| - 2]];
  }

  lemma OwnReach(edges: Graph<string>, kindOf: string -> FileKind, x: string, y: string)
    requires IntoHeaders(edges, kindOf) && Reach(edges, x, y) && kindOf(x).IsHeader()
    ensures Reach(OwnIncludes(edges, kindOf), x, y)
  {
    var own := OwnIncludes(edges, kindOf);
    var p :| IsPath(edges, p, x, y);
    forall i | 0 <= i < |p| - 1
      ensures p[i] in own && p[i + 1] in own[p[i]]
    {
      if i > 0 {
        assert p[i] in edges[p[i - 1]];
      }
    }
    assert IsPath(own, p, x, y);
  }

  lemma OwnReachBack(edges: Graph<string>, kindOf: string -> FileKind, x: string, y: string)
    requires Reach(OwnIncludes(edges, kindOf), x, y)
    ensures Reach(edges, x, y)
  {
    var p :| IsPath(OwnIncludes(edges, kindOf), p, x, y);
    assert IsPath(edges, p, x, y);
  }

  /** No edge leads to such a name, so it is on no cycle. */
  lemma HandedOnSetsMakeNoCycle(edges: Graph<string>, kindOf: string -> FileKind)
    requires IntoHeaders(edges, kindOf)
    ensures HasCycle(edges) <==> HasCycle(OwnIncludes(edges, kindOf))
  {
    hide Reach, IntoHeaders;
    var own := OwnIncludes(edges, kindOf);
    if x, y :| x in edges && y in edges && x != y && Connected(edges, x, y) {
      ReachedIsHeader(edges, kindOf, x, y);
      ReachedIsHeader(edges, kindOf, y, x);
      OwnReach(edges, kindOf, x, y);
      OwnReach(edges, kindOf, y, x);
      assert x in own && y in own && Connected(own, x, y);
    }
    if x, y :| x in own && y in own && x != y && Connected(own, x, y) {
      OwnReachBack(edges, kindOf, x, y);
      OwnReachBack(edges, kindOf, y, x);
    }
  }
}
