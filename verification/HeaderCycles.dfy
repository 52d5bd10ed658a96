/** The reporting and drawing of include cycles in config/check_spidermonkey_style.py. */
module HeaderCycles {
  import opened Options
  import opened Graphs
  import opened TarjanSearch
  import opened IncludeGraphs
  import opened CycleDrawings

  lemma BigBlockIsCycle<V(!new)>(g: Graph<V>, blocks: seq<seq<V>>, i: nat)
    requires Partitions(blocks, g.Keys) && BlocksAreComponents(g, blocks)
    requires i < |blocks| && |blocks[i]| != 1
    ensures HasCycle(g)
  {
    var x, y := blocks[i][0], blocks[i][1];
    assert x in blocks[i] && y in blocks[i] && x != y;
    assert Connected(g, x, y);
  }

  lemma CycleNeedsBigBlock<V(!new)>(g: Graph<V>, blocks: seq<seq<V>>)
    requires Partitions(blocks, g.Keys) && BlocksAreComponents(g, blocks)
    requires forall c :: c in blocks ==> |c| == 1
    ensures !HasCycle(g)
  {
    hide Connected, NoRepeats, Elements;
    forall x, y | x in g && y in g && x != y
      ensures !Connected(g, x, y)
    {
      var i :| 0 <= i < |blocks| && x in blocks[i];
      assert blocks[i] in blocks;
      assert y !in blocks[i];
    }
  }

  /** sorted() on the list of components: the same blocks, in some order. */
  ghost predicate Reorders<V(!new)>(sortBlocks: seq<seq<V>> -> seq<seq<V>>) {
    forall s :: multiset(sortBlocks(s)) == multiset(s)
  }

  /** The drawings of the components that are cycles, one after the other. */
  ghost function Drawings<V(!new)>(g: Graph<V>, blocks: seq<seq<V>>, sorted: set<V> -> seq<V>): seq<Line<V>>
    requires Lists(sorted) && AllDrawable(g, blocks)
  {
    if blocks == [] then []
    else
      var n := |blocks| - 1;
      Drawings(g, blocks[..n], sorted) + if |blocks[n]| != 1 then ComponentDrawing(g, blocks[n], sorted) else []
  }

  /** The lines from each cut to the next draw the block, if it is a cycle, from its member sorted first; else there are none. */
  ghost predicate DrawsInTurn<V(!new)>(g: Graph<V>, order: seq<seq<V>>, sorted: set<V> -> seq<V>, lines: seq<Line<V>>, cuts: seq<nat>) {
    && |cuts| == |order| + 1 && cuts[0] == 0 && cuts[|order|] == |lines|
    && forall i :: 0 <= i < |order| ==> DrawsBlock(g, order[i], sorted, lines, cuts[i], cuts[i + 1])
  }

  ghost predicate DrawsBlock<V(!new)>(g: Graph<V>, c: seq<V>, sorted: set<V> -> seq<V>, lines: seq<Line<V>>, from: nat, to: nat) {
    if |c| == 1 then to == from
    else from < to <= |lines| && IsDrawing(g, Elements(c), sorted, lines[from..to])
  }

  lemma NothingDrawn<V(!new)>(g: Graph<V>, sorted: set<V> -> seq<V>)
    ensures DrawsInTurn(g, [], sorted, [], [0])
  {
  }

  /** One more block, and its lines after the others. */
  lemma DrawsOneMore<V(!new)>(g: Graph<V>, order: seq<seq<V>>, sorted: set<V> -> seq<V>, lines: seq<Line<V>>, cuts: seq<nat>,
                              c: seq<V>, drawing: seq<Line<V>>)
    requires DrawsInTurn(g, order, sorted, lines, cuts)
    requires if |c| == 1 then drawing == [] else drawing != [] && IsDrawing(g, Elements(c), sorted, drawing)
    ensures DrawsInTurn(g, order + [c], sorted, lines + drawing, cuts + [|lines + drawing|])
  {
    hide IsDrawing;
    var all, cuts' := lines + drawing, cuts + [|lines + drawing|];
    forall i | 0 <= i < |order + [c]|
      ensures DrawsBlock(g, (order + [c])[i], sorted, all, cuts'[i], cuts'[i + 1])
    {
      if i < |order| {
        assert DrawsBlock(g, order[i], sorted, lines, cuts[i], cuts[i + 1]);
        assert |order[i]| != 1 ==> all[cuts[i]..cuts[i + 1]] == lines[cuts[i]..cuts[i + 1]];
      } else {
        assert all[|lines|..|all|] == drawing;
      }
    }
  }

  ghost predicate AllDrawable<V>(g: Graph<V>, blocks: seq<seq<V>>) {
    forall i :: 0 <= i < |blocks| ==> Drawable(g, blocks[i])
  }

  lemma SameBlocks<V(!new)>(blocks: seq<seq<V>>, order: seq<seq<V>>)
    requires multiset(order) == multiset(blocks)
    ensures forall c :: c in order <==> c in blocks
  {
    forall c
      ensures c in order <==> c in blocks
    {
      assert c in order <==> c in multiset(order);
      assert c in blocks <==> c in multiset(blocks);
    }
  }

  lemma BlocksAreDrawable<V(!new)>(g: Graph<V>, blocks: seq<seq<V>>, order: seq<seq<V>>)
    requires Partitions(blocks, g.Keys) && BlocksAreComponents(g, blocks) && forall c :: c in order <==> c in blocks
    ensures AllDrawable(g, order)
  {
    hide BlocksAreComponents;
    forall i | 0 <= i < |order|
      ensures Drawable(g, order[i])
    {
      assert order[i] in order;
      BlockFacts(g, blocks, order[i]);
    }
  }

  /**
   find_cycles: one error exactly when headers form a cycle, and the drawing of each component that is one,
   in the order they are sorted into.
   */
  method FindCycles<V(==, !new)>(vs: seq<V>, g: Graph<V>, sorted: set<V> -> seq<V>, sortBlocks: seq<seq<V>> -> seq<seq<V>>)
    returns (errors: nat, lines: seq<Line<V>>, ghost blocks: seq<seq<V>>, ghost cuts: seq<nat>)
    requires Closed(g) && Elements(vs) == g.Keys && Lists(sorted) && Reorders(sortBlocks)
    ensures errors == if HasCycle(g) then 1 else 0
    ensures Partitions(blocks, g.Keys) && BlocksAreComponents(g, blocks)
    ensures DrawsInTurn(g, sortBlocks(blocks), sorted, lines, cuts)
    ensures AllDrawable(g, sortBlocks(blocks)) && lines == Drawings(g, sortBlocks(blocks), sorted)
    ensures forall c :: c in blocks && |c| != 1 ==>
              Drawable(g, c) && IsDrawing(g, Elements(c), sorted, ComponentDrawing(g, c, sorted))
  {
    hide Reach, Lists, Partitions, BlocksAreComponents, HasCycle, IsDrawing, ComponentDrawing, Drawable, DrawsInTurn;
    var sccs := StronglyConnectedComponents(vs, g);
    blocks := sccs;
    var order := sortBlocks(sccs);
    SameBlocks(sccs, order);
    BlocksAreDrawable(g, sccs, order);
    lines := [];
    var haveDrawnAnSCC := false;
    errors := 0;
    cuts := [0];
    NothingDrawn(g, sorted);
    assert order[..0] == [];
    for k := 0 to |order|
      invariant haveDrawnAnSCC <==> exists i :: 0 <= i < k && |order[i]| != 1
      invariant errors == if haveDrawnAnSCC then 1 else 0
      invariant lines == Drawings(g, order[..k], sorted) && DrawsInTurn(g, order[..k], sorted, lines, cuts)
    {
      assert order[..k + 1][..k] == order[..k];
      assert order[..k + 1] == order[..k] + [order[k]];
      ghost var before, more := lines, [];
      if |order[k]| != 1 {
        if !haveDrawnAnSCC {
          errors := errors + 1;
          haveDrawnAnSCC := true;
        }
        BlockFacts(g, sccs, order[k]);
        var drawing := DrawComponent(g, order[k], sorted);
        lines := lines + drawing;
        more := drawing;
        DrawingIsSome(g, Elements(order[k]), sorted, drawing);
      }
      DrawsOneMore(g, order[..k], sorted, before, cuts, order[k], more);
      cuts := cuts + [|lines|];
    }
    assert order[..|order|] == order;
    Verdict(g, sccs, order);
    forall c | c in blocks && |c| != 1
      ensures Drawable(g, c) && IsDrawing(g, Elements(c), sorted, ComponentDrawing(g, c, sorted))
    {
      BlockFacts(g, sccs, c);
      ComponentIsShown(g, c, sorted);
    }
  }

  lemma DrawingIsSome<V(!new)>(g: Graph<V>, cset: set<V>, sorted: set<V> -> seq<V>, lines: seq<Line<V>>)
    requires IsDrawing(g, cset, sorted, lines)
    ensures lines != []
  {
  }

  lemma BlockFacts<V(!new)>(g: Graph<V>, blocks: seq<seq<V>>, c: seq<V>)
    requires Partitions(blocks, g.Keys) && BlocksAreComponents(g, blocks) && c in blocks
    ensures Drawable(g, c)
    ensures forall x, z :: x in c ==> (z in c <==> Connected(g, x, z))
  {
    var i :| 0 <= i < |blocks| && blocks[i] == c;
  }

  lemma Verdict<V(!new)>(g: Graph<V>, blocks: seq<seq<V>>, order: seq<seq<V>>)
    requires Partitions(blocks, g.Keys) && BlocksAreComponents(g, blocks)
    requires forall c :: c in order <==> c in blocks
    ensures HasCycle(g) <==> exists i :: 0 <= i < |order| && |order[i]| != 1
  {
    if i :| 0 <= i < |order| && |order[i]| != 1 {
      assert order[i] in order;
      assert order[i] in blocks;
      var j :| 0 <= j < |blocks| && blocks[j] == order[i];
      BigBlockIsCycle(g, blocks, j);
    } else {
      forall c | c in blocks
        ensures |c| == 1
      {
        assert c in order;
      }
      CycleNeedsBigBlock(g, blocks);
    }
  }

  /**
   The end of check_style. Whatever sets files that are not read were handed, the error is for a cycle of
   own includes, whose components are drawn as FindCycles says; nothing comes out when such a file is met first.
   */
  method CheckCycles(nonJs: set<string>, sources: seq<Source>, ignored: set<string>, kindOf: string -> FileKind,
                     sorted: set<string> -> seq<string>, sortBlocks: seq<seq<string>> -> seq<seq<string>>)
    returns (edges: Option<Graph<string>>, errors: nat, lines: seq<Line<string>>, ghost blocks: seq<seq<string>>, ghost cuts: seq<nat>)
    requires Lists(sorted) && Reorders(sortBlocks)
    ensures var tree := Tree(nonJs + NamesOf(sources), ignored, kindOf);
            && (edges.None? <==> sources != [] && !kindOf(sources[0].inclname).IsRead())
            && (edges.Some? ==> Collected(nonJs, sources, tree, edges.value))
            && (edges.Some? ==> errors == if HasCycle(OwnIncludes(edges.value, kindOf)) then 1 else 0)
    ensures edges.Some? ==>
              && Partitions(blocks, edges.value.Keys) && BlocksAreComponents(edges.value, blocks)
              && DrawsInTurn(edges.value, sortBlocks(blocks), sorted, lines, cuts)
              && AllDrawable(edges.value, sortBlocks(blocks))
              && lines == Drawings(edges.value, sortBlocks(blocks), sorted)
    ensures edges.Some? ==>
              forall c :: c in blocks && |c| != 1 ==>
                Drawable(edges.value, c) && IsDrawing(edges.value, Elements(c), sorted, ComponentDrawing(edges.value, c, sorted))
    ensures edges.None? ==> errors == 0
    ensures errors == 0 ==> lines == []
  {
    hide HasCycle, Lists, Reorders, IntoHeaders, OwnIncludes, IsDrawing, Partitions, BlocksAreComponents, ComponentDrawing, DrawsInTurn;
    var tree := Tree(nonJs + NamesOf(sources), ignored, kindOf);
    edges := IncludeGraph(nonJs, sources, tree);
    errors, lines, blocks, cuts := 0, [], [], [];
    if edges.Some? {
      var g := edges.value;
      CollectedIsClosed(nonJs, sources, tree, g);
      HandedOnSetsMakeNoCycle(g, kindOf);
      ListsOf(sorted, g.Keys);
      errors, lines, blocks, cuts := FindCycles(sorted(g.Keys), g, sorted, sortBlocks);
      if errors == 0 {
        NothingToDraw(g, blocks, sorted, sortBlocks);
      }
    }
  }

  lemma CollectedIsClosed(nonJs: set<string>, sources: seq<Source>, tree: Tree, edges: Graph<string>)
    requires Collected(nonJs, sources, tree, edges) && tree.all == nonJs + NamesOf(sources)
    ensures Closed(edges) && IntoHeaders(edges, tree.kindOf)
  {
  }

  lemma NothingToDraw<V(!new)>(g: Graph<V>, blocks: seq<seq<V>>, sorted: set<V> -> seq<V>, sortBlocks: seq<seq<V>> -> seq<seq<V>>)
    requires Partitions(blocks, g.Keys) && BlocksAreComponents(g, blocks) && Reorders(sortBlocks) && !HasCycle(g)
    requires Lists(sorted) && AllDrawable(g, sortBlocks(blocks))
    ensures Drawings(g, sortBlocks(blocks), sorted) == []
  {
    SameBlocks(blocks, sortBlocks(blocks));
    Verdict(g, blocks, sortBlocks(blocks));
    NoLines(g, sortBlocks(blocks), sorted);
  }

  lemma {:induction false} NoLines<V(!new)>(g: Graph<V>, blocks: seq<seq<V>>, sorted: set<V> -> seq<V>)
    requires Lists(sorted) && AllDrawable(g, blocks) && forall i :: 0 <= i < |blocks| ==> |blocks[i]| == 1
    ensures Drawings(g, blocks, sorted) == []
  {
    if blocks == [] {
    } else {
      NoLines(g, blocks[..|blocks| - 1], sorted);
    }
  }
}
