/**
 The order in which the post-order traversal visits nodes, for starts that are all different:
 what each visit leaves unvisited, and when the documented post-order follows.
 */
module PostOrderOrder {
  import Graphs
  import opened HeapGraphs
  import opened PostOrderModel

  function Before<N>(starts: seq<N>, j: nat): set<N>
    requires j <= |starts|
  {
    set x | x in starts[..j]
  }

  /** The traversal of starts[j], which comes before those of the starts added before it, gets to u. */
  ghost predicate InTurn<N(!new)>(g: EdgeMap<N>, starts: seq<N>, j: nat, u: N) {
    j < |starts| && Leads(g, starts[j], u, Before(starts, j))
  }

  /** v is a start that waits below while u is visited in the turn of a start added later. */
  ghost predicate Waits<N(!new)>(g: EdgeMap<N>, starts: seq<N>, v: N, u: N) {
    exists i, j :: 0 <= i < j < |starts| && v == starts[i] && InTurn(g, starts, j, u)
  }

  /** When nodes[q] is visited, its successor v has been, still leads back to it, or waits. */
  ghost predicate Settled<N(!new)>(g: EdgeMap<N>, starts: seq<N>, nodes: seq<N>, q: nat, v: N)
    requires q < |nodes|
  {
    v in nodes[..q] || Leads(g, v, nodes[q], {}) || Waits(g, starts, v, nodes[q])
  }

  ghost predicate AllSettled<N(!new)>(g: EdgeMap<N>, starts: seq<N>, nodes: seq<N>) {
    forall q, v :: 0 <= q < |nodes| && nodes[q] in g && v in g[nodes[q]] ==> Settled(g, starts, nodes, q, v)
  }

  /** What the turn of starts[j] gets to has been visited, before any start added earlier. */
  ghost predicate TurnOver<N>(starts: seq<N>, nodes: seq<N>, j: nat, u: N) {
    u in nodes && forall i, q :: 0 <= i < j && i < |starts| && 0 <= q < |nodes| && nodes[q] == starts[i] ==> u in nodes[..q]
  }

  ghost predicate TurnsOver<N(!new)>(g: EdgeMap<N>, starts: seq<N>, nodes: seq<N>, from: nat) {
    forall j, u :: from <= j < |starts| && InTurn(g, starts, j, u) ==> TurnOver(starts, nodes, j, u)
  }

  ghost predicate StepUp<N>(g: EdgeMap<N>, stack: seq<Frame<N>>, i: nat)
    requires i < |stack|
  {
    i > 0 && stack[i - 1].origin in g && stack[i].origin in g[stack[i - 1].origin]
  }

  /** The stack: the starts whose turns have not begun, then the path from the start whose turn it is. */
  ghost predicate Chain<N>(g: EdgeMap<N>, starts: seq<N>, stack: seq<Frame<N>>, turns: nat) {
    && turns <= |stack| && turns <= |starts| && (turns == 0 ==> stack == [])
    && (forall i :: 0 <= i < turns ==> stack[i].origin == starts[i])
    && (forall i :: turns <= i < |stack| ==> StepUp(g, stack, i))
  }

  ghost predicate OrderInv<N(!new)>(g: EdgeMap<N>, starts: seq<N>, r: Run<N>, turns: nat) {
    && Inv(g, starts, r) && Graphs.NoRepeats(starts)
    && Chain(g, starts, r.stack, turns) && AllSettled(g, starts, r.nodes) && TurnsOver(g, starts, r.nodes, turns)
  }

  // ---------- Different nodes ----------

  lemma CountsAtMostOnce<N(!new)>(starts: seq<N>, r: Run<N>, u: N)
    requires Counted(starts, r) && Graphs.NoRepeats(starts)
    ensures multiset(r.nodes)[u] + multiset(Origins(r.stack))[u] <= 1
  {
    CountOnce(starts, u);
  }

  lemma StackIsUnvisited<N(!new)>(starts: seq<N>, r: Run<N>, i: nat)
    requires Counted(starts, r) && Graphs.NoRepeats(starts) && i < |r.stack|
    ensures r.stack[i].origin !in r.nodes
  {
    var u := r.stack[i].origin;
    CountsAtMostOnce(starts, r, u);
    assert Origins(r.stack)[i] == u;
    assert u in multiset(Origins(r.stack));
    assert u in r.nodes ==> u in multiset(r.nodes);
  }

  lemma StackDiffers<N(!new)>(starts: seq<N>, r: Run<N>, i: nat, j: nat)
    requires Counted(starts, r) && Graphs.NoRepeats(starts) && i < j < |r.stack|
    ensures r.stack[i].origin != r.stack[j].origin
  {
    var s := Origins(r.stack);
    if s[i] == s[j] {
      RepeatCounts(s, i, j);
      CountsAtMostOnce(starts, r, s[i]);
      assert false;
    }
  }

  // ---------- The path on the stack ----------

  /** From a frame at or above the current start, the path leads up around the waiting starts. */
  lemma {:induction false} ChainLeads<N(!new)>(g: EdgeMap<N>, starts: seq<N>, r: Run<N>, turns: nat, i: nat, k: nat)
    requires Counted(starts, r) && Graphs.NoRepeats(starts) && Chain(g, starts, r.stack, turns)
    requires 0 < turns <= i + 1 && i <= k < |r.stack|
    ensures Leads(g, r.stack[i].origin, r.stack[k].origin, Before(starts, turns - 1))
    decreases k
  {
    hide Leads, Counted;
    AboveWaiting(g, starts, r, turns, k);
    if i == k {
      LeadsSelf(g, r.stack[k].origin, Before(starts, turns - 1));
    } else {
      ChainLeads(g, starts, r, turns, i, k - 1);
      assert StepUp(g, r.stack, k);
      LeadsOn(g, r.stack[i].origin, r.stack[k - 1].origin, r.stack[k].origin, Before(starts, turns - 1));
    }
  }

  lemma AboveWaiting<N(!new)>(g: EdgeMap<N>, starts: seq<N>, r: Run<N>, turns: nat, k: nat)
    requires Counted(starts, r) && Graphs.NoRepeats(starts) && Chain(g, starts, r.stack, turns)
    requires 0 < turns <= k + 1 && k < |r.stack|
    ensures r.stack[k].origin !in Before(starts, turns - 1)
  {
    hide Counted;
    if r.stack[k].origin in Before(starts, turns - 1) {
      var i :| 0 <= i < turns - 1 && starts[i] == r.stack[k].origin;
      StackDiffers(starts, r, i, k);
    }
  }

  // ---------- Visiting a node ----------

  lemma TopSettles<N(!new)>(g: EdgeMap<N>, starts: seq<N>, r: Run<N>, turns: nat, v: N)
    requires OrderInv(g, starts, r, turns) && r.stack != [] && r.stack[|r.stack| - 1].edges == []
    requires r.stack[|r.stack| - 1].origin in g && v in g[r.stack[|r.stack| - 1].origin]
    ensures Settled(g, starts, NodeDone(r).nodes, |r.nodes|, v)
  {
    hide Leads, Counted, TurnsOver, AllSettled;
    var top := |r.stack| - 1;
    var u := r.stack[top].origin;
    assert NodeDone(r).nodes[..|r.nodes|] == r.nodes;
    TopIsNode(g, starts, r);
    assert v in r.seen;
    if v in Origins(r.stack) {
      var k :| 0 <= k < |r.stack| && r.stack[k].origin == v;
      if k + 1 >= turns {
        ChainLeads(g, starts, r, turns, k, top);
        LeadsWiden(g, v, u, Before(starts, turns - 1));
      } else {
        ChainLeads(g, starts, r, turns, turns - 1, top);
        assert InTurn(g, starts, turns - 1, u);
        assert v == starts[k];
      }
    } else {
      SeenIsVisited(starts, r, v);
    }
  }

  lemma SettledLonger<N(!new)>(g: EdgeMap<N>, starts: seq<N>, nodes: seq<N>, u: N, q: nat, v: N)
    requires q < |nodes| && Settled(g, starts, nodes, q, v)
    ensures Settled(g, starts, nodes + [u], q, v)
  {
    hide Leads, Waits;
    assert (nodes + [u])[..q] == nodes[..q];
  }

  lemma NodeDoneSettles<N(!new)>(g: EdgeMap<N>, starts: seq<N>, r: Run<N>, turns: nat)
    requires OrderInv(g, starts, r, turns) && r.stack != [] && r.stack[|r.stack| - 1].edges == []
    ensures AllSettled(g, starts, NodeDone(r).nodes)
  {
    hide Settled, Inv, Chain, TurnsOver;
    var nodes := NodeDone(r).nodes;
    forall q, v | 0 <= q < |nodes| && nodes[q] in g && v in g[nodes[q]]
      ensures Settled(g, starts, nodes, q, v)
    {
      if q < |r.nodes| {
        SettledLonger(g, starts, r.nodes, r.stack[|r.stack| - 1].origin, q, v);
      } else {
        TopSettles(g, starts, r, turns, v);
      }
    }
  }

  lemma TurnOverLonger<N>(starts: seq<N>, nodes: seq<N>, x: N, j: nat, u: N)
    requires TurnOver(starts, nodes, j, u)
    ensures TurnOver(starts, nodes + [x], j, u)
  {
    var longer := nodes + [x];
    forall i, q | 0 <= i < j && i < |starts| && 0 <= q < |longer| && longer[q] == starts[i]
      ensures u in longer[..q]
    {
      if q < |nodes| {
        assert longer[..q] == nodes[..q];
      } else {
        assert longer[..q] == nodes;
      }
    }
    assert longer[..|nodes|] == nodes;
  }

  lemma TurnsOverLonger<N(!new)>(g: EdgeMap<N>, starts: seq<N>, nodes: seq<N>, x: N, from: nat)
    requires TurnsOver(g, starts, nodes, from)
    ensures TurnsOver(g, starts, nodes + [x], from)
  {
    hide TurnOver, InTurn;
    forall j, u | from <= j < |starts| && InTurn(g, starts, j, u)
      ensures TurnOver(starts, nodes + [x], j, u)
    {
      TurnOverLonger(starts, nodes, x, j, u);
    }
  }

  /** Once only waiting starts are left on the stack, the visited nodes lead, around those, to visited nodes alone. */
  lemma VisitedKeepsIn<N(!new)>(g: EdgeMap<N>, starts: seq<N>, r: Run<N>, u: N, v: N)
    requires Inv(g, starts, r) && |r.stack| <= |starts| && Origins(r.stack) == starts[..|r.stack|]
    requires u in r.nodes && u in g && v in g[u]
    ensures v in r.nodes || v in Before(starts, |r.stack|)
  {
    hide Counted, Reachable, AllVisits, Origins;
    var i :| 0 <= i < |r.nodes| && r.nodes[i] == u;
    assert FrameOk(g, r.seen, Frame(r.nodes[i], []));
    assert v in r.seen;
    if v !in Origins(r.stack) {
      SeenIsVisited(starts, r, v);
    }
  }

  lemma OneTurnOver<N(!new)>(g: EdgeMap<N>, starts: seq<N>, r: Run<N>, u: N)
    requires Inv(g, starts, r) && Graphs.NoRepeats(starts)
    requires |r.stack| < |starts| && Origins(r.stack) == starts[..|r.stack|]
    requires starts[|r.stack|] in r.nodes && InTurn(g, starts, |r.stack|, u)
    ensures TurnOver(starts, r.nodes, |r.stack|, u)
  {
    hide Counted, Covered, Reachable, AllVisits, Origins, Leads;
    var j := |r.stack|;
    var inside := set x | x in r.nodes;
    forall v, w | v in inside && v in g && w in g[v]
      ensures w in inside || w in Before(starts, j)
    {
      VisitedKeepsIn(g, starts, r, v, w);
    }
    LeadsStays(g, inside, starts[j], u, Before(starts, j));
    forall i | 0 <= i < j
      ensures starts[i] !in r.nodes
    {
      StackIsUnvisited(starts, r, i);
      assert Origins(r.stack)[i] == starts[i];
    }
  }

  lemma ChainOrigins<N>(g: EdgeMap<N>, starts: seq<N>, stack: seq<Frame<N>>, turns: nat)
    requires Chain(g, starts, stack, turns) && |stack| == turns
    ensures Origins(stack) == starts[..turns]
  {
  }

  lemma TurnEnds<N(!new)>(g: EdgeMap<N>, starts: seq<N>, r: Run<N>, turns: nat)
    requires OrderInv(g, starts, r, turns) && r.stack != [] && r.stack[|r.stack| - 1].edges == [] && |r.stack| == turns
    ensures Chain(g, starts, NodeDone(r).stack, turns - 1) && TurnsOver(g, starts, NodeDone(r).nodes, turns - 1)
  {
    hide Inv, AllSettled, TurnOver, InTurn;
    var r' := NodeDone(r);
    NodeDoneKeepsInv(g, starts, r);
    assert Chain(g, starts, r'.stack, turns - 1);
    ChainOrigins(g, starts, r'.stack, turns - 1);
    TurnsOverLonger(g, starts, r.nodes, r.stack[turns - 1].origin, turns);
    hide Chain;
    assert r'.nodes[|r.nodes|] == starts[turns - 1];
    forall j, u | turns - 1 <= j < |starts| && InTurn(g, starts, j, u)
      ensures TurnOver(starts, r'.nodes, j, u)
    {
      if j == turns - 1 {
        OneTurnOver(g, starts, r', u);
      }
    }
  }

  lemma NodeDoneKeepsOrder<N(!new)>(g: EdgeMap<N>, starts: seq<N>, r: Run<N>, turns: nat)
    requires OrderInv(g, starts, r, turns) && r.stack != [] && r.stack[|r.stack| - 1].edges == []
    ensures turns > 0 && OrderInv(g, starts, NodeDone(r), if |r.stack| == turns then turns - 1 else turns)
  {
    hide Inv, AllSettled, TurnsOver;
    NodeDoneKeepsInv(g, starts, r);
    NodeDoneSettles(g, starts, r, turns);
    if |r.stack| == turns {
      TurnEnds(g, starts, r, turns);
    } else {
      TurnsOverLonger(g, starts, r.nodes, r.stack[|r.stack| - 1].origin, turns);
      forall i | turns <= i < |r.stack| - 1
        ensures StepUp(g, NodeDone(r).stack, i)
      {
        assert StepUp(g, r.stack, i);
      }
    }
  }

  lemma EdgeFollowedKeepsOrder<N(!new)>(g: EdgeMap<N>, starts: seq<N>, r: Run<N>, turns: nat)
    requires OrderInv(g, starts, r, turns) && r.stack != [] && r.stack[|r.stack| - 1].edges != []
    ensures TopEdge(r) in g && OrderInv(g, starts, EdgeFollowed(g, r), turns)
  {
    hide Inv, AllSettled, TurnsOver, Chain;
    TopIsNode(g, starts, r);
    EdgeFollowedKeepsInv(g, starts, r);
    EdgeFollowedChain(g, starts, r, turns);
  }

  lemma EdgeFollowedChain<N(!new)>(g: EdgeMap<N>, starts: seq<N>, r: Run<N>, turns: nat)
    requires Chain(g, starts, r.stack, turns) && r.stack != [] && r.stack[|r.stack| - 1].edges != []
    requires TopEdge(r) in g && r.stack[|r.stack| - 1].origin in g && TopEdge(r) in g[r.stack[|r.stack| - 1].origin]
    ensures Chain(g, starts, EdgeFollowed(g, r).stack, turns)
  {
    var stack := EdgeFollowed(g, r).stack;
    assert forall i :: 0 <= i < |r.stack| ==> stack[i].origin == r.stack[i].origin;
    forall i | turns <= i < |stack|
      ensures StepUp(g, stack, i)
    {
      assert i < |r.stack| ==> StepUp(g, r.stack, i);
    }
  }

  lemma FreshOrder<N(!new)>(g: EdgeMap<N>, starts: seq<N>, r: Run<N>)
    requires Fresh(g, starts, r) && Graphs.NoRepeats(starts)
    ensures OrderInv(g, starts, r, |starts|)
  {
    hide Inv;
  }

  // ---------- When the documented order holds ----------

  /** Every node comes after its successors, but for those that lead back to it. */
  ghost predicate PostOrdered<N(!new)>(g: EdgeMap<N>, nodes: seq<N>) {
    forall q, v :: 0 <= q < |nodes| && nodes[q] in g && v in g[nodes[q]] ==>
      v in nodes[..q] || Leads(g, v, nodes[q], {})
  }

  /** A node that a later-added start gets to around the earlier ones has an edge to one of those only if that leads back. */
  ghost predicate StartsReturn<N(!new)>(g: EdgeMap<N>, starts: seq<N>) {
    forall u, v :: u in g && v in g[u] && Waits(g, starts, v, u) ==> Leads(g, v, u, {})
  }

  /** For different starts, the visits are in post-order exactly when the earlier starts met on the way lead back. */
  lemma PostOrderExactly<N(!new)>(g: EdgeMap<N>, starts: seq<N>, r: Run<N>)
    requires OrderInv(g, starts, r, 0)
    ensures PostOrdered(g, r.nodes) <==> StartsReturn(g, starts)
  {
    hide Inv, Leads, InTurn;
    if PostOrdered(g, r.nodes) {
      forall u, v | u in g && v in g[u] && Waits(g, starts, v, u)
        ensures Leads(g, v, u, {})
      {
        WaitingComesLater(g, starts, r, u, v);
      }
    }
    if StartsReturn(g, starts) {
      forall q, v | 0 <= q < |r.nodes| && r.nodes[q] in g && v in g[r.nodes[q]]
        ensures v in r.nodes[..q] || Leads(g, v, r.nodes[q], {})
      {
        assert Settled(g, starts, r.nodes, q, v);
      }
    }
  }

  lemma WaitingComesLater<N(!new)>(g: EdgeMap<N>, starts: seq<N>, r: Run<N>, u: N, v: N)
    requires OrderInv(g, starts, r, 0) && PostOrdered(g, r.nodes)
    requires u in g && v in g[u] && Waits(g, starts, v, u)
    ensures Leads(g, v, u, {})
  {
    hide Leads, InTurn, Counted, Covered, Reachable, AllVisits, AllSettled;
    var i, j :| 0 <= i < j < |starts| && v == starts[i] && InTurn(g, starts, j, u);
    assert TurnOver(starts, r.nodes, j, u);
    var q :| 0 <= q < |r.nodes| && r.nodes[q] == u;
    if p :| 0 <= p < q && r.nodes[p] == v {
      assert u in r.nodes[..p];
      var k :| 0 <= k < p && r.nodes[k] == u;
      assert Counted(starts, r);
      VisitedDiffers(starts, r, k, q);
    }
  }

  lemma VisitedDiffers<N(!new)>(starts: seq<N>, r: Run<N>, i: nat, j: nat)
    requires Counted(starts, r) && Graphs.NoRepeats(starts) && i < j < |r.nodes|
    ensures r.nodes[i] != r.nodes[j]
  {
    if r.nodes[i] == r.nodes[j] {
      RepeatCounts(r.nodes, i, j);
      CountsAtMostOnce(starts, r, r.nodes[i]);
      assert false;
    }
  }

  /** With a single start nothing can wait. */
  lemma SingleStartIsPostOrdered<N(!new)>(g: EdgeMap<N>, start: N, r: Run<N>)
    requires OrderInv(g, [start], r, 0)
    ensures PostOrdered(g, r.nodes)
  {
    hide Inv, Leads, PostOrdered;
    PostOrderExactly(g, [start], r);
  }

  // ---------- Acyclic graphs ----------

  ghost predicate Acyclic<N(!new)>(g: EdgeMap<N>) {
    forall u, v :: u in g && v in g[u] ==> !Leads(g, v, u, {})
  }

  /** Every successor of a visited node was visited before it. */
  ghost predicate ReverseTopological<N>(g: EdgeMap<N>, nodes: seq<N>) {
    forall q, k :: 0 <= q < |nodes| && nodes[q] in g && 0 <= k < |g[nodes[q]]| ==> g[nodes[q]][k] in nodes[..q]
  }

  ghost predicate NoStartLeadsBack<N(!new)>(g: EdgeMap<N>, starts: seq<N>) {
    forall i, j :: 0 <= i < j < |starts| ==> !Leads(g, starts[j], starts[i], {})
  }

  /** An acyclic graph comes out in reverse topological order exactly when no start leads to one added before it. */
  lemma AcyclicExactly<N(!new)>(g: EdgeMap<N>, starts: seq<N>, r: Run<N>)
    requires OrderInv(g, starts, r, 0) && Acyclic(g)
    ensures ReverseTopological(g, r.nodes) <==> NoStartLeadsBack(g, starts)
  {
    hide Inv, Leads, AllSettled, TurnsOver, Chain;
    PostOrderExactly(g, starts, r);
    AcyclicOrders(g, r.nodes);
    hide PostOrdered, ReverseTopological;
    if u, v :| u in g && v in g[u] && Waits(g, starts, v, u) {
      WaitingIsLedTo(g, starts, u, v);
    }
    if StartsReturn(g, starts) {
      forall i, j | 0 <= i < j < |starts|
        ensures !Leads(g, starts[j], starts[i], {})
      {
        if Leads(g, starts[j], starts[i], {}) {
          var u, v := FirstWaiting(g, starts, i, j);
        }
      }
    }
  }

  lemma AcyclicOrders<N(!new)>(g: EdgeMap<N>, nodes: seq<N>)
    requires Acyclic(g)
    ensures ReverseTopological(g, nodes) <==> PostOrdered(g, nodes)
  {
    hide Leads;
    if PostOrdered(g, nodes) {
      forall q, k | 0 <= q < |nodes| && nodes[q] in g && 0 <= k < |g[nodes[q]]|
        ensures g[nodes[q]][k] in nodes[..q]
      {
        assert g[nodes[q]][k] in g[nodes[q]];
      }
    }
  }

  lemma WaitingIsLedTo<N(!new)>(g: EdgeMap<N>, starts: seq<N>, u: N, v: N)
    requires u in g && v in g[u] && Waits(g, starts, v, u)
    ensures !NoStartLeadsBack(g, starts)
  {
    hide Leads;
    var i, j :| 0 <= i < j < |starts| && v == starts[i] && InTurn(g, starts, j, u);
    LeadsWiden(g, starts[j], u, Before(starts, j));
    LeadsOn(g, starts[j], u, v, {});
  }

  /** On a path from one start to an earlier one, the first earlier start comes after a node of the later one's turn. */
  lemma FirstWaiting<N(!new)>(g: EdgeMap<N>, starts: seq<N>, i: nat, j: nat) returns (u: N, v: N)
    requires Graphs.NoRepeats(starts) && i < j < |starts| && Leads(g, starts[j], starts[i], {})
    ensures u in g && v in g[u] && Waits(g, starts, v, u)
  {
    var p :| PathAround(g, p, starts[j], starts[i], {});
    var k := 0;
    while p[k] !in Before(starts, j)
      invariant k < |p| && forall m :: 0 <= m < k ==> p[m] !in Before(starts, j)
      decreases |p| - k
    {
      assert starts[i] == starts[..j][i];
      k := k + 1;
    }
    assert starts[j] !in Before(starts, j);
    u, v := p[k - 1], p[k];
    assert PathAround(g, p[..k], starts[j], u, Before(starts, j));
    assert InTurn(g, starts, j, u);
    var m :| 0 <= m < j && starts[m] == v;
  }

  // ---------- Two starts out of order ----------

  /** Node 1 points at node 0; node 0 is added first. */
  function Arrow(): EdgeMap<nat> { map[0 := [], 1 := [0]] }

  function ArrowRun(): Run<nat> {
    var g := Arrow();
    var r0 := Pushed(g, Pushed(g, NoStarts(), 0), 1);
    NodeDone(NodeDone(EdgeFollowed(g, r0)))
  }

  /** So with two starts an acyclic graph can come out with a node before its successor. */
  lemma TwoStartsOutOfOrder()
    ensures OrderInv(Arrow(), [0, 1], ArrowRun(), 0)
    ensures ArrowRun().nodes == [1, 0] && !PostOrdered(Arrow(), ArrowRun().nodes)
  {
    ArrowKeepsOrder();
    hide OrderInv, Leads;
    if Leads(Arrow(), 0, 1, {}) {
      LeadsStays(Arrow(), {0}, 0, 1, {});
    }
    assert ArrowRun().nodes[..0] == [];
    assert 0 in Arrow()[ArrowRun().nodes[0]];
  }

  lemma ArrowKeepsOrder()
    ensures OrderInv(Arrow(), [0, 1], ArrowRun(), 0)
  {
    hide OrderInv;
    var g := Arrow();
    ArrowStarts();
    hide Fresh, Origins;
    var r0 := Pushed(g, Pushed(g, NoStarts(), 0), 1);
    assert r0 == Run([Frame(0, []), Frame(1, [0])], {0, 1}, [], []);
    FreshOrder(g, [0, 1], r0);
    EdgeFollowedKeepsOrder(g, [0, 1], r0, 2);
    var r1 := EdgeFollowed(g, r0);
    assert r1 == Run([Frame(0, []), Frame(1, [])], {0, 1}, [], [(1, 0)]);
    NodeDoneKeepsOrder(g, [0, 1], r1, 2);
    NodeDoneKeepsOrder(g, [0, 1], NodeDone(r1), 1);
  }

  lemma ArrowStarts()
    ensures Fresh(Arrow(), [0, 1], Pushed(Arrow(), Pushed(Arrow(), NoStarts(), 0), 1))
  {
    hide Fresh, Pushed, Inv;
    NoStartsFresh(Arrow());
    assert [] + [0] == [0] && [0] + [1] == [0, 1];
    StartKeepsFresh(Arrow(), [], NoStarts(), 0);
    StartKeepsFresh(Arrow(), [0], Pushed(Arrow(), NoStarts(), 0), 1);
  }
}
