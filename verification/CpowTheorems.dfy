/** What every run of the CPOW protocol guarantees, and exactly when a CPOW stays usable. */
module CpowTheorems {
  import opened Options
  import opened Cpows
  import opened CpowRuns

  /** states[i + 1] follows states[i] by steps[i], from two fresh endpoints. */
  ghost predicate IsRun(states: seq<System>, steps: seq<Step>) {
    && |states| == |steps| + 1 && states[0] == START
    && forall i :: 0 <= i < |steps| ==> Follows(states[i], steps[i], states[i + 1])
  }

  ghost predicate Follows(s: System, step: Step, s': System) {
    Enabled(s, step) && s' == Next(s, step)
  }

  lemma StartHolds()
    ensures Inv(START)
  {
  }

  lemma {:induction false} RunKeepsInv(states: seq<System>, steps: seq<Step>, n: nat)
    requires IsRun(states, steps) && n < |states|
    ensures Inv(states[n])
  {
    hide Next, Enabled, SiteInv;
    if n == 0 {
      StartHolds();
    } else {
      RunKeepsInv(states, steps, n - 1);
      assert Follows(states[n - 1], steps[n - 1], states[n]);
      NextKeepsInv(states[n - 1], steps[n - 1]);
    }
  }

  // ---------- An id means one object, for ever ----------

  /** Nothing forgets what an id was minted for. */
  lemma NextKeepsMinted(s: System, step: Step, side: Side, id: ObjectId)
    requires Inv(s) && Enabled(s, step) && id in s.At(side).minted
    ensures id in Next(s, step).At(side).minted && Next(s, step).At(side).minted[id] == s.At(side).minted[id]
  {
    hide SiteInv, Posted, ExportAt, DeliverAt, Deserialize, Serialize, Finalize, MoveProxy, SweepObjects, Destroy, Traced;
    match step
    case Export(actor, obj, waiver, objectsOk, idMapOk) =>
      SiteHasHost(s.At(actor), s.At(actor.Other()).sent);
      FreshId(s.At(actor), waiver);
      ExportMints(s.At(actor), obj, waiver, objectsOk, idMapOk);
      PostedKeepsMinted(s.Put(actor, ExportAt(s.At(actor), obj, waiver, objectsOk, idMapOk).0), actor,
                        ExportAt(s.At(actor), obj, waiver, objectsOk, idMapOk).1);
    case Return(actor, proxy) =>
      PostedKeepsMinted(s, actor, Some(SendCpow(s.At(actor).e, proxy)));
    case Deliver(actor, msg, newProxy, proxyOk, cpowsOk) =>
      DeliverKeepsSent(s.At(actor), msg, newProxy, proxyOk, cpowsOk);
    case Finalized(actor, proxy) =>
      var (e, msg) := Finalize(s.At(actor).e, proxy);
      PostedKeepsMinted(s.Put(actor, s.At(actor).(e := e)), actor, msg);
    case Moved(_, _, _) =>
    case Swept(_) =>
    case Destroyed(_) =>
    case Released(_) =>
    case Collected(_) =>
    case Misread(_, _) =>
  }

  lemma ExportMints(site: Site, obj: Obj, waiver: bool, objectsOk: bool, idMapOk: bool)
    ensures var minted := ExportAt(site, obj, waiver, objectsOk, idMapOk).0.minted;
            minted == site.minted || minted == site.minted[ObjectId(site.e.nextSerial, waiver) := obj]
  {
  }

  lemma PostedKeepsMinted(s: System, sender: Side, msg: Option<Message>)
    ensures forall side: Side :: Posted(s, sender, msg).At(side).minted == s.At(side).minted
    ensures forall side: Side :: Posted(s, sender, msg).At(side).e == s.At(side).e
  {
    forall side: Side
      ensures Posted(s, sender, msg).At(side).minted == s.At(side).minted
      ensures Posted(s, sender, msg).At(side).e == s.At(side).e
    {
      OnlyInboxGrows(s, sender, msg, side);
    }
  }

  lemma OnlyInboxGrows(s: System, sender: Side, msg: Option<Message>, side: Side)
    ensures Posted(s, sender, msg).At(side) == s.At(side).(inbox := Posted(s, sender, msg).At(side).inbox)
  {
  }

  lemma {:induction false} RunKeepsMinted(states: seq<System>, steps: seq<Step>, i: nat, j: nat, side: Side, id: ObjectId)
    requires IsRun(states, steps) && i <= j < |states| && id in states[i].At(side).minted
    ensures id in states[j].At(side).minted && states[j].At(side).minted[id] == states[i].At(side).minted[id]
  {
    hide Inv, Next, Enabled;
    if i == j {
    } else {
      RunKeepsMinted(states, steps, i, j - 1, side, id);
      RunKeepsInv(states, steps, j - 1);
      assert Follows(states[j - 1], steps[j - 1], states[j]);
      NextKeepsMinted(states[j - 1], steps[j - 1], side, id);
    }
  }

  /**
   In every run, an id once minted for an object resolves on its host, then and at any
   later time, to that object seen through the id's waiver flag, or to nothing.
   */
  lemma IdResolvesToItsObject(states: seq<System>, steps: seq<Step>, i: nat, j: nat, side: Side, id: ObjectId)
    requires IsRun(states, steps) && i <= j < |states| && id in states[i].At(side).minted
    ensures ReceiveLocal(states[j].At(side).e, id) in {None, Some((states[i].At(side).minted[id], id.waiver))}
  {
    RunKeepsMinted(states, steps, i, j, side, id);
    RunKeepsInv(states, steps, j);
  }

  /** No two ids minted by one endpoint share a serial, so comparing serials agrees on the waiver flag. */
  lemma SerialDeterminesId(states: seq<System>, steps: seq<Step>, i: nat, j: nat, side: Side, id: ObjectId, id': ObjectId)
    requires IsRun(states, steps) && i < |states| && j < |states|
    requires id in states[i].At(side).minted && id' in states[j].At(side).minted
    ensures id.serial == id'.serial <==> id == id'
  {
    var n := |states| - 1;
    RunKeepsMinted(states, steps, i, n, side, id);
    RunKeepsMinted(states, steps, j, n, side, id');
    RunKeepsInv(states, steps, n);
  }

  // ---------- The three tables invert each other ----------

  /** objects_ and the two object-to-id maps are mutually inverse. */
  ghost predicate MutuallyInverse(h: Site) {
    && (forall w, obj :: obj in h.e.IdMap(w) ==>
          var id := h.e.IdMap(w)[obj]; id.waiver == w && id in h.e.objects && h.e.objects[id] == obj)
    && (forall id :: id in h.e.objects ==>
          h.e.objects[id] in h.e.IdMap(id.waiver) && h.e.IdMap(id.waiver)[h.e.objects[id]] == id)
  }

  /** The tables disagree only on ids that were stored and never let out. */
  lemma InverseUnlessOrphans(h: Site)
    requires HostInv(h)
    ensures MutuallyInverse(h) <==> h.e.objects.Keys <= h.sent
  {
    assert forall w :: MapsInverted(h, w);
  }

  /** The second table insertion of an export fails after the first has succeeded. */
  predicate Orphans(s: System, step: Step)
    requires Enabled(s, step)
  {
    step.Export? && step.obj !in s.At(step.side).e.IdMap(step.waiver) && step.objectsOk && !step.idMapOk
  }

  ghost predicate AllSent(s: System) {
    s.parent.e.objects.Keys <= s.parent.sent && s.child.e.objects.Keys <= s.child.sent
  }

  lemma ExportOrphans(h: Site, obj: Obj, waiver: bool, objectsOk: bool, idMapOk: bool)
    requires HostInv(h) && CanSendOwn(h.e, obj, waiver) && h.e.objects.Keys <= h.sent
    ensures var h' := ExportAt(h, obj, waiver, objectsOk, idMapOk).0;
            h'.e.objects.Keys <= h'.sent <==> (obj in h.e.IdMap(waiver) || !objectsOk || idMapOk)
  {
    hide HostInv, ExportAt;
    FreshId(h, waiver);
    ExportAddsId(h, obj, waiver, objectsOk, idMapOk);
  }

  lemma ExportAddsId(h: Site, obj: Obj, waiver: bool, objectsOk: bool, idMapOk: bool)
    ensures var h' := ExportAt(h, obj, waiver, objectsOk, idMapOk).0;
            var id := ObjectId(h.e.nextSerial, waiver);
            if obj in h.e.IdMap(waiver) || !objectsOk then h'.e.objects == h.e.objects && h.sent <= h'.sent
            else h'.e.objects.Keys == h.e.objects.Keys + {id} && h'.sent == h.sent + if idMapOk then {id} else {}
  {
    hide Serialize;
  }

  lemma PostedKeepsSent(s: System, sender: Side, msg: Option<Message>)
    ensures forall side: Side :: Posted(s, sender, msg).At(side).sent == s.At(side).sent
  {
    forall side: Side
      ensures Posted(s, sender, msg).At(side).sent == s.At(side).sent
    {
      OnlyInboxGrows(s, sender, msg, side);
    }
  }

  lemma NextOrphans(s: System, step: Step)
    requires Inv(s) && Enabled(s, step) && AllSent(s)
    ensures AllSent(Next(s, step)) <==> !Orphans(s, step)
  {
    SiteHasHost(s.parent, s.child.sent);
    SiteHasHost(s.child, s.parent.sent);
    hide SiteInv, HostInv, Next, Enabled;
    if step.Export? {
      ExportStepOrphans(s, step);
    } else {
      OtherStepsAddNoIds(s, step, Parent);
      OtherStepsAddNoIds(s, step, Child);
    }
  }

  lemma ExportStepOrphans(s: System, step: Step)
    requires HostInv(s.parent) && HostInv(s.child) && Enabled(s, step) && AllSent(s) && step.Export?
    ensures AllSent(Next(s, step)) <==> !Orphans(s, step)
  {
    hide HostInv, Posted, ExportAt;
    var actor := step.side;
    var (site, msg) := ExportAt(s.At(actor), step.obj, step.waiver, step.objectsOk, step.idMapOk);
    ExportOrphans(s.At(actor), step.obj, step.waiver, step.objectsOk, step.idMapOk);
    PostedKeepsMinted(s.Put(actor, site), actor, msg);
    PostedKeepsSent(s.Put(actor, site), actor, msg);
    var s' := Next(s, step);
    assert s'.At(actor).e.objects == site.e.objects && s'.At(actor).sent == site.sent;
    assert s'.At(actor.Other()).e == s.At(actor.Other()).e && s'.At(actor.Other()).sent == s.At(actor.Other()).sent;
  }

  lemma OtherStepsAddNoIds(s: System, step: Step, side: Side)
    requires Enabled(s, step) && !step.Export?
    ensures Next(s, step).At(side).sent == s.At(side).sent
    ensures Next(s, step).At(side).e.objects.Keys <= s.At(side).e.objects.Keys
  {
    hide Posted, Deserialize, Serialize, DeliverAt, MoveProxy, SweepObjects, Finalize, Traced, CanSendOwn;
    match step
    case Return(actor, proxy) =>
      PostedKeepsMinted(s, actor, Some(SendCpow(s.At(actor).e, proxy)));
      PostedKeepsSent(s, actor, Some(SendCpow(s.At(actor).e, proxy)));
    case Deliver(actor, msg, newProxy, proxyOk, cpowsOk) =>
      DeliverAddsNoIds(s.At(actor), msg, newProxy, proxyOk, cpowsOk);
    case Finalized(actor, proxy) => FinalizedAddsNoIds(s, actor, proxy);
    case Moved(actor, from, to) => MoveAddsNoIds(s.At(actor).e, from, to);
    case Swept(collected) => SweepAddsNoIds(s.child.e, collected);
    case Destroyed(_) =>
    case Released(_) =>
    case Collected(_) =>
    case Misread(_, _) =>
  }

  lemma MoveAddsNoIds(e: Endpoint, from: Proxy, to: Proxy)
    requires from in e.aux
    ensures MoveProxy(e, from, to).objects == e.objects
  {
  }

  lemma SweepAddsNoIds(e: Endpoint, collected: set<Obj>)
    ensures SweepObjects(e, collected).objects.Keys <= e.objects.Keys
  {
  }

  lemma DeliverAddsNoIds(site: Site, msg: Message, newProxy: Proxy, proxyOk: bool, cpowsOk: bool)
    requires Deserialize(msg.data).Some?
    ensures var site' := DeliverAt(site, msg, newProxy, proxyOk, cpowsOk);
            site'.sent == site.sent && site'.e.objects.Keys <= site.e.objects.Keys
  {
  }

  lemma FinalizedAddsNoIds(s: System, actor: Side, proxy: Proxy)
    requires Enabled(s, Finalized(actor, proxy))
    ensures forall side: Side ::
      Next(s, Finalized(actor, proxy)).At(side).sent == s.At(side).sent &&
      Next(s, Finalized(actor, proxy)).At(side).e.objects == s.At(side).e.objects
  {
    hide Posted;
    var (e, msg) := Finalize(s.At(actor).e, proxy);
    PostedKeepsMinted(s.Put(actor, s.At(actor).(e := e)), actor, msg);
    PostedKeepsSent(s.Put(actor, s.At(actor).(e := e)), actor, msg);
  }

  /** The tables are mutually inverse throughout a run exactly when no export in it fails half-way. */
  lemma InverseIffNoHalfExport(states: seq<System>, steps: seq<Step>)
    requires IsRun(states, steps)
    ensures (forall i :: 0 <= i < |states| ==> MutuallyInverse(states[i].parent) && MutuallyInverse(states[i].child)) <==>
            (forall i :: 0 <= i < |steps| ==> Follows(states[i], steps[i], states[i + 1]) && !Orphans(states[i], steps[i]))
  {
    hide Enabled, MutuallyInverse;
    forall i | 0 <= i < |states|
      ensures MutuallyInverse(states[i].parent) && MutuallyInverse(states[i].child) <==> AllSent(states[i])
    {
      RunKeepsInv(states, steps, i);
      SiteHasHost(states[i].parent, states[i].child.sent);
      SiteHasHost(states[i].child, states[i].parent.sent);
      InverseUnlessOrphans(states[i].parent);
      InverseUnlessOrphans(states[i].child);
    }
    AllSentUpTo(states, steps, |states| - 1);
  }

  lemma {:induction false} AllSentUpTo(states: seq<System>, steps: seq<Step>, n: nat)
    requires IsRun(states, steps) && n < |states|
    ensures (forall i :: 0 <= i <= n ==> AllSent(states[i])) <==>
            (forall i :: 0 <= i < n ==> Follows(states[i], steps[i], states[i + 1]) && !Orphans(states[i], steps[i]))
  {
    hide Enabled, Inv, Next, Orphans;
    if n == 0 {
      assert AllSent(states[0]);
    } else {
      AllSentUpTo(states, steps, n - 1);
      assert Follows(states[n - 1], steps[n - 1], states[n]);
      RunKeepsInv(states, steps, n - 1);
      if AllSent(states[n - 1]) {
        NextOrphans(states[n - 1], steps[n - 1]);
      }
    }
  }

  // ---------- References ----------

  /** When the last reference goes and the owner deletes itself, its CPOW table is empty, as the destructor asserts. */
  lemma DestructorFindsNoCpows(states: seq<System>, steps: seq<Step>, n: nat, side: Side)
    requires IsRun(states, steps) && n < |states| && states[n].At(side).e.refcount == 0
    ensures states[n].At(side).e.cpows == map[] && states[n].At(side).released
  {
    RunKeepsInv(states, steps, n);
    assert Counted(states[n].At(side)) && HolderInv(states[n].At(side), states[n].At(side.Other()).sent);
  }

  /** No object that the parent's tables trace has been collected. */
  lemma TracedIsAlive(states: seq<System>, steps: seq<Step>, n: nat)
    requires IsRun(states, steps) && n < |states|
    ensures Traced(states[n].parent.e) !! states[n].parent.dead
  {
    hide SiteInv, HostInv, Traced;
    RunKeepsInv(states, steps, n);
    SiteHasHost(states[n].parent, states[n].child.sent);
    HostTracesLiving(states[n].parent);
  }

  lemma HostTracesLiving(h: Site)
    requires HostInv(h)
    ensures Traced(h.e) !! h.dead
  {
    hide SerialsUnique, IdsInverted;
    assert h.e.IdMap(true) == h.e.waived && h.e.IdMap(false) == h.e.unwaived;
  }

  // ---------- The end and the moves of a proxy ----------

  /** A finalized proxy leaves both tables with its id, and the peer is told exactly while the channel is up. */
  lemma FinalizedAtOnce(s: System, side: Side, proxy: Proxy)
    requires Enabled(s, Finalized(side, proxy))
    ensures var x, s' := s.At(side), Next(s, Finalized(side, proxy));
            var x', id := s'.At(side), x.e.aux[proxy];
            && x'.e.cpows == x.e.cpows - {id} && x'.e.aux == x.e.aux - {proxy} && x'.e.refcount + 1 == x.e.refcount
            && x'.e.objects == x.e.objects && x'.inbox == x.inbox
            && s'.At(side.Other()).e == s.At(side.Other()).e
            && s'.At(side.Other()).inbox ==
               s.At(side.Other()).inbox + if x.e.inactive then multiset{} else multiset{DropObject(Serialize(id))}
  {
    hide Serialize;
  }

  /** A moved proxy is held for the same id, and nothing else changes. */
  lemma MovedAtOnce(s: System, side: Side, from: Proxy, to: Proxy)
    requires Inv(s) && Enabled(s, Moved(side, from, to))
    ensures var x, s' := s.At(side), Next(s, Moved(side, from, to));
            var x', id := s'.At(side), x.e.aux[from];
            && from !in x'.e.aux && to in x'.e.aux && x'.e.aux[to] == id && x'.e.cpows == x.e.cpows[id := to]
            && x'.e.cpows.Keys == x.e.cpows.Keys && x'.e.refcount == x.e.refcount && x'.e.objects == x.e.objects
            && s'.At(side.Other()) == s.At(side.Other())
  {
    hide SiteInv, HostInv;
    SiteHasHost(s.At(side), s.At(side.Other()).sent);
  }

  // ---------- The end of an actor ----------

  /** Its endpoint hosts nothing any more, and keeps its CPOWs; the other endpoint does not notice. */
  lemma DestroyedAtOnce(s: System, side: Side)
    requires Enabled(s, Destroyed(side))
    ensures var x, x' := s.At(side), Next(s, Destroyed(side)).At(side);
            && x'.e.inactive && Traced(x'.e) == {} && (forall id :: ReceiveLocal(x'.e, id) == None)
            && x'.e.cpows == x.e.cpows && x'.e.aux == x.e.aux && x'.e.refcount == x.e.refcount
    ensures Next(s, Destroyed(side)).At(side.Other()) == s.At(side.Other())
  {
  }

  /** An export of the other endpoint. */
  lemma ExportElsewhere(s: System, step: Step, side: Side)
    requires Enabled(s, step) && step.Export? && step.side != side
    ensures Next(s, step).At(side).e == s.At(side).e
  {
    hide Posted, ExportAt, CanSendOwn;
    var (site, msg) := ExportAt(s.At(step.side), step.obj, step.waiver, step.objectsOk, step.idMapOk);
    PostedKeepsMinted(s.Put(step.side, site), step.side, msg);
  }

  lemma ExportAddsNoOldId(s: System, step: Step, side: Side, id: ObjectId)
    requires Inv(s) && Enabled(s, step) && step.Export? && step.side == side
    requires id in s.At(side).minted && id !in s.At(side).e.objects
    ensures id !in Next(s, step).At(side).e.objects
  {
    hide SiteInv, HostInv, Posted, ExportAt, CanSendOwn;
    var x := s.At(side);
    SiteHasHost(x, s.At(side.Other()).sent);
    hide Inv;
    var (site, msg) := ExportAt(x, step.obj, step.waiver, step.objectsOk, step.idMapOk);
    ExportAtAddsNoOldId(x, step.obj, step.waiver, step.objectsOk, step.idMapOk, id);
    PostedKeepsMinted(s.Put(side, site), side, msg);
  }

  lemma ExportAtAddsNoOldId(h: Site, obj: Obj, waiver: bool, objectsOk: bool, idMapOk: bool, id: ObjectId)
    requires HostInv(h) && id in h.minted && id !in h.e.objects
    ensures id !in ExportAt(h, obj, waiver, objectsOk, idMapOk).0.e.objects
  {
    hide HostInv, ExportAt;
    FreshId(h, waiver);
    ExportAddsId(h, obj, waiver, objectsOk, idMapOk);
  }

  /** An id that has left the host's table does not come back. */
  lemma NextAddsNoOldId(s: System, step: Step, side: Side, id: ObjectId)
    requires Inv(s) && Enabled(s, step) && id in s.At(side).minted && id !in s.At(side).e.objects
    ensures id !in Next(s, step).At(side).e.objects
  {
    hide Inv, Next, Enabled;
    if step.Export? {
      if step.side == side {
        ExportAddsNoOldId(s, step, side, id);
      } else {
        ExportElsewhere(s, step, side);
      }
    } else {
      OtherStepsAddNoIds(s, step, side);
    }
  }

  /** Nothing minted by an endpoint before the end of its actor ever resolves again. */
  lemma {:induction false} DestroyedIdsAreGone(states: seq<System>, steps: seq<Step>, i: nat, j: nat, side: Side, id: ObjectId)
    requires IsRun(states, steps) && i < j < |states| && steps[i] == Destroyed(side) && id in states[i].At(side).minted
    ensures ReceiveLocal(states[j].At(side).e, id) == None
    decreases j
  {
    hide Inv, Next, Enabled;
    assert Follows(states[j - 1], steps[j - 1], states[j]);
    if j == i + 1 {
      DestroyedAtOnce(states[i], side);
    } else {
      DestroyedIdsAreGone(states, steps, i, j - 1, side, id);
      RunKeepsMinted(states, steps, i, j - 1, side, id);
      RunKeepsInv(states, steps, j - 1);
      NextAddsNoOldId(states[j - 1], steps[j - 1], side, id);
    }
  }

  /** Until it exports again, it resolves no id and its tables trace nothing. */
  lemma {:induction false} DestroyedHostsNothing(states: seq<System>, steps: seq<Step>, i: nat, j: nat, side: Side)
    requires IsRun(states, steps) && i < j < |states| && steps[i] == Destroyed(side)
    requires forall k :: i < k < j ==> !(steps[k].Export? && steps[k].side == side)
    ensures states[j].At(side).e.objects == map[] && Traced(states[j].At(side).e) == {}
    decreases j
  {
    hide Inv, Next, Enabled, Traced;
    assert Follows(states[j - 1], steps[j - 1], states[j]);
    if j == i + 1 {
      DestroyedAtOnce(states[i], side);
      NothingHosted(states[j].At(side));
    } else {
      DestroyedHostsNothing(states, steps, i, j - 1, side);
      if steps[j - 1].Export? {
        ExportElsewhere(states[j - 1], steps[j - 1], side);
      } else {
        OtherStepsAddNoIds(states[j - 1], steps[j - 1], side);
      }
      RunKeepsInv(states, steps, j);
      EmptyHostTracesNothing(states[j], side);
    }
  }

  lemma NothingHosted(x: Site)
    requires forall id :: ReceiveLocal(x.e, id) == None
    ensures x.e.objects == map[]
  {
    assert forall id :: ReceiveLocal(x.e, id) == None ==> id !in x.e.objects;
  }

  lemma EmptyHostTracesNothing(s: System, side: Side)
    requires Inv(s) && s.At(side).e.objects == map[]
    ensures Traced(s.At(side).e) == {}
  {
    hide SiteInv, HostInv, Traced;
    SiteHasHost(s.At(side), s.At(side.Other()).sent);
    NothingToTrace(s.At(side));
  }

  lemma NothingToTrace(h: Site)
    requires HostInv(h) && h.e.objects == map[]
    ensures Traced(h.e) == {}
  {
    hide SerialsUnique, IdsInverted, ObjectsAsMinted;
    assert h.e.IdMap(true) == h.e.waived && h.e.IdMap(false) == h.e.unwaived;
  }

  // ---------- Half-made proxies ----------

  /** The step delivers a new id, and the proxy made for it cannot be entered in the table. */
  predicate HalfMakes(s: System, step: Step)
    requires Enabled(s, step)
  {
    && step.Deliver? && step.msg.RemoteObject? && Deserialize(step.msg.data).value !in s.At(step.side).e.cpows
    && step.proxyOk && !step.cpowsOk
  }

  /** The collector may finalize or move a proxy whose owner is undefined. */
  ghost predicate MayMisread(s: System) {
    exists side, proxy :: Enabled(s, Misread(side, proxy))
  }

  ghost predicate HasHalfMade(s: System) {
    s.parent.e.halfMade != {} || s.child.e.halfMade != {}
  }

  lemma DeliverMakes(site: Site, msg: Message, newProxy: Proxy, proxyOk: bool, cpowsOk: bool)
    requires Deserialize(msg.data).Some?
    ensures DeliverAt(site, msg, newProxy, proxyOk, cpowsOk).e.halfMade == site.e.halfMade +
            if msg.RemoteObject? && Deserialize(msg.data).value !in site.e.cpows && proxyOk && !cpowsOk then {newProxy} else {}
  {
    hide Deserialize;
  }

  lemma HandlersMakeNone(e: Endpoint, proxy: Proxy, to: Proxy, dead: set<Obj>)
    ensures proxy in e.aux && e.refcount > 0 ==> Finalize(e, proxy).0.halfMade == e.halfMade
    ensures proxy in e.aux ==> MoveProxy(e, proxy, to).halfMade == e.halfMade
    ensures SweepObjects(e, dead).halfMade == e.halfMade && Destroy(e).halfMade == e.halfMade
  {
  }

  lemma ExportMakesNone(site: Site, obj: Obj, waiver: bool, objectsOk: bool, idMapOk: bool)
    ensures ExportAt(site, obj, waiver, objectsOk, idMapOk).0.e.halfMade == site.e.halfMade
  {
  }

  lemma OthersMakeNone(s: System, step: Step, side: Side)
    requires Enabled(s, step) && !step.Deliver?
    ensures Next(s, step).At(side).e.halfMade == s.At(side).e.halfMade
  {
    hide Posted, ExportAt, Deserialize, Serialize, Finalize, MoveProxy, SweepObjects, Destroy, Traced, CanSendOwn;
    match step
    case Export(actor, obj, waiver, objectsOk, idMapOk) =>
      var (site, msg) := ExportAt(s.At(actor), obj, waiver, objectsOk, idMapOk);
      ExportMakesNone(s.At(actor), obj, waiver, objectsOk, idMapOk);
      PostedKeepsMinted(s.Put(actor, site), actor, msg);
    case Return(actor, proxy) =>
      PostedKeepsMinted(s, actor, Some(SendCpow(s.At(actor).e, proxy)));
    case Finalized(actor, proxy) =>
      var (e, msg) := Finalize(s.At(actor).e, proxy);
      HandlersMakeNone(s.At(actor).e, proxy, proxy, {});
      PostedKeepsMinted(s.Put(actor, s.At(actor).(e := e)), actor, msg);
    case Moved(actor, from, to) => HandlersMakeNone(s.At(actor).e, from, to, {});
    case Swept(collected) => HandlersMakeNone(s.child.e, 0, 0, collected);
    case Collected(_) =>
    case Destroyed(actor) => HandlersMakeNone(s.At(actor).e, 0, 0, {});
    case Released(_) =>
    case Misread(_, _) =>
  }

  lemma NextHalfMade(s: System, step: Step)
    requires Enabled(s, step) && !HasHalfMade(s)
    ensures HasHalfMade(Next(s, step)) <==> HalfMakes(s, step)
  {
    hide Next, Posted, DeliverAt, Deserialize;
    if step.Deliver? {
      DeliverMakes(s.At(step.side), step.msg, step.newProxy, step.proxyOk, step.cpowsOk);
      DeliveredAlone(s, step);
    } else {
      OthersMakeNone(s, step, Parent);
      OthersMakeNone(s, step, Child);
    }
  }

  lemma DeliveredAlone(s: System, step: Step)
    requires Enabled(s, step) && step.Deliver?
    ensures Next(s, step) == s.Put(step.side, DeliverAt(s.At(step.side), step.msg, step.newProxy, step.proxyOk, step.cpowsOk))
  {
  }

  lemma HalfMakingMayMisread(s: System, step: Step)
    requires Enabled(s, step) && HalfMakes(s, step)
    ensures MayMisread(Next(s, step))
  {
    assert Enabled(Next(s, step), Misread(step.side, step.newProxy));
  }

  ghost predicate HalfMakesAt(states: seq<System>, steps: seq<Step>, i: nat)
    requires i < |steps| && i + 1 < |states|
  {
    Follows(states[i], steps[i], states[i + 1]) && HalfMakes(states[i], steps[i])
  }

  lemma {:induction false} NoneHalfMadeUpTo(states: seq<System>, steps: seq<Step>, n: nat)
    requires IsRun(states, steps) && n < |states|
    requires forall i :: 0 <= i < n ==> !HalfMakesAt(states, steps, i)
    ensures !HasHalfMade(states[n])
  {
    hide Enabled, Next, HalfMakes;
    if n == 0 {
    } else {
      NoneHalfMadeUpTo(states, steps, n - 1);
      assert Follows(states[n - 1], steps[n - 1], states[n]);
      assert !HalfMakesAt(states, steps, n - 1);
      NextHalfMade(states[n - 1], steps[n - 1]);
    }
  }

  /**
   A run comes to where the collector may read an undefined owner exactly when some delivery of a new id in it
   makes the proxy and fails to enter it in the table.
   */
  lemma MisreadExactlyAfterHalfMaking(states: seq<System>, steps: seq<Step>)
    requires IsRun(states, steps)
    ensures (exists i :: 0 <= i < |states| && MayMisread(states[i])) <==>
            (exists i :: 0 <= i < |steps| && HalfMakesAt(states, steps, i))
  {
    hide Enabled, Next, HalfMakes, MayMisread;
    if i :| 0 <= i < |steps| && HalfMakesAt(states, steps, i) {
      HalfMakingMayMisread(states[i], steps[i]);
      assert MayMisread(states[i + 1]);
    } else {
      forall i | 0 <= i < |states|
        ensures !MayMisread(states[i])
      {
        NoneHalfMadeUpTo(states, steps, i);
        MisreadNeedsHalfMade(states[i]);
      }
    }
  }

  lemma MisreadNeedsHalfMade(s: System)
    ensures MayMisread(s) ==> HasHalfMade(s)
  {
  }
}
