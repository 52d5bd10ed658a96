/** Exactly when a host keeps an exported object in its tables although the peer holds no CPOW for it. */
module CpowLeaks {
  import opened Options
  import opened Cpows
  import opened CpowRuns
  import opened CpowTheorems
  import opened CpowLiveness

  /** The holder has a CPOW for id or is about to get one, or its drop is on the way to the host. */
  ghost predicate Held(h: Site, o: Site, id: ObjectId) {
    Claimed(o, id) || DropObject(Serialize(id)) in h.inbox
  }

  ghost predicate LinkTight(h: Site, o: Site) {
    forall id :: id in h.e.objects && id in h.sent ==> Held(h, o, id)
  }

  ghost predicate NoLeak(s: System) {
    s.Active() ==> LinkTight(s.parent, s.child) && LinkTight(s.child, s.parent)
  }

  /** The message brings the holder an id for which no CPOW can be made, and nothing else will tell the host. */
  ghost predicate LosesHold(h: Site, o: Site, msg: Message, made: bool)
    requires Deserialize(msg.data).Some?
  {
    && msg.RemoteObject? && !made
    && var id := Deserialize(msg.data).value;
       && id in h.e.objects && id in h.sent && id !in o.e.cpows && o.inbox[msg] == 1
       && DropObject(Serialize(id)) !in h.inbox
  }

  /** The step is such a delivery, with the channel up. */
  ghost predicate Leaks(s: System, step: Step)
    requires Enabled(s, step)
  {
    s.Active() && step.Deliver?
    && LosesHold(s.At(step.side.Other()), s.At(step.side), step.msg, step.proxyOk && step.cpowsOk)
  }

  // ---------- One link ----------

  lemma TightKept(h: Site, o: Site, h': Site, o': Site)
    requires LinkTight(h, o)
    requires h'.e.objects.Keys * h'.sent <= h.e.objects.Keys * h.sent
    requires forall id :: id in h'.e.objects && id in h'.sent && Held(h, o, id) ==> Held(h', o', id)
    ensures LinkTight(h', o')
  {
    hide Held;
    forall id | id in h'.e.objects && id in h'.sent
      ensures Held(h', o', id)
    {
      assert id in h'.e.objects.Keys * h'.sent;
    }
  }

  lemma SameTight(h: Site, o: Site, h': Site, o': Site)
    requires LinkTight(h, o)
    requires h'.e.objects.Keys <= h.e.objects.Keys && h'.sent == h.sent && o.e.cpows.Keys <= o'.e.cpows.Keys
    requires forall msg: Message :: msg.RemoteObject? && msg in o.inbox ==> msg in o'.inbox
    requires forall msg: Message :: msg.DropObject? && msg in h.inbox ==> msg in h'.inbox
    ensures LinkTight(h', o')
  {
    hide Serialize;
    TightKept(h, o, h', o');
  }

  lemma ExportLetsOut(h: Site, obj: Obj, waiver: bool, objectsOk: bool, idMapOk: bool) returns (id: ObjectId)
    requires HostInv(h)
    ensures var (h', msg) := ExportAt(h, obj, waiver, objectsOk, idMapOk);
            && (msg.Some? ==> msg == Some(RemoteObject(Serialize(id))) && h'.sent == h.sent + {id})
            && (msg.None? ==> h'.sent == h.sent && id !in h.sent)
            && h'.e.objects.Keys <= h.e.objects.Keys + {id} && h'.inbox == h.inbox
            && (id in h.sent ==> id in h.e.objects)
  {
    FreshId(h, waiver);
    id := if obj in h.e.IdMap(waiver) then h.e.IdMap(waiver)[obj] else ObjectId(h.e.nextSerial, waiver);
    assert MapsInverted(h, waiver);
    hide HostInv, Serialize;
  }

  lemma HostExportsTight(h: Site, o: Site, obj: Obj, waiver: bool, objectsOk: bool, idMapOk: bool)
    requires HostInv(h) && LinkTight(h, o)
    ensures var (h', msg) := ExportAt(h, obj, waiver, objectsOk, idMapOk);
            LinkTight(h', if msg.Some? then o.(inbox := o.inbox + multiset{msg.value}) else o)
  {
    hide HostInv, ExportAt, Serialize;
    var id := ExportLetsOut(h, obj, waiver, objectsOk, idMapOk);
    var (h', msg) := ExportAt(h, obj, waiver, objectsOk, idMapOk);
    var o' := if msg.Some? then o.(inbox := o.inbox + multiset{msg.value}) else o;
    forall i | i in h'.e.objects && i in h'.sent
      ensures Held(h', o', i)
    {
      if i != id {
        assert Held(h, o, i);
      }
    }
  }

  /** Of two ids that were let out, only one is named by a message. */
  lemma OneIdNamed(h: Site, data: nat, id: ObjectId)
    requires HostInv(h) && id in h.sent && Serialize(id) == data && Deserialize(data).Some?
    ensures id == Deserialize(data).value
  {
    SerializeRoundTrip(id);
  }

  /** A drop that is delivered takes the id it names from the table, and no other was waiting for it. */
  lemma HostReceivesTight(h: Site, o: Site, msg: Message, newProxy: Proxy, proxyOk: bool, cpowsOk: bool)
    requires HostInv(h) && LinkTight(h, o) && Deserialize(msg.data).Some?
    ensures LinkTight(DeliverAt(h, msg, newProxy, proxyOk, cpowsOk), o)
  {
    var h' := DeliverAt(h, msg, newProxy, proxyOk, cpowsOk);
    forall id | id in h'.e.objects && id in h'.sent
      ensures Held(h', o, id)
    {
      DeliveryKeepsOthers(h, o, msg, newProxy, proxyOk, cpowsOk, id);
    }
  }

  lemma DeliveryKeepsOthers(h: Site, o: Site, msg: Message, newProxy: Proxy, proxyOk: bool, cpowsOk: bool, id: ObjectId)
    requires HostInv(h) && LinkTight(h, o) && Deserialize(msg.data).Some?
    requires var h' := DeliverAt(h, msg, newProxy, proxyOk, cpowsOk); id in h'.e.objects && id in h'.sent
    ensures Held(DeliverAt(h, msg, newProxy, proxyOk, cpowsOk), o, id)
  {
    if msg == DropObject(Serialize(id)) {
      assert id in h.sent;
      OneIdNamed(h, msg.data, id);
    }
    hide HostInv, Serialize, Deserialize;
    assert id in h.e.objects && id in h.sent;
    assert Held(h, o, id);
  }

  /** A delivery to the holder matters only if it brings an id, and loses exactly one for which it makes no CPOW. */
  lemma HolderReceivesTight(h: Site, o: Site, msg: Message, newProxy: Proxy, proxyOk: bool, cpowsOk: bool)
    requires HostInv(h) && LinkTight(h, o) && msg in o.inbox && Deserialize(msg.data).Some?
    ensures LinkTight(h, DeliverAt(o, msg, newProxy, proxyOk, cpowsOk)) <==> !LosesHold(h, o, msg, proxyOk && cpowsOk)
  {
    var o', named := DeliverAt(o, msg, newProxy, proxyOk, cpowsOk), Deserialize(msg.data).value;
    DeserializeRoundTrip(msg.data);
    forall id | id in h.e.objects && id in h.sent
      ensures Held(h, o', id) <==> !(LosesHold(h, o, msg, proxyOk && cpowsOk) && id == named)
    {
      if msg == RemoteObject(Serialize(id)) {
        OneIdNamed(h, msg.data, id);
      }
      HeldAfterDelivery(h, o, msg, newProxy, proxyOk, cpowsOk, id);
    }
    hide Held, DeliverAt, Deserialize, Serialize, HostInv;
  }

  lemma HeldAfterDelivery(h: Site, o: Site, msg: Message, newProxy: Proxy, proxyOk: bool, cpowsOk: bool, id: ObjectId)
    requires LinkTight(h, o) && msg in o.inbox && Deserialize(msg.data).Some? && id in h.e.objects && id in h.sent
    requires Serialize(Deserialize(msg.data).value) == msg.data
    requires msg == RemoteObject(Serialize(id)) ==> id == Deserialize(msg.data).value
    ensures Held(h, DeliverAt(o, msg, newProxy, proxyOk, cpowsOk), id) <==>
            !(LosesHold(h, o, msg, proxyOk && cpowsOk) && id == Deserialize(msg.data).value)
  {
    assert Held(h, o, id);
    hide LinkTight, Serialize, Deserialize;
  }

  // ---------- One step ----------

  ghost predicate BothTight(s: System, side: Side) {
    LinkTight(s.At(side), s.At(side.Other())) && LinkTight(s.At(side.Other()), s.At(side))
  }

  lemma TightFromEitherSide(s: System, side: Side)
    requires s.Active()
    ensures NoLeak(s) <==> BothTight(s, side)
  {
    hide LinkTight;
  }

  lemma HostsOf(s: System, side: Side)
    requires Inv(s)
    ensures HostInv(s.At(side))
  {
    hide HostInv;
  }

  lemma ExportTight(s: System, step: Step)
    requires Inv(s) && Enabled(s, step) && step.Export? && BothTight(s, step.side) && s.Active()
    ensures BothTight(Next(s, step), step.side)
  {
    hide SiteInv, HostInv, LinkTight, ExportAt, Posted, CanSendOwn;
    var side := step.side;
    HostsOf(s, side);
    hide Inv;
    var x, y := s.At(side), s.At(side.Other());
    var (x', msg) := ExportAt(x, step.obj, step.waiver, step.objectsOk, step.idMapOk);
    HostExportsTight(x, y, step.obj, step.waiver, step.objectsOk, step.idMapOk);
    ExportSendsObject(x, step.obj, step.waiver, step.objectsOk, step.idMapOk);
    ExportKeepsHolderSide(x, step.obj, step.waiver, step.objectsOk, step.idMapOk);
    SitesAfter(s, side, x', msg);
    SameTight(y, x, Next(s, step).At(side.Other()), x');
  }

  lemma ExportSendsObject(h: Site, obj: Obj, waiver: bool, objectsOk: bool, idMapOk: bool)
    ensures var msg := ExportAt(h, obj, waiver, objectsOk, idMapOk).1;
            msg.Some? ==> msg.value.RemoteObject?
  {
    hide Serialize;
  }

  lemma ReturnTight(s: System, step: Step)
    requires Enabled(s, step) && step.Return? && BothTight(s, step.side)
    ensures BothTight(Next(s, step), step.side)
  {
    hide LinkTight, Posted, Serialize;
    var side := step.side;
    var x, y := s.At(side), s.At(side.Other());
    SitesAfter(s, side, x, Some(SendCpow(x.e, step.proxy)));
    assert s.Put(side, x) == s;
    var y' := Next(s, step).At(side.Other());
    SameTight(x, y, x, y');
    SameTight(y, x, y', x);
  }

  lemma FinalizedTight(s: System, step: Step)
    requires Enabled(s, step) && step.Finalized? && BothTight(s, step.side) && s.Active()
    ensures BothTight(Next(s, step), step.side)
  {
    hide LinkTight, Posted, Held, Serialize;
    var side := step.side;
    var x, y := s.At(side), s.At(side.Other());
    var (e, msg) := Finalize(x.e, step.proxy);
    var x' := x.(e := e);
    SitesAfter(s, side, x', msg);
    var y' := Next(s, step).At(side.Other());
    SameTight(x, y, x', y');
    DropTellsHost(y, x, step.proxy, y');
  }

  /** The drop that is sent holds the place of the CPOW. */
  lemma DropTellsHost(h: Site, o: Site, proxy: Proxy, h': Site)
    requires LinkTight(h, o) && proxy in o.e.aux && o.e.refcount > 0
    requires h' == h.(inbox := h.inbox + multiset{DropObject(Serialize(o.e.aux[proxy]))})
    ensures LinkTight(h', o.(e := Finalize(o.e, proxy).0))
  {
    hide Serialize;
    var o' := o.(e := Finalize(o.e, proxy).0);
    forall id | id in h'.e.objects && id in h'.sent
      ensures Held(h', o', id)
    {
      assert Held(h, o, id);
    }
  }

  lemma MovedTight(s: System, step: Step)
    requires Inv(s) && Enabled(s, step) && step.Moved? && BothTight(s, step.side)
    ensures BothTight(Next(s, step), step.side)
  {
    hide SiteInv, HostInv, HolderInv, LinkTight, MoveProxy;
    var side := step.side;
    var x, y := s.At(side), s.At(side.Other());
    SiteHasHost(x, y.sent);
    MoveKeepsTables(x, y.sent, step.from, step.to);
    hide Inv;
    var x' := Next(s, step).At(side);
    SameTight(y, x, y, x');
    SameTight(x, y, x', y);
  }

  lemma SweptTight(s: System, collected: set<Obj>)
    requires BothTight(s, Child) && Enabled(s, Swept(collected))
    ensures BothTight(Next(s, Swept(collected)), Child)
  {
    hide LinkTight;
    var h' := Next(s, Swept(collected)).child;
    SameTight(s.child, s.parent, h', s.parent);
    SameTight(s.parent, s.child, s.parent, h');
  }

  lemma CollectedTight(s: System, garbage: set<Obj>)
    requires BothTight(s, Parent) && Enabled(s, Collected(garbage))
    ensures BothTight(Next(s, Collected(garbage)), Parent)
  {
    hide LinkTight, Traced;
    var h' := Next(s, Collected(garbage)).parent;
    SameTight(s.parent, s.child, h', s.child);
    SameTight(s.child, s.parent, s.child, h');
  }

  lemma MisreadTight(s: System, step: Step)
    requires step.Misread? && Enabled(s, step) && BothTight(s, step.side)
    ensures BothTight(Next(s, step), step.side)
  {
    hide LinkTight;
    var x, y, x' := s.At(step.side), s.At(step.side.Other()), Next(s, step).At(step.side);
    SameTight(x, y, x', y);
    SameTight(y, x, y, x');
  }

  lemma DeliverTight(s: System, step: Step)
    requires Inv(s) && Enabled(s, step) && step.Deliver? && BothTight(s, step.side) && s.Active()
    ensures BothTight(Next(s, step), step.side) <==> !Leaks(s, step)
  {
    hide SiteInv, HostInv, LinkTight, LosesHold, DeliverAt, Deserialize;
    var side := step.side;
    HostsOf(s, side);
    HostsOf(s, side.Other());
    hide Inv;
    var x, y := s.At(side), s.At(side.Other());
    HostReceivesTight(x, y, step.msg, step.newProxy, step.proxyOk, step.cpowsOk);
    HolderReceivesTight(y, x, step.msg, step.newProxy, step.proxyOk, step.cpowsOk);
  }

  lemma OpenStepTight(s: System, step: Step)
    requires Inv(s) && Enabled(s, step) && !step.Destroyed? && !step.Released?
    requires BothTight(s, Acting(step)) && s.Active()
    ensures BothTight(Next(s, step), Acting(step)) <==> !Leaks(s, step)
  {
    hide Inv, BothTight, Next, Enabled, LosesHold;
    match step
    case Export(_, _, _, _, _) => ExportTight(s, step);
    case Return(_, _) => ReturnTight(s, step);
    case Deliver(_, _, _, _, _) => DeliverTight(s, step);
    case Finalized(_, _) => FinalizedTight(s, step);
    case Moved(_, _, _) => MovedTight(s, step);
    case Swept(collected) => SweptTight(s, collected);
    case Collected(garbage) => CollectedTight(s, garbage);
    case Misread(_, _) => MisreadTight(s, step);
  }

  /** While every exported object is held, a step leaves one unheld exactly when it is such a delivery. */
  lemma NextLeaks(s: System, step: Step)
    requires Inv(s) && Enabled(s, step) && NoLeak(s)
    ensures NoLeak(Next(s, step)) <==> !Leaks(s, step)
  {
    hide Inv, Next, Enabled, LinkTight, BothTight, LosesHold;
    if Next(s, step).Active() {
      ActiveBefore(s, step);
      TightFromEitherSide(s, Acting(step));
      TightFromEitherSide(Next(s, step), Acting(step));
      OpenStepTight(s, step);
    } else if s.Active() && !step.Destroyed? {
      ActiveAfter(s, step);
    }
  }

  // ---------- Runs ----------

  /**
   Throughout a run, in any delivery order, whatever an endpoint has stored and let out is held by the peer,
   on its way there, or about to be dropped, exactly when no delivery of an id fails that is its last hold.
   */
  lemma HeldIffNoLostDelivery(states: seq<System>, steps: seq<Step>)
    requires IsRun(states, steps)
    ensures (forall i :: 0 <= i < |states| ==> NoLeak(states[i])) <==>
            (forall i :: 0 <= i < |steps| ==> Follows(states[i], steps[i], states[i + 1]) && !Leaks(states[i], steps[i]))
  {
    hide NoLeak, Leaks, Follows;
    HeldUpTo(states, steps, |states| - 1);
  }

  lemma {:induction false} HeldUpTo(states: seq<System>, steps: seq<Step>, n: nat)
    requires IsRun(states, steps) && n < |states|
    ensures (forall i :: 0 <= i <= n ==> NoLeak(states[i])) <==>
            (forall i :: 0 <= i < n ==> Follows(states[i], steps[i], states[i + 1]) && !Leaks(states[i], steps[i]))
  {
    hide Enabled, Inv, Next, NoLeak, Leaks;
    if n == 0 {
      NothingToHold();
    } else {
      HeldUpTo(states, steps, n - 1);
      assert Follows(states[n - 1], steps[n - 1], states[n]);
      RunKeepsInv(states, steps, n - 1);
      if NoLeak(states[n - 1]) {
        NextLeaks(states[n - 1], steps[n - 1]);
      }
    }
  }

  lemma NothingToHold()
    ensures NoLeak(START)
  {
  }

  // ---------- Such a run ----------

  /** The child cannot make a proxy for the id it is sent. */
  const FAILED_RECEIVE: Step := Deliver(Child, RemoteObject(2), 5, false, true)
  const LOST: System := System(SENT.parent, NEW_SITE)

  /** The parent still has the object, although the child has no CPOW for it and none is under way. */
  lemma LeakHappens()
    ensures IsRun([START, SENT, LOST], [SEND, FAILED_RECEIVE])
    ensures LOST.Active() && !NoLeak(LOST)
  {
    SendFollows();
    FirstIdOnTheWire();
    assert multiset{RemoteObject(2)} - multiset{RemoteObject(2)} == multiset{};
    assert Follows(SENT, FAILED_RECEIVE, LOST);
    hide Follows;
    assert !Held(LOST.parent, LOST.child, FIRST_ID);
  }
}
