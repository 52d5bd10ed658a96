/** Exactly when every CPOW on an active channel still resolves in its host. */
module CpowLiveness {
  import opened Options
  import opened Cpows
  import opened CpowRuns
  import opened CpowTheorems

  /** The holder has a CPOW for id, or one is on its way to it. */
  ghost predicate Claimed(o: Site, id: ObjectId) {
    id in o.e.cpows || RemoteObject(Serialize(id)) in o.inbox
  }

  /** The host still resolves id, or the object behind it has been collected. */
  ghost predicate Resolves(h: Site, id: ObjectId) {
    id in h.e.objects || (id in h.minted && h.minted[id] in h.dead)
  }

  ghost predicate LinkUsable(h: Site, o: Site) {
    forall id :: Claimed(o, id) && id in h.sent ==> Resolves(h, id)
  }

  ghost predicate Usable(s: System) {
    s.Active() ==> LinkUsable(s.parent, s.child) && LinkUsable(s.child, s.parent)
  }

  /** The step delivers a drop for an id that the peer meanwhile holds, or is about to hold, again. */
  ghost predicate StaleDrop(s: System, step: Step)
    requires Enabled(s, step)
  {
    && s.Active() && step.Deliver? && step.msg.DropObject?
    && var id := Deserialize(step.msg.data).value;
       id in s.At(step.side).e.objects && Claimed(s.At(step.side.Other()), id)
  }

  /** Claims only shrink, or are newly met; what resolved still does. */
  lemma LinkKept(h: Site, o: Site, h': Site, o': Site)
    requires LinkUsable(h, o)
    requires forall id :: Claimed(o', id) && id in h'.sent ==> (Claimed(o, id) && id in h.sent) || Resolves(h', id)
    requires forall id :: Resolves(h, id) ==> Resolves(h', id)
    ensures LinkUsable(h', o')
  {
  }

  lemma SameLink(h: Site, o: Site, h': Site, o': Site)
    requires LinkUsable(h, o)
    requires h'.e.objects == h.e.objects && h'.minted == h.minted && h'.dead == h.dead && h'.sent == h.sent
    requires o'.e.cpows == o.e.cpows && forall msg: Message :: msg.RemoteObject? && msg in o'.inbox ==> msg in o.inbox
    ensures LinkUsable(h', o')
  {
    forall id | Claimed(o', id) && id in h'.sent
      ensures Claimed(o, id) && id in h.sent
    {
    }
    forall id | Resolves(h, id)
      ensures Resolves(h', id)
    {
    }
    LinkKept(h, o, h', o');
  }

  // One lemma per step, for the link whose host is h and whose holder is o.

  lemma HostExports(h: Site, o: Site, obj: Obj, waiver: bool, objectsOk: bool, idMapOk: bool)
    requires HostInv(h) && CanSendOwn(h.e, obj, waiver) && obj !in h.dead && LinkUsable(h, o)
    requires forall id :: Claimed(o, id) ==> id in h.sent
    ensures var (h', msg) := ExportAt(h, obj, waiver, objectsOk, idMapOk);
            && LinkUsable(h', o)
            && (msg.Some? ==> LinkUsable(h', o.(inbox := o.inbox + multiset{msg.value})))
  {
    var (h', msg) := ExportAt(h, obj, waiver, objectsOk, idMapOk);
    ExportNames(h, obj, waiver, objectsOk, idMapOk);
    ExportKeepsHost(h, obj, waiver, objectsOk, idMapOk);
    FreshId(h, waiver);
    ExportKeepsResolving(h, obj, waiver, objectsOk, idMapOk);
    LinkKept(h, o, h', o);
    if msg.Some? {
      var o' := o.(inbox := o.inbox + multiset{msg.value});
      forall id | Claimed(o', id) && id in h'.sent
        ensures (Claimed(o, id) && id in h.sent) || Resolves(h', id)
      {
        if !Claimed(o, id) {
          SerializeRoundTrip(id);
          assert id in h'.minted;
        }
      }
      LinkKept(h, o, h', o');
    }
  }

  lemma ExportKeepsResolving(h: Site, obj: Obj, waiver: bool, objectsOk: bool, idMapOk: bool)
    requires HostInv(h)
    ensures var h' := ExportAt(h, obj, waiver, objectsOk, idMapOk).0;
            forall id :: Resolves(h, id) ==> Resolves(h', id)
  {
    FreshId(h, waiver);
  }

  lemma HolderReceives(h: Site, o: Site, msg: Message, newProxy: Proxy, proxyOk: bool, cpowsOk: bool)
    requires LinkUsable(h, o) && msg in o.inbox && Deserialize(msg.data).Some?
    ensures LinkUsable(h, DeliverAt(o, msg, newProxy, proxyOk, cpowsOk))
  {
    var o' := DeliverAt(o, msg, newProxy, proxyOk, cpowsOk);
    forall id | Claimed(o', id)
      ensures Claimed(o, id)
    {
      DeserializeRoundTrip(msg.data);
    }
    LinkKept(h, o, h, o');
  }

  /** Delivering to the host matters only if it is a drop, and harms exactly a claimed id. */
  lemma HostReceives(h: Site, o: Site, msg: Message, newProxy: Proxy, proxyOk: bool, cpowsOk: bool)
    requires HostInv(h) && LinkUsable(h, o) && Deserialize(msg.data).Some? && Names(msg, h.sent, o.sent)
    ensures var id := Deserialize(msg.data).value;
            LinkUsable(DeliverAt(h, msg, newProxy, proxyOk, cpowsOk), o) <==>
            !(msg.DropObject? && id in h.e.objects && Claimed(o, id))
  {
    var id := Deserialize(msg.data).value;
    var h' := DeliverAt(h, msg, newProxy, proxyOk, cpowsOk);
    if msg.DropObject? && id in h.e.objects && Claimed(o, id) {
      assert id in h'.sent && !Resolves(h', id);
    } else if msg.DropObject? && id in h.e.objects {
      assert h'.e.objects == h.e.objects - {id};
      forall i | Claimed(o, i) && i in h'.sent
        ensures Resolves(h', i)
      {
        assert Resolves(h, i);
      }
    } else {
      SameLink(h, o, h', o);
    }
  }

  lemma HostSweeps(h: Site, o: Site, collected: set<Obj>)
    requires HostInv(h) && LinkUsable(h, o)
    ensures LinkUsable(h.(e := SweepObjects(h.e, collected), dead := h.dead + collected), o)
  {
    var h' := h.(e := SweepObjects(h.e, collected), dead := h.dead + collected);
    forall id | Resolves(h, id)
      ensures Resolves(h', id)
    {
    }
    LinkKept(h, o, h', o);
  }

  lemma ClaimsAreSent(s: System, side: Side, id: ObjectId)
    requires Inv(s) && Claimed(s.At(side), id)
    ensures id in s.At(side.Other()).sent
  {
    var o, h := s.At(side), s.At(side.Other());
    assert SiteInv(o, h.sent) && SiteInv(h, o.sent);
    if id in o.e.cpows {
    } else {
      var msg := RemoteObject(Serialize(id));
      assert Names(msg, o.sent, h.sent);
      DeserializeRoundTrip(Serialize(id));
      SerializeRoundTrip(id);
    }
  }

  ghost predicate BothUsable(s: System, side: Side) {
    LinkUsable(s.At(side), s.At(side.Other())) && LinkUsable(s.At(side.Other()), s.At(side))
  }

  lemma UsableFromEitherSide(s: System, side: Side)
    requires s.Active()
    ensures Usable(s) <==> BothUsable(s, side)
  {
    hide LinkUsable;
  }

  lemma SitesOf(s: System, side: Side)
    requires Inv(s)
    ensures HostInv(s.At(side)) && InboxInv(s.At(side), s.At(side.Other()).sent)
    ensures forall id :: Claimed(s.At(side), id) ==> id in s.At(side.Other()).sent
  {
    forall id | Claimed(s.At(side), id)
      ensures id in s.At(side.Other()).sent
    {
      ClaimsAreSent(s, side, id);
    }
  }

  /** The system after the acting site changed to x' and posted msg. */
  lemma SitesAfter(s: System, side: Side, x': Site, msg: Option<Message>)
    ensures var s' := Posted(s.Put(side, x'), side, msg);
            && s'.At(side) == x'
            && (msg.None? || x'.e.inactive ==> s'.At(side.Other()) == s.At(side.Other()))
            && (msg.Some? && !x'.e.inactive ==>
                  s'.At(side.Other()) == s.At(side.Other()).(inbox := s.At(side.Other()).inbox + multiset{msg.value}))
  {
  }

  lemma ExportUsable(s: System, step: Step)
    requires Inv(s) && Enabled(s, step) && step.Export? && BothUsable(s, step.side) && s.Active()
    ensures BothUsable(Next(s, step), step.side)
  {
    var side := step.side;
    SitesOf(s, side);
    SitesOf(s, side.Other());
    hide Inv, LinkUsable, HostInv, ExportAt, Posted, Claimed, InboxInv;
    var x, y := s.At(side), s.At(side.Other());
    var (x', msg) := ExportAt(x, step.obj, step.waiver, step.objectsOk, step.idMapOk);
    HostExports(x, y, step.obj, step.waiver, step.objectsOk, step.idMapOk);
    ExportNames(x, step.obj, step.waiver, step.objectsOk, step.idMapOk);
    ExportKeepsHolderSide(x, step.obj, step.waiver, step.objectsOk, step.idMapOk);
    SitesAfter(s, side, x', msg);
    var y' := Next(s, step).At(side.Other());
    SameLink(y, x, y', x');
  }

  lemma ReturnUsable(s: System, step: Step)
    requires Enabled(s, step) && step.Return? && BothUsable(s, step.side)
    ensures BothUsable(Next(s, step), step.side)
  {
    hide LinkUsable, Posted;
    var side := step.side;
    var x, y := s.At(side), s.At(side.Other());
    SitesAfter(s, side, x, Some(SendCpow(x.e, step.proxy)));
    assert s.Put(side, x) == s;
    var y' := Next(s, step).At(side.Other());
    SameLink(x, y, x, y');
    SameLink(y, x, y', x);
  }

  lemma FinalizedUsable(s: System, step: Step)
    requires Enabled(s, step) && step.Finalized? && BothUsable(s, step.side)
    ensures BothUsable(Next(s, step), step.side)
  {
    hide LinkUsable, Posted, Claimed, Resolves;
    var side := step.side;
    var x, y := s.At(side), s.At(side.Other());
    var (e, msg) := Finalize(x.e, step.proxy);
    var x' := x.(e := e);
    SitesAfter(s, side, x', msg);
    var y' := Next(s, step).At(side.Other());
    SameLink(x, y, x', y');
    FewerCpows(y, x, y', x');
  }

  lemma FewerCpows(h: Site, o: Site, h': Site, o': Site)
    requires LinkUsable(h, o)
    requires h'.e.objects == h.e.objects && h'.minted == h.minted && h'.dead == h.dead && h'.sent == h.sent
    requires o'.e.cpows.Keys <= o.e.cpows.Keys && o'.inbox == o.inbox
    ensures LinkUsable(h', o')
  {
    forall id | Claimed(o', id)
      ensures Claimed(o, id)
    {
    }
    forall id | Resolves(h, id)
      ensures Resolves(h', id)
    {
    }
    LinkKept(h, o, h', o');
  }

  lemma MoveKeepsTables(site: Site, peers: set<ObjectId>, from: Proxy, to: Proxy)
    requires HolderInv(site, peers) && from in site.e.aux
    ensures MoveProxy(site.e, from, to).cpows.Keys == site.e.cpows.Keys
    ensures MoveProxy(site.e, from, to).objects == site.e.objects
  {
  }

  lemma MovedUsable(s: System, step: Step)
    requires Inv(s) && Enabled(s, step) && step.Moved? && BothUsable(s, step.side)
    ensures BothUsable(Next(s, step), step.side)
  {
    hide SiteInv, HostInv, HolderInv, LinkUsable, Claimed, Resolves, MoveProxy;
    var side := step.side;
    var x, y := s.At(side), s.At(side.Other());
    SiteHasHost(x, y.sent);
    MoveKeepsTables(x, y.sent, step.from, step.to);
    hide Inv;
    var x' := Next(s, step).At(side);
    MovedLink(y, x, x');
    SameLink(x, y, x', y);
  }

  lemma MovedLink(h: Site, o: Site, o': Site)
    requires LinkUsable(h, o) && o'.e.cpows.Keys == o.e.cpows.Keys && o'.inbox == o.inbox
    ensures LinkUsable(h, o')
  {
    hide LinkUsable, Claimed, Resolves;
    FewerCpows(h, o, h, o');
  }

  lemma SweptUsable(s: System, collected: set<Obj>)
    requires HostInv(s.child) && BothUsable(s, Child) && Enabled(s, Swept(collected))
    ensures BothUsable(Next(s, Swept(collected)), Child)
  {
    hide LinkUsable, HostInv;
    HostSweeps(s.child, s.parent, collected);
    SameLink(s.parent, s.child, s.parent, Next(s, Swept(collected)).child);
  }

  lemma CollectedUsable(s: System, garbage: set<Obj>)
    requires BothUsable(s, Parent) && Enabled(s, Collected(garbage))
    ensures BothUsable(Next(s, Collected(garbage)), Parent)
  {
    hide Claimed;
    var h, h' := s.parent, Next(s, Collected(garbage)).parent;
    LinkKept(h, s.child, h', s.child);
    SameLink(s.child, h, s.child, h');
  }

  lemma MisreadUsable(s: System, step: Step)
    requires step.Misread? && Enabled(s, step) && BothUsable(s, step.side)
    ensures BothUsable(Next(s, step), step.side)
  {
    hide LinkUsable, Claimed, Resolves;
    var x, y, x' := s.At(step.side), s.At(step.side.Other()), Next(s, step).At(step.side);
    SameLink(x, y, x', y);
    SameLink(y, x, y, x');
  }

  lemma DeliverUsable(s: System, step: Step)
    requires Inv(s) && Enabled(s, step) && step.Deliver? && BothUsable(s, step.side) && s.Active()
    ensures BothUsable(Next(s, step), step.side) <==> !StaleDrop(s, step)
  {
    var side := step.side;
    SitesOf(s, side);
    hide LinkUsable, Inv, HostInv, DeliverAt, Claimed;
    var x, y := s.At(side), s.At(side.Other());
    assert Names(step.msg, x.sent, y.sent);
    HostReceives(x, y, step.msg, step.newProxy, step.proxyOk, step.cpowsOk);
    HolderReceives(y, x, step.msg, step.newProxy, step.proxyOk, step.cpowsOk);
  }

  lemma HandlersKeepChannel(e: Endpoint, proxy: Proxy, to: Proxy, dead: set<Obj>)
    ensures proxy in e.aux && e.refcount > 0 ==> Finalize(e, proxy).0.inactive == e.inactive
    ensures proxy in e.aux ==> MoveProxy(e, proxy, to).inactive == e.inactive
    ensures SweepObjects(e, dead).inactive == e.inactive && Destroy(e).inactive
  {
  }

  lemma DeliverKeepsChannel(site: Site, msg: Message, newProxy: Proxy, proxyOk: bool, cpowsOk: bool)
    requires Deserialize(msg.data).Some?
    ensures DeliverAt(site, msg, newProxy, proxyOk, cpowsOk).e.inactive == site.e.inactive
  {
    hide Deserialize;
  }

  /** Only the end of its actor closes an endpoint's channel, and nothing opens it again. */
  lemma NextChannel(s: System, step: Step, side: Side)
    requires Enabled(s, step)
    ensures Next(s, step).At(side).e.inactive == (s.At(side).e.inactive || (step.Destroyed? && step.side == side))
  {
    hide Posted, ExportAt, DeliverAt, Deserialize, Serialize, Finalize, MoveProxy, SweepObjects, Destroy, Traced, CanSendOwn;
    match step
    case Export(actor, obj, waiver, objectsOk, idMapOk) =>
      var (site, msg) := ExportAt(s.At(actor), obj, waiver, objectsOk, idMapOk);
      ExportKeepsHolderSide(s.At(actor), obj, waiver, objectsOk, idMapOk);
      PostedKeepsMinted(s.Put(actor, site), actor, msg);
    case Return(actor, proxy) =>
      PostedKeepsMinted(s, actor, Some(SendCpow(s.At(actor).e, proxy)));
    case Deliver(actor, msg, newProxy, proxyOk, cpowsOk) =>
      DeliverKeepsChannel(s.At(actor), msg, newProxy, proxyOk, cpowsOk);
    case Finalized(actor, proxy) =>
      var (e, msg) := Finalize(s.At(actor).e, proxy);
      HandlersKeepChannel(s.At(actor).e, proxy, proxy, {});
      PostedKeepsMinted(s.Put(actor, s.At(actor).(e := e)), actor, msg);
    case Moved(actor, from, to) => HandlersKeepChannel(s.At(actor).e, from, to, {});
    case Swept(collected) => HandlersKeepChannel(s.child.e, 0, 0, collected);
    case Collected(_) =>
    case Destroyed(actor) => HandlersKeepChannel(s.At(actor).e, 0, 0, {});
    case Released(_) =>
    case Misread(_, _) =>
  }

  lemma ActiveBefore(s: System, step: Step)
    requires Enabled(s, step) && Next(s, step).Active()
    ensures s.Active() && !step.Destroyed? && !step.Released?
  {
    NextChannel(s, step, Parent);
    NextChannel(s, step, Child);
    hide Next;
  }

  lemma ActiveAfter(s: System, step: Step)
    requires Enabled(s, step) && s.Active() && !step.Destroyed?
    ensures Next(s, step).Active()
  {
    hide Next, Enabled;
    NextChannel(s, step, Parent);
    NextChannel(s, step, Child);
  }

  lemma OpenStepUsable(s: System, step: Step)
    requires Inv(s) && Enabled(s, step) && !step.Destroyed? && !step.Released? && !step.Swept? && !step.Collected?
    requires BothUsable(s, step.side) && s.Active()
    ensures BothUsable(Next(s, step), step.side) <==> !StaleDrop(s, step)
  {
    hide Inv, BothUsable, Next, Enabled;
    match step
    case Export(_, _, _, _, _) => ExportUsable(s, step);
    case Return(_, _) => ReturnUsable(s, step);
    case Deliver(_, _, _, _, _) => DeliverUsable(s, step);
    case Finalized(_, _) => FinalizedUsable(s, step);
    case Moved(_, _, _) => MovedUsable(s, step);
    case Misread(_, _) => MisreadUsable(s, step);
  }

  /** One step leaves every claimed id usable exactly when it is not a stale drop. */
  lemma NextUsable(s: System, step: Step)
    requires Inv(s) && Enabled(s, step) && Usable(s)
    ensures Usable(Next(s, step)) <==> !StaleDrop(s, step)
  {
    hide Inv, Next, Enabled, LinkUsable, BothUsable, HostInv, InboxInv, Claimed;
    if Next(s, step).Active() {
      ActiveBefore(s, step);
      var side := Acting(step);
      UsableFromEitherSide(s, side);
      UsableFromEitherSide(Next(s, step), side);
      if step.Swept? {
        SitesOf(s, Child);
        SweptUsable(s, step.collected);
      } else if step.Collected? {
        CollectedUsable(s, step.garbage);
      } else {
        OpenStepUsable(s, step);
      }
    } else if s.Active() && !step.Destroyed? {
      ActiveAfter(s, step);
    }
  }

  /**
   Throughout a run every CPOW held or under way on an open channel resolves in its host,
   short of the object being collected, exactly when no drop is delivered stale.
   */
  lemma UsableIffNoStaleDrop(states: seq<System>, steps: seq<Step>)
    requires IsRun(states, steps)
    ensures (forall i :: 0 <= i < |states| ==> Usable(states[i])) <==>
            (forall i :: 0 <= i < |steps| ==> Follows(states[i], steps[i], states[i + 1]) && !StaleDrop(states[i], steps[i]))
  {
    hide Usable, StaleDrop, Follows;
    UsableUpTo(states, steps, |states| - 1);
  }

  lemma StartIsUsable()
    ensures Usable(START)
  {
    assert forall id :: !Claimed(NEW_SITE, id);
  }

  lemma {:induction false} UsableUpTo(states: seq<System>, steps: seq<Step>, n: nat)
    requires IsRun(states, steps) && n < |states|
    ensures (forall i :: 0 <= i <= n ==> Usable(states[i])) <==>
            (forall i :: 0 <= i < n ==> Follows(states[i], steps[i], states[i + 1]) && !StaleDrop(states[i], steps[i]))
  {
    hide Enabled, Inv, Next, StaleDrop, Usable;
    if n == 0 {
      StartIsUsable();
    } else {
      UsableUpTo(states, steps, n - 1);
      assert Follows(states[n - 1], steps[n - 1], states[n]);
      RunKeepsInv(states, steps, n - 1);
      if Usable(states[n - 1]) {
        NextUsable(states[n - 1], steps[n - 1]);
      }
    }
  }

  // ---------- Without reordering ----------

  ghost predicate Quiet(s: System) {
    s.parent.inbox == multiset{} && s.child.inbox == multiset{}
  }

  /** An action of one endpoint, and at once the delivery of the message it sends, if any. */
  ghost predicate PromptStep(s: System, step: Step, s': System) {
    && !step.Deliver? && Enabled(s, step)
    && Quiet(s')
    && (s' == Next(s, step) || exists d: Step :: d.Deliver? && Follows(Next(s, step), d, s'))
  }

  lemma PostedIsAlone(s: System, sender: Side, sent: Option<Message>, side: Side, msg: Message)
    requires Quiet(s) && msg in Posted(s, sender, sent).At(side).inbox
    ensures sent == Some(msg) && side == sender.Other() && s.At(sender).inbox == multiset{}
    ensures Posted(s, sender, sent).At(sender) == s.At(sender)
  {
  }

  lemma ExportSendsNoDrop(s: System, step: Step, side: Side, msg: Message)
    requires Inv(s) && Quiet(s) && Enabled(s, step) && step.Export? && msg in Next(s, step).At(side).inbox
    ensures msg.RemoteObject?
  {
    hide Inv, HostInv, InboxInv, ExportAt, Posted, Claimed, Exported;
    var actor := step.side;
    var (site, sent) := ExportAt(s.At(actor), step.obj, step.waiver, step.objectsOk, step.idMapOk);
    SitesOf(s, actor);
    ExportNames(s.At(actor), step.obj, step.waiver, step.objectsOk, step.idMapOk);
    ExportKeepsHolderSide(s.At(actor), step.obj, step.waiver, step.objectsOk, step.idMapOk);
    PostedIsAlone(s.Put(actor, site), actor, sent, side, msg);
  }

  lemma FinalizedSendsDrop(s: System, step: Step, side: Side, msg: Message)
    requires Inv(s) && Quiet(s) && Enabled(s, step) && step.Finalized? && msg in Next(s, step).At(side).inbox
    ensures Deserialize(msg.data).Some? && !Claimed(Next(s, step).At(side.Other()), Deserialize(msg.data).value)
  {
    hide Inv, Posted, Deserialize, Serialize;
    var actor := step.side;
    var x := s.At(actor);
    var (e, sent) := Finalize(x.e, step.proxy);
    HeldIdIsValid(s, actor, step.proxy);
    PostedIsAlone(s.Put(actor, x.(e := e)), actor, sent, side, msg);
  }

  /** The only message under way after a quiet state is the one just sent; a drop comes from a holder that has let go. */
  lemma DropIsFromFinalized(s: System, step: Step, side: Side, msg: Message)
    requires Inv(s) && Quiet(s) && Enabled(s, step) && !step.Deliver?
    requires msg.DropObject? && msg in Next(s, step).At(side).inbox
    ensures Deserialize(msg.data).Some? && !Claimed(Next(s, step).At(side.Other()), Deserialize(msg.data).value)
  {
    hide Inv, Deserialize, Serialize, ExportAt, Finalize, MoveProxy, SweepObjects, Destroy, Traced, Posted, Claimed, CanSendOwn;
    match step
    case Export(_, _, _, _, _) => ExportSendsNoDrop(s, step, side, msg);
    case Return(actor, proxy) => PostedIsAlone(s, actor, Some(SendCpow(s.At(actor).e, proxy)), side, msg);
    case Finalized(_, _) => FinalizedSendsDrop(s, step, side, msg);
    case Moved(_, _, _) =>
    case Swept(_) =>
    case Collected(_) =>
    case Destroyed(_) =>
    case Released(_) =>
    case Misread(_, _) =>
  }

  /** When each message is delivered in the step that sends it, no drop is stale. */
  lemma PromptStepUsable(s: System, step: Step, s': System)
    requires Inv(s) && Quiet(s) && Usable(s) && PromptStep(s, step, s')
    ensures Inv(s') && Usable(s')
  {
    var mid := Next(s, step);
    hide Inv, Usable, Next;
    NextKeepsInv(s, step);
    NextUsable(s, step);
    if s' != mid {
      var d: Step :| d.Deliver? && Follows(mid, d, s');
      NextKeepsInv(mid, d);
      NextUsable(mid, d);
      if d.msg.DropObject? {
        DropIsFromFinalized(s, step, d.side, d.msg);
      }
    }
  }

  ghost predicate IsPromptRun(states: seq<System>, steps: seq<Step>) {
    && |states| == |steps| + 1 && states[0] == START
    && forall i :: 0 <= i < |steps| ==> PromptStep(states[i], steps[i], states[i + 1])
  }

  /** So with prompt delivery every CPOW resolves throughout a run, short of the object being collected. */
  lemma {:induction false} PromptRunKeepsUsable(states: seq<System>, steps: seq<Step>, n: nat)
    requires IsPromptRun(states, steps) && n < |states|
    ensures Inv(states[n]) && Usable(states[n]) && Quiet(states[n])
  {
    hide Inv, Usable, PromptStep;
    if n == 0 {
      StartHolds();
      StartIsUsable();
    } else {
      PromptRunKeepsUsable(states, steps, n - 1);
      PromptStepUsable(states[n - 1], steps[n - 1], states[n]);
      EndsQuiet(states[n - 1], steps[n - 1], states[n]);
    }
  }

  lemma EndsQuiet(s: System, step: Step, s': System)
    requires PromptStep(s, step, s')
    ensures Quiet(s')
  {
  }

  /** As if the parent had never collected anything: then being usable means being in the id table. */
  function Undead(s: System): System {
    s.(parent := s.parent.(dead := {}))
  }

  lemma UndeadKeepsInv(s: System)
    requires Inv(s)
    ensures Inv(Undead(s))
  {
    hide HolderInv;
    var h, h' := s.parent, Undead(s).parent;
    assert forall w :: h'.e.IdMap(w) == h.e.IdMap(w);
    SameInbox(h, h', s.child.sent);
    SameHolder(h, h', s.child.sent);
    hide InboxInv, HostInv, Counted;
    UndeadKeepsHost(h);
  }

  lemma UndeadKeepsHost(h: Site)
    requires HostInv(h)
    ensures HostInv(h.(dead := {}))
  {
    assert forall w :: h.(dead := {}).e.IdMap(w) == h.e.IdMap(w);
  }

  lemma ExportUndead(h: Site, obj: Obj, waiver: bool, objectsOk: bool, idMapOk: bool)
    ensures var (h', msg) := ExportAt(h, obj, waiver, objectsOk, idMapOk);
            ExportAt(h.(dead := {}), obj, waiver, objectsOk, idMapOk) == (h'.(dead := {}), msg)
  {
    hide SendOwn;
  }

  lemma DeliverUndead(h: Site, msg: Message, newProxy: Proxy, proxyOk: bool, cpowsOk: bool)
    requires Deserialize(msg.data).Some?
    ensures DeliverAt(h.(dead := {}), msg, newProxy, proxyOk, cpowsOk) ==
            DeliverAt(h, msg, newProxy, proxyOk, cpowsOk).(dead := {})
  {
    hide Deserialize, ReceiveRemote, ReceiveDrop;
  }

  lemma PostedUndead(s: System, sender: Side, msg: Option<Message>)
    ensures Posted(Undead(s), sender, msg) == Undead(Posted(s, sender, msg))
  {
  }

  /** What the parent has collected makes no difference to any step, for its tables are traced. */
  lemma NextUndead(s: System, step: Step)
    requires Enabled(s, step)
    ensures if step.Collected? then Undead(Next(s, step)) == Undead(s)
            else Enabled(Undead(s), step) && Next(Undead(s), step) == Undead(Next(s, step))
  {
    hide Serialize, Deserialize, SendOwn, Finalize, MoveProxy, SweepObjects, Destroy, Traced, Posted, ExportAt, DeliverAt;
    match step
    case Export(actor, obj, waiver, objectsOk, idMapOk) =>
      var (site, msg) := ExportAt(s.At(actor), obj, waiver, objectsOk, idMapOk);
      ExportUndead(s.At(actor), obj, waiver, objectsOk, idMapOk);
      PostedUndead(s.Put(actor, site), actor, msg);
    case Return(actor, proxy) => PostedUndead(s, actor, Some(SendCpow(s.At(actor).e, proxy)));
    case Deliver(actor, msg, newProxy, proxyOk, cpowsOk) =>
      DeliverUndead(s.At(actor), msg, newProxy, proxyOk, cpowsOk);
    case Finalized(actor, proxy) =>
      var (e, msg) := Finalize(s.At(actor).e, proxy);
      PostedUndead(s.Put(actor, s.At(actor).(e := e)), actor, msg);
    case _ =>
  }

  lemma FollowsUndead(s: System, step: Step, s': System)
    requires Inv(s) && Usable(Undead(s)) && Follows(s, step, s')
    requires step.Collected? || !StaleDrop(s, step)
    ensures Inv(s') && Usable(Undead(s'))
  {
    hide Inv, Usable, Next, Enabled;
    NextKeepsInv(s, step);
    NextUndead(s, step);
    UndeadKeepsInv(s);
    if !step.Collected? {
      SameStaleDrop(s, step);
      NextUsable(Undead(s), step);
    }
  }

  lemma SameStaleDrop(s: System, step: Step)
    requires Enabled(s, step) && Enabled(Undead(s), step)
    ensures StaleDrop(Undead(s), step) == StaleDrop(s, step)
  {
    hide Deserialize, Serialize;
  }

  lemma PromptStepUndead(s: System, step: Step, s': System)
    requires Inv(s) && Quiet(s) && Usable(Undead(s)) && PromptStep(s, step, s')
    ensures Inv(s') && Usable(Undead(s'))
  {
    var mid := Next(s, step);
    hide Inv, Usable, Next, Enabled;
    FollowsUndead(s, step, mid);
    if s' != mid {
      var d: Step :| d.Deliver? && Follows(mid, d, s');
      if d.msg.DropObject? {
        DropIsFromFinalized(s, step, d.side, d.msg) by { DeliveredIsUnderWay(mid, d); }
      }
      FollowsUndead(mid, d, s');
    }
  }

  lemma DeliveredIsUnderWay(s: System, d: Step)
    requires d.Deliver? && Enabled(s, d)
    ensures d.msg in s.At(d.side).inbox
  {
  }

  lemma {:induction false} PromptRunUsable(states: seq<System>, steps: seq<Step>, n: nat)
    requires IsPromptRun(states, steps) && n < |states|
    ensures Inv(states[n]) && Usable(Undead(states[n])) && Quiet(states[n])
  {
    hide Usable, Next, Enabled, SiteInv;
    if n == 0 {
      StartIsUsable();
      StartHolds();
      assert Undead(START) == START;
    } else {
      PromptRunUsable(states, steps, n - 1);
      assert PromptStep(states[n - 1], steps[n - 1], states[n]);
      PromptStepUndead(states[n - 1], steps[n - 1], states[n]);
    }
  }

  /**
   With prompt delivery every CPOW the child holds on an open channel resolves in the
   parent, to the object its id was minted for and through the id's waiver flag.
   */
  lemma ChildCpowsResolve(states: seq<System>, steps: seq<Step>, n: nat, proxy: Proxy)
    requires IsPromptRun(states, steps) && n < |states|
    requires states[n].Active() && proxy in states[n].child.e.aux
    ensures var id := states[n].child.e.aux[proxy];
            && id in states[n].parent.minted
            && ReceiveLocal(states[n].parent.e, id) == Some((states[n].parent.minted[id], id.waiver))
  {
    PromptRunUsable(states, steps, n);
    var s := states[n];
    HeldIdIsValid(s, Child, proxy);
    assert HolderInv(s.child, s.parent.sent) && HostInv(s.parent);
    assert Claimed(s.child, s.child.e.aux[proxy]);
  }

  /** From any reachable state: an object exported, received and handed back is the same object under the same waiver. */
  lemma RoundTrip(s: System, side: Side, obj: Obj, waiver: bool, newProxy: Proxy)
    requires Inv(s) && CanSendOwn(s.At(side).e, obj, waiver) && obj !in s.At(side).dead
    requires newProxy !in s.At(side.Other()).e.aux
    ensures var (x, sent) := ExportAt(s.At(side), obj, waiver, true, true);
            && sent.Some? && Deserialize(sent.value.data).Some?
            && var id := Deserialize(sent.value.data).value;
               var (y, got) := ReceiveRemote(s.At(side.Other()).e, id, newProxy, true, true);
            && got.Some? && got.value in y.aux
            && var back := SendCpow(y, got.value);
               Deserialize(back.data) == Some(id) && ReceiveLocal(x.e, id) == Some((obj, waiver))
  {
    SitesOf(s, side);
    SiteHasHost(s.At(side.Other()), s.At(side).sent);
    hide Inv, ExportAt, SiteInv, HostInv, HolderInv, ReceiveRemote;
    ExportNames(s.At(side), obj, waiver, true, true);
    ExportSucceeds(s.At(side), obj, waiver);
    ExportKeepsHost(s.At(side), obj, waiver, true, true);
    var (x, sent) := ExportAt(s.At(side), obj, waiver, true, true);
    HostFacts(x);
    ReceivedIsHeld(s.At(side.Other()), s.At(side).sent, Deserialize(sent.value.data).value, newProxy);
    DeserializeRoundTrip(sent.value.data);
  }

  lemma ExportSucceeds(h: Site, obj: Obj, waiver: bool)
    ensures ExportAt(h, obj, waiver, true, true).1.Some?
  {
  }

  lemma HostFacts(h: Site)
    requires HostInv(h)
    ensures forall id :: id in h.e.objects && id in h.minted ==> h.minted[id] == h.e.objects[id]
  {
  }

  lemma ReceivedIsHeld(o: Site, peers: set<ObjectId>, id: ObjectId, newProxy: Proxy)
    requires HolderInv(o, peers) && newProxy !in o.e.aux
    ensures var (e, got) := ReceiveRemote(o.e, id, newProxy, true, true);
            got.Some? && got.value in e.aux && e.aux[got.value] == id
  {
  }

  // ---------- With reordering ----------

  // A run in which a drop is overtaken, state by state.

  const FIRST_ID: ObjectId := ObjectId(1, false)
  const HOST: Endpoint := Endpoint(map[FIRST_ID := 7], map[7 := FIRST_ID], map[], map[], map[], {}, 2, 1, false)
  const HOLDS_NOTHING: Endpoint := NEW_ENDPOINT
  const HOLDS_PROXY: Endpoint := NEW_ENDPOINT.(cpows := map[FIRST_ID := 5], aux := map[5 := FIRST_ID], refcount := 2)

  function ParentAt(e: Endpoint, inbox: multiset<Message>): Site {
    Site(e, inbox, map[FIRST_ID := 7], {FIRST_ID}, {}, false, false)
  }

  function ChildAt(e: Endpoint, inbox: multiset<Message>): Site {
    NEW_SITE.(e := e, inbox := inbox)
  }

  const SEND: Step := Export(Parent, 7, false, true, true)
  const RECEIVE: Step := Deliver(Child, RemoteObject(2), 5, true, true)
  const LATE_DROP: Step := Deliver(Parent, DropObject(2), 5, true, true)

  const SENT: System := System(ParentAt(HOST, multiset{}), ChildAt(HOLDS_NOTHING, multiset{RemoteObject(2)}))
  const HELD: System := System(ParentAt(HOST, multiset{}), ChildAt(HOLDS_PROXY, multiset{}))
  const LET_GO: System := System(ParentAt(HOST, multiset{DropObject(2)}), ChildAt(HOLDS_NOTHING, multiset{}))
  const SENT_AGAIN: System := System(ParentAt(HOST, multiset{DropObject(2)}), ChildAt(HOLDS_NOTHING, multiset{RemoteObject(2)}))
  const DROPPED: System :=
    System(ParentAt(HOST.(objects := map[], unwaived := map[]), multiset{}), ChildAt(HOLDS_NOTHING, multiset{RemoteObject(2)}))

  lemma FirstIdOnTheWire()
    ensures Serialize(FIRST_ID) == 2 && Deserialize(2) == Some(FIRST_ID)
  {
  }

  lemma SendFollows()
    ensures Follows(START, SEND, SENT)
  {
    FirstIdOnTheWire();
    assert multiset{} + multiset{RemoteObject(2)} == multiset{RemoteObject(2)};
  }

  lemma ReceiveFollows()
    ensures Follows(SENT, RECEIVE, HELD)
  {
    FirstIdOnTheWire();
    assert multiset{RemoteObject(2)} - multiset{RemoteObject(2)} == multiset{};
  }

  lemma FinalizeFollows()
    ensures Follows(HELD, Finalized(Child, 5), LET_GO)
  {
    FirstIdOnTheWire();
    assert HOLDS_PROXY.cpows - {FIRST_ID} == map[] && HOLDS_PROXY.aux - {5} == map[];
    assert multiset{} + multiset{DropObject(2)} == multiset{DropObject(2)};
  }

  lemma SendAgainFollows()
    ensures Follows(LET_GO, SEND, SENT_AGAIN)
  {
    FirstIdOnTheWire();
    assert multiset{} + multiset{RemoteObject(2)} == multiset{RemoteObject(2)};
    assert {FIRST_ID} + {FIRST_ID} == {FIRST_ID};
  }

  lemma DropFollows()
    ensures Follows(SENT_AGAIN, LATE_DROP, DROPPED)
  {
    FirstIdOnTheWire();
    assert HOST.objects - {FIRST_ID} == map[] && HOST.unwaived - {7} == map[];
    assert multiset{DropObject(2)} - multiset{DropObject(2)} == multiset{};
  }

  /**
   A drop that the parent receives after it has exported the object again leaves the
   child's next CPOW dead on an open channel: the guarantee is not unconditional.
   */
  lemma StaleDropHappens()
    ensures IsRun([START, SENT, HELD, LET_GO, SENT_AGAIN, DROPPED], [SEND, RECEIVE, Finalized(Child, 5), SEND, LATE_DROP])
    ensures DROPPED.Active() && !Usable(DROPPED)
  {
    SendFollows();
    ReceiveFollows();
    FinalizeFollows();
    SendAgainFollows();
    DropFollows();
    hide Follows;
    FirstIdOnTheWire();
    assert Claimed(DROPPED.child, FIRST_ID) && FIRST_ID in DROPPED.parent.sent && !Resolves(DROPPED.parent, FIRST_ID);
  }
}
