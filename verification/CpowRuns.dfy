/**
 Runs of the CPOW protocol: two endpoints, and messages delivered in any order.
 js/ipc/PJavaScript.ipdl sends DropObject asynchronously at normal priority while the
 other messages are synchronous at high priority, so a drop can be overtaken.
 */
module CpowRuns {
  import opened Options
  import opened Cpows

  datatype Side = Parent | Child {
    function Other(): Side { if this == Parent then Child else Parent }
  }

  /**
   An endpoint, the messages on their way to it, and its history: every id it minted
   and for which object, the ids it has let out, and the objects collected under it.
   It is broken once it has read the owner of a half-made proxy from an undefined slot.
   */
  datatype Site = Site(
    e: Endpoint,
    inbox: multiset<Message>,
    minted: map<ObjectId, Obj>,
    sent: set<ObjectId>,
    dead: set<Obj>,
    released: bool,
    broken: bool)

  datatype System = System(parent: Site, child: Site) {
    function At(side: Side): Site {
      if side == Parent then parent else child
    }

    function Put(side: Side, site: Site): System {
      if side == Parent then this.(parent := site) else this.(child := site)
    }

    predicate Active() {
      !parent.e.inactive && !child.e.inactive
    }
  }

  const NEW_SITE: Site := Site(NEW_ENDPOINT, multiset{}, map[], {}, {}, false, false)
  const START: System := System(NEW_SITE, NEW_SITE)

  /**
   The flags are the outcomes of the fallible steps inside the handlers. Misread is the collector finalizing
   or moving a half-made proxy.
   */
  datatype Step =
    | Export(side: Side, obj: Obj, waiver: bool, objectsOk: bool, idMapOk: bool)
    | Return(side: Side, proxy: Proxy)
    | Deliver(side: Side, msg: Message, newProxy: Proxy, proxyOk: bool, cpowsOk: bool)
    | Finalized(side: Side, proxy: Proxy)
    | Moved(side: Side, from: Proxy, to: Proxy)
    | Swept(collected: set<Obj>)
    | Collected(garbage: set<Obj>)
    | Destroyed(side: Side)
    | Released(side: Side)
    | Misread(side: Side, proxy: Proxy)

  /** The child's tables are weak and swept; the parent's are traced, so only other objects are collected there. */
  function Acting(step: Step): Side {
    match step
    case Swept(_) => Child
    case Collected(_) => Parent
    case _ => step.side
  }

  /** What an endpoint does once it is broken is undefined, so nothing more is said of it. */
  predicate Enabled(s: System, step: Step) {
    !s.At(Acting(step)).broken && Allowed(s, step)
  }

  predicate Allowed(s: System, step: Step) {
    match step
    case Export(side, obj, waiver, _, _) => CanSendOwn(s.At(side).e, obj, waiver) && obj !in s.At(side).dead
    case Return(side, proxy) => proxy in s.At(side).e.aux
    case Deliver(side, msg, newProxy, _, _) =>
      msg in s.At(side).inbox && !s.At(side).e.inactive && Deserialize(msg.data).Some?
      && newProxy !in s.At(side).e.aux && newProxy !in s.At(side).e.halfMade
    case Finalized(side, proxy) => proxy in s.At(side).e.aux && s.At(side).e.refcount > 0
    case Moved(side, from, to) => from in s.At(side).e.aux && to !in s.At(side).e.aux
    case Swept(collected) => true
    case Collected(garbage) => garbage !! Traced(s.parent.e)
    case Destroyed(side) => true
    case Released(side) => s.At(side).e.inactive && !s.At(side).released && s.At(side).e.refcount > 0
    case Misread(side, proxy) => proxy in s.At(side).e.halfMade
  }

  /** A message goes on the wire only while the sender's actor is alive. */
  function Posted(s: System, sender: Side, msg: Option<Message>): System {
    if msg.None? || s.At(sender).e.inactive then s
    else
      var site := s.At(sender.Other());
      s.Put(sender.Other(), site.(inbox := site.inbox + multiset{msg.value}))
  }

  function ExportAt(site: Site, obj: Obj, waiver: bool, objectsOk: bool, idMapOk: bool): (Site, Option<Message>) {
    var (e, msg) := SendOwn(site.e, obj, waiver, objectsOk, idMapOk);
    var id := if obj in site.e.IdMap(waiver) then site.e.IdMap(waiver)[obj] else ObjectId(site.e.nextSerial, waiver);
    var history := if obj in site.e.IdMap(waiver) then site else site.(minted := site.minted[id := obj]);
    (history.(e := e, sent := if msg.Some? then site.sent + {id} else site.sent), msg)
  }

  function DeliverAt(site: Site, msg: Message, newProxy: Proxy, proxyOk: bool, cpowsOk: bool): Site
    requires Deserialize(msg.data).Some?
  {
    var id := Deserialize(msg.data).value;
    var taken := site.(inbox := site.inbox - multiset{msg});
    match msg
    case RemoteObject(_) => taken.(e := ReceiveRemote(site.e, id, newProxy, proxyOk, cpowsOk).0)
    case LocalObject(_) => taken
    case DropObject(_) => taken.(e := ReceiveDrop(site.e, id))
  }

  function Next(s: System, step: Step): System
    requires Enabled(s, step)
  {
    match step
    case Export(side, obj, waiver, objectsOk, idMapOk) =>
      var (site, msg) := ExportAt(s.At(side), obj, waiver, objectsOk, idMapOk);
      Posted(s.Put(side, site), side, msg)
    case Return(side, proxy) => Posted(s, side, Some(SendCpow(s.At(side).e, proxy)))
    case Deliver(side, msg, newProxy, proxyOk, cpowsOk) =>
      s.Put(side, DeliverAt(s.At(side), msg, newProxy, proxyOk, cpowsOk))
    case Finalized(side, proxy) =>
      var (e, msg) := Finalize(s.At(side).e, proxy);
      Posted(s.Put(side, s.At(side).(e := e)), side, msg)
    case Moved(side, from, to) => s.Put(side, s.At(side).(e := MoveProxy(s.At(side).e, from, to)))
    case Swept(collected) =>
      s.(child := s.child.(e := SweepObjects(s.child.e, collected), dead := s.child.dead + collected))
    case Collected(garbage) => s.(parent := s.parent.(dead := s.parent.dead + garbage))
    case Destroyed(side) => s.Put(side, s.At(side).(e := Destroy(s.At(side).e)))
    case Released(side) =>
      var site := s.At(side);
      s.Put(side, site.(released := true, e := site.e.(refcount := site.e.refcount - 1)))
    case Misread(side, proxy) => s.Put(side, s.At(side).(broken := true))
  }

  // ---------- The invariant ----------

  /** Every id minted is below the counter, and no two share a serial. */
  ghost predicate SerialsUnique(h: Site) {
    && h.e.nextSerial >= 1
    && (forall id :: id in h.minted ==> ValidId(id) && id.serial < h.e.nextSerial)
    && (forall id, id' :: id in h.minted && id' in h.minted && id.serial == id'.serial ==> id == id')
  }

  /** The id table holds only minted ids, each for the object it was minted for, and no collected object. */
  ghost predicate ObjectsAsMinted(h: Site) {
    forall id :: id in h.e.objects ==> id in h.minted && h.minted[id] == h.e.objects[id] && h.e.objects[id] !in h.dead
  }

  /** Each object-to-id map is inverted by the id table, and names only ids that were let out. */
  ghost predicate MapsInverted(h: Site, w: bool) {
    forall obj :: obj in h.e.IdMap(w) ==>
      var id := h.e.IdMap(w)[obj]; id.waiver == w && id in h.sent && id in h.e.objects && h.e.objects[id] == obj
  }

  /** The id table, on the ids that were let out, is inverted by the object-to-id map of the id's waiver. */
  ghost predicate IdsInverted(h: Site) {
    forall id :: id in h.e.objects && id in h.sent ==>
      h.e.objects[id] in h.e.IdMap(id.waiver) && h.e.IdMap(id.waiver)[h.e.objects[id]] == id
  }

  ghost predicate Inverse(h: Site) {
    MapsInverted(h, true) && MapsInverted(h, false) && IdsInverted(h)
  }

  ghost predicate HostInv(h: Site) {
    SerialsUnique(h) && ObjectsAsMinted(h) && Inverse(h) && h.sent <= h.minted.Keys
  }

  /** The CPOW table and the proxies' ids invert each other, and name ids the peer let out. */
  ghost predicate HolderInv(o: Site, sent: set<ObjectId>) {
    && (forall id :: id in o.e.cpows ==> id in sent && o.e.cpows[id] in o.e.aux && o.e.aux[o.e.cpows[id]] == id)
    && (forall p :: p in o.e.aux ==> o.e.aux[p] in o.e.cpows && o.e.cpows[o.e.aux[p]] == p)
  }

  /** The id a message names was let out by the endpoint that hosts it: the sender of a RemoteObject, else the receiver. */
  ghost predicate Names(msg: Message, own: set<ObjectId>, peers: set<ObjectId>) {
    Deserialize(msg.data).Some? && Deserialize(msg.data).value in if msg.RemoteObject? then peers else own
  }

  ghost predicate InboxInv(site: Site, peers: set<ObjectId>) {
    forall msg :: msg in site.inbox ==> Names(msg, site.sent, peers)
  }

  /** The actor's own reference and one for each CPOW. */
  ghost predicate Counted(site: Site) {
    site.e.refcount == |site.e.aux| + if site.released then 0 else 1
  }

  ghost predicate SiteInv(site: Site, peers: set<ObjectId>) {
    HostInv(site) && HolderInv(site, peers) && InboxInv(site, peers) && Counted(site)
  }

  ghost predicate Inv(s: System) {
    SiteInv(s.parent, s.child.sent) && SiteInv(s.child, s.parent.sent)
  }

  // ---------- Each step keeps it ----------

  lemma PeersGrow(site: Site, peers: set<ObjectId>, more: set<ObjectId>)
    requires SiteInv(site, peers) && peers <= more
    ensures SiteInv(site, more)
  {
    forall msg | msg in site.inbox
      ensures Names(msg, site.sent, more)
    {
      assert Names(msg, site.sent, peers);
    }
  }

  lemma MessageArrives(site: Site, peers: set<ObjectId>, msg: Message)
    requires SiteInv(site, peers) && Names(msg, site.sent, peers)
    ensures SiteInv(site.(inbox := site.inbox + multiset{msg}), peers)
  {
    hide HostInv, HolderInv;
    var site' := site.(inbox := site.inbox + multiset{msg});
    assert HostInv(site') by { SameHost(site, site'); }
    assert HolderInv(site', peers) by { SameHolder(site, site', peers); }
  }

  lemma SameHost(a: Site, b: Site)
    requires HostInv(a) && a.minted == b.minted && a.sent == b.sent && a.dead == b.dead
    requires a.e.objects == b.e.objects && a.e.waived == b.e.waived && a.e.unwaived == b.e.unwaived
    requires a.e.nextSerial == b.e.nextSerial
    ensures HostInv(b)
  {
    assert forall w :: a.e.IdMap(w) == b.e.IdMap(w);
  }

  lemma SameHolder(a: Site, b: Site, peers: set<ObjectId>)
    requires HolderInv(a, peers) && a.e.cpows == b.e.cpows && a.e.aux == b.e.aux
    ensures HolderInv(b, peers)
  {
  }

  // Exporting an object.

  lemma FreshId(h: Site, waiver: bool)
    requires HostInv(h)
    ensures ObjectId(h.e.nextSerial, waiver) !in h.minted
    ensures ObjectId(h.e.nextSerial, waiver) !in h.sent && ObjectId(h.e.nextSerial, waiver) !in h.e.objects
  {
  }

  lemma MintingKeepsSerials(h: Site, h': Site, obj: Obj, waiver: bool)
    requires SerialsUnique(h) && h.e.nextSerial <= SERIAL_NUMBER_MAX
    requires h'.e.nextSerial == h.e.nextSerial + 1
    requires h'.minted == h.minted[ObjectId(h.e.nextSerial, waiver) := obj]
    ensures SerialsUnique(h')
  {
  }

  lemma ExportKeepsHost(h: Site, obj: Obj, waiver: bool, objectsOk: bool, idMapOk: bool)
    requires HostInv(h) && CanSendOwn(h.e, obj, waiver) && obj !in h.dead
    ensures HostInv(ExportAt(h, obj, waiver, objectsOk, idMapOk).0)
  {
    var h' := ExportAt(h, obj, waiver, objectsOk, idMapOk).0;
    if obj in h.e.IdMap(waiver) {
      assert h'.sent == h.sent;
      SameHost(h, h');
    } else {
      FreshId(h, waiver);
      MintingKeepsSerials(h, h', obj, waiver);
      ExportKeepsInverse(h, obj, waiver, objectsOk, idMapOk);
    }
  }

  lemma ExportKeepsInverse(h: Site, obj: Obj, waiver: bool, objectsOk: bool, idMapOk: bool)
    requires HostInv(h) && obj !in h.e.IdMap(waiver)
    ensures Inverse(ExportAt(h, obj, waiver, objectsOk, idMapOk).0)
  {
    FreshId(h, waiver);
    var id := ObjectId(h.e.nextSerial, waiver);
    var h' := ExportAt(h, obj, waiver, objectsOk, idMapOk).0;
    if !objectsOk || !idMapOk {
      assert forall w :: h'.e.IdMap(w) == h.e.IdMap(w);
      OrphanKeepsInverse(h, h', id);
    } else {
      assert h'.e.objects == h.e.objects[id := obj] && h'.sent == h.sent + {id};
      assert forall w :: h'.e.IdMap(w) == if w == waiver then h.e.IdMap(w)[obj := id] else h.e.IdMap(w);
      AddedPairKeepsInverse(h, h', id, obj);
    }
  }

  /** An id stored but never let out disturbs nothing. */
  lemma OrphanKeepsInverse(h: Site, h': Site, id: ObjectId)
    requires Inverse(h) && id !in h.e.objects && id !in h.sent && h'.sent == h.sent
    requires forall i :: i in h.e.objects ==> i in h'.e.objects && h'.e.objects[i] == h.e.objects[i]
    requires forall i :: i in h'.e.objects ==> i in h.e.objects || i == id
    requires forall w :: h'.e.IdMap(w) == h.e.IdMap(w)
    ensures Inverse(h')
  {
    assert h'.e.IdMap(true) == h.e.IdMap(true) && h'.e.IdMap(false) == h.e.IdMap(false);
  }

  lemma AddedPairKeepsInverse(h: Site, h': Site, id: ObjectId, obj: Obj)
    requires Inverse(h) && obj !in h.e.IdMap(id.waiver) && id !in h.e.objects && id !in h.sent
    requires h'.e.objects == h.e.objects[id := obj] && h'.sent == h.sent + {id}
    requires forall w :: h'.e.IdMap(w) == if w == id.waiver then h.e.IdMap(w)[obj := id] else h.e.IdMap(w)
    ensures Inverse(h')
  {
    AddedPairMaps(h, h', id, obj, true);
    AddedPairMaps(h, h', id, obj, false);
    forall i | i in h'.e.objects && i in h'.sent
      ensures h'.e.objects[i] in h'.e.IdMap(i.waiver) && h'.e.IdMap(i.waiver)[h'.e.objects[i]] == i
    {
      if i != id {
        assert h.e.objects[i] in h.e.IdMap(i.waiver);
      }
    }
  }

  lemma AddedPairMaps(h: Site, h': Site, id: ObjectId, obj: Obj, w: bool)
    requires MapsInverted(h, w) && id !in h.e.objects && id !in h.sent
    requires h'.e.objects == h.e.objects[id := obj] && h'.sent == h.sent + {id}
    requires h'.e.IdMap(w) == if w == id.waiver then h.e.IdMap(w)[obj := id] else h.e.IdMap(w)
    ensures MapsInverted(h', w)
  {
  }

  /** The wire data names an id let out for obj and waiver, and now in the id table. */
  ghost predicate Exported(h: Site, data: nat, obj: Obj, waiver: bool) {
    && Deserialize(data).Some?
    && var id := Deserialize(data).value;
       id in h.sent && id in h.e.objects && id in h.minted && h.minted[id] == obj && id.waiver == waiver
  }

  /** A successful export names an id that has been let out; one failing leaves that set alone. */
  lemma ExportNames(h: Site, obj: Obj, waiver: bool, objectsOk: bool, idMapOk: bool)
    requires HostInv(h) && CanSendOwn(h.e, obj, waiver) && obj !in h.dead
    ensures var (h', msg) := ExportAt(h, obj, waiver, objectsOk, idMapOk);
            && h.sent <= h'.sent
            && (msg.None? ==> h'.sent == h.sent)
            && (msg.Some? ==> msg.value.RemoteObject? && Exported(h', msg.value.data, obj, waiver))
  {
    var (h', msg) := ExportAt(h, obj, waiver, objectsOk, idMapOk);
    ExportKeepsHost(h, obj, waiver, objectsOk, idMapOk);
    if msg.Some? {
      var id := if obj in h.e.IdMap(waiver) then h.e.IdMap(waiver)[obj] else ObjectId(h.e.nextSerial, waiver);
      assert id in h'.sent && id in h'.minted;
      SerializeRoundTrip(id);
    }
  }

  lemma ExportKeepsSite(site: Site, peers: set<ObjectId>, obj: Obj, waiver: bool, objectsOk: bool, idMapOk: bool)
    requires SiteInv(site, peers) && CanSendOwn(site.e, obj, waiver) && obj !in site.dead
    ensures SiteInv(ExportAt(site, obj, waiver, objectsOk, idMapOk).0, peers)
  {
    hide HostInv, HolderInv, SendOwn;
    var site' := ExportAt(site, obj, waiver, objectsOk, idMapOk).0;
    ExportKeepsHost(site, obj, waiver, objectsOk, idMapOk);
    ExportNames(site, obj, waiver, objectsOk, idMapOk);
    ExportKeepsHolderSide(site, obj, waiver, objectsOk, idMapOk);
    SameHolder(site, site', peers);
    forall msg | msg in site'.inbox
      ensures Names(msg, site'.sent, peers)
    {
      assert Names(msg, site.sent, peers);
    }
  }

  lemma ExportKeepsHolderSide(site: Site, obj: Obj, waiver: bool, objectsOk: bool, idMapOk: bool)
    ensures var site' := ExportAt(site, obj, waiver, objectsOk, idMapOk).0;
            && site'.e.cpows == site.e.cpows && site'.e.aux == site.e.aux && site'.inbox == site.inbox
            && site'.e.refcount == site.e.refcount && site'.released == site.released && site'.e.inactive == site.e.inactive
  {
  }

  // Receiving.

  lemma DropKeepsHost(h: Site, id: ObjectId)
    requires HostInv(h) && id in h.sent
    ensures HostInv(h.(e := ReceiveDrop(h.e, id)))
  {
    var h' := h.(e := ReceiveDrop(h.e, id));
    if id in h.e.objects {
      var obj := h.e.objects[id];
      assert forall w :: h'.e.IdMap(w) == if w == id.waiver then h.e.IdMap(w) - {obj} else h.e.IdMap(w);
      assert h'.e.objects == h.e.objects - {id};
      RemovedPairKeepsInverse(h, h', id);
    }
  }

  lemma RemovedPairKeepsInverse(h: Site, h': Site, id: ObjectId)
    requires Inverse(h) && id in h.e.objects && id in h.sent
    requires h'.e.objects == h.e.objects - {id} && h'.sent == h.sent
    requires forall w :: h'.e.IdMap(w) == if w == id.waiver then h.e.IdMap(w) - {h.e.objects[id]} else h.e.IdMap(w)
    ensures Inverse(h')
  {
    RemovedPairMaps(h, h', id, true);
    RemovedPairMaps(h, h', id, false);
    forall i | i in h'.e.objects && i in h'.sent
      ensures h'.e.objects[i] in h'.e.IdMap(i.waiver) && h'.e.IdMap(i.waiver)[h'.e.objects[i]] == i
    {
      assert h.e.objects[i] in h.e.IdMap(i.waiver) && h.e.IdMap(i.waiver)[h.e.objects[i]] == i;
    }
  }

  lemma RemovedPairMaps(h: Site, h': Site, id: ObjectId, w: bool)
    requires MapsInverted(h, w) && id in h.e.objects
    requires h'.e.objects == h.e.objects - {id} && h'.sent == h.sent
    requires h'.e.IdMap(w) == if w == id.waiver then h.e.IdMap(w) - {h.e.objects[id]} else h.e.IdMap(w)
    ensures MapsInverted(h', w)
  {
  }

  lemma RemoteKeepsHolder(o: Site, peers: set<ObjectId>, id: ObjectId, newProxy: Proxy, proxyOk: bool, cpowsOk: bool)
    requires HolderInv(o, peers) && Counted(o) && id in peers && newProxy !in o.e.aux
    ensures HolderInv(o.(e := ReceiveRemote(o.e, id, newProxy, proxyOk, cpowsOk).0), peers)
    ensures Counted(o.(e := ReceiveRemote(o.e, id, newProxy, proxyOk, cpowsOk).0))
  {
  }

  lemma DeliverKeepsSite(site: Site, peers: set<ObjectId>, msg: Message, newProxy: Proxy, proxyOk: bool, cpowsOk: bool)
    requires SiteInv(site, peers) && msg in site.inbox && newProxy !in site.e.aux && Deserialize(msg.data).Some?
    ensures SiteInv(DeliverAt(site, msg, newProxy, proxyOk, cpowsOk), peers)
  {
    hide HostInv, HolderInv, Counted, ReceiveDrop, ReceiveRemote;
    var id := Deserialize(msg.data).value;
    var site' := DeliverAt(site, msg, newProxy, proxyOk, cpowsOk);
    assert Names(msg, site.sent, peers);
    forall m | m in site'.inbox
      ensures Names(m, site'.sent, peers)
    {
      assert m in site.inbox;
    }
    match msg
    case RemoteObject(_) =>
      var e' := ReceiveRemote(site.e, id, newProxy, proxyOk, cpowsOk).0;
      RemoteKeepsHolder(site, peers, id, newProxy, proxyOk, cpowsOk);
      RemoteKeepsTables(site.e, id, newProxy, proxyOk, cpowsOk);
      SameHost(site, site');
      SameHolder(site.(e := e'), site', peers);
      SameCount(site.(e := e'), site');
    case LocalObject(_) =>
      SameHost(site, site');
      SameHolder(site, site', peers);
      SameCount(site, site');
    case DropObject(_) =>
      DropKeepsHost(site, id);
      DropKeepsTables(site.e, id);
      SameHost(site.(e := ReceiveDrop(site.e, id)), site');
      SameHolder(site, site', peers);
      SameCount(site, site');
  }

  lemma SameCount(a: Site, b: Site)
    requires Counted(a) && a.e.refcount == b.e.refcount && a.e.aux == b.e.aux && a.released == b.released
    ensures Counted(b)
  {
  }

  lemma RemoteKeepsTables(e: Endpoint, id: ObjectId, newProxy: Proxy, proxyOk: bool, cpowsOk: bool)
    ensures var e' := ReceiveRemote(e, id, newProxy, proxyOk, cpowsOk).0;
            && e'.objects == e.objects && e'.waived == e.waived && e'.unwaived == e.unwaived
            && e'.nextSerial == e.nextSerial && e'.inactive == e.inactive
  {
  }

  lemma DropKeepsTables(e: Endpoint, id: ObjectId)
    ensures var e' := ReceiveDrop(e, id);
            && e'.cpows == e.cpows && e'.aux == e.aux && e'.refcount == e.refcount
            && e'.nextSerial == e.nextSerial && e'.inactive == e.inactive
  {
  }

  // The remaining steps.

  lemma SameInbox(a: Site, b: Site, peers: set<ObjectId>)
    requires InboxInv(a, peers) && a.inbox == b.inbox && a.sent == b.sent
    ensures InboxInv(b, peers)
  {
    forall m | m in b.inbox
      ensures Names(m, b.sent, peers)
    {
      assert Names(m, a.sent, peers);
    }
  }

  lemma FinalizeKeepsSite(site: Site, peers: set<ObjectId>, proxy: Proxy)
    requires SiteInv(site, peers) && proxy in site.e.aux && site.e.refcount > 0
    ensures SiteInv(site.(e := Finalize(site.e, proxy).0), peers)
    ensures site.e.aux[proxy] in peers
    ensures Finalize(site.e, proxy).1.Some? ==> Finalize(site.e, proxy).1.value == DropObject(Serialize(site.e.aux[proxy]))
  {
    hide HostInv, InboxInv;
    var site' := site.(e := Finalize(site.e, proxy).0);
    SameHost(site, site');
    SameInbox(site, site', peers);
    FinalizeKeepsHolder(site, site', peers, proxy);
  }

  lemma FinalizeKeepsHolder(site: Site, site': Site, peers: set<ObjectId>, proxy: Proxy)
    requires HolderInv(site, peers) && Counted(site) && proxy in site.e.aux && site.e.refcount > 0
    requires site'.e.aux == site.e.aux - {proxy} && site'.e.cpows == site.e.cpows - {site.e.aux[proxy]}
    requires site'.e.refcount == site.e.refcount - 1 && site'.released == site.released
    ensures HolderInv(site', peers) && Counted(site')
  {
    hide HolderInv, Counted;
    FinalizeKeepsTables(site, site', peers, proxy);
    FinalizeKeepsCount(site, site', proxy);
  }

  lemma FinalizeKeepsTables(site: Site, site': Site, peers: set<ObjectId>, proxy: Proxy)
    requires HolderInv(site, peers) && proxy in site.e.aux
    requires site'.e.aux == site.e.aux - {proxy} && site'.e.cpows == site.e.cpows - {site.e.aux[proxy]}
    ensures HolderInv(site', peers)
  {
  }

  lemma FinalizeKeepsCount(site: Site, site': Site, proxy: Proxy)
    requires Counted(site) && proxy in site.e.aux && site.e.refcount > 0
    requires site'.e.aux == site.e.aux - {proxy}
    requires site'.e.refcount == site.e.refcount - 1 && site'.released == site.released
    ensures Counted(site')
  {
    RemovedCount(site.e.aux, proxy);
  }

  lemma RemovedCount<K, V>(m: map<K, V>, k: K)
    requires k in m
    ensures |m - {k}| == |m| - 1
  {
    assert (m - {k}).Keys == m.Keys - {k};
    assert |m - {k}| == |(m - {k}).Keys| && |m| == |m.Keys|;
  }

  lemma RenamedCount<K, V>(m: map<K, V>, k: K, k': K, v: V)
    requires k in m && k' !in m
    ensures |(m - {k})[k' := v]| == |m|
  {
    var m' := (m - {k})[k' := v];
    assert m'.Keys == m.Keys - {k} + {k'};
    assert |m'| == |m'.Keys| && |m| == |m.Keys|;
  }

  lemma MoveKeepsSite(site: Site, peers: set<ObjectId>, from: Proxy, to: Proxy)
    requires SiteInv(site, peers) && from in site.e.aux && to !in site.e.aux
    ensures SiteInv(site.(e := MoveProxy(site.e, from, to)), peers)
  {
    hide HostInv, InboxInv, HolderInv, Counted;
    var site' := site.(e := MoveProxy(site.e, from, to));
    SameHost(site, site');
    SameInbox(site, site', peers);
    MoveKeepsHolder(site, site', peers, from, to);
  }

  lemma MoveKeepsHolder(site: Site, site': Site, peers: set<ObjectId>, from: Proxy, to: Proxy)
    requires HolderInv(site, peers) && Counted(site) && from in site.e.aux && to !in site.e.aux
    requires site'.e.cpows == site.e.cpows[site.e.aux[from] := to]
    requires site'.e.aux == (site.e.aux - {from})[to := site.e.aux[from]]
    requires site'.e.refcount == site.e.refcount && site'.released == site.released
    ensures HolderInv(site', peers) && Counted(site')
  {
    RenamedCount(site.e.aux, from, to, site.e.aux[from]);
  }

  lemma SweepKeepsHost(h: Site, collected: set<Obj>)
    requires HostInv(h)
    ensures HostInv(h.(e := SweepObjects(h.e, collected), dead := h.dead + collected))
  {
    var h' := h.(e := SweepObjects(h.e, collected), dead := h.dead + collected);
    assert forall w :: h'.e.IdMap(w) == h.e.IdMap(w) - collected;
  }

  /** Changing only the tables of a host, and keeping its invariant, keeps the site's. */
  lemma HostChangeKeepsSite(site: Site, site': Site, peers: set<ObjectId>)
    requires SiteInv(site, peers) && HostInv(site')
    requires site'.e.cpows == site.e.cpows && site'.e.aux == site.e.aux && site'.e.refcount == site.e.refcount
    requires site'.inbox == site.inbox && site'.sent == site.sent && site'.released == site.released
    ensures SiteInv(site', peers)
  {
    hide HostInv, InboxInv;
    SameInbox(site, site', peers);
  }

  lemma DestroyKeepsHost(h: Site)
    requires HostInv(h)
    ensures HostInv(h.(e := Destroy(h.e)))
  {
    assert forall w :: Destroy(h.e).IdMap(w) == map[];
  }

  lemma ReleaseKeepsSite(site: Site, peers: set<ObjectId>)
    requires SiteInv(site, peers) && !site.released && site.e.refcount > 0
    ensures SiteInv(site.(released := true, e := site.e.(refcount := site.e.refcount - 1)), peers)
  {
    hide HostInv, InboxInv;
    var site' := site.(released := true, e := site.e.(refcount := site.e.refcount - 1));
    SameHost(site, site');
    SameInbox(site, site', peers);
  }

  // ---------- Whole runs ----------

  lemma PostedKeepsInv(s: System, sender: Side, msg: Message)
    requires Inv(s) && Names(msg, s.At(sender.Other()).sent, s.At(sender).sent)
    ensures Inv(Posted(s, sender, Some(msg)))
  {
    hide SiteInv, Names;
    if !s.At(sender).e.inactive {
      MessageArrives(s.At(sender.Other()), s.At(sender).sent, msg);
    }
  }

  /** Replacing one site by another that lets out no fewer ids. */
  lemma PutKeepsInv(s: System, side: Side, site: Site)
    requires Inv(s) && SiteInv(site, s.At(side.Other()).sent) && s.At(side).sent <= site.sent
    ensures Inv(s.Put(side, site))
  {
    hide SiteInv;
    PeersGrow(s.At(side.Other()), s.At(side).sent, site.sent);
  }

  lemma ExportStep(s: System, step: Step)
    requires Inv(s) && Enabled(s, step) && step.Export?
    ensures Inv(Next(s, step))
  {
    hide SiteInv, ExportAt;
    var site := s.At(step.side);
    var (site', msg) := ExportAt(site, step.obj, step.waiver, step.objectsOk, step.idMapOk);
    ExportKeepsSite(site, s.At(step.side.Other()).sent, step.obj, step.waiver, step.objectsOk, step.idMapOk);
    SiteHasHost(site, s.At(step.side.Other()).sent);
    ExportNames(site, step.obj, step.waiver, step.objectsOk, step.idMapOk);
    PutKeepsInv(s, step.side, site');
    if msg.Some? {
      PostedKeepsInv(s.Put(step.side, site'), step.side, msg.value);
    }
  }

  lemma SiteHasHost(site: Site, peers: set<ObjectId>)
    requires SiteInv(site, peers)
    ensures HostInv(site) && HolderInv(site, peers)
  {
  }

  lemma ReturnStep(s: System, step: Step)
    requires Inv(s) && Enabled(s, step) && step.Return?
    ensures Inv(Next(s, step))
  {
    hide SiteInv;
    HeldIdIsValid(s, step.side, step.proxy);
    PostedKeepsInv(s, step.side, SendCpow(s.At(step.side).e, step.proxy));
  }

  /** A CPOW's id is one its host let out, and survives the wire. */
  lemma HeldIdIsValid(s: System, side: Side, proxy: Proxy)
    requires Inv(s) && proxy in s.At(side).e.aux
    ensures var id := s.At(side).e.aux[proxy];
            id in s.At(side.Other()).sent && Deserialize(Serialize(id)) == Some(id)
  {
    var id := s.At(side).e.aux[proxy];
    assert id in s.At(side.Other()).minted by {
      assert HolderInv(s.At(side), s.At(side.Other()).sent) && HostInv(s.At(side.Other()));
    }
    SerializeRoundTrip(id);
  }

  lemma FinalizedStep(s: System, step: Step)
    requires Inv(s) && Enabled(s, step) && step.Finalized?
    ensures Inv(Next(s, step))
  {
    hide SiteInv, Finalize, Posted, Names;
    HeldIdIsValid(s, step.side, step.proxy);
    var (e, msg) := Finalize(s.At(step.side).e, step.proxy);
    var site' := s.At(step.side).(e := e);
    FinalizeKeepsSite(s.At(step.side), s.At(step.side.Other()).sent, step.proxy);
    PutKeepsInv(s, step.side, site');
    if msg.Some? {
      NamesDrop(s, step.side, step.proxy);
      PostedKeepsInv(s.Put(step.side, site'), step.side, msg.value);
    } else {
      assert Posted(s.Put(step.side, site'), step.side, msg) == s.Put(step.side, site') by { NotPosted(s.Put(step.side, site'), step.side); }
    }
  }

  lemma NotPosted(s: System, sender: Side)
    ensures Posted(s, sender, None) == s
  {
  }

  lemma NamesDrop(s: System, side: Side, proxy: Proxy)
    requires Inv(s) && proxy in s.At(side).e.aux
    ensures Names(DropObject(Serialize(s.At(side).e.aux[proxy])), s.At(side.Other()).sent, s.At(side).sent)
  {
    hide SiteInv;
    HeldIdIsValid(s, side, proxy);
  }

  /** The invariant is kept by every step, whatever the order of delivery and whatever fails. */
  lemma NextKeepsInv(s: System, step: Step)
    requires Inv(s) && Enabled(s, step)
    ensures Inv(Next(s, step))
  {
    hide SiteInv, ExportAt, DeliverAt, Finalize, MoveProxy, SweepObjects, Destroy, HostInv;
    match step
    case Export(_, _, _, _, _) => ExportStep(s, step);
    case Return(_, _) => ReturnStep(s, step);
    case Deliver(side, msg, newProxy, proxyOk, cpowsOk) =>
      DeliverKeepsSite(s.At(side), s.At(side.Other()).sent, msg, newProxy, proxyOk, cpowsOk);
      DeliverKeepsSent(s.At(side), msg, newProxy, proxyOk, cpowsOk);
      PutKeepsInv(s, side, DeliverAt(s.At(side), msg, newProxy, proxyOk, cpowsOk));
    case Finalized(_, _) => FinalizedStep(s, step);
    case Moved(side, from, to) =>
      MoveKeepsSite(s.At(side), s.At(side.Other()).sent, from, to);
      PutKeepsInv(s, side, s.At(side).(e := MoveProxy(s.At(side).e, from, to)));
    case Swept(collected) => SweptStep(s, collected, Next(s, step));
    case Collected(garbage) => CollectedStep(s, garbage, Next(s, step));
    case Destroyed(side) => DestroyedStep(s, side, Next(s, step));
    case Released(side) =>
      ReleaseKeepsSite(s.At(side), s.At(side.Other()).sent);
      var site := s.At(side);
      PutKeepsInv(s, side, site.(released := true, e := site.e.(refcount := site.e.refcount - 1)));
    case Misread(side, _) =>
      MisreadKeepsSite(s.At(side), s.At(side.Other()).sent);
      PutKeepsInv(s, side, s.At(side).(broken := true));
  }

  lemma MisreadKeepsSite(site: Site, peers: set<ObjectId>)
    requires SiteInv(site, peers)
    ensures SiteInv(site.(broken := true), peers)
  {
    hide HostInv, HolderInv, InboxInv;
    var site' := site.(broken := true);
    SameHost(site, site');
    SameHolder(site, site', peers);
    SameInbox(site, site', peers);
  }

  lemma DeliverKeepsSent(site: Site, msg: Message, newProxy: Proxy, proxyOk: bool, cpowsOk: bool)
    requires Deserialize(msg.data).Some?
    ensures DeliverAt(site, msg, newProxy, proxyOk, cpowsOk).sent == site.sent
    ensures DeliverAt(site, msg, newProxy, proxyOk, cpowsOk).minted == site.minted
  {
  }

  lemma SweptStep(s: System, collected: set<Obj>, s': System)
    requires Inv(s) && Enabled(s, Swept(collected)) && s' == Next(s, Swept(collected))
    ensures Inv(s')
  {
    hide SiteInv, HostInv, SweepObjects;
    SiteHasHost(s.child, s.parent.sent);
    SweepKeepsHost(s.child, collected);
    var site' := s.child.(e := SweepObjects(s.child.e, collected), dead := s.child.dead + collected);
    SweepKeepsTheRest(s.child.e, collected);
    HostChangeKeepsSite(s.child, site', s.parent.sent);
    PutKeepsInv(s, Child, site');
  }

  lemma SweepKeepsTheRest(e: Endpoint, collected: set<Obj>)
    ensures var e' := SweepObjects(e, collected);
            e'.cpows == e.cpows && e'.aux == e.aux && e'.refcount == e.refcount && e'.inactive == e.inactive
  {
  }

  /** What the parent's tables trace is not collected. */
  lemma CollectedStep(s: System, garbage: set<Obj>, s': System)
    requires Inv(s) && Enabled(s, Collected(garbage)) && s' == Next(s, Collected(garbage))
    ensures Inv(s')
  {
    hide SiteInv, HostInv;
    SiteHasHost(s.parent, s.child.sent);
    GarbageKeepsHost(s.parent, garbage);
    var site' := s.parent.(dead := s.parent.dead + garbage);
    HostChangeKeepsSite(s.parent, site', s.child.sent);
    PutKeepsInv(s, Parent, site');
  }

  lemma GarbageKeepsHost(h: Site, garbage: set<Obj>)
    requires HostInv(h) && garbage !! Traced(h.e)
    ensures HostInv(h.(dead := h.dead + garbage))
  {
    var h' := h.(dead := h.dead + garbage);
    assert forall id :: id in h.e.objects ==> h.e.objects[id] in Traced(h.e);
    assert forall w :: h'.e.IdMap(w) == h.e.IdMap(w);
  }

  lemma DestroyedStep(s: System, side: Side, s': System)
    requires Inv(s) && Enabled(s, Destroyed(side)) && s' == Next(s, Destroyed(side))
    ensures Inv(s')
  {
    hide SiteInv, HostInv, HolderInv;
    SiteHasHost(s.At(side), s.At(side.Other()).sent);
    DestroyKeepsHost(s.At(side));
    var site' := s.At(side).(e := Destroy(s.At(side).e));
    HostChangeKeepsSite(s.At(side), site', s.At(side.Other()).sent);
    PutKeepsInv(s, side, site');
  }
}
