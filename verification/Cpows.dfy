/**
 The cross-process object wrapper protocol of js/ipc, as a value: one endpoint's tables
 and what each handler does to them. The mutable endpoint is in WrapperOwners.dfy, the
 two endpoints and the wire between them in CpowRuns.dfy.
 */
module Cpows {
  import opened Options

  // ---------- Object ids ----------

  const SERIAL_NUMBER_MAX: nat := 0x7FFF_FFFF_FFFF

  /** A 47-bit serial number and the Xray waiver flag. */
  datatype ObjectId = ObjectId(serial: nat, waiver: bool)

  /** What the constructor accepts; anything else crashes the process. */
  predicate ValidId(id: ObjectId) {
    0 < id.serial <= SERIAL_NUMBER_MAX
  }

  function Serialize(id: ObjectId): nat {
    id.serial * 2 + (if id.waiver then 1 else 0)
  }

  /** None stands for the crash. */
  function Deserialize(data: nat): Option<ObjectId> {
    var id := ObjectId(data / 2, data % 2 == 1);
    if ValidId(id) then Some(id) else None
  }

  /** Exactly the valid ids survive the wire, and 48 bits carry them, the waiver flag in the lowest. */
  lemma SerializeRoundTrip(id: ObjectId)
    ensures Deserialize(Serialize(id)) == (if ValidId(id) then Some(id) else None)
    ensures ValidId(id) ==> Serialize(id) < 0x1_0000_0000_0000
    ensures Serialize(id) / 2 == id.serial && (Serialize(id) % 2 == 1 <==> id.waiver)
  {
  }

  lemma DeserializeRoundTrip(data: nat)
    ensures Deserialize(data).Some? <==> 2 <= data < 0x1_0000_0000_0000
    ensures Deserialize(data).Some? ==> Serialize(Deserialize(data).value) == data
  {
  }

  // ---------- One endpoint ----------

  /** Stable identities: of the objects an endpoint hosts, and of its CPOW proxies. */
  type Obj = nat
  type Proxy = nat

  /**
   aux gives each live proxy of this owner its AuxCPOWData id. Half-made proxies are those whose owner
   and data slots were never set.
   */
  datatype Endpoint = Endpoint(
    objects: map<ObjectId, Obj>,
    unwaived: map<Obj, ObjectId>,
    waived: map<Obj, ObjectId>,
    cpows: map<ObjectId, Proxy>,
    aux: map<Proxy, ObjectId>,
    halfMade: set<Proxy>,
    nextSerial: nat,
    refcount: nat,
    inactive: bool
  ) {
    function IdMap(waiver: bool): map<Obj, ObjectId> {
      if waiver then waived else unwaived
    }

    function WithIdMap(waiver: bool, m: map<Obj, ObjectId>): Endpoint {
      if waiver then this.(waived := m) else this.(unwaived := m)
    }
  }

  const NEW_ENDPOINT: Endpoint := Endpoint(map[], map[], map[], map[], map[], {}, 1, 1, false)

  /** What a script hands over: an object of this process, perhaps under a waiver, or one of our CPOWs. */
  datatype Value = Own(obj: Obj, waiver: bool) | Cpow(proxy: Proxy)

  datatype Message = RemoteObject(data: nat) | LocalObject(data: nat) | DropObject(data: nat)

  /** toObjectVariant on an object of this process. The two table insertions may fail for lack of memory. */
  function SendOwn(e: Endpoint, obj: Obj, waiver: bool, objectsOk: bool, idMapOk: bool): (Endpoint, Option<Message>)
  {
    if obj in e.IdMap(waiver) then
      (e, Some(RemoteObject(Serialize(e.IdMap(waiver)[obj]))))
    else
      var id := ObjectId(e.nextSerial, waiver);
      var minted := e.(nextSerial := e.nextSerial + 1);
      if !objectsOk then (minted, None)
      else
        var stored := minted.(objects := minted.objects[id := obj]);
        if !idMapOk then (stored, None)
        else (stored.WithIdMap(waiver, stored.IdMap(waiver)[obj := id]), Some(RemoteObject(Serialize(id))))
  }

  /** Minting the next id does not run out of serial numbers. */
  predicate CanSendOwn(e: Endpoint, obj: Obj, waiver: bool) {
    obj in e.IdMap(waiver) || e.nextSerial <= SERIAL_NUMBER_MAX
  }

  /** toObjectVariant on a live CPOW of this owner. */
  function SendCpow(e: Endpoint, proxy: Proxy): Message
    requires proxy in e.aux
  {
    LocalObject(Serialize(e.aux[proxy]))
  }

  /**
   fromRemoteObjectVariant: the CPOW already held for the id, or the fresh proxy. If the proxy is made but
   cannot be entered in the table, nothing refers to it and its slots stay undefined.
   */
  function ReceiveRemote(e: Endpoint, id: ObjectId, newProxy: Proxy, proxyOk: bool, cpowsOk: bool): (Endpoint, Option<Proxy>) {
    if id in e.cpows then (e, Some(e.cpows[id]))
    else if !proxyOk then (e, None)
    else if !cpowsOk then (e.(halfMade := e.halfMade + {newProxy}), None)
    else (e.(cpows := e.cpows[id := newProxy], aux := e.aux[newProxy := id], refcount := e.refcount + 1), Some(newProxy))
  }

  /** fromLocalObjectVariant, and findObjectById: the hosted object and whether it is seen through a waiver. */
  function ReceiveLocal(e: Endpoint, id: ObjectId): Option<(Obj, bool)> {
    if id in e.objects then Some((e.objects[id], id.waiver)) else None
  }

  /** RecvDropObject. */
  function ReceiveDrop(e: Endpoint, id: ObjectId): Endpoint {
    if id in e.objects then
      var obj := e.objects[id];
      var cleared := e.WithIdMap(id.waiver, e.IdMap(id.waiver) - {obj});
      cleared.(objects := cleared.objects - {id})
    else e
  }

  /** Finalizing a proxy: drop. The peer hears of it while the channel is up. */
  function Finalize(e: Endpoint, proxy: Proxy): (Endpoint, Option<Message>)
    requires proxy in e.aux && e.refcount > 0
  {
    var id := e.aux[proxy];
    (e.(cpows := e.cpows - {id}, aux := e.aux - {proxy}, refcount := e.refcount - 1),
     if e.inactive then None else Some(DropObject(Serialize(id))))
  }

  /** objectMoved: the collector moved a proxy. */
  function MoveProxy(e: Endpoint, from: Proxy, to: Proxy): Endpoint
    requires from in e.aux
  {
    var id := e.aux[from];
    e.(cpows := e.cpows[id := to], aux := (e.aux - {from})[to := id])
  }

  /** updateWeakPointers, in the child: entries of collected objects leave all three tables. */
  function SweepObjects(e: Endpoint, dead: set<Obj>): Endpoint {
    e.(objects := map id | id in e.objects && e.objects[id] !in dead :: e.objects[id],
       unwaived := e.unwaived - dead,
       waived := e.waived - dead)
  }

  /** trace, in the parent: what the three tables keep alive. */
  function Traced(e: Endpoint): set<Obj> {
    e.objects.Values + e.unwaived.Keys + e.waived.Keys
  }

  /** ActorDestroy. */
  function Destroy(e: Endpoint): Endpoint {
    e.(inactive := true, objects := map[], unwaived := map[], waived := map[])
  }
}
