/** The mutable endpoint of js/ipc: each handler, proved to do what its specification in Cpows.dfy says. */
module WrapperOwners {
  import opened Options
  import opened Cpows

  class WrapperOwner {
    var objects: map<ObjectId, Obj>
    var cpows: map<ObjectId, Proxy>
    var unwaivedObjectIds: map<Obj, ObjectId>
    var waivedObjectIds: map<Obj, ObjectId>
    /** The AuxCPOWData id in the proxy slots of this owner's live proxies. */
    var proxyIds: map<Proxy, ObjectId>
    /** Proxies whose slots were never set. */
    var halfMade: set<Proxy>
    var nextSerialNumber: nat
    var refcount: nat
    var inactive: bool

    function St(): Endpoint
      reads this
    {
      Endpoint(objects, unwaivedObjectIds, waivedObjectIds, cpows, proxyIds, halfMade, nextSerialNumber, refcount, inactive)
    }

    constructor ()
      ensures St() == NEW_ENDPOINT
      ensures objects == map[] && cpows == map[] && proxyIds == map[] && nextSerialNumber == 1 && refcount == 1 && !inactive
    {
      objects, cpows, unwaivedObjectIds, waivedObjectIds, proxyIds := map[], map[], map[], map[], map[];
      halfMade, nextSerialNumber, refcount, inactive := {}, 1, 1, false;
    }

    function ObjectIdMap(waiver: bool): map<Obj, ObjectId>
      reads this
    {
      if waiver then waivedObjectIds else unwaivedObjectIds
    }

    method SetInObjectIdMap(waiver: bool, obj: Obj, id: ObjectId)
      modifies this`waivedObjectIds, this`unwaivedObjectIds
      ensures St() == old(St()).WithIdMap(waiver, old(ObjectIdMap(waiver))[obj := id])
    {
      if waiver {
        waivedObjectIds := waivedObjectIds[obj := id];
      } else {
        unwaivedObjectIds := unwaivedObjectIds[obj := id];
      }
    }

    method RemoveFromObjectIdMap(waiver: bool, obj: Obj)
      modifies this`waivedObjectIds, this`unwaivedObjectIds
      ensures St() == old(St()).WithIdMap(waiver, old(ObjectIdMap(waiver)) - {obj})
    {
      if waiver {
        waivedObjectIds := waivedObjectIds - {obj};
      } else {
        unwaivedObjectIds := unwaivedObjectIds - {obj};
      }
    }

    /** toObjectVariant. */
    method ToObjectVariant(v: Value, objectsOk: bool, idMapOk: bool) returns (msg: Option<Message>)
      requires v.Cpow? ==> v.proxy in proxyIds
      requires v.Own? ==> CanSendOwn(St(), v.obj, v.waiver)
      modifies this
      ensures v.Cpow? ==> St() == old(St()) && msg == Some(SendCpow(old(St()), v.proxy))
      ensures v.Own? ==> (St(), msg) == SendOwn(old(St()), v.obj, v.waiver, objectsOk, idMapOk)
      ensures v.Own? && v.obj in old(ObjectIdMap(v.waiver)) ==>
                unchanged(this) && msg == Some(RemoteObject(Serialize(ObjectIdMap(v.waiver)[v.obj])))
      ensures v.Own? && v.obj !in old(ObjectIdMap(v.waiver)) ==>
                && nextSerialNumber == old(nextSerialNumber) + 1 && unchanged(this`cpows, this`proxyIds, this`refcount, this`inactive)
                && var id := ObjectId(old(nextSerialNumber), v.waiver);
                   && objects == (if objectsOk then old(objects)[id := v.obj] else old(objects))
                   && ObjectIdMap(!v.waiver) == old(ObjectIdMap(!v.waiver))
                   && if objectsOk && idMapOk then
                        ObjectIdMap(v.waiver) == old(ObjectIdMap(v.waiver))[v.obj := id] && msg == Some(RemoteObject(Serialize(id)))
                      else
                        ObjectIdMap(v.waiver) == old(ObjectIdMap(v.waiver)) && msg == None
    {
      match v {
        case Cpow(proxy) =>
          msg := Some(LocalObject(Serialize(proxyIds[proxy])));
        case Own(obj, waiver) =>
          if obj in ObjectIdMap(waiver) {
            msg := Some(RemoteObject(Serialize(ObjectIdMap(waiver)[obj])));
            return;
          }
          var id := ObjectId(nextSerialNumber, waiver);
          nextSerialNumber := nextSerialNumber + 1;
          if !objectsOk {
            return None;
          }
          objects := objects[id := obj];
          if !idMapOk {
            return None;
          }
          SetInObjectIdMap(waiver, obj, id);
          msg := Some(RemoteObject(Serialize(id)));
      }
    }

    /** fromRemoteObjectVariant. The fresh proxy is what allocation would return. */
    method FromRemoteObject(id: ObjectId, newProxy: Proxy, proxyOk: bool, cpowsOk: bool) returns (proxy: Option<Proxy>)
      requires newProxy !in halfMade
      modifies this
      ensures (St(), proxy) == ReceiveRemote(old(St()), id, newProxy, proxyOk, cpowsOk)
      ensures unchanged(this`objects, this`unwaivedObjectIds, this`waivedObjectIds, this`nextSerialNumber, this`inactive)
      ensures id in old(cpows) ==> unchanged(this) && proxy == Some(cpows[id])
      ensures id !in old(cpows) ==>
                if proxyOk && cpowsOk then
                  && proxy == Some(newProxy) && cpows == old(cpows)[id := newProxy] && proxyIds == old(proxyIds)[newProxy := id]
                  && refcount == old(refcount) + 1 && halfMade == old(halfMade)
                else
                  && proxy == None && unchanged(this`cpows, this`proxyIds, this`refcount)
                  && halfMade == old(halfMade) + if proxyOk then {newProxy} else {}
    {
      if id in cpows {
        return Some(cpows[id]);
      }
      if !proxyOk {
        return None;
      }
      halfMade := halfMade + {newProxy};
      if !cpowsOk {
        return None;
      }
      halfMade := halfMade - {newProxy};
      assert halfMade == old(halfMade);
      cpows := cpows[id := newProxy];
      refcount := refcount + 1;
      proxyIds := proxyIds[newProxy := id];
      return Some(newProxy);
    }

    /** fromLocalObjectVariant, through findObjectById. */
    method FromLocalObject(id: ObjectId) returns (r: Option<(Obj, bool)>)
      ensures r == ReceiveLocal(St(), id)
      ensures r == if id in objects then Some((objects[id], id.waiver)) else None
    {
      if id !in objects {
        return None;
      }
      return Some((objects[id], id.waiver));
    }

    method RecvDropObject(id: ObjectId)
      modifies this
      ensures St() == ReceiveDrop(old(St()), id)
      ensures objects == old(objects) - {id} && ObjectIdMap(!id.waiver) == old(ObjectIdMap(!id.waiver))
      ensures ObjectIdMap(id.waiver) == old(ObjectIdMap(id.waiver)) - if id in old(objects) then {old(objects)[id]} else {}
      ensures unchanged(this`cpows, this`proxyIds, this`halfMade, this`nextSerialNumber, this`refcount, this`inactive)
    {
      if id in objects {
        RemoveFromObjectIdMap(id.waiver, objects[id]);
        objects := objects - {id};
      }
    }

    /** drop, when a proxy is finalized; the result is the message sent, if the channel is up. */
    method Drop(proxy: Proxy) returns (msg: Option<Message>)
      requires proxy in proxyIds && refcount > 0
      modifies this
      ensures (St(), msg) == Finalize(old(St()), proxy)
      ensures var id := old(proxyIds)[proxy];
              && cpows == old(cpows) - {id} && proxyIds == old(proxyIds) - {proxy} && refcount == old(refcount) - 1
              && msg == if inactive then None else Some(DropObject(Serialize(id)))
      ensures unchanged(this`objects, this`unwaivedObjectIds, this`waivedObjectIds, this`halfMade, this`nextSerialNumber, this`inactive)
    {
      var id := proxyIds[proxy];
      cpows := cpows - {id};
      msg := None;
      if !inactive {
        msg := Some(DropObject(Serialize(id)));
      }
      refcount := refcount - 1;
      proxyIds := proxyIds - {proxy};
    }

    /** updatePointer, when the collector moves a proxy. */
    method UpdatePointer(to: Proxy, from: Proxy)
      requires from in proxyIds
      modifies this
      ensures St() == MoveProxy(old(St()), from, to)
      ensures var id := old(proxyIds)[from];
              cpows == old(cpows)[id := to] && proxyIds == (old(proxyIds) - {from})[to := id]
      ensures unchanged(this`objects, this`unwaivedObjectIds, this`waivedObjectIds, this`halfMade,
                        this`nextSerialNumber, this`refcount, this`inactive)
    {
      var id := proxyIds[from];
      cpows := cpows[id := to];
      proxyIds := (proxyIds - {from})[to := id];
    }

    /** updateWeakPointers of the child: all three tables are swept by the same verdict. */
    method UpdateWeakPointers(dead: set<Obj>)
      modifies this
      ensures St() == SweepObjects(old(St()), dead)
      ensures forall id :: id in objects <==> id in old(objects) && old(objects)[id] !in dead
      ensures forall id :: id in objects ==> objects[id] == old(objects)[id]
      ensures unwaivedObjectIds == old(unwaivedObjectIds) - dead && waivedObjectIds == old(waivedObjectIds) - dead
      ensures unchanged(this`cpows, this`proxyIds, this`halfMade, this`nextSerialNumber, this`refcount, this`inactive)
    {
      objects := map id | id in objects && objects[id] !in dead :: objects[id];
      unwaivedObjectIds := unwaivedObjectIds - dead;
      waivedObjectIds := waivedObjectIds - dead;
    }

    method ActorDestroy()
      modifies this
      ensures St() == Destroy(old(St()))
      ensures inactive && objects == map[] && unwaivedObjectIds == map[] && waivedObjectIds == map[]
      ensures unchanged(this`cpows, this`proxyIds, this`halfMade, this`nextSerialNumber, this`refcount)
    {
      inactive := true;
      objects := map[];
      unwaivedObjectIds := map[];
      waivedObjectIds := map[];
    }
  }
}
