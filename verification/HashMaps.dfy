/** HashMap of js/public/HashTable.h, and its mutating enumeration. */
module HashMaps {
  import opened Options
  import opened Probing
  import opened TableModel
  import opened TableLoad
  import opened HashTables

  /**
   The outcomes of what one operation may ask for: the simulated out-of-memory check, an array to rebuild
   the table in, and at the end of an enumeration another one to shrink it into.
   */
  datatype Memory = Memory(simOk: bool, allocOk: bool, shrinkOk: bool)

  // ---------- Enumerating ----------

  /** Why an operation on a map of so many keys may be refused: for lack of memory, or at the maximum capacity. */
  predicate Scarce(count: nat, mem: Memory) {
    !mem.simOk || !mem.allocOk || count > MAX_INIT
  }

  /** A mutating enumeration: the table is not resized until it finishes. */
  class Enum<K(==, !new), V(!new)> {
    const impl: HashTable<K, V>
    var cur: nat
    var rekeyed: bool
    var removed: bool

    ghost predicate Valid()
      reads this, impl, impl.table
    {
      && impl.Intact() && cur <= impl.table.Length
      && (!rekeyed ==> impl.Valid())
    }

    /** front() is the entry at cur, unless the enumeration is over. */
    ghost predicate AtFront()
      reads this, impl, impl.table
    {
      Valid() && (cur < impl.table.Length ==> impl.table[cur].IsLive() && impl.table[cur].mem.Some?)
    }

    /** No live entry lies in the slots from a up to cur. */
    ghost predicate SkippedFrom(a: nat)
      reads this, impl, impl.table
    {
      forall s :: a <= s < cur && s < impl.table.Length ==> !impl.table[s].IsLive()
    }

    constructor (impl: HashTable<K, V>)
      requires impl.Valid()
      ensures this.impl == impl && AtFront() && SkippedFrom(0) && !rekeyed && !removed
    {
      hide TableModel.Sound;
      this.impl := impl;
      cur, rekeyed, removed := 0, false, false;
      new;
      SkipToLive(0);
    }

    method SkipToLive(ghost from: nat)
      requires Valid() && SkippedFrom(from)
      modifies this`cur
      ensures AtFront() && SkippedFrom(from) && cur >= old(cur)
    {
      hide TableModel.AllPlaced, TableModel.UniqueKeys, TableModel.Represents;
      while cur < impl.table.Length && !impl.table[cur].IsLive()
        invariant Valid() && SkippedFrom(from) && cur >= old(cur)
      {
        cur := cur + 1;
      }
    }

    method Front() returns (k: K, v: V)
      requires AtFront() && cur < impl.table.Length
      ensures impl.table[cur].mem == Some(Mapping(k, v))
      ensures k in impl.contents && impl.contents[k] == v
    {
      hide TableModel.AllPlaced, TableModel.Stores;
      LiveIsPresent(impl.table[..], impl.hash, impl.contents, cur);
      k, v := impl.table[cur].mem.value.key, impl.table[cur].mem.value.value;
    }

    method PopFront()
      requires Valid() && cur < impl.table.Length
      modifies this`cur
      ensures AtFront() && cur > old(cur) && SkippedFrom(old(cur) + 1)
    {
      hide TableModel.Sound;
      cur := cur + 1;
      SkipToLive(cur);
    }

    method RemoveFront()
      requires AtFront() && cur < impl.table.Length
      modifies this`removed, impl, impl.table
      ensures Valid() && impl.table == old(impl.table)
      ensures impl.contents == old(impl.contents) - {old(impl.table[cur].mem.value.key)}
      ensures removed && impl.entryCount == old(impl.entryCount) - 1 && impl.hashShift == old(impl.hashShift)
      ensures !impl.table[cur].IsLive()
      ensures forall s :: 0 <= s < impl.table.Length && s != cur ==> impl.table[s] == old(impl.table[s])
    {
      hide TableModel.Sound;
      impl.RemoveEntry(cur);
      removed := true;
    }

    method RekeyFront(k: K)
      requires AtFront() && cur < impl.table.Length
      requires k !in impl.contents || k == impl.table[cur].mem.value.key
      modifies this`rekeyed, impl, impl.table
      ensures Valid() && impl.table == old(impl.table)
      ensures rekeyed && impl.entryCount == old(impl.entryCount) && impl.hashShift == old(impl.hashShift)
      ensures impl.contents == (old(impl.contents) - {old(impl.table[cur].mem.value.key)})[k := old(impl.table[cur].mem.value.value)]
      ensures OnlyAdds(old(impl.table[..])[cur := FreeEntry()], impl.table[..], k, old(impl.table[cur].mem.value.value))
    {
      hide TableModel.Sound;
      impl.RekeyWithoutRehash(cur, k);
      rekeyed := true;
    }

    /** The client changes the front entry's value in place. */
    method UpdateFront(v: V)
      requires AtFront() && cur < impl.table.Length
      modifies impl`contents, impl.table
      ensures AtFront() && impl.table == old(impl.table)
      ensures impl.contents == old(impl.contents)[old(impl.table[cur].mem.value.key) := v]
      ensures impl.table[cur] == WithValue(old(impl.table[cur]), v)
      ensures forall s :: 0 <= s < impl.table.Length && s != cur ==> impl.table[s] == old(impl.table[s])
    {
      hide TableModel.Sound;
      impl.SetValue(cur, v);
    }

    /** The destructor: the table absorbs tombstones and shrinks only now. */
    method Finish(allocOk: bool, shrinkOk: bool)
      requires Valid()
      modifies impl, impl.table
      ensures impl.Valid() && (impl.table == old(impl.table) || fresh(impl.table))
      ensures impl.contents == old(impl.contents) && impl.entryCount == old(impl.entryCount)
      ensures removed && shrinkOk ==> !WouldBeUnderloaded(impl.table.Length, impl.entryCount)
      ensures !removed && !rekeyed ==> unchanged(impl) && unchanged(impl.table)
      ensures removed && !rekeyed && shrinkOk ==>
                IsCompacted(HASH_BITS - old(impl.hashShift), HASH_BITS - impl.hashShift, impl.entryCount)
      ensures removed && !rekeyed && !shrinkOk ==> unchanged(impl)
    {
      hide TableModel.Sound;
      if rekeyed {
        impl.gen := impl.gen + 1;
        impl.CheckOverRemoved(allocOk);
      }
      if removed {
        impl.CompactIfUnderloaded(shrinkOk);
      }
    }
  }

  // ---------- HashMap ----------

  class HashMap<K(==, !new), V(!new)> {
    const impl: HashTable<K, V>

    constructor (hash: K -> HashNumber)
      ensures fresh(impl) && fresh(impl.table) && impl.hash == hash && impl.table.Length == 0
      ensures impl.entryCount == 0 && impl.removedCount == 0 && impl.contents == map[]
    {
      impl := new HashTable(hash);
    }

    method Get(l: K) returns (r: Option<V>)
      requires impl.Valid()
      ensures r == if l in impl.contents then Some(impl.contents[l]) else None
    {
      hide TableModel.Sound;
      var slot := impl.Lookup(l);
      if impl.table[slot].IsLive() {
        return Some(impl.table[slot].mem.value.value);
      }
      return None;
    }

    /** Overwrite the value in place, or add. Only adding can fail, and then nothing changes. */
    method Put(k: K, v: V, mem: Memory) returns (ok: bool)
      requires impl.Valid()
      modifies impl, impl.table
      ensures impl.Valid() && (impl.table == old(impl.table) || fresh(impl.table))
      ensures impl.contents == if ok then old(impl.contents)[k := v] else old(impl.contents)
      ensures !ok ==> k !in old(impl.contents) && Scarce(|old(impl.contents)|, mem)
    {
      hide TableModel.Sound, TableModel.Placed, Path;
      var p := impl.LookupForAdd(k);
      if impl.table[p.slot].IsLive() {
        impl.SetValue(p.slot, v);
        return true;
      }
      var slot;
      ok, slot := impl.Add(p, k, v, mem.simOk, mem.allocOk);
    }

    method PutNew(k: K, v: V, mem: Memory) returns (ok: bool)
      requires impl.Valid() && k !in impl.contents
      modifies impl, impl.table
      ensures impl.Valid() && (impl.table == old(impl.table) || fresh(impl.table))
      ensures impl.contents == if ok then old(impl.contents)[k := v] else old(impl.contents)
      ensures !mem.simOk ==> !ok
      ensures !ok ==> Scarce(|old(impl.contents)|, mem)
    {
      ok := impl.PutNew(k, v, mem.simOk, mem.allocOk);
    }

    method LookupWithDefault(k: K, default: V, mem: Memory) returns (r: Option<V>)
      requires impl.Valid()
      modifies impl, impl.table
      ensures impl.Valid() && (impl.table == old(impl.table) || fresh(impl.table))
      ensures k in old(impl.contents) ==> impl.contents == old(impl.contents) && r == Some(old(impl.contents)[k])
      ensures k !in old(impl.contents) ==>
        impl.contents == (if r.Some? then old(impl.contents)[k := default] else old(impl.contents)) &&
        (if r.Some? then r.value == default else Scarce(|old(impl.contents)|, mem))
    {
      hide TableModel.Sound, TableModel.Placed, Path;
      var p := impl.LookupForAdd(k);
      if impl.table[p.slot].IsLive() {
        return Some(impl.table[p.slot].mem.value.value);
      }
      var ok, slot := impl.Add(p, k, default, mem.simOk, mem.allocOk);
      return if ok then Some(default) else None;
    }

    /** The pointer is good for relookupOrAdd whatever happens to the map in between. */
    method LookupForAdd(k: K) returns (p: AddPtr)
      requires impl.Valid()
      modifies impl.table
      ensures impl.Valid() && impl.ReadyToAdd(p, k)
    {
      hide TableModel.Sound, TableModel.Placed, Path;
      p := impl.LookupForAdd(k);
    }

    method RelookupOrAdd(p: AddPtr, k: K, v: V, mem: Memory) returns (ok: bool)
      requires impl.Valid() && p.keyHash == PrepareHash(impl.hash(k))
      modifies impl, impl.table
      ensures impl.Valid() && (impl.table == old(impl.table) || fresh(impl.table))
      ensures impl.contents == if ok && k !in old(impl.contents) then old(impl.contents)[k := v] else old(impl.contents)
      ensures !ok ==> k !in old(impl.contents) && Scarce(|old(impl.contents)|, mem)
    {
      ok := impl.RelookupOrAdd(p, k, v, mem.simOk, mem.allocOk);
    }

    /** Remove if present. */
    method Remove(l: K, mem: Memory)
      requires impl.Valid()
      modifies impl, impl.table
      ensures impl.Valid() && (impl.table == old(impl.table) || fresh(impl.table))
      ensures impl.contents == old(impl.contents) - {l}
      ensures l !in old(impl.contents) ==> unchanged(impl) && unchanged(impl.table)
      ensures l in old(impl.contents) ==>
                && impl.entryCount == old(impl.entryCount) - 1
                && impl.hashShift == old(impl.hashShift)
                                     + if mem.allocOk && WouldBeUnderloaded(old(impl.table.Length), impl.entryCount) then 1 else 0
    {
      hide TableModel.Sound;
      var slot := impl.Lookup(l);
      if impl.table[slot].IsLive() {
        impl.Remove(slot, mem.allocOk);
      }
    }

    /** Infallibly rekey one entry if present; the caller keeps keys distinct. */
    method RekeyAs(oldKey: K, newKey: K, mem: Memory) returns (found: bool)
      requires impl.Valid() && (oldKey in impl.contents && newKey in impl.contents ==> newKey == oldKey)
      modifies impl, impl.table
      ensures impl.Valid() && (impl.table == old(impl.table) || fresh(impl.table))
      ensures found <==> oldKey in old(impl.contents)
      ensures impl.contents == if found then (old(impl.contents) - {oldKey})[newKey := old(impl.contents)[oldKey]]
                               else old(impl.contents)
    {
      hide TableModel.Sound;
      var slot := impl.Lookup(oldKey);
      if impl.table[slot].IsLive() {
        impl.RekeyAndMaybeRehash(slot, newKey, mem.allocOk);
        return true;
      }
      return false;
    }

    method RekeyIfMoved(oldKey: K, newKey: K, mem: Memory)
      requires impl.Valid() && (oldKey in impl.contents && newKey in impl.contents ==> newKey == oldKey)
      modifies impl, impl.table
      ensures impl.Valid() && (impl.table == old(impl.table) || fresh(impl.table))
      ensures impl.contents == if oldKey in old(impl.contents)
                               then (old(impl.contents) - {oldKey})[newKey := old(impl.contents)[oldKey]]
                               else old(impl.contents)
    {
      if oldKey != newKey {
        var found := RekeyAs(oldKey, newKey, mem);
      }
    }

    method Clear()
      requires impl.Valid()
      modifies impl, impl.table
      ensures impl.Valid() && impl.table == old(impl.table) && impl.contents == map[]
    {
      impl.Clear();
    }
  }
}
