/** detail::HashTable of js/public/HashTable.h: the table object and its public operations. */
module HashTables {
  import opened Options
  import opened Powers
  import opened Probing
  import opened TableModel
  import opened TableProbes
  import opened TableRehash
  import opened TableLoad

  datatype RebuildStatus = NotOverloaded | Rehashed | RehashFailed

  /** AddPtr: the slot a failed lookupForAdd proposes, and the prepared hash. */
  datatype AddPtr = AddPtr(slot: nat, keyHash: HashNumber)

  /**
   The scrambled hash policy is the uninterpreted function hash. An uninitialized
   table is the empty array. Whether an allocation succeeds, and whether the simulated
   out-of-memory check passes, are arguments of the operations that ask.
   */
  class HashTable<K(==, !new), V(!new)> {
    const hash: K -> HashNumber
    var gen: nat
    var hashShift: nat
    var table: array<Entry<K, V>>
    var entryCount: nat
    var removedCount: nat
    ghost var contents: map<K, V>

    ghost predicate Sized()
      reads this
    {
      && HASH_BITS - CAP_BITS <= hashShift <= HASH_BITS - MIN_CAPACITY_LOG2
      && table.Length == Pow2(HASH_BITS - hashShift)
    }

    /** Everything but the load bound, which a rekeying enumeration may exceed until it ends. */
    ghost predicate Intact()
      reads this, table
    {
      && Sized()
      && Sound(table[..], HASH_BITS - hashShift, hash, contents)
      && entryCount == |LiveSlots(table[..])| && removedCount == |RemovedSlots(table[..])|
      && entryCount <= MaxLoad(table.Length)
    }

    /** The invariant between public operations. */
    ghost predicate Valid()
      reads this, table
    {
      Intact() && entryCount + removedCount <= MaxLoad(table.Length)
    }

    constructor (hash: K -> HashNumber)
      ensures this.hash == hash && table.Length == 0 && fresh(table)
      ensures entryCount == 0 && removedCount == 0 && contents == map[]
    {
      this.hash := hash;
      gen, hashShift, entryCount, removedCount := 0, HASH_BITS, 0, 0;
      table := new Entry<K, V>[0];
      contents := map[];
    }

    method Init(length: nat, allocOk: bool) returns (ok: bool)
      requires table.Length == 0 && entryCount == 0 && removedCount == 0 && contents == map[]
      modifies this
      ensures ok <==> length <= MAX_INIT && allocOk
      ensures ok ==> Valid() && fresh(table) && contents == map[] && entryCount == 0 && removedCount == 0
      ensures ok ==> Pow2(HASH_BITS - hashShift) >= WantedCapacity(length)
      ensures ok && hashShift < HASH_BITS - MIN_CAPACITY_LOG2 ==> Pow2(HASH_BITS - hashShift - 1) < WantedCapacity(length)
      ensures !ok ==> unchanged(this)
    {
      if length > MAX_INIT {
        return false;
      }
      var lg := RoundUpCapacity(length);
      if !allocOk {
        return false;
      }
      table := new Entry<K, V>[Pow2(lg)](_ => FreeEntry());
      hashShift := HASH_BITS - lg;
      AllFreeIsSound(table[..], [], lg, hash);
      assert RemovedSlots(table[..]) == {};
      return true;
    }

    // ---------- Probing ----------

    /** A slot where l is found, or a free or removed slot. */
    ghost predicate Locates(slot: nat, l: K)
      reads this, table
    {
      && slot < table.Length
      && (l in contents ==> table[slot].Holds(l, contents[l]))
      && (l !in contents ==> !table[slot].IsLive())
    }

    /** An AddPtr still good for adding l: nothing stops a probe for l before its slot. */
    ghost predicate ReadyToAdd(p: AddPtr, l: K)
      reads this, table
      requires hashShift <= HASH_BITS
    {
      && p.keyHash == PrepareHash(hash(l))
      && Locates(p.slot, l)
      && (l !in contents ==> Placed(table[..], Path(p.keyHash, HASH_BITS - hashShift), p.slot))
    }

    method LookupEntry(l: K, keyHash: HashNumber, collisionBit: bool) returns (slot: nat)
      requires Valid() && keyHash == PrepareHash(hash(l))
      modifies if collisionBit then {table} else {}
      ensures Valid() && Locates(slot, l)
      ensures collisionBit ==> ReadyToAdd(AddPtr(slot, keyHash), l)
    {
      hide Sound, Placed;
      LoadLeavesRoom(HASH_BITS - hashShift);
      slot := ProbeFor(table, hashShift, hash, contents, l, keyHash, collisionBit);
    }

    method Lookup(l: K) returns (slot: nat)
      requires Valid()
      ensures Locates(slot, l)
    {
      slot := LookupEntry(l, PrepareHash(hash(l)), false);
    }

    method LookupForAdd(l: K) returns (p: AddPtr)
      requires Valid()
      modifies table
      ensures Valid() && ReadyToAdd(p, l)
    {
      var keyHash := PrepareHash(hash(l));
      var slot := LookupEntry(l, keyHash, true);
      p := AddPtr(slot, keyHash);
    }

    // ---------- Resizing ----------

    /** A new array with the live entries, and no tombstone. */
    method CopyTable(lg: nat) returns (newTable: array<Entry<K, V>>)
      requires Intact() && lg <= HASH_BITS && |LiveSlots(table[..])| < Pow2(lg)
      ensures fresh(newTable) && newTable.Length == Pow2(lg)
      ensures Sound(newTable[..], lg, hash, contents)
      ensures |LiveSlots(newTable[..])| == |LiveSlots(table[..])| && RemovedSlots(newTable[..]) == {}
    {
      hide Stores, AllPlaced, Pow2, MaxLoad, LiveSlots, RemovedSlots;
      newTable := new Entry<K, V>[Pow2(lg)](_ => FreeEntry());
      CopyLive(table, newTable, HASH_BITS - lg, hash, contents);
    }

    /** The fallible rebuild: on failure nothing changes, on success the mappings stay and the tombstones go. */
    method ChangeTableSize(deltaLog2: int, allocOk: bool) returns (status: RebuildStatus)
      requires Intact()
      requires MIN_CAPACITY_LOG2 <= HASH_BITS - hashShift + deltaLog2
      requires entryCount <= MaxLoad(Pow2(HASH_BITS - hashShift + deltaLog2))
      modifies this
      ensures status == if allocOk && HASH_BITS - old(hashShift) + deltaLog2 <= CAP_BITS then Rehashed else RehashFailed
      ensures status == RehashFailed ==> unchanged(this)
      ensures status == Rehashed ==> Valid() && fresh(table) && removedCount == 0
      ensures status == Rehashed ==> hashShift == old(hashShift) - deltaLog2 && gen == old(gen) + 1
      ensures contents == old(contents) && entryCount == old(entryCount)
    {
      hide Sound, Pow2, MaxLoad, LiveSlots, RemovedSlots;
      var newLog2 := HASH_BITS - hashShift + deltaLog2;
      if newLog2 > CAP_BITS || !allocOk {
        return RehashFailed;
      }
      LoadLeavesRoom(newLog2);
      var newTable := CopyTable(newLog2);
      hashShift := HASH_BITS - newLog2;
      removedCount := 0;
      gen := gen + 1;
      table := newTable;
      return Rehashed;
    }

    method CheckOverloaded(allocOk: bool) returns (status: RebuildStatus)
      requires Intact()
      modifies this
      ensures status == NotOverloaded <==> !old(Overloaded(entryCount, removedCount, table.Length))
      ensures status == RehashFailed ==> !allocOk || (old(hashShift) == HASH_BITS - CAP_BITS && entryCount > MAX_INIT)
      ensures status == RehashFailed <==>
                old(Overloaded(entryCount, removedCount, table.Length)) &&
                (!allocOk || (old(hashShift) == HASH_BITS - CAP_BITS && !old(ShouldCompress(removedCount, table.Length))))
      ensures status != Rehashed ==> unchanged(this)
      ensures status == Rehashed ==> Valid() && fresh(table) && removedCount == 0
      ensures status == Rehashed ==> hashShift == old(hashShift) - if old(ShouldCompress(removedCount, table.Length)) then 0 else 1
      ensures status == Rehashed && old(Valid()) ==> !Overloaded(entryCount, removedCount, table.Length)
      ensures status == Rehashed && old(Valid()) && table.Length > old(table.Length) ==>
        !WouldBeUnderloaded(table.Length, entryCount)
      ensures contents == old(contents) && entryCount == old(entryCount)
    {
      hide Sound, LiveSlots, RemovedSlots, Pow2;
      if !Overloaded(entryCount, removedCount, table.Length) {
        return NotOverloaded;
      }
      RebuiltIsBalanced(entryCount, removedCount, HASH_BITS - hashShift);
      var deltaLog2 := if ShouldCompress(removedCount, table.Length) then 0 else 1;
      if deltaLog2 == 1 {
        TooFullToGrow(entryCount, removedCount, HASH_BITS - hashShift);
      }
      status := ChangeTableSize(deltaLog2, allocOk);
    }

    /** Overloaded with tombstones: rebuild, and if there is no memory for that, rehash in place. */
    method CheckOverRemoved(allocOk: bool)
      requires Intact()
      modifies this, table
      ensures Valid() && (table == old(table) || fresh(table))
      ensures contents == old(contents) && entryCount == old(entryCount)
      ensures if old(Overloaded(entryCount, removedCount, table.Length)) then removedCount == 0
              else unchanged(this) && unchanged(table)
      ensures hashShift == old(hashShift)
                           - if allocOk && old(Overloaded(entryCount, removedCount, table.Length)
                                               && !ShouldCompress(removedCount, table.Length) && hashShift > HASH_BITS - CAP_BITS)
                             then 1 else 0
    {
      hide Sound, LiveSlots, RemovedSlots;
      var status := CheckOverloaded(allocOk);
      if status == RehashFailed {
        RehashInPlace(table, hashShift, hash, contents);
        removedCount := 0;
      }
    }

    /** Halve an underloaded table. */
    method CheckUnderloaded(allocOk: bool)
      requires Valid()
      modifies this
      ensures Valid() && (table == old(table) || fresh(table))
      ensures contents == old(contents) && entryCount == old(entryCount)
      ensures if allocOk && old(WouldBeUnderloaded(table.Length, entryCount))
              then fresh(table) && hashShift == old(hashShift) + 1 && removedCount == 0 && !Overloaded(entryCount, removedCount, table.Length)
              else unchanged(this)
    {
      hide Sound, LiveSlots, RemovedSlots;
      if WouldBeUnderloaded(table.Length, entryCount) {
        HalvedStillFits(HASH_BITS - hashShift, entryCount);
        var status := ChangeTableSize(-1, allocOk);
      }
    }

    /** Shrink to the largest capacity that the entries do not underload. */
    method CompactIfUnderloaded(allocOk: bool)
      requires Valid()
      modifies this
      ensures old(hashShift) <= hashShift <= HASH_BITS - MIN_CAPACITY_LOG2
      ensures allocOk ==> IsCompacted(HASH_BITS - old(hashShift), HASH_BITS - hashShift, entryCount)
      ensures !allocOk || !old(WouldBeUnderloaded(table.Length, entryCount)) ==> unchanged(this)
      ensures Valid() && (table == old(table) || fresh(table))
      ensures contents == old(contents) && entryCount == old(entryCount)
      ensures allocOk ==> !WouldBeUnderloaded(table.Length, entryCount)
      ensures table != old(table) ==> !Overloaded(entryCount, removedCount, table.Length)
    {
      hide Sound, LiveSlots, RemovedSlots;
      var newLog2 := CompactedLog2(HASH_BITS - hashShift, entryCount);
      if newLog2 != HASH_BITS - hashShift {
        var status := ChangeTableSize(newLog2 - (HASH_BITS - hashShift), allocOk);
      }
    }

    // ---------- Adding and removing ----------

    /** setLive in a slot that is not live; recycling a tombstone keeps its collision bit. */
    method SetLive(slot: nat, keyHash: HashNumber, k: K, v: V)
      requires Intact() && entryCount < MaxLoad(table.Length)
      requires k !in contents && ReadyToAdd(AddPtr(slot, keyHash), k)
      modifies this, table
      ensures Intact() && table == old(table) && hashShift == old(hashShift)
      ensures contents == old(contents)[k := v] && entryCount == old(entryCount) + 1
      ensures removedCount == old(removedCount) - if old(table[slot].IsRemoved()) then 1 else 0
      ensures table[slot].Holds(k, v)
      ensures forall s :: 0 <= s < table.Length && s != slot ==> table[s] == old(table[s])
    {
      hide Stores, AllPlaced, Placed, Path, LiveSlots, RemovedSlots;
      ghost var t := table[..];
      var stored := keyHash;
      if table[slot].IsRemoved() {
        stored := keyHash + 1;
      }
      var e := Entry(stored, Some(Mapping(k, v)));
      AddKeepsSound(t, slot, e, HASH_BITS - hashShift, hash, contents);
      if table[slot].IsRemoved() {
        removedCount := removedCount - 1;
      }
      table[slot] := e;
      entryCount := entryCount + 1;
      contents := contents[k := v];
      assert table[..] == t[slot := e];
    }

    /** remove(Entry&): a tombstone on a collision path, else a free slot. */
    method RemoveEntry(slot: nat)
      requires Intact() && slot < table.Length && table[slot].IsLive() && table[slot].mem.Some?
      modifies this, table
      ensures Intact() && table == old(table) && hashShift == old(hashShift)
      ensures contents == old(contents) - {old(table[slot].mem.value.key)} && entryCount == old(entryCount) - 1
      ensures removedCount == old(removedCount) + if old(table[slot].HasCollision()) then 1 else 0
      ensures !table[slot].IsLive()
      ensures forall s :: 0 <= s < table.Length && s != slot ==> table[s] == old(table[s])
    {
      hide Stores, AllPlaced, LiveSlots, RemovedSlots;
      ghost var t := table[..];
      RemoveKeepsSound(t, slot, HASH_BITS - hashShift, hash, contents);
      ghost var k := table[slot].mem.value.key;
      if table[slot].HasCollision() {
        table[slot] := RemovedEntry();
        removedCount := removedCount + 1;
      } else {
        table[slot] := FreeEntry();
      }
      entryCount := entryCount - 1;
      contents := contents - {k};
      assert table[..] == t[slot := Vacated(t[slot])];
    }

    /** findFreeEntry for a key that is not in the table. */
    method FindFree(keyHash: HashNumber, ghost k: K) returns (slot: nat)
      requires Intact() && entryCount < table.Length
      requires k !in contents && keyHash == PrepareHash(hash(k))
      modifies table
      ensures Intact() && ReadyToAdd(AddPtr(slot, keyHash), k)
      ensures OnlyMarks(old(table[..]), table[..])
    {
      hide Stores, AllPlaced, Placed, Path;
      ghost var t := table[..];
      ghost var vacant := VacantSlotExists(t);
      slot := FindFreeEntry(table, hashShift, keyHash, vacant);
      MarkKeepsSound(t, table[..], HASH_BITS - hashShift, hash, contents);
    }

    /** add, after a lookupForAdd that did not find the key. */
    method Add(p: AddPtr, k: K, v: V, simOk: bool, allocOk: bool) returns (ok: bool, slot: nat)
      requires Valid() && k !in contents && ReadyToAdd(p, k)
      modifies this, table
      ensures Valid() && (table == old(table) || fresh(table))
      ensures ok ==> contents == old(contents)[k := v]
      ensures ok ==> slot < table.Length && table[slot].Holds(k, v)
      ensures !ok ==> unchanged(this) && unchanged(table)
      ensures !ok ==> !simOk || !allocOk || |contents| > MAX_INIT
      ensures !old(Overloaded(entryCount, removedCount, table.Length)) ==> table == old(table) && hashShift == old(hashShift)
    {
      hide Sound, LiveSlots, RemovedSlots, Placed, Path;
      EntriesAreKeys();
      slot := p.slot;
      if table[slot].IsRemoved() {
        if !simOk {
          return false, slot;
        }
        RemovedIsCounted(table[..], slot);
      } else {
        var status := CheckOverloaded(allocOk);
        if status == RehashFailed {
          return false, slot;
        }
        if status == NotOverloaded && !simOk {
          return false, slot;
        }
        if status == Rehashed {
          slot := FindFree(p.keyHash, k);
        }
      }
      SetLive(slot, p.keyHash, k, v);
      ok := true;
    }

    /** putNewInfallibleInternal. It checks no bound: the load limit may be passed. */
    method PutNewInfallible(k: K, v: V)
      requires Intact() && entryCount < MaxLoad(table.Length) && k !in contents
      modifies this, table
      ensures Intact() && table == old(table) && hashShift == old(hashShift)
      ensures contents == old(contents)[k := v] && entryCount == old(entryCount) + 1
      ensures removedCount <= old(removedCount)
      ensures old(Valid()) && !old(Overloaded(entryCount, removedCount, table.Length)) ==> Valid()
      ensures OnlyAdds(old(table[..]), table[..], k, v)
    {
      hide Sound, LiveSlots, RemovedSlots, Placed, Path;
      LoadLeavesRoom(HASH_BITS - hashShift);
      var keyHash := PrepareHash(hash(k));
      var slot := FindFree(keyHash, k);
      SetLive(slot, keyHash, k, v);
    }

    method PutNew(k: K, v: V, simOk: bool, allocOk: bool) returns (ok: bool)
      requires Valid() && k !in contents
      modifies this, table
      ensures Valid() && (table == old(table) || fresh(table))
      ensures contents == if ok then old(contents)[k := v] else old(contents)
      ensures !ok ==> unchanged(this) && unchanged(table)
      ensures !simOk ==> !ok
      ensures !ok ==> !simOk || !allocOk || |contents| > MAX_INIT
      ensures !old(Overloaded(entryCount, removedCount, table.Length)) ==> table == old(table) && hashShift == old(hashShift)
      ensures ok && old(Overloaded(entryCount, removedCount, table.Length)) ==>
        fresh(table) && hashShift == old(hashShift) - if old(ShouldCompress(removedCount, table.Length)) then 0 else 1
      ensures ok ==> entryCount == old(entryCount) + 1 && removedCount <= old(removedCount)
    {
      hide Sound, LiveSlots, RemovedSlots;
      EntriesAreKeys();
      if !simOk {
        return false;
      }
      var status := CheckOverloaded(allocOk);
      if status == RehashFailed {
        return false;
      }
      PutNewInfallible(k, v);
      return true;
    }

    /** lookupForAdd again with the hash already at hand, and add if that does not find the key. */
    method RelookupOrAdd(p: AddPtr, k: K, v: V, simOk: bool, allocOk: bool) returns (ok: bool)
      requires Valid() && p.keyHash == PrepareHash(hash(k))
      modifies this, table
      ensures Valid() && (table == old(table) || fresh(table))
      ensures contents == if ok && k !in old(contents) then old(contents)[k := v] else old(contents)
      ensures !ok ==> k !in old(contents) && (!simOk || !allocOk || |contents| > MAX_INIT)
    {
      hide Sound, LiveSlots, RemovedSlots, Placed, Path;
      var slot := LookupEntry(k, p.keyHash, true);
      if table[slot].IsLive() {
        return true;
      }
      var added;
      ok, added := Add(AddPtr(slot, p.keyHash), k, v, simOk, allocOk);
    }

    method Remove(slot: nat, allocOk: bool)
      requires Valid() && slot < table.Length && table[slot].IsLive() && table[slot].mem.Some?
      modifies this, table
      ensures Valid() && (table == old(table) || fresh(table))
      ensures contents == old(contents) - {old(table[slot].mem.value.key)} && entryCount == old(entryCount) - 1
      ensures hashShift == old(hashShift) + if allocOk && WouldBeUnderloaded(old(table.Length), entryCount) then 1 else 0
      ensures table == old(table) <==> hashShift == old(hashShift)
    {
      hide Sound, LiveSlots, RemovedSlots;
      RemoveEntry(slot);
      CheckUnderloaded(allocOk);
    }

    method RekeyWithoutRehash(slot: nat, k: K)
      requires Intact() && slot < table.Length && table[slot].IsLive() && table[slot].mem.Some?
      requires k !in contents || k == table[slot].mem.value.key
      modifies this, table
      ensures Intact() && table == old(table) && hashShift == old(hashShift)
      ensures entryCount == old(entryCount)
      ensures contents == (old(contents) - {old(table[slot].mem.value.key)})[k := old(table[slot].mem.value.value)]
      ensures OnlyAdds(old(table[..])[slot := FreeEntry()], table[..], k, old(table[slot].mem.value.value))
    {
      hide Sound, LiveSlots, RemovedSlots;
      var v := table[slot].mem.value.value;
      RemoveEntry(slot);
      PutNewInfallible(k, v);
    }

    method RekeyAndMaybeRehash(slot: nat, k: K, allocOk: bool)
      requires Valid() && slot < table.Length && table[slot].IsLive() && table[slot].mem.Some?
      requires k !in contents || k == table[slot].mem.value.key
      modifies this, table
      ensures Valid() && (table == old(table) || fresh(table))
      ensures contents == (old(contents) - {old(table[slot].mem.value.key)})[k := old(table[slot].mem.value.value)]
    {
      hide Sound, LiveSlots, RemovedSlots;
      RekeyWithoutRehash(slot, k);
      CheckOverRemoved(allocOk);
    }

    method Clear()
      requires Valid()
      modifies this, table
      ensures Valid() && table == old(table) && contents == map[] && entryCount == 0
    {
      hide Placed, Path;
      FreeAll(table);
      AllFreeIsSound(table[..], [], HASH_BITS - hashShift, hash);
      removedCount := 0;
      entryCount := 0;
      contents := map[];
    }

    /** p->value() = v, on an entry that was found. */
    method SetValue(slot: nat, v: V)
      requires Intact() && slot < table.Length && table[slot].IsLive() && table[slot].mem.Some?
      modifies this`contents, table
      ensures Intact() && contents == old(contents)[old(table[slot].mem.value.key) := v]
      ensures old(Valid()) ==> Valid()
      ensures table[slot] == WithValue(old(table[slot]), v)
      ensures forall s :: 0 <= s < table.Length && s != slot ==> table[s] == old(table[s])
    {
      hide Stores, AllPlaced, LiveSlots, RemovedSlots;
      ghost var t := table[..];
      OverwriteKeepsSound(t, slot, v, HASH_BITS - hashShift, hash, contents);
      table[slot] := WithValue(table[slot], v);
      contents := contents[t[slot].mem.value.key := v];
      assert table[..] == t[slot := WithValue(t[slot], v)];
    }

    lemma EntriesAreKeys()
      requires Intact()
      ensures entryCount == |contents|
    {
      hide AllPlaced, Stores;
      LiveSlotsCountKeys(table[..], hash, contents);
    }

    method Count() returns (n: nat)
      requires Valid()
      ensures n == |contents|
    {
      EntriesAreKeys();
      n := entryCount;
    }

    // ---------- Filling a table ----------

    /** Distinct new keys go into an empty table without a rehash exactly when its capacity is large enough for them. */
    method Fill(items: seq<Mapping<K, V>>)
      requires Valid() && contents == map[] && removedCount == 0 && |items| <= MAX_INIT
      requires forall i, j :: 0 <= i < j < |items| ==> items[i].key != items[j].key
      modifies this, table
      ensures Valid() && contents == MapOf(items)
      ensures table == old(table) <==> InsertsWithoutRehash(|items|, old(table.Length))
    {
      hide Sound, LiveSlots, RemovedSlots, MaxLoad;
      EntriesAreKeys();
      for i := 0 to |items|
        invariant Valid() && contents == MapOf(items[..i]) && entryCount == i && removedCount == 0
        invariant table == old(table) || fresh(table)
        invariant table == old(table) <==> InsertsWithoutRehash(i, old(table.Length))
      {
        MapOfMore(items, i);
        EntriesAreKeys();
        var ok := PutNew(items[i].key, items[i].value, true, true);
      }
      assert items[..|items|] == items;
    }
  }

  /** What putting the items one after the other makes of an empty map. */
  function MapOf<K(==), V>(items: seq<Mapping<K, V>>): map<K, V> {
    if items == [] then map[]
    else MapOf(items[..|items| - 1])[items[|items| - 1].key := items[|items| - 1].value]
  }

  lemma MapOfMore<K, V>(items: seq<Mapping<K, V>>, i: nat)
    requires i < |items|
    requires forall i, j :: 0 <= i < j < |items| ==> items[i].key != items[j].key
    ensures items[i].key !in MapOf(items[..i])
    ensures MapOf(items[..i + 1]) == MapOf(items[..i])[items[i].key := items[i].value]
  {
    assert items[..i + 1][..i] == items[..i];
    MapOfKeys(items[..i], items[i].key);
  }

  lemma {:induction false} MapOfKeys<K, V>(items: seq<Mapping<K, V>>, k: K)
    requires forall i :: 0 <= i < |items| ==> items[i].key != k
    ensures k !in MapOf(items)
  {
    if items == [] {
    } else {
      MapOfKeys(items[..|items| - 1], k);
    }
  }

  /** A new table of the size asked for takes that many keys without a rehash. */
  method InitAndFill<K(==, !new), V(!new)>(h: HashTable<K, V>, items: seq<Mapping<K, V>>) returns (ok: bool, ghost first: array<Entry<K, V>>)
    requires h.table.Length == 0 && h.entryCount == 0 && h.removedCount == 0 && h.contents == map[]
    requires forall i, j :: 0 <= i < j < |items| ==> items[i].key != items[j].key
    modifies h
    ensures ok <==> |items| <= MAX_INIT
    ensures ok ==> h.Valid() && h.contents == MapOf(items) && h.table == first
  {
    ok := h.Init(|items|, true);
    first := h.table;
    if ok {
      InitLeavesRoom(|items|, HASH_BITS - h.hashShift);
      h.Fill(items);
    }
  }

  lemma InitLeavesRoom(length: nat, lg: nat)
    requires lg >= MIN_CAPACITY_LOG2 && Pow2(lg) >= WantedCapacity(length)
    ensures InsertsWithoutRehash(length, Pow2(lg))
  {
    CapacityIsMultipleOfFour(lg);
    EnoughRoom(length, Pow2(lg));
  }
}
