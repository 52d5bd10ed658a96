/** The two ways js/public/HashTable.h moves every entry: into a new array, or within its own. */
module TableRehash {
  import opened Options
  import opened Powers
  import opened Probing
  import opened TableModel
  import opened TableProbes

  // ---------- Copying into a fresh array ----------

  lemma StoresOfPrefix<K, V>(t: Table<K, V>, i: nat, hash: K -> HashNumber, m: map<K, V>, part: map<K, V>)
    requires i < |t| && Stores(t, hash, m) && Stores(t[..i], hash, part)
    ensures !t[i].IsLive() ==> Stores(t[..i + 1], hash, part)
    ensures t[i].IsLive() ==> t[i].mem.Some? && t[i].mem.value.key !in part
    ensures t[i].IsLive() ==> Stores(t[..i + 1], hash, part[t[i].mem.value.key := t[i].mem.value.value])
  {
    assert t[..i + 1] == t[..i] + [t[i]];
    if t[i].IsLive() {
      KeyIsNew(t, i, hash, m, part);
      ExtendStores(t[..i], t[i], hash, part);
    } else {
      ExtendIdle(t[..i], t[i], hash, part);
    }
  }

  lemma KeyIsNew<K, V>(t: Table<K, V>, i: nat, hash: K -> HashNumber, m: map<K, V>, part: map<K, V>)
    requires i < |t| && Stores(t, hash, m) && Represents(t[..i], part) && t[i].IsLive()
    ensures t[i].mem.Some? && t[i].mem.value.key !in part
  {
    var k, prefix := t[i].mem.value.key, t[..i];
    if k in part {
      var s := HolderOf(prefix, part, k);
    }
  }

  lemma ExtendStores<K, V>(t: Table<K, V>, e: Entry<K, V>, hash: K -> HashNumber, m: map<K, V>)
    requires Stores(t, hash, m) && e.IsLive() && e.mem.Some? && e.mem.value.key !in m
    requires e.GetKeyHash() == PrepareHash(hash(e.mem.value.key))
    ensures Stores(t + [e], hash, m[e.mem.value.key := e.mem.value.value])
  {
    ExtendIdle(t, FreeEntry(), hash, m);
    AddToStores(t + [FreeEntry()], |t|, e, hash, m);
    assert (t + [FreeEntry()])[|t| := e] == t + [e];
  }

  lemma ExtendIdle<K, V>(t: Table<K, V>, e: Entry<K, V>, hash: K -> HashNumber, m: map<K, V>)
    requires Stores(t, hash, m) && !e.IsLive()
    ensures Stores(t + [e], hash, m)
  {
    var t' := t + [e];
    forall k | k in m
      ensures HasMapping(t', k, m[k])
    {
      var s := HolderOf(t, m, k);
      assert t'[s].Holds(k, m[k]);
    }
  }

  lemma StoresIsFunctional<K, V>(t: Table<K, V>, hash: K -> HashNumber, m: map<K, V>, m': map<K, V>)
    requires Stores(t, hash, m) && Stores(t, hash, m')
    ensures m == m'
  {
    forall k | k in m
      ensures k in m' && m'[k] == m[k]
    {
      var i := HolderOf(t, m, k);
    }
    forall k | k in m'
      ensures k in m
    {
      var i := HolderOf(t, m', k);
    }
  }

  /** The live entries of the first i slots, as a map of that many keys. */
  lemma {:induction false} CountPrefix<K, V>(t: Table<K, V>, i: nat, hash: K -> HashNumber, m: map<K, V>) returns (part: map<K, V>)
    requires i <= |t| && Stores(t, hash, m)
    ensures Stores(t[..i], hash, part) && |part| == |LiveSlots(t[..i])|
  {
    if i == 0 {
      part := map[];
      assert LiveSlots(t[..0]) == {};
    } else {
      part := CountPrefix(t, i - 1, hash, m);
      StoresOfPrefix(t, i - 1, hash, m, part);
      LiveSlotsOfPrefix(t, i - 1);
      if t[i - 1].IsLive() {
        part := part[t[i - 1].mem.value.key := t[i - 1].mem.value.value];
      }
    }
  }

  /** There are as many live slots as keys. */
  lemma LiveSlotsCountKeys<K, V>(t: Table<K, V>, hash: K -> HashNumber, m: map<K, V>)
    requires Stores(t, hash, m)
    ensures |LiveSlots(t)| == |m|
  {
    var part := CountPrefix(t, |t|, hash, m);
    assert t[..|t|] == t;
    StoresIsFunctional(t, hash, m, part);
  }

  lemma LiveSlotsOfPrefix<K, V>(t: Table<K, V>, i: nat)
    requires i < |t|
    ensures |LiveSlots(t[..i + 1])| == |LiveSlots(t[..i])| + (if t[i].IsLive() then 1 else 0)
    ensures |LiveSlots(t[..i + 1])| <= |LiveSlots(t)|
  {
    assert LiveSlots(t[..i + 1]) == LiveSlots(t[..i]) + (if t[i].IsLive() then {i} else {});
    SubsetIsNoLarger(LiveSlots(t[..i + 1]), LiveSlots(t));
  }

  /** The new array holds the live entries of the first i slots and nothing else. */
  ghost predicate Copied<K, V>(t: Table<K, V>, i: nat, n: Table<K, V>, lg: nat, hash: K -> HashNumber, part: map<K, V>)
    requires i <= |t|
  {
    && Sound(n, lg, hash, part)
    && Stores(t[..i], hash, part)
    && |LiveSlots(n)| == |LiveSlots(t[..i])|
    && RemovedSlots(n) == {}
  }

  lemma AllFreeIsSound<K, V>(n: Table<K, V>, t: Table<K, V>, lg: nat, hash: K -> HashNumber)
    requires lg <= HASH_BITS && |n| == Pow2(lg)
    requires forall i :: 0 <= i < |n| ==> n[i].IsFree()
    ensures Copied(t, 0, n, lg, hash, map[])
    ensures LiveSlots(n) == {} && RemovedSlots(n) == {}
  {
    assert LiveSlots(n) == {} && RemovedSlots(n) == {};
    assert LiveSlots(t[..0]) == {};
  }

  /** Moving the live entry t[i] into the slot found for it. */
  lemma CopyOne<K, V>(t: Table<K, V>, i: nat, n: Table<K, V>, marked: Table<K, V>, slot: nat, lg: nat,
                      hash: K -> HashNumber, m: map<K, V>, part: map<K, V>)
    requires i < |t| && Stores(t, hash, m) && Copied(t, i, n, lg, hash, part)
    requires t[i].IsLive() && OnlyMarks(n, marked) && slot < |marked| && !marked[slot].IsLive()
    requires Placed(marked, Path(t[i].GetKeyHash(), lg), slot)
    ensures t[i].mem.Some?
    ensures Copied(t, i + 1, marked[slot := Entry(t[i].GetKeyHash(), t[i].mem)], lg, hash,
                   part[t[i].mem.value.key := t[i].mem.value.value])
  {
    var e := Entry(t[i].GetKeyHash(), t[i].mem);
    StoresOfPrefix(t, i, hash, m, part);
    OnlyMarksKeepsStores(n, marked, hash, part);
    OnlyMarksKeepsPlaced(n, marked, lg);
    OnlyMarksKeepsSlots(n, marked);
    assert slot !in RemovedSlots(marked);
    AddToStores(marked, slot, e, hash, part);
    StoreKeepsPlaced(marked, slot, e, lg);
    FillSlots(marked, slot, e);
    LiveSlotsOfPrefix(t, i);
  }

  lemma CopyNone<K, V>(t: Table<K, V>, i: nat, n: Table<K, V>, lg: nat, hash: K -> HashNumber, m: map<K, V>, part: map<K, V>)
    requires i < |t| && Stores(t, hash, m) && Copied(t, i, n, lg, hash, part) && !t[i].IsLive()
    ensures Copied(t, i + 1, n, lg, hash, part)
  {
    StoresOfPrefix(t, i, hash, m, part);
    LiveSlotsOfPrefix(t, i);
  }

  method CopyLive<K, V>(source: array<Entry<K, V>>, a: array<Entry<K, V>>, hashShift: nat,
                        ghost hash: K -> HashNumber, ghost m: map<K, V>)
    requires source != a && hashShift <= HASH_BITS && a.Length == Pow2(HASH_BITS - hashShift)
    requires Stores(source[..], hash, m) && |LiveSlots(source[..])| < a.Length
    requires forall i :: 0 <= i < a.Length ==> a[i].IsFree()
    modifies a
    ensures Sound(a[..], HASH_BITS - hashShift, hash, m)
    ensures |LiveSlots(a[..])| == |LiveSlots(source[..])| && RemovedSlots(a[..]) == {}
  {
    ghost var t := source[..];
    ghost var lg := HASH_BITS - hashShift;
    ghost var part := map[];
    AllFreeIsSound(a[..], t, lg, hash);
    var i := 0;
    while i < source.Length
      invariant i <= source.Length && source[..] == t
      invariant Copied(t, i, a[..], lg, hash, part)
    {
      LiveSlotsOfPrefix(t, i);
      if source[i].IsLive() {
        var hn := source[i].GetKeyHash();
        ghost var n := a[..];
        ghost var vacant := VacantSlotExists(n);
        var slot := FindFreeEntry(a, hashShift, hn, vacant);
        CopyOne(t, i, n, a[..], slot, lg, hash, m, part);
        ghost var marked := a[..];
        a[slot] := Entry(hn, source[i].mem);
        assert a[..] == marked[slot := Entry(hn, t[i].mem)];
        part := part[t[i].mem.value.key := t[i].mem.value.value];
      } else {
        CopyNone(t, i, a[..], lg, hash, m, part);
      }
      i := i + 1;
    }
    assert t[..i] == t;
    StoresIsFunctional(t, hash, m, part);
  }

  method FreeAll<K, V>(a: array<Entry<K, V>>)
    modifies a
    ensures forall i :: 0 <= i < a.Length ==> a[i].IsFree()
  {
    var i := 0;
    while i < a.Length
      invariant i <= a.Length
      invariant forall j :: 0 <= j < i ==> a[j].IsFree()
    {
      a[i] := FreeEntry();
      i := i + 1;
    }
  }

  // ---------- Rehashing in place ----------

  /** The collision bit now means "already placed": removed slots have become free. */
  method ClearMarks<K, V>(a: array<Entry<K, V>>)
    modifies a
    ensures forall i :: 0 <= i < a.Length ==> a[i] == old(a[i]).UnsetCollision()
  {
    var i := 0;
    while i < a.Length
      invariant i <= a.Length
      invariant forall j :: 0 <= j < i ==> a[j] == old(a[j]).UnsetCollision()
      invariant forall j :: i <= j < a.Length ==> a[j] == old(a[j])
    {
      a[i] := a[i].UnsetCollision();
      i := i + 1;
    }
  }

  /** No tombstones, and every marked slot is live and in place through marked slots. */
  ghost predicate Settled<K, V>(t: Table<K, V>, lg: nat)
    requires lg <= HASH_BITS
  {
    forall i :: 0 <= i < |t| && t[i].HasCollision() ==>
      t[i].IsLive() && Placed(t, Path(t[i].GetKeyHash(), lg), i)
  }

  /** The state between two steps of the in-place rehash. */
  ghost predicate Rehashing<K, V>(t: Table<K, V>, lg: nat, hash: K -> HashNumber, m: map<K, V>, n: nat) {
    && lg <= HASH_BITS && |t| == Pow2(lg)
    && Stores(t, hash, m) && Settled(t, lg) && |LiveSlots(t)| == n
  }

  /** Slots before i are done. */
  ghost predicate DoneBefore<K, V>(t: Table<K, V>, i: nat)
    requires i <= |t|
  {
    forall s :: 0 <= s < i && t[s].IsLive() ==> t[s].HasCollision()
  }

  ghost function Waiting<K, V>(t: Table<K, V>): set<nat> {
    set i | 0 <= i < |t| && t[i].IsLive() && !t[i].HasCollision()
  }

  /** swap followed by setCollision on the target: entry i lands in slot j, what was in j lands in i. */
  ghost predicate Moved<K, V>(t: Table<K, V>, t': Table<K, V>, i: nat, j: nat)
    requires i < |t| && j < |t|
  {
    && |t'| == |t|
    && t'[j] == t[i].SetCollision()
    && (i != j ==> t'[i].keyHash == t[j].keyHash && (t[j].IsLive() ==> t'[i].mem == t[j].mem))
    && forall s :: 0 <= s < |t| && s != i && s != j ==> t'[s] == t[s]
  }

  method MoveTo<K, V>(a: array<Entry<K, V>>, i: nat, j: nat)
    requires i < a.Length && j < a.Length
    modifies a
    ensures Moved(old(a[..]), a[..], i, j)
  {
    if i != j {
      if a[j].IsLive() {
        a[i], a[j] := a[i].(mem := a[j].mem), a[j].(mem := a[i].mem);
      } else {
        a[i], a[j] := a[i].(mem := None), a[j].(mem := a[i].mem);
      }
      a[i], a[j] := a[i].(keyHash := a[j].keyHash), a[j].(keyHash := a[i].keyHash);
    }
    a[j] := a[j].SetCollision();
  }

  /** Where the entry of slot s is after the move. */
  ghost function NewHome(s: nat, i: nat, j: nat): nat {
    if s == i then j else if s == j then i else s
  }

  lemma MovedMapping<K, V>(t: Table<K, V>, t': Table<K, V>, i: nat, j: nat, s: nat)
    requires i < |t| && j < |t| && s < |t| && t[i].IsLive() && Moved(t, t', i, j)
    ensures t'[NewHome(s, i, j)].IsLive() == t[s].IsLive()
    ensures t[s].IsLive() ==> t'[NewHome(s, i, j)].mem == t[s].mem
    ensures t[s].IsLive() ==> t'[NewHome(s, i, j)].GetKeyHash() == t[s].GetKeyHash()
    ensures NewHome(NewHome(s, i, j), i, j) == s && NewHome(s, i, j) < |t|
  {
  }

  lemma MoveKeepsStores<K, V>(t: Table<K, V>, t': Table<K, V>, i: nat, j: nat, hash: K -> HashNumber, m: map<K, V>)
    requires i < |t| && j < |t| && t[i].IsLive() && Moved(t, t', i, j) && Stores(t, hash, m)
    ensures Stores(t', hash, m)
  {
    forall s | 0 <= s < |t'| && t'[s].IsLive()
      ensures t'[s].mem.Some? && t'[s].GetKeyHash() == PrepareHash(hash(t'[s].mem.value.key))
      ensures t'[s].mem.value.key in m && m[t'[s].mem.value.key] == t'[s].mem.value.value
    {
      MovedMapping(t, t', i, j, NewHome(s, i, j));
    }
    MoveKeepsUniqueKeys(t, t', i, j);
    forall k | k in m
      ensures HasMapping(t', k, m[k])
    {
      var s := HolderOf(t, m, k);
      MovedMapping(t, t', i, j, s);
      assert t'[NewHome(s, i, j)].Holds(k, m[k]);
    }
  }

  lemma MoveKeepsUniqueKeys<K, V>(t: Table<K, V>, t': Table<K, V>, i: nat, j: nat)
    requires i < |t| && j < |t| && t[i].IsLive() && Moved(t, t', i, j) && UniqueKeys(t)
    ensures UniqueKeys(t')
  {
    forall r, s | 0 <= r < s < |t'| && t'[r].IsLive() && t'[s].IsLive() && t'[r].mem.Some? && t'[s].mem.Some?
      ensures t'[r].mem.value.key != t'[s].mem.value.key
    {
      MovedMapping(t, t', i, j, NewHome(r, i, j));
      MovedMapping(t, t', i, j, NewHome(s, i, j));
      assert NewHome(r, i, j) != NewHome(s, i, j);
    }
  }

  lemma MoveKeepsCounts<K, V>(t: Table<K, V>, t': Table<K, V>, i: nat, j: nat)
    requires i < |t| && j < |t| && t[i].IsLive() && !t[i].HasCollision() && !t[j].HasCollision() && Moved(t, t', i, j)
    ensures |LiveSlots(t')| == |LiveSlots(t)|
    ensures Waiting(t') < Waiting(t)
  {
    if t[j].IsLive() {
      assert LiveSlots(t') == LiveSlots(t);
      assert j in Waiting(t) && j !in Waiting(t');
    } else {
      assert LiveSlots(t') == LiveSlots(t) - {i} + {j};
      assert i in Waiting(t) && i !in Waiting(t');
    }
  }

  /** Marked slots are not involved in the move; the target is the one slot newly marked. */
  lemma MoveMarksTarget<K, V>(t: Table<K, V>, t': Table<K, V>, i: nat, j: nat)
    requires i < |t| && j < |t| && t[i].IsLive()
    requires !t[i].HasCollision() && !t[j].HasCollision() && Moved(t, t', i, j)
    ensures forall s :: 0 <= s < |t| && t[s].HasCollision() ==> t'[s].HasCollision()
    ensures forall s :: 0 <= s < |t| && t'[s].HasCollision() && s != j ==> t[s] == t'[s]
    ensures t'[j].IsLive() && t'[j].GetKeyHash() == t[i].GetKeyHash()
  {
  }

  lemma MoveSettles<K, V>(t: Table<K, V>, t': Table<K, V>, i: nat, j: nat, lg: nat)
    requires lg <= HASH_BITS && i < |t| && j < |t| && t[i].IsLive()
    requires !t[i].HasCollision() && !t[j].HasCollision() && Moved(t, t', i, j) && Settled(t, lg)
    requires Placed(t, Path(t[i].GetKeyHash(), lg), j)
    ensures Settled(t', lg)
  {
    hide Path;
    MoveMarksTarget(t, t', i, j);
    forall s | 0 <= s < |t'| && t'[s].HasCollision()
      ensures t'[s].IsLive() && Placed(t', Path(t'[s].GetKeyHash(), lg), s)
    {
      if s == j {
        MarksKeepPlaced(t, t', Path(t[i].GetKeyHash(), lg), j);
      } else {
        MarksKeepPlaced(t, t', Path(t[s].GetKeyHash(), lg), s);
      }
    }
  }

  lemma MoveKeepsRehashing<K, V>(t: Table<K, V>, t': Table<K, V>, i: nat, j: nat, lg: nat,
                                 hash: K -> HashNumber, m: map<K, V>, n: nat)
    requires Rehashing(t, lg, hash, m, n) && i < |t| && j < |t| && t[i].IsLive()
    requires !t[i].HasCollision() && !t[j].HasCollision() && Moved(t, t', i, j)
    requires Placed(t, Path(t[i].GetKeyHash(), lg), j)
    ensures Rehashing(t', lg, hash, m, n)
  {
    MoveKeepsStores(t, t', i, j, hash, m);
    MoveKeepsCounts(t, t', i, j);
    MoveSettles(t, t', i, j, lg);
  }

  lemma MoveKeepsDone<K, V>(t: Table<K, V>, t': Table<K, V>, i: nat, j: nat)
    requires i < |t| && j < |t| && t[i].IsLive() && !t[j].HasCollision() && Moved(t, t', i, j) && DoneBefore(t, i)
    ensures DoneBefore(t', i)
  {
  }

  /** The first unmarked slot on the path of the entry in slot i. */
  method FindUnmarked<K, V>(a: array<Entry<K, V>>, hashShift: nat, i: nat) returns (j: nat)
    requires hashShift <= HASH_BITS && a.Length == Pow2(HASH_BITS - hashShift)
    requires i < a.Length && !a[i].HasCollision()
    ensures j < a.Length && !a[j].HasCollision()
    ensures Placed(a[..], Path(a[i].GetKeyHash(), HASH_BITS - hashShift), j)
  {
    ghost var path;
    ghost var k := 0;
    var stride;
    j, stride, path := StartProbe(a[i].GetKeyHash(), hashShift);
    ghost var last := RoundCovers(path, a.Length, i);
    while a[j].HasCollision()
      invariant k <= last && j == path[k]
      invariant Marked(a[..], path, k)
      decreases last - k
    {
      MarkedGrows(a[..], a[..], path, k);
      j := ApplyDoubleHash(j, stride, a.Length, path, k);
      k := k + 1;
    }
  }

  /** One turn of the second loop: the waiting entry in slot i takes the first unmarked slot of its path. */
  method PlaceOne<K, V>(a: array<Entry<K, V>>, hashShift: nat, i: nat, ghost hash: K -> HashNumber, ghost m: map<K, V>, ghost n: nat)
    requires hashShift <= HASH_BITS && Rehashing(a[..], HASH_BITS - hashShift, hash, m, n)
    requires i < a.Length && a[i].IsLive() && !a[i].HasCollision() && DoneBefore(a[..], i)
    modifies a
    ensures Rehashing(a[..], HASH_BITS - hashShift, hash, m, n)
    ensures DoneBefore(a[..], i) && Waiting(a[..]) < Waiting(old(a[..]))
  {
    ghost var t := a[..];
    var j := FindUnmarked(a, hashShift, i);
    MoveTo(a, i, j);
    MoveKeepsRehashing(t, a[..], i, j, HASH_BITS - hashShift, hash, m, n);
    MoveKeepsCounts(t, a[..], i, j);
    MoveKeepsDone(t, a[..], i, j);
  }

  method PlaceAll<K, V>(a: array<Entry<K, V>>, hashShift: nat, ghost hash: K -> HashNumber, ghost m: map<K, V>, ghost n: nat)
    requires hashShift <= HASH_BITS && Rehashing(a[..], HASH_BITS - hashShift, hash, m, n)
    modifies a
    ensures Rehashing(a[..], HASH_BITS - hashShift, hash, m, n)
    ensures DoneBefore(a[..], a.Length)
  {
    hide Rehashing;
    var i := 0;
    while i < a.Length
      invariant i <= a.Length && DoneBefore(a[..], i)
      invariant Rehashing(a[..], HASH_BITS - hashShift, hash, m, n)
      decreases Waiting(a[..]), a.Length - i
    {
      if !a[i].IsLive() || a[i].HasCollision() {
        i := i + 1;
      } else {
        PlaceOne(a, hashShift, i, hash, m, n);
      }
    }
  }

  lemma ClearedIsRehashing<K, V>(t: Table<K, V>, t': Table<K, V>, lg: nat, hash: K -> HashNumber, m: map<K, V>)
    requires Sound(t, lg, hash, m) && |t'| == |t|
    requires forall i :: 0 <= i < |t| ==> t'[i] == t[i].UnsetCollision()
    ensures Rehashing(t', lg, hash, m, |LiveSlots(t)|)
  {
    ClearingKeepsMappings(t, t');
    SameMappingsKeepStores(t, t', hash, m);
    assert LiveSlots(t') == LiveSlots(t);
  }

  lemma ClearingKeepsMappings<K, V>(t: Table<K, V>, t': Table<K, V>)
    requires |t'| == |t|
    requires forall i :: 0 <= i < |t| ==> t'[i] == t[i].UnsetCollision()
    ensures SameMappings(t, t')
    ensures forall i :: 0 <= i < |t'| ==> !t'[i].HasCollision()
  {
  }

  lemma RehashedIsSound<K, V>(t: Table<K, V>, lg: nat, hash: K -> HashNumber, m: map<K, V>, n: nat)
    requires Rehashing(t, lg, hash, m, n) && DoneBefore(t, |t|)
    ensures Sound(t, lg, hash, m) && RemovedSlots(t) == {}
  {
    forall i | 0 <= i < |t| && t[i].IsRemoved()
      ensures false
    {
      assert t[i].HasCollision();
    }
  }

  /**
   rehashTableInPlace: it terminates, stores the same map, leaves no tombstone, and
   leaves every live entry marked and reachable from its own hash through live, marked slots.
   */
  method RehashInPlace<K, V>(a: array<Entry<K, V>>, hashShift: nat, ghost hash: K -> HashNumber, ghost m: map<K, V>)
    requires hashShift <= HASH_BITS && Sound(a[..], HASH_BITS - hashShift, hash, m)
    modifies a
    ensures Sound(a[..], HASH_BITS - hashShift, hash, m)
    ensures RemovedSlots(a[..]) == {} && |LiveSlots(a[..])| == |LiveSlots(old(a[..]))|
    ensures forall i :: 0 <= i < a.Length && a[i].IsLive() ==> a[i].HasCollision()
  {
    ghost var t := a[..];
    ghost var lg, n := HASH_BITS - hashShift, |LiveSlots(t)|;
    ClearMarks(a);
    ClearedIsRehashing(t, a[..], lg, hash, m);
    PlaceAll(a, hashShift, hash, m, n);
    RehashedIsSound(a[..], lg, hash, m, n);
  }
}
