/** The sweeping maps of js/public/GCHashTable.h, run on the mutable table. */
module GCHashMaps {
  import opened Options
  import opened Powers
  import opened Probing
  import opened TableModel
  import opened TableLoad
  import opened HashTables
  import opened HashMaps

  /** needsSweep says whether an entry dies, and updates the key and value it is given where the collector has moved them. */
  datatype SweepPolicy<!K(==), !V> = SweepPolicy(dead: (K, V) -> bool, relocate: K -> K, update: (K, V) -> V) {
    ghost predicate Settled(k: K, v: V) { !dead(k, v) && relocate(k) == k && update(k, v) == v }
  }

  ghost predicate Survives<K(!new), V>(m: map<K, V>, p: SweepPolicy<K, V>, k: K) {
    k in m && !p.dead(k, m[k])
  }

  /** A surviving entry is moved once, to a key no other entry has or gets, and then neither dies nor changes. */
  ghost predicate Sane<K(!new), V>(m: map<K, V>, p: SweepPolicy<K, V>) {
    && (forall k :: Survives(m, p, k) ==> p.Settled(p.relocate(k), p.update(k, m[k])))
    && (forall k, other :: Survives(m, p, k) && other in m && other != k ==> p.relocate(k) != other)
    && (forall k, other :: Survives(m, p, k) && Survives(m, p, other) && other != k ==> p.relocate(k) != p.relocate(other))
  }

  /** swept holds exactly the survivors of m, each updated and under its relocated key. */
  ghost predicate Swept<K(!new), V>(m: map<K, V>, p: SweepPolicy<K, V>, swept: map<K, V>) {
    && (forall k :: Survives(m, p, k) ==> p.relocate(k) in swept && swept[p.relocate(k)] == p.update(k, m[k]))
    && (forall k :: k in swept ==> exists origin :: Survives(m, p, origin) && p.relocate(origin) == k)
  }

  /** Key k of the half-swept map c comes unmoved from m, or from a survivor moved to k. */
  ghost predicate Accounted<K(!new), V>(m: map<K, V>, p: SweepPolicy<K, V>, c: map<K, V>, k: K)
    requires k in c
  {
    || (k in m && c[k] == m[k])
    || exists origin :: Survives(m, p, origin) && p.relocate(origin) == k && p.update(origin, m[origin]) == c[k]
  }

  /** A survivor of m is in c, under its old key or its new one but not both. */
  ghost predicate Kept<K(!new), V>(m: map<K, V>, p: SweepPolicy<K, V>, c: map<K, V>, k: K)
    requires k in m
  {
    var moved := p.relocate(k);
    if k in c then
      (c[k] == m[k] || (moved == k && c[k] == p.update(k, m[k]))) && (moved != k ==> moved !in c)
    else
      moved in c && c[moved] == p.update(k, m[k])
  }

  ghost predicate Sweeping<K(!new), V>(m: map<K, V>, p: SweepPolicy<K, V>, c: map<K, V>) {
    && (forall k :: k in c ==> Accounted(m, p, c, k))
    && (forall k :: Survives(m, p, k) ==> Kept(m, p, c, k))
  }

  lemma SweepStarts<K(!new), V>(m: map<K, V>, p: SweepPolicy<K, V>)
    requires Sane(m, p)
    ensures Sweeping(m, p, m)
  {
  }

  /** An entry the policy calls dead, met anywhere in the sweep, was dead from the start. */
  lemma DeadWasDead<K(!new), V>(m: map<K, V>, p: SweepPolicy<K, V>, c: map<K, V>, k: K)
    requires Sane(m, p) && Sweeping(m, p, c) && k in c && p.dead(k, c[k])
    ensures k in m && p.dead(k, m[k])
    ensures forall origin :: Survives(m, p, origin) ==> p.relocate(origin) != k
  {
    assert Accounted(m, p, c, k);
  }

  lemma RemoveDead<K(!new), V>(m: map<K, V>, p: SweepPolicy<K, V>, c: map<K, V>, k: K)
    requires Sane(m, p) && Sweeping(m, p, c) && k in c && p.dead(k, c[k])
    ensures Sweeping(m, p, c - {k})
  {
    DeadWasDead(m, p, c, k);
    var c' := c - {k};
    forall o | o in c'
      ensures Accounted(m, p, c', o)
    {
      assert Accounted(m, p, c, o);
    }
    forall o | Survives(m, p, o)
      ensures Kept(m, p, c', o)
    {
      assert Kept(m, p, c, o);
    }
  }

  /** An entry still to be moved is at its old key, and its new key is vacant. */
  lemma MoverIsOriginal<K(!new), V>(m: map<K, V>, p: SweepPolicy<K, V>, c: map<K, V>, k: K)
    requires Sane(m, p) && Sweeping(m, p, c) && k in c && !p.dead(k, c[k]) && p.relocate(k) != k
    ensures Survives(m, p, k) && c[k] == m[k] && p.relocate(k) !in c
  {
    assert Accounted(m, p, c, k);
    assert Kept(m, p, c, k);
  }

  lemma RekeyMoved<K(!new), V>(m: map<K, V>, p: SweepPolicy<K, V>, c: map<K, V>, k: K)
    requires Sane(m, p) && Sweeping(m, p, c) && k in c && !p.dead(k, c[k]) && p.relocate(k) != k
    ensures Sweeping(m, p, (c - {k})[p.relocate(k) := p.update(k, c[k])])
  {
    MoverIsOriginal(m, p, c, k);
    var c' := (c - {k})[p.relocate(k) := p.update(k, c[k])];
    forall o | o in c'
      ensures Accounted(m, p, c', o)
    {
      if o != p.relocate(k) {
        assert Accounted(m, p, c, o);
      }
    }
    forall o | Survives(m, p, o)
      ensures Kept(m, p, c', o)
    {
      assert Kept(m, p, c, o);
    }
  }

  /** Updating an entry that stays where it is. */
  lemma UpdateStays<K(!new), V>(m: map<K, V>, p: SweepPolicy<K, V>, c: map<K, V>, k: K)
    requires Sane(m, p) && Sweeping(m, p, c) && k in c && !p.dead(k, c[k]) && p.relocate(k) == k
    ensures Sweeping(m, p, c[k := p.update(k, c[k])]) && p.Settled(k, p.update(k, c[k]))
  {
    assert Accounted(m, p, c, k);
    var c' := c[k := p.update(k, c[k])];
    forall o | o in c'
      ensures Accounted(m, p, c', o)
    {
      assert Accounted(m, p, c, o);
    }
    forall o | Survives(m, p, o)
      ensures Kept(m, p, c', o)
    {
      assert Kept(m, p, c, o);
    }
  }

  lemma SweepEnds<K(!new), V>(m: map<K, V>, p: SweepPolicy<K, V>, c: map<K, V>)
    requires Sweeping(m, p, c) && forall k :: k in c ==> p.Settled(k, c[k])
    ensures Swept(m, p, c)
  {
    forall k | Survives(m, p, k)
      ensures p.relocate(k) in c && c[p.relocate(k)] == p.update(k, m[k])
    {
      assert Kept(m, p, c, k);
    }
    forall k | k in c
      ensures exists origin :: Survives(m, p, origin) && p.relocate(origin) == k
    {
      assert Accounted(m, p, c, k);
      if k in m && c[k] == m[k] {
        assert Survives(m, p, k) && p.relocate(k) == k;
      }
    }
  }

  // ---------- The sweeping loops ----------

  /** The live entries of the first n slots need no further attention. */
  ghost predicate SettledBefore<K, V>(t: Table<K, V>, n: nat, p: SweepPolicy<K, V>) {
    forall s :: 0 <= s < n && s < |t| && t[s].IsLive() && t[s].mem.Some? ==>
      p.Settled(t[s].mem.value.key, t[s].mem.value.value)
  }

  lemma AllSettled<K, V>(t: Table<K, V>, lg: nat, hash: K -> HashNumber, m: map<K, V>, p: SweepPolicy<K, V>)
    requires Sound(t, lg, hash, m) && SettledBefore(t, |t|, p)
    ensures forall k :: k in m ==> p.Settled(k, m[k])
  {
    forall k | k in m
      ensures p.Settled(k, m[k])
    {
      var s := HolderOf(t, m, k);
    }
  }

  /** Rekeying the entry in slot n settles it wherever it lands. */
  lemma RekeySettles<K, V>(t: Table<K, V>, t': Table<K, V>, n: nat, p: SweepPolicy<K, V>, k: K, v: V)
    requires n < |t| && SettledBefore(t, n, p) && p.Settled(k, v)
    requires OnlyAdds(t[n := FreeEntry()], t', k, v)
    ensures SettledBefore(t', n + 1, p)
  {
  }

  /** Updating the entry in slot n, which then needs no further attention, settles it. */
  lemma UpdateSettles<K, V>(t: Table<K, V>, t': Table<K, V>, n: nat, p: SweepPolicy<K, V>, k: K, v: V)
    requires n < |t| == |t'| && SettledBefore(t, n, p) && p.Settled(k, v) && t'[n].mem == Some(Mapping(k, v))
    requires forall s :: 0 <= s < |t| && s != n ==> t'[s] == t[s]
    ensures SettledBefore(t', n + 1, p)
  {
  }

  // ---------- A sweep that does not rekey ----------

  /** What becomes of an entry: updated, or gone if it is dead. */
  function Survivors<K, V>(m: map<K, V>, dead: (K, V) -> bool, update: (K, V) -> V): map<K, V> {
    map k | k in m && !dead(k, m[k]) :: update(k, m[k])
  }

  /** The half-swept map c has the entries met so far as the sweep leaves them, and the others as they were. */
  ghost predicate HalfSwept<K(!new), V>(m: map<K, V>, dead: (K, V) -> bool, update: (K, V) -> V, c: map<K, V>, met: set<K>) {
    && met <= m.Keys
    && (forall k :: k in c ==> k in m)
    && (forall k :: k in m && k !in met ==> k in c && c[k] == m[k])
    && (forall k :: k in m && k in met ==> (k in c <==> !dead(k, m[k])))
    && (forall k :: k in m && k in met && k in c ==> c[k] == update(k, m[k]))
  }

  /** The keys met are those of the live entries in the first n slots, and of entries that have been removed. */
  ghost predicate MetBefore<K, V>(t: Table<K, V>, n: nat, met: set<K>) {
    forall s :: 0 <= s < |t| && t[s].IsLive() && t[s].mem.Some? ==> (t[s].mem.value.key in met <==> s < n)
  }

  lemma MeetNext<K(!new), V>(m: map<K, V>, dead: (K, V) -> bool, update: (K, V) -> V, c: map<K, V>, met: set<K>, k: K)
    requires HalfSwept(m, dead, update, c, met) && k in c && k !in met
    ensures c[k] == m[k]
    ensures dead(k, c[k]) ==> HalfSwept(m, dead, update, c - {k}, met + {k})
    ensures !dead(k, c[k]) ==> HalfSwept(m, dead, update, c[k := update(k, c[k])], met + {k})
  {
  }

  lemma NotMetYet<K, V>(t: Table<K, V>, n: nat, met: set<K>)
    requires n < |t| && MetBefore(t, n, met) && t[n].IsLive() && t[n].mem.Some?
    ensures t[n].mem.value.key !in met
  {
  }

  /** Slot n's key is met; no other slot has it. */
  lemma MetMore<K, V>(t: Table<K, V>, t': Table<K, V>, n: nat, met: set<K>, k: K)
    requires n < |t| == |t'| && UniqueKeys(t) && MetBefore(t, n, met) && t[n].IsLive() && t[n].mem.Some? && t[n].mem.value.key == k
    requires forall s :: 0 <= s < |t| && s != n ==> t'[s] == t[s]
    requires t'[n].IsLive() && t'[n].mem.Some? ==> t'[n].mem.value.key == k
    ensures MetBefore(t', n + 1, met + {k})
  {
  }

  lemma SkippedMet<K, V>(t: Table<K, V>, n: nat, later: nat, met: set<K>)
    requires MetBefore(t, n, met) && n <= later
    requires forall s :: n <= s < later && s < |t| ==> !t[s].IsLive()
    ensures MetBefore(t, later, met)
  {
  }

  lemma AllMet<K(!new), V>(t: Table<K, V>, hash: K -> HashNumber, m: map<K, V>, dead: (K, V) -> bool, update: (K, V) -> V,
                           c: map<K, V>, met: set<K>)
    requires Stores(t, hash, c) && MetBefore(t, |t|, met) && HalfSwept(m, dead, update, c, met)
    ensures c == Survivors(m, dead, update)
  {
    forall k | k in c
      ensures k in met
    {
      var s := HolderOf(t, c, k);
    }
  }

  /** GCHashMap::sweep: exactly the dead entries go, and the others are updated, whatever needsSweep answers and does. */
  method Sweep<K(==, !new), V(!new)>(impl: HashTable<K, V>, dead: (K, V) -> bool, update: (K, V) -> V, shrinkOk: bool)
    requires impl.Valid()
    modifies impl, impl.table
    ensures impl.Valid() && (impl.table == old(impl.table) || fresh(impl.table))
    ensures impl.contents == Survivors(old(impl.contents), dead, update)
    ensures forall k :: k in impl.contents <==> k in old(impl.contents) && !dead(k, old(impl.contents)[k])
    ensures forall k :: k in impl.contents ==> impl.contents[k] == update(k, old(impl.contents)[k])
    ensures impl.entryCount <= old(impl.entryCount)
    ensures if impl.entryCount == old(impl.entryCount) || !shrinkOk then impl.hashShift == old(impl.hashShift)
            else IsCompacted(HASH_BITS - old(impl.hashShift), HASH_BITS - impl.hashShift, impl.entryCount)
  {
    hide TableModel.AllPlaced, TableModel.Stores, TableModel.LiveSlots, TableModel.RemovedSlots, MaxLoad, Pow2, HalfSwept, MetBefore;
    ghost var m, met: set<K> := impl.contents, {};
    var e := new Enum(impl);
    NothingMet(impl.table[..], e.cur, m, dead, update);
    while e.cur < impl.table.Length
      invariant e.impl == impl && e.AtFront() && fresh(e) && impl.table == old(impl.table) && !e.rekeyed
      invariant impl.hashShift == old(impl.hashShift) && impl.entryCount <= old(impl.entryCount)
      invariant e.removed <==> impl.entryCount < old(impl.entryCount)
      invariant HalfSwept(m, dead, update, impl.contents, met) && MetBefore(impl.table[..], e.cur, met)
      decreases impl.table.Length - e.cur
    {
      met := SweepEntry(e, dead, update, m, met);
      ghost var n := e.cur + 1;
      e.PopFront();
      SkippedMet(impl.table[..], n, e.cur, met);
    }
    AllMet(impl.table[..], impl.hash, m, dead, update, impl.contents, met);
    e.Finish(true, shrinkOk);
  }

  lemma NothingMet<K(!new), V>(t: Table<K, V>, n: nat, m: map<K, V>, dead: (K, V) -> bool, update: (K, V) -> V)
    requires forall s :: 0 <= s < n && s < |t| ==> !t[s].IsLive()
    ensures HalfSwept(m, dead, update, m, {}) && MetBefore(t, n, {})
  {
  }

  /** Its loop body: needsSweep updates the value in place, and the entry is removed if it is dead. */
  method SweepEntry<K(==, !new), V(!new)>(e: Enum<K, V>, dead: (K, V) -> bool, update: (K, V) -> V, ghost m: map<K, V>, ghost met: set<K>)
    returns (ghost met': set<K>)
    requires e.AtFront() && e.cur < e.impl.table.Length && !e.rekeyed
    requires HalfSwept(m, dead, update, e.impl.contents, met) && MetBefore(e.impl.table[..], e.cur, met)
    modifies e`removed, e.impl, e.impl.table
    ensures e.Valid() && e.impl.table == old(e.impl.table) && e.impl.hashShift == old(e.impl.hashShift)
    ensures e.impl.entryCount <= old(e.impl.entryCount)
    ensures e.removed <==> old(e.removed) || e.impl.entryCount < old(e.impl.entryCount)
    ensures HalfSwept(m, dead, update, e.impl.contents, met') && MetBefore(e.impl.table[..], e.cur + 1, met')
  {
    hide TableModel.AllPlaced, TableModel.WellHashed, TableModel.UniqueKeys, TableModel.Represents;
    hide TableModel.LiveSlots, TableModel.RemovedSlots, MaxLoad, Pow2, HalfSwept, MetBefore;
    var k, v := e.Front();
    ghost var t, c := e.impl.table[..], e.impl.contents;
    met' := met + {k};
    NotMetYet(t, e.cur, met);
    MeetNext(m, dead, update, c, met, k);
    e.UpdateFront(update(k, v));
    if dead(k, v) {
      e.RemoveFront();
      assert e.impl.contents == c - {k};
    }
    MetMore(t, e.impl.table[..], e.cur, met, k);
  }

  // ---------- A sweep that does ----------

  /** The loop body: needsSweep updates the value in place, and the front entry is removed, rekeyed or left. */
  method SweepFront<K(==, !new), V(!new)>(e: Enum<K, V>, p: SweepPolicy<K, V>, ghost m: map<K, V>)
    requires e.AtFront() && e.cur < e.impl.table.Length && Sane(m, p) && Sweeping(m, p, e.impl.contents)
    requires SettledBefore(e.impl.table[..], e.cur, p)
    modifies e`rekeyed, e`removed, e.impl, e.impl.table
    ensures e.Valid() && e.impl.table == old(e.impl.table) && Sweeping(m, p, e.impl.contents)
    ensures e.impl.entryCount <= old(e.impl.entryCount)
    ensures e.removed <==> old(e.removed) || e.impl.entryCount < old(e.impl.entryCount)
    ensures SettledBefore(e.impl.table[..], e.cur + 1, p)
  {
    hide TableModel.Sound, TableModel.LiveSlots, TableModel.RemovedSlots, MaxLoad, Pow2, Sweeping, Sane;
    var k, v := e.Front();
    ghost var t, c := e.impl.table[..], e.impl.contents;
    e.UpdateFront(p.update(k, v));
    if p.dead(k, v) {
      RemoveDead(m, p, c, k);
      e.RemoveFront();
      assert e.impl.contents == c - {k};
    } else if p.relocate(k) != k {
      MoverIsOriginal(m, p, c, k);
      RekeyMoved(m, p, c, k);
      ghost var updated := e.impl.table[..];
      e.RekeyFront(p.relocate(k));
      assert e.impl.contents == (c - {k})[p.relocate(k) := p.update(k, v)];
      SaneSettles(m, p, k);
      RekeySettles(updated, e.impl.table[..], e.cur, p, p.relocate(k), p.update(k, v));
    } else {
      UpdateStays(m, p, c, k);
      UpdateSettles(t, e.impl.table[..], e.cur, p, k, p.update(k, v));
    }
  }

  lemma SaneSettles<K(!new), V>(m: map<K, V>, p: SweepPolicy<K, V>, k: K)
    requires Sane(m, p) && Survives(m, p, k)
    ensures p.Settled(p.relocate(k), p.update(k, m[k]))
  {
  }

  /** GCRekeyableHashMap::sweep: the survivors stay, each updated and under its relocated key. */
  method SweepAndRekey<K(==, !new), V(!new)>(impl: HashTable<K, V>, p: SweepPolicy<K, V>, allocOk: bool, shrinkOk: bool)
    requires impl.Valid() && Sane(impl.contents, p)
    modifies impl, impl.table
    ensures impl.Valid() && (impl.table == old(impl.table) || fresh(impl.table))
    ensures Swept(old(impl.contents), p, impl.contents)
    ensures impl.entryCount <= old(impl.entryCount)
    ensures impl.entryCount < old(impl.entryCount) && shrinkOk ==> !WouldBeUnderloaded(impl.table.Length, impl.entryCount)
  {
    hide TableModel.Sound, TableModel.LiveSlots, TableModel.RemovedSlots, MaxLoad, Pow2, Sane, Sweeping, Swept;
    ghost var m := impl.contents;
    SweepStarts(m, p);
    var e := new Enum(impl);
    while e.cur < impl.table.Length
      invariant e.impl == impl && e.AtFront() && fresh(e) && impl.table == old(impl.table)
      invariant SettledBefore(impl.table[..], e.cur, p) && Sweeping(m, p, impl.contents)
      invariant impl.entryCount <= old(impl.entryCount) && (e.removed <==> impl.entryCount < old(impl.entryCount))
      decreases impl.table.Length - e.cur
    {
      SweepFront(e, p, m);
      e.PopFront();
    }
    AllSettled(impl.table[..], HASH_BITS - impl.hashShift, impl.hash, impl.contents, p);
    SweepEnds(m, p, impl.contents);
    e.Finish(allocOk, shrinkOk);
  }
}
