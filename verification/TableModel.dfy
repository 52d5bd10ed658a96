/**
 The entry array of js/public/HashTable.h as a value, and what its representation
 invariant survives. The class in HashTables.dfy changes the real array and appeals
 to the lemmas here.
 */
module TableModel {
  import opened Options
  import opened Powers
  import opened Probing

  /** HashMapEntry. A HashSet is the case where V carries nothing. */
  datatype Mapping<K, V> = Mapping(key: K, value: V)

  const FREE_KEY: HashNumber := 0
  const REMOVED_KEY: HashNumber := 1

  /** HashTableEntry: bit 0 of keyHash is the collision bit, and mem is empty once destroyed. */
  datatype Entry<K(==), V> = Entry(keyHash: HashNumber, mem: Option<Mapping<K, V>>) {
    predicate IsFree() { keyHash == FREE_KEY }

    predicate IsRemoved() { keyHash == REMOVED_KEY }

    predicate IsLive() { keyHash > REMOVED_KEY }

    predicate HasCollision() { keyHash % 2 == 1 }

    function GetKeyHash(): HashNumber { keyHash - keyHash % 2 }

    function SetCollision(): Entry<K, V> { this.(keyHash := keyHash - keyHash % 2 + 1) }

    function UnsetCollision(): Entry<K, V> { this.(keyHash := GetKeyHash()) }

    /** matchHash and then match. */
    predicate Matches(h: HashNumber, l: K)
      requires h > REMOVED_KEY
    {
      GetKeyHash() == h && mem.Some? && mem.value.key == l
    }

    /** A live entry whose memory holds a mapping. */
    ghost predicate Holds(k: K, v: V) { IsLive() && mem == Some(Mapping(k, v)) }
  }

  function FreeEntry<K, V>(): Entry<K, V> { Entry(FREE_KEY, None) }

  function RemovedEntry<K, V>(): Entry<K, V> { Entry(REMOVED_KEY, None) }

  /** prepareHash, after the scrambling: reserved codes wrap below zero, bit 0 is cleared. */
  function PrepareHash(scrambled: HashNumber): (h: HashNumber)
    ensures h > REMOVED_KEY && h % 2 == 0
    ensures if scrambled > REMOVED_KEY then h / 2 == scrambled / 2 else h == 0xFFFF_FFFE
  {
    var h := if scrambled > REMOVED_KEY then scrambled else scrambled + 0x1_0000_0000 - 2;
    h - h % 2
  }

  type Table<!K(==), !V> = seq<Entry<K, V>>

  // ---------- The representation invariant ----------

  /** Each of the first k slots of the path carries the collision bit, so no probe stops there. */
  ghost predicate Marked<K, V>(t: Table<K, V>, path: seq<nat>, k: nat)
    requires k <= |path|
  {
    forall j :: 0 <= j < k ==> path[j] < |t| && t[path[j]].HasCollision()
  }

  /** Slot i lies on the path and everything before it is marked. */
  ghost predicate Placed<K, V>(t: Table<K, V>, path: seq<nat>, i: nat) {
    exists k :: 0 <= k < |path| && path[k] == i && Marked(t, path, k)
  }

  ghost predicate AllPlaced<K, V>(t: Table<K, V>, lg: nat)
    requires lg <= HASH_BITS
  {
    forall i :: 0 <= i < |t| && t[i].IsLive() ==> Placed(t, Path(t[i].GetKeyHash(), lg), i)
  }

  ghost predicate WellHashed<K, V>(t: Table<K, V>, hash: K -> HashNumber) {
    forall i :: 0 <= i < |t| && t[i].IsLive() ==>
      t[i].mem.Some? && t[i].GetKeyHash() == PrepareHash(hash(t[i].mem.value.key))
  }

  ghost predicate UniqueKeys<K, V>(t: Table<K, V>) {
    forall i, j :: 0 <= i < j < |t| && t[i].IsLive() && t[j].IsLive() && t[i].mem.Some? && t[j].mem.Some? ==>
      t[i].mem.value.key != t[j].mem.value.key
  }

  ghost predicate HasMapping<K, V>(t: Table<K, V>, k: K, v: V) {
    exists i :: 0 <= i < |t| && t[i].Holds(k, v)
  }

  /** The live entries are exactly the pairs of the map. */
  ghost predicate Represents<K, V>(t: Table<K, V>, m: map<K, V>) {
    && (forall i :: 0 <= i < |t| && t[i].IsLive() && t[i].mem.Some? ==>
          t[i].mem.value.key in m && m[t[i].mem.value.key] == t[i].mem.value.value)
    && (forall k :: k in m ==> HasMapping(t, k, m[k]))
  }

  /** What holds of the entries wherever they lie: each hashed by its key, one per key of the map. */
  ghost predicate Stores<K, V>(t: Table<K, V>, hash: K -> HashNumber, m: map<K, V>) {
    WellHashed(t, hash) && UniqueKeys(t) && Represents(t, m)
  }

  /** The whole representation invariant, for a table of 2^lg slots. */
  ghost predicate Sound<K, V>(t: Table<K, V>, lg: nat, hash: K -> HashNumber, m: map<K, V>) {
    && lg <= HASH_BITS && |t| == Pow2(lg)
    && Stores(t, hash, m)
    && AllPlaced(t, lg)
  }

  lemma HolderOf<K, V>(t: Table<K, V>, m: map<K, V>, k: K) returns (i: nat)
    requires Represents(t, m) && k in m
    ensures i < |t| && t[i].Holds(k, m[k])
  {
    i :| 0 <= i < |t| && t[i].Holds(k, m[k]);
  }

  lemma LiveIsPresent<K, V>(t: Table<K, V>, hash: K -> HashNumber, m: map<K, V>, i: nat)
    requires Stores(t, hash, m) && i < |t| && t[i].IsLive()
    ensures t[i].mem.Some? && t[i].mem.value.key in m && m[t[i].mem.value.key] == t[i].mem.value.value
  {
  }

  ghost function LiveSlots<K, V>(t: Table<K, V>): set<nat> {
    set i | 0 <= i < |t| && t[i].IsLive()
  }

  ghost function RemovedSlots<K, V>(t: Table<K, V>): set<nat> {
    set i | 0 <= i < |t| && t[i].IsRemoved()
  }

  // ---------- Setting collision bits ----------

  /** t' is t with some live entries newly marked. */
  ghost predicate OnlyMarks<K, V>(t: Table<K, V>, t': Table<K, V>) {
    && |t| == |t'|
    && forall i :: 0 <= i < |t| ==> t'[i] == t[i] || (t[i].IsLive() && t'[i] == t[i].SetCollision())
  }

  lemma MarksKeepPlaced<K, V>(t: Table<K, V>, t': Table<K, V>, path: seq<nat>, i: nat)
    requires |t| == |t'|
    requires forall s :: 0 <= s < |t| && t[s].HasCollision() ==> t'[s].HasCollision()
    requires Placed(t, path, i)
    ensures Placed(t', path, i)
  {
    var k :| 0 <= k < |path| && path[k] == i && Marked(t, path, k);
    assert Marked(t', path, k);
  }

  lemma OnlyMarksKeepsPlaced<K, V>(t: Table<K, V>, t': Table<K, V>, lg: nat)
    requires lg <= HASH_BITS && OnlyMarks(t, t') && AllPlaced(t, lg)
    ensures AllPlaced(t', lg)
  {
    hide Path;
    forall i | 0 <= i < |t'| && t'[i].IsLive()
      ensures Placed(t', Path(t'[i].GetKeyHash(), lg), i)
    {
      assert t[i].IsLive() && t[i].GetKeyHash() == t'[i].GetKeyHash();
      MarksKeepPlaced(t, t', Path(t[i].GetKeyHash(), lg), i);
    }
  }

  lemma OnlyMarksKeepsStores<K, V>(t: Table<K, V>, t': Table<K, V>, hash: K -> HashNumber, m: map<K, V>)
    requires OnlyMarks(t, t') && Stores(t, hash, m)
    ensures Stores(t', hash, m)
  {
    SameMappingsUnderMarks(t, t');
    SameMappingsKeepStores(t, t', hash, m);
  }

  /** The two tables agree slot by slot on liveness, and on hash and memory where live. */
  ghost predicate SameMappings<K, V>(t: Table<K, V>, t': Table<K, V>) {
    && |t| == |t'|
    && (forall i :: 0 <= i < |t| ==> t[i].IsLive() == t'[i].IsLive())
    && (forall i :: 0 <= i < |t| && t[i].IsLive() ==> t[i].mem == t'[i].mem && t[i].GetKeyHash() == t'[i].GetKeyHash())
  }

  lemma SameMappingsUnderMarks<K, V>(t: Table<K, V>, t': Table<K, V>)
    requires OnlyMarks(t, t')
    ensures SameMappings(t, t')
  {
  }

  lemma SameMappingsKeepStores<K, V>(t: Table<K, V>, t': Table<K, V>, hash: K -> HashNumber, m: map<K, V>)
    requires SameMappings(t, t') && Stores(t, hash, m)
    ensures Stores(t', hash, m)
  {
    assert UniqueKeys(t');
    assert WellHashed(t', hash);
    SameMappingsRepresent(t, t', m);
  }

  lemma SameMappingsRepresent<K, V>(t: Table<K, V>, t': Table<K, V>, m: map<K, V>)
    requires SameMappings(t, t') && Represents(t, m)
    ensures Represents(t', m)
  {
    forall k | k in m
      ensures HasMapping(t', k, m[k])
    {
      var i := HolderOf(t, m, k);
      assert t'[i].Holds(k, m[k]);
    }
  }

  lemma OnlyMarksKeepsSlots<K, V>(t: Table<K, V>, t': Table<K, V>)
    requires OnlyMarks(t, t')
    ensures LiveSlots(t') == LiveSlots(t) && RemovedSlots(t') == RemovedSlots(t)
  {
  }

  // ---------- Destroying, storing and exchanging entries ----------

  /** What remove(Entry&) leaves behind: a tombstone on a collision path, else a free slot. */
  function Vacated<K, V>(e: Entry<K, V>): (r: Entry<K, V>) {
    if e.HasCollision() then RemovedEntry() else FreeEntry()
  }

  lemma RemoveKeepsPlaced<K, V>(t: Table<K, V>, i: nat, lg: nat)
    requires lg <= HASH_BITS && AllPlaced(t, lg) && i < |t|
    ensures AllPlaced(t[i := Vacated(t[i])], lg)
  {
    hide Path;
    var t' := t[i := Vacated(t[i])];
    forall s | 0 <= s < |t'| && t'[s].IsLive()
      ensures Placed(t', Path(t'[s].GetKeyHash(), lg), s)
    {
      MarksKeepPlaced(t, t', Path(t[s].GetKeyHash(), lg), s);
    }
  }

  lemma RemoveFromStores<K, V>(t: Table<K, V>, i: nat, hash: K -> HashNumber, m: map<K, V>)
    requires Stores(t, hash, m) && i < |t| && t[i].IsLive()
    ensures Stores(t[i := Vacated(t[i])], hash, m - {t[i].mem.value.key})
  {
    var t' := t[i := Vacated(t[i])];
    var m' := m - {t[i].mem.value.key};
    assert forall s :: 0 <= s < |t'| && t'[s].IsLive() ==> s != i && t'[s] == t[s];
    forall k | k in m'
      ensures HasMapping(t', k, m'[k])
    {
      var s := HolderOf(t, m, k);
      assert t'[s].Holds(k, m'[k]);
    }
  }

  /** Filling a slot that is not live; a recycled tombstone keeps its collision bit. */
  lemma StoreKeepsPlaced<K, V>(t: Table<K, V>, i: nat, e: Entry<K, V>, lg: nat)
    requires lg <= HASH_BITS && AllPlaced(t, lg) && i < |t|
    requires !t[i].IsLive() && e.IsLive() && (t[i].IsRemoved() ==> e.HasCollision())
    requires Placed(t, Path(e.GetKeyHash(), lg), i)
    ensures AllPlaced(t[i := e], lg)
  {
    hide Path;
    var t' := t[i := e];
    forall s | 0 <= s < |t'| && t'[s].IsLive()
      ensures Placed(t', Path(t'[s].GetKeyHash(), lg), s)
    {
      MarksKeepPlaced(t, t', Path(t'[s].GetKeyHash(), lg), s);
    }
  }

  lemma AddToStores<K, V>(t: Table<K, V>, i: nat, e: Entry<K, V>, hash: K -> HashNumber, m: map<K, V>)
    requires Stores(t, hash, m) && i < |t|
    requires !t[i].IsLive() && e.IsLive() && e.mem.Some? && e.mem.value.key !in m
    requires e.GetKeyHash() == PrepareHash(hash(e.mem.value.key))
    ensures Stores(t[i := e], hash, m[e.mem.value.key := e.mem.value.value])
  {
    var t' := t[i := e];
    var m' := m[e.mem.value.key := e.mem.value.value];
    forall k | k in m'
      ensures HasMapping(t', k, m'[k])
    {
      if k == e.mem.value.key {
        assert t'[i].Holds(k, m'[k]);
      } else {
        var s := HolderOf(t, m, k);
        assert t'[s].Holds(k, m'[k]);
      }
    }
  }

  function WithValue<K, V>(e: Entry<K, V>, v: V): Entry<K, V>
    requires e.mem.Some?
  {
    e.(mem := Some(e.mem.value.(value := v)))
  }

  lemma OverwriteInStores<K, V>(t: Table<K, V>, i: nat, v: V, hash: K -> HashNumber, m: map<K, V>)
    requires Stores(t, hash, m) && i < |t| && t[i].IsLive()
    ensures Stores(t[i := WithValue(t[i], v)], hash, m[t[i].mem.value.key := v])
  {
    var t' := t[i := WithValue(t[i], v)];
    var m' := m[t[i].mem.value.key := v];
    forall k | k in m'
      ensures HasMapping(t', k, m'[k])
    {
      if k == t[i].mem.value.key {
        assert t'[i].Holds(k, m'[k]);
      } else {
        var s := HolderOf(t, m, k);
        assert t'[s].Holds(k, m'[k]);
      }
    }
  }

  lemma OverwriteKeepsPlaced<K, V>(t: Table<K, V>, i: nat, v: V, lg: nat)
    requires lg <= HASH_BITS && AllPlaced(t, lg) && i < |t| && t[i].mem.Some?
    ensures AllPlaced(t[i := WithValue(t[i], v)], lg)
  {
    hide Path;
    var t' := t[i := WithValue(t[i], v)];
    forall s | 0 <= s < |t'| && t'[s].IsLive()
      ensures Placed(t', Path(t'[s].GetKeyHash(), lg), s)
    {
      MarksKeepPlaced(t, t', Path(t[s].GetKeyHash(), lg), s);
    }
  }

  // ---------- Counting slots ----------

  lemma VacateSlots<K, V>(t: Table<K, V>, i: nat)
    requires i < |t| && t[i].IsLive()
    ensures |LiveSlots(t[i := Vacated(t[i])])| == |LiveSlots(t)| - 1
    ensures |RemovedSlots(t[i := Vacated(t[i])])| == |RemovedSlots(t)| + (if t[i].HasCollision() then 1 else 0)
  {
    var t' := t[i := Vacated(t[i])];
    assert LiveSlots(t') == LiveSlots(t) - {i};
    assert RemovedSlots(t') == if t[i].HasCollision() then RemovedSlots(t) + {i} else RemovedSlots(t);
  }

  lemma FillSlots<K, V>(t: Table<K, V>, i: nat, e: Entry<K, V>)
    requires i < |t| && !t[i].IsLive() && e.IsLive()
    ensures |LiveSlots(t[i := e])| == |LiveSlots(t)| + 1
    ensures RemovedSlots(t[i := e]) == RemovedSlots(t) - {i}
    ensures |RemovedSlots(t[i := e])| == |RemovedSlots(t)| - (if t[i].IsRemoved() then 1 else 0)
  {
    assert LiveSlots(t[i := e]) == LiveSlots(t) + {i};
    assert RemovedSlots(t[i := e]) == RemovedSlots(t) - {i};
  }

  lemma RemovedIsCounted<K, V>(t: Table<K, V>, i: nat)
    requires i < |t| && t[i].IsRemoved()
    ensures |RemovedSlots(t)| >= 1
  {
    assert i in RemovedSlots(t);
  }

  /** Slots outside a set too small to hold them all exist. */
  lemma SomeSlotOutside(n: nat, s: set<nat>) returns (i: nat)
    requires |s| < n
    ensures i < n && i !in s
  {
    if forall i :: i in Below(n) ==> i in s {
      SubsetIsNoLarger(Below(n), s);
    }
    i :| i in Below(n) && i !in s;
  }

  lemma FreeSlotExists<K, V>(t: Table<K, V>) returns (i: nat)
    requires |LiveSlots(t)| + |RemovedSlots(t)| < |t|
    ensures i < |t| && t[i].IsFree()
  {
    i := SomeSlotOutside(|t|, LiveSlots(t) + RemovedSlots(t));
  }

  lemma VacantSlotExists<K, V>(t: Table<K, V>) returns (i: nat)
    requires |LiveSlots(t)| < |t|
    ensures i < |t| && !t[i].IsLive()
  {
    i := SomeSlotOutside(|t|, LiveSlots(t));
  }

  // ---------- What a probe concludes ----------

  /** The first k slots of the path are neither free nor a match for l. */
  ghost predicate Skipped<K, V>(t: Table<K, V>, path: seq<nat>, k: nat, h: HashNumber, l: K)
    requires k <= |path| && h > REMOVED_KEY
  {
    forall j :: 0 <= j < k ==> path[j] < |t| && !t[path[j]].IsFree() && !t[path[j]].Matches(h, l)
  }

  lemma PresentKeyIsPlaced<K, V>(t: Table<K, V>, lg: nat, hash: K -> HashNumber, m: map<K, V>, l: K) returns (d: nat)
    requires Sound(t, lg, hash, m) && l in m
    ensures d < Pow2(lg)
    ensures var path := Path(PrepareHash(hash(l)), lg); Marked(t, path, d) && path[d] < |t| && t[path[d]].Holds(l, m[l])
  {
    hide Path;
    var i :| 0 <= i < |t| && t[i].Holds(l, m[l]);
    var path := Path(PrepareHash(hash(l)), lg);
    assert Placed(t, path, i);
    d :| 0 <= d < |path| && path[d] == i && Marked(t, path, d);
  }

  /** A probe that reaches a free slot without a match has shown that the key is absent. */
  lemma MissMeansAbsent<K, V>(t: Table<K, V>, lg: nat, hash: K -> HashNumber, m: map<K, V>, l: K, k: nat)
    requires Sound(t, lg, hash, m) && k < Pow2(lg)
    requires var path := Path(PrepareHash(hash(l)), lg);
             path[k] < |t| && t[path[k]].IsFree() && Skipped(t, path, k, PrepareHash(hash(l)), l)
    ensures l !in m
  {
    hide Path;
    if l in m {
      var d := PresentKeyIsPlaced(t, lg, hash, m, l);
    }
  }

  /** An entry matching l carries the value the map gives l. */
  lemma HitMeansPresent<K, V>(t: Table<K, V>, hash: K -> HashNumber, m: map<K, V>, l: K, i: nat)
    requires Stores(t, hash, m) && i < |t| && t[i].Matches(PrepareHash(hash(l)), l)
    ensures l in m && t[i].Holds(l, m[l])
  {
  }

  lemma MarkOne<K, V>(t: Table<K, V>, t': Table<K, V>, i: nat)
    requires OnlyMarks(t, t') && i < |t'| && t'[i].IsLive()
    ensures OnlyMarks(t, t'[i := t'[i].SetCollision()])
  {
  }

  lemma MarkedGrows<K, V>(t: Table<K, V>, t': Table<K, V>, path: seq<nat>, k: nat)
    requires k < |path| && |t| == |t'| && Marked(t, path, k)
    requires forall s :: 0 <= s < |t| && t[s].HasCollision() ==> t'[s].HasCollision()
    requires path[k] < |t'| && t'[path[k]].HasCollision()
    ensures Marked(t', path, k + 1)
  {
  }

  // ---------- Each change of one slot, on the whole invariant ----------

  lemma MarkKeepsSound<K, V>(t: Table<K, V>, t': Table<K, V>, lg: nat, hash: K -> HashNumber, m: map<K, V>)
    requires Sound(t, lg, hash, m) && OnlyMarks(t, t')
    ensures Sound(t', lg, hash, m)
    ensures LiveSlots(t') == LiveSlots(t) && RemovedSlots(t') == RemovedSlots(t)
  {
    OnlyMarksKeepsStores(t, t', hash, m);
    OnlyMarksKeepsPlaced(t, t', lg);
  }

  lemma RemoveKeepsSound<K, V>(t: Table<K, V>, i: nat, lg: nat, hash: K -> HashNumber, m: map<K, V>)
    requires Sound(t, lg, hash, m) && i < |t| && t[i].IsLive()
    ensures Sound(t[i := Vacated(t[i])], lg, hash, m - {t[i].mem.value.key})
    ensures |LiveSlots(t[i := Vacated(t[i])])| == |LiveSlots(t)| - 1
    ensures |RemovedSlots(t[i := Vacated(t[i])])| == |RemovedSlots(t)| + (if t[i].HasCollision() then 1 else 0)
  {
    RemoveFromStores(t, i, hash, m);
    RemoveKeepsPlaced(t, i, lg);
    VacateSlots(t, i);
  }

  lemma AddKeepsSound<K, V>(t: Table<K, V>, i: nat, e: Entry<K, V>, lg: nat, hash: K -> HashNumber, m: map<K, V>)
    requires Sound(t, lg, hash, m) && i < |t| && !t[i].IsLive()
    requires e.IsLive() && e.mem.Some? && e.mem.value.key !in m && (t[i].IsRemoved() ==> e.HasCollision())
    requires e.GetKeyHash() == PrepareHash(hash(e.mem.value.key))
    requires Placed(t, Path(e.GetKeyHash(), lg), i)
    ensures Sound(t[i := e], lg, hash, m[e.mem.value.key := e.mem.value.value])
    ensures |LiveSlots(t[i := e])| == |LiveSlots(t)| + 1
    ensures |RemovedSlots(t[i := e])| == |RemovedSlots(t)| - (if t[i].IsRemoved() then 1 else 0)
  {
    AddToStores(t, i, e, hash, m);
    StoreKeepsPlaced(t, i, e, lg);
    FillSlots(t, i, e);
  }

  lemma OverwriteKeepsSound<K, V>(t: Table<K, V>, i: nat, v: V, lg: nat, hash: K -> HashNumber, m: map<K, V>)
    requires Sound(t, lg, hash, m) && i < |t| && t[i].IsLive()
    ensures Sound(t[i := WithValue(t[i], v)], lg, hash, m[t[i].mem.value.key := v])
    ensures LiveSlots(t[i := WithValue(t[i], v)]) == LiveSlots(t)
    ensures RemovedSlots(t[i := WithValue(t[i], v)]) == RemovedSlots(t)
  {
    OverwriteInStores(t, i, v, hash, m);
    OverwriteKeepsPlaced(t, i, v, lg);
  }

  /** Every mapping of t' was already in the same slot of t, or is the one given. */
  ghost predicate OnlyAdds<K, V>(t: Table<K, V>, t': Table<K, V>, k: K, v: V) {
    && |t| == |t'|
    && forall s :: 0 <= s < |t'| && t'[s].IsLive() ==>
         (t[s].IsLive() && t'[s].mem == t[s].mem) || t'[s].mem == Some(Mapping(k, v))
  }
}
