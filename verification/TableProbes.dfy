/** The probe loops of js/public/HashTable.h, on the raw entry array. */
module TableProbes {
  import opened Options
  import opened Powers
  import opened Probing
  import opened TableModel

  /** The table a probe of d steps leaves: with the collision bit asked for, the live entries on the way are marked. */
  ghost predicate ProbeMarks<K, V>(t: Table<K, V>, t': Table<K, V>, path: seq<nat>, d: nat, collisionBit: bool)
    requires d <= |path|
  {
    if collisionBit then OnlyMarks(t, t') && Marked(t', path, d) else t' == t
  }

  /** Marking neither frees a slot nor changes which keys it matches. */
  lemma MarksHideNothing<K, V>(t: Table<K, V>, t': Table<K, V>, path: seq<nat>, d: nat, collisionBit: bool,
                               i: nat, h: HashNumber, l: K)
    requires d <= |path| && ProbeMarks(t, t', path, d, collisionBit) && i < |t'| && h > REMOVED_KEY
    ensures |t| == |t'| && t[i].IsFree() == t'[i].IsFree() && t[i].Matches(h, l) == t'[i].Matches(h, l)
    ensures t[i].IsRemoved() == t'[i].IsRemoved()
  {
  }

  lemma SkipOne<K, V>(t: Table<K, V>, path: seq<nat>, k: nat, h: HashNumber, l: K)
    requires h > REMOVED_KEY && k < |path| && Skipped(t, path, k, h, l)
    requires path[k] < |t| && !t[path[k]].IsFree() && !t[path[k]].Matches(h, l)
    ensures Skipped(t, path, k + 1, h, l)
  {
  }

  method MarkIfLive<K, V>(a: array<Entry<K, V>>, slot: nat, collisionBit: bool,
                          ghost t: Table<K, V>, ghost path: seq<nat>, ghost k: nat)
    requires slot < a.Length && !a[slot].IsFree()
    requires k < |path| && path[k] == slot && ProbeMarks(t, a[..], path, k, collisionBit)
    modifies if collisionBit then {a} else {}
    ensures ProbeMarks(t, a[..], path, k + 1, collisionBit)
  {
    ghost var before := a[..];
    if !a[slot].IsRemoved() && collisionBit {
      a[slot] := a[slot].SetCollision();
      assert a[..] == before[slot := before[slot].SetCollision()];
      MarkOne(t, before, slot);
    }
    if collisionBit {
      MarkedGrows(before, a[..], path, k);
    }
  }

  /** A round of m slots, one stride apart. */
  ghost predicate IsProbe(path: seq<nat>, stride: nat, m: nat) {
    m > 0 && IsRound(path, m) && path == PathFrom(path[0], stride, m, m)
  }

  method ApplyDoubleHash(slot: nat, stride: nat, m: nat, ghost path: seq<nat>, ghost k: nat) returns (next: nat)
    requires IsProbe(path, stride, m) && k + 1 < m && slot == path[k]
    ensures next == path[k + 1]
  {
    PathSteps(path[0], stride, m, m, k);
    next := NextSlot(slot, stride, m);
  }

  method StartProbe(keyHash: HashNumber, hashShift: nat) returns (slot: nat, stride: nat, ghost path: seq<nat>)
    requires hashShift <= HASH_BITS
    ensures path == Path(keyHash, HASH_BITS - hashShift) && path[0] == slot
    ensures IsProbe(path, stride, Pow2(HASH_BITS - hashShift))
  {
    ghost var m := Pow2(HASH_BITS - hashShift);
    slot := PrimarySlot(keyHash, HASH_BITS - hashShift);
    stride := Stride(keyHash, HASH_BITS - hashShift);
    path := Path(keyHash, HASH_BITS - hashShift);
    PathIsRound(keyHash, HASH_BITS - hashShift);
    PathSteps(slot, stride, m, m, 0);
  }

  /** The first tombstone on the path lies r steps down. */
  ghost predicate FirstRemoved<K, V>(t: Table<K, V>, path: seq<nat>, r: nat) {
    && r < |path| && path[r] < |t| && t[path[r]].IsRemoved()
    && NoneRemoved(t, path, r)
  }

  ghost predicate NoneRemoved<K, V>(t: Table<K, V>, path: seq<nat>, n: nat) {
    forall q :: 0 <= q < n && q < |path| && path[q] < |t| ==> !t[path[q]].IsRemoved()
  }

  /** After d steps without a match: the first tombstone passed, or the free slot reached. */
  ghost predicate Offered<K, V>(t: Table<K, V>, path: seq<nat>, d: nat, slot: nat)
    requires d < |path|
  {
    || (NoneRemoved(t, path, d) && slot == path[d])
    || exists r :: 0 <= r < d && FirstRemoved(t, path, r) && slot == path[r]
  }

  /** A probe that stops after skipping d slots, at a match or at a free slot, offering instead of the latter the first tombstone passed before. */
  ghost predicate ProbeStops<K, V>(t: Table<K, V>, path: seq<nat>, d: nat, slot: nat, h: HashNumber, l: K)
    requires h > REMOVED_KEY
  {
    && d < |path| && path[d] < |t|
    && Skipped(t, path, d, h, l)
    && (t[path[d]].Matches(h, l) || t[path[d]].IsFree())
    && (t[path[d]].Matches(h, l) ==> slot == path[d])
    && (t[path[d]].IsFree() ==> Offered(t, path, d, slot))
  }

  /** The loop of lookup, from a primary slot that is neither free nor a match. */
  method ProbeOn<K(==), V>(a: array<Entry<K, V>>, start: nat, stride: nat, keyHash: HashNumber, l: K, collisionBit: bool,
                           ghost path: seq<nat>, ghost last: nat)
    returns (slot: nat, ghost d: nat)
    requires keyHash > REMOVED_KEY
    requires IsProbe(path, stride, a.Length) && path[0] == start
    requires Skipped(a[..], path, 1, keyHash, l)
    requires last < a.Length && a[path[last]].IsFree()
    modifies if collisionBit then {a} else {}
    ensures d < a.Length && ProbeMarks(old(a[..]), a[..], path, d, collisionBit)
    ensures ProbeStops(old(a[..]), path, d, slot, keyHash, l)
  {
    ghost var t := a[..];
    ghost var k := 0;
    slot := start;
    var firstRemoved: Option<nat> := None;
    while true
      invariant k <= last && slot == path[k]
      invariant ProbeMarks(t, a[..], path, k, collisionBit)
      invariant Skipped(t, path, k + 1, keyHash, l)
      invariant match firstRemoved
                case None => NoneRemoved(t, path, k)
                case Some(slot) => exists r :: 0 <= r < k && FirstRemoved(t, path, r) && slot == path[r]
      decreases last - k
    {
      MarksHideNothing(t, a[..], path, k, collisionBit, slot, keyHash, l);
      if a[slot].IsRemoved() && firstRemoved.None? {
        firstRemoved := Some(slot);
        assert FirstRemoved(t, path, k);
      }
      MarkIfLive(a, slot, collisionBit, t, path, k);
      slot := ApplyDoubleHash(slot, stride, a.Length, path, k);
      k := k + 1;
      MarksHideNothing(t, a[..], path, k, collisionBit, slot, keyHash, l);
      if a[slot].IsFree() {
        d := k;
        if firstRemoved.Some? {
          slot := firstRemoved.value;
        }
        return;
      }
      if a[slot].Matches(keyHash, l) {
        d := k;
        return;
      }
      SkipOne(t, path, k, keyHash, l);
    }
  }

  /** findFreeEntry: mark live entries down the path until a slot that is not live. */
  method FindFreeEntry<K, V>(a: array<Entry<K, V>>, hashShift: nat, keyHash: HashNumber, ghost vacant: nat)
    returns (slot: nat)
    requires hashShift <= HASH_BITS && a.Length == Pow2(HASH_BITS - hashShift)
    requires vacant < a.Length && !a[vacant].IsLive()
    modifies a
    ensures OnlyMarks(old(a[..]), a[..])
    ensures slot < a.Length && !a[slot].IsLive()
    ensures Placed(a[..], Path(keyHash, HASH_BITS - hashShift), slot)
  {
    ghost var t := a[..];
    ghost var path, k := [], 0;
    var stride;
    slot, stride, path := StartProbe(keyHash, hashShift);
    ghost var last := RoundCovers(path, a.Length, vacant);
    while a[slot].IsLive()
      invariant k <= last && slot == path[k]
      invariant ProbeMarks(t, a[..], path, k, true)
      invariant !a[vacant].IsLive()
      decreases last - k
    {
      MarkIfLive(a, slot, true, t, path, k);
      MarksKeepVacant(t, a[..], vacant);
      slot := ApplyDoubleHash(slot, stride, a.Length, path, k);
      k := k + 1;
    }
  }

  lemma MarksKeepVacant<K, V>(t: Table<K, V>, t': Table<K, V>, i: nat)
    requires OnlyMarks(t, t') && i < |t|
    ensures t[i].IsLive() == t'[i].IsLive()
  {
  }

  /** lookup: the slot it returns, and the step d at which it stopped. */
  method Probe<K(==), V>(a: array<Entry<K, V>>, hashShift: nat, keyHash: HashNumber, l: K, collisionBit: bool, ghost free: nat)
    returns (slot: nat, ghost path: seq<nat>, ghost d: nat)
    requires hashShift <= HASH_BITS && a.Length == Pow2(HASH_BITS - hashShift) && keyHash > REMOVED_KEY
    requires free < a.Length && a[free].IsFree()
    modifies if collisionBit then {a} else {}
    ensures path == Path(keyHash, HASH_BITS - hashShift) && IsRound(path, a.Length)
    ensures d < a.Length && ProbeMarks(old(a[..]), a[..], path, d, collisionBit)
    ensures ProbeStops(old(a[..]), path, d, slot, keyHash, l)
  {
    var stride;
    slot, stride, path := StartProbe(keyHash, hashShift);
    d := 0;
    if a[slot].IsFree() || a[slot].Matches(keyHash, l) {
      return;
    }
    SkipOne(a[..], path, 0, keyHash, l);
    ghost var last := RoundCovers(path, a.Length, free);
    slot, d := ProbeOn(a, slot, stride, keyHash, l, collisionBit, path, last);
  }

  /** What a probe for l concludes about the map the table stands for. */
  lemma ProbeResult<K, V>(t: Table<K, V>, t': Table<K, V>, lg: nat, hash: K -> HashNumber, m: map<K, V>, l: K,
                          path: seq<nat>, d: nat, slot: nat, collisionBit: bool)
    requires Sound(t, lg, hash, m) && path == Path(PrepareHash(hash(l)), lg) && IsRound(path, |t|) && d < |t|
    requires ProbeMarks(t, t', path, d, collisionBit) && ProbeStops(t, path, d, slot, PrepareHash(hash(l)), l)
    ensures Sound(t', lg, hash, m) && LiveSlots(t') == LiveSlots(t) && RemovedSlots(t') == RemovedSlots(t)
    ensures slot < |t'|
    ensures l in m ==> t'[slot].Holds(l, m[l])
    ensures l !in m ==> !t'[slot].IsLive()
    ensures l !in m && collisionBit ==> Placed(t', path, slot)
  {
    hide Path, AllPlaced;
    OnlyMarksIfProbed(t, t', path, d, collisionBit);
    MarkKeepsSound(t, t', lg, hash, m);
    if t[path[d]].IsFree() {
      MissMeansAbsent(t, lg, hash, m, l, d);
      if collisionBit {
        VacancyIsPlaced(t, t', path, d, slot, PrepareHash(hash(l)), l);
      }
    } else {
      HitMeansPresent(t, hash, m, l, slot);
    }
  }

  lemma OnlyMarksIfProbed<K, V>(t: Table<K, V>, t': Table<K, V>, path: seq<nat>, d: nat, collisionBit: bool)
    requires d <= |path| && ProbeMarks(t, t', path, d, collisionBit)
    ensures OnlyMarks(t, t')
  {
  }

  lemma VacancyIsPlaced<K, V>(t: Table<K, V>, t': Table<K, V>, path: seq<nat>, d: nat, slot: nat, h: HashNumber, l: K)
    requires h > REMOVED_KEY && d < |path| && ProbeMarks(t, t', path, d, true)
    requires ProbeStops(t, path, d, slot, h, l) && t[path[d]].IsFree() && !t[path[d]].Matches(h, l)
    ensures Placed(t', path, slot)
  {
    if slot == path[d] {
      assert Marked(t', path, d);
    } else {
      var r :| 0 <= r < d && FirstRemoved(t, path, r) && slot == path[r];
      assert Marked(t', path, r);
    }
  }

  /** lookup on a sound table: it finds l, or a slot where l may be added. */
  method ProbeFor<K(==), V>(a: array<Entry<K, V>>, hashShift: nat, ghost hash: K -> HashNumber, ghost m: map<K, V>,
                          l: K, keyHash: HashNumber, collisionBit: bool)
    returns (slot: nat)
    requires hashShift <= HASH_BITS && Sound(a[..], HASH_BITS - hashShift, hash, m)
    requires keyHash == PrepareHash(hash(l))
    requires |LiveSlots(a[..])| + |RemovedSlots(a[..])| < a.Length
    modifies if collisionBit then {a} else {}
    ensures Sound(a[..], HASH_BITS - hashShift, hash, m)
    ensures LiveSlots(a[..]) == LiveSlots(old(a[..])) && RemovedSlots(a[..]) == RemovedSlots(old(a[..]))
    ensures slot < a.Length
    ensures l in m ==> a[slot].Holds(l, m[l])
    ensures l !in m ==> !a[slot].IsLive()
    ensures l !in m && collisionBit ==> Placed(a[..], Path(keyHash, HASH_BITS - hashShift), slot)
  {
    hide Path, Stores, AllPlaced, Placed, IsRound, ProbeMarks, ProbeStops;
    ghost var t := a[..];
    ghost var free := FreeSlotExists(t);
    ghost var path, d;
    slot, path, d := Probe(a, hashShift, keyHash, l, collisionBit, free);
    ProbeResult(t, a[..], HASH_BITS - hashShift, hash, m, l, path, d, slot, collisionBit);
  }
}
