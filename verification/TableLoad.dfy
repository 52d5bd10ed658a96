/** When the table of js/public/HashTable.h grows, compresses and shrinks. */
module TableLoad {
  import opened Powers

  const MIN_CAPACITY_LOG2: nat := 2
  const MIN_CAPACITY: nat := 4
  const CAP_BITS: nat := 30
  const MAX_INIT: nat := 0x2000_0000

  function MaxLoad(capacity: nat): nat { capacity * 3 / 4 }

  predicate Overloaded(entries: nat, removed: nat, capacity: nat) {
    entries + removed >= MaxLoad(capacity)
  }

  predicate WouldBeUnderloaded(capacity: nat, entries: nat) {
    capacity > MIN_CAPACITY && entries <= capacity * 1 / 4
  }

  predicate ShouldCompress(removed: nat, capacity: nat) {
    removed >= capacity / 4
  }

  lemma CapacityIsMultipleOfFour(lg: nat)
    requires lg >= MIN_CAPACITY_LOG2
    ensures Pow2(lg) % 4 == 0 && Pow2(lg) >= 4
  {
    assert Pow2(lg) == 4 * Pow2(lg - 2);
  }

  /** The three tests in numbers: three quarters full, a quarter full and not minimal, a quarter removed. */
  lemma LoadBounds(entries: nat, removed: nat, lg: nat)
    requires lg >= MIN_CAPACITY_LOG2
    ensures Overloaded(entries, removed, Pow2(lg)) <==> 4 * (entries + removed) >= 3 * Pow2(lg)
    ensures WouldBeUnderloaded(Pow2(lg), entries) <==> lg > 2 && 4 * entries <= Pow2(lg)
    ensures ShouldCompress(removed, Pow2(lg)) <==> 4 * removed >= Pow2(lg)
  {
    CapacityIsMultipleOfFour(lg);
    assert Pow2(2) == 4;
    if lg > 2 {
      CapacityIsMultipleOfFour(lg - 1);
    }
  }

  lemma LoadLeavesRoom(lg: nat)
    requires lg >= MIN_CAPACITY_LOG2
    ensures MaxLoad(Pow2(lg)) < Pow2(lg)
  {
    CapacityIsMultipleOfFour(lg);
  }

  /** The rebuild that checkOverloaded chooses leaves the table neither overloaded nor, when it grew, underloaded. */
  lemma RebuiltIsBalanced(entries: nat, removed: nat, lg: nat)
    requires lg >= MIN_CAPACITY_LOG2 && Overloaded(entries, removed, Pow2(lg))
    requires entries <= MaxLoad(Pow2(lg))
    ensures !ShouldCompress(removed, Pow2(lg)) ==>
      !Overloaded(entries, 0, Pow2(lg + 1)) && !WouldBeUnderloaded(Pow2(lg + 1), entries)
    ensures ShouldCompress(removed, Pow2(lg)) && entries + removed <= MaxLoad(Pow2(lg)) ==>
      !Overloaded(entries, 0, Pow2(lg))
  {
    CapacityIsMultipleOfFour(lg);
  }

  /** An overloaded table that is not compressed is more than half full of live entries. */
  lemma TooFullToGrow(entries: nat, removed: nat, lg: nat)
    requires lg >= MIN_CAPACITY_LOG2 && Overloaded(entries, removed, Pow2(lg)) && !ShouldCompress(removed, Pow2(lg))
    ensures 2 * entries > Pow2(lg)
    ensures lg == CAP_BITS ==> entries > MAX_INIT
  {
    CapacityIsMultipleOfFour(lg);
    Pow2Of30();
  }

  // ---------- init ----------

  /** ceil(length / max-alpha), at least the minimum. */
  function WantedCapacity(length: nat): nat {
    var c := (length * 4 + 3 - 1) / 3;
    if c < MIN_CAPACITY then MIN_CAPACITY else c
  }

  /** The rounding loop of init. */
  method RoundUpCapacity(length: nat) returns (lg: nat)
    requires length <= MAX_INIT
    ensures MIN_CAPACITY_LOG2 <= lg <= CAP_BITS
    ensures Pow2(lg) >= WantedCapacity(length)
    ensures lg > MIN_CAPACITY_LOG2 ==> Pow2(lg - 1) < WantedCapacity(length)
  {
    assert Pow2(2) == 4;
    var wanted := WantedCapacity(length);
    var roundUp := MIN_CAPACITY;
    lg := MIN_CAPACITY_LOG2;
    while roundUp < wanted
      invariant MIN_CAPACITY_LOG2 <= lg && roundUp == Pow2(lg)
      invariant lg > MIN_CAPACITY_LOG2 ==> Pow2(lg - 1) < wanted
      decreases if roundUp < wanted then wanted - roundUp else 0
    {
      roundUp := 2 * roundUp;
      lg := lg + 1;
    }
    RoundUpFits(lg, length);
  }

  lemma RoundUpFits(lg: nat, length: nat)
    requires length <= MAX_INIT && lg >= MIN_CAPACITY_LOG2
    requires lg > MIN_CAPACITY_LOG2 ==> Pow2(lg - 1) < WantedCapacity(length)
    ensures lg <= CAP_BITS
  {
    if lg > CAP_BITS {
      Pow2Of30();
      if lg - 1 > 30 {
        Pow2Increases(30, lg - 1);
      }
    }
  }

  lemma Pow2Of30()
    ensures Pow2(30) == 0x4000_0000
  {
    assert Pow2(10) == 0x400;
    Pow2Sum(10, 10);
    Pow2Sum(20, 10);
  }

  /** No insertion of a new key into an empty table finds it overloaded until length are in. */
  ghost predicate InsertsWithoutRehash(length: nat, capacity: nat) {
    forall entries :: 0 <= entries < length ==> !Overloaded(entries, 0, capacity)
  }

  /** The capacity init picks lets length insertions finish without a rehash, and no smaller one does. */
  lemma InitialCapacityIsLeast(length: nat, lg: nat, other: nat)
    requires lg >= MIN_CAPACITY_LOG2 && other >= MIN_CAPACITY_LOG2
    requires Pow2(lg) >= WantedCapacity(length)
    requires lg > MIN_CAPACITY_LOG2 ==> Pow2(lg - 1) < WantedCapacity(length)
    ensures InsertsWithoutRehash(length, Pow2(other)) <==> other >= lg
  {
    CapacityIsMultipleOfFour(other);
    EnoughRoom(length, Pow2(other));
    if other < lg - 1 {
      Pow2Increases(other, lg - 1);
    } else if other > lg {
      Pow2Increases(lg, other);
    }
  }

  lemma EnoughRoom(length: nat, capacity: nat)
    requires capacity % 4 == 0 && capacity >= MIN_CAPACITY
    ensures InsertsWithoutRehash(length, capacity) <==> capacity >= WantedCapacity(length)
  {
    if MaxLoad(capacity) < length {
      assert Overloaded(MaxLoad(capacity), 0, capacity);
    }
  }

  // ---------- compactIfUnderloaded ----------

  /** Every capacity above 2^low, up to 2^high, is underloaded by the entries. */
  ghost predicate AllUnderloaded(low: nat, high: nat, entries: nat) {
    forall lg :: low < lg <= high ==> WouldBeUnderloaded(Pow2(lg), entries)
  }

  /** The largest capacity up to 2^from that the entries do not underload. */
  ghost predicate IsCompacted(from: nat, to: nat, entries: nat) {
    to <= from && !WouldBeUnderloaded(Pow2(to), entries) && AllUnderloaded(to, from, entries)
  }

  /** The shrinking loop: the largest smaller capacity that the entries do not underload. */
  method CompactedLog2(lg: nat, entries: nat) returns (newLg: nat)
    requires lg >= MIN_CAPACITY_LOG2 && entries <= MaxLoad(Pow2(lg))
    ensures MIN_CAPACITY_LOG2 <= newLg <= lg && entries <= MaxLoad(Pow2(newLg))
    ensures !WouldBeUnderloaded(Pow2(newLg), entries)
    ensures AllUnderloaded(newLg, lg, entries)
    ensures newLg < lg ==> !Overloaded(entries, 0, Pow2(newLg))
  {
    newLg := lg;
    while WouldBeUnderloaded(Pow2(newLg), entries)
      invariant MIN_CAPACITY_LOG2 <= newLg <= lg && entries <= MaxLoad(Pow2(newLg))
      invariant AllUnderloaded(newLg, lg, entries)
      invariant newLg < lg ==> !Overloaded(entries, 0, Pow2(newLg))
      decreases newLg
    {
      HalvedStillFits(newLg, entries);
      newLg := newLg - 1;
    }
  }

  lemma HalvedStillFits(lg: nat, entries: nat)
    requires lg >= MIN_CAPACITY_LOG2 && WouldBeUnderloaded(Pow2(lg), entries)
    ensures lg > MIN_CAPACITY_LOG2 && !Overloaded(entries, 0, Pow2(lg - 1))
  {
    assert Pow2(2) == 4;
    CapacityIsMultipleOfFour(lg);
    CapacityIsMultipleOfFour(lg - 1);
  }
}
