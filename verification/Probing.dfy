/**
 Double hashing over a power-of-two capacity, as in the probe loops of
 js/public/HashTable.h. A shift to the left or right is a multiplication or
 division by a power of two, cut to 32 bits where the machine cuts it.
 */
module Probing {
  import opened Powers

  type HashNumber = h: int | 0 <= h < 0x1_0000_0000 witness 0

  const HASH_BITS: nat := 32

  /** hash1: the top lg bits of the hash. */
  function PrimarySlot(h: HashNumber, lg: nat): nat
    requires lg <= HASH_BITS
  {
    QuotientIsNat(h, Pow2(HASH_BITS - lg));
    h / Pow2(HASH_BITS - lg)
  }

  /** hash2: the next lg bits, forced odd. */
  function Stride(h: HashNumber, lg: nat): nat
    requires lg <= HASH_BITS
  {
    var cut := (h * Pow2(lg)) % 0x1_0000_0000;
    QuotientIsNat(cut, Pow2(HASH_BITS - lg));
    var shifted := cut / Pow2(HASH_BITS - lg);
    shifted - shifted % 2 + 1
  }

  /** applyDoubleHash: one step down the probe path, in a table of m slots. */
  function NextSlot(slot: nat, stride: nat, m: nat): nat
    requires m > 0
  {
    (slot - stride) % m
  }

  /** The first n slots inspected when a probe starts at the given slot. */
  ghost function PathFrom(slot: nat, stride: nat, m: nat, n: nat): (path: seq<nat>)
    requires m > 0
    ensures |path| == n
    decreases n
  {
    if n == 0 then [] else [slot] + PathFrom(NextSlot(slot, stride, m), stride, m, n - 1)
  }

  /** One full round of the probe path of a hash. */
  ghost function Path(h: HashNumber, lg: nat): (path: seq<nat>)
    requires lg <= HASH_BITS
    ensures |path| == Pow2(lg)
  {
    PathFrom(PrimarySlot(h, lg), Stride(h, lg), Pow2(lg), Pow2(lg))
  }

  /** A path that inspects each of n slots exactly once. */
  ghost predicate IsRound(path: seq<nat>, n: nat) {
    && |path| == n
    && (forall j :: 0 <= j < n ==> path[j] < n)
    && (forall j, k :: 0 <= j < k < n ==> path[j] != path[k])
  }

  lemma PrimarySlotInRange(h: HashNumber, lg: nat)
    requires lg <= HASH_BITS
    ensures PrimarySlot(h, lg) < Pow2(lg)
  {
    Pow2Sum(lg, HASH_BITS - lg);
    Pow2Of32();
    QuotientBound(h, Pow2(lg), Pow2(HASH_BITS - lg));
  }

  /** The first hash is what the top lg bits say, and the second the lg bits below them, with the lowest set. */
  lemma HashesReadBits(h: HashNumber, lg: nat, x: nat)
    requires lg <= HASH_BITS
    ensures PrimarySlot(h, lg) == x <==> x * Pow2(HASH_BITS - lg) <= h < (x + 1) * Pow2(HASH_BITS - lg)
    ensures x * Pow2(HASH_BITS - lg) <= (h * Pow2(lg)) % 0x1_0000_0000 < (x + 1) * Pow2(HASH_BITS - lg) ==>
              Stride(h, lg) == if x % 2 == 1 then x else x + 1
  {
    hide Pow2;
    var cut := (h * Pow2(lg)) % 0x1_0000_0000;
    QuotientBetween(h, Pow2(HASH_BITS - lg), x);
    QuotientBetween(cut, Pow2(HASH_BITS - lg), x);
  }

  lemma QuotientBetween(x: nat, m: int, q: int)
    requires m > 0
    ensures x / m == q <==> q * m <= x < (q + 1) * m
  {
    assert x == x / m * m + x % m;
    assert (q + 1) * m == q * m + m;
    if q * m <= x < (q + 1) * m {
      RemainderIsUnique(x, m, q, x - q * m);
    }
  }

  lemma StrideIsOdd(h: HashNumber, lg: nat)
    requires lg <= HASH_BITS
    ensures Stride(h, lg) % 2 == 1
  {
  }

  /** Successive slots of a path are one step apart. */
  lemma {:induction false} PathSteps(slot: nat, stride: nat, m: nat, n: nat, k: nat)
    requires m > 0 && k < n
    ensures PathFrom(slot, stride, m, n)[0] == slot
    ensures k + 1 < n ==>
      PathFrom(slot, stride, m, n)[k + 1] == NextSlot(PathFrom(slot, stride, m, n)[k], stride, m)
    decreases n
  {
    if k == 0 || k + 1 >= n {
    } else {
      PathSteps(NextSlot(slot, stride, m), stride, m, n - 1, k - 1);
    }
  }

  /** The k-th slot in closed form. */
  lemma {:induction false} PathClosedForm(slot: nat, stride: nat, m: nat, n: nat, k: nat)
    requires m > 0 && slot < m && k < n
    ensures PathFrom(slot, stride, m, n)[k] == (slot - k * stride) % m
    decreases n
  {
    if k == 0 {
      RemainderIsUnique(slot, m, 0, slot);
    } else {
      PathClosedForm(NextSlot(slot, stride, m), stride, m, n - 1, k - 1);
      StepFirst(slot, k, stride, m);
    }
  }

  lemma StepFirst(slot: int, k: nat, s: int, m: int)
    requires m > 0 && k > 0
    ensures ((slot - s) % m - (k - 1) * s) % m == (slot - k * s) % m
  {
    assert slot - s - (k - 1) * s == slot - k * s;
    SubtractUnderRemainder(slot - s, (k - 1) * s, m);
  }

  lemma SubtractUnderRemainder(x: int, s: int, m: int)
    requires m > 0
    ensures (x % m - s) % m == (x - s) % m
  {
    var y := x % m - s;
    assert x == x / m * m + x % m;
    assert y == y / m * m + y % m;
    assert x - s == (x / m + y / m) * m + y % m;
    RemainderIsUnique(x - s, m, x / m + y / m, y % m);
  }

  /** An odd stride does not return to a slot within one round. */
  lemma DistinctMultiples(first: int, s: int, lg: nat, j: nat, k: nat)
    requires s % 2 == 1 && j < k < Pow2(lg)
    ensures (first - j * s) % Pow2(lg) != (first - k * s) % Pow2(lg)
  {
    var m := Pow2(lg);
    if (first - j * s) % m == (first - k * s) % m {
      var q := RemaindersDifferByMultiple(first - j * s, first - k * s, m);
      assert (k - j) * s == q * m;
      OddFactorDropsOut(k - j, s, lg, q);
      var c :| k - j == c * m;
      SmallMultipleIsZero(c, m);
    }
  }

  /** For every capacity and hash, a probe inspects each slot exactly once per round. */
  lemma PathIsRound(h: HashNumber, lg: nat)
    requires lg <= HASH_BITS
    ensures IsRound(Path(h, lg), Pow2(lg))
  {
    var first, s, m := PrimarySlot(h, lg), Stride(h, lg), Pow2(lg);
    PrimarySlotInRange(h, lg);
    StrideIsOdd(h, lg);
    OddStrideIsRound(first, s, lg);
  }

  lemma OddStrideIsRound(first: nat, s: nat, lg: nat)
    requires s % 2 == 1 && first < Pow2(lg)
    ensures IsRound(PathFrom(first, s, Pow2(lg), Pow2(lg)), Pow2(lg))
  {
    var m := Pow2(lg);
    var path := PathFrom(first, s, m, m);
    forall j | 0 <= j < m
      ensures path[j] < m
    {
      PathClosedForm(first, s, m, m, j);
    }
    forall j, k | 0 <= j < k < m
      ensures path[j] != path[k]
    {
      PathClosedForm(first, s, m, m, j);
      PathClosedForm(first, s, m, m, k);
      DistinctMultiples(first, s, lg, j, k);
    }
  }

  /** A round reaches every slot: distinct slots, as many as the table has. */
  lemma RoundCovers(path: seq<nat>, n: nat, slot: nat) returns (k: nat)
    requires IsRound(path, n) && slot < n
    ensures k < n && path[k] == slot
  {
    PrefixSize(path, n, n);
    EqualSizedSubset(Slots(path, n), Below(n));
    assert slot in Slots(path, n);
    k :| 0 <= k < n && path[k] == slot;
  }

  /** The slots among the first k of a path. */
  ghost function Slots(path: seq<nat>, k: nat): set<nat>
    requires k <= |path|
  {
    set j | 0 <= j < k :: path[j]
  }

  lemma {:induction false} PrefixSize(path: seq<nat>, n: nat, k: nat)
    requires IsRound(path, n) && k <= n
    ensures |Slots(path, k)| == k
    ensures Slots(path, k) <= Below(n)
  {
    if k == 0 {
    } else {
      PrefixSize(path, n, k - 1);
      assert Slots(path, k) == Slots(path, k - 1) + {path[k - 1]};
    }
  }

  ghost function Below(n: nat): (s: set<nat>)
    ensures |s| == n
    ensures forall i :: i in s <==> 0 <= i < n
  {
    if n == 0 then {} else Below(n - 1) + {n - 1}
  }

  lemma EqualSizedSubset<T>(a: set<T>, b: set<T>)
    requires a <= b && |a| == |b|
    ensures a == b
  {
    if a != b {
      var x :| x in b && x !in a;
      SubsetIsNoLarger(a, b - {x});
    }
  }

  lemma {:induction false} SubsetIsNoLarger<T>(a: set<T>, b: set<T>)
    requires a <= b
    ensures |a| <= |b|
    decreases b
  {
    if a == {} {
    } else {
      var x :| x in a;
      SubsetIsNoLarger(a - {x}, b - {x});
    }
  }
}
