/** What closing an archive of config/MozZipFile.py does: the kept records move down over the removed ones. */
module ZipCompaction {
  import opened ZipArchives

  /** The entries are sorted by offset and begin by end. */
  ghost predicate Laid(all: seq<Entry>, end: nat) {
    Ascending(all) && forall i :: 0 <= i < |all| ==> all[i].info.offset <= end
  }

  /** Where the i-th entry begins, or where the last one ends. */
  function Start(all: seq<Entry>, end: nat, i: nat): nat {
    if i < |all| then all[i].info.offset else end
  }

  /** How many bytes the i-th entry is given: up to where the next begins. */
  function Slot(all: seq<Entry>, end: nat, i: nat): nat
    requires Laid(all, end) && i < |all|
  {
    Start(all, end, i + 1) - Start(all, end, i)
  }

  /** How many bytes the kept entries before the i-th take. */
  function Kept(all: seq<Entry>, end: nat, i: nat): nat
    requires Laid(all, end) && i <= |all|
  {
    if i == 0 then 0 else Kept(all, end, i - 1) + if all[i - 1].keep then Slot(all, end, i - 1) else 0
  }

  /** The kept entries before the i-th, where they are moved. */
  function Moved(all: seq<Entry>, end: nat, i: nat): seq<Info>
    requires Laid(all, end) && i <= |all|
  {
    if i == 0 then []
    else
      Moved(all, end, i - 1)
      + if all[i - 1].keep then [all[i - 1].info.(offset := Kept(all, end, i - 1))] else []
  }

  /** The places of the kept entries among the first i. */
  function KeptPlaces(all: seq<Entry>, i: nat): seq<nat>
    requires i <= |all|
  {
    if i == 0 then [] else KeptPlaces(all, i - 1) + if all[i - 1].keep then [i - 1] else []
  }

  /** Where the record after the k-th begins, or where the last one's slot ends. */
  function NextOffset(live: seq<Info>, size: nat, k: nat): nat {
    if k + 1 < |live| then live[k + 1].offset else size
  }

  /** The kept among the first i entries, in their order, from offset 0 on, each given the slot it had. */
  ghost predicate Repacked(all: seq<Entry>, end: nat, i: nat, live: seq<Info>, size: nat)
    requires Laid(all, end) && i <= |all|
  {
    var places := KeptPlaces(all, i);
    && |live| == |places| && (if live == [] then size == 0 else live[0].offset == 0)
    && forall k :: 0 <= k < |live| ==> RepackedAt(all, end, places[k], live[k], NextOffset(live, size, k))
  }

  ghost predicate RepackedAt(all: seq<Entry>, end: nat, place: nat, record: Info, next: nat)
    requires Laid(all, end)
  {
    && place < |all| && record == all[place].info.(offset := record.offset)
    && next == record.offset + Slot(all, end, place)
  }

  lemma {:induction false} KeptPlacesAre(all: seq<Entry>, i: nat)
    requires i <= |all|
    ensures forall j :: j in KeptPlaces(all, i) <==> 0 <= j < i && all[j].keep
    ensures forall k, m :: 0 <= k < m < |KeptPlaces(all, i)| ==> KeptPlaces(all, i)[k] < KeptPlaces(all, i)[m]
  {
    if i == 0 {
    } else {
      KeptPlacesAre(all, i - 1);
      var before := KeptPlaces(all, i - 1);
      assert forall k :: 0 <= k < |before| ==> before[k] in before;
    }
  }

  lemma {:induction false} MovedIsRepacked(all: seq<Entry>, end: nat, i: nat)
    requires Laid(all, end) && i <= |all|
    ensures Repacked(all, end, i, Moved(all, end, i), Kept(all, end, i))
  {
    if i == 0 {
    } else {
      MovedIsRepacked(all, end, i - 1);
      if all[i - 1].keep {
        hide Slot, Laid;
        var live, size := Moved(all, end, i - 1), Kept(all, end, i - 1);
        var x := all[i - 1].info.(offset := size);
        assert Moved(all, end, i) == live + [x];
        RepackOne(all, end, i - 1, live, size, x);
      } else {
        assert Moved(all, end, i) == Moved(all, end, i - 1);
      }
    }
  }

  lemma RepackOne(all: seq<Entry>, end: nat, i: nat, live: seq<Info>, size: nat, x: Info)
    requires Laid(all, end) && i < |all| && all[i].keep && Repacked(all, end, i, live, size)
    requires x == all[i].info.(offset := size)
    ensures Repacked(all, end, i + 1, live + [x], size + Slot(all, end, i))
  {
    hide Slot, Laid, RepackedAt;
    var places, size' := KeptPlaces(all, i + 1), size + Slot(all, end, i);
    forall k | 0 <= k < |live + [x]|
      ensures RepackedAt(all, end, places[k], (live + [x])[k], NextOffset(live + [x], size', k))
    {
      if k < |live| {
        assert RepackedAt(all, end, KeptPlaces(all, i)[k], live[k], NextOffset(live, size, k));
        assert NextOffset(live + [x], size', k) == NextOffset(live, size, k);
      } else {
        assert RepackedAt(all, end, i, x, size') by { SlotOf(all, end, i, x); }
      }
    }
  }

  lemma SlotOf(all: seq<Entry>, end: nat, i: nat, x: Info)
    requires Laid(all, end) && i < |all| && x == all[i].info.(offset := x.offset)
    ensures RepackedAt(all, end, i, x, x.offset + Slot(all, end, i))
  {
  }

  lemma {:induction false} KeptFits(all: seq<Entry>, end: nat, i: nat)
    requires Laid(all, end) && i <= |all|
    ensures Kept(all, end, i) <= Start(all, end, i)
  {
    if i == 0 {
    } else {
      KeptFits(all, end, i - 1);
    }
  }

  lemma {:induction false} KeptGrows(all: seq<Entry>, end: nat, i: nat, j: nat)
    requires Laid(all, end) && i < j <= |all|
    ensures Kept(all, end, i) + (if all[i].keep then Slot(all, end, i) else 0) <= Kept(all, end, j)
    decreases j
  {
    if j == i + 1 {
    } else {
      KeptGrows(all, end, i, j - 1);
    }
  }

  // ---------- The bytes ----------

  /** Reading length bytes at one position and writing them at a lower one. */
  function MoveDown(file: seq<Byte>, from: nat, length: nat, to: nat): seq<Byte>
    requires to <= from && from + length <= |file|
  {
    Overwrite(file, to, file[from..from + length])
  }

  lemma MoveDownEffect(file: seq<Byte>, from: nat, length: nat, to: nat)
    requires to <= from && from + length <= |file|
    ensures |MoveDown(file, from, length, to)| == |file|
    ensures MoveDown(file, from, length, to)[..to] == file[..to]
    ensures MoveDown(file, from, length, to)[to..to + length] == file[from..from + length]
    ensures MoveDown(file, from, length, to)[from + length..] == file[from + length..]
  {
  }

  /** A kept entry that has been moved holds the bytes it held before. */
  ghost predicate InPlace(all: seq<Entry>, end: nat, before: seq<Byte>, file: seq<Byte>, j: nat)
    requires Laid(all, end) && j < |all|
  {
    var to := Kept(all, end, j);
    && to + Slot(all, end, j) <= |file| && Start(all, end, j) + Slot(all, end, j) <= |before|
    && file[to..to + Slot(all, end, j)] == before[Start(all, end, j)..Start(all, end, j) + Slot(all, end, j)]
  }

  /** Entries before the i-th have been moved; the bytes from the i-th on are still unchanged. */
  ghost predicate Compacted(all: seq<Entry>, end: nat, before: seq<Byte>, file: seq<Byte>, i: nat)
    requires Laid(all, end) && i <= |all|
  {
    && |file| == |before| && end <= |before|
    && file[Start(all, end, i)..] == before[Start(all, end, i)..]
    && forall j :: 0 <= j < i && all[j].keep ==> InPlace(all, end, before, file, j)
  }

  lemma InPlaceStays(all: seq<Entry>, end: nat, before: seq<Byte>, file: seq<Byte>, file': seq<Byte>, i: nat, j: nat)
    requires Laid(all, end) && j < i <= |all| && all[j].keep && InPlace(all, end, before, file, j)
    requires |file'| == |file| && Kept(all, end, i) <= |file| && file'[..Kept(all, end, i)] == file[..Kept(all, end, i)]
    ensures InPlace(all, end, before, file', j)
  {
    KeptGrows(all, end, j, i);
    hide Kept, Slot, Start;
    var n := Kept(all, end, i);
    var to, len := Kept(all, end, j), Slot(all, end, j);
    assert file'[to..to + len] == file'[..n][to..to + len];
    assert file[to..to + len] == file[..n][to..to + len];
  }

  /** Moving a kept entry touches neither the entries already moved nor those still to be read. */
  lemma KeepStep(all: seq<Entry>, end: nat, before: seq<Byte>, file: seq<Byte>, i: nat)
    requires Laid(all, end) && i < |all| && all[i].keep && Compacted(all, end, before, file, i)
    ensures Kept(all, end, i) <= Start(all, end, i) && Start(all, end, i + 1) <= |file|
    ensures Compacted(all, end, before, MoveDown(file, Start(all, end, i), Slot(all, end, i), Kept(all, end, i)), i + 1)
  {
    hide Kept;
    KeptFits(all, end, i);
    var from, length, to := Start(all, end, i), Slot(all, end, i), Kept(all, end, i);
    var file' := MoveDown(file, from, length, to);
    MoveDownEffect(file, from, length, to);
    hide MoveDown;
    assert file[from..][..length] == before[from..][..length];
    assert file[from..][length..] == before[from..][length..];
    assert file[from + length..] == file[from..][length..];
    assert before[from + length..] == before[from..][length..];
    assert InPlace(all, end, before, file', i);
    forall j | 0 <= j < i && all[j].keep
      ensures InPlace(all, end, before, file', j)
    {
      InPlaceStays(all, end, before, file, file', i, j);
    }
  }

  lemma SkipStep(all: seq<Entry>, end: nat, before: seq<Byte>, file: seq<Byte>, i: nat)
    requires Laid(all, end) && i < |all| && !all[i].keep && Compacted(all, end, before, file, i)
    ensures Compacted(all, end, before, file, i + 1)
  {
    hide Kept, InPlace;
    var from, later := Start(all, end, i), Start(all, end, i + 1);
    assert file[later..] == file[from..][later - from..];
    assert before[later..] == before[from..][later - from..];
  }

  // ---------- The records ----------

  /** The entries are the listed records, to keep, and the removed ones. */
  ghost predicate Entries(all: seq<Entry>, live: seq<Info>, removed: seq<Info>) {
    forall e :: e in all <==> if e.keep then e.info in live else e.info in removed
  }

  ghost predicate MovedFrom(all: seq<Entry>, end: nat, j: nat, x: Info)
    requires Laid(all, end)
  {
    j < |all| && all[j].keep && x == all[j].info.(offset := Kept(all, end, j))
  }

  lemma {:induction false} MovedElements(all: seq<Entry>, end: nat, i: nat, x: Info)
    requires Laid(all, end) && i <= |all|
    ensures x in Moved(all, end, i) <==> exists j :: 0 <= j < i && MovedFrom(all, end, j, x)
  {
    if i == 0 {
    } else {
      hide Kept;
      MovedElements(all, end, i - 1, x);
      assert all[i - 1].keep && x == all[i - 1].info.(offset := Kept(all, end, i - 1)) ==> MovedFrom(all, end, i - 1, x);
    }
  }

  lemma {:induction false} MovedSorted(all: seq<Entry>, end: nat, f: Format, live: seq<Info>, removed: seq<Info>, i: nat)
    requires f.Ok() && Laid(all, end) && i <= |all| && Entries(all, live, removed) && Layout(f, live, removed, end)
    ensures Sorted(Moved(all, end, i))
    ensures forall x :: x in Moved(all, end, i) ==> x.offset < Kept(all, end, i)
  {
    if i == 0 {
    } else {
      MovedSorted(all, end, f, live, removed, i - 1);
      if all[i - 1].keep { ExtentFits(all, end, f, live, removed, i - 1); }
      hide Layout, Entries, Laid;
    }
  }

  /** No entry is longer than its slot. */
  lemma ExtentFits(all: seq<Entry>, end: nat, f: Format, live: seq<Info>, removed: seq<Info>, i: nat)
    requires f.Ok() && Laid(all, end) && i < |all| && Entries(all, live, removed) && Layout(f, live, removed, end)
    ensures 0 < f.Extent(all[i].info) <= Slot(all, end, i)
  {
    assert all[i] in all && In(all[i].info, live, removed);
    if i + 1 < |all| {
      assert all[i + 1] in all && In(all[i + 1].info, live, removed);
      assert Disjoint(f, all[i].info, all[i + 1].info);
    }
  }

  /** In a contiguous archive every entry fills its slot. */
  lemma ExtentFills(all: seq<Entry>, end: nat, f: Format, live: seq<Info>, removed: seq<Info>, i: nat)
    requires f.Ok() && Laid(all, end) && i < |all| && Entries(all, live, removed) && Layout(f, live, removed, end)
    requires Contiguous(f, live, removed, end)
    ensures f.Extent(all[i].info) == Slot(all, end, i)
  {
    ExtentFits(all, end, f, live, removed, i);
    var p := f.Stop(all[i].info);
    if p < Start(all, end, i + 1) {
      GapIsUncovered(all, end, f, live, removed, i, p);
    }
  }

  lemma GapIsUncovered(all: seq<Entry>, end: nat, f: Format, live: seq<Info>, removed: seq<Info>, i: nat, p: nat)
    requires f.Ok() && Laid(all, end) && i < |all| && Entries(all, live, removed) && Layout(f, live, removed, end)
    requires f.Stop(all[i].info) <= p < Start(all, end, i + 1)
    ensures !Covered(f, live, removed, p)
  {
    hide Layout, Laid;
    forall b | In(b, live, removed)
      ensures !(b.offset <= p < f.Stop(b))
    {
      var e := Entry(b, b in live);
      assert e in all;
      var m :| 0 <= m < |all| && all[m] == e;
      EntryMissesGap(all, end, f, live, removed, i, m, p);
    }
  }

  lemma EntryMissesGap(all: seq<Entry>, end: nat, f: Format, live: seq<Info>, removed: seq<Info>, i: nat, m: nat, p: nat)
    requires f.Ok() && Laid(all, end) && i < |all| && m < |all|
    requires Entries(all, live, removed) && Layout(f, live, removed, end)
    requires f.Stop(all[i].info) <= p < Start(all, end, i + 1)
    ensures !(all[m].info.offset <= p < f.Stop(all[m].info))
  {
    if m < i {
      assert all[m] in all && all[i] in all;
      assert In(all[m].info, live, removed) && In(all[i].info, live, removed);
      assert Disjoint(f, all[m].info, all[i].info);
    }
  }

  lemma MovedLayout(all: seq<Entry>, end: nat, f: Format, live: seq<Info>, removed: seq<Info>)
    requires f.Ok() && Laid(all, end) && Entries(all, live, removed) && Layout(f, live, removed, end)
    ensures Layout(f, Moved(all, end, |all|), [], Kept(all, end, |all|))
  {
    var moved := Moved(all, end, |all|);
    MovedSorted(all, end, f, live, removed, |all|);
    hide Moved, Kept;
    forall a, b | a in moved && b in moved && a.name == b.name
      ensures a == b
    {
      MovedNamesDiffer(all, end, f, live, removed, a, b);
    }
    forall a | In(a, moved, [])
      ensures f.Stop(a) <= Kept(all, end, |all|)
    {
      var j := MovedInSlot(all, end, f, live, removed, a);
      KeptGrows(all, end, j, |all|);
    }
    forall a, b | In(a, moved, []) && In(b, moved, []) && a != b
      ensures Disjoint(f, a, b)
    {
      MovedApart(all, end, f, live, removed, a, b);
    }
  }

  lemma MovedInSlot(all: seq<Entry>, end: nat, f: Format, live: seq<Info>, removed: seq<Info>, x: Info) returns (j: nat)
    requires f.Ok() && Laid(all, end) && Entries(all, live, removed) && Layout(f, live, removed, end)
    requires x in Moved(all, end, |all|)
    ensures MovedFrom(all, end, j, x) && all[j].info in live
    ensures f.Extent(x) == f.Extent(all[j].info) <= Slot(all, end, j)
  {
    hide Kept, Moved, Layout, Laid;
    MovedElements(all, end, |all|, x);
    j :| 0 <= j < |all| && MovedFrom(all, end, j, x);
    ExtentFits(all, end, f, live, removed, j);
    assert all[j] in all;
  }

  lemma MovedNamesDiffer(all: seq<Entry>, end: nat, f: Format, live: seq<Info>, removed: seq<Info>, a: Info, b: Info)
    requires f.Ok() && Laid(all, end) && Entries(all, live, removed) && Layout(f, live, removed, end)
    requires a in Moved(all, end, |all|) && b in Moved(all, end, |all|) && a.name == b.name
    ensures a == b
  {
    hide Kept, Moved, Entries;
    var i := MovedInSlot(all, end, f, live, removed, a);
    var j := MovedInSlot(all, end, f, live, removed, b);
    assert all[i].info == all[j].info;
  }

  lemma MovedApart(all: seq<Entry>, end: nat, f: Format, live: seq<Info>, removed: seq<Info>, a: Info, b: Info)
    requires f.Ok() && Laid(all, end) && Entries(all, live, removed) && Layout(f, live, removed, end)
    requires a in Moved(all, end, |all|) && b in Moved(all, end, |all|) && a != b
    ensures Disjoint(f, a, b)
  {
    hide Kept, Moved, Entries, Layout, Slot;
    var i := MovedInSlot(all, end, f, live, removed, a);
    var j := MovedInSlot(all, end, f, live, removed, b);
    if i < j {
      KeptGrows(all, end, i, j);
    } else if j < i {
      KeptGrows(all, end, j, i);
    }
  }

  /** The moved records hold what was last written. */
  lemma MovedHolds(all: seq<Entry>, end: nat, f: Format, live: seq<Info>, removed: seq<Info>,
                   before: seq<Byte>, file: seq<Byte>, contents: map<string, seq<Byte>>)
    requires f.Ok() && Laid(all, end) && Entries(all, live, removed) && Layout(f, live, removed, end)
    requires Compacted(all, end, before, file, |all|) && Holds(f, before, live, contents)
    ensures Holds(f, file, Moved(all, end, |all|), contents)
  {
    hide Kept, Moved, Layout;
    var moved := Moved(all, end, |all|);
    forall x | x in moved
      ensures x.name in contents && f.Stop(x) <= |file| && file[x.offset..f.Stop(x)] == contents[x.name]
    {
      var j := MovedInSlot(all, end, f, live, removed, x);
      assert InPlace(all, end, before, file, j);
      SameBytes(before, file, all[j].info.offset, x.offset, Slot(all, end, j), f.Extent(x));
    }
    forall name | name in contents
      ensures Listed(moved, name)
    {
      assert Listed(live, name);
      var a :| a in live && a.name == name;
      assert Entry(a, true) in all;
      var j :| 0 <= j < |all| && all[j] == Entry(a, true);
      var x := a.(offset := Kept(all, end, j));
      assert MovedFrom(all, end, j, x);
      MovedElements(all, end, |all|, x);
    }
  }

  lemma SameBytes(before: seq<Byte>, file: seq<Byte>, from: nat, to: nat, slot: nat, extent: nat)
    requires from + slot <= |before| && to + slot <= |file| && extent <= slot
    requires file[to..to + slot] == before[from..from + slot]
    ensures file[to..to + extent] == before[from..from + extent]
  {
    assert file[to..to + extent] == file[to..to + slot][..extent];
    assert before[from..from + extent] == before[from..from + slot][..extent];
  }

  /** A contiguous archive is contiguous afterwards, from offset 0. */
  lemma MovedContiguous(all: seq<Entry>, end: nat, f: Format, live: seq<Info>, removed: seq<Info>)
    requires f.Ok() && Laid(all, end) && Entries(all, live, removed) && Layout(f, live, removed, end)
    requires Contiguous(f, live, removed, end)
    ensures Contiguous(f, Moved(all, end, |all|), [], Kept(all, end, |all|))
  {
    hide Layout, Entries, Kept, Moved, Covered;
    forall p: nat | p < Kept(all, end, |all|)
      ensures Covered(f, Moved(all, end, |all|), [], p)
    {
      MovedCovers(all, end, f, live, removed, p, |all|);
    }
  }

  lemma {:induction false} MovedCovers(all: seq<Entry>, end: nat, f: Format, live: seq<Info>, removed: seq<Info>, p: nat, i: nat)
    requires f.Ok() && Laid(all, end) && Entries(all, live, removed) && Layout(f, live, removed, end)
    requires Contiguous(f, live, removed, end) && i <= |all| && p < Kept(all, end, i)
    ensures Covered(f, Moved(all, end, |all|), [], p)
    decreases i
  {
    hide Layout, Contiguous, Entries, Moved, Laid, Slot;
    if i == 0 {
    } else if p < Kept(all, end, i - 1) {
      MovedCovers(all, end, f, live, removed, p, i - 1);
    } else {
      var x := all[i - 1].info.(offset := Kept(all, end, i - 1));
      ExtentFills(all, end, f, live, removed, i - 1);
      assert MovedFrom(all, end, i - 1, x);
      MovedElements(all, end, |all|, x);
      assert In(x, Moved(all, end, |all|), []);
    }
  }
}
