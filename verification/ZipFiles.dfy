/**
 The overwriting archive of config/MozZipFile.py. Its superclass is modelled by WriteRecord, which
 writes one record at the current position and lists it.
 */
module ZipFiles {
  import opened ZipArchives
  import opened ZipCompaction

  /** One call of writestr: a name, whether its data is stored uncompressed, and the data. */
  datatype Write = Write(name: string, stored: bool, bytes: seq<Byte>)

  /** The record last written under each name. */
  function AfterWrites(f: Format, contents: map<string, seq<Byte>>, writes: seq<Write>): map<string, seq<Byte>> {
    if writes == [] then contents
    else
      var w := writes[|writes| - 1];
      AfterWrites(f, contents, writes[..|writes| - 1])[w.name := f.Record(w.name, w.stored, w.bytes)]
  }

  /** Whether a record for the i-th name goes where that name's record was. */
  predicate Reused(live: seq<Info>, i: nat, stored: bool, size: nat) {
    i < |live| && (i + 1 == |live| || (stored && live[i].size == size))
  }

  /** Where a new record goes, and what is remembered for removal. */
  ghost predicate Handled(live: seq<Info>, removed: seq<Info>, end: nat, name: string, stored: bool, size: nat,
                          at: nat, removed': seq<Info>, offset: nat) {
    if Listed(live, name) then
      && at < |live| && live[at].name == name
      && removed' == (if Reused(live, at, stored, size) then removed else removed + [live[at]])
      && offset == (if Reused(live, at, stored, size) then live[at].offset else end)
    else
      removed' == removed && offset == end
  }

  /** Nothing more is to be removed for a new name, for the last record, and for one stored in the same size. */
  lemma NothingMoreToRemove(live: seq<Info>, removed: seq<Info>, end: nat, name: string, stored: bool, size: nat,
                            at: nat, removed': seq<Info>, offset: nat)
    requires Handled(live, removed, end, name, stored, size, at, removed', offset)
    ensures Listed(live, name) ==> at < |live|
    ensures removed' == removed <==>
              !Listed(live, name) || at + 1 == |live| || (stored && live[at].size == size)
  {
    hide Listed;
    assert |removed'| > |removed| ==> removed' != removed;
  }

  /** The listed and the removed records, and where the next one would go. */
  datatype Placement = Placement(live: seq<Info>, removed: seq<Info>, end: nat)

  /** One write: the record goes to offset, in place of the at-th or past all, and every other record stays. */
  ghost predicate Places(f: Format, p: Placement, w: Write, at: nat, offset: nat, p': Placement) {
    && Handled(p.live, p.removed, p.end, w.name, w.stored, |w.bytes|, at, p'.removed, offset)
    && Relisted(p.live, Info(w.name, offset, |f.Packed(w.stored, w.bytes)|), p'.live)
    && p'.end == if Listed(p.live, w.name) && at + 1 < |p.live| && Reused(p.live, at, w.stored, |w.bytes|)
                 then p.end else offset + |f.Record(w.name, w.stored, w.bytes)|
  }

  ghost predicate Relisted(live: seq<Info>, x: Info, live': seq<Info>) {
    forall a :: a in live' <==> a == x || (a in live && a.name != x.name)
  }

  ghost predicate AllPlaced(f: Format, p: Placement, writes: seq<Write>, p': Placement) {
    if writes == [] then p' == p
    else
      var n := |writes| - 1;
      exists mid, at, offset :: AllPlaced(f, p, writes[..n], mid) && Places(f, mid, writes[n], at, offset, p')
  }

  lemma NonePlaced(f: Format, p: Placement)
    ensures AllPlaced(f, p, [], p)
  {
  }

  lemma OneMorePlaced(f: Format, p: Placement, writes: seq<Write>, i: nat, mid: Placement, at: nat, offset: nat, p': Placement)
    requires i < |writes| && AllPlaced(f, p, writes[..i], mid) && Places(f, mid, writes[i], at, offset, p')
    ensures AllPlaced(f, p, writes[..i + 1], p')
  {
    assert writes[..i + 1][..i] == writes[..i];
  }

  class ZipFile {
    const format: Format
    var filelist: seq<Info>
    var toRemove: seq<Info>
    var nameToInfo: set<string>
    var end: nat
    var file: seq<Byte>
    var position: nat
    ghost var contents: map<string, seq<Byte>>

    ghost predicate Valid()
      reads this
    {
      && format.Ok() && Layout(format, filelist, toRemove, end) && HighestIsLive(filelist, toRemove)
      && Holds(format, file, filelist, contents) && nameToInfo == contents.Keys
      && position == end <= |file|
    }

    ghost function Placed(): Placement
      reads this
    {
      Placement(filelist, toRemove, end)
    }

    /** What the superclass has read from an archive, or nothing for a new one. */
    constructor (format: Format, file: seq<Byte>, filelist: seq<Info>, end: nat, ghost contents: map<string, seq<Byte>>)
      requires format.Ok() && Layout(format, filelist, [], end) && Holds(format, file, filelist, contents)
      requires end <= |file|
      ensures Valid() && this.format == format && this.contents == contents
      ensures this.file == file && this.filelist == filelist && toRemove == [] && this.end == end
    {
      this.format, this.file, this.filelist, this.end := format, file, filelist, end;
      toRemove, position := [], end;
      nameToInfo := set i | 0 <= i < |filelist| :: filelist[i].name;
      this.contents := contents;
      new;
      NamesAre(format, file, filelist, contents);
    }

    /** The superclass's writestr. */
    method WriteRecord(name: string, stored: bool, bytes: seq<Byte>)
      requires position <= |file|
      modifies this`filelist, this`nameToInfo, this`file, this`position
      ensures filelist == old(filelist) + [Info(name, old(position), |format.Packed(stored, bytes)|)]
      ensures nameToInfo == old(nameToInfo) + {name}
      ensures file == Overwrite(old(file), old(position), format.Record(name, stored, bytes))
      ensures position == old(position) + |format.Record(name, stored, bytes)|
    {
      var packed := format.Packed(stored, bytes);
      var record := format.header(name, stored, bytes) + packed;
      filelist := filelist + [Info(name, position, |packed|)];
      nameToInfo := nameToInfo + {name};
      file := Overwrite(file, position, record);
      position := position + |record|;
    }

    /** The last entry with a name that is listed. */
    method FindLast(name: string) returns (i: nat)
      requires Listed(filelist, name)
      ensures i < |filelist| && filelist[i].name == name
      ensures forall k :: i < k < |filelist| ==> filelist[k].name != name
    {
      var a :| a in filelist && a.name == name;
      ghost var at :| 0 <= at < |filelist| && filelist[at] == a;
      i := |filelist|;
      while i > 0
        invariant i <= |filelist|
        invariant at < i
        invariant forall k :: i <= k < |filelist| ==> filelist[k].name != name
      {
        i := i - 1;
        if filelist[i].name == name {
          break;
        }
      }
    }

    /** Ready for a record at the current position, past all others, with no entry of its name left. */
    ghost predicate Appending(name: string)
      reads this
    {
      && Layout(format, filelist, toRemove, position) && Holds(format, file, filelist, contents - {name})
      && position <= |file| && !Listed(filelist, name) && nameToInfo + {name} == contents.Keys + {name}
    }

    /**
     The first half of writestr: the entry of that name, if there is one, is unhooked so that the new
     record takes its place, or is remembered for removal. Returns whether to seek to the end afterwards.
     */
    method Unhook(name: string, stored: bool, size: nat) returns (doSeek: bool, ghost at: nat)
      requires Valid()
      modifies this`filelist, this`toRemove, this`nameToInfo, this`file, this`position
      ensures !doSeek ==> Appending(name)
      ensures !doSeek && old(Contiguous(format, filelist, toRemove, end)) ==>
                Contiguous(format, filelist, toRemove, position)
      ensures doSeek ==>
                && stored && at + 1 < |old(filelist)| && old(filelist)[at] == Info(name, position, size)
                && filelist == Without(old(filelist), at) && toRemove == old(toRemove) && file == old(file)
                && nameToInfo == old(nameToInfo) - {name}
      ensures Handled(old(filelist), old(toRemove), old(end), name, stored, size, at, toRemove, position)
      ensures forall a :: a in filelist <==> a in old(filelist) && a.name != name
      ensures doSeek <==> Listed(old(filelist), name) && at + 1 < |old(filelist)| && Reused(old(filelist), at, stored, size)
    {
      hide Layout, HighestIsLive, Holds, Contiguous, Without;
      doSeek, at := false, 0;
      ghost var live, removed := filelist, toRemove;
      NamesListed(format, file, filelist, contents, name);
      if name in nameToInfo {
        var i := FindLast(name);
        at := i;
        var zi := filelist[i];
        UnhookLayout(format, file, filelist, toRemove, contents, end, i);
        if (stored && zi.size == size) || i + 1 == |filelist| {
          position := zi.offset;
          if i + 1 == |filelist| {
            LastUnhooked(format, file, filelist, toRemove, contents, end);
            file := file[..position];
          } else {
            doSeek := true;
          }
          filelist := Without(filelist, i);
          nameToInfo := nameToInfo - {name};
        } else {
          toRemove := toRemove + [zi];
          filelist := Without(filelist, i);
        }
      }
    }

    /** at is the entry that name had, and offset where the record goes. */
    method Writestr(name: string, stored: bool, bytes: seq<Byte>) returns (ghost at: nat, ghost offset: nat)
      requires Valid()
      modifies this
      ensures Places(format, old(Placed()), Write(name, stored, bytes), at, offset, Placed())
      ensures Valid() && contents == old(contents)[name := format.Record(name, stored, bytes)]
      ensures contents[name] == format.header(name, stored, bytes) + if stored then bytes else format.deflate(bytes)
      ensures toRemove == old(toRemove) <==>
                !Listed(old(filelist), name) || at + 1 == |old(filelist)| || (stored && old(filelist)[at].size == |bytes|)
      ensures old(Contiguous(format, filelist, toRemove, end)) ==> Contiguous(format, filelist, toRemove, end)
    {
      hide Layout, HighestIsLive, Holds, Contiguous, Without, Overwrite, SortInfos, Handled, Relisted, OffsetsDiffer;
      ghost var live := filelist;
      var doSeek;
      doSeek, at := Unhook(name, stored, |bytes|);
      offset := position;
      NothingMoreToRemove(live, old(toRemove), end, name, stored, |bytes|, at, toRemove, offset);
      if doSeek {
        Replaced(format, file, live, toRemove, contents, end, at, bytes);
      } else {
        Appended(format, file, filelist, toRemove, contents, position, name, stored, bytes);
      }
      RelistedSorted(live, filelist, Info(name, position, |format.Packed(stored, bytes)|));
      WriteRecord(name, stored, bytes);
      filelist := SortInfos(filelist);
      if doSeek {
        position := end;
      }
      end := position;
      contents := contents[name := format.Record(name, stored, bytes)];
    }

    /** Reading at one position and writing what was read at a lower one. */
    method MoveRecord(from: nat, length: nat, to: nat)
      requires to <= from && from + length <= |file|
      modifies this`file, this`position
      ensures file == MoveDown(old(file), from, length, to) && position == to + length
    {
      position := from;
      var content := file[position..position + length];
      position := to;
      file := Overwrite(file, position, content);
      position := position + |content|;
    }

    /** The kept entries move down, one after the other. */
    method Compact(all: seq<Entry>, lengths: seq<nat>) returns (toPos: nat)
      requires Laid(all, end) && end <= |file| && all != [] && all[|all| - 1].keep
      requires |lengths| == |all| && forall i :: 0 <= i < |all| ==> lengths[i] == Slot(all, end, i)
      modifies this`file, this`position, this`filelist
      ensures Compacted(all, end, old(file), file, |all|)
      ensures filelist == Moved(all, end, |all|) && position == toPos == Kept(all, end, |all|) <= |file|
    {
      hide InPlace, Laid, MoveDown;
      var moved := [];
      toPos := 0;
      var i := 0;
      while i < |all|
        invariant i <= |all| && toPos == Kept(all, end, i) && moved == Moved(all, end, i)
        invariant Compacted(all, end, old(file), file, i)
        invariant i > 0 && all[i - 1].keep ==> position == toPos
      {
        if all[i].keep {
          var oldoff := all[i].info.offset;
          KeepStep(all, end, old(file), file, i);
          moved := moved + [all[i].info.(offset := toPos)];
          MoveRecord(oldoff, lengths[i], toPos);
          toPos := toPos + lengths[i];
        } else {
          SkipStep(all, end, old(file), file, i);
        }
        i := i + 1;
      }
      filelist := moved;
      KeptFits(all, end, |all|);
    }

    /**
     Records end by size; when any were removed, so does the file, and the kept ones, in their order, have
     moved down from offset 0 on, each with the slot it had among all.
     */
    method Close() returns (ghost size: nat, ghost all: seq<Entry>)
      requires Valid()
      modifies this
      ensures contents == old(contents) && toRemove == [] && end == old(end)
      ensures size <= |file| && Layout(format, filelist, [], size) && Holds(format, file, filelist, contents)
      ensures old(Contiguous(format, filelist, toRemove, end)) ==> Contiguous(format, filelist, [], size)
      ensures old(toRemove) == [] ==> file == old(file) && filelist == old(filelist) && size == end
      ensures old(toRemove) != [] ==>
                && |file| == size && Laid(all, old(end)) && Entries(all, old(filelist), old(toRemove))
                && Repacked(all, old(end), |all|, filelist, size)
    {
      hide Layout, Holds, Contiguous, SortByOffset, Laid, Kept, Moved, InPlace, Slot, Repacked;
      if toRemove == [] {
        return end, [];
      }
      ghost var live, removed, before := filelist, toRemove, file;
      var entries := Tagged(filelist, true) + Tagged(toRemove, false);
      EntriesDiffer(format, filelist, toRemove, end);
      var sorted := SortByOffset(entries);
      all := sorted;
      SortedEntries(format, filelist, toRemove, end, sorted);
      toRemove := [];
      var stop := end;
      var lengths := seq(|sorted|, i requires 0 <= i < |sorted| => Slot(sorted, stop, i));
      var toPos := Compact(sorted, lengths);
      ghost var compacted := file;
      file := file[..position];
      size := toPos;
      Closed(format, live, removed, all, end, before, compacted, contents);
      MovedIsRepacked(all, end, |all|);
    }
  }

  /** An entry unhooked, from the list alone and into the removed ones. */
  lemma UnhookLayout(f: Format, file: seq<Byte>, live: seq<Info>, removed: seq<Info>, contents: map<string, seq<Byte>>,
                     end: nat, i: nat)
    requires f.Ok() && Layout(f, live, removed, end) && Holds(f, file, live, contents) && i < |live|
    ensures Layout(f, Without(live, i), removed + [live[i]], end)
    ensures Holds(f, file, Without(live, i), contents - {live[i].name})
    ensures live[i].name in contents && forall a :: a in Without(live, i) <==> a in live && a.name != live[i].name
    ensures Contiguous(f, live, removed, end) ==> Contiguous(f, Without(live, i), removed + [live[i]], end)
  {
    RemoveLayout(f, live, removed, end, i);
    hide Contiguous;
    ForgetHolds(f, file, live, contents, i);
    hide Holds, Without;
    WithoutSorted(live, i);
    assert forall a :: a in Without(live, i) ==> a.name != live[i].name;
  }

  /** The highest entry unhooked and the file cut off where it began. */
  lemma LastUnhooked(f: Format, file: seq<Byte>, live: seq<Info>, removed: seq<Info>, contents: map<string, seq<Byte>>,
                     end: nat)
    requires f.Ok() && Layout(f, live, removed, end) && HighestIsLive(live, removed) && live != []
    requires Holds(f, file, live, contents) && end <= |file|
    ensures var last := live[|live| - 1];
            var rest := Without(live, |live| - 1);
            && last.offset <= |file| && Layout(f, rest, removed, last.offset)
            && Holds(f, file[..last.offset], rest, contents - {last.name})
            && (Contiguous(f, live, removed, end) ==> Contiguous(f, rest, removed, last.offset))
  {
    hide Contiguous;
    var last, rest := live[|live| - 1], Without(live, |live| - 1);
    ForgetLast(f, live, removed, end);
    assert f.Stop(last) <= end by { assert In(last, live, removed); }
    ForgetHolds(f, file, live, contents, |live| - 1);
    assert forall a :: a in rest ==> In(a, rest, removed);
    TruncateHolds(f, file, rest, contents - {last.name}, last.offset);
  }

  /** What writing and sorting leave behind when the record goes past all others. */
  lemma Appended(f: Format, file: seq<Byte>, live: seq<Info>, removed: seq<Info>, contents: map<string, seq<Byte>>,
                 position: nat, name: string, stored: bool, bytes: seq<Byte>)
    requires f.Ok() && Layout(f, live, removed, position) && Holds(f, file, live, contents - {name})
    requires position <= |file| && !Listed(live, name)
    ensures var x := Info(name, position, |f.Packed(stored, bytes)|);
            var record := f.Record(name, stored, bytes);
            && |record| == f.Extent(x) && OffsetsDiffer(live + [x])
            && |Overwrite(file, position, record)| >= f.Stop(x)
            && Layout(f, SortInfos(live + [x]), removed, f.Stop(x)) && HighestIsLive(SortInfos(live + [x]), removed)
            && Holds(f, Overwrite(file, position, record), SortInfos(live + [x]), contents[name := record])
            && (Contiguous(f, live, removed, position) ==> Contiguous(f, SortInfos(live + [x]), removed, f.Stop(x)))
  {
    hide SortInfos, Contiguous, Layout, HighestIsLive, Holds, Overwrite;
    var x := Info(name, position, |f.Packed(stored, bytes)|);
    EndIsClear(f, live, removed, x);
    assert forall a :: a in live ==> a.name != x.name;
    WrittenHolds(f, file, live, contents, x, f.Record(name, stored, bytes));
    AppendLayout(f, live, removed, x, SortInfos(live + [x]));
  }

  /** What writing and sorting leave of the bytes, when the record is clear of the others. */
  lemma WrittenHolds(f: Format, file: seq<Byte>, live: seq<Info>, contents: map<string, seq<Byte>>, x: Info, record: seq<Byte>)
    requires Sorted(live) && Holds(f, file, live, contents - {x.name}) && x.offset <= |file| && |record| == f.Extent(x)
    requires forall a :: a in live ==> a.offset != x.offset && a.name != x.name && Disjoint(f, a, x)
    ensures OffsetsDiffer(live + [x]) && Sorted(SortInfos(live + [x]))
    ensures forall a :: a in SortInfos(live + [x]) <==> a in live || a == x
    ensures |Overwrite(file, x.offset, record)| >= f.Stop(x) && |Overwrite(file, x.offset, record)| >= |file|
    ensures Holds(f, Overwrite(file, x.offset, record), SortInfos(live + [x]), contents[x.name := record])
  {
    OneMore(live, x);
    OverwriteAt(file, x.offset, record);
    hide SortInfos, Holds, Overwrite, Disjoint;
    WriteHolds(f, file, live, contents - {x.name}, x, record, SortInfos(live + [x]));
    assert (contents - {x.name})[x.name := record] == contents[x.name := record];
  }

  /** What they leave behind when it takes the place of one of the same name and size. */
  lemma Replaced(f: Format, file: seq<Byte>, live: seq<Info>, removed: seq<Info>, contents: map<string, seq<Byte>>,
                 end: nat, i: nat, bytes: seq<Byte>)
    requires f.Ok() && Layout(f, live, removed, end) && HighestIsLive(live, removed) && Holds(f, file, live, contents)
    requires i + 1 < |live| && live[i].size == |bytes| && end <= |file|
    ensures var x := live[i];
            var rest := Without(live, i);
            var record := f.Record(x.name, true, bytes);
            && |record| == f.Extent(x) && OffsetsDiffer(rest + [x]) && x.offset <= |file|
            && |Overwrite(file, x.offset, record)| >= |file|
            && Layout(f, SortInfos(rest + [x]), removed, end) && HighestIsLive(SortInfos(rest + [x]), removed)
            && Holds(f, Overwrite(file, x.offset, record), SortInfos(rest + [x]), contents[x.name := record])
            && (Contiguous(f, live, removed, end) ==> Contiguous(f, SortInfos(rest + [x]), removed, end))
  {
    hide SortInfos, Contiguous, Layout, Without, HighestIsLive, Holds, Overwrite;
    var x, rest := live[i], Without(live, i);
    RestIsClear(f, live, removed, end, i);
    LayoutFacts(f, live, removed, end, x);
    ForgetHolds(f, file, live, contents, i);
    WrittenHolds(f, file, rest, contents, x, f.Record(x.name, true, bytes));
    ReplaceLayout(f, live, removed, end, i, x, SortInfos(rest + [x]));
  }

  lemma LayoutFacts(f: Format, live: seq<Info>, removed: seq<Info>, end: nat, x: Info)
    requires Layout(f, live, removed, end) && x in live
    ensures Sorted(live) && NamesDiffer(live) && f.Stop(x) <= end
  {
    assert In(x, live, removed);
  }

  lemma RelistedSorted(live: seq<Info>, rest: seq<Info>, x: Info)
    requires OffsetsDiffer(rest + [x]) && forall a :: a in rest <==> a in live && a.name != x.name
    ensures Relisted(live, x, SortInfos(rest + [x]))
  {
    hide SortInfos;
  }

  lemma EndIsClear(f: Format, live: seq<Info>, removed: seq<Info>, x: Info)
    requires f.Ok() && Layout(f, live, removed, x.offset)
    ensures forall a :: a in live ==> a.offset < x.offset && Disjoint(f, a, x)
    ensures Sorted(live)
  {
    assert forall a :: a in live ==> In(a, live, removed);
  }

  lemma RestIsClear(f: Format, live: seq<Info>, removed: seq<Info>, end: nat, i: nat)
    requires f.Ok() && Layout(f, live, removed, end) && i < |live|
    ensures forall a :: a in Without(live, i) ==>
              a.offset != live[i].offset && a.name != live[i].name && Disjoint(f, a, live[i])
    ensures Sorted(Without(live, i))
  {
    WithoutSorted(live, i);
    hide Without;
    forall a | a in Without(live, i)
      ensures a.offset != live[i].offset && a.name != live[i].name && Disjoint(f, a, live[i])
    {
      assert In(a, live, removed) && In(live[i], live, removed);
    }
  }

  lemma OneMore(live: seq<Info>, x: Info)
    requires Sorted(live) && forall a :: a in live ==> a.offset != x.offset
    ensures OffsetsDiffer(live + [x])
    ensures forall a :: a in live + [x] <==> a in live || a == x
  {
    assert forall i :: 0 <= i < |live| ==> live[i] in live;
  }

  /** What close starts from: no two entries begin at the same offset. */
  lemma EntriesDiffer(f: Format, live: seq<Info>, removed: seq<Info>, end: nat)
    requires f.Ok() && Layout(f, live, removed, end)
    ensures DifferentOffsets(Tagged(live, true) + Tagged(removed, false))
  {
    forall i, j | 0 <= i < |live| && 0 <= j < |removed|
      ensures live[i].offset != removed[j].offset
    {
      assert In(live[i], live, removed) && In(removed[j], live, removed) && live[i] in live;
    }
  }

  /** Sorted, they are the records to keep and the removed ones, and the last is to be kept. */
  lemma SortedEntries(f: Format, live: seq<Info>, removed: seq<Info>, end: nat, all: seq<Entry>)
    requires f.Ok() && Layout(f, live, removed, end) && HighestIsLive(live, removed) && removed != []
    requires Ascending(all) && forall e :: e in all <==> e in Tagged(live, true) + Tagged(removed, false)
    ensures Entries(all, live, removed) && Laid(all, end) && all != [] && all[|all| - 1].keep
  {
    forall e
      ensures e in all <==> if e.keep then e.info in live else e.info in removed
    {
      TaggedElements(live, removed, e);
    }
    hide Tagged;
    assert forall i :: 0 <= i < |all| ==> all[i] in all && In(all[i].info, live, removed);
    LastIsKept(live, removed, all);
  }

  lemma TaggedElements(live: seq<Info>, removed: seq<Info>, e: Entry)
    ensures e in Tagged(live, true) + Tagged(removed, false) <==> if e.keep then e.info in live else e.info in removed
  {
    if e.keep && e.info in live {
      var i :| 0 <= i < |live| && live[i] == e.info;
      assert Tagged(live, true)[i] == e;
    }
    if !e.keep && e.info in removed {
      var i :| 0 <= i < |removed| && removed[i] == e.info;
      assert Tagged(removed, false)[i] == e;
    }
  }

  lemma LastIsKept(live: seq<Info>, removed: seq<Info>, all: seq<Entry>)
    requires HighestIsLive(live, removed) && removed != [] && Ascending(all) && Entries(all, live, removed)
    ensures all != [] && all[|all| - 1].keep
  {
    var highest := Entry(live[|live| - 1], true);
    assert highest in all;
    var k :| 0 <= k < |all| && all[k] == highest;
    assert all[|all| - 1] in all;
  }

  /** What compacting and truncating leave behind. */
  lemma Closed(f: Format, live: seq<Info>, removed: seq<Info>, all: seq<Entry>, end: nat,
               before: seq<Byte>, file: seq<Byte>, contents: map<string, seq<Byte>>)
    requires f.Ok() && Laid(all, end) && Entries(all, live, removed) && Layout(f, live, removed, end)
    requires Compacted(all, end, before, file, |all|) && Holds(f, before, live, contents)
    ensures Kept(all, end, |all|) <= |file|
    ensures Layout(f, Moved(all, end, |all|), [], Kept(all, end, |all|))
    ensures Holds(f, file[..Kept(all, end, |all|)], Moved(all, end, |all|), contents)
    ensures Contiguous(f, live, removed, end) ==> Contiguous(f, Moved(all, end, |all|), [], Kept(all, end, |all|))
  {
    hide Moved, Contiguous, Kept, Layout, Laid, Holds, Slot, InPlace;
    KeptFits(all, end, |all|);
    MovedLayout(all, end, f, live, removed);
    MovedHolds(all, end, f, live, removed, before, file, contents);
    StopsWithin(f, Moved(all, end, |all|), Kept(all, end, |all|));
    TruncateHolds(f, file, Moved(all, end, |all|), contents, Kept(all, end, |all|));
    if Contiguous(f, live, removed, end) {
      MovedContiguous(all, end, f, live, removed);
    }
  }

  lemma StopsWithin(f: Format, live: seq<Info>, end: nat)
    requires Layout(f, live, [], end)
    ensures forall a :: a in live ==> f.Stop(a) <= end
  {
    assert forall a :: a in live ==> In(a, live, []);
  }

  lemma NamesAre(f: Format, file: seq<Byte>, live: seq<Info>, contents: map<string, seq<Byte>>)
    requires Holds(f, file, live, contents)
    ensures (set i | 0 <= i < |live| :: live[i].name) == contents.Keys
  {
    forall name | name in contents
      ensures name in (set i | 0 <= i < |live| :: live[i].name)
    {
      assert Listed(live, name);
      var a :| a in live && a.name == name;
    }
  }

  lemma NamesListed(f: Format, file: seq<Byte>, live: seq<Info>, contents: map<string, seq<Byte>>, name: string)
    requires Holds(f, file, live, contents)
    ensures name in contents <==> Listed(live, name)
    ensures name !in contents ==> contents - {name} == contents
  {
  }

  // ---------- Whole runs ----------

  /** The records begin at offset 0 and follow each other without a gap up to size. */
  ghost predicate Gapless(f: Format, live: seq<Info>, size: nat) {
    && (if live == [] then size == 0 else live[0].offset == 0 && f.Stop(live[|live| - 1]) == size)
    && forall i, j :: 0 <= i < |live| && j == i + 1 && j < |live| ==> f.Stop(live[i]) == live[j].offset
  }

  lemma ContiguousIsGapless(f: Format, live: seq<Info>, size: nat)
    requires f.Ok() && Layout(f, live, [], size) && Contiguous(f, live, [], size)
    ensures Gapless(f, live, size)
  {
    var all := Tagged(live, true);
    LiveEntries(f, live, size);
    hide Layout, Contiguous, Entries, Tagged;
    forall i | 0 <= i < |live|
      ensures f.Stop(live[i]) == Start(all, size, i + 1)
    {
      ExtentFills(all, size, f, live, [], i);
    }
    FirstAtZero(f, live, size);
  }

  lemma LiveEntries(f: Format, live: seq<Info>, size: nat)
    requires f.Ok() && Layout(f, live, [], size)
    ensures var all := Tagged(live, true);
            && |all| == |live| && Laid(all, size) && Entries(all, live, [])
            && forall i :: 0 <= i < |all| ==> all[i].info == live[i]
  {
    var all := Tagged(live, true);
    forall e
      ensures e in all <==> if e.keep then e.info in live else e.info in []
    {
      TaggedElements(live, [], e);
      assert all + Tagged([], false) == all;
    }
    assert forall i :: 0 <= i < |live| ==> In(live[i], live, []);
  }

  lemma FirstAtZero(f: Format, live: seq<Info>, size: nat)
    requires f.Ok() && Layout(f, live, [], size) && Contiguous(f, live, [], size)
    ensures if live == [] then size == 0 else live[0].offset == 0
  {
    if size > 0 {
      assert Covered(f, live, [], 0);
      var a :| In(a, live, []) && a.offset <= 0 < f.Stop(a);
      var k :| 0 <= k < |live| && live[k] == a;
    } else if live != [] {
      assert In(live[0], live, []);
    }
  }

  /** Exactly one record is listed for a name that has been written, and none for another. */
  lemma OneRecordPerName(f: Format, file: seq<Byte>, live: seq<Info>, size: nat, contents: map<string, seq<Byte>>, name: string)
    requires Layout(f, live, [], size) && Holds(f, file, live, contents)
    ensures (name in contents) <==> (exists i :: 0 <= i < |live| && live[i].name == name)
    ensures forall i, j :: 0 <= i < |live| && 0 <= j < |live| && live[i].name == name == live[j].name ==> i == j
    ensures forall i :: 0 <= i < |live| && live[i].name == name ==>
              f.Stop(live[i]) <= |file| && file[live[i].offset..f.Stop(live[i])] == contents[name]
  {
    if name in contents {
      assert Listed(live, name);
      var a :| a in live && a.name == name;
      var k :| 0 <= k < |live| && live[k] == a;
    }
    forall i, j | 0 <= i < |live| && 0 <= j < |live| && live[i].name == name == live[j].name
      ensures i == j
    {
      assert live[i] in live && live[j] in live;
    }
  }

  /**
   Any run of writes to an archive, closed: the last record of each name, and where it is. What was written
   before closing, sorted, is all; if nothing was removed it stays where it was. An archive without gaps has
   none from offset 0 on.
   */
  method WriteAndClose(zip: ZipFile, writes: seq<Write>)
    returns (ghost size: nat, ghost before: Placement, ghost all: seq<Entry>)
    requires zip.Valid()
    modifies zip
    ensures zip.contents == AfterWrites(zip.format, old(zip.contents), writes)
    ensures Holds(zip.format, zip.file, zip.filelist, zip.contents) && Layout(zip.format, zip.filelist, [], size)
    ensures AllPlaced(zip.format, old(zip.Placed()), writes, before) && Layout(zip.format, before.live, before.removed, before.end)
    ensures before.removed == [] ==> zip.filelist == before.live && size == before.end
    ensures before.removed != [] ==>
              && |zip.file| == size && Laid(all, before.end) && Entries(all, before.live, before.removed)
              && Repacked(all, before.end, |all|, zip.filelist, size)
    ensures old(Contiguous(zip.format, zip.filelist, zip.toRemove, zip.end)) ==> Gapless(zip.format, zip.filelist, size)
  {
    hide Layout, Holds, HighestIsLive, Contiguous, Laid, Entries, Repacked, Places, AllPlaced;
    NonePlaced(zip.format, zip.Placed());
    var i := 0;
    while i < |writes|
      invariant i <= |writes| && zip.Valid() && AllPlaced(zip.format, old(zip.Placed()), writes[..i], zip.Placed())
      invariant old(Contiguous(zip.format, zip.filelist, zip.toRemove, zip.end)) ==>
                  Contiguous(zip.format, zip.filelist, zip.toRemove, zip.end)
      invariant zip.contents == AfterWrites(zip.format, old(zip.contents), writes[..i])
    {
      ghost var mid := zip.Placed();
      ghost var at, offset := zip.Writestr(writes[i].name, writes[i].stored, writes[i].bytes);
      OneMorePlaced(zip.format, old(zip.Placed()), writes, i, mid, at, offset, zip.Placed());
      assert writes[..i + 1][..i] == writes[..i];
      i := i + 1;
    }
    assert writes[..i] == writes;
    before := zip.Placed();
    size, all := zip.Close();
    if old(Contiguous(zip.format, zip.filelist, zip.toRemove, zip.end)) {
      ContiguousIsGapless(zip.format, zip.filelist, size);
    }
  }
}
