/**
 The layout of the archives that config/MozZipFile.py rewrites: which records are where, which of
 them are still listed, and what moving the listed ones down does to the bytes.
 */
module ZipArchives {

  type Byte = x: int | 0 <= x < 256

  /** A listed record: its file name, the offset of its header, and the stored size of its data. */
  datatype Info = Info(name: string, offset: nat, size: nat)

  /** How the superclass writes a record. The size of a header depends on the name alone. */
  datatype Format = Format(headerSize: string -> nat, header: (string, bool, seq<Byte>) -> seq<Byte>,
                           deflate: seq<Byte> -> seq<Byte>)
  {
    ghost predicate Ok() {
      && (forall name :: headerSize(name) > 0)
      && (forall name, stored, bytes :: |header(name, stored, bytes)| == headerSize(name))
    }

    function Packed(stored: bool, bytes: seq<Byte>): seq<Byte> {
      if stored then bytes else deflate(bytes)
    }

    function Record(name: string, stored: bool, bytes: seq<Byte>): seq<Byte> {
      header(name, stored, bytes) + Packed(stored, bytes)
    }

    function Extent(info: Info): nat { headerSize(info.name) + info.size }

    function Stop(info: Info): nat { info.offset + Extent(info) }
  }

  // ---------- Sorting by offset ----------

  /** An entry of the list that close goes through: a record, and whether it is kept. */
  datatype Entry = Entry(info: Info, keep: bool)

  ghost predicate Ascending(s: seq<Entry>) {
    forall i, j :: 0 <= i < j < |s| ==> s[i].info.offset < s[j].info.offset
  }

  ghost predicate DifferentOffsets(s: seq<Entry>) {
    forall i, j :: 0 <= i < j < |s| ==> s[i].info.offset != s[j].info.offset
  }

  function Insert(x: Entry, s: seq<Entry>): (r: seq<Entry>)
    requires Ascending(s) && forall i :: 0 <= i < |s| ==> s[i].info.offset != x.info.offset
    ensures Ascending(r) && |r| == |s| + 1 && forall y :: y in r <==> y == x || y in s
  {
    if s == [] then [x]
    else if s[|s| - 1].info.offset < x.info.offset then s + [x]
    else
      var r := Insert(x, s[..|s| - 1]);
      assert forall y :: y in s <==> y in s[..|s| - 1] || y == s[|s| - 1];
      assert forall i :: 0 <= i < |r| ==> r[i] in r;
      r + [s[|s| - 1]]
  }

  function SortByOffset(s: seq<Entry>): (r: seq<Entry>)
    requires DifferentOffsets(s)
    ensures Ascending(r) && |r| == |s| && forall y :: y in r <==> y in s
  {
    if s == [] then []
    else
      var front, last := s[..|s| - 1], s[|s| - 1];
      assert forall y :: y in s <==> y in front || y == last;
      var r := SortByOffset(front);
      assert forall i :: 0 <= i < |r| ==> r[i] in front;
      Insert(last, r)
  }

  function Tagged(infos: seq<Info>, keep: bool): seq<Entry> {
    seq(|infos|, i requires 0 <= i < |infos| => Entry(infos[i], keep))
  }

  function Untagged(s: seq<Entry>): seq<Info> {
    seq(|s|, i requires 0 <= i < |s| => s[i].info)
  }

  ghost predicate Sorted(infos: seq<Info>) {
    forall i, j :: 0 <= i < j < |infos| ==> infos[i].offset < infos[j].offset
  }

  ghost predicate OffsetsDiffer(infos: seq<Info>) {
    forall i, j :: 0 <= i < j < |infos| ==> infos[i].offset != infos[j].offset
  }

  /** The listed records in the order of their offsets. */
  function SortInfos(infos: seq<Info>): (r: seq<Info>)
    requires OffsetsDiffer(infos)
    ensures Sorted(r) && |r| == |infos| && forall y :: y in r <==> y in infos
  {
    var s := SortByOffset(Tagged(infos, true));
    var r := Untagged(s);
    assert forall y :: y in r <==> y in infos by { SortedElements(infos, s); }
    r
  }

  lemma SortedElements(infos: seq<Info>, s: seq<Entry>)
    requires forall e :: e in s <==> e in Tagged(infos, true)
    ensures forall y :: y in Untagged(s) <==> y in infos
  {
    forall y
      ensures y in Untagged(s) <==> y in infos
    {
      if y in Untagged(s) {
        var i :| 0 <= i < |s| && s[i].info == y;
        assert s[i] in Tagged(infos, true);
      }
      if y in infos {
        var i :| 0 <= i < |infos| && infos[i] == y;
        assert Tagged(infos, true)[i] in s;
        var j :| 0 <= j < |s| && s[j] == Entry(y, true);
        assert Untagged(s)[j] == y;
      }
    }
  }

  // ---------- The layout ----------

  ghost predicate Disjoint(f: Format, a: Info, b: Info) {
    f.Stop(a) <= b.offset || f.Stop(b) <= a.offset
  }

  ghost predicate NamesDiffer(live: seq<Info>) {
    forall a, b :: a in live && b in live && a.name == b.name ==> a == b
  }

  ghost predicate In(a: Info, live: seq<Info>, removed: seq<Info>) {
    a in live || a in removed
  }

  /** Listed records are sorted and have different names; no two records overlap, and all end by end. */
  ghost predicate Layout(f: Format, live: seq<Info>, removed: seq<Info>, end: nat) {
    && Sorted(live) && OffsetsDiffer(removed)
    && NamesDiffer(live) && (forall a :: a in live ==> a !in removed)
    && (forall a, b :: In(a, live, removed) && In(b, live, removed) && a != b ==> Disjoint(f, a, b))
    && (forall a :: In(a, live, removed) ==> f.Stop(a) <= end)
  }

  /** The record with the highest offset is listed. */
  ghost predicate HighestIsLive(live: seq<Info>, removed: seq<Info>) {
    && (removed != [] ==> live != [])
    && forall b :: b in removed ==> b.offset < live[|live| - 1].offset
  }

  ghost predicate Covered(f: Format, live: seq<Info>, removed: seq<Info>, p: nat) {
    exists a :: In(a, live, removed) && a.offset <= p < f.Stop(a)
  }

  /** The records leave no byte before end uncovered. */
  ghost predicate Contiguous(f: Format, live: seq<Info>, removed: seq<Info>, end: nat) {
    forall p: nat :: p < end ==> Covered(f, live, removed, p)
  }

  /** Each listed record's bytes are those last written under its name. */
  ghost predicate Holds(f: Format, file: seq<Byte>, live: seq<Info>, contents: map<string, seq<Byte>>) {
    && (forall a :: a in live ==>
          a.name in contents && f.Stop(a) <= |file| && file[a.offset..f.Stop(a)] == contents[a.name])
    && (forall name :: name in contents ==> Listed(live, name))
  }

  ghost predicate Listed(live: seq<Info>, name: string) {
    exists a :: a in live && a.name == name
  }

  function Without(live: seq<Info>, i: nat): seq<Info>
    requires i < |live|
  {
    live[..i] + live[i + 1..]
  }

  lemma WithoutElements(live: seq<Info>, i: nat, a: Info)
    requires Sorted(live) && i < |live|
    ensures a in Without(live, i) <==> a in live && a != live[i]
  {
    assert live == live[..i] + [live[i]] + live[i + 1..];
    if a in live && a != live[i] {
      var k :| 0 <= k < |live| && live[k] == a;
      assert if k < i then live[..i][k] == a else live[i + 1..][k - i - 1] == a;
    }
  }

  lemma WithoutSorted(live: seq<Info>, i: nat)
    requires Sorted(live) && i < |live|
    ensures Sorted(Without(live, i))
    ensures forall a :: a in Without(live, i) <==> a in live && a != live[i]
  {
    forall a
      ensures a in Without(live, i) <==> a in live && a != live[i]
    {
      WithoutElements(live, i, a);
    }
  }

  /** A listed record becomes a removed one. */
  lemma RemoveLayout(f: Format, live: seq<Info>, removed: seq<Info>, end: nat, i: nat)
    requires f.Ok() && Layout(f, live, removed, end) && i < |live|
    ensures Layout(f, Without(live, i), removed + [live[i]], end)
    ensures Contiguous(f, live, removed, end) ==> Contiguous(f, Without(live, i), removed + [live[i]], end)
  {
    WithoutSorted(live, i);
    var live', removed' := Without(live, i), removed + [live[i]];
    assert forall a :: In(a, live', removed') <==> In(a, live, removed);
    forall k | 0 <= k < |removed|
      ensures removed[k].offset != live[i].offset
    {
      assert In(removed[k], live, removed) && In(live[i], live, removed) && removed[k] != live[i];
    }
    forall p: nat | p < end && Covered(f, live, removed, p)
      ensures Covered(f, live', removed', p)
    {
    }
  }

  /** A listed record is forgotten. */
  lemma ForgetLayout(f: Format, live: seq<Info>, removed: seq<Info>, end: nat, i: nat)
    requires Layout(f, live, removed, end) && i < |live|
    ensures Layout(f, Without(live, i), removed, end)
  {
    WithoutSorted(live, i);
    assert forall a :: In(a, Without(live, i), removed) ==> In(a, live, removed);
  }

  /** If it was the highest, everything ends where it began. */
  lemma ForgetLast(f: Format, live: seq<Info>, removed: seq<Info>, end: nat)
    requires f.Ok() && Layout(f, live, removed, end) && HighestIsLive(live, removed) && live != []
    ensures Layout(f, Without(live, |live| - 1), removed, live[|live| - 1].offset)
    ensures Contiguous(f, live, removed, end) ==>
              Contiguous(f, Without(live, |live| - 1), removed, live[|live| - 1].offset)
  {
    var last := live[|live| - 1];
    var rest := Without(live, |live| - 1);
    ForgetLayout(f, live, removed, end, |live| - 1);
    WithoutSorted(live, |live| - 1);
    forall a | In(a, rest, removed)
      ensures f.Stop(a) <= last.offset
    {
      assert a.offset < last.offset by {
        if a in rest {
          var k :| 0 <= k < |live| && live[k] == a;
        }
      }
      assert In(a, live, removed) && In(last, live, removed);
    }
    if Contiguous(f, live, removed, end) {
      assert In(last, live, removed);
      forall p: nat | p < last.offset
        ensures Covered(f, rest, removed, p)
      {
        assert Covered(f, live, removed, p);
        CoveredWithout(f, live, removed, p);
      }
    }
  }

  lemma CoveredWithout(f: Format, live: seq<Info>, removed: seq<Info>, p: nat)
    requires Sorted(live) && live != [] && Covered(f, live, removed, p) && p < live[|live| - 1].offset
    ensures Covered(f, Without(live, |live| - 1), removed, p)
  {
    WithoutSorted(live, |live| - 1);
    hide Without;
    var a :| In(a, live, removed) && a.offset <= p < f.Stop(a);
    assert In(a, Without(live, |live| - 1), removed);
  }

  /** A record may be listed where it overlaps no other and no other has its name. */
  lemma AddLayout(f: Format, live: seq<Info>, removed: seq<Info>, end: nat, x: Info, live': seq<Info>)
    requires Layout(f, live, removed, end) && x !in removed && f.Stop(x) <= end
    requires forall a :: In(a, live, removed) ==> Disjoint(f, a, x)
    requires forall a :: a in live ==> a.name != x.name
    requires Sorted(live') && forall a :: a in live' <==> a in live || a == x
    ensures Layout(f, live', removed, end)
  {
    assert forall a :: In(a, live', removed) <==> In(a, live, removed) || a == x;
  }

  lemma WidenLayout(f: Format, live: seq<Info>, removed: seq<Info>, end: nat, later: nat)
    requires Layout(f, live, removed, end) && end <= later
    ensures Layout(f, live, removed, later)
  {
  }

  /** A new record goes at the end and becomes the highest. */
  lemma AppendLayout(f: Format, live: seq<Info>, removed: seq<Info>, x: Info, live': seq<Info>)
    requires f.Ok() && Layout(f, live, removed, x.offset)
    requires forall a :: a in live ==> a.name != x.name
    requires Sorted(live') && forall a :: a in live' <==> a in live || a == x
    ensures Layout(f, live', removed, f.Stop(x)) && HighestIsLive(live', removed)
    ensures Contiguous(f, live, removed, x.offset) ==> Contiguous(f, live', removed, f.Stop(x))
  {
    WidenLayout(f, live, removed, x.offset, f.Stop(x));
    assert forall a :: In(a, live, removed) ==> f.Stop(a) <= x.offset;
    assert x in removed ==> In(x, live, removed);
    AddLayout(f, live, removed, f.Stop(x), x, live');
    AppendHighest(f, live, removed, x, live');
    if Contiguous(f, live, removed, x.offset) {
      forall p: nat | p < f.Stop(x)
        ensures Covered(f, live', removed, p)
      {
        if p < x.offset {
          assert Covered(f, live, removed, p);
          var a :| In(a, live, removed) && a.offset <= p < f.Stop(a);
          assert In(a, live', removed);
        } else {
          assert In(x, live', removed);
        }
      }
    }
  }

  lemma AppendHighest(f: Format, live: seq<Info>, removed: seq<Info>, x: Info, live': seq<Info>)
    requires f.Ok() && forall a :: In(a, live, removed) ==> f.Stop(a) <= x.offset
    requires Sorted(live') && forall a :: a in live' <==> a in live || a == x
    ensures HighestIsLive(live', removed)
  {
    assert x in live';
    var k :| 0 <= k < |live'| && live'[k] == x;
    forall b | b in removed
      ensures b.offset < live'[|live'| - 1].offset
    {
      assert In(b, live, removed);
      assert x.offset <= live'[|live'| - 1].offset;
    }
  }

  /** A record of the same name and size takes the place of one that is not the highest. */
  lemma ReplaceLayout(f: Format, live: seq<Info>, removed: seq<Info>, end: nat, i: nat, x: Info, live': seq<Info>)
    requires f.Ok() && Layout(f, live, removed, end) && HighestIsLive(live, removed) && i + 1 < |live|
    requires x == live[i]
    requires Sorted(live') && forall a :: a in live' <==> a in Without(live, i) || a == x
    ensures Layout(f, live', removed, end) && HighestIsLive(live', removed)
    ensures Contiguous(f, live, removed, end) ==> Contiguous(f, live', removed, end)
  {
    WithoutSorted(live, i);
    assert forall a :: a in live' <==> a in live;
    assert forall a :: In(a, live', removed) <==> In(a, live, removed);
    SameLast(live, live');
    forall p: nat | p < end && Covered(f, live, removed, p)
      ensures Covered(f, live', removed, p)
    {
    }
  }

  lemma SameLast(s: seq<Info>, t: seq<Info>)
    requires Sorted(s) && Sorted(t) && s != [] && forall a :: a in s <==> a in t
    ensures t != [] && s[|s| - 1] == t[|t| - 1]
  {
    assert s[|s| - 1] in t;
    assert t[|t| - 1] in s;
  }

  // ---------- Bytes ----------

  /** The file after content is written at a position not past its end. */
  function Overwrite(file: seq<Byte>, position: nat, content: seq<Byte>): seq<Byte>
    requires position <= |file|
  {
    if position + |content| <= |file| then file[..position] + content + file[position + |content|..]
    else file[..position] + content
  }

  lemma OverwriteAt(file: seq<Byte>, position: nat, content: seq<Byte>)
    requires position <= |file|
    ensures |Overwrite(file, position, content)| >= position + |content|
    ensures Overwrite(file, position, content)[position..position + |content|] == content
  {
  }

  lemma OverwriteBeside(file: seq<Byte>, position: nat, content: seq<Byte>, from: nat, to: nat)
    requires position <= |file| && from <= to <= |file| && (to <= position || position + |content| <= from)
    ensures |Overwrite(file, position, content)| >= to
    ensures Overwrite(file, position, content)[from..to] == file[from..to]
  {
  }

  /** Writing a record, clear of the other listed ones, and listing it. */
  lemma WriteHolds(f: Format, file: seq<Byte>, live: seq<Info>, contents: map<string, seq<Byte>>, x: Info,
                   content: seq<Byte>, live': seq<Info>)
    requires Holds(f, file, live, contents) && x.offset <= |file| && |content| == f.Extent(x)
    requires forall a :: a in live ==> a.name != x.name && Disjoint(f, a, x)
    requires forall a :: a in live' <==> a in live || a == x
    ensures Holds(f, Overwrite(file, x.offset, content), live', contents[x.name := content])
  {
    var file' := Overwrite(file, x.offset, content);
    OverwriteAt(file, x.offset, content);
    forall a | a in live
      ensures f.Stop(a) <= |file'| && file'[a.offset..f.Stop(a)] == file[a.offset..f.Stop(a)]
    {
      OverwriteBeside(file, x.offset, content, a.offset, f.Stop(a));
    }
    hide Overwrite;
    assert Listed(live', x.name);
    forall name | name in contents
      ensures Listed(live', name)
    {
      assert Listed(live, name);
      var a :| a in live && a.name == name;
      assert a in live';
    }
  }

  /** Dropping a name from the list. */
  lemma ForgetHolds(f: Format, file: seq<Byte>, live: seq<Info>, contents: map<string, seq<Byte>>, i: nat)
    requires Holds(f, file, live, contents) && Sorted(live) && NamesDiffer(live) && i < |live|
    ensures Holds(f, file, Without(live, i), contents - {live[i].name})
  {
    hide Holds, Without;
    WithoutSorted(live, i);
    FewerHold(f, file, live, contents, Without(live, i), live[i].name);
  }

  lemma FewerHold(f: Format, file: seq<Byte>, live: seq<Info>, contents: map<string, seq<Byte>>, live': seq<Info>, name: string)
    requires Holds(f, file, live, contents) && forall a :: a in live' <==> a in live && a.name != name
    ensures Holds(f, file, live', contents - {name})
  {
    forall other | other in contents && other != name
      ensures Listed(live', other)
    {
      assert Listed(live, other);
      var a :| a in live && a.name == other;
      assert a in live';
    }
  }

  /** Truncating where everything ends. */
  lemma TruncateHolds(f: Format, file: seq<Byte>, live: seq<Info>, contents: map<string, seq<Byte>>, n: nat)
    requires Holds(f, file, live, contents) && n <= |file| && forall a :: a in live ==> f.Stop(a) <= n
    ensures Holds(f, file[..n], live, contents)
  {
    forall a | a in live
      ensures file[..n][a.offset..f.Stop(a)] == file[a.offset..f.Stop(a)]
    {
    }
  }
}
