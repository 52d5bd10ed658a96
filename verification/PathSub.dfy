/**
 The pointer-walking routines of config/pathsub.c. Strings are NUL-terminated in arrays, and a
 pointer is an index; the ghost arguments are the strings that pointers point at.
 */
module PathSub {
  import opened RelativePaths

  const NUL: char := '\0'

  /** From index at on the array holds s and its terminator. */
  ghost predicate Holds(a: array<char>, at: nat, s: string)
    reads a
  {
    at + |s| < a.Length && a[at..at + |s|] == s && a[at + |s|] == NUL && NUL !in s
  }

  lemma HoldsAt(a: array<char>, at: nat, s: string, i: nat)
    requires Holds(a, at, s) && i <= |s|
    ensures at + i < a.Length
    ensures a[at + i] == if i < |s| then s[i] else NUL
    ensures i < |s| ==> s[i] != NUL
    ensures Holds(a, at + i, s[i..])
  {
    if i < |s| {
      assert a[at..at + |s|][i] == s[i];
    }
    assert a[at + i..at + |s|] == a[at..at + |s|][i..];
  }

  // ---------- getcomponent ----------

  /** Copies the characters before the next slash or the end: the do-while loop. */
  method CopyHead(path: array<char>, at: nat, name: array<char>, ghost s: string) returns (n: nat)
    requires path != name && Holds(path, at, s) && s != "" && s[0] != '/' && |s| < name.Length
    modifies name
    ensures n == HeadLength(s) && name[..n] == s[..n]
  {
    HoldsAt(path, at, s, 0);
    name[0] := path[at];
    n := 1;
    HoldsAt(path, at, s, n);
    while path[at + n] != '/' && path[at + n] != NUL
      invariant 0 < n <= |s| && name[..n] == s[..n]
      invariant forall i :: 0 <= i < n ==> s[i] != '/'
      invariant at + n < path.Length && path[at + n] == if n < |s| then s[n] else NUL
      decreases |s| - n
    {
      name[n] := path[at + n];
      n := n + 1;
      HoldsAt(path, at, s, n);
    }
    HoldsAt(path, at, s, n);
  }

  /** Moves past slashes. */
  method PassSlashes(path: array<char>, at: nat, ghost s: string) returns (next: nat)
    requires Holds(path, at, s)
    ensures Holds(path, next, SkipSlashes(s))
  {
    next := at;
    ghost var left := s;
    HoldsAt(path, at, left, 0);
    while path[next] == '/'
      invariant next < path.Length && Holds(path, next, left) && SkipSlashes(left) == SkipSlashes(s)
      invariant path[next] == if left != "" then left[0] else NUL
      decreases |left|
    {
      HoldsAt(path, next, left, 1);
      left := left[1..];
      next := next + 1;
    }
  }

  lemma SlashComponent(s: string)
    requires s != "" && s[0] == '/'
    ensures Component(s) == [s[0]] && Rest(s) == SkipSlashes(s)
  {
  }

  lemma NameComponent(s: string)
    requires s != "" && s[0] != '/'
    ensures Component(s) == s[..HeadLength(s)] && Rest(s) == SkipSlashes(s[HeadLength(s)..])
  {
  }

  /** The terminator completes what has been copied. */
  lemma Terminated(a: array<char>, s: string)
    requires |s| < a.Length && a[..|s|] == s && a[|s|] == NUL && NUL !in s
    ensures Holds(a, 0, s)
  {
  }

  lemma NoNulInComponent(a: array<char>, at: nat, s: string)
    requires Holds(a, at, s) && s != ""
    ensures NUL !in Component(s)
  {
    hide Component;
  }

  /** Copies the first component; n is its length, and next where it ends in the path. */
  method CopyComponent(path: array<char>, at: nat, name: array<char>, ghost s: string)
    returns (n: nat, next: nat, ghost left: string)
    requires path != name && Holds(path, at, s) && s != "" && |s| < name.Length
    modifies name
    ensures n == |Component(s)| && name[..n] == Component(s)
    ensures Holds(path, next, left) && SkipSlashes(left) == Rest(s)
  {
    hide Holds, Component, Rest, HeadLength, SkipSlashes;
    HoldsAt(path, at, s, 0);
    if path[at] == '/' {
      SlashComponent(s);
      name[0] := '/';
      return 1, at, s;
    }
    NameComponent(s);
    n := CopyHead(path, at, name, s);
    HoldsAt(path, at, s, n);
    return n, at + n, s[n..];
  }

  /** Null when the path is at its end; otherwise the next component goes to name and the pointer past its slashes. */
  method GetComponent(path: array<char>, at: nat, name: array<char>, ghost s: string) returns (found: bool, next: nat)
    requires path != name && Holds(path, at, s) && |s| < name.Length
    modifies name
    ensures found <==> s != ""
    ensures found ==> Holds(name, 0, Component(s)) && Holds(path, next, Rest(s))
  {
    hide Holds, Component, Rest, HeadLength, SkipSlashes;
    HoldsAt(path, at, s, 0);
    if path[at] == NUL {
      return false, at;
    }
    found := true;
    NoNulInComponent(path, at, s);
    var n;
    ghost var left;
    n, next, left := CopyComponent(path, at, name, s);
    name[n] := NUL;
    Terminated(name, Component(s));
    next := PassSlashes(path, next, left);
  }

  // ---------- Writing ----------

  /** strcpy, returning how much was copied before the terminator. */
  method CopyString(out: array<char>, at: nat, src: array<char>, ghost s: string) returns (n: nat)
    requires out != src && Holds(src, 0, s) && at + |s| < out.Length
    modifies out
    ensures n == |s| && Holds(out, at, s)
    ensures out[..at] == old(out[..at])
  {
    n := 0;
    HoldsAt(src, 0, s, 0);
    while src[n] != NUL
      invariant n <= |s| && n < src.Length && src[n] == if n < |s| then s[n] else NUL
      invariant out[at..at + n] == s[..n] && out[..at] == old(out[..at])
      decreases |s| - n
    {
      HoldsAt(src, 0, s, n);
      out[at + n] := src[n];
      n := n + 1;
      HoldsAt(src, 0, s, n);
    }
    HoldsAt(src, 0, s, n);
    out[at + n] := NUL;
    assert out[at..at + |s|] == s;
  }

  /** One more step up. */
  method WriteUp(out: array<char>, len: nat)
    requires len + 3 < out.Length
    modifies out
    ensures Holds(out, len, Up()) && out[..len] == old(out[..len])
  {
    out[len], out[len + 1], out[len + 2], out[len + 3] := '.', '.', '/', NUL;
  }

  /** A component and a slash; returns the new length. */
  method WriteDown(out: array<char>, len: nat, name: array<char>, ghost s: string) returns (longer: nat)
    requires out != name && Holds(name, 0, s) && len + |s| + 1 < out.Length
    modifies out
    ensures longer == len + |s| + 1 && Holds(out, len, Down(s)) && out[..len] == old(out[..len])
  {
    var n := CopyString(out, len, name, s);
    assert out[len..len + n] == s;
    out[len + n], out[len + n + 1] := '/', NUL;
    longer := len + n + 1;
    assert out[len..longer] == Down(s);
  }

  // ---------- relatepaths ----------

  lemma CommonLengthIs(s: string, t: string, n: nat)
    requires n <= |s| && n <= |t| && s[..n] == t[..n] && (n == |s| || n == |t| || s[n] != t[n])
    ensures CommonLength(s, t) == n
  {
    var m := CommonLength(s, t);
    if m < n {
      Agree(s, t, n, m);
    } else if n < m {
      Agree(s, t, m, n);
    }
  }

  lemma Agree(s: string, t: string, n: nat, i: nat)
    requires n <= |s| && n <= |t| && s[..n] == t[..n] && i < n
    ensures s[i] == t[i]
  {
    assert s[..n][i] == t[..n][i];
  }

  /** Walks both paths to where they first differ or end. */
  method FindDifference(from: array<char>, to: array<char>, ghost f: string, ghost t: string) returns (cp: nat, cp2: nat)
    requires Holds(from, 0, f) && Holds(to, 0, t)
    ensures cp == cp2 == CommonLength(f, t)
  {
    hide Holds, CommonLength;
    cp, cp2 := 0, 0;
    HoldsAt(to, 0, t, 0);
    HoldsAt(from, 0, f, 0);
    while to[cp] == from[cp2]
      invariant cp == cp2 && cp <= |t| && cp <= |f| && f[..cp] == t[..cp]
      invariant cp < to.Length && to[cp] == if cp < |t| then t[cp] else NUL
      invariant cp < from.Length && from[cp] == if cp < |f| then f[cp] else NUL
      decreases |t| - cp
    {
      HoldsAt(to, 0, t, cp);
      HoldsAt(from, 0, f, cp);
      if to[cp] == NUL {
        break;
      }
      OneMoreAgrees(f, t, cp);
      cp, cp2 := cp + 1, cp2 + 1;
      HoldsAt(to, 0, t, cp);
      HoldsAt(from, 0, f, cp);
    }
    HoldsAt(to, 0, t, cp);
    HoldsAt(from, 0, f, cp);
    CommonLengthIs(f, t, cp);
  }

  lemma OneMoreAgrees(s: string, t: string, n: nat)
    requires n < |s| && n < |t| && s[..n] == t[..n] && s[n] == t[n]
    ensures s[..n + 1] == t[..n + 1]
  {
    assert s[..n + 1] == s[..n] + [s[n]] && t[..n + 1] == t[..n] + [t[n]];
  }

  /** Back to after a slash, in both. */
  method FindCut(from: array<char>, to: array<char>, ghost f: string, ghost t: string) returns (cp: nat, cp2: nat)
    requires Holds(from, 0, f) && Holds(to, 0, t) && Absolute(f) && Absolute(t)
    ensures cp == cp2 == Cut(f, t)
  {
    hide Holds, CommonLength;
    cp, cp2 := FindDifference(from, to, f, t);
    assert cp > 0 by { FirstAgrees(f, t); }
    ghost var n := cp;
    HoldsAt(to, 0, t, cp - 1);
    while to[cp - 1] != '/'
      invariant 0 < cp == cp2 <= n <= |t| && AfterSlash(t, cp) == AfterSlash(t, n)
      invariant cp - 1 < to.Length && to[cp - 1] == t[cp - 1]
      decreases cp
    {
      cp, cp2 := cp - 1, cp2 - 1;
      HoldsAt(to, 0, t, cp - 1);
    }
  }

  lemma FirstAgrees(s: string, t: string)
    requires Absolute(s) && Absolute(t)
    ensures CommonLength(s, t) > 0
  {
  }

  /** What has been written grows by a string put after it. */
  lemma Grown(out: array<char>, len: nat, written: string, s: string)
    requires len <= out.Length && out[..len] == written && Holds(out, len, s)
    ensures len + |s| < out.Length && out[..len + |s|] == written + s && out[len + |s|] == NUL
  {
  }

  /** What has been written and what is still to come make up the whole. */
  ghost predicate UpsLeft(written: string, left: string, whole: string) {
    written + Ups(left) == whole
  }

  lemma UpsBegin(s: string)
    ensures UpsLeft("", s, Ups(s))
  {
    hide Ups;
  }

  lemma UpsEnd(written: string, whole: string)
    requires UpsLeft(written, "", whole)
    ensures written == whole
  {
  }

  lemma UpsGrow(written: string, left: string, whole: string)
    requires left != "" && UpsLeft(written, left, whole)
    ensures UpsLeft(written + Up(), Rest(left), whole)
    ensures |written| + 3 <= |whole| && |Rest(left)| < |left|
  {
    hide Up, Rest;
  }

  /** One more step up, after what has been written. */
  method AppendUp(out: array<char>, len: nat, ghost written: string)
    requires len + 3 < out.Length && out[..len] == written
    modifies out
    ensures len + 3 == |written + Up()| && out[..len + 3] == written + Up() && out[len + 3] == NUL
  {
    hide Holds, Up;
    WriteUp(out, len);
    Grown(out, len, written, Up());
  }

  /** A step up for every component left in path. */
  method WriteUps(path: array<char>, at: nat, out: array<char>, buf: array<char>, ghost s: string) returns (len: nat)
    requires path != buf && out != buf && out != path && Holds(path, at, s) && |s| < buf.Length
    requires |Ups(s)| < out.Length
    modifies out, buf
    ensures len == |Ups(s)| && out[..len] == Ups(s)
    ensures if len > 0 then out[len] == NUL else unchanged(out)
  {
    hide Holds, Ups, Rest, Component, Up, UpsLeft;
    len := 0;
    ghost var left, written := s, "";
    UpsBegin(s);
    var found, cp := GetComponent(path, at, buf, left);
    while found
      invariant found <==> left != ""
      invariant |left| <= |s| && (found ==> Holds(path, cp, Rest(left)))
      invariant UpsLeft(written, left, Ups(s)) && len == |written|
      invariant len < out.Length && out[..len] == written
      invariant if len > 0 then out[len] == NUL else unchanged(out)
      decreases |left|
    {
      UpsGrow(written, left, Ups(s));
      AppendUp(out, len, written);
      written := written + Up();
      len := len + 3;
      left := Rest(left);
      found, cp := GetComponent(path, cp, buf, left);
    }
    UpsEnd(written, Ups(s));
  }

  lemma NoUps()
    ensures Ups("") == "" && Downs("") == ""
  {
  }

  lemma DownsGrow(written: string, left: string, whole: string)
    requires left != "" && written + Downs(left) == whole
    ensures written + Down(Component(left)) + Downs(Rest(left)) == whole
    ensures |written| + |Component(left)| + 1 <= |whole|
  {
    hide Down, Component, Rest;
  }

  /** A component and a slash, after what has been written. */
  method AppendDown(out: array<char>, len: nat, name: array<char>, ghost s: string, ghost written: string) returns (longer: nat)
    requires out != name && Holds(name, 0, s) && len + |s| + 1 < out.Length && out[..len] == written
    modifies out
    ensures longer == |written + Down(s)| < out.Length && out[..longer] == written + Down(s) && out[longer] == NUL
  {
    hide Holds, Down;
    longer := WriteDown(out, len, name, s);
    Grown(out, len, written, Down(s));
  }

  /** Every component left in path, after what has been written. */
  method WriteDowns(path: array<char>, at: nat, out: array<char>, from: nat, buf: array<char>, ghost s: string)
    returns (len: nat)
    requires path != buf && out != buf && out != path && Holds(path, at, s) && |s| < buf.Length
    requires from + |Downs(s)| < out.Length
    modifies out, buf
    ensures len == from + |Downs(s)| && out[..len] == old(out[..from]) + Downs(s)
    ensures if len > from then out[len] == NUL else unchanged(out)
  {
    len := from;
    ghost var left, written, whole := s, out[..from], out[..from] + Downs(s);
    NoUps();
    hide Holds, Downs, Down, Rest, Component;
    var found, cp := GetComponent(path, at, buf, left);
    while found
      invariant found <==> left != ""
      invariant |left| <= |s| && (found ==> Holds(path, cp, Rest(left)) && Holds(buf, 0, Component(left)))
      invariant written + Downs(left) == whole && len == |written|
      invariant from <= len < out.Length && out[..len] == written
      invariant if len > from then out[len] == NUL else unchanged(out)
      decreases |left|
    {
      DownsGrow(written, left, whole);
      len := AppendDown(out, len, buf, Component(left), written);
      written := written + Down(Component(left));
      left := Rest(left);
      found, cp := GetComponent(path, cp, buf, left);
    }
  }

  /**
   Writes how to get from one absolute path to another, and returns the length. Between a path and itself,
   when that ends in a slash and is not the root, nothing is written, not even a terminator.
   */
  method RelatePaths(from: array<char>, to: array<char>, outpath: array<char>, ghost f: string, ghost t: string)
    returns (len: nat)
    requires outpath != from && outpath != to && Holds(from, 0, f) && Holds(to, 0, t)
    requires Absolute(f) && Absolute(t) && |Relate(f, t)| < outpath.Length
    modifies outpath
    ensures len == |Relate(f, t)| && outpath[..len] == Relate(f, t)
    ensures len > 0 ==> outpath[len - 1] == '/'
    ensures PartAfter(f, t, 1) ==> len == |t| + 1 && outpath[..|t|] == t
    ensures IsOutput(f, t, outpath[..len])
    ensures SameDirectory(f, t) <==> len == 0
    ensures if SameDirectory(f, t) then unchanged(outpath) else outpath[len] == NUL
  {
    NothingToWrite(f, t);
    RelateIsOutput(f, t);
    hide Holds, Ups, Downs, Cut, SameDirectory, IsOutput, PartAfter;
    var cp, cp2 := FindCut(from, to, f, t);
    if cp - 1 == 0 {
      len := CopyWithSlash(outpath, to, t);
    } else {
      len := WriteBelow(from, cp2, to, cp, outpath, f, t);
    }
    OutputEnds(outpath, len, f, t);
  }

  lemma OutputEnds(outpath: array<char>, len: nat, from: string, to: string)
    requires len <= outpath.Length && IsOutput(from, to, outpath[..len])
    ensures len > 0 ==> outpath[len - 1] == '/'
    ensures PartAfter(from, to, 1) ==> len == |to| + 1 && outpath[..|to|] == to
  {
    hide PartAfter, BelowText;
    assert PartAfter(from, to, 1) ==> outpath[..|to|] == outpath[..len][..|to|];
  }

  /** The two writing loops, from where the paths part. */
  method WriteBelow(from: array<char>, cp2: nat, to: array<char>, cp: nat, outpath: array<char>, ghost f: string, ghost t: string)
    returns (len: nat)
    requires outpath != from && outpath != to && Holds(from, 0, f) && Holds(to, 0, t) && cp2 <= |f| && cp <= |t|
    requires |Ups(f[cp2..]) + Downs(t[cp..])| < outpath.Length
    modifies outpath
    ensures len == |Ups(f[cp2..]) + Downs(t[cp..])| && outpath[..len] == Ups(f[cp2..]) + Downs(t[cp..])
    ensures if len > 0 then outpath[len] == NUL else unchanged(outpath)
  {
    hide Holds, Ups, Downs;
    HoldsAt(from, 0, f, cp2);
    HoldsAt(to, 0, t, cp);
    LongEnough(from, f);
    LongEnough(to, t);
    var buf := new char[from.Length + to.Length];
    len := WriteUps(from, cp2, outpath, buf, f[cp2..]);
    len := WriteDowns(to, cp, outpath, len, buf, t[cp..]);
  }

  lemma LongEnough(a: array<char>, s: string)
    requires Holds(a, 0, s)
    ensures |s| < a.Length
  {
  }

  /** The whole target path: a slash is added in any case, for the character looked at is the terminator. */
  method CopyWithSlash(outpath: array<char>, to: array<char>, ghost t: string) returns (len: nat)
    requires outpath != to && Holds(to, 0, t) && |t| + 1 < outpath.Length
    modifies outpath
    ensures len == |t| + 1 && outpath[..len] == t + "/" && outpath[len] == NUL
  {
    len := CopyString(outpath, 0, to, t);
    if outpath[len] != '/' {
      outpath[len] := '/';
      len := len + 1;
      outpath[len] := NUL;
    }
    assert outpath[..|t|] == t;
  }
}
