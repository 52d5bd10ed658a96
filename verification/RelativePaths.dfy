/** Relative path construction of config/pathsub.c: what relatepaths writes, and what that resolves to. */
module RelativePaths {

  /** How many characters come before the first slash, or the end. */
  function HeadLength(s: string): (n: nat)
    ensures n <= |s| && (n < |s| ==> s[n] == '/') && forall i :: 0 <= i < n ==> s[i] != '/'
  {
    if s == "" || s[0] == '/' then 0 else 1 + HeadLength(s[1..])
  }

  function SkipSlashes(s: string): (r: string)
    ensures |r| <= |s| && r == s[|s| - |r|..] && (r != "" ==> r[0] != '/')
  {
    if s != "" && s[0] == '/' then SkipSlashes(s[1..]) else s
  }

  /** What getcomponent copies, and where it leaves the path pointer. */
  function Component(s: string): (r: string)
    requires s != ""
    ensures 0 < |r| <= |s| && r == s[..|r|]
  {
    if s[0] == '/' then s[..1] else s[..HeadLength(s)]
  }

  function Rest(s: string): (r: string)
    requires s != ""
    ensures |r| < |s| && r == s[|s| - |r|..] && (r != "" ==> r[0] != '/')
  {
    SkipSlashes(s[|Component(s)|..])
  }

  // ---------- What relatepaths writes ----------

  function Up(): (s: string)
    ensures |s| == 3 && s[0] == '.' && s[1] == '.' && s[2] == '/'
  {
    "../"
  }

  /** One step up for every component getcomponent finds. */
  function Ups(s: string): string {
    if s == "" then "" else Up() + Ups(Rest(s))
  }

  function Down(name: string): (s: string)
    ensures |s| == |name| + 1 && (name != "" ==> s[0] == name[0])
  {
    name + "/"
  }

  /** Every component getcomponent finds, each followed by a slash. */
  function Downs(s: string): string {
    if s == "" then "" else Down(Component(s)) + Downs(Rest(s))
  }

  function CommonLength(s: string, t: string): (n: nat)
    ensures n <= |s| && n <= |t| && s[..n] == t[..n]
    ensures n < |s| && n < |t| ==> s[n] != t[n]
  {
    if s == "" || t == "" || s[0] != t[0] then 0
    else
      var n := CommonLength(s[1..], t[1..]);
      assert s[..n + 1] == [s[0]] + s[1..][..n] && t[..n + 1] == [t[0]] + t[1..][..n];
      n + 1
  }

  /** The length of the longest prefix that ends in a slash and is not longer than n. */
  function AfterSlash(s: string, n: nat): (m: nat)
    requires 0 < n <= |s| && s[0] == '/'
    ensures 0 < m <= n && s[m - 1] == '/'
    ensures forall i :: m <= i < n ==> s[i] != '/'
  {
    if s[n - 1] == '/' then n else AfterSlash(s, n - 1)
  }

  predicate Absolute(s: string) {
    s != "" && s[0] == '/'
  }

  /** Where the paths part: after the last slash of what they have in common. */
  function Cut(from: string, to: string): (c: nat)
    requires Absolute(from) && Absolute(to)
    ensures 0 < c <= |from| && c <= |to| && from[..c] == to[..c] && to[c - 1] == '/'
  {
    var n := CommonLength(from, to);
    var c := AfterSlash(to, n);
    assert from[..c] == from[..n][..c] && to[..c] == to[..n][..c];
    c
  }

  function Relate(from: string, to: string): string
    requires Absolute(from) && Absolute(to)
  {
    var c := Cut(from, to);
    if c == 1 then to + "/" else Ups(from[c..]) + Downs(to[c..])
  }

  /** One and the same path, not the root, written with a slash at its end. */
  predicate SameDirectory(from: string, to: string) {
    from == to && |from| > 1 && from[|from| - 1] == '/'
  }

  lemma NothingBelow(up: string, down: string)
    ensures Ups(up) + Downs(down) == "" <==> up == "" && down == ""
  {
    hide Up, Down, Rest;
    if up != "" {
      UpsAreLong(up);
    } else if down != "" {
      DownsAreLong(down);
    }
  }

  lemma UpsAreLong(s: string)
    requires s != ""
    ensures |Ups(s)| >= 3
  {
  }

  lemma DownsAreLong(s: string)
    requires s != ""
    ensures |Downs(s)| >= 1
  {
    hide Component, Rest;
  }

  lemma CutOfSame(s: string)
    requires Absolute(s) && s[|s| - 1] == '/'
    ensures Cut(s, s) == |s|
  {
  }

  lemma CutAtEnds(from: string, to: string)
    requires Absolute(from) && Absolute(to) && Cut(from, to) > 1
    ensures SameDirectory(from, to) <==> Cut(from, to) == |from| == |to|
  {
    var c := Cut(from, to);
    if SameDirectory(from, to) {
      CutOfSame(from);
    }
    hide Cut;
    assert c == |from| == |to| ==> from[..c] == from && to[..c] == to;
  }

  /** Exactly then nothing is written. */
  lemma NothingToWrite(from: string, to: string)
    requires Absolute(from) && Absolute(to)
    ensures Relate(from, to) == "" <==> SameDirectory(from, to)
  {
    hide Ups, Downs, Cut;
    var c := Cut(from, to);
    if c > 1 {
      CutAtEnds(from, to);
      NothingBelow(from[c..], to[c..]);
    } else if SameDirectory(from, to) {
      CutOfSame(from);
    }
  }

  // ---------- What a path means ----------

  /** The names between the slashes. */
  function Names(s: string): seq<string> {
    if s == "" then []
    else if s[0] == '/' then Names(s[1..])
    else [s[..HeadLength(s)]] + Names(s[HeadLength(s)..])
  }

  /** Following names from a directory: "." stays, ".." goes up and stops at the root. */
  function Follow(dir: seq<string>, names: seq<string>): seq<string>
    decreases |names|
  {
    if names == [] then dir
    else
      var next := if names[0] == "." then dir
                  else if names[0] != ".." then dir + [names[0]]
                  else if dir == [] then [] else dir[..|dir| - 1];
      Follow(next, names[1..])
  }

  /** The directory that a path names, seen from another one. */
  function Resolve(dir: seq<string>, path: string): seq<string> {
    Follow(if Absolute(path) then [] else dir, Names(path))
  }

  predicate Plain(names: seq<string>) {
    forall i :: 0 <= i < |names| ==> names[i] != "." && names[i] != ".."
  }

  predicate NoDoubleSlash(s: string) {
    forall i, j :: 0 <= i < |s| && j == i + 1 && j < |s| ==> s[i] != '/' || s[j] != '/'
  }

  // ---------- Names of composed paths ----------

  lemma HeadOfLonger(s: string, t: string)
    requires HeadLength(s) < |s|
    ensures HeadLength(s + t) == HeadLength(s)
  {
    assert (s + t)[HeadLength(s)] == '/';
    assert forall i :: 0 <= i < HeadLength(s) ==> (s + t)[i] != '/';
  }

  /** A slash separates the names before it from those after it. */
  lemma {:induction false} NamesAcrossSlash(s: string, t: string)
    requires s != "" && s[|s| - 1] == '/'
    ensures Names(s + t) == Names(s) + Names(t)
  {
    if s[0] == '/' {
      assert (s + t)[1..] == s[1..] + t;
      if s[1..] != "" {
        NamesAcrossSlash(s[1..], t);
      }
    } else {
      var n := HeadLength(s);
      HeadOfLonger(s, t);
      assert (s + t)[..n] == s[..n] && (s + t)[n..] == s[n..] + t;
      NamesAcrossSlash(s[n..], t);
    }
  }

  lemma {:induction false} NamesAfterSkip(s: string)
    ensures Names(SkipSlashes(s)) == Names(s)
  {
    if s == "" || s[0] != '/' {
    } else {
      NamesAfterSkip(s[1..]);
    }
  }

  lemma NamesByComponent(s: string)
    requires s != ""
    ensures Names(s) == (if s[0] == '/' then [] else [Component(s)]) + Names(Rest(s))
  {
    NamesAfterSkip(s[|Component(s)|..]);
  }

  lemma NameAlone(name: string)
    requires name != "" && forall i :: 0 <= i < |name| ==> name[i] != '/'
    ensures Names(Down(name)) == [name]
  {
    var c := Down(name);
    assert forall i :: 0 <= i < |name| ==> c[i] == name[i];
    assert c[|name|] == '/';
    assert HeadLength(c) == |name| && c[..|name|] == name;
    NoNames(c[|name|..]);
  }

  lemma NoNames(s: string)
    requires forall i :: 0 <= i < |s| ==> s[i] == '/'
    ensures Names(s) == []
  {
    if s != "" {
      NoNames(s[1..]);
    }
  }

  lemma NameOfComponent(s: string, t: string)
    requires s != ""
    ensures Names(Down(Component(s)) + t) == (if s[0] == '/' then [] else [Component(s)]) + Names(t)
  {
    hide Names;
    var c := Component(s);
    NamesAcrossSlash(Down(c), t);
    if s[0] == '/' {
      NoNames(Down(c));
    } else {
      NameAlone(c);
    }
  }

  lemma {:induction false} NamesOfDowns(s: string)
    ensures Names(Downs(s)) == Names(s)
    decreases |s|
  {
    if s == "" {
    } else {
      NamesByComponent(s);
      NameOfComponent(s, Downs(Rest(s)));
      NamesOfDowns(Rest(s));
    }
  }

  // ---------- Going up and down ----------

  function UpNames(n: nat): seq<string> {
    if n == 0 then [] else [".."] + UpNames(n - 1)
  }

  lemma NamesOfUp(t: string)
    ensures Names(Up() + t) == [".."] + Names(t)
  {
    assert "../"[2] == '/';
    NameOfComponent("..", t);
    assert HeadLength("..") == 2 by { assert ".."[0] != '/' && ".."[1] != '/'; }
    assert Component("..") == ".." && ".." + "/" == "../";
  }

  function Steps(s: string): nat {
    |Names(s)| + if s != "" && s[0] == '/' then 1 else 0
  }

  lemma StepsOfRest(s: string)
    requires s != ""
    ensures Steps(s) == 1 + Steps(Rest(s))
  {
    NamesByComponent(s);
    hide Names, Rest;
  }

  lemma UnfoldUps(s: string, t: string)
    requires s != ""
    ensures Ups(s) + t == Up() + (Ups(Rest(s)) + t)
  {
    hide Up, Rest;
    var more := Ups(Rest(s));
    assert Ups(s) == Up() + more;
    hide Ups;
    assert (Up() + more) + t == Up() + (more + t);
  }

  /** One step up is written for every name, and one more if s begins with a slash. */
  lemma {:induction false} NamesOfUps(s: string, t: string)
    ensures Names(Ups(s) + t) == UpNames(Steps(s)) + Names(t)
    decreases |s|
  {
    hide Names, Up, Steps, Rest;
    if s == "" {
      assert Ups(s) + t == t;
      NoSteps();
    } else {
      hide Ups;
      var rest := Rest(s);
      UnfoldUps(s, t);
      NamesOfUps(rest, t);
      NamesOfUp(Ups(rest) + t);
      StepsOfRest(s);
      MoreUps(Steps(rest), Names(t));
    }
  }

  lemma NoSteps()
    ensures Steps("") == 0
  {
  }

  lemma MoreUps(n: nat, names: seq<string>)
    ensures [".."] + (UpNames(n) + names) == UpNames(n + 1) + names
  {
  }

  lemma {:induction false} FollowUps(dir: seq<string>, below: seq<string>, names: seq<string>)
    ensures Follow(dir + below, UpNames(|below|) + names) == Follow(dir, names)
  {
    if below == [] {
      assert dir + below == dir && UpNames(0) + names == names;
    } else {
      var rest := below[..|below| - 1];
      assert (dir + below)[..|dir + below| - 1] == dir + rest;
      assert UpNames(|below|) + names == [".."] + (UpNames(|rest|) + names);
      FollowUps(dir, rest, names);
    }
  }

  lemma {:induction false} FollowPlain(dir: seq<string>, names: seq<string>)
    requires Plain(names)
    ensures Follow(dir, names) == dir + names
    decreases |names|
  {
    if names == [] {
      assert dir + names == dir;
    } else {
      FollowPlain(dir + [names[0]], names[1..]);
      assert dir + [names[0]] + names[1..] == dir + names;
    }
  }

  // ---------- The output, character by character ----------

  /** Both paths have a slash at i, and the same before it. */
  predicate SharedSlash(s: string, t: string, i: nat) {
    i < |s| && i < |t| && s[..i + 1] == t[..i + 1] && s[i] == '/'
  }

  /** The last slash they share is the one before c. */
  ghost predicate PartAfter(s: string, t: string, c: nat) {
    0 < c && SharedSlash(s, t, c - 1) && forall i :: c <= i < |s| ==> !SharedSlash(s, t, i)
  }

  lemma CutIsLast(from: string, to: string, c: nat)
    requires Absolute(from) && Absolute(to)
    ensures PartAfter(from, to, c) <==> c == Cut(from, to)
  {
    var cut := Cut(from, to);
    CutIsShared(from, to);
    forall i | cut <= i < |from|
      ensures !SharedSlash(from, to, i)
    {
      NoneAfterCut(from, to, i);
    }
    hide Cut, SharedSlash;
  }

  lemma CutIsShared(from: string, to: string)
    requires Absolute(from) && Absolute(to)
    ensures SharedSlash(from, to, Cut(from, to) - 1)
  {
    var c := Cut(from, to);
    hide Cut;
    assert from[c - 1] == from[..c][c - 1] == to[..c][c - 1];
  }

  lemma NoneAfterCut(from: string, to: string, i: nat)
    requires Absolute(from) && Absolute(to) && Cut(from, to) <= i
    ensures !SharedSlash(from, to, i)
  {
    hide CommonLength, AfterSlash, SharedSlash;
    if SharedSlash(from, to, i) {
      SharedIsCommon(from, to, i);
    }
  }

  lemma SharedIsCommon(s: string, t: string, i: nat)
    requires SharedSlash(s, t, i)
    ensures i < CommonLength(s, t) && t[i] == '/'
  {
    var n := CommonLength(s, t);
    hide CommonLength;
    assert forall k :: 0 <= k <= i ==> s[k] == s[..i + 1][k] && t[k] == t[..i + 1][k];
  }

  function Repeated(s: string, n: nat): string {
    if n == 0 then "" else s + Repeated(s, n - 1)
  }

  /** Names, each with a slash after it. */
  function Joined(names: seq<string>): string {
    if names == [] then "" else Down(names[0]) + Joined(names[1..])
  }

  /** "../" for every name, and once more if s begins with a slash. */
  lemma {:induction false} UpsText(s: string)
    ensures Ups(s) == Repeated(Up(), Steps(s))
    decreases |s|
  {
    hide Up, Rest, Steps;
    if s == "" {
      NoSteps();
    } else {
      StepsOfRest(s);
      UpsText(Rest(s));
    }
  }

  /** Every name with a slash after it; if s begins with a slash, two slashes come first. */
  lemma {:induction false} DownsText(s: string)
    ensures Downs(s) == (if Absolute(s) then "//" else "") + Joined(Names(s))
    decreases |s|
  {
    hide Names, Rest, Down, Component;
    if s == "" {
      NoNames(s);
    } else {
      NamesByComponent(s);
      UnfoldDowns(s);
      DownsText(Rest(s));
      hide Downs, Joined;
      if s[0] == '/' {
        SlashDown(s);
        assert Names(s) == Names(Rest(s));
      } else {
        JoinedFirst(Component(s), Names(Rest(s)));
      }
    }
  }

  lemma UnfoldDowns(s: string)
    requires s != ""
    ensures Downs(s) == Down(Component(s)) + Downs(Rest(s))
  {
    hide Down, Component, Rest;
  }

  lemma SlashDown(s: string)
    requires s != "" && s[0] == '/'
    ensures Down(Component(s)) == "//"
  {
  }

  lemma JoinedFirst(name: string, names: seq<string>)
    ensures Joined([name] + names) == Down(name) + Joined(names)
  {
    hide Down;
    assert ([name] + names)[1..] == names;
  }

  /** What is between slashes has a character, and none is a slash. */
  lemma {:induction false} NamesAreNames(s: string, i: nat)
    requires i < |Names(s)|
    ensures Names(s)[i] != "" && '/' !in Names(s)[i]
    decreases |s|
  {
    if s[0] == '/' {
      NamesAreNames(s[1..], i);
    } else if i > 0 {
      NamesAreNames(s[HeadLength(s)..], i - 1);
    }
  }

  /** Joining names loses none. */
  lemma {:induction false} NamesOfJoined(names: seq<string>)
    requires forall i :: 0 <= i < |names| ==> names[i] != "" && '/' !in names[i]
    ensures Names(Joined(names)) == names
  {
    hide Names, Down;
    if names == [] {
      NoNames("");
    } else {
      NameAlone(names[0]);
      EndsInSlash(names[0]);
      NamesAcrossSlash(Down(names[0]), Joined(names[1..]));
      NamesOfJoined(names[1..]);
    }
  }

  lemma EndsInSlash(name: string)
    ensures Down(name)[|name|] == '/'
  {
  }

  /** Up from what is left of one path, and down to what is left of the other. */
  function BelowText(up: string, down: string): string {
    Repeated(Up(), Steps(up)) + ((if Absolute(down) then "//" else "") + Joined(Names(down)))
  }

  /** All that is written, by where the paths part. */
  lemma RelateText(from: string, to: string, c: nat)
    requires Absolute(from) && Absolute(to) && PartAfter(from, to, c)
    ensures c == 1 ==> Relate(from, to) == to + "/"
    ensures c > 1 ==> Relate(from, to) == BelowText(from[c..], to[c..])
  {
    hide PartAfter, Cut, Ups, Downs, Repeated, Joined, Names, Steps, Up;
    CutIsLast(from, to, c);
    if c > 1 {
      UpsText(from[c..]);
      DownsText(to[c..]);
    }
  }

  /** What text leads from one path to the other: stated without saying how it is written. */
  ghost predicate IsOutput(from: string, to: string, text: string) {
    && (text != "" ==> text[|text| - 1] == '/')
    && (PartAfter(from, to, 1) ==> text == to + "/")
    && forall c :: 1 < c <= |from| && c <= |to| && PartAfter(from, to, c) ==> text == BelowText(from[c..], to[c..])
  }

  lemma RelateIsOutput(from: string, to: string)
    requires Absolute(from) && Absolute(to)
    ensures IsOutput(from, to, Relate(from, to))
  {
    hide Relate, PartAfter, BelowText;
    if Relate(from, to) != "" {
      RelatedEndsInSlash(from, to);
    }
    forall c: nat | PartAfter(from, to, c)
      ensures c == 1 ==> Relate(from, to) == to + "/"
      ensures 1 < c <= |from| && c <= |to| ==> Relate(from, to) == BelowText(from[c..], to[c..])
    {
      RelateText(from, to, c);
    }
  }

  lemma {:induction false} UpsEndInSlash(s: string)
    requires s != ""
    ensures Ups(s) != "" && Ups(s)[|Ups(s)| - 1] == '/'
    decreases |s|
  {
    hide Rest;
    if Rest(s) != "" {
      UpsEndInSlash(Rest(s));
    }
  }

  lemma {:induction false} DownsEndInSlash(s: string)
    requires s != ""
    ensures Downs(s) != "" && Downs(s)[|Downs(s)| - 1] == '/'
    decreases |s|
  {
    hide Rest, Component, Down;
    EndsInSlash(Component(s));
    if Rest(s) != "" {
      DownsEndInSlash(Rest(s));
    }
  }

  /** Whatever is written ends in a slash. */
  lemma RelatedEndsInSlash(from: string, to: string)
    requires Absolute(from) && Absolute(to) && Relate(from, to) != ""
    ensures Relate(from, to)[|Relate(from, to)| - 1] == '/'
  {
    hide Ups, Downs, Cut;
    var c := Cut(from, to);
    if c > 1 {
      NothingBelow(from[c..], to[c..]);
      if to[c..] != "" {
        DownsEndInSlash(to[c..]);
      } else {
        UpsEndInSlash(from[c..]);
        NoDowns();
      }
    }
  }

  lemma NoDowns()
    ensures Downs("") == ""
  {
  }

  // ---------- The promise ----------

  lemma SplitAtCut(s: string, c: nat)
    requires 0 < c <= |s| && s[c - 1] == '/'
    ensures Names(s) == Names(s[..c]) + Names(s[c..])
  {
    hide Names;
    var above, below := s[..c], s[c..];
    assert s == above + below;
    NamesAcrossSlash(above, below);
  }

  /** What lies below the cut does not begin with a slash. */
  lemma AfterCut(from: string, to: string)
    requires Normalized(from) && Normalized(to)
    ensures var c := Cut(from, to);
            && from[c - 1] == '/' && (c < |from| ==> from[c] != '/') && (c < |to| ==> to[c] != '/')
  {
    var c := Cut(from, to);
    assert from[c - 1] == from[..c][c - 1] == to[..c][c - 1] == '/';
  }

  lemma UpsStart(s: string, t: string)
    requires s != ""
    ensures !Absolute(Ups(s) + t)
  {
    hide Up, Ups;
    UnfoldUps(s, t);
  }

  lemma DownsStart(t: string)
    requires t != "" && t[0] != '/'
    ensures !Absolute(Downs(t))
  {
    hide Down, Rest;
  }

  lemma RelativeStart(s: string, t: string)
    requires t == "" || t[0] != '/'
    ensures !Absolute(Ups(s) + Downs(t))
  {
    if s != "" {
      UpsStart(s, Downs(t));
    } else if t != "" {
      DownsStart(t);
      assert Ups(s) + Downs(t) == Downs(t);
    }
  }

  lemma {:induction false} NamesThenSlash(s: string)
    ensures Names(s + "/") == Names(s)
  {
    if s == "" {
      assert "/"[1..] == "";
    } else if s[0] == '/' {
      assert (s + "/")[1..] == s[1..] + "/";
      NamesThenSlash(s[1..]);
    } else {
      var n := HeadLength(s);
      assert HeadLength(s + "/") == n by {
        assert forall i :: 0 <= i < n ==> (s + "/")[i] == s[i];
        assert (s + "/")[n] == '/';
      }
      assert (s + "/")[..n] == s[..n] && (s + "/")[n..] == s[n..] + "/";
      NamesThenSlash(s[n..]);
    }
  }

  /** An absolute path with no empty, "." or ".." component; it may end in a slash. */
  predicate Normalized(s: string) {
    Absolute(s) && NoDoubleSlash(s) && Plain(Names(s))
  }

  lemma PlainNames(s: string)
    requires Plain(Names(s))
    ensures Resolve([], s) == Names(s)
  {
    FollowPlain([], Names(s));
  }

  /**
   What relatepaths makes of a path and a normalized one, resolved against the first, is the second,
   exactly when no empty component of the first follows the part they share.
   */
  lemma RelatedExactly(from: string, to: string)
    requires Absolute(from) && Plain(Names(from)) && Normalized(to)
    ensures Resolve(Resolve([], from), Relate(from, to)) == Resolve([], to) <==>
            var c := Cut(from, to); c == 1 || c == |from| || from[c] != '/'
  {
    hide Names, Follow, Ups, Downs, NoDoubleSlash;
    var c := Cut(from, to);
    PlainNames(from);
    PlainNames(to);
    if c == 1 {
      NamesThenSlash(to);
    } else {
      CutInTarget(from, to);
      BelowCut(from, to, c);
      OneUpDiffers(Names(from[..c]), Names(to[c..]));
    }
  }

  lemma OneUpDiffers(dir: seq<string>, names: seq<string>)
    requires dir != [] && Plain(names)
    ensures Follow(dir, names) == dir + names
    ensures Follow(Up1(dir), names) != dir + names
  {
    FollowPlain(dir, names);
    FollowPlain(Up1(dir), names);
    assert |Up1(dir) + names| == |dir + names| - 1;
  }

  /** One directory up. */
  function Up1(dir: seq<string>): seq<string> {
    if dir == [] then [] else dir[..|dir| - 1]
  }

  /** The shared part of the paths has a name, and no slash follows it in the normalized one. */
  lemma CutInTarget(from: string, to: string)
    requires Absolute(from) && Normalized(to) && Cut(from, to) > 1
    ensures var c := Cut(from, to);
            && from[c - 1] == '/' && (c < |to| ==> to[c] != '/') && Names(from[..c]) != []
            && Plain(Names(to[c..])) && Names(to) == Names(from[..c]) + Names(to[c..])
  {
    hide Follow, Names, Cut, NoDoubleSlash, Plain;
    var c := Cut(from, to);
    CutIsClean(from, to, c);
    SplitAtCut(to, c);
    PlainTail(Names(to[..c]), Names(to[c..]));
    HasName(from[..c]);
  }

  lemma CutIsClean(from: string, to: string, c: nat)
    requires Absolute(to) && NoDoubleSlash(to) && 1 < c <= |from| && c <= |to| && from[..c] == to[..c] && to[c - 1] == '/'
    ensures from[c - 1] == '/' && (c < |to| ==> to[c] != '/')
    ensures from[..c][0] == '/' && from[..c][1] != '/'
  {
    var shared := from[..c];
    assert from[c - 1] == shared[c - 1] == to[..c][c - 1] == '/';
    assert shared[0] == to[..c][0] == '/' && shared[1] == to[..c][1] == to[1] != '/';
  }

  lemma PlainTail(names: seq<string>, more: seq<string>)
    requires Plain(names + more)
    ensures Plain(more)
  {
    assert forall i :: 0 <= i < |more| ==> more[i] == (names + more)[|names| + i];
  }

  lemma HasName(s: string)
    requires |s| > 1 && s[0] == '/' && s[1] != '/'
    ensures Names(s) != []
  {
    assert s[1..][0] != '/';
  }

  /** Below the shared part: up once for every name of the first path, and once more for a slash, then down. */
  lemma BelowCut(from: string, to: string, c: nat)
    requires 0 < c <= |from| && c <= |to| && from[c - 1] == '/' && (c < |to| ==> to[c] != '/')
    ensures Resolve(Names(from), Ups(from[c..]) + Downs(to[c..])) ==
            Follow(if c < |from| && from[c] == '/' then Up1(Names(from[..c])) else Names(from[..c]), Names(to[c..]))
  {
    hide Names, Follow, Ups, Downs, UpNames, Resolve, Steps, Up1;
    SplitAtCut(from, c);
    NamesWritten(from, from[c..], to[c..]);
    FollowSteps(Names(from[..c]), from[c..], Names(to[c..]));
  }

  lemma FollowSteps(dir: seq<string>, s: string, names: seq<string>)
    ensures Follow(dir + Names(s), UpNames(Steps(s)) + names) == Follow(if Absolute(s) then Up1(dir) else dir, names)
  {
    hide Names, Follow, UpNames, Up1;
    if Absolute(s) {
      FollowOneUp(dir, Names(s), names);
    } else {
      FollowUps(dir, Names(s), names);
    }
  }

  lemma NamesWritten(from: string, up: string, down: string)
    requires down == "" || down[0] != '/'
    ensures Resolve(Names(from), Ups(up) + Downs(down)) == Follow(Names(from), UpNames(Steps(up)) + Names(down))
  {
    hide Names, Follow, Ups, Downs, UpNames, Steps;
    RelativeStart(up, down);
    NamesOfUps(up, Downs(down));
    NamesOfDowns(down);
  }

  lemma {:induction false} FollowOneUp(dir: seq<string>, below: seq<string>, names: seq<string>)
    ensures Follow(dir + below, UpNames(|below| + 1) + names) == Follow(Up1(dir), names)
  {
    assert UpNames(|below| + 1) + names == UpNames(|below|) + ([".."] + names) by { UpsCommute(|below|, names); }
    FollowUps(dir, below, [".."] + names);
    assert ([".."] + names)[1..] == names;
  }

  lemma {:induction false} UpsCommute(n: nat, names: seq<string>)
    ensures UpNames(n + 1) + names == UpNames(n) + ([".."] + names)
  {
    if n == 0 {
    } else {
      UpsCommute(n - 1, names);
      MoreUps(n, names);
      MoreUps(n - 1, [".."] + names);
    }
  }

  /** For normalized paths it always is. */
  lemma RelatedResolves(from: string, to: string)
    requires Normalized(from) && Normalized(to)
    ensures Resolve(Resolve([], from), Relate(from, to)) == Resolve([], to)
  {
    hide Names, Follow, Ups, Downs;
    RelatedExactly(from, to);
    AfterCut(from, to);
  }
}
