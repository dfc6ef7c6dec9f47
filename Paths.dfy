/** The parts of `System.IO.Path` the servers use, with Windows rules (the servers serve
    `D:\wwwroot`): `\` and `/` both separate segments, `X:` names a drive, and
    `GetFullPath` resolves `.` and `..` segments. */
module Paths {
  import opened Text

  const DirectorySeparatorChar := '\\'

  predicate IsDirectorySeparator(c: char)
  {
    c == '\\' || c == '/'
  }

  predicate IsValidDriveChar(c: char)
  {
    'A' <= c <= 'Z' || 'a' <= c <= 'z'
  }

  predicate HasDrive(p: string)
  {
    |p| >= 2 && IsValidDriveChar(p[0]) && p[1] == ':'
  }

  /** `Path.IsPathRooted` */
  predicate IsPathRooted(p: string)
  {
    (|p| >= 1 && IsDirectorySeparator(p[0])) || HasDrive(p)
  }

  /** `Path.Combine(path1, path2)` */
  function Combine(path1: string, path2: string): string
  {
    if path2 == "" then path1
    else if path1 == "" || IsPathRooted(path2) then path2
    else if IsDirectorySeparator(path1[|path1| - 1]) then path1 + path2
    else path1 + [DirectorySeparatorChar] + path2
  }

  /** The segments of `s` between separators, empty ones included. */
  function Split(s: string): (r: seq<string>)
    ensures |r| >= 1
  {
    if s == [] then [""]
    else if IsDirectorySeparator(s[0]) then [""] + Split(s[1..])
    else var t := Split(s[1..]); [[s[0]] + t[0]] + t[1..]
  }

  /** Resolves segments left to right onto a stack of directory names: empty and `.` segments
      are dropped, `..` pops (never above the drive root), any other segment is pushed. */
  function Resolve(stack: seq<string>, segments: seq<string>): seq<string>
    decreases segments
  {
    if segments == [] then stack
    else
      var s := segments[0];
      var next :=
        if s == "" || s == "." then stack
        else if s == ".." then (if stack == [] then [] else stack[..|stack| - 1])
        else stack + [s];
      Resolve(next, segments[1..])
  }

  /** A fully qualified path: drive (`"D:"`), directory names, and whether a separator ends it. */
  datatype FullPath = FullPath(drive: string, segments: seq<string>, trailingSeparator: bool)

  function Join(segments: seq<string>): string
  {
    if segments == [] then "" else [DirectorySeparatorChar] + segments[0] + Join(segments[1..])
  }

  function Render(f: FullPath): string
  {
    if f.segments == [] then f.drive + [DirectorySeparatorChar]
    else f.drive + Join(f.segments) + (if f.trailingSeparator then [DirectorySeparatorChar] else [])
  }

  function Canonical(drive: string, base: seq<string>, rest: string): FullPath
  {
    var segments := Resolve(base, Split(rest));
    FullPath(drive, segments, rest != [] && IsDirectorySeparator(rest[|rest| - 1]) && segments != [])
  }

  /** `Path.GetFullPath(p)` against the process's working directory `cwd`. An empty `p` makes
      .NET throw, so callers pass a non-empty path. A drive-relative path (`X:name`) on another
      drive than `cwd`'s is taken relative to that drive's root. */
  function GetFullPath(p: string, cwd: FullPath): string
    requires p != ""
  {
    if HasDrive(p) && |p| >= 3 && IsDirectorySeparator(p[2]) then
      Render(Canonical(p[..2], [], p[3..]))
    else if HasDrive(p) then
      Render(Canonical(p[..2], if EqualsIgnoreCase(p[..2], cwd.drive) then cwd.segments else [], p[2..]))
    else if IsDirectorySeparator(p[0]) then
      Render(Canonical(cwd.drive, [], p[1..]))
    else
      Render(Canonical(cwd.drive, cwd.segments, p))
  }

  /** No segment of `s` climbs to a parent directory. */
  ghost predicate NoParentSegment(s: string)
  {
    forall seg :: seg in Split(s) ==> seg != ".."
  }

  lemma {:induction false} SplitAround(a: string, c: char, b: string)
    requires IsDirectorySeparator(c)
    ensures Split(a + [c] + b) == Split(a) + Split(b)
  {
    if a == [] {
      assert a + [c] + b == [c] + b;
      assert ([c] + b)[1..] == b;
    } else {
      assert (a + [c] + b)[1..] == a[1..] + [c] + b;
      SplitAround(a[1..], c, b);
    }
  }

  lemma {:induction false} SplitWithoutSeparator(s: string)
    requires forall i :: 0 <= i < |s| ==> !IsDirectorySeparator(s[i])
    ensures Split(s) == [s]
  {
    if s != [] {
      SplitWithoutSeparator(s[1..]);
      assert [s[0]] + s[1..] == s;
    }
  }

  /** Replacing `/` by `\` does not move any segment boundary. */
  lemma {:induction false} SplitReplace(s: string)
    ensures Split(Replace(s, '/', '\\')) == Split(s)
  {
    if s != [] {
      var r := Replace(s, '/', '\\');
      assert r[1..] == Replace(s[1..], '/', '\\');
      SplitReplace(s[1..]);
    }
  }

  /** Stripping leading `/` only drops leading empty segments. */
  lemma {:induction false} SplitTrimStart(s: string)
    ensures forall seg :: seg in Split(TrimStart(s, '/')) ==> seg in Split(s)
  {
    if s != [] && s[0] == '/' {
      SplitTrimStart(s[1..]);
    }
  }

  lemma {:induction false} ResolveAppend(stack: seq<string>, a: seq<string>, b: seq<string>)
    ensures Resolve(stack, a + b) == Resolve(Resolve(stack, a), b)
    decreases a
  {
    if a != [] {
      assert (a + b)[0] == a[0];
      assert (a + b)[1..] == a[1..] + b;
      var s := a[0];
      var next :=
        if s == "" || s == "." then stack
        else if s == ".." then (if stack == [] then [] else stack[..|stack| - 1])
        else stack + [s];
      ResolveAppend(next, a[1..], b);
    } else {
      assert a + b == b;
    }
  }

  /** Without `..` segments resolution only adds directory names below the ones already there. */
  lemma {:induction false} ResolveExtends(stack: seq<string>, segments: seq<string>)
    requires forall i :: 0 <= i < |segments| ==> segments[i] != ".."
    ensures |stack| <= |Resolve(stack, segments)|
    ensures Resolve(stack, segments)[..|stack|] == stack
    decreases segments
  {
    if segments != [] {
      var s := segments[0];
      var next := if s == "" || s == "." then stack else stack + [s];
      ResolveExtends(next, segments[1..]);
      assert next[..|stack|] == stack;
    }
  }

  lemma {:induction false} JoinAppend(a: seq<string>, b: seq<string>)
    ensures Join(a + b) == Join(a) + Join(b)
  {
    if a != [] {
      assert (a + b)[0] == a[0];
      assert (a + b)[1..] == a[1..] + b;
      JoinAppend(a[1..], b);
      calc {
        Join(a + b);
        [DirectorySeparatorChar] + a[0] + Join(a[1..] + b);
        [DirectorySeparatorChar] + a[0] + (Join(a[1..]) + Join(b));
        Join(a) + Join(b);
      }
    } else {
      assert a + b == b;
    }
  }

  /** A path that starts at a drive's root is resolved from that root, whatever the working directory. */
  lemma FullPathFromDriveRoot(drive: string, rest: string, cwd: FullPath)
    requires HasDrive(drive) && |drive| == 2
    ensures GetFullPath(drive + [DirectorySeparatorChar] + rest, cwd) == Render(Canonical(drive, [], rest))
  {
    var p := drive + [DirectorySeparatorChar] + rest;
    assert p[..2] == drive;
    assert p[3..] == rest;
  }

  /** A drive root followed by one plain name is already a full path. */
  lemma FullPathOfRootedName(drive: string, name: string, cwd: FullPath)
    requires HasDrive(drive) && |drive| == 2
    requires name != "" && name != "." && name != ".."
    requires forall i :: 0 <= i < |name| ==> !IsDirectorySeparator(name[i])
    ensures GetFullPath(drive + [DirectorySeparatorChar] + name, cwd) == drive + [DirectorySeparatorChar] + name
  {
    var p := drive + [DirectorySeparatorChar] + name;
    assert p[..2] == drive;
    assert p[3..] == name;
    SplitWithoutSeparator(name);
    assert Resolve([], [name]) == Resolve([name], []);
    assert Join([name]) == [DirectorySeparatorChar] + name + Join([]);
  }

  /** `Path.GetExtension`: the text from the last `.` of the last segment, or `""` when that
      segment has no `.` or its last `.` ends the path. */
  function GetExtension(p: string): (r: string)
    ensures r != "" ==>
      && |r| >= 2 && r[0] == '.' && EndsWith(p, r)
      && forall i :: 1 <= i < |r| ==> r[i] != '.' && !IsDirectorySeparator(r[i])
    ensures r == "" ==>
      forall k :: 0 <= k < |p| - 1 && p[k] == '.' ==>
        exists j :: k < j < |p| && (p[j] == '.' || IsDirectorySeparator(p[j]))
  {
    ExtensionScan(p, |p|)
  }

  /** Scans `p` backwards from position `i`; every character at or after `i` is a plain one. */
  function ExtensionScan(p: string, i: nat): (r: string)
    requires i <= |p|
    requires forall j :: i <= j < |p| ==> p[j] != '.' && !IsDirectorySeparator(p[j])
    ensures r != "" ==>
      && |r| >= 2 && r[0] == '.' && EndsWith(p, r)
      && forall j :: 1 <= j < |r| ==> r[j] != '.' && !IsDirectorySeparator(r[j])
    ensures r == "" ==>
      forall k :: 0 <= k < i && k < |p| - 1 && p[k] == '.' ==>
        exists j :: k < j < |p| && (p[j] == '.' || IsDirectorySeparator(p[j]))
  {
    if i == 0 then ""
    else if p[i - 1] == '.' then
      if i == |p| then "" else p[i - 1..]
    else if IsDirectorySeparator(p[i - 1]) then ""
    else ExtensionScan(p, i - 1)
  }

  /** Lower-casing a path lower-cases its extension and nothing else about it. */
  lemma {:induction false} ExtensionOfLowerCase(p: string, i: nat)
    requires i <= |p|
    requires forall j :: i <= j < |p| ==> p[j] != '.' && !IsDirectorySeparator(p[j])
    ensures ExtensionScan(ToLowerInvariant(p), i) == ToLowerInvariant(ExtensionScan(p, i))
  {
    var q := ToLowerInvariant(p);
    assert forall j :: i <= j < |q| ==> q[j] != '.' && !IsDirectorySeparator(q[j]);
    if i > 0 {
      var c := p[i - 1];
      assert q[i - 1] == ToLower(c);
      assert ToLower(c) == '.' <==> c == '.';
      assert IsDirectorySeparator(ToLower(c)) <==> IsDirectorySeparator(c);
      if c == '.' && i < |p| {
        assert q[i - 1..] == ToLowerInvariant(p[i - 1..]);
      } else if c != '.' && !IsDirectorySeparator(c) {
        ExtensionOfLowerCase(p, i - 1);
      }
    }
  }

  // ---------------------------------------------------------------- letter case

  /** Two segment lists that spell the same names, ignoring the case of ASCII letters. */
  predicate SegmentsAlike(a: seq<string>, b: seq<string>)
  {
    |a| == |b| && forall i :: 0 <= i < |a| ==> EqualsIgnoreCase(a[i], b[i])
  }

  lemma AlikeSlice(a: string, b: string, i: nat, j: nat)
    requires EqualsIgnoreCase(a, b) && i <= j <= |a|
    ensures EqualsIgnoreCase(a[i..j], b[i..j])
  {
    assert forall k :: 0 <= k < j - i ==> a[i..j][k] == a[i + k] && b[i..j][k] == b[i + k];
  }

  lemma AlikeConcat(a1: string, b1: string, a2: string, b2: string)
    requires EqualsIgnoreCase(a1, b1) && EqualsIgnoreCase(a2, b2)
    ensures EqualsIgnoreCase(a1 + a2, b1 + b2)
  {
    forall k | 0 <= k < |a1 + a2| ensures ToUpper((a1 + a2)[k]) == ToUpper((b1 + b2)[k]) {
      if k >= |a1| {
        assert (a1 + a2)[k] == a2[k - |a1|] && (b1 + b2)[k] == b2[k - |b1|];
      }
    }
  }

  /** Upper-casing changes letters only: separators, `:` and `.` are told apart from a letter. */
  lemma AlikeChars(c: char, d: char)
    requires ToUpper(c) == ToUpper(d)
    ensures IsDirectorySeparator(c) <==> IsDirectorySeparator(d)
    ensures IsValidDriveChar(c) <==> IsValidDriveChar(d)
    ensures c == ':' <==> d == ':'
    ensures c == '.' <==> d == '.'
  {
  }

  /** `""`, `.` and `..`, the segments `Resolve` treats apart, have no letters to fold. */
  lemma AlikeDots(a: string, b: string)
    requires EqualsIgnoreCase(a, b)
    ensures a == "" <==> b == ""
    ensures a == "." <==> b == "."
    ensures a == ".." <==> b == ".."
  {
    if |a| >= 1 {
      AlikeChars(a[0], b[0]);
    }
    if |a| == 2 {
      AlikeChars(a[1], b[1]);
    }
  }

  lemma {:induction false} SplitIgnoresCase(a: string, b: string)
    requires EqualsIgnoreCase(a, b)
    ensures SegmentsAlike(Split(a), Split(b))
  {
    if a != [] {
      AlikeChars(a[0], b[0]);
      AlikeSlice(a, b, 1, |a|);
      SplitIgnoresCase(a[1..], b[1..]);
      if !IsDirectorySeparator(a[0]) {
        var t1, t2 := Split(a[1..]), Split(b[1..]);
        AlikeConcat([a[0]], [b[0]], t1[0], t2[0]);
      }
    }
  }

  lemma {:induction false} ResolveIgnoresCase(s1: seq<string>, s2: seq<string>, g1: seq<string>, g2: seq<string>)
    requires SegmentsAlike(s1, s2) && SegmentsAlike(g1, g2)
    ensures SegmentsAlike(Resolve(s1, g1), Resolve(s2, g2))
    decreases g1
  {
    if g1 != [] {
      var x, y := g1[0], g2[0];
      AlikeDots(x, y);
      var next1 :=
        if x == "" || x == "." then s1
        else if x == ".." then (if s1 == [] then [] else s1[..|s1| - 1])
        else s1 + [x];
      var next2 :=
        if y == "" || y == "." then s2
        else if y == ".." then (if s2 == [] then [] else s2[..|s2| - 1])
        else s2 + [y];
      assert SegmentsAlike(next1, next2);
      ResolveIgnoresCase(next1, next2, g1[1..], g2[1..]);
    }
  }

  lemma {:induction false} JoinIgnoresCase(a: seq<string>, b: seq<string>)
    requires SegmentsAlike(a, b)
    ensures EqualsIgnoreCase(Join(a), Join(b))
  {
    if a != [] {
      JoinIgnoresCase(a[1..], b[1..]);
      AlikeConcat([DirectorySeparatorChar], [DirectorySeparatorChar], a[0], b[0]);
      AlikeConcat([DirectorySeparatorChar] + a[0], [DirectorySeparatorChar] + b[0], Join(a[1..]), Join(b[1..]));
    }
  }

  lemma CanonicalIgnoresCase(drive1: string, drive2: string, base: seq<string>, rest1: string, rest2: string)
    requires EqualsIgnoreCase(drive1, drive2) && EqualsIgnoreCase(rest1, rest2)
    ensures EqualsIgnoreCase(Render(Canonical(drive1, base, rest1)), Render(Canonical(drive2, base, rest2)))
  {
    SplitIgnoresCase(rest1, rest2);
    ResolveIgnoresCase(base, base, Split(rest1), Split(rest2));
    var f1, f2 := Canonical(drive1, base, rest1), Canonical(drive2, base, rest2);
    if rest1 != [] {
      AlikeChars(rest1[|rest1| - 1], rest2[|rest2| - 1]);
    }
    assert f1.trailingSeparator == f2.trailingSeparator;
    var sep := [DirectorySeparatorChar];
    if f1.segments == [] {
      AlikeConcat(drive1, drive2, sep, sep);
    } else {
      JoinIgnoresCase(f1.segments, f2.segments);
      AlikeConcat(drive1, drive2, Join(f1.segments), Join(f2.segments));
      var t := if f1.trailingSeparator then sep else [];
      AlikeConcat(drive1 + Join(f1.segments), drive2 + Join(f2.segments), t, t);
    }
  }

  /** Two spellings of a path that differ only in letter case resolve to full paths that differ
      only in letter case. */
  lemma GetFullPathIgnoresCase(p: string, q: string, cwd: FullPath)
    requires p != "" && EqualsIgnoreCase(p, q)
    ensures q != "" && EqualsIgnoreCase(GetFullPath(p, cwd), GetFullPath(q, cwd))
  {
    AlikeChars(p[0], q[0]);
    if |p| >= 2 {
      AlikeChars(p[1], q[1]);
      AlikeSlice(p, q, 0, 2);
    }
    if |p| >= 3 {
      AlikeChars(p[2], q[2]);
    }
    if HasDrive(p) && |p| >= 3 && IsDirectorySeparator(p[2]) {
      AlikeSlice(p, q, 3, |p|);
      CanonicalIgnoresCase(p[..2], q[..2], [], p[3..], q[3..]);
    } else if HasDrive(p) {
      AlikeSlice(p, q, 2, |p|);
      assert EqualsIgnoreCase(p[..2], cwd.drive) <==> EqualsIgnoreCase(q[..2], cwd.drive);
      CanonicalIgnoresCase(p[..2], q[..2], if EqualsIgnoreCase(p[..2], cwd.drive) then cwd.segments else [], p[2..], q[2..]);
    } else if IsDirectorySeparator(p[0]) {
      AlikeSlice(p, q, 1, |p|);
      CanonicalIgnoresCase(cwd.drive, cwd.drive, [], p[1..], q[1..]);
    } else {
      CanonicalIgnoresCase(cwd.drive, cwd.drive, cwd.segments, p, q);
    }
  }
}
