/** How WebServer1 and WebServer5 map a request's URL path to a file under `D:\wwwroot`, and the
    string-prefix guard that decides 403 Forbidden. */
module LocalSite {
  import opened Text
  import opened Paths

  const RootPath := "D:\\wwwroot"
  const IndexFile := "index.html"

  /** A path ending in `/` names the directory's `index.html`. WebServer1 tests
      `urlPath.EndsWith("/")`, WebServer5 `urlPath.Length > 0 && urlPath[^1] == '/'`; the
      contract states that both tests agree. */
  function WithIndexFile(urlPath: string): (r: string)
    ensures EndsWith(urlPath, "/") ==> r == urlPath + IndexFile
    ensures !EndsWith(urlPath, "/") ==> r == urlPath
  {
    if |urlPath| > 0 && urlPath[|urlPath| - 1] == '/' then urlPath + IndexFile else urlPath
  }

  /** `urlPath.TrimStart('/').Replace('/', Path.DirectorySeparatorChar)` */
  function RelativePart(urlPath: string): string
  {
    Replace(TrimStart(urlPath, '/'), '/', DirectorySeparatorChar)
  }

  /** The segments of a directory path `a/`. */
  lemma SplitOfDirectoryPath(a: string)
    ensures Split(a + ['/']) == Split(a) + [""]
  {
    var empty: string := [];
    assert a + ['/'] == a + ['/'] + empty;
    SplitAround(a, '/', empty);
    assert Split(empty) == [""];
  }

  /** The segments of `a/index.html`. */
  lemma SplitOfIndexPath(a: string)
    ensures Split(a + ['/'] + IndexFile) == Split(a) + [IndexFile]
  {
    SplitAround(a, '/', IndexFile);
    IndexFileHasNoSeparator();
    SplitWithoutSeparator(IndexFile);
  }

  lemma IndexFileHasNoSeparator()
    ensures forall i :: 0 <= i < |IndexFile| ==> !IsDirectorySeparator(IndexFile[i])
  {
  }

  lemma IndexFileSegments(urlPath: string)
    requires NoParentSegment(urlPath)
    ensures NoParentSegment(WithIndexFile(urlPath))
  {
    if EndsWith(urlPath, "/") {
      var a := urlPath[..|urlPath| - 1];
      assert urlPath == a + ['/'];
      assert WithIndexFile(urlPath) == a + ['/'] + IndexFile;
      SplitOfDirectoryPath(a);
      SplitOfIndexPath(a);
      var before, after := Split(urlPath), Split(WithIndexFile(urlPath));
      forall seg | seg in after ensures seg != ".." {
        if seg != IndexFile {
          assert seg in Split(a);
          assert seg in before;
        }
      }
    }
  }

  lemma IndexFileNotRooted(urlPath: string)
    requires !IsPathRooted(RelativePart(urlPath))
    ensures !IsPathRooted(RelativePart(WithIndexFile(urlPath)))
  {
    var w := WithIndexFile(urlPath);
    if EndsWith(urlPath, "/") {
      assert w == urlPath + IndexFile;
      TrimStartAppend(urlPath, IndexFile, '/');
      var t := TrimStart(urlPath, '/');
      if t != [] {
        assert TrimStart(w, '/') == t + IndexFile;
        assert t[|t| - 1] == '/';
        ReplaceKeepsFirstTwo(t, IndexFile);
        assert RelativePart(w) == Replace(t + IndexFile, '/', DirectorySeparatorChar);
      } else {
        assert TrimStart(w, '/') == IndexFile;
        IndexFileNotRootedItself();
        assert RelativePart(w) == Replace(IndexFile, '/', DirectorySeparatorChar);
      }
    } else {
      assert w == urlPath;
    }
  }

  lemma IndexFileNotRootedItself()
    ensures !IsPathRooted(Replace(IndexFile, '/', DirectorySeparatorChar))
  {
    var r := Replace(IndexFile, '/', DirectorySeparatorChar);
    assert IndexFile[0] == 'i' && IndexFile[1] == 'n';
    assert r[0] == IndexFile[0] && r[1] == IndexFile[1];
  }

  /** A relative part that ends in a separator and is not rooted keeps its first two characters,
      and so stays unrooted, when more text is appended. */
  lemma ReplaceKeepsFirstTwo(t: string, more: string)
    requires t != [] && t[|t| - 1] == '/'
    requires !IsPathRooted(Replace(t, '/', DirectorySeparatorChar))
    ensures !IsPathRooted(Replace(t + more, '/', DirectorySeparatorChar))
  {
    var rel := Replace(t, '/', DirectorySeparatorChar);
    var r2 := Replace(t + more, '/', DirectorySeparatorChar);
    assert rel[|rel| - 1] == DirectorySeparatorChar;
    assert |t| >= 2;
    assert r2[0] == rel[0] && r2[1] == rel[1];
  }

  /** Appending `index.html` keeps a URL path free of `..` segments and of rooted forms. */
  lemma IndexFileKeepsContainment(urlPath: string)
    requires NoParentSegment(urlPath) && !IsPathRooted(RelativePart(urlPath))
    ensures NoParentSegment(WithIndexFile(urlPath)) && !IsPathRooted(RelativePart(WithIndexFile(urlPath)))
  {
    IndexFileSegments(urlPath);
    IndexFileNotRooted(urlPath);
  }

  lemma CombineNonEmpty(path1: string, path2: string)
    requires path1 != ""
    ensures Combine(path1, path2) != ""
  {
  }

  /** `Path.GetFullPath(Path.Combine(rootPath, relative))` */
  function LocalPath(urlPath: string, cwd: FullPath): string
  {
    CombineNonEmpty(RootPath, RelativePart(urlPath));
    GetFullPath(Combine(RootPath, RelativePart(urlPath)), cwd)
  }

  /** `Path.GetFullPath(rootPath)` */
  function FullRootPath(cwd: FullPath): string
  {
    GetFullPath(RootPath, cwd)
  }

  /** `!localPath.StartsWith(rootPath, StringComparison.OrdinalIgnoreCase)` */
  predicate IsForbidden(localPath: string, cwd: FullPath)
  {
    !StartsWithIgnoreCase(localPath, FullRootPath(cwd))
  }

  /** What the guard is there for: the path is the web root or lies below it. */
  predicate IsInsideRoot(localPath: string)
  {
    EqualsIgnoreCase(localPath, RootPath) || StartsWithIgnoreCase(localPath, RootPath + [DirectorySeparatorChar])
  }

  lemma FullRootPathIsRootPath(cwd: FullPath)
    ensures FullRootPath(cwd) == RootPath
  {
    FullPathOfRootedName("D:", "wwwroot", cwd);
    assert "D:" + [DirectorySeparatorChar] + "wwwroot" == RootPath;
  }

  /** Splitting `wwwroot\rest` puts `wwwroot` in front of the segments of `rest`. */
  lemma SplitUnderRoot(rest: string)
    ensures Split(RootPath[3..] + [DirectorySeparatorChar] + rest) == ["wwwroot"] + Split(rest)
  {
    assert RootPath[3..] == "wwwroot";
    SplitAround("wwwroot", DirectorySeparatorChar, rest);
    SplitWithoutSeparator("wwwroot");
  }

  /** The full path of `D:\wwwroot\rest`, for any relative `rest`. */
  lemma LocalPathUnderRoot(urlPath: string, cwd: FullPath)
    requires RelativePart(urlPath) != "" && !IsPathRooted(RelativePart(urlPath))
    ensures var rest := RootPath[3..] + [DirectorySeparatorChar] + RelativePart(urlPath);
      LocalPath(urlPath, cwd) == Render(Canonical("D:", [], rest))
  {
    var rel := RelativePart(urlPath);
    var rest := RootPath[3..] + [DirectorySeparatorChar] + rel;
    assert Combine(RootPath, rel) == "D:" + [DirectorySeparatorChar] + rest;
    FullPathFromDriveRoot("D:", rest, cwd);
  }

  /** Without `..` segments, resolving `wwwroot\rest` keeps `wwwroot` as the first directory. */
  lemma ResolvedUnderRoot(rel: string)
    requires forall seg :: seg in Split(rel) ==> seg != ".."
    ensures var segments := Resolve([], Split(RootPath[3..] + [DirectorySeparatorChar] + rel));
      |segments| >= 1 && segments[0] == "wwwroot"
  {
    SplitUnderRoot(rel);
    var tail := Split(rel);
    assert forall i :: 0 <= i < |tail| ==> tail[i] != ".." by {
      forall i | 0 <= i < |tail| ensures tail[i] != ".." {
        assert tail[i] in tail;
      }
    }
    ResolveAppend([], ["wwwroot"], tail);
    assert Resolve([], ["wwwroot"]) == Resolve(["wwwroot"], []);
    ResolveExtends(["wwwroot"], tail);
  }

  /** A full path on drive `D:` whose first directory is `wwwroot` starts with the root path. */
  lemma RenderUnderRoot(f: FullPath)
    requires f.drive == "D:" && |f.segments| >= 1 && f.segments[0] == "wwwroot"
    ensures StartsWith(Render(f), RootPath)
    ensures Render(f) == RootPath || StartsWith(Render(f), RootPath + [DirectorySeparatorChar])
  {
    assert f.segments == ["wwwroot"] + f.segments[1..];
    JoinAppend(["wwwroot"], f.segments[1..]);
    assert Join(["wwwroot"]) == [DirectorySeparatorChar] + "wwwroot" + Join([]);
    assert Render(f)[..|RootPath|] == RootPath;
  }

  /** A URL path with no `..` segment that does not turn into a rooted path maps inside the web
      root, so the guard lets it through. */
  lemma ContainedPathNotForbidden(urlPath: string, cwd: FullPath)
    requires NoParentSegment(urlPath)
    requires !IsPathRooted(RelativePart(urlPath))
    ensures StartsWith(LocalPath(urlPath, cwd), RootPath)
    ensures IsInsideRoot(LocalPath(urlPath, cwd))
    ensures !IsForbidden(LocalPath(urlPath, cwd), cwd)
  {
    FullRootPathIsRootPath(cwd);
    var rel := RelativePart(urlPath);
    if rel == "" {
      assert LocalPath(urlPath, cwd) == FullRootPath(cwd);
    } else {
      LocalPathUnderRoot(urlPath, cwd);
      SplitReplace(TrimStart(urlPath, '/'));
      SplitTrimStart(urlPath);
      ResolvedUnderRoot(rel);
      RenderUnderRoot(Canonical("D:", [], RootPath[3..] + [DirectorySeparatorChar] + rel));
    }
  }

  /** A plain file or directory name: no separator, not `.` or `..`, not empty. */
  predicate IsPlainName(name: string)
  {
    name != "" && name != "." && name != ".." && forall i :: 0 <= i < |name| ==> !IsDirectorySeparator(name[i])
  }

  lemma RelativePartOfParent(name: string)
    requires IsPlainName(name)
    ensures RelativePart("/../" + name) == ".." + [DirectorySeparatorChar] + name
  {
    var urlPath := "/../" + name;
    assert TrimStart(urlPath, '/') == "../" + name by {
      assert urlPath[1..] == "../" + name;
    }
  }

  lemma CanonicalOfParent(name: string)
    requires IsPlainName(name)
    ensures Canonical("D:", [], RootPath[3..] + [DirectorySeparatorChar] + (".." + [DirectorySeparatorChar] + name))
      == FullPath("D:", [name], false)
  {
    var rel := ".." + [DirectorySeparatorChar] + name;
    assert Split(rel) == ["..", name] by {
      SplitAround("..", DirectorySeparatorChar, name);
      SplitWithoutSeparator("..");
      SplitWithoutSeparator(name);
    }
    SplitUnderRoot(rel);
    assert Resolve([], ["wwwroot", "..", name]) == [name] by {
      ResolveAppend([], ["wwwroot"], ["..", name]);
      assert Resolve([], ["wwwroot"]) == Resolve(["wwwroot"], []);
      assert Resolve(["wwwroot"], ["..", name]) == Resolve([], [name]);
      assert Resolve([], [name]) == Resolve([name], []);
    }
  }

  /** `/../name` climbs out of the web root to `D:\name`. */
  lemma ParentOfRoot(name: string, cwd: FullPath)
    requires IsPlainName(name)
    ensures LocalPath("/../" + name, cwd) == "D:\\" + name
  {
    RelativePartOfParent(name);
    LocalPathUnderRoot("/../" + name, cwd);
    CanonicalOfParent(name);
    assert Join([name]) == [DirectorySeparatorChar] + name + Join([]);
  }

  /** `D:\name` starts with the root path, ignoring case, exactly when `name` starts with `wwwroot`. */
  lemma PrefixUnderDrive(name: string)
    ensures StartsWithIgnoreCase("D:\\" + name, RootPath) <==> StartsWithIgnoreCase(name, "wwwroot")
  {
    var full := "D:\\" + name;
    assert forall i :: 0 <= i < |name| ==> full[i + 3] == name[i];
    assert forall i :: 0 <= i < 7 ==> RootPath[i + 3] == "wwwroot"[i];
    if StartsWithIgnoreCase(name, "wwwroot") {
      forall i | 0 <= i < |RootPath| ensures ToUpper(full[i]) == ToUpper(RootPath[i]) {
        if i >= 3 {
          assert ToUpper(name[i - 3]) == ToUpper("wwwroot"[i - 3]);
        }
      }
    }
  }

  /** The guard is a string-prefix test: `/../name` is refused exactly when `name` does not begin
      with `wwwroot`, so a file such as `D:\wwwroot.txt` or a sibling directory such as
      `D:\wwwroot-old` outside the web root passes it. */
  lemma ParentOfRootGuard(name: string, cwd: FullPath)
    requires IsPlainName(name)
    ensures IsForbidden(LocalPath("/../" + name, cwd), cwd) <==> !StartsWithIgnoreCase(name, "wwwroot")
  {
    ParentOfRoot(name, cwd);
    FullRootPathIsRootPath(cwd);
    PrefixUnderDrive(name);
  }

  /** The mapping sends `/../wwwroot.txt`, `/../wwwroot-old` and the like to a file or directory
      beside the web root, not inside it, and the guard admits them. `Uri` removes dot segments
      before the server reads the path, so a client cannot deliver these inputs. */
  lemma SiblingPassesGuard(name: string, cwd: FullPath)
    requires IsPlainName(name) && |name| > 7 && StartsWithIgnoreCase(name, "wwwroot")
    ensures !IsForbidden(LocalPath("/../" + name, cwd), cwd)
    ensures !IsInsideRoot(LocalPath("/../" + name, cwd))
  {
    ParentOfRootGuard(name, cwd);
    ParentOfRoot(name, cwd);
    var full := "D:\\" + name;
    assert full[|RootPath|] == name[7];
  }

  lemma RelativePartOfDrivePath(name: string)
    requires IsPlainName(name)
    ensures RelativePart("/D:/" + name) == "D:" + [DirectorySeparatorChar] + name
  {
    var urlPath := "/D:/" + name;
    var t := TrimStart(urlPath, '/');
    assert urlPath[0] == '/' && urlPath[1] == 'D';
    assert |urlPath| - |t| == 1;
    var rest := "D:/" + name;
    assert t == rest by {
      assert t == urlPath[1..];
    }
    var r := Replace(rest, '/', DirectorySeparatorChar);
    var target := "D:" + [DirectorySeparatorChar] + name;
    assert |r| == |target|;
    forall k | 0 <= k < |r| ensures r[k] == target[k] {
      if k >= 3 {
        assert rest[k] == name[k - 3] && target[k] == name[k - 3];
      }
    }
  }

  lemma DrivePathSegments(name: string)
    requires IsPlainName(name)
    ensures NoParentSegment("/D:/" + name)
  {
    var urlPath := "/D:/" + name;
    assert Split(urlPath) == ["", "D:", name] by {
      assert urlPath == "" + ['/'] + ("D:" + ['/'] + name);
      SplitAround("", '/', "D:" + ['/'] + name);
      SplitAround("D:", '/', name);
      SplitWithoutSeparator("D:");
      SplitWithoutSeparator(name);
    }
  }

  lemma LocalPathOfDrivePath(name: string, cwd: FullPath)
    requires IsPlainName(name)
    ensures LocalPath("/D:/" + name, cwd) == "D:\\" + name
  {
    RelativePartOfDrivePath(name);
    var rel := "D:" + [DirectorySeparatorChar] + name;
    assert Combine(RootPath, rel) == rel;
    FullPathOfRootedName("D:", name, cwd);
  }

  /** `/D:/name` needs no `..`: its relative part `D:\name` is rooted, so `Path.Combine` drops the
      web root and the request reaches `D:\name`; the guard refuses it exactly when `name` does
      not begin with `wwwroot`. */
  lemma DriveRootedRequest(name: string, cwd: FullPath)
    requires IsPlainName(name)
    ensures NoParentSegment("/D:/" + name)
    ensures LocalPath("/D:/" + name, cwd) == "D:\\" + name
    ensures IsForbidden(LocalPath("/D:/" + name, cwd), cwd) <==> !StartsWithIgnoreCase(name, "wwwroot")
  {
    DrivePathSegments(name);
    LocalPathOfDrivePath(name, cwd);
    FullRootPathIsRootPath(cwd);
    PrefixUnderDrive(name);
  }

  /** `/D:/wwwroot-old` reaches the sibling directory beside the web root without any `..`
      segment, and passes the guard. */
  lemma DriveRootedSiblingPassesGuard(name: string, cwd: FullPath)
    requires IsPlainName(name) && |name| > 7 && StartsWithIgnoreCase(name, "wwwroot")
    ensures NoParentSegment("/D:/" + name)
    ensures !IsForbidden(LocalPath("/D:/" + name, cwd), cwd)
    ensures !IsInsideRoot(LocalPath("/D:/" + name, cwd))
  {
    DriveRootedRequest(name, cwd);
    var full := "D:\\" + name;
    assert full[|RootPath|] == name[7];
  }
}
