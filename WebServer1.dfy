/** WebServer1: a single-threaded file server over `D:\wwwroot` with a `Dictionary` file cache
    that a `FileSystemWatcher` keeps up to date. */
module WebServer1 {
  import opened Text
  import opened Paths
  import opened Files
  import opened FileCaching
  import opened LocalSite
  import opened ContentTypes
  import opened FileServing

  /** What `ProcessRequest` does for `urlPath`, given the cache and the disk. */
  function Respond(entries: map<string, Bytes>, disk: Disk, urlPath: string): Exchange
  {
    Serve(entries, disk, LocalPath(WithIndexFile(urlPath), disk.workingDirectory))
  }

  /** The `try` block of `ProcessRequest` for the mapped `localPath`; the `finally` block closes
      the output stream on every path. */
  function Serve(entries: map<string, Bytes>, disk: Disk, localPath: string): Exchange
  {
    var cwd := disk.workingDirectory;
    if IsForbidden(localPath, cwd) then
      Exchange(ErrorReply(StatusForbidden, "403 Forbidden", true), entries)
    else
      var found := LookUp(entries, disk, localPath);
      match found
      case Hit(content) =>
        Exchange(Reply(StatusOK, GetContentType(localPath), Content(content), false, true), Store(entries, localPath, found))
      case Loaded(content) =>
        Exchange(Reply(StatusOK, GetContentType(localPath), Content(content), false, true), Store(entries, localPath, found))
      case Missing =>
        Exchange(ErrorReply(StatusNotFound, "404 Not Found", true), entries)
      case ReadFailed =>
        Exchange(ErrorReply(StatusInternalServerError, "500 Internal Server Error", true), entries)
  }

  /** The server's static state: the file cache the watcher handlers share with the request loop. */
  class Program {
    const fileCache: FileCache

    constructor()
      ensures fresh(fileCache) && fileCache.entries == map[]
    {
      fileCache := new FileCache();
    }

    method OnFileChanged(fullPath: string)
      modifies fileCache
      ensures fileCache.entries == Invalidate(old(fileCache.entries), Changed(fullPath))
    {
      fileCache.Remove(fullPath);
    }

    method OnFileRenamed(oldFullPath: string, fullPath: string)
      modifies fileCache
      ensures fileCache.entries == Invalidate(old(fileCache.entries), Renamed(oldFullPath, fullPath))
    {
      fileCache.Remove(oldFullPath);
      fileCache.Remove(fullPath);
    }

    /** The watcher's wiring: `Changed`, `Created` and `Deleted` go to `OnFileChanged`,
        `Renamed` to `OnFileRenamed`. */
    method OnWatcherEvent(e: WatcherEvent)
      modifies fileCache
      ensures fileCache.entries == Invalidate(old(fileCache.entries), e)
    {
      match e
      case Renamed(oldFullPath, fullPath) =>
        OnFileRenamed(oldFullPath, fullPath);
      case _ =>
        OnFileChanged(e.fullPath);
    }

    method ProcessRequest(urlPath: string, disk: Disk) returns (reply: Reply)
      modifies fileCache
      ensures Exchange(reply, fileCache.entries) == Respond(old(fileCache.entries), disk, urlPath)
    {
      var path := urlPath;
      if EndsWith(path, "/") {
        path := path + IndexFile;
      }
      var localPath := LocalPath(path, disk.workingDirectory);
      reply := ServeFile(localPath, disk);
    }

    method ServeFile(localPath: string, disk: Disk) returns (reply: Reply)
      modifies fileCache
      ensures Exchange(reply, fileCache.entries) == Serve(old(fileCache.entries), disk, localPath)
    {
      var cwd := disk.workingDirectory;
      var rootPath := FullRootPath(cwd);
      if !StartsWithIgnoreCase(localPath, rootPath) {
        reply := ErrorReply(StatusForbidden, "403 Forbidden", true);
        return;
      }
      var found, content := fileCache.TryGetValue(localPath);
      if !found && disk.FileExists(localPath) {
        var read := disk.ReadAllBytes(localPath);
        if read.Failure? {
          reply := ErrorReply(StatusInternalServerError, "500 Internal Server Error", true);
          return;
        }
        found, content := true, read.value;
      }
      if found {
        fileCache.Set(localPath, content);
        reply := Reply(StatusOK, GetContentType(localPath), Content(content), false, true);
      } else {
        reply := ErrorReply(StatusNotFound, "404 Not Found", true);
      }
    }
  }

  /** Every outcome closes the response, 403 included. */
  lemma AlwaysCloses(entries: map<string, Bytes>, disk: Disk, localPath: string)
    ensures Serve(entries, disk, localPath).reply.closed
  {
  }

  /** 403 comes from the guard alone; it leaves the cache alone and does not look at the disk. */
  lemma ForbiddenLeavesCache(entries: map<string, Bytes>, disk: Disk, localPath: string)
    ensures Serve(entries, disk, localPath).reply.status == StatusForbidden <==> IsForbidden(localPath, disk.workingDirectory)
    ensures IsForbidden(localPath, disk.workingDirectory) ==>
      Serve(entries, disk, localPath) == Exchange(ErrorReply(StatusForbidden, "403 Forbidden", true), entries)
  {
  }

  /** A URL path without `..` segments that does not map to a rooted path is never refused. */
  lemma ContainedNeverForbidden(entries: map<string, Bytes>, disk: Disk, urlPath: string)
    requires NoParentSegment(urlPath) && !IsPathRooted(RelativePart(urlPath))
    ensures Respond(entries, disk, urlPath).reply.status != StatusForbidden
  {
    IndexFileKeepsContainment(urlPath);
    var localPath := LocalPath(WithIndexFile(urlPath), disk.workingDirectory);
    ContainedPathNotForbidden(WithIndexFile(urlPath), disk.workingDirectory);
    ForbiddenLeavesCache(entries, disk, localPath);
  }

  /** Against a coherent cache the server answers as if there were no cache: 200 with the disk's
      bytes for a readable file, 404 for a missing one, 500 for an unreadable one; and the cache
      stays coherent. */
  lemma CoherentCacheIsTransparent(entries: map<string, Bytes>, disk: Disk, localPath: string)
    requires Coherent(entries, disk)
    ensures var ex := Serve(entries, disk, localPath);
      && Coherent(ex.cache, disk)
      && (!IsForbidden(localPath, disk.workingDirectory) ==>
            && (disk.ReadAllBytes(localPath).Success? ==>
                  ex.reply == Reply(StatusOK, GetContentType(localPath), Content(disk.ReadAllBytes(localPath).value), false, true))
            && (!disk.FileExists(localPath) ==> ex.reply.status == StatusNotFound)
            && (disk.FileExists(localPath) && disk.ReadAllBytes(localPath).Failure? ==>
                  ex.reply.status == StatusInternalServerError))
  {
    CoherentLookup(entries, disk, localPath);
  }

  /** The cache is consulted before `File.Exists`: after a directory rename, a file cached from
      below the old directory is still served, with its old bytes, from a path where no file
      exists any more. */
  lemma ServesFileMovedAway(entries: map<string, Bytes>, disk: Disk, oldDir: string, newDir: string, cached: string)
    requires oldDir != "" && newDir != "" && disk.DirectoryExists(oldDir)
    requires !StartsWith(disk.Key(newDir) + [DirectorySeparatorChar], disk.Key(oldDir) + [DirectorySeparatorChar])
    requires !StartsWith(disk.Key(oldDir) + [DirectorySeparatorChar], disk.Key(newDir) + [DirectorySeparatorChar])
    requires cached != "" && cached in entries
    requires StartsWith(disk.Key(cached), disk.Key(oldDir) + [DirectorySeparatorChar])
    requires !IsForbidden(cached, disk.workingDirectory)
    ensures var after := disk.RenameDirectory(oldDir, newDir);
      && !after.FileExists(cached)
      && Serve(Invalidate(entries, Renamed(oldDir, newDir)), after, cached).reply
           == Reply(StatusOK, GetContentType(cached), Content(entries[cached]), false, true)
  {
    DirectoryMoveLeavesStaleEntry(entries, disk, oldDir, newDir, cached);
  }

  /** Repeating a request gives the same reply and leaves the cache as the first one left it. */
  lemma ServeIdempotent(entries: map<string, Bytes>, disk: Disk, localPath: string)
    ensures var first := Serve(entries, disk, localPath);
      Serve(first.cache, disk, localPath) == first
  {
    if !IsForbidden(localPath, disk.workingDirectory) && LookUp(entries, disk, localPath).Loaded? {
      LoadedThenHit(entries, disk, localPath);
    } else {
      CacheKept(entries, disk, localPath);
    }
  }

  /** After a load the file is in the cache, and the second request is a hit on it. */
  lemma LoadedThenHit(entries: map<string, Bytes>, disk: Disk, localPath: string)
    requires !IsForbidden(localPath, disk.workingDirectory) && LookUp(entries, disk, localPath).Loaded?
    ensures var first := Serve(entries, disk, localPath);
      Serve(first.cache, disk, localPath) == first
  {
    var content := LookUp(entries, disk, localPath).content;
    var cache := entries[localPath := content];
    var reply := Reply(StatusOK, GetContentType(localPath), Content(content), false, true);
    assert Serve(entries, disk, localPath) == Exchange(reply, cache);
    assert LookUp(cache, disk, localPath) == Hit(content);
    assert cache[localPath := content] == cache;
    assert Serve(cache, disk, localPath) == Exchange(reply, cache);
  }

  /** A request that loads nothing leaves the cache as it was: a refusal, a miss or a hit. */
  lemma CacheKept(entries: map<string, Bytes>, disk: Disk, localPath: string)
    requires IsForbidden(localPath, disk.workingDirectory) || !LookUp(entries, disk, localPath).Loaded?
    ensures Serve(entries, disk, localPath).cache == entries
  {
    if !IsForbidden(localPath, disk.workingDirectory) && LookUp(entries, disk, localPath).Hit? {
      assert entries[localPath := entries[localPath]] == entries;
    }
  }
}
