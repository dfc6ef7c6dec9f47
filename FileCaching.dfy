/** The in-memory file cache of WebServer1 (`Dictionary<string, byte[]>`) and WebServer5
    (`ConcurrentDictionary<string, byte[]>`), keyed by the full local path of the request,
    and what the `FileSystemWatcher` handlers do to it when files change. */
module FileCaching {
  import opened Text
  import opened Paths
  import opened Files

  /** What the watcher on the web root reports; `Changed`, `Created` and `Deleted` all go to
      `OnFileChanged`, `Renamed` to `OnFileRenamed`. */
  datatype WatcherEvent =
    | Changed(fullPath: string)
    | Created(fullPath: string)
    | Deleted(fullPath: string)
    | Renamed(oldFullPath: string, fullPath: string)

  /** The keys a handler removes. Dictionary keys compare ordinally, so only these exact strings go. */
  function RemovedKeys(e: WatcherEvent): set<string>
  {
    match e
    case Renamed(oldFullPath, fullPath) => {oldFullPath, fullPath}
    case _ => {e.fullPath}
  }

  /** The cache after the handlers have seen `e`. */
  function Invalidate(entries: map<string, Bytes>, e: WatcherEvent): (r: map<string, Bytes>)
    ensures r.Keys == entries.Keys - RemovedKeys(e)
    ensures forall k :: k in r ==> r[k] == entries[k]
  {
    map k | k in entries && k !in RemovedKeys(e) :: entries[k]
  }

  class FileCache {
    var entries: map<string, Bytes>

    constructor()
      ensures entries == map[]
    {
      entries := map[];
    }

    /** `TryGetValue` */
    method TryGetValue(key: string) returns (found: bool, content: Bytes)
      ensures found <==> key in entries
      ensures found ==> content == entries[key]
    {
      if key in entries {
        found, content := true, entries[key];
      } else {
        found, content := false, [];
      }
    }

    /** `FileCache[key] = content` */
    method Set(key: string, content: Bytes)
      modifies this
      ensures entries == old(entries)[key := content]
    {
      entries := entries[key := content];
    }

    /** `Remove(key, out _)` / `TryRemove(key, out _)`: a missing key is no error */
    method Remove(key: string)
      modifies this
      ensures entries == old(entries) - {key}
    {
      entries := entries - {key};
    }
  }

  /** Every cached entry holds what the disk holds under that path. */
  ghost predicate Coherent(entries: map<string, Bytes>, disk: Disk)
  {
    forall k :: k in entries ==> k != "" && disk.FileExists(k) && disk.files[disk.Key(k)] == Readable(entries[k])
  }

  /** A change on disk, and the event the watcher raises for it. */
  datatype FileChange =
    | Written(path: string, entry: FileEntry)
    | Removed(path: string)
    | Moved(oldPath: string, newPath: string)
  {
    predicate Valid()
    {
      match this
      case Moved(oldPath, newPath) => oldPath != "" && newPath != ""
      case _ => path != ""
    }

    function Paths(): set<string>
    {
      match this
      case Moved(oldPath, newPath) => {oldPath, newPath}
      case _ => {path}
    }

    function ApplyTo(disk: Disk): Disk
      requires Valid()
    {
      match this
      case Written(path, entry) => disk.Write(path, entry)
      case Removed(path) => disk.Delete(path)
      case Moved(oldPath, newPath) => disk.Rename(oldPath, newPath)
    }

    function EventOn(disk: Disk): WatcherEvent
    {
      match this
      case Written(path, _) => if disk.FileExists(path) then Changed(path) else Created(path)
      case Removed(path) => Deleted(path)
      case Moved(oldPath, newPath) => Renamed(oldPath, newPath)
    }
  }

  /** No cached key names the file at `p` under another spelling than `p` itself. */
  ghost predicate NoAlias(entries: map<string, Bytes>, disk: Disk, p: string)
    requires p != ""
  {
    forall k :: k in entries && k != "" && disk.Key(k) == disk.Key(p) ==> k == p
  }

  /** When the watcher reports each changed file under the very key the cache uses, invalidation
      keeps the cache coherent with the disk. */
  lemma InvalidationKeepsCoherence(entries: map<string, Bytes>, disk: Disk, change: FileChange)
    requires change.Valid()
    requires Coherent(entries, disk)
    requires forall p :: p in change.Paths() ==> p != "" && NoAlias(entries, disk, p)
    ensures Coherent(Invalidate(entries, change.EventOn(disk)), change.ApplyTo(disk))
  {
    var after := change.ApplyTo(disk);
    var r := Invalidate(entries, change.EventOn(disk));
    assert RemovedKeys(change.EventOn(disk)) == change.Paths();
    forall k | k in r
      ensures k != "" && after.FileExists(k) && after.files[after.Key(k)] == Readable(r[k])
    {
      assert k !in change.Paths();
      assert forall p :: p in change.Paths() ==> disk.Key(k) != disk.Key(p);
      ChangeElsewhere(change, disk, k);
    }
  }

  /** A change leaves alone the file of every path whose key differs from the changed ones. */
  lemma ChangeElsewhere(change: FileChange, disk: Disk, k: string)
    requires change.Valid() && k != ""
    requires forall p :: p in change.Paths() ==> disk.Key(k) != disk.Key(p)
    ensures change.ApplyTo(disk).Key(k) == disk.Key(k)
    ensures disk.Key(k) in change.ApplyTo(disk).files <==> disk.Key(k) in disk.files
    ensures disk.Key(k) in disk.files ==> change.ApplyTo(disk).files[disk.Key(k)] == disk.files[disk.Key(k)]
  {
    SameKey(change.ApplyTo(disk), disk, k);
    match change
    case Written(path, entry) =>
      assert path in change.Paths();
    case Removed(path) =>
      assert path in change.Paths();
    case Moved(oldPath, newPath) =>
      assert oldPath in change.Paths() && newPath in change.Paths();
  }

  /** The handlers compare keys ordinally while the disk does not: an entry cached under another
      spelling of a changed file survives with the old content. */
  lemma CaseVariantSurvives(entries: map<string, Bytes>, disk: Disk, cached: string, written: string, entry: FileEntry)
    requires cached in entries && cached != written && written != ""
    requires Coherent(entries, disk)
    requires disk.Key(cached) == disk.Key(written)
    requires entry != Readable(entries[cached])
    ensures var r := Invalidate(entries, Written(written, entry).EventOn(disk));
      cached in r && r[cached] == entries[cached]
    ensures !Coherent(Invalidate(entries, Written(written, entry).EventOn(disk)), Written(written, entry).ApplyTo(disk))
  {
    var change := Written(written, entry);
    assert RemovedKeys(change.EventOn(disk)) == {written};
    var after := change.ApplyTo(disk);
    assert after == disk.(files := disk.files[disk.Key(written) := entry]);
    SameKey(after, disk, cached);
    assert after.files[after.Key(cached)] == entry;
  }

  /** Renaming a directory raises one `Renamed` event, which names the directory only: a file
      cached from below it keeps its old bytes in the cache, though no file exists under that
      path any more. */
  lemma DirectoryMoveLeavesStaleEntry(entries: map<string, Bytes>, disk: Disk, oldDir: string, newDir: string, cached: string)
    requires oldDir != "" && newDir != "" && disk.DirectoryExists(oldDir)
    requires !StartsWith(disk.Key(newDir) + [DirectorySeparatorChar], disk.Key(oldDir) + [DirectorySeparatorChar])
    requires !StartsWith(disk.Key(oldDir) + [DirectorySeparatorChar], disk.Key(newDir) + [DirectorySeparatorChar])
    requires cached != "" && cached in entries
    requires StartsWith(disk.Key(cached), disk.Key(oldDir) + [DirectorySeparatorChar])
    ensures var r := Invalidate(entries, Renamed(oldDir, newDir));
      cached in r && r[cached] == entries[cached]
    ensures !disk.RenameDirectory(oldDir, newDir).FileExists(cached)
    ensures !Coherent(Invalidate(entries, Renamed(oldDir, newDir)), disk.RenameDirectory(oldDir, newDir))
  {
    BelowIsNeither(disk.Key(oldDir), disk.Key(newDir), disk.Key(cached));
    NotRemoved(entries, Renamed(oldDir, newDir), cached);
    GoneAfterDirectoryMove(disk, oldDir, newDir, cached);
    StaleIsIncoherent(Invalidate(entries, Renamed(oldDir, newDir)), disk.RenameDirectory(oldDir, newDir), cached);
  }

  /** A cached path under which no file exists makes the cache incoherent. */
  lemma StaleIsIncoherent(entries: map<string, Bytes>, disk: Disk, k: string)
    requires k in entries && !disk.FileExists(k)
    ensures !Coherent(entries, disk)
  {
  }

  /** A key below the old directory is neither the old directory nor, when neither directory lies
      inside the other, the new one. */
  lemma BelowIsNeither(oldKey: string, newKey: string, cachedKey: string)
    requires StartsWith(cachedKey, oldKey + [DirectorySeparatorChar])
    requires !StartsWith(newKey + [DirectorySeparatorChar], oldKey + [DirectorySeparatorChar])
    ensures cachedKey != oldKey && cachedKey != newKey
  {
    OutsideMovedDirectory(cachedKey, oldKey + [DirectorySeparatorChar], newKey);
  }

  /** No file is left under a path below the renamed directory. */
  lemma GoneAfterDirectoryMove(disk: Disk, oldDir: string, newDir: string, p: string)
    requires oldDir != "" && newDir != "" && p != "" && disk.DirectoryExists(oldDir)
    requires !StartsWith(disk.Key(newDir) + [DirectorySeparatorChar], disk.Key(oldDir) + [DirectorySeparatorChar])
    requires !StartsWith(disk.Key(oldDir) + [DirectorySeparatorChar], disk.Key(newDir) + [DirectorySeparatorChar])
    requires StartsWith(disk.Key(p), disk.Key(oldDir) + [DirectorySeparatorChar])
    ensures !disk.RenameDirectory(oldDir, newDir).FileExists(p)
  {
    var oldPrefix := disk.Key(oldDir) + [DirectorySeparatorChar];
    var newPrefix := disk.Key(newDir) + [DirectorySeparatorChar];
    var after := disk.RenameDirectory(oldDir, newDir);
    assert after.files == MoveEntries(disk.files, oldPrefix, newPrefix);
    SameKey(after, disk, p);
    NotMovedOnto(disk.files, oldPrefix, newPrefix, disk.Key(p));
  }

  /** An entry the event does not name stays, with its bytes. */
  lemma NotRemoved(entries: map<string, Bytes>, e: WatcherEvent, k: string)
    requires k in entries && k !in RemovedKeys(e)
    ensures var r := Invalidate(entries, e);
      k in r && r[k] == entries[k]
  {
  }

  /** A key below the old prefix is not the new directory itself, when neither directory lies
      inside the other. */
  lemma OutsideMovedDirectory(cachedKey: string, oldPrefix: string, newKey: string)
    requires StartsWith(cachedKey, oldPrefix)
    requires !StartsWith(newKey + [DirectorySeparatorChar], oldPrefix)
    ensures cachedKey != newKey
  {
    assert StartsWith(cachedKey + [DirectorySeparatorChar], oldPrefix) by {
      assert (cachedKey + [DirectorySeparatorChar])[..|oldPrefix|] == cachedKey[..|oldPrefix|];
    }
  }

  /** After the move, nothing is left under a key below the old prefix that is not also below
      the new one. */
  lemma NotMovedOnto(files: map<string, FileEntry>, oldPrefix: string, newPrefix: string, k: string)
    requires StartsWith(k, oldPrefix)
    requires !StartsWith(newPrefix, oldPrefix) && !StartsWith(oldPrefix, newPrefix)
    ensures k !in MoveEntries(files, oldPrefix, newPrefix)
  {
    if k in MoveEntries(files, oldPrefix, newPrefix) {
      assert StartsWith(k, newPrefix);
      PrefixesOfOneString(k, oldPrefix, newPrefix);
    }
  }

  /** Where the file system finds a path depends on the working directory alone. */
  lemma SameKey(disk1: Disk, disk2: Disk, p: string)
    requires p != "" && disk1.workingDirectory == disk2.workingDirectory
    ensures disk1.Key(p) == disk2.Key(p)
  {
  }

  /** Two spellings of a path that differ only in letter case name the same file. */
  lemma CaseVariantsShareKey(disk: Disk, p: string, q: string)
    requires p != "" && EqualsIgnoreCase(p, q)
    ensures q != "" && disk.Key(p) == disk.Key(q)
  {
    var cwd := disk.workingDirectory;
    GetFullPathIgnoresCase(p, q, cwd);
    var a, b := GetFullPath(p, cwd), GetFullPath(q, cwd);
    assert forall i :: 0 <= i < |a| ==> ToUpperInvariant(a)[i] == ToUpperInvariant(b)[i];
  }
}
