/** The file system as the servers see it: Windows-style, so names are compared without regard
    to letter case. Files and directories are keyed by their upper-cased full path. */
module Files {
  import opened Wrappers
  import opened Text
  import opened Paths

  type Byte = b: int | 0 <= b < 256
  type Bytes = seq<Byte>

  /** A file either reads back its bytes, or `File.ReadAllBytes` throws on it (locked by another
      process, access denied). */
  datatype FileEntry = Readable(content: Bytes) | Unreadable

  datatype IoError = FileNotFound | AccessDenied

  datatype Disk = Disk(files: map<string, FileEntry>, directories: set<string>, workingDirectory: FullPath)
  {
    /** No name is both a file and a directory. */
    predicate Valid()
    {
      files.Keys !! directories
    }

    /** The name under which the file system finds `p`. */
    function Key(p: string): string
      requires p != ""
    {
      ToUpperInvariant(GetFullPath(p, workingDirectory))
    }

    /** `File.Exists(p)`: false for the empty path and for directories. */
    predicate FileExists(p: string)
    {
      p != "" && Key(p) in files
    }

    /** `Directory.Exists(p)` */
    predicate DirectoryExists(p: string)
    {
      p != "" && Key(p) in directories
    }

    /** `File.ReadAllBytes(p)` */
    function ReadAllBytes(p: string): (r: Result<Bytes, IoError>)
      ensures r.Success? <==> FileExists(p) && files[Key(p)].Readable?
      ensures r.Success? ==> r.value == files[Key(p)].content
    {
      if !FileExists(p) then Failure(FileNotFound)
      else if files[Key(p)].Unreadable? then Failure(AccessDenied)
      else Success(files[Key(p)].content)
    }

    /** The disk after `p` was written with `entry`. */
    function Write(p: string, entry: FileEntry): Disk
      requires p != ""
    {
      this.(files := files[Key(p) := entry])
    }

    /** The disk after `p` was deleted. */
    function Delete(p: string): Disk
      requires p != ""
    {
      this.(files := files - {Key(p)})
    }

    /** The disk after `oldPath` was renamed to `newPath`. */
    function Rename(oldPath: string, newPath: string): Disk
      requires oldPath != "" && newPath != ""
    {
      if Key(oldPath) in files then this.(files := (files - {Key(oldPath)})[Key(newPath) := files[Key(oldPath)]])
      else this
    }

    /** The disk after directory `oldDir` was renamed to `newDir`: every file and directory below
        it moves along under the new name. */
    function RenameDirectory(oldDir: string, newDir: string): Disk
      requires oldDir != "" && newDir != ""
    {
      if Key(oldDir) !in directories then this
      else
        var oldPrefix := Key(oldDir) + [DirectorySeparatorChar];
        var newPrefix := Key(newDir) + [DirectorySeparatorChar];
        this.(files := MoveEntries(files, oldPrefix, newPrefix),
              directories := (set d | d in directories && d != Key(oldDir) && !StartsWith(d, oldPrefix))
                + {Key(newDir)}
                + (set d | d in directories && StartsWith(d, oldPrefix) :: newPrefix + d[|oldPrefix|..]))
    }
  }

  /** Files whose key starts with `oldPrefix` re-keyed under `newPrefix`; the others kept. */
  function MoveEntries(files: map<string, FileEntry>, oldPrefix: string, newPrefix: string): (r: map<string, FileEntry>)
    ensures forall k :: k in files && !StartsWith(k, oldPrefix) && !StartsWith(k, newPrefix) ==> k in r && r[k] == files[k]
    ensures forall k :: k in r ==> (k in files && !StartsWith(k, oldPrefix)) || StartsWith(k, newPrefix)
  {
    var kept := map k | k in files && !StartsWith(k, oldPrefix) :: files[k];
    assert forall k :: StartsWith(k, oldPrefix) ==> k == oldPrefix + k[|oldPrefix|..];
    assert forall a: string, b: string :: newPrefix + a == newPrefix + b ==> a == (newPrefix + a)[|newPrefix|..] == b;
    var moved := map k | k in files && StartsWith(k, oldPrefix) :: newPrefix + k[|oldPrefix|..] := files[k];
    kept + moved
  }
}
