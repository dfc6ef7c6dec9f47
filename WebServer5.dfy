/** WebServer5: the file server of WebServer1 behind a request queue drained by `MaxThreads`
    worker threads, with a `ConcurrentDictionary` file cache and cache headers on images. */
module WebServer5 {
  import opened Wrappers
  import opened Integers
  import opened Text
  import opened Paths
  import opened Files
  import opened FileCaching
  import opened LocalSite
  import opened ContentTypes
  import opened FileServing
  import WS1 = WebServer1

  const DefaultMaxThreads := 48
  const MaxQueueSize := 1000

  /** The white space `NumberStyles.Integer` allows around the number: U+0009 to U+000D and space. */
  predicate IsWhite(c: char)
  {
    c == ' ' || '\t' <= c <= '\r'
  }

  predicate IsDigit(c: char)
  {
    '0' <= c <= '9'
  }

  predicate AllDigits(s: string)
  {
    forall i :: 0 <= i < |s| ==> IsDigit(s[i])
  }

  /** The value of a run of decimal digits, most significant first. */
  function DigitsValue(s: string): nat
    requires AllDigits(s)
  {
    if s == [] then 0 else DigitsValue(s[..|s| - 1]) * 10 + (s[|s| - 1] as int - '0' as int)
  }

  function TrimWhite(s: string): (r: string)
    ensures |r| <= |s|
    ensures r != [] ==> !IsWhite(r[0]) && !IsWhite(r[|r| - 1])
  {
    if s == [] then s
    else if IsWhite(s[0]) then TrimWhite(s[1..])
    else if IsWhite(s[|s| - 1]) then TrimWhite(s[..|s| - 1])
    else s
  }

  /** `int.TryParse(s, out n)`: optional white space, an optional `-` or `+`, decimal digits,
      optional white space, and a value that fits in 32 bits. */
  function TryParseInt32(s: string): (r: Option<int>)
    ensures r.Some? ==> Int32Min <= r.value <= Int32Max
  {
    var t := TrimWhite(s);
    var signed := t != [] && (t[0] == '-' || t[0] == '+');
    var digits := if signed then t[1..] else t;
    if digits == [] || !AllDigits(digits) then None
    else
      var value: int := if signed && t[0] == '-' then 0 - DigitsValue(digits) as int else DigitsValue(digits) as int;
      if Int32Min <= value <= Int32Max then Some(value) else None
  }

  /** The decimal digits of `n`, as `int.ToString` writes them. */
  function Decimal(n: nat): (r: string)
    ensures r != [] && AllDigits(r) && DigitsValue(r) == n
    ensures n > 0 ==> r[0] != '0'
  {
    var last := ('0' as int + n % 10) as char;
    if n < 10 then [last]
    else
      var front := Decimal(n / 10);
      assert (front + [last])[..|front|] == front;
      front + [last]
  }

  /** `int.ToString()` */
  function Int32ToString(n: int): string
  {
    if n < 0 then "-" + Decimal(-n) else Decimal(n)
  }

  /** `int.TryParse` reads back every `int` that `ToString` writes. */
  lemma ParseRoundTrip(n: int)
    requires Int32Min <= n <= Int32Max
    ensures TryParseInt32(Int32ToString(n)) == Some(n)
  {
    var s := Int32ToString(n);
    assert TrimWhite(s) == s;
    if n < 0 {
      assert s[1..] == Decimal(-n);
    }
  }

  /** `MaxThreads` after `Main` has read its arguments: the first argument when it parses as an
      `int` (taken as is, even zero or negative), else twice the processor count. */
  function MaxThreadsFor(args: seq<string>, processorCount: int): int
  {
    if |args| > 0 && TryParseInt32(args[0]).Some? then TryParseInt32(args[0]).value
    else WrapInt32(processorCount * 2)
  }

  /** Any `int` written as the first argument becomes `MaxThreads`, whatever the processor count. */
  lemma MaxThreadsFromArgument(n: int, rest: seq<string>, processorCount: int)
    requires Int32Min <= n <= Int32Max
    ensures MaxThreadsFor([Int32ToString(n)] + rest, processorCount) == n
  {
    ParseRoundTrip(n);
  }

  /** The `try` block of `ProcessRequest` for the mapped `localPath`. The 403 path returns before
      `response.Close()`, so only that reply stays open. */
  function Serve(entries: map<string, Bytes>, disk: Disk, localPath: string): Exchange
  {
    var cwd := disk.workingDirectory;
    if IsForbidden(localPath, cwd) then
      Exchange(ErrorReply(StatusForbidden, "403 Forbidden", false), entries)
    else
      var found := LookUp(entries, disk, localPath);
      var contentType := GetContentType(localPath);
      match found
      case Hit(content) =>
        Exchange(Reply(StatusOK, contentType, Content(content), StartsWith(contentType, "image/"), true), Store(entries, localPath, found))
      case Loaded(content) =>
        Exchange(Reply(StatusOK, contentType, Content(content), StartsWith(contentType, "image/"), true), Store(entries, localPath, found))
      case Missing =>
        Exchange(ErrorReply(StatusNotFound, "404 Not Found", true), entries)
      case ReadFailed =>
        Exchange(ErrorReply(StatusInternalServerError, "500 Internal Server Error", true), entries)
  }

  /** What `ProcessRequest` does for `urlPath`, given the cache and the disk. */
  function Respond(entries: map<string, Bytes>, disk: Disk, urlPath: string): Exchange
  {
    Serve(entries, disk, LocalPath(WithIndexFile(urlPath), disk.workingDirectory))
  }

  /** The server's static state. */
  class Program {
    var maxThreads: int
    const fileCache: FileCache

    constructor()
      ensures maxThreads == DefaultMaxThreads
      ensures fresh(fileCache) && fileCache.entries == map[]
    {
      maxThreads := DefaultMaxThreads;
      fileCache := new FileCache();
    }

    /** The start of `Main`: sets `MaxThreads` and starts that many workers; returns how many. */
    method Start(args: seq<string>, processorCount: int) returns (workers: nat)
      modifies this
      ensures maxThreads == MaxThreadsFor(args, processorCount)
      ensures workers == if maxThreads > 0 then maxThreads else 0
    {
      var parsed := if |args| > 0 then TryParseInt32(args[0]) else None;
      if parsed.Some? {
        maxThreads := parsed.value;
      } else {
        var cores := processorCount;
        maxThreads := WrapInt32(cores * 2);
      }
      var threads := maxThreads;
      workers := 0;
      while workers < threads
        invariant threads <= 0 ==> workers == 0
        invariant threads > 0 ==> workers <= threads
      {
        workers := workers + 1;
      }
    }

    method OnFileChanged(fullPath: string)
      modifies fileCache
      ensures fileCache.entries == Invalidate(old(fileCache.entries), Changed(fullPath))
    {
      fileCache.Remove(fullPath);
    }

    method OnFileRenamed(oldFullPath: string, fullPath: string)
      modifies fileCache
      ensures fileCache.entries == Invalidate(old(fileCache.entries), Renamed(oldFullPath, fullPath))
    {
      fileCache.Remove(oldFullPath);
      fileCache.Remove(fullPath);
    }

    /** The watcher's wiring: `Changed`, `Created` and `Deleted` go to `OnFileChanged`,
        `Renamed` to `OnFileRenamed`. */
    method OnWatcherEvent(e: WatcherEvent)
      modifies fileCache
      ensures fileCache.entries == Invalidate(old(fileCache.entries), e)
    {
      match e
      case Renamed(oldFullPath, fullPath) =>
        OnFileRenamed(oldFullPath, fullPath);
      case _ =>
        OnFileChanged(e.fullPath);
    }

    method ProcessRequest(urlPath: string, disk: Disk) returns (reply: Reply)
      modifies fileCache
      ensures Exchange(reply, fileCache.entries) == Respond(old(fileCache.entries), disk, urlPath)
    {
      var path := urlPath;
      if |path| > 0 && path[|path| - 1] == '/' {
        path := path + IndexFile;
      }
      var localPath := LocalPath(path, disk.workingDirectory);
      reply := ServeFile(localPath, disk);
    }

    method ServeFile(localPath: string, disk: Disk) returns (reply: Reply)
      modifies fileCache
      ensures Exchange(reply, fileCache.entries) == Serve(old(fileCache.entries), disk, localPath)
    {
      var rootPath := FullRootPath(disk.workingDirectory);
      if !StartsWithIgnoreCase(localPath, rootPath) {
        reply := ErrorReply(StatusForbidden, "403 Forbidden", false);
        return;
      }
      var found, content := fileCache.TryGetValue(localPath);
      if !found && disk.FileExists(localPath) {
        var read := disk.ReadAllBytes(localPath);
        if read.Failure? {
          reply := ErrorReply(StatusInternalServerError, "500 Internal Server Error", true);
          return;
        }
        found, content := true, read.value;
      }
      if found {
        fileCache.Set(localPath, content);
        var contentType := GetContentType(localPath);
        reply := Reply(StatusOK, contentType, Content(content), StartsWith(contentType, "image/"), true);
      } else {
        reply := ErrorReply(StatusNotFound, "404 Not Found", true);
      }
    }
  }

  /** WebServer5 answers as WebServer1 does and leaves the same cache behind; it differs only in
      the image cache headers and in leaving the 403 response open. */
  lemma SameAnswersAsWebServer1(entries: map<string, Bytes>, disk: Disk, localPath: string)
    ensures var ex5 := Serve(entries, disk, localPath);
      var ex1 := WS1.Serve(entries, disk, localPath);
      && ex5.cache == ex1.cache
      && ex5.reply.status == ex1.reply.status
      && ex5.reply.contentType == ex1.reply.contentType
      && ex5.reply.body == ex1.reply.body
      && (ex5.reply.closed <==> ex5.reply.status != StatusForbidden)
  {
    if IsForbidden(localPath, disk.workingDirectory) {
      assert Serve(entries, disk, localPath) == Exchange(ErrorReply(StatusForbidden, "403 Forbidden", false), entries);
      assert WS1.Serve(entries, disk, localPath) == Exchange(ErrorReply(StatusForbidden, "403 Forbidden", true), entries);
    } else {
      FoundReply(entries, disk, localPath);
    }
  }

  /** Past the guard, both servers read the same cache and disk and answer alike. */
  lemma FoundReply(entries: map<string, Bytes>, disk: Disk, localPath: string)
    requires !IsForbidden(localPath, disk.workingDirectory)
    ensures var ex5 := Serve(entries, disk, localPath);
      var ex1 := WS1.Serve(entries, disk, localPath);
      && ex5.cache == ex1.cache
      && ex5.reply == ex1.reply.(imageCacheHeaders := ex5.reply.imageCacheHeaders)
      && ex5.reply.closed
  {
  }

  /** The image cache headers go on exactly the 200 replies for the six image extensions. */
  lemma ImageHeadersOnImagesOnly(entries: map<string, Bytes>, disk: Disk, localPath: string)
    ensures var reply := Serve(entries, disk, localPath).reply;
      reply.imageCacheHeaders <==> reply.status == StatusOK && ExtensionKey(localPath) in ImageExtensions
  {
    if !IsForbidden(localPath, disk.workingDirectory) {
      var found := LookUp(entries, disk, localPath);
      if found.Hit? || found.Loaded? {
        var contentType := GetContentType(localPath);
        ImageContentTypes(localPath);
        assert Serve(entries, disk, localPath).reply == Reply(StatusOK, contentType, Content(found.content), StartsWith(contentType, "image/"), true);
      } else {
        assert !Serve(entries, disk, localPath).reply.imageCacheHeaders;
        assert Serve(entries, disk, localPath).reply.status != StatusOK;
      }
    }
  }
}
