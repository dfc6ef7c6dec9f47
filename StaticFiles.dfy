/** WebServer6's built-in handlers: `StaticFilesHandler`, which serves the files under its
    `WebRoot` through a `MemoryCache` shared by every instance, and `SampleDynamicContentHandler`. */
module StaticFiles {
  import opened Wrappers
  import opened Text
  import opened Paths
  import opened Files
  import opened FileCaching
  import opened ContentTypes
  import opened FileServing
  import opened Settings
  import opened Responses

  const DefaultCacheExpirationMinutes := 5

  /** The fields `Configure` sets: `webRoot` (`null` until configured, or when the setting is
      JSON `null`) and `cacheExpirationMinutes`. */
  datatype StaticFilesOptions = StaticFilesOptions(webRoot: Option<string>, cacheExpirationMinutes: int)

  const Unconfigured := StaticFilesOptions(None, DefaultCacheExpirationMinutes)

  /** `SetupFileWatcher`: `new FileSystemWatcher(webRoot)` throws unless `webRoot` names an
      existing directory. */
  function WatchWebRoot(webRoot: Option<string>, disk: Disk): (r: Outcome<Exception>)
    ensures r.Pass? <==> webRoot.Some? && disk.DirectoryExists(webRoot.value)
  {
    match webRoot
    case None => Fail(ArgumentNullException)
    case Some(root) => if disk.DirectoryExists(root) then Pass else Fail(ArgumentException)
  }

  /** `StaticFilesHandler.Configure`: the fields it leaves behind, and whether it threw. A field
      set before the exception keeps its new value. */
  function ConfigureStaticFiles(before: StaticFilesOptions, settings: SettingsMap, disk: Disk): (r: (StaticFilesOptions, Outcome<Exception>))
  {
    match TryGetValue(settings, "WebRoot")
    case Failure(e) => (before, Fail(e))
    case Success(None) => (before, Fail(ArgumentException))
    case Success(Some(webRootElement)) =>
      match GetString(webRootElement)
      case Failure(e) => (before, Fail(e))
      case Success(webRoot) =>
        var withRoot := before.(webRoot := webRoot);
        if "CacheExpirationMinutes" !in settings.value then (withRoot, WatchWebRoot(webRoot, disk))
        else
          match GetInt32(settings.value["CacheExpirationMinutes"])
          case Failure(e) => (withRoot, Fail(e))
          case Success(minutes) => (withRoot.(cacheExpirationMinutes := minutes), WatchWebRoot(webRoot, disk))
  }

  /** What `Configure` leaves behind: a missing dictionary or `WebRoot` throws before any field
      is set; it succeeds exactly when `WebRoot` is a string naming an existing directory and
      `CacheExpirationMinutes`, when present, is an `int`; it then holds both settings. */
  lemma ConfigureStaticFilesMeaning(before: StaticFilesOptions, settings: SettingsMap, disk: Disk)
    ensures settings.None? ==> ConfigureStaticFiles(before, settings, disk) == (before, Fail(NullReferenceException))
    ensures settings.Some? && "WebRoot" !in settings.value ==> ConfigureStaticFiles(before, settings, disk) == (before, Fail(ArgumentException))
    ensures ConfigureStaticFiles(before, settings, disk).1.Pass? <==>
      && settings.Some? && "WebRoot" in settings.value
      && GetString(settings.value["WebRoot"]).Success?
      && (var webRoot := GetString(settings.value["WebRoot"]).value;
          webRoot.Some? && disk.DirectoryExists(webRoot.value))
      && ("CacheExpirationMinutes" in settings.value ==> GetInt32(settings.value["CacheExpirationMinutes"]).Success?)
    ensures ConfigureStaticFiles(before, settings, disk).1.Pass? ==>
      && ConfigureStaticFiles(before, settings, disk).0.webRoot == GetString(settings.value["WebRoot"]).value
      && ConfigureStaticFiles(before, settings, disk).0.cacheExpirationMinutes ==
           if "CacheExpirationMinutes" in settings.value then settings.value["CacheExpirationMinutes"].value
           else before.cacheExpirationMinutes
  {
  }

  /** `Path.Combine(webRoot, request.Url.AbsolutePath.TrimStart('/'))`: the file a request names.
      Nothing keeps it under the web root. */
  function FilePath(webRoot: string, absolutePath: string): string
  {
    Combine(webRoot, TrimStart(absolutePath, '/'))
  }

  const SecurityHeaders: seq<Header> := [("X-Content-Type-Options", "nosniff"), ("X-Frame-Options", "SAMEORIGIN")]

  /** `SetImageCacheHeaders`; `expires` is the formatted time five minutes from now. */
  function ImageCacheHeaders(expires: string): seq<Header>
  {
    [("Cache-Control", "public, max-age=86400"), ("Expires", expires)]
  }

  /** The response for a file that was found, with the content type `GetMimeType` picks. */
  function FileResponse(response: Response, filePath: string, content: Bytes, expires: string): (r: Response)
    ensures r.statusCode == response.statusCode && r.closed
    ensures r.contentType == Some(GetMimeType(filePath)) && r.body == Content(content) && r.contentLength64 == |content|
    ensures |r.headers| == |response.headers| + 2 + (if StartsWith(GetMimeType(filePath), "image/") then 2 else 0)
    ensures r.headers[..|response.headers| + 2] == response.headers + SecurityHeaders
  {
    var contentType := GetMimeType(filePath);
    var headers := response.headers + SecurityHeaders + (if StartsWith(contentType, "image/") then ImageCacheHeaders(expires) else []);
    assert headers[..|response.headers| + 2] == response.headers + SecurityHeaders;
    response.(contentType := Some(contentType), contentLength64 := |content|, headers := headers, body := Content(content), closed := true)
  }

  /** What a request did: the response or the exception, and the shared cache afterwards. */
  datatype Served = Served(result: Result<Response, Exception>, cache: map<string, Bytes>)

  /** `StaticFilesHandler.HandleRequestAsync`: `File.Exists` first, so a missing file is 404
      whatever the cache holds; then the cache; on a miss the file is read and stored, and a
      non-positive expiration makes `SetSlidingExpiration` throw before the store. */
  function Serve(entries: map<string, Bytes>, disk: Disk, options: StaticFilesOptions, response: Response, absolutePath: string, expires: string): Served
    requires !response.closed
  {
    match options.webRoot
    case None => Served(Failure(ArgumentNullException), entries)
    case Some(webRoot) =>
      var filePath := FilePath(webRoot, absolutePath);
      if !disk.FileExists(filePath) then
        Served(SendErrorResponse(response, StatusNotFound, "404 Not Found"), entries)
      else if filePath in entries then
        Served(Success(FileResponse(response, filePath, entries[filePath], expires)), entries)
      else
        match disk.ReadAllBytes(filePath)
        case Failure(_) => Served(Failure(IOException), entries)
        case Success(content) =>
          if options.cacheExpirationMinutes <= 0 then Served(Failure(ArgumentOutOfRangeException), entries)
          else Served(Success(FileResponse(response, filePath, content, expires)), entries[filePath := content])
  }

  class StaticFilesHandler {
    var webRoot: Option<string>
    var cacheExpirationMinutes: int
    /** The `static readonly MemoryCache`: every instance holds the same one. Entries are kept as
        long as they are used; the sliding expiry is not modelled. */
    const fileCache: FileCache

    constructor(sharedCache: FileCache)
      ensures Options() == Unconfigured && fileCache == sharedCache
    {
      webRoot := None;
      cacheExpirationMinutes := DefaultCacheExpirationMinutes;
      fileCache := sharedCache;
    }

    function Options(): StaticFilesOptions
      reads this
    {
      StaticFilesOptions(webRoot, cacheExpirationMinutes)
    }

    method Configure(settings: SettingsMap, disk: Disk) returns (outcome: Outcome<Exception>)
      modifies this
      ensures (Options(), outcome) == ConfigureStaticFiles(old(Options()), settings, disk)
    {
      var webRootElement := TryGetValue(settings, "WebRoot");
      if webRootElement.Failure? {
        return Fail(webRootElement.error);
      }
      if webRootElement.value.None? {
        return Fail(ArgumentException);
      }
      var root := GetString(webRootElement.value.value);
      if root.Failure? {
        return Fail(root.error);
      }
      webRoot := root.value;
      var minutesElement := TryGetValue(settings, "CacheExpirationMinutes");
      if minutesElement.Success? && minutesElement.value.Some? {
        var minutes := GetInt32(minutesElement.value.value);
        if minutes.Failure? {
          return Fail(minutes.error);
        }
        cacheExpirationMinutes := minutes.value;
      }
      outcome := WatchWebRoot(webRoot, disk);
    }

    /** The watcher's handlers: `Changed`, `Created` and `Deleted` remove `FullPath`, `Renamed`
        removes `OldFullPath` and `FullPath`. */
    method OnWatcherEvent(e: WatcherEvent)
      modifies fileCache
      ensures fileCache.entries == Invalidate(old(fileCache.entries), e)
    {
      match e
      case Renamed(oldFullPath, fullPath) =>
        fileCache.Remove(oldFullPath);
        fileCache.Remove(fullPath);
      case _ =>
        fileCache.Remove(e.fullPath);
    }

    method HandleRequest(response: Response, absolutePath: string, disk: Disk, expires: string) returns (r: Result<Response, Exception>)
      requires !response.closed
      modifies fileCache
      ensures Served(r, fileCache.entries) == Serve(old(fileCache.entries), disk, Options(), response, absolutePath, expires)
    {
      if webRoot.None? {
        return Failure(ArgumentNullException);
      }
      var filePath := Combine(webRoot.value, TrimStart(absolutePath, '/'));
      if !disk.FileExists(filePath) {
        r := SendErrorResponse(response, StatusNotFound, "404 Not Found");
        return;
      }
      var found, content := fileCache.TryGetValue(filePath);
      if !found {
        var read := disk.ReadAllBytes(filePath);
        if read.Failure? {
          return Failure(IOException);
        }
        content := read.value;
        if cacheExpirationMinutes <= 0 {
          return Failure(ArgumentOutOfRangeException);
        }
        fileCache.Set(filePath, content);
      }
      r := Success(FileResponse(response, filePath, content, expires));
    }
  }

  /** A file that does not exist is 404 even when the cache still holds it, and the cache is left
      as it was. */
  lemma MissingFileIsNotFound(entries: map<string, Bytes>, disk: Disk, options: StaticFilesOptions, response: Response, absolutePath: string, expires: string)
    requires !response.closed && options.webRoot.Some?
    requires !disk.FileExists(FilePath(options.webRoot.value, absolutePath))
    ensures var served := Serve(entries, disk, options, response, absolutePath, expires);
      && served.result.Success? && served.result.value.statusCode == StatusNotFound
      && served.result.value.body == Message("404 Not Found")
      && served.cache == entries
  {
  }

  /** A cached file is served from the cache: the reply does not depend on what the disk now
      holds under that name, only on the file still existing. */
  lemma HitIgnoresDiskContent(entries: map<string, Bytes>, disk1: Disk, disk2: Disk, options: StaticFilesOptions, response: Response, absolutePath: string, expires: string)
    requires !response.closed && options.webRoot.Some?
    requires FilePath(options.webRoot.value, absolutePath) in entries
    requires disk1.FileExists(FilePath(options.webRoot.value, absolutePath))
    requires disk2.FileExists(FilePath(options.webRoot.value, absolutePath))
    ensures Serve(entries, disk1, options, response, absolutePath, expires) == Serve(entries, disk2, options, response, absolutePath, expires)
    ensures var served := Serve(entries, disk1, options, response, absolutePath, expires);
      && served.cache == entries
      && served.result.Success?
      && served.result.value.body == Content(entries[FilePath(options.webRoot.value, absolutePath)])
  {
    var filePath := FilePath(options.webRoot.value, absolutePath);
    var hit := Served(Success(FileResponse(response, filePath, entries[filePath], expires)), entries);
    assert Serve(entries, disk1, options, response, absolutePath, expires) == hit;
    assert Serve(entries, disk2, options, response, absolutePath, expires) == hit;
  }

  /** A miss reads the file and stores exactly that file under its path, unless the expiration
      is not positive, in which case the request throws and nothing is stored. */
  lemma MissFillsCache(entries: map<string, Bytes>, disk: Disk, options: StaticFilesOptions, response: Response, absolutePath: string, expires: string)
    requires !response.closed && options.webRoot.Some?
    requires var filePath := FilePath(options.webRoot.value, absolutePath);
      filePath !in entries && disk.ReadAllBytes(filePath).Success?
    ensures var filePath := FilePath(options.webRoot.value, absolutePath);
      var served := Serve(entries, disk, options, response, absolutePath, expires);
      if options.cacheExpirationMinutes > 0 then
        && served.cache == entries[filePath := disk.ReadAllBytes(filePath).value]
        && served.result.Success? && served.result.value.body == Content(disk.ReadAllBytes(filePath).value)
      else
        served == Served(Failure(ArgumentOutOfRangeException), entries)
  {
  }

  /** Against a coherent cache the handler serves what the disk holds and keeps the cache
      coherent. */
  lemma CoherentCacheIsTransparent(entries: map<string, Bytes>, disk: Disk, options: StaticFilesOptions, response: Response, absolutePath: string, expires: string)
    requires !response.closed && options.webRoot.Some?
    requires Coherent(entries, disk)
    ensures var filePath := FilePath(options.webRoot.value, absolutePath);
      var served := Serve(entries, disk, options, response, absolutePath, expires);
      && Coherent(served.cache, disk)
      && (served.result.Success? && served.result.value.statusCode != StatusNotFound ==>
            disk.ReadAllBytes(filePath).Success? && served.result.value.body == Content(disk.ReadAllBytes(filePath).value))
  {
    var filePath := FilePath(options.webRoot.value, absolutePath);
    var served := Serve(entries, disk, options, response, absolutePath, expires);
    if !disk.FileExists(filePath) {
      assert served.cache == entries;
    } else if filePath in entries {
      assert served.cache == entries;
      assert disk.files[disk.Key(filePath)] == Readable(entries[filePath]);
    } else if disk.ReadAllBytes(filePath).Success? && options.cacheExpirationMinutes > 0 {
      var content := disk.ReadAllBytes(filePath).value;
      assert served.cache == entries[filePath := content];
      assert disk.files[disk.Key(filePath)] == Readable(content);
      forall k | k in served.cache
        ensures k != "" && disk.FileExists(k) && disk.files[disk.Key(k)] == Readable(served.cache[k])
      {
        if k != filePath {
          assert k in entries;
        }
      }
    } else {
      assert served.cache == entries;
    }
  }

  /** The image cache headers come after the security headers exactly when the file's media type
      is an image type. */
  lemma ImageHeadersOnImagesOnly(response: Response, filePath: string, content: Bytes, expires: string)
    ensures var r := FileResponse(response, filePath, content, expires);
      |r.headers| > |response.headers| + 2 <==> ExtensionKey(filePath) in ImageExtensions
  {
    ImageContentTypes(filePath);
    MimeTypeExtendsContentType(filePath);
  }

  /** A request for `/` names the web root itself, which is a directory and so not a file: 404. */
  lemma RootRequestIsNotFound(entries: map<string, Bytes>, disk: Disk, options: StaticFilesOptions, response: Response, expires: string)
    requires !response.closed && options.webRoot.Some?
    requires disk.Valid() && disk.DirectoryExists(options.webRoot.value)
    ensures var served := Serve(entries, disk, options, response, "/", expires);
      served.result.Success? && served.result.value.statusCode == StatusNotFound
  {
    assert TrimStart("/", '/') == "";
    assert FilePath(options.webRoot.value, "/") == options.webRoot.value;
    assert !disk.FileExists(options.webRoot.value);
  }

  /** A request path whose first segment after the slashes is a drive, such as `/C:/data.bin`,
      names that absolute path: `Path.Combine` drops the web root. */
  lemma RootedRequestEscapesWebRoot(webRoot: string, rest: string)
    requires rest != "" && rest[0] != '/' && IsPathRooted(rest)
    ensures FilePath(webRoot, "/" + rest) == rest
  {
    TrimStartAppend("/", rest, '/');
    assert TrimStart("/", '/') == [];
  }

  /** A file in a subdirectory is cached under a key with a forward slash; an invalidation whose
      paths carry only backslashes, as the watcher's full paths do, leaves that entry in place. */
  lemma NestedEntrySurvivesInvalidation(entries: map<string, Bytes>, webRoot: string, absolutePath: string, e: WatcherEvent)
    requires webRoot != ""
    requires var relative := TrimStart(absolutePath, '/');
      !IsPathRooted(relative) && '/' in relative
    requires forall p :: p in RemovedKeys(e) ==> '/' !in p
    requires FilePath(webRoot, absolutePath) in entries
    ensures var key := FilePath(webRoot, absolutePath);
      '/' in key && key in Invalidate(entries, e) && Invalidate(entries, e)[key] == entries[key]
  {
    var key := FilePath(webRoot, absolutePath);
    CombineKeepsRelative(webRoot, TrimStart(absolutePath, '/'));
    assert key !in RemovedKeys(e);
  }

  /** Combining onto a non-empty directory keeps a relative path's characters at the end. */
  lemma CombineKeepsRelative(directory: string, relative: string)
    requires directory != "" && !IsPathRooted(relative) && '/' in relative
    ensures '/' in Combine(directory, relative)
  {
    var key := Combine(directory, relative);
    var i :| 0 <= i < |relative| && relative[i] == '/';
    assert key[|key| - |relative| + i] == '/';
  }

  /** `SampleDynamicContentHandler`'s one field: the media type of its responses. */
  class SampleDynamicContentHandler {
    var defaultResponseType: Option<string>

    constructor()
      ensures defaultResponseType == Some("text/html")
    {
      defaultResponseType := Some("text/html");
    }

    /** `Configure`: `DefaultResponseType` replaces the media type when present. */
    method Configure(settings: SettingsMap) returns (outcome: Outcome<Exception>)
      modifies this
      ensures outcome == ConfigureDynamicContent(old(defaultResponseType), settings).1
      ensures defaultResponseType == ConfigureDynamicContent(old(defaultResponseType), settings).0
    {
      var element := TryGetValue(settings, "DefaultResponseType");
      if element.Failure? {
        return Fail(element.error);
      }
      outcome := Pass;
      if element.value.Some? {
        var responseType := GetString(element.value.value);
        if responseType.Failure? {
          return Fail(responseType.error);
        }
        defaultResponseType := responseType.value;
      }
    }

    /** `HandleRequestAsync`: the HTML page naming the request path, or, for
        `application/json`, the serialized message `json` (which carries the current time). */
    method HandleRequest(response: Response, absolutePath: string, json: string) returns (r: Response)
      requires !response.closed
      ensures r == DynamicContent(response, defaultResponseType, absolutePath, json)
    {
      var content := if defaultResponseType == Some("application/json") then json else DynamicPage(absolutePath);
      r := response.(contentType := defaultResponseType, contentLength64 := |content|, body := Message(content), closed := true);
    }
  }

  function ConfigureDynamicContent(before: Option<string>, settings: SettingsMap): (r: (Option<string>, Outcome<Exception>))
    ensures r.1.Pass? <==> settings.Some? && ("DefaultResponseType" in settings.value ==> GetString(settings.value["DefaultResponseType"]).Success?)
    ensures r.1.Pass? ==> r.0 == if "DefaultResponseType" in settings.value then GetString(settings.value["DefaultResponseType"]).value else before
    ensures r.1.Fail? ==> r.0 == before
  {
    match TryGetValue(settings, "DefaultResponseType")
    case Failure(e) => (before, Fail(e))
    case Success(None) => (before, Pass)
    case Success(Some(element)) =>
      match GetString(element)
      case Failure(e) => (before, Fail(e))
      case Success(responseType) => (responseType, Pass)
  }

  function DynamicPage(absolutePath: string): string
  {
    "<html><body><h1>Dynamic Content</h1><p>Hello from " + absolutePath + "</p></body></html>"
  }

  function DynamicContent(response: Response, defaultResponseType: Option<string>, absolutePath: string, json: string): (r: Response)
    ensures r.closed && r.statusCode == response.statusCode && r.contentType == defaultResponseType
    ensures defaultResponseType != Some("application/json") ==> r.body == Message(DynamicPage(absolutePath))
    ensures defaultResponseType == Some("application/json") ==> r.body == Message(json)
  {
    var content := if defaultResponseType == Some("application/json") then json else DynamicPage(absolutePath);
    response.(contentType := defaultResponseType, contentLength64 := |content|, body := Message(content), closed := true)
  }
}
