# Profiling-Session web servers in Dafny

This project models three of the repository's C# web servers.

- **WebServer1** is a single-threaded static-file server over `D:\wwwroot`.
- **WebServer5** serves the same files from a worker pool. It adds image cache headers and takes `MaxThreads` from its command line.
- **WebServer6** is a configurable server. From `config.json` it loads route handlers and middleware. Each class is looked up among its own types first, then in a plugin assembly. Each request runs the middleware in order and then goes to the most specific matching route.

The model covers the logic both kinds of server share:

- mapping a URL path to a file under the web root;
- the case-insensitive string-prefix guard that answers 403;
- the path-to-bytes file cache that a miss fills and `FileSystemWatcher` events empty;
- the extension-to-media-type tables.

For WebServer6 it also covers:

- `Route.MatchesRequest` and `Route.CompareTo`;
- the stable `OrderBy` that builds the route scan order;
- plugin loading and the skipping of failed entries;
- the middleware pipeline with its short circuit, first match, 404 and 500;
- the `APIAuthenticationModule`, `CompressionModule` and `RateLimitingModule` middleware;
- the `StaticFilesHandler` and `SampleDynamicContentHandler` handlers.

## Modules

| file | models |
|---|---|
| `Wrappers.dfy` | `Option`, `Result` and `Outcome`, which stand in for `null` and for exceptions. |
| `Integers.dfy` | C#'s 32-bit `int` and its wrap-around. |
| `Text.dfy` | The .NET string operations the servers call. Ordinal and `OrdinalIgnoreCase` comparison use ASCII case folding. |
| `Paths.dfy` | `Path.Combine`, `Path.IsPathRooted`, `Path.GetExtension` and `Path.GetFullPath` under Windows rules. `GetFullPath` splits on `\` and `/`, drops `.` and empty segments, and lets `..` pop a segment but never climb above the drive root. |
| `Files.dfy` | A case-insensitive disk, keyed by the upper-cased full path. A file may be unreadable, so that `ReadAllBytes` can throw. Files are written, deleted and renamed one at a time, and a directory is renamed together with everything below it. |
| `FileCaching.dfy` | The `FileCache` class and the watcher events. Invalidation is keyed by the exact strings the events carry. |
| `FileServing.dfy` | The cache-then-disk lookup that WebServer1 and WebServer5 share, and the replies they build. |
| `LocalSite.dfy` | URL path to local path, and the root guard of WebServer1 and WebServer5. |
| `ContentTypes.dfy` | `GetContentType` of WebServer1 and WebServer5, and `GetMimeType` of WebServer6. |
| `WebServer1.dfy` | The watcher handlers and `ProcessRequest`. |
| `WebServer5.dfy` | The same handlers, `MaxThreads` selection and `ProcessRequest`. |
| `Settings.dfy` | The `Dictionary<string, JsonElement>` settings and the `JsonElement` accessors. |
| `Responses.dfy` | WebServer6's `HttpListenerResponse` and `SendErrorResponseAsync`. |
| `Router.dfy` | `Route`, its comparator, `OrderBy` and the first-match scan. |
| `Middleware.dfy` | The three built-in middleware classes. |
| `StaticFiles.dfy` | The two built-in handler classes. |
| `Plugins.dfy` | Reflection as a catalogue of types: built-in classes and plugin assemblies. |
| `WebServer6.dfy` | `ServerConfig.InitializeHandlersAndModules` and `HandleRequestAsync`. |

Stateful parts are classes whose methods change their fields:

- the file caches;
- the configured handler and middleware objects;
- the rate limiter's `requestCounts`;
- `ServerConfig`'s `Routes` and `Middleware` lists.

Each such method's contract ties the new state to a pure function of the old state. Lemmas about those functions prove the properties.

## Behaviour of the code worth knowing

Each item below is what the code does, with the lemma or contract that states it.

- **Third tie-break of the route order.** `CompareTo` computes `other.Methods.Count.CompareTo(this.Methods.Count)`. Routes declaring more methods therefore sort first (`Router.Route.CompareTo`).
- **Closing the response.** WebServer5's 403 path returns before `response.Close()`, so that response is left open. Every other reply of WebServer1 and WebServer5 is closed (`WebServer5.SameAnswersAsWebServer1`).
- **Refused requests and the rate counter.** The rate limiter compares the stored count with the limit before incrementing it. A refused request leaves the stored counter untouched, and an unknown client starts from `(0, now)` (`Middleware.Admit`).
- **`/` on the static-files route.** The handler combines the web root with an empty path and names the web root itself. That is a directory, so `File.Exists` fails and the answer is 404 (`StaticFiles.RootRequestIsNotFound`).
- **Compression.** The compression middleware runs before any handler has set `ContentLength64`, which is still 0 then. With a positive threshold it never chooses an encoding (`Middleware.NothingCompressedBeforeHandler`). When it does choose one, it copies from the response's write-only output stream, which throws, and the request ends in 500 (`Middleware.CompressionModule.ProcessRequest`, `WebServer6.ShortCircuit`).
- **Stale cache entries.** Removal compares keys ordinally on a case-insensitive disk, so an entry cached under another spelling of a rewritten file survives (`FileCaching.CaseVariantSurvives`, `FileCaching.CaseVariantsShareKey`). WebServer6 caches nested files under keys containing `/`, and the watcher reports paths with `\`, so those entries survive too (`StaticFiles.NestedEntrySurvivesInvalidation`). Renaming a directory raises one event naming only the directory. Files cached from below it keep their bytes, and WebServer1 and WebServer5, which consult the cache before `File.Exists`, go on serving them from a path where no file exists (`FileCaching.DirectoryMoveLeavesStaleEntry`, `WebServer1.ServesFileMovedAway`).
- **The root guard.** It is a string-prefix test, so a sibling such as `D:\wwwroot-old` passes it. The mapping alone also lets `/../wwwroot-old` through (`LocalSite.SiblingPassesGuard`), but `Uri` removes dot segments before the server reads the path, so a client cannot send it. A client can reach the sibling through `/D:/wwwroot-old`, which has no `..` segment: its relative part is rooted, so `Path.Combine` drops the web root (`LocalSite.DriveRootedSiblingPassesGuard`).

## Model

| member | source | states |
|---|---|---|
| `Router.Route.CompareTo` | WebServer6/Program.cs:303-312 | The result is -1, 0 or 1. It is negative exactly when this route is more specific than the other, and positive exactly when the other is: a longer stem after trimming `*` comes first; at equal length an exact route comes before a wildcard; then the route declaring more methods comes first. |
| `Router.MatchesRequestMeaning` | WebServer6/Program.cs:291-301 | A request matches exactly when both rules hold. Path rule: route `/` takes only `/`; a `*` route takes any path beginning with its stem, ignoring case; any other route takes only its own path, ignoring case. Method rule: some declared method is `*` or equals the request method, ignoring case. |
| `Router.CompareToAntisymmetric` | WebServer6/Program.cs:303-312 | `a.CompareTo(b)` is the negation of `b.CompareTo(a)`. |
| `Router.CompareToTransitive` | WebServer6/Program.cs:303-312 | The "not after" relation the comparator defines is transitive, so sorting by it is well defined. |
| `Router.OrderByProperties` | WebServer6/Program.cs:217 | `OrderBy` returns a permutation of the routes, sorted under `CompareTo`. |
| `Router.OrderBySortedIsIdentity` | WebServer6/Program.cs:217 | Sorting a table that is already sorted returns it unchanged. |
| `Router.OrderByIncremental` | WebServer6/Program.cs:181-218 | Appending a route to a sorted table and re-sorting, as the loop does after every entry, gives the table a single final sort would give. |
| `Router.OrderByStable` | WebServer6/Program.cs:217 | The sort is stable: routes the comparator cannot tell apart keep their configuration order. |
| `Router.FirstMatch` | WebServer6/Program.cs:102-110 | A result `i` names a matching route with no matching route before it. No result means no route matches. |
| `Router.FirstMatchIsMostSpecific` | WebServer6/Program.cs:102-110 | In a sorted table, no matching route is more specific than the first one found. |
| `Router.ExactRouteBeatsWildcard` | WebServer6/Program.cs:303-312 | An exact route and a wildcard route whose stem is no longer sort to exact-first in either configuration order. A request the exact route matches reaches the exact route. |
| `Middleware.ConfigureAuthentication` | WebServer6/Program.cs:485-499 | A null dictionary throws. A missing `ApiKey` throws `ArgumentException`. Otherwise configuring succeeds exactly when `ApiKey` is a string or null and `Path`, when present, is an array of strings and nulls. It then holds that key, and that path list or the previous one. |
| `Middleware.AnyPrefix` | WebServer6/Program.cs:503 | The search answers false exactly when every entry is non-null and no entry is a prefix of the path. A true answer means some entry is a prefix. A throw means some entry is null. |
| `Middleware.AuthenticationGuard` | WebServer6/Program.cs:501-515 | With no null path entries, a request is stopped exactly when its path is guarded and its `X-API-Key` differs from the key. No path list guards every path. A stopped request gets 401 and a closed response; a passed request leaves the response untouched. |
| `Middleware.NullKeyAdmitsMissingHeader` | WebServer6/Program.cs:507 | A key configured as JSON `null` admits every request that carries no `X-API-Key`. |
| `Middleware.APIAuthenticationModule.constructor` | WebServer6/Program.cs:480-483 | A new module has no key and no path list. |
| `Middleware.APIAuthenticationModule.Configure` | WebServer6/Program.cs:485-499 | The fields and the outcome are those `ConfigureAuthentication` gives for the old fields. |
| `Middleware.APIAuthenticationModule.ProcessRequest` | WebServer6/Program.cs:501-515 | The verdict and the response are those `Authenticate` gives for the configured fields. |
| `Middleware.ConfigureCompression` | WebServer6/Program.cs:522-532 | `MinSizeToCompress` is the setting when present, else 1024. A setting that is not an `int` fails and keeps the old value. |
| `Middleware.ChooseEncoding` | WebServer6/Program.cs:537-557 | An encoding is chosen only with an `Accept-Encoding` header and `ContentLength64 >= MinSizeToCompress`. It is then gzip when the header contains `gzip`, else deflate when the header contains `deflate`, else none. |
| `Middleware.NothingCompressedBeforeHandler` | WebServer6/Program.cs:94-100 | Middleware sees the response before any handler has set its length. With a positive threshold nothing is compressed. |
| `Middleware.CompressionModule.constructor` | WebServer6/Program.cs:518-520 | A new module's threshold is 0, C#'s default. |
| `Middleware.CompressionModule.Configure` | WebServer6/Program.cs:522-532 | The threshold and the outcome are those `ConfigureCompression` gives. |
| `Middleware.CompressionModule.ProcessRequest` | WebServer6/Program.cs:534-560 | Without a chosen encoding the module continues and leaves the response alone. With one, it adds `Content-Encoding` for it and throws `NotSupportedException`, because copying from the write-only output stream fails. |
| `Middleware.ConfigureRateLimiting` | WebServer6/Program.cs:568-578 | `MaxRequestsPerMinute` is the setting when present, else 60. A setting that is not an `int` fails and keeps the old value. |
| `Middleware.Admit` | WebServer6/Program.cs:580-607 | A refused request changes no counter. An accepted one changes only its client's counter. A minute or more after `LastReset` the counter restarts at `(1, now)`. Within the window a client at the limit is refused and one below it has its count raised. An unknown client starts from `(0, now)`. |
| `Middleware.ReplayWithinWindow` | WebServer6/Program.cs:585-605 | A client that has used `used` requests of its window, sending more within that window, gets its `i`-th request through exactly when `used + i` is below the limit. |
| `Middleware.BurstFromNewClient` | WebServer6/Program.cs:585-605 | A new client sending a burst within one minute gets exactly the first `MaxRequestsPerMinute` requests through. Request Max+1 is refused. |
| `Middleware.RateLimitingModule.constructor` | WebServer6/Program.cs:565-566 | A new module has no counters and a limit of 0. |
| `Middleware.RateLimitingModule.Configure` | WebServer6/Program.cs:568-578 | The limit and the outcome are those `ConfigureRateLimiting` gives. The counters do not change. |
| `Middleware.RateLimitingModule.ProcessRequest` | WebServer6/Program.cs:580-607 | The counters become those `Admit` gives. The verdict is continue exactly when admitted. A refusal sets 403 and closes the response. |
| `Settings.GetStrings` | WebServer6/Program.cs:497 | Reading the path list succeeds exactly for an array whose items are all strings or nulls, and keeps every item in order. |
| `Plugins.FindExternal` | WebServer6/Program.cs:194-200 | The lookup finds a class exactly when the named assembly loads and contains it. |
| `Plugins.LoadExternal` | WebServer6/Program.cs:202-208 | A plugin instance loads exactly when its class can be constructed, implements the role, and, if configurable, accepts its settings. `Configure` is applied exactly for configurable classes. |
| `Plugins.LoadHandlerInstance` | WebServer6/Program.cs:185-208 | The handler object is fresh, and it is configured as `LoadHandler` describes, or fails with that exception. Every static-files handler uses the shared `MemoryCache`. |
| `Plugins.LoadMiddlewareInstance` | WebServer6/Program.cs:225-248 | The middleware object is fresh, and it is configured as `LoadMiddleware` describes, or fails with that exception. |
| `Plugins.BuiltInTakesPrecedence` | WebServer6/Program.cs:187-191 | A class WebServer6 defines is loaded from WebServer6, whatever assembly the entry names and whatever the plugins hold. |
| `Plugins.MissingClassFails` | WebServer6/Program.cs:194-200 | A class in neither WebServer6 nor the named assembly throws `ArgumentException`. |
| `Plugins.ConfigureOnlyConfigurable` | WebServer6/Program.cs:205-208 | A plain plugin class loads unconfigured. A configurable one loads exactly when its `Configure` accepts the settings. A loaded handler was configured exactly when its class is configurable. |
| `Plugins.MiddlewareIsNoHandler` | WebServer6/Program.cs:190 | Naming a middleware class in a route entry fails with `InvalidCastException`. |
| `WebServer6.ServerConfig.constructor` | WebServer6/Program.cs:165-176 | A new configuration holds its entries and empty tables. |
| `WebServer6.ServerConfig.InitializeHandlersAndModules` | WebServer6/Program.cs:178-257 | `Routes` is the sorted table of the route entries that load, each handler configured as its entry says. `Middleware` holds the middleware entries that load, in configuration order. All objects are new, and every static-files handler uses the shared cache. |
| `WebServer6.ServerConfig.InitializeRoutes` | WebServer6/Program.cs:180-218 | The route half: `Routes` is sorted and holds the entries that load, sharing one cache; `Middleware` is untouched. |
| `WebServer6.ServerConfig.InitializeMiddleware` | WebServer6/Program.cs:220-256 | The middleware half: `Middleware` holds the entries that load, in order; `Routes` is untouched. |
| `WebServer6.LoadRoutes` | WebServer6/Program.cs:181-218 | The route loop builds the sorted table of the loading entries, with new objects sharing one cache. |
| `WebServer6.AddRoute` | WebServer6/Program.cs:183-217 | One turn of the route loop extends the sorted table of the first `i` entries to that of the first `i + 1`. |
| `WebServer6.SortedStep` | WebServer6/Program.cs:210-217 | Re-sorting after adding entry `i`, or after skipping it, gives the sort of the first `i + 1` entries. |
| `WebServer6.LoadMiddlewareChain` | WebServer6/Program.cs:220-256 | The middleware loop builds the list of the loading entries, in order, from new objects. |
| `WebServer6.AddMiddleware` | WebServer6/Program.cs:223-255 | One turn of the middleware loop appends entry `j`'s middleware when it loads and otherwise keeps the list. |
| `WebServer6.FailedEntryIsSkipped` | WebServer6/Program.cs:212-215 | An entry that throws leaves the route table exactly as the other entries make it. |
| `WebServer6.MiddlewareKeepOrder` | WebServer6/Program.cs:220-256 | The middleware of two runs of entries is the middleware of the first run followed by that of the second: loaded middleware is never reordered. |
| `WebServer6.FirstStop` | WebServer6/Program.cs:94-100 | A result names the first middleware that did not answer `true`; no result means every one answered `true`. |
| `WebServer6.HandleRequest` | WebServer6/Program.cs:83-130 | The request loop ends as `Dispatch` says: the number of middleware run, the handler invoked, and refused, responded, 404 or 500. |
| `WebServer6.ShortCircuit` | WebServer6/Program.cs:94-100 | A middleware answering `false` or throwing ends the request. Nothing after it runs, no handler is invoked, and later middleware make no difference. `false` ends as refused and a throw as 500. |
| `WebServer6.FirstMatchingHandlerRuns` | WebServer6/Program.cs:102-118 | When every middleware passes, the invoked handler is that of the first matching route, and there is a handler exactly when some route matches. No match is 404. |
| `WebServer6.MostSpecificRouteWins` | WebServer6/Program.cs:102-110 | The handler a request reaches in the loaded table belongs to a matching route that no other matching route is more specific than. |
| `Responses.SendErrorResponse` | WebServer6/Program.cs:144-151 | An open response gets the status and the message and is closed. Sending on a closed response throws. |
| `StaticFiles.WatchWebRoot` | WebServer6/Program.cs:339-346 | Setting up the watcher succeeds exactly when `webRoot` names an existing directory. |
| `StaticFiles.ConfigureStaticFilesMeaning` | WebServer6/Program.cs:321-337 | A null dictionary or a missing `WebRoot` throws before any field is set. Configuring succeeds exactly when `WebRoot` is a string naming an existing directory and `CacheExpirationMinutes`, when present, is an `int`. It then holds both, the expiry defaulting to its previous value (5 on a new handler). |
| `StaticFiles.FileResponse` | WebServer6/Program.cs:375-385 | A found file's response carries its media type, length and bytes, the two security headers and, for image types only, two more headers; it is closed. |
| `StaticFiles.StaticFilesHandler.constructor` | WebServer6/Program.cs:317-319 | A new handler has no web root, a 5-minute expiry, and the shared cache. |
| `StaticFiles.StaticFilesHandler.Configure` | WebServer6/Program.cs:321-337 | The fields and the outcome are those `ConfigureStaticFiles` gives for the old fields. |
| `StaticFiles.StaticFilesHandler.OnWatcherEvent` | WebServer6/Program.cs:348-355 | The shared cache becomes its invalidation by the event: Changed, Created and Deleted remove `FullPath`; Renamed removes both paths. |
| `StaticFiles.StaticFilesHandler.HandleRequest` | WebServer6/Program.cs:358-386 | The result and the shared cache are those `Serve` gives for the old cache. |
| `StaticFiles.MissingFileIsNotFound` | WebServer6/Program.cs:362-366 | For any configured web root and expiry, a file that does not exist is 404 even when it is cached, and the cache is unchanged. |
| `StaticFiles.HitIgnoresDiskContent` | WebServer6/Program.cs:368-373 | A cached file is served from the cache whatever the disk now holds, provided it still exists. |
| `StaticFiles.MissFillsCache` | WebServer6/Program.cs:368-373 | A miss on a readable file serves its bytes and stores exactly them under the path. A non-positive expiry throws and stores nothing. |
| `StaticFiles.CoherentCacheIsTransparent` | WebServer6/Program.cs:358-386 | Against a coherent cache the handler serves what the disk holds and keeps the cache coherent. |
| `StaticFiles.ImageHeadersOnImagesOnly` | WebServer6/Program.cs:379-382 | The image cache headers are added exactly for the six image extensions. |
| `StaticFiles.RootRequestIsNotFound` | WebServer6/Program.cs:360-366 | On a disk where no name is both a file and a directory, a request for `/` names the web root directory, which is not a file, so the answer is 404. |
| `StaticFiles.RootedRequestEscapesWebRoot` | WebServer6/Program.cs:360 | A request path that becomes rooted after trimming its slashes, such as `/C:/x`, names that absolute path: `Path.Combine` drops the web root. |
| `StaticFiles.NestedEntrySurvivesInvalidation` | WebServer6/Program.cs:348-360 | A nested file is cached under a key containing `/`. An event whose paths hold no `/` leaves that entry in place. |
| `StaticFiles.SampleDynamicContentHandler.constructor` | WebServer6/Program.cs:450 | A new handler answers `text/html`. |
| `StaticFiles.SampleDynamicContentHandler.Configure` | WebServer6/Program.cs:452-458 | The media type and the outcome are those `ConfigureDynamicContent` gives. |
| `StaticFiles.SampleDynamicContentHandler.HandleRequest` | WebServer6/Program.cs:460-477 | The response is the one `DynamicContent` describes. |
| `StaticFiles.ConfigureDynamicContent` | WebServer6/Program.cs:452-458 | `DefaultResponseType` replaces the media type when present. Configuring fails only for a null dictionary or a value that is not a string. |
| `StaticFiles.DynamicContent` | WebServer6/Program.cs:460-477 | The response is closed and has the configured media type. The body is the JSON message for `application/json` and otherwise the HTML page naming the path. |
| `ContentTypes.GetContentType` | WebServer1/Program.cs:126-152 | The media type is the table entry for the lower-cased extension, or `application/octet-stream` for any other extension. |
| `ContentTypes.GetMimeType` | WebServer6/Program.cs:410-444 | As above, with `.json`, `.pdf`, `.zip` and `.txt` added to the table. |
| `ContentTypes.ImageContentTypes` | WebServer5/Program.cs:131-137 | Both tables give an `image/` type exactly for `.jpg`, `.jpeg`, `.png`, `.gif`, `.svg` and `.ico`. |
| `ContentTypes.MimeTypeExtendsContentType` | WebServer6/Program.cs:410-444 | WebServer6's table agrees with the older one on every extension the older one knows. |
| `ContentTypes.ContentTypeIgnoresCase` | WebServer1/Program.cs:128 | The media type depends on the extension only, whatever its letter case. |
| `Integers.WrapInt32` | WebServer5/Program.cs:50 | The result is a 32-bit `int` congruent to the mathematical value, and equal to it when that value fits. |
| `FileCaching.Invalidate` | WebServer5/Program.cs:29-38 | The cache after an event has the old keys minus the event's paths, each with its old bytes. |
| `FileCaching.FileCache.constructor` | WebServer1/Program.cs:9 | A new cache is empty. |
| `FileCaching.FileCache.TryGetValue` | WebServer1/Program.cs:77 | The lookup finds a key exactly when it is cached, and returns its bytes. |
| `FileCaching.FileCache.Set` | WebServer1/Program.cs:79 | Storing maps the key to the bytes and changes nothing else. |
| `FileCaching.FileCache.Remove` | WebServer1/Program.cs:25 | Removing drops the key; a missing key is no error. |
| `FileCaching.InvalidationKeepsCoherence` | WebServer1/Program.cs:23-32 | For a write, delete or rename of a single file, cached under no other spelling than the event's path, invalidation keeps the cache coherent with the changed disk. |
| `FileCaching.CaseVariantSurvives` | WebServer1/Program.cs:23-32 | An entry cached under another spelling of a rewritten file keeps its old bytes and makes the cache incoherent. |
| `FileCaching.CaseVariantsShareKey` | WebServer1/Program.cs:67 | Any two paths that differ only in the case of ASCII letters have full paths that also differ only in case, and so name the same file. |
| `FileCaching.DirectoryMoveLeavesStaleEntry` | WebServer1/Program.cs:14-19 | Renaming a directory raises one `Renamed` event for the directory. An entry cached from below it survives with its old bytes, no file exists under its path any more, and the cache is no longer coherent. |
| `FileServing.LookUp` | WebServer1/Program.cs:77 | The lookup hits exactly for a cached path. It loads exactly for an uncached readable file, finds nothing exactly for an uncached missing file, and otherwise fails to read. |
| `FileServing.CoherentLookup` | WebServer1/Program.cs:77-83 | With a coherent cache, content is found exactly when the disk can read the file, it is the disk's bytes, and storing it keeps the cache coherent. |
| `LocalSite.WithIndexFile` | WebServer5/Program.cs:109-113 | `index.html` is appended exactly to paths ending in `/`. WebServer1's `EndsWith("/")` and WebServer5's last-character test agree. |
| `LocalSite.IndexFileKeepsContainment` | WebServer1/Program.cs:59-66 | Appending `index.html` adds no `..` segment and does not make the relative part rooted. |
| `LocalSite.FullRootPathIsRootPath` | WebServer1/Program.cs:68 | The full path of `D:\wwwroot` is `D:\wwwroot` whatever the working directory. |
| `LocalSite.ContainedPathNotForbidden` | WebServer1/Program.cs:65-75 | A URL path without `..` segments whose relative part is not rooted maps to the web root or below it, and the guard admits it. |
| `LocalSite.ParentOfRoot` | WebServer1/Program.cs:65-67 | `/../name` maps to `D:\name`, outside the web root. |
| `LocalSite.ParentOfRootGuard` | WebServer1/Program.cs:71 | `/../name` is refused exactly when `name` does not begin with `wwwroot`, ignoring case. |
| `LocalSite.SiblingPassesGuard` | WebServer5/Program.cs:115-126 | The mapping sends a path such as `/../wwwroot-old` to a sibling outside the web root, and the guard admits it. `Uri` removes dot segments before the server reads the path, so this input is not one a client can deliver. |
| `LocalSite.DriveRootedRequest` | WebServer1/Program.cs:65-71 | `/D:/name` has no `..` segment. `Path.Combine` drops the web root before its rooted relative part, so it maps to `D:\name`. The guard refuses it exactly when `name` does not begin with `wwwroot`, ignoring case. |
| `LocalSite.DriveRootedSiblingPassesGuard` | WebServer1/Program.cs:65-71 | `/D:/wwwroot-old` reaches a sibling outside the web root, with no `..` segment, and passes the guard. |
| `WebServer1.Program.constructor` | WebServer1/Program.cs:9 | The server starts with an empty cache. |
| `WebServer1.Program.OnFileChanged` | WebServer1/Program.cs:23-26 | The cache loses exactly `FullPath`. |
| `WebServer1.Program.OnFileRenamed` | WebServer1/Program.cs:28-32 | The cache loses exactly the old and the new path. |
| `WebServer1.Program.OnWatcherEvent` | WebServer1/Program.cs:16-19 | Every watcher event invalidates the cache as `Invalidate` says. |
| `WebServer1.Program.ProcessRequest` | WebServer1/Program.cs:54-108 | The reply and the cache are those `Respond` gives for the URL path and the old cache. |
| `WebServer1.Program.ServeFile` | WebServer1/Program.cs:69-107 | The reply and the cache are those `Serve` gives for the mapped local path. |
| `WebServer1.AlwaysCloses` | WebServer1/Program.cs:102-107 | Every reply is closed, 403, 404 and 500 included. |
| `WebServer1.ForbiddenLeavesCache` | WebServer1/Program.cs:71-75 | The reply is 403 exactly when the guard refuses the path. A refusal leaves the cache unchanged and does not depend on the disk. |
| `WebServer1.ContainedNeverForbidden` | WebServer1/Program.cs:59-75 | A URL path without `..` segments whose relative part is not rooted is never refused. |
| `WebServer1.CoherentCacheIsTransparent` | WebServer1/Program.cs:77-101 | Against a coherent cache the server answers as without a cache (200 with the disk's bytes, 404, or 500 for an unreadable file) and keeps the cache coherent. |
| `WebServer1.ServesFileMovedAway` | WebServer1/Program.cs:77-83 | After a directory rename and its one event, a file cached from below the old directory no longer exists, yet it is served with 200 and its old bytes, because the cache is consulted before `File.Exists`. |
| `WebServer1.ServeIdempotent` | WebServer1/Program.cs:77-83 | Repeating a request gives the same reply and leaves the same cache. |
| `WebServer1.LoadedThenHit` | WebServer1/Program.cs:77-83 | After a load, the file is cached and the next request hits it with the same reply. |
| `WebServer1.CacheKept` | WebServer1/Program.cs:71-87 | A refusal, a miss or a hit leaves the cache as it was. |
| `WebServer5.TryParseInt32` | WebServer5/Program.cs:43 | A parsed value fits in 32 bits. |
| `WebServer5.ParseRoundTrip` | WebServer5/Program.cs:43 | `int.TryParse` reads back every `int` that `ToString` writes. |
| `WebServer5.MaxThreadsFromArgument` | WebServer5/Program.cs:43-46 | A first argument that is a written `int` becomes `MaxThreads`, whatever the processor count. |
| `WebServer5.Program.constructor` | WebServer5/Program.cs:10-15 | `MaxThreads` starts at 48 and the cache is empty. |
| `WebServer5.Program.Start` | WebServer5/Program.cs:43-66 | `MaxThreads` is the parsed first argument, or twice the processor count wrapped to 32 bits. The loop starts `MaxThreads` workers, or none when that is not positive. |
| `WebServer5.Program.OnFileChanged` | WebServer5/Program.cs:29-32 | The cache loses exactly `FullPath`. |
| `WebServer5.Program.OnFileRenamed` | WebServer5/Program.cs:34-38 | The cache loses exactly the old and the new path. |
| `WebServer5.Program.OnWatcherEvent` | WebServer5/Program.cs:22-25 | Every watcher event invalidates the cache as `Invalidate` says. |
| `WebServer5.Program.ProcessRequest` | WebServer5/Program.cs:104-166 | The reply and the cache are those `Respond` gives for the URL path and the old cache. |
| `WebServer5.Program.ServeFile` | WebServer5/Program.cs:119-160 | The reply and the cache are those `Serve` gives for the mapped local path. |
| `WebServer5.SameAnswersAsWebServer1` | WebServer5/Program.cs:119-145 | WebServer5 gives WebServer1's status, media type and body and leaves the same cache. Its reply is closed exactly when it is not a 403. |
| `WebServer5.FoundReply` | WebServer5/Program.cs:128-144 | Past the guard, the two servers give the same reply apart from the image headers, and the same cache. |
| `WebServer5.ImageHeadersOnImagesOnly` | WebServer5/Program.cs:131-137 | The image cache headers go on exactly the 200 replies for the six image extensions. |

## Left out

- **Network.** `HttpListener`, its prefixes, TLS and certificates, and the accept loops are I/O. A request enters the model as its URL path (and method, headers and client address where used), and a response leaves it as a value.
- **Workers and queues.** The worker threads and tasks, `BlockingCollection`, `MaxQueueSize`, cancellation and shutdown are concurrency over library primitives, and all operations are modelled one at a time. The non-atomic read-modify-write on the rate limiter's dictionary is modelled as sequential.
- **Logging.** The logging engines, timers, log files, the event log, console output and the `Stopwatch` timings are left out.
- **Reflection and JSON.** `Assembly.LoadFrom`, `Activator.CreateInstance` and JSON deserialisation are foreign calls. Assemblies are a catalogue of classes by name. A plugin class's `Configure` and `HandleRequestAsync` are not visible, so a loaded plugin is known by its class name and the settings it was configured with.
- **WebServer6's `config.json`.** `Port`, `HttpsPort`, `MaxThreads` and the certificate settings feed only the listener and the worker pool. A `null` `RouteConfigs`, `MiddlewareConfigs`, `Path` or `Methods`, which would throw, is not representable.
- **Compression streams.** The GZip and Deflate byte streams of `CompressionModule` are library calls. The model records the `Content-Encoding` header and the exception from copying out of the write-only output stream. Any bytes the disposed compressor writes to the response are not modelled. That the copy throws `NotSupportedException` is .NET library behaviour, not something the servers' own code shows.
- **Case folding.** `OrdinalIgnoreCase`, `ToLowerInvariant` and the file system's case folding fold ASCII letters only. Culture-sensitive `StartsWith`/`EndsWith` calls are modelled as ordinal comparisons.
- **Byte lengths.** Message lengths are counted in characters, which equals their UTF-8 length for the ASCII messages the servers send.
- **Paths.** `Path.GetFullPath` covers drive-rooted, drive-relative, root-relative and relative paths. UNC and device paths, and the exceptions for invalid characters, are left out. Windows also strips a single trailing `.` from a segment, and trailing periods and spaces from the last segment. That trimming is not modelled. So for `/index.html.` the model keeps the name `index.html.`: WebServer1 and WebServer5 then answer `application/octet-stream` where Windows gives `text/html`, and use a different cache key. `Disk.Key` has the same gap, so WebServer6's cache alias through such a name cannot be expressed. Uri unescaping and dot-segment removal in `Url.AbsolutePath` are not modelled: a URL path enters the model as the server would read it.
- **Time.** Clocks are parameters. The rate limiter takes the current time in ticks. `Expires` headers take their formatted text. The dynamic handler's JSON, which carries a timestamp, is a parameter.
- FileCaching.InvalidationKeepsCoherence: covers changes to single files only. A directory rename is a separate change (`Disk.RenameDirectory`), and the cache does not stay coherent through it (`FileCaching.DirectoryMoveLeavesStaleEntry`). Creating or deleting a whole directory tree is not modelled.
- StaticFiles.StaticFilesHandler.HandleRequest: the `MemoryCache` sliding expiration is not modelled. Entries leave the shared cache only through watcher events; the only expiry behaviour kept is that a non-positive expiry throws on store.
- WebServer6.HandleRequest: takes each middleware's answer and whether the handler throws as given. The 500 path's own failure on an already closed response and the `finally` log line are not modelled.
- WebServer5.Program.Start: counts the workers the loop starts. The threads themselves and the request queue they drain are not modelled.
- WebServer6.ServerConfig.InitializeHandlersAndModules: the source assigns the `Routes` property on every turn of its loop; the model keeps the table in a local and assigns it once, which nothing in between can observe.
- **Other programs.** `ClientLoad`, `StockQuotesAPI` and `StockPageGenerator` are load generators and random price pages, not part of the servers, and are not part of this model.
