/** What WebServer1 and WebServer5 share when serving a file: the reply they build, and the
    cache-then-disk lookup `FileCache.TryGetValue(localPath, out content) || File.Exists(localPath)
    && (content = File.ReadAllBytes(localPath)) != null`. */
module FileServing {
  import opened Wrappers
  import opened Files
  import opened FileCaching

  const StatusOK := 200
  const StatusForbidden := 403
  const StatusNotFound := 404
  const StatusInternalServerError := 500

  datatype Body = Content(bytes: Bytes) | Message(text: string)

  /** The response as the client sees it: status, `Content-Type`, body, whether the image cache
      headers (`Cache-Control`, `Expires`) were added, and whether the response was closed. */
  datatype Reply = Reply(status: int, contentType: string, body: Body, imageCacheHeaders: bool, closed: bool)

  /** `SendErrorResponse(response, status, message)`: a plain-text message. */
  function ErrorReply(status: int, message: string, closed: bool): Reply
  {
    Reply(status, "text/plain", Message(message), false, closed)
  }

  /** A reply and the cache it leaves behind. */
  datatype Exchange = Exchange(reply: Reply, cache: map<string, Bytes>)

  /** Where the content comes from: the cache, the disk, nowhere (404), or a read that threw (500). */
  datatype Lookup = Hit(content: Bytes) | Loaded(content: Bytes) | Missing | ReadFailed

  function LookUp(entries: map<string, Bytes>, disk: Disk, localPath: string): (r: Lookup)
    ensures r.Hit? <==> localPath in entries
    ensures r.Hit? ==> r.content == entries[localPath]
    ensures r.Loaded? <==> localPath !in entries && disk.ReadAllBytes(localPath).Success?
    ensures r.Loaded? ==> r.content == disk.files[disk.Key(localPath)].content
    ensures r.Missing? <==> localPath !in entries && !disk.FileExists(localPath)
  {
    if localPath in entries then Hit(entries[localPath])
    else if !disk.FileExists(localPath) then Missing
    else
      match disk.ReadAllBytes(localPath)
      case Success(content) => Loaded(content)
      case Failure(_) => ReadFailed
  }

  /** A found file's content, and the cache after `FileCache[localPath] = content`. */
  function Store(entries: map<string, Bytes>, localPath: string, found: Lookup): map<string, Bytes>
    requires found.Hit? || found.Loaded?
  {
    entries[localPath := found.content]
  }

  /** With a coherent cache the lookup finds exactly what the disk holds, and storing it keeps the
      cache coherent: caching never changes what is served. */
  lemma CoherentLookup(entries: map<string, Bytes>, disk: Disk, localPath: string)
    requires Coherent(entries, disk)
    ensures var found := LookUp(entries, disk, localPath);
      && ((found.Hit? || found.Loaded?) <==> disk.ReadAllBytes(localPath).Success?)
      && (found.Hit? || found.Loaded? ==> found.content == disk.ReadAllBytes(localPath).value)
      && (found.Hit? || found.Loaded? ==> Coherent(Store(entries, localPath, found), disk))
      && (found.Missing? <==> !disk.FileExists(localPath))
  {
    var found := LookUp(entries, disk, localPath);
    if found.Hit? || found.Loaded? {
      var after := Store(entries, localPath, found);
      forall k | k in after
        ensures k != "" && disk.FileExists(k) && disk.files[disk.Key(k)] == Readable(after[k])
      {
      }
    }
  }
}
