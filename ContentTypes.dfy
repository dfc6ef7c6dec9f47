/** The extension-to-media-type tables: `GetContentType` of WebServer1 and WebServer5, and
    `StaticFilesHandler.GetMimeType` of WebServer6, which knows a few more extensions. */
module ContentTypes {
  import opened Text
  import opened Paths

  const DefaultContentType := "application/octet-stream"

  /** The table both `GetContentType` switches spell out, one case per extension. */
  const ContentTypeTable: map<string, string> := map[
    ".htm" := "text/html", ".html" := "text/html", ".css" := "text/css",
    ".js" := "application/javascript", ".jpg" := "image/jpeg", ".jpeg" := "image/jpeg",
    ".png" := "image/png", ".gif" := "image/gif", ".svg" := "image/svg+xml",
    ".ico" := "image/x-icon"]

  /** The extensions `GetMimeType` knows beyond the table above. */
  const MimeTypeExtras: map<string, string> := map[
    ".json" := "application/json", ".pdf" := "application/pdf",
    ".zip" := "application/zip", ".txt" := "text/plain"]

  const ImageExtensions: set<string> := {".jpg", ".jpeg", ".png", ".gif", ".svg", ".ico"}

  /** The lower-cased extension both switches are keyed on. */
  function ExtensionKey(filePath: string): string
  {
    ToLowerInvariant(GetExtension(filePath))
  }

  /** `GetContentType` of WebServer1 and WebServer5 */
  function GetContentType(filePath: string): (r: string)
    ensures var ext := ExtensionKey(filePath);
      r == if ext in ContentTypeTable then ContentTypeTable[ext] else DefaultContentType
  {
    match ExtensionKey(filePath)
    case ".htm" => "text/html"
    case ".html" => "text/html"
    case ".css" => "text/css"
    case ".js" => "application/javascript"
    case ".jpg" => "image/jpeg"
    case ".jpeg" => "image/jpeg"
    case ".png" => "image/png"
    case ".gif" => "image/gif"
    case ".svg" => "image/svg+xml"
    case ".ico" => "image/x-icon"
    case _ => DefaultContentType
  }

  /** `StaticFilesHandler.GetMimeType` of WebServer6 */
  function GetMimeType(filePath: string): (r: string)
    ensures var ext := ExtensionKey(filePath);
      r == if ext in ContentTypeTable then ContentTypeTable[ext]
           else if ext in MimeTypeExtras then MimeTypeExtras[ext]
           else DefaultContentType
  {
    match ExtensionKey(filePath)
    case ".html" => "text/html"
    case ".htm" => "text/html"
    case ".css" => "text/css"
    case ".js" => "application/javascript"
    case ".json" => "application/json"
    case ".jpg" => "image/jpeg"
    case ".jpeg" => "image/jpeg"
    case ".png" => "image/png"
    case ".gif" => "image/gif"
    case ".ico" => "image/x-icon"
    case ".svg" => "image/svg+xml"
    case ".pdf" => "application/pdf"
    case ".zip" => "application/zip"
    case ".txt" => "text/plain"
    case _ => DefaultContentType
  }

  /** A content type starts with `image/` exactly for the six image extensions; this decides
      whether the image cache headers are added. */
  lemma ImageContentTypes(filePath: string)
    ensures StartsWith(GetContentType(filePath), "image/") <==> ExtensionKey(filePath) in ImageExtensions
    ensures StartsWith(GetMimeType(filePath), "image/") <==> ExtensionKey(filePath) in ImageExtensions
  {
    ImageEntries(ExtensionKey(filePath));
    NonImageValues();
  }

  /** Which table entries are image types. */
  lemma ImageEntries(ext: string)
    ensures ext in ImageExtensions ==> ext in ContentTypeTable
    ensures ext in ContentTypeTable ==> (StartsWith(ContentTypeTable[ext], "image/") <==> ext in ImageExtensions)
    ensures ext in MimeTypeExtras ==> !StartsWith(MimeTypeExtras[ext], "image/")
  {
    ImageValues();
    NonImageValues();
  }

  lemma ImageValues()
    ensures StartsWith("image/jpeg", "image/") && StartsWith("image/png", "image/") && StartsWith("image/gif", "image/")
    ensures StartsWith("image/svg+xml", "image/") && StartsWith("image/x-icon", "image/")
  {
    assert "image/jpeg"[..6] == "image/png"[..6] == "image/gif"[..6] == "image/";
    assert "image/svg+xml"[..6] == "image/x-icon"[..6] == "image/";
  }

  lemma NonImageValues()
    ensures !StartsWith("text/html", "image/") && !StartsWith("text/css", "image/") && !StartsWith("text/plain", "image/")
    ensures !StartsWith("application/javascript", "image/") && !StartsWith("application/json", "image/")
    ensures !StartsWith("application/pdf", "image/") && !StartsWith("application/zip", "image/")
    ensures !StartsWith(DefaultContentType, "image/")
  {
    assert "text/html"[0] == "text/css"[0] == "text/plain"[0] == 't';
    assert "application/javascript"[0] == "application/json"[0] == 'a';
    assert "application/pdf"[0] == "application/zip"[0] == DefaultContentType[0] == 'a';
  }

  /** WebServer6's table extends the other servers' one: on every extension they know, it agrees. */
  lemma MimeTypeExtendsContentType(filePath: string)
    ensures GetContentType(filePath) != DefaultContentType ==> GetMimeType(filePath) == GetContentType(filePath)
    ensures GetMimeType(filePath) == DefaultContentType ==> GetContentType(filePath) == DefaultContentType
  {
  }

  lemma {:induction false} ToLowerInvariantIdempotent(s: string)
    ensures ToLowerInvariant(ToLowerInvariant(s)) == ToLowerInvariant(s)
  {
    var t := ToLowerInvariant(s);
    assert forall i :: 0 <= i < |t| ==> ToLower(t[i]) == t[i];
  }

  /** The media type depends on the extension only, whatever its letter case. */
  lemma ContentTypeIgnoresCase(filePath: string)
    ensures GetContentType(ToLowerInvariant(filePath)) == GetContentType(filePath)
    ensures GetMimeType(ToLowerInvariant(filePath)) == GetMimeType(filePath)
  {
    ExtensionKeyOfLowerCase(filePath);
    SameKeySameType(ToLowerInvariant(filePath), filePath);
  }

  lemma SameKeySameType(a: string, b: string)
    requires ExtensionKey(a) == ExtensionKey(b)
    ensures GetContentType(a) == GetContentType(b) && GetMimeType(a) == GetMimeType(b)
  {
  }

  lemma ExtensionKeyOfLowerCase(filePath: string)
    ensures ExtensionKey(ToLowerInvariant(filePath)) == ExtensionKey(filePath)
  {
    ExtensionOfLowerCase(filePath, |filePath|);
    ToLowerInvariantIdempotent(GetExtension(filePath));
  }
}
