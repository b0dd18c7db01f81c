/** `getContentType`: the closed extension-to-MIME table of the file handler. */
module ContentType {

  const OctetStream := "application/octet-stream"
  const TextHtml := "text/html; charset=utf-8"

  /** The fifteen extensions the handler knows, with the leading dot. */
  const ContentTypes: map<string, string> := map[
    ".html" := TextHtml,
    ".htm" := TextHtml,
    ".css" := "text/css; charset=utf-8",
    ".js" := "application/javascript; charset=utf-8",
    ".json" := "application/json; charset=utf-8",
    ".png" := "image/png",
    ".jpg" := "image/jpeg",
    ".jpeg" := "image/jpeg",
    ".gif" := "image/gif",
    ".svg" := "image/svg+xml",
    ".ico" := "image/x-icon",
    ".txt" := "text/plain; charset=utf-8",
    ".md" := "text/markdown; charset=utf-8",
    ".pdf" := "application/pdf",
    ".zip" := "application/zip"
  ]

  const KnownExtensions: set<string> := {
    ".html", ".htm", ".css", ".js", ".json", ".png", ".jpg", ".jpeg",
    ".gif", ".svg", ".ico", ".txt", ".md", ".pdf", ".zip"
  }

  /** The MIME type served for extension `ext` (dot included, already lower-cased
      by the caller). Unknown extensions, the empty one included, fall back to
      the generic binary type, and no known extension maps to it. */
  function ContentTypeFor(ext: string): (r: string)
    ensures r != OctetStream <==> ext in KnownExtensions
    ensures r != ""
  {
    if ext in ContentTypes then ContentTypes[ext] else OctetStream
  }

  /** The table covers exactly the fifteen listed extensions. */
  lemma ContentTypeTableKeys()
    ensures ContentTypes.Keys == KnownExtensions
  {
  }

  /** `.html` and `.htm` share one type, as do `.jpg` and `.jpeg`. */
  lemma ContentTypeSynonyms()
    ensures ContentTypeFor(".html") == ContentTypeFor(".htm") == TextHtml
    ensures ContentTypeFor(".jpg") == ContentTypeFor(".jpeg") == "image/jpeg"
  {
  }

  /** The empty extension and an upper-case spelling are not in the table. */
  lemma ContentTypeFallback()
    ensures ContentTypeFor("") == OctetStream
    ensures ContentTypeFor(".HTML") == OctetStream
  {
  }
}
