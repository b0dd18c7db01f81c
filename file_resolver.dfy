/** `resolveFile`: how the file handler answers a request path with a status,
    a payload and a content type, over a file system seen only through the
    outcomes of its `stat`, `access` and `readFile` calls. */
module FileResolver {
  import opened Wrappers
  import opened JsText
  import opened ContentType
  import opened PosixPath
  import opened TemplateParser

  /** What one file-system call gives back: a value, `ENOENT`, or any other
      error. */
  datatype Outcome<T> = Found(value: T) | Missing | Broken

  /** The file system as the handler sees it. `stat` tells whether the path
      is a directory. */
  datatype FileSystem = FileSystem(
    stat: string -> Outcome<bool>,
    access: string -> Outcome<()>,
    readFile: string -> Outcome<string>)

  /** The parts of Node's `path` module the handler calls. */
  datatype PathOps = PathOps(
    normalize: string -> string,
    join: (string, string) -> string,
    extname: string -> string,
    basename: (string, string) -> string)

  /** The POSIX `path` module. */
  const NodePath := PathOps(Normalize, Join, Extname, Basename)

  /** One file-system call, in the order the handler makes them. */
  datatype Probe = Stat(path: string) | Access(path: string) | Read(path: string)

  /** What the response buffer holds: a fixed message, the bytes of a file,
      or a page assembled from the includes and the rendered markdown, in
      document order. The constant page shell (styles and scripts) is not
      part of the model. */
  datatype Payload =
    | Message(text: string)
    | FileBytes(content: string)
    | Page(head: string, title: string, header: string, body: string, footer: string)

  datatype Response = Response(status: int, payload: Payload, contentType: Option<string>)

  const Forbidden := Response(403, Message("Forbidden: Directory traversal not allowed"), None)
  const NoIndex := Response(404, Message("Directory index not found"), None)
  const NotFound := Response(404, Message("File not found"), None)
  const ServerError := Response(500, Message("Internal server error"), None)

  /** `path.join('/shared-includes', 'includes')` */
  const IncludesDir := "/shared-includes/includes"
  /** The only include names `includeHtml` accepts. */
  const Includes := ["header", "footer", "head"]

  /** `path.join(includesDir, name + '.html')`, written out: the directory
      and the three names are already normal, so `path.join` only inserts the
      separator (`IncludePathIsJoin`). */
  function IncludePath(name: string): string {
    IncludesDir + [Separator] + name + ".html"
  }

  /** Why an include could not be loaded. Both carry no error code, so a
      missing include file is not told apart from any other failure. */
  datatype IncludeError = NotRecognized(name: string) | ReadFailed(name: string)

  /** `includeHtml(filename)`: a name outside the allow-list is refused
      before anything is read; otherwise the file is read, and any failure to
      read it is reported. */
  function IncludeHtml(fs: FileSystem, name: string): (r: (Result<string, IncludeError>, seq<Probe>))
    ensures name !in Includes ==> r == (Failure(NotRecognized(name)), [])
    ensures name in Includes ==> r.1 == [Read(IncludePath(name))]
    ensures name in Includes ==>
      (r.0.Success? <==> fs.readFile(IncludePath(name)).Found?) &&
      (r.0.Success? ==> r.0.value == fs.readFile(IncludePath(name)).value)
  {
    if name !in Includes then (Failure(NotRecognized(name)), [])
    else
      var path := IncludePath(name);
      match fs.readFile(path)
      case Found(text) => (Success(text), [Read(path)])
      case _ => (Failure(ReadFailed(name)), [Read(path)])
  }

  /** `convertMarkdownToHtml(markdown, title)`: the three includes are all
      requested; the first failure among head, header and footer, in that
      order, is the error. */
  function ConvertMarkdownToHtml(fs: FileSystem, render: string -> string, markdown: string, title: string)
    : (r: (Result<Payload, IncludeError>, seq<Probe>))
    ensures r.1 == [Read(IncludePath("head")), Read(IncludePath("header")), Read(IncludePath("footer"))]
    ensures r.0.Success? <==>
      && fs.readFile(IncludePath("head")).Found?
      && fs.readFile(IncludePath("header")).Found?
      && fs.readFile(IncludePath("footer")).Found?
    ensures r.0.Success? ==> r.0.value == Page(
      fs.readFile(IncludePath("head")).value, title,
      fs.readFile(IncludePath("header")).value, render(markdown),
      fs.readFile(IncludePath("footer")).value)
  {
    var body := render(markdown);
    var (head, p1) := IncludeHtml(fs, "head");
    var (header, p2) := IncludeHtml(fs, "header");
    var (footer, p3) := IncludeHtml(fs, "footer");
    var probes := p1 + p2 + p3;
    if head.Failure? then (Failure(head.error), probes)
    else if header.Failure? then (Failure(header.error), probes)
    else if footer.Failure? then (Failure(footer.error), probes)
    else (Success(Page(head.value, title, header.value, body, footer.value)), probes)
  }

  /** `p.replace(/\.html?$/i, '.md')` */
  function MarkdownPath(p: string): string {
    if |p| >= 5 && Lower(p[|p| - 5..]) == ".html" then p[..|p| - 5] + ".md"
    else if |p| >= 4 && Lower(p[|p| - 4..]) == ".htm" then p[..|p| - 4] + ".md"
    else p
  }

  /** The answer once `markdownPath` is the page's markdown source. */
  function MarkdownStage(paths: PathOps, fs: FileSystem, render: string -> string, vars: map<string, string>,
                         markdownPath: string, trace: seq<Probe>): (Response, seq<Probe>)
  {
    var t := trace + [Read(markdownPath)];
    match fs.readFile(markdownPath)
    case Missing => (NotFound, t)
    case Broken => (ServerError, t)
    case Found(markdown) =>
      var (page, includes) := ConvertMarkdownToHtml(fs, render, Expand(vars, markdown), paths.basename(markdownPath, ".md"));
      if page.Success? then (Response(200, page.value, Some(TextHtml)), t + includes)
      else (ServerError, t + includes)
  }

  /** The answer once `target` is the file to read: its bytes, or for a
      missing `.html` file the page rendered from its markdown sibling. */
  function FileStage(paths: PathOps, fs: FileSystem, render: string -> string, vars: map<string, string>,
                     target: string, trace: seq<Probe>): (Response, seq<Probe>)
  {
    var t := trace + [Read(target)];
    var ext := Lower(paths.extname(target));
    match fs.readFile(target)
    case Found(content) => (Response(200, FileBytes(content), Some(ContentTypeFor(ext))), t)
    case Broken => (ServerError, t)
    case Missing =>
      if ext == ".html" then MarkdownStage(paths, fs, render, vars, MarkdownPath(target), t)
      else (NotFound, t)
  }

  /** The answer for a directory: its `index.html` is read when the
      directory has an `index.html` or an `index.md`. */
  function IndexStage(paths: PathOps, fs: FileSystem, render: string -> string, vars: map<string, string>,
                      dir: string, trace: seq<Probe>): (Response, seq<Probe>)
  {
    var html := paths.join(dir, "index.html");
    var md := paths.join(dir, "index.md");
    var t := trace + [Access(html)];
    match fs.access(html)
    case Found(_) => FileStage(paths, fs, render, vars, html, t)
    case Broken => (ServerError, t)
    case Missing =>
      var t' := t + [Access(md)];
      match fs.access(md)
      case Found(_) => FileStage(paths, fs, render, vars, html, t')
      case Missing => (NoIndex, t')
      case Broken => (ServerError, t')
  }

  /** The answer to `requestPath` under `basePath`, with the file-system
      calls made to reach it. */
  function Resolution(paths: PathOps, fs: FileSystem, render: string -> string, vars: map<string, string>,
                      requestPath: string, basePath: string): (Response, seq<Probe>)
  {
    var normalized := paths.normalize(requestPath);
    if Contains(normalized, "..") then (Forbidden, [])
    else
      var full := paths.join(basePath, normalized);
      match fs.stat(full)
      case Broken => (ServerError, [Stat(full)])
      case Found(true) => IndexStage(paths, fs, render, vars, full, [Stat(full)])
      case _ => FileStage(paths, fs, render, vars, full, [Stat(full)])
  }

  /** `resolveFile(requestPath, basePath)` against the variables of the
      current template configuration and the markdown renderer `render`. */
  method ResolveFile(paths: PathOps, fs: FileSystem, render: string -> string, vars: map<string, string>,
                     requestPath: string, basePath: string)
    returns (response: Response, probes: seq<Probe>)
    ensures (response, probes) == Resolution(paths, fs, render, vars, requestPath, basePath)
  {
    var normalizedPath := paths.normalize(requestPath);
    if Contains(normalizedPath, "..") {
      return Forbidden, [];
    }
    var fullPath := paths.join(basePath, normalizedPath);
    probes := [Stat(fullPath)];
    var stats := fs.stat(fullPath);
    if stats.Broken? {
      return ServerError, probes;
    }
    if stats == Found(true) {
      response, probes := ServeIndex(paths, fs, render, vars, fullPath, probes);
      return;
    }
    response, probes := ServeFile(paths, fs, render, vars, fullPath, probes);
  }

  /** The directory branch of `resolveFile`: find `index.html` or
      `index.md` in `dir`, then serve `index.html`. */
  method ServeIndex(paths: PathOps, fs: FileSystem, render: string -> string, vars: map<string, string>,
                    dir: string, trace: seq<Probe>)
    returns (response: Response, probes: seq<Probe>)
    ensures (response, probes) == IndexStage(paths, fs, render, vars, dir, trace)
  {
    var indexHtml := paths.join(dir, "index.html");
    probes := trace + [Access(indexHtml)];
    var found := fs.access(indexHtml);
    if found.Broken? {
      return ServerError, probes;
    }
    if found.Missing? {
      var indexMd := paths.join(dir, "index.md");
      probes := probes + [Access(indexMd)];
      found := fs.access(indexMd);
      if found.Missing? {
        return NoIndex, probes;
      } else if found.Broken? {
        return ServerError, probes;
      }
    }
    assert IndexStage(paths, fs, render, vars, dir, trace) == FileStage(paths, fs, render, vars, indexHtml, probes);
    response, probes := ServeFile(paths, fs, render, vars, indexHtml, probes);
  }

  /** The part of `resolveFile` that reads the file `fullPath`, falling back
      to its markdown sibling. */
  method ServeFile(paths: PathOps, fs: FileSystem, render: string -> string, vars: map<string, string>,
                   fullPath: string, trace: seq<Probe>)
    returns (response: Response, probes: seq<Probe>)
    ensures (response, probes) == FileStage(paths, fs, render, vars, fullPath, trace)
  {
    probes := trace + [Read(fullPath)];
    var file := fs.readFile(fullPath);
    var ext := Lower(paths.extname(fullPath));
    if file.Found? {
      return Response(200, FileBytes(file.value), Some(ContentTypeFor(ext))), probes;
    } else if file.Broken? {
      return ServerError, probes;
    } else if ext != ".html" {
      return NotFound, probes;
    }
    response, probes := ServeMarkdown(paths, fs, render, vars, MarkdownPath(fullPath), probes);
  }

  /** The markdown fallback of `resolveFile`: read `markdownPath`, expand its
      template variables and render it into the page. */
  method ServeMarkdown(paths: PathOps, fs: FileSystem, render: string -> string, vars: map<string, string>,
                       markdownPath: string, trace: seq<Probe>)
    returns (response: Response, probes: seq<Probe>)
    ensures (response, probes) == MarkdownStage(paths, fs, render, vars, markdownPath, trace)
  {
    probes := trace + [Read(markdownPath)];
    var markdown := fs.readFile(markdownPath);
    if markdown.Missing? {
      return NotFound, probes;
    } else if markdown.Broken? {
      return ServerError, probes;
    }
    var processed := ParseTemplateVariables(vars, markdown.value);
    var (page, includes) := ConvertMarkdownToHtml(fs, render, processed, paths.basename(markdownPath, ".md"));
    probes := probes + includes;
    if page.Failure? {
      return ServerError, probes;
    }
    response := Response(200, page.value, Some(TextHtml));
  }
}
