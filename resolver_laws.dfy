/** What `resolveFile` promises: traversal is refused before the file system
    is touched, directories are served through their index, a missing
    `.html` page falls back to its markdown source, and every other failure
    is a 404 or a 500. */
module ResolverLaws {
  import opened Wrappers
  import opened JsText
  import opened ContentType
  import opened PosixPath
  import opened TemplateParser
  import opened FileResolver

  /** Only a successful response names a content type, and the status is one
      of the four the handler sends. */
  predicate WellFormed(r: Response) {
    && (r.contentType.Some? <==> r.status == 200)
    && (r.status == 200 || r.status == 403 || r.status == 404 || r.status == 500)
  }

  /** The file a request path names, before any directory index. */
  function Target(paths: PathOps, requestPath: string, basePath: string): string {
    paths.join(basePath, paths.normalize(requestPath))
  }

  /** The page a markdown source renders to once all three includes load. */
  function RenderedPage(paths: PathOps, fs: FileSystem, render: string -> string, vars: map<string, string>,
                        markdownPath: string, markdown: string): Payload
    requires IncludesLoad(fs)
  {
    Page(fs.readFile(IncludePath("head")).value, paths.basename(markdownPath, ".md"),
         fs.readFile(IncludePath("header")).value, render(Expand(vars, markdown)),
         fs.readFile(IncludePath("footer")).value)
  }

  predicate IncludesLoad(fs: FileSystem) {
    && fs.readFile(IncludePath("head")).Found?
    && fs.readFile(IncludePath("header")).Found?
    && fs.readFile(IncludePath("footer")).Found?
  }

  lemma MarkdownStageShape(paths: PathOps, fs: FileSystem, render: string -> string, vars: map<string, string>,
                           markdownPath: string, trace: seq<Probe>)
    ensures var (r, probes) := MarkdownStage(paths, fs, render, vars, markdownPath, trace);
      WellFormed(r) && r.status != 403 && trace <= probes
  {
  }

  lemma FileStageShape(paths: PathOps, fs: FileSystem, render: string -> string, vars: map<string, string>,
                       target: string, trace: seq<Probe>)
    ensures var (r, probes) := FileStage(paths, fs, render, vars, target, trace);
      WellFormed(r) && r.status != 403 && trace <= probes && |probes| > |trace|
  {
    if fs.readFile(target).Missing? && Lower(paths.extname(target)) == ".html" {
      MarkdownStageShape(paths, fs, render, vars, MarkdownPath(target), trace + [Read(target)]);
    }
  }

  lemma IndexStageShape(paths: PathOps, fs: FileSystem, render: string -> string, vars: map<string, string>,
                        dir: string, trace: seq<Probe>)
    ensures var (r, probes) := IndexStage(paths, fs, render, vars, dir, trace);
      WellFormed(r) && r.status != 403 && trace <= probes && |probes| > |trace|
  {
    var html := paths.join(dir, "index.html");
    var t := trace + [Access(html)];
    match fs.access(html) {
      case Found(_) =>
        FileStageShape(paths, fs, render, vars, html, t);
      case Broken =>
      case Missing =>
        var t' := t + [Access(paths.join(dir, "index.md"))];
        if fs.access(paths.join(dir, "index.md")).Found? {
          FileStageShape(paths, fs, render, vars, html, t');
        }
    }
  }

  /** Every response is well formed: a content type exactly on 200. */
  lemma ResponseWellFormed(paths: PathOps, fs: FileSystem, render: string -> string, vars: map<string, string>,
                           requestPath: string, basePath: string)
    ensures WellFormed(Resolution(paths, fs, render, vars, requestPath, basePath).0)
  {
    var full := Target(paths, requestPath, basePath);
    FileStageShape(paths, fs, render, vars, full, [Stat(full)]);
    IndexStageShape(paths, fs, render, vars, full, [Stat(full)]);
  }

  /** A normalised path containing `..` anywhere, even inside a name, is
      refused with 403 before any file-system call; every other request
      starts by a `stat` of its target, and is never answered with 403. */
  lemma TraversalRefused(paths: PathOps, fs: FileSystem, render: string -> string, vars: map<string, string>,
                         requestPath: string, basePath: string)
    ensures var (r, probes) := Resolution(paths, fs, render, vars, requestPath, basePath);
      && (r.status == 403 <==> Contains(paths.normalize(requestPath), ".."))
      && (Contains(paths.normalize(requestPath), "..") ==> r == Forbidden && probes == [])
      && (!Contains(paths.normalize(requestPath), "..") ==> |probes| > 0 && probes[0] == Stat(Target(paths, requestPath, basePath)))
  {
    var full := Target(paths, requestPath, basePath);
    FileStageShape(paths, fs, render, vars, full, [Stat(full)]);
    IndexStageShape(paths, fs, render, vars, full, [Stat(full)]);
  }

  /** A file that reads is served with the type of its lower-cased extension. */
  lemma FileServed(paths: PathOps, fs: FileSystem, render: string -> string, vars: map<string, string>,
                   target: string, trace: seq<Probe>)
    requires fs.readFile(target).Found?
    ensures FileStage(paths, fs, render, vars, target, trace).0
         == Response(200, FileBytes(fs.readFile(target).value), Some(ContentTypeFor(Lower(paths.extname(target)))))
  {
  }

  /** A missing `.html` page (any letter case) whose markdown sibling reads
      is rendered from it, with the expanded template variables; a missing
      sibling is a 404 and any other failure a 500. */
  lemma HtmlFallback(paths: PathOps, fs: FileSystem, render: string -> string, vars: map<string, string>,
                     target: string, trace: seq<Probe>)
    requires fs.readFile(target).Missing? && Lower(paths.extname(target)) == ".html"
    ensures var md := MarkdownPath(target);
      var r := FileStage(paths, fs, render, vars, target, trace).0;
      && (fs.readFile(md).Found? && IncludesLoad(fs) ==>
            r == Response(200, RenderedPage(paths, fs, render, vars, md, fs.readFile(md).value), Some(TextHtml)))
      && (fs.readFile(md).Missing? ==> r == NotFound)
      && (fs.readFile(md).Broken? ==> r == ServerError)
  {
  }

  /** An include that does not load, even one that is merely missing, turns
      the rendered page into a 500: the include error carries no code. */
  lemma IncludeFailureIsServerError(paths: PathOps, fs: FileSystem, render: string -> string, vars: map<string, string>,
                                    target: string, trace: seq<Probe>)
    requires fs.readFile(target).Missing? && Lower(paths.extname(target)) == ".html"
    requires fs.readFile(MarkdownPath(target)).Found? && !IncludesLoad(fs)
    ensures FileStage(paths, fs, render, vars, target, trace).0 == ServerError
  {
  }

  /** Any other missing file, `.htm` included, is a 404 with no fallback
      read. */
  lemma NoFallbackForOtherExtensions(paths: PathOps, fs: FileSystem, render: string -> string, vars: map<string, string>,
                                     target: string, trace: seq<Probe>)
    requires fs.readFile(target).Missing? && Lower(paths.extname(target)) != ".html"
    ensures FileStage(paths, fs, render, vars, target, trace) == (NotFound, trace + [Read(target)])
  {
  }

  /** A file that fails to read for any reason but absence is a 500. */
  lemma ReadFailureIsServerError(paths: PathOps, fs: FileSystem, render: string -> string, vars: map<string, string>,
                                 target: string, trace: seq<Probe>)
    requires fs.readFile(target).Broken?
    ensures FileStage(paths, fs, render, vars, target, trace) == (ServerError, trace + [Read(target)])
  {
  }

  /** The page shell only ever asks for the three recognised includes, so
      its failures are read failures. */
  lemma PageIncludesRecognised(paths: PathOps, fs: FileSystem, render: string -> string, markdown: string, title: string)
    ensures var r := ConvertMarkdownToHtml(fs, render, markdown, title).0;
      r.Failure? ==> r.error.ReadFailed?
  {
  }

  /** A directory is answered through its `index.html`: a directory with
      only an `index.md` is read as `index.html`, which is missing, and so
      reaches the markdown fallback for `index.md` (given that the `path`
      module names them as `IndexPathsAgree` shows POSIX does); one with
      neither is a 404 after exactly the two index probes. */
  lemma DirectoryIndex(paths: PathOps, fs: FileSystem, render: string -> string, vars: map<string, string>,
                       requestPath: string, basePath: string)
    requires !Contains(paths.normalize(requestPath), "..")
    requires var full := Target(paths, requestPath, basePath);
      && fs.stat(full) == Found(true)
      && paths.extname(paths.join(full, "index.html")) == ".html"
      && MarkdownPath(paths.join(full, "index.html")) == paths.join(full, "index.md")
    ensures var full := Target(paths, requestPath, basePath);
      var html := paths.join(full, "index.html");
      var md := paths.join(full, "index.md");
      var (r, probes) := Resolution(paths, fs, render, vars, requestPath, basePath);
      && (fs.access(html).Found? && fs.readFile(html).Found? ==>
            r == Response(200, FileBytes(fs.readFile(html).value), Some(TextHtml)))
      && (fs.access(html).Missing? && fs.access(md).Found? && fs.readFile(html).Missing?
          && fs.readFile(md).Found? && IncludesLoad(fs) ==>
            r == Response(200, RenderedPage(paths, fs, render, vars, md, fs.readFile(md).value), Some(TextHtml)))
      && (fs.access(html).Missing? && fs.access(md).Missing? ==>
            r == NoIndex && probes == [Stat(full), Access(html), Access(md)])
  {
    assert Lower(".html") == ".html";
    assert ContentTypeFor(".html") == TextHtml;
  }

  /** For every name on the allow-list, the written-out include path is what
      `path.join` gives. */
  lemma IncludePathIsJoin(name: string)
    requires name in Includes
    ensures IncludePath(name) == NodePath.join(IncludesDir, name + ".html")
  {
    var file := name + ".html";
    assert Separator !in file && file != "." && file != ".." by {
      assert name == "header" || name == "footer" || name == "head";
    }
    assert IncludesDir == [Separator] + "shared-includes" + [Separator] + "includes";
    JoinUnderNormalDir("shared-includes", "includes", file);
  }

  /** Joining a proper name onto a two-level normal absolute directory
      only inserts the separator. */
  lemma JoinUnderNormalDir(d1: string, d2: string, file: string)
    requires Proper(d1) && Proper(d2) && Proper(file)
    requires d1 != ".." && d2 != ".." && file != ".."
    ensures var dir := [Separator] + d1 + [Separator] + d2;
      NodePath.join(dir, file) == dir + [Separator] + file
  {
    var segs := [d1, d2, file];
    var tail := [d2, file];
    assert tail[1..] == [file];
    assert segs[1..] == tail;
    assert JoinSegments(tail) == d2 + [Separator] + file;
    assert JoinSegments(segs) == d1 + [Separator] + JoinSegments(tail);
    var p := [Separator] + JoinSegments(segs);
    assert p == [Separator] + d1 + [Separator] + d2 + [Separator] + file;
    NormalizeOfNormal(segs);
  }

  /** Under POSIX, `path.join(dir, 'index.html')` has the extension `.html`
      and its markdown sibling is `path.join(dir, 'index.md')`, which is
      what `DirectoryIndex` relies on. */
  lemma IndexPathsAgree(dir: string)
    requires dir != []
    ensures NodePath.extname(NodePath.join(dir, "index.html")) == ".html"
    ensures MarkdownPath(NodePath.join(dir, "index.html")) == NodePath.join(dir, "index.md")
  {
    IndexHtmlExtension(dir);
    IndexMarkdownPath(dir);
  }

  lemma IndexHtmlExtension(dir: string)
    requires dir != []
    ensures Extname(Join(dir, "index.html")) == ".html"
  {
    assert "index.html" == "index" + ".html";
    LastSegmentOfJoin(dir, "index.html");
    ExtnameOfLastSegment(Join(dir, "index.html"), "index", ".html");
  }

  lemma IndexMarkdownPath(dir: string)
    requires dir != []
    ensures MarkdownPath(Join(dir, "index.html")) == Join(dir, "index.md")
  {
    JoinShape(dir, "index.html");
    JoinShape(dir, "index.md");
    MarkdownPathOfIndex(DirPart(dir));
  }

  lemma MarkdownPathOfIndex(d: string)
    ensures MarkdownPath(d + "index.html") == d + "index.md"
  {
    var p := d + "index.html";
    assert p[|p| - 5..] == ".html";
    LowerSpec(".html");
    assert p[..|p| - 5] == d + "index";
    assert d + "index" + ".md" == d + "index.md";
  }
}
