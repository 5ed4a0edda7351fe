/** The request layer of `mds2.py`, the MDS2 front end: routing, the source and build
    handlers, the lastevents long poll, and the whole of one GET. The gitmds2 back end is the
    `Resolver`; what it calls but does not show, the XML serialisers, percent-decoding and the
    cpio subprocess are parameters. */
module Mds2 {
  import opened Wrappers
  import opened Text
  import opened Git
  import opened Manifest
  import opened MappingsCache
  import opened Resolver
  import opened PosixPath
  import opened Binaries
  import opened LastEvents
  import opened Http

  /** The back end's state: the mappings (`get_mappings()`), the git repositories, the
      document parsers, the mapping cache (`get_mappingscache()`) and `lookup_binariespath`.
      `tools/gitmds2.py` does not define `lookup_binariespath`; `binariesPath` stands for the
      intended one (see `HandleBuildAsWritten`). */
  datatype Backend = Backend(mappings: seq<Mapping>, store: Store, parse: Parsers,
                             cache: seq<RepoRecord>, binariesPath: string -> Option<string>)

  /** lxml on the front end's side: parsing a listing file, and serialising an element, the
      project index and a package index. */
  datatype Xml = Xml(parse: string -> Option<Element>, render: Element -> string,
                     index: seq<string> -> string, directory: Directory -> string)

  /** `get_next_event()` after p sleeps, the shut-down flag after p sleeps, and
      `get_events_filtered`. `tools/gitmds2.py` defines neither function; this is the intended
      event source (see `LastEventsAsWritten`). */
  datatype EventSource = EventSource(next: nat -> int, shutdown: nat -> bool,
                                     filtered: (int, seq<Filter>) -> string)

  /** Everything a request sees besides itself. `started` is the default of `reply`'s `mtime`,
      evaluated once when the class body runs; `cpio(dir, list)` is what the cpio subprocess
      writes; `update` stands for `handle_update`. */
  datatype Env = Env(backend: Backend, xml: Xml, fs: FileSystem, unquote: string -> string,
                     cpio: (string, string) -> string, started: int, events: EventSource,
                     update: (seq<string>, Query) -> Outcome<Handled>)

  // ---------------------------------------------------------------------------
  // send_head: routing
  // ---------------------------------------------------------------------------

  datatype Api = SourceApi | BuildApi | LastEventsApi | UpdateApi

  datatype Routed = Routed(api: Api, comps: seq<string>)

  /** `urlpath.replace("/public", "", 1)` when the path starts with it. */
  function StripPublic(urlpath: string): string
  {
    if StartsWith(urlpath, "/public") then urlpath[7..] else urlpath
  }

  /** `[urllib.unquote(x) for x in urlpath.split("/")[2:]]`. */
  function Components(path: string, unquote: string -> string): (cs: seq<string>)
  {
    var pieces := Split(path, '/');
    if |pieces| < 2 then []
    else seq(|pieces| - 2, i requires 0 <= i < |pieces| - 2 => unquote(pieces[i + 2]))
  }

  /** The dispatch of `send_head` by path prefix; any other path raises RuntimeError. */
  function Route(urlpath: string, unquote: string -> string): Outcome<Routed>
  {
    var path := StripPublic(urlpath);
    var comps := Components(path, unquote);
    if StartsWith(path, "/source") then Returns(Routed(SourceApi, comps))
    else if StartsWith(path, "/build") then Returns(Routed(BuildApi, comps))
    else if StartsWith(path, "/lastevents") then Returns(Routed(LastEventsApi, comps))
    else if StartsWith(path, "/update") then Returns(Routed(UpdateApi, comps))
    else Raises(RuntimeError)
  }

  function ApiName(api: Api): (name: string)
    ensures |name| >= 1 && '/' !in name
  {
    match api
    case SourceApi => "source"
    case BuildApi => "build"
    case LastEventsApi => "lastevents"
    case UpdateApi => "update"
  }

  /** A path `/<api>/<c1>/.../<cn>`, with or without a leading `/public`, reaches that API with
      the decoded components `c1` to `cn`. */
  lemma RouteOfPath(api: Api, cs: seq<string>, unquote: string -> string)
    requires forall i :: 0 <= i < |cs| ==> '/' !in cs[i]
    ensures var path := Text.Join(["", ApiName(api)] + cs, '/');
      && Route(path, unquote) == Returns(Routed(api, seq(|cs|, i requires 0 <= i < |cs| => unquote(cs[i]))))
      && Route("/public" + path, unquote) == Route(path, unquote)
  {
    var path := Text.Join(["", ApiName(api)] + cs, '/');
    PathOfApi(api, cs);
    ComponentsOfPath(ApiName(api), cs, unquote);
    RouteOfPrefixed(path, api, unquote);
    RouteOfPrefixed("/public" + path, api, unquote);
  }

  /** A path that starts with `/<api>`, after a possible `/public`, reaches that API. */
  lemma RouteOfPrefixed(urlpath: string, api: Api, unquote: string -> string)
    requires var path := StripPublic(urlpath);
      StartsWith(path, "/" + ApiName(api)) && path[1] == ApiName(api)[0]
    ensures Route(urlpath, unquote) == Returns(Routed(api, Components(StripPublic(urlpath), unquote)))
  {
  }

  /** Such a path starts with `/<api>`, and so not with another API's name nor with `/public`. */
  lemma PathOfApi(api: Api, cs: seq<string>)
    ensures var path := Text.Join(["", ApiName(api)] + cs, '/');
      && StartsWith(path, "/" + ApiName(api)) && path[1] == ApiName(api)[0] && !StartsWith(path, "/public")
      && StripPublic(path) == path && StripPublic("/public" + path) == path
  {
    var name := ApiName(api);
    var pieces := ["", name] + cs;
    assert pieces[1..] == [name] + cs;
    JoinStarts([name] + cs);
    var path := Text.Join(pieces, '/');
    assert path == "/" + Text.Join([name] + cs, '/');
    assert path[..|name| + 1] == "/" + name;
    assert ("/public" + path)[7..] == path;
  }

  /** The components of `/<name>/<c1>/.../<cn>` are the decoded `ci`. */
  lemma ComponentsOfPath(name: string, cs: seq<string>, unquote: string -> string)
    requires '/' !in name
    requires forall i :: 0 <= i < |cs| ==> '/' !in cs[i]
    ensures Components(Text.Join(["", name] + cs, '/'), unquote) == seq(|cs|, i requires 0 <= i < |cs| => unquote(cs[i]))
  {
    var pieces := ["", name] + cs;
    forall i | 0 <= i < |pieces| ensures '/' !in pieces[i] {
      if i >= 2 {
        assert pieces[i] == cs[i - 2];
      }
    }
    SplitJoin(pieces, '/');
    ComponentsOfPieces(pieces, cs, unquote);
  }

  /** The components of a path whose pieces are two leading ones and then `cs`. */
  lemma ComponentsOfPieces(pieces: seq<string>, cs: seq<string>, unquote: string -> string)
    requires |pieces| == |cs| + 2 && pieces[2..] == cs
    requires Split(Text.Join(pieces, '/'), '/') == pieces
    ensures Components(Text.Join(pieces, '/'), unquote) == seq(|cs|, i requires 0 <= i < |cs| => unquote(cs[i]))
  {
    forall i | 0 <= i < |cs| ensures pieces[i + 2] == cs[i] {
      assert pieces[2..][i] == cs[i];
    }
  }

  /** A join starts with its first piece. */
  lemma JoinStarts(pieces: seq<string>)
    requires |pieces| >= 1
    ensures |pieces[0]| <= |Text.Join(pieces, '/')| && Text.Join(pieces, '/')[..|pieces[0]|] == pieces[0]
  {
  }

  /** A path outside the four APIs is refused with RuntimeError. */
  lemma RouteRefuses(urlpath: string, unquote: string -> string)
    requires var path := StripPublic(urlpath);
      !StartsWith(path, "/source") && !StartsWith(path, "/build")
      && !StartsWith(path, "/lastevents") && !StartsWith(path, "/update")
    ensures Route(urlpath, unquote) == Raises(RuntimeError)
  {
  }

  // ---------------------------------------------------------------------------
  // Handler results
  // ---------------------------------------------------------------------------

  /** The content, size and type a handler has chosen before it decides on a 404. */
  datatype Produced = Produced(content: Option<Content>, size: Option<Size>, contentType: string)

  /** `string2stream(s)`: a stream of `s` and its length. */
  function StreamOf(s: string, contentType: string): Produced
  {
    Produced(Some(Stream(s)), Some(Length(|s|)), contentType)
  }

  /** The 404 the handlers send when nothing was found. */
  function FileNotFound(comps: seq<string>): ErrorSent
    requires |comps| >= 1
  {
    ErrorSent(404, "File not found " + JoinAll(comps))
  }

  /** What a handler leaves: the 404 when content or size is missing, then the rest. */
  function Conclude(p: Produced, comps: seq<string>, mtime: int): Handled
    requires |comps| >= 1
  {
    var errors := if p.content.None? || p.size.None? then [FileNotFound(comps)] else [];
    Handled(errors, p.content, p.size, p.contentType, mtime)
  }

  /** A handler never sends an error and then the 200 headers as well, and sends at most one
      error. */
  predicate Exclusive(h: Handled)
  {
    |h.errors| <= 1 && (h.errors != [] ==> ReplyHeaders(h).None?)
  }

  /** Whatever a served reply announces as Content-Length is the length of its content. */
  predicate HonestLength(h: Handled)
  {
    h.content.Some? && h.size.Some? && h.size.value.Length? ==> h.size.value.n == |h.content.value.data|
  }

  // ---------------------------------------------------------------------------
  // handle_source
  // ---------------------------------------------------------------------------

  /** How the package-file branch hands on the file, as written: the bare string
      `get_package_file` returned. */
  function PackageFileContentAsWritten(fc: FileContents): Content
  {
    Bare(fc.data)
  }

  /** The same branch with the string wrapped by `string2stream`, as every other branch of the
      handler does. */
  function PackageFileContent(fc: FileContents): Content
  {
    Stream(fc.data)
  }

  /** The 200 reply of the package-file branch, built with either wrapping. */
  function PackageFileHandled(c: Content, fc: FileContents, mtime: int): Handled
  {
    Handled([], Some(c), Some(Length(fc.size)), "application/octet-stream", mtime)
  }

  /** As written, a non-empty package file gets its 200 headers with a Content-Length, then
      writing the body raises: the bare string has no `read`. */
  lemma PackageFileAsWrittenAborts(fc: FileContents, mtime: int)
    requires fc.data != ""
    ensures ReplyHeaders(PackageFileHandled(PackageFileContentAsWritten(fc), fc, mtime)) ==
      Some(Headers("application/octet-stream", mtime, Some(Length(fc.size))))
    ensures WireBody(PackageFileHandled(PackageFileContentAsWritten(fc), fc, mtime)) == ("", true)
  {
  }

  /** With the stream, the announced bytes are exactly the file and the write completes. */
  lemma PackageFileDelivered(fc: FileContents, mtime: int)
    requires fc.size == |fc.data|
    ensures var h := PackageFileHandled(PackageFileContent(fc), fc, mtime);
      WireBody(h) == (fc.data, false) && |WireBody(h).0| == fc.size
  {
  }

  /** The branches of `handle_source` for a project that was found, by component count. */
  function SourceContent(project: Project, comps: seq<string>, q: Query, env: Env): Outcome<Produced>
    requires |comps| >= 1
  {
    if |comps| == 1 then Returns(StreamOf(env.xml.index(BuildProjectIndex(project.packages)), "text/xml"))
    else if |comps| == 2 then
      if comps[1] == "_config" then Returns(StreamOf(project.prjconf, "text/plain"))
      else if comps[1] == "_meta" then Returns(StreamOf(env.xml.render(project.meta), "text/xml"))
      else if IntParam(q, "expand", 0).None? then Raises(ValueError)
      else
        match GetPackageIndex(project.packages, comps[1], First(q, "rev"), env.backend.cache, env.backend.store)
        case Raises(e) => Raises(e)
        case Returns(None) => Raises(TypeError)
        case Returns(Some(d)) => Returns(StreamOf(env.xml.directory(d), "text/xml"))
    else if |comps| == 3 then
      if IntParam(q, "expand", 0).None? then Raises(ValueError)
      else
        match GetPackageFile(project, comps[1], comps[2], First(q, "rev"), env.backend.cache, env.backend.store)
        case Raises(e) => Raises(e)
        case Returns(None) => Raises(TypeError)
        case Returns(Some(fc)) =>
          Returns(Produced(Some(PackageFileContent(fc)), Some(Length(fc.size)), "application/octet-stream"))
    else Returns(Produced(None, None, "text/xml"))
  }

  /** `handle_source(sourcesplit, query)`. */
  function HandleSource(comps: seq<string>, q: Query, env: Env): Outcome<Handled>
  {
    if |comps| == 0 then Raises(IndexError)
    else
      match GetProject(comps[0], env.backend.mappings, env.backend.store, env.backend.parse)
      case Raises(e) => Raises(e)
      case Returns(None) => Returns(Handled([ErrorSent(404, "Project not found")], None, None, "text/xml", env.started))
      case Returns(Some(project)) =>
        match SourceContent(project, comps, q, env)
        case Raises(e) => Raises(e)
        case Returns(p) => Returns(Conclude(p, comps, env.started))
  }

  /** Every source reply sends at most one error and then no 200, and announces the length of
      what it serves, except for a package file that is a subdirectory of the package: its
      announced size is the tree object's and the body is empty. */
  lemma SourceExclusive(comps: seq<string>, q: Query, env: Env)
    ensures var r := HandleSource(comps, q, env);
      r.Returns? ==> Exclusive(r.value) && (HonestLength(r.value) || (|comps| == 3 && r.value.content == Some(Stream(""))))
  {
    if |comps| >= 1 {
      var found := GetProject(comps[0], env.backend.mappings, env.backend.store, env.backend.parse);
      if found.Returns? && found.value.Some? {
        var project := found.value.value;
        HandleSourceFound(comps, q, env, project);
        if |comps| == 3 {
          SourceFileShape(project, comps, q, env);
        } else {
          SourceShortShape(project, comps, q, env);
        }
        ConcludeExclusive(comps);
      }
    }
  }

  /** For up to two components the content is a stream with its length; for three, the
      package file as a stream with the size `get_package_file` gives; beyond, nothing. */
  lemma SourceContentShape(project: Project, comps: seq<string>, q: Query, env: Env)
    requires |comps| >= 1
    ensures var r := SourceContent(project, comps, q, env);
      && (r.Returns? && |comps| <= 2 ==>
            r.value.content.Some? && r.value.content.value.Stream?
            && r.value.size == Some(Length(|r.value.content.value.data|)))
      && (r.Returns? && |comps| == 3 ==>
            var f := GetPackageFile(project, comps[1], comps[2], First(q, "rev"), env.backend.cache, env.backend.store);
            f.Returns? && f.value.Some?
            && r.value.content == Some(Stream(f.value.value.data)) && r.value.size == Some(Length(f.value.value.size)))
      && (|comps| >= 4 ==> r == Returns(Produced(None, None, "text/xml")))
  {
    if |comps| == 3 {
      SourceFileShape(project, comps, q, env);
    } else {
      SourceShortShape(project, comps, q, env);
    }
  }

  /** The branches other than the package file. */
  lemma SourceShortShape(project: Project, comps: seq<string>, q: Query, env: Env)
    requires |comps| >= 1 && |comps| != 3
    ensures var r := SourceContent(project, comps, q, env);
      && (r.Returns? && |comps| <= 2 ==> r.value == StreamOf(r.value.content.value.data, r.value.contentType))
      && (|comps| >= 4 ==> r == Returns(Produced(None, None, "text/xml")))
  {
  }

  /** The package-file branch: the file as a stream under the size `get_package_file`
      reports, which is the data's length unless the data is empty. */
  lemma SourceFileShape(project: Project, comps: seq<string>, q: Query, env: Env)
    requires |comps| == 3
    ensures var r := SourceContent(project, comps, q, env);
      r.Returns? ==>
        && r.value.contentType == "application/octet-stream"
        && var f := GetPackageFile(project, comps[1], comps[2], First(q, "rev"), env.backend.cache, env.backend.store);
        && f.Returns? && f.value.Some?
        && r.value.content == Some(Stream(f.value.value.data)) && r.value.size == Some(Length(f.value.value.size))
        && (f.value.value.size == |f.value.value.data| || f.value.value.data == "")
  {
  }

  /** An unknown project is the 404 "Project not found"; a known one with more than three
      components is the 404 "File not found" and nothing else. */
  lemma SourceNotFound(comps: seq<string>, q: Query, env: Env, found: Option<Project>)
    requires |comps| >= 1
    requires GetProject(comps[0], env.backend.mappings, env.backend.store, env.backend.parse) == Returns(found)
    ensures found.None? ==>
      HandleSource(comps, q, env) == Returns(Handled([ErrorSent(404, "Project not found")], None, None, "text/xml", env.started))
    ensures found.Some? && |comps| >= 4 ==>
      HandleSource(comps, q, env) == Returns(Handled([FileNotFound(comps)], None, None, "text/xml", env.started))
  {
    if found.Some? && |comps| >= 4 {
      HandleSourceFound(comps, q, env, found.value);
      SourceShortShape(found.value, comps, q, env);
    }
  }

  /** A known project with one to three components is served with a 200 and no error: the
      project index, the project config as text/plain, the project meta, a package index, or a
      package file as application/octet-stream. */
  lemma SourceServed(comps: seq<string>, q: Query, env: Env, project: Project)
    requires 1 <= |comps| <= 3
    requires GetProject(comps[0], env.backend.mappings, env.backend.store, env.backend.parse) == Returns(Some(project))
    ensures var r := HandleSource(comps, q, env);
      && (r.Returns? ==>
            r.value.errors == [] && r.value.content.Some? && r.value.content.value.Stream? && r.value.mtime == env.started)
      && (r.Returns? && |comps| <= 2 ==> r.value.size == Some(Length(|r.value.content.value.data|)))
      && (r.Returns? && |comps| == 3 ==>
            var f := GetPackageFile(project, comps[1], comps[2], First(q, "rev"), env.backend.cache, env.backend.store);
            f.Returns? && f.value.Some?
            && r.value.content == Some(Stream(f.value.value.data)) && r.value.size == Some(Length(f.value.value.size)))
      && (|comps| == 1 ==>
            r.Returns? && r.value.contentType == "text/xml"
            && r.value.content == Some(Stream(env.xml.index(BuildProjectIndex(project.packages)))))
      && (|comps| == 2 && comps[1] == "_config" ==>
            r.Returns? && r.value.contentType == "text/plain" && r.value.content == Some(Stream(project.prjconf)))
      && (|comps| == 2 && comps[1] == "_meta" ==>
            r.Returns? && r.value.contentType == "text/xml" && r.value.content == Some(Stream(env.xml.render(project.meta))))
      && (|comps| == 3 && r.Returns? ==> r.value.contentType == "application/octet-stream")
  {
    HandleSourceFound(comps, q, env, project);
    SourceContentServed(project, comps, q, env);
  }

  /** A found project's reply is the handler's content, concluded. */
  lemma HandleSourceFound(comps: seq<string>, q: Query, env: Env, project: Project)
    requires |comps| >= 1
    requires GetProject(comps[0], env.backend.mappings, env.backend.store, env.backend.parse) == Returns(Some(project))
    ensures HandleSource(comps, q, env) ==
      match SourceContent(project, comps, q, env)
      case Raises(e) => Raises(e)
      case Returns(p) => Returns(Conclude(p, comps, env.started))
  {
  }

  /** The content of each of the served branches. */
  lemma SourceContentServed(project: Project, comps: seq<string>, q: Query, env: Env)
    requires 1 <= |comps| <= 3
    ensures var r := SourceContent(project, comps, q, env);
      && (r.Returns? ==> r.value.content.Some? && r.value.content.value.Stream?)
      && (r.Returns? && |comps| <= 2 ==> r.value.size == Some(Length(|r.value.content.value.data|)))
      && (r.Returns? && |comps| == 3 ==>
            var f := GetPackageFile(project, comps[1], comps[2], First(q, "rev"), env.backend.cache, env.backend.store);
            f.Returns? && f.value.Some?
            && r.value.content == Some(Stream(f.value.value.data)) && r.value.size == Some(Length(f.value.value.size)))
      && (|comps| == 1 ==> r == Returns(StreamOf(env.xml.index(BuildProjectIndex(project.packages)), "text/xml")))
      && (|comps| == 2 && comps[1] == "_config" ==> r == Returns(StreamOf(project.prjconf, "text/plain")))
      && (|comps| == 2 && comps[1] == "_meta" ==> r == Returns(StreamOf(env.xml.render(project.meta), "text/xml")))
      && (|comps| == 3 && r.Returns? ==> r.value.contentType == "application/octet-stream")
  {
    if |comps| == 3 {
      SourceFileShape(project, comps, q, env);
    } else {
      SourceShortShape(project, comps, q, env);
    }
  }

  /** A package index or package file that does not resolve is a 500: the handler passes
      `None` on and the stream refuses it. */
  lemma SourceUnresolvedIsError(comps: seq<string>, q: Query, env: Env, project: Project)
    requires 2 <= |comps| <= 3 && IntParam(q, "expand", 0).Some?
    requires |comps| == 2 ==> comps[1] != "_config" && comps[1] != "_meta"
    requires GetProject(comps[0], env.backend.mappings, env.backend.store, env.backend.parse) == Returns(Some(project))
    requires |comps| == 2 ==>
      GetPackageIndex(project.packages, comps[1], First(q, "rev"), env.backend.cache, env.backend.store) == Returns(None)
    requires |comps| == 3 ==>
      GetPackageFile(project, comps[1], comps[2], First(q, "rev"), env.backend.cache, env.backend.store) == Returns(None)
    ensures HandleSource(comps, q, env) == Raises(TypeError)
  {
  }

  // ---------------------------------------------------------------------------
  // handle_build
  // ---------------------------------------------------------------------------

  /** The names and binaryversions views: when `probe` is a file, parse `path`, drop the
      unwanted binaries and serialise; otherwise the empty listing. */
  function ListingView(probe: string, path: string, key: string, empty: string, binary: seq<string>, env: Env): Outcome<Produced>
  {
    if !IsFile(env.fs, probe) then Returns(StreamOf(empty, "text/html"))
    else
      match File2Stream(env.fs, path)
      case Raises(e) => Raises(e)
      case Returns(o) =>
        match env.xml.parse(o.data)
        case None => Raises(XmlSyntaxError)
        case Some(doc) =>
          match FilterSpec(doc, key, Some(binary))
          case Raises(e) => Raises(e)
          case Returns(d) => Returns(StreamOf(env.xml.render(d), "text/html"))
  }

  /** The views of `handle_build` once the repository exists, with the mtime `reply` gets. */
  function BuildContent(view: string, target: string, binary: seq<string>, q: Query, env: Env): Outcome<(Produced, int)>
  {
    if view == "cache" || view == "solvstate" then
      var path := target + "/_repository?view=" + view;
      match File2Stream(env.fs, if IsFile(env.fs, path) then path else EmptyCache)
      case Raises(e) => Raises(e)
      case Returns(o) => Returns((Produced(Some(Stream(o.data)), Some(Length(o.size)), "application/octet-stream"), o.mtime))
    else if view == "cpio" then
      match Get(q, "binary")
      case None => Raises(KeyError)
      case Some(bs) => Returns((Produced(Some(Stream(env.cpio(target, CpioListSpec(bs)))), Some(ChunkedSize), "application/x-cpio"), env.started))
    else if view == "names" then
      var path := target + "/_repository?view=names";
      match ListingView(path, path, "filename", "<binarylist />", binary, env)
      case Raises(e) => Raises(e)
      case Returns(p) => Returns((p, env.started))
    else if view == "binaryversions" then
      match ListingView(target + "/_repository?view=cache", target + "/_repository?view=binaryversions",
                        "name", "<binaryversionlist />", binary, env)
      case Raises(e) => Raises(e)
      case Returns(p) => Returns((p, env.started))
    else Returns((Produced(None, None, "text/html"), env.started))
  }

  /** The requested binaries; none requested is the empty list. */
  function Binary(q: Query): seq<string>
  {
    match Get(q, "binary")
    case None => []
    case Some(b) => b
  }

  /** The requested view; "names" when none is. */
  function View(q: Query): string
  {
    match First(q, "view")
    case None => "names"
    case Some(v) => v
  }

  /** `os.path.join(prj_path, pathparts[1], pathparts[2])`. */
  function Target(prj: string, comps: seq<string>): string
    requires |comps| >= 3
  {
    PosixPath.Join(PosixPath.Join(prj, comps[1]), comps[2])
  }

  /** `handle_build(pathparts, query)`: fewer than three components send nothing at all. */
  function HandleBuild(comps: seq<string>, q: Query, env: Env): Outcome<Handled>
  {
    if |comps| < 3 then Returns(Handled([], None, None, "text/html", env.started))
    else
      var prj := env.backend.binariesPath(comps[0]);
      if prj.None? || prj.value == "" then
        Returns(Handled([ErrorSent(404, "Project not found")], None, None, "text/html", env.started))
      else
        var target := Target(prj.value, comps);
        if !Exists(env.fs, target) then
          Returns(Handled([ErrorSent(404, "Repository not found")], None, None, "text/html", env.started))
        else
          match BuildContent(View(q), target, Binary(q), q, env)
          case Raises(e) => Raises(e)
          case Returns((p, mtime)) => Returns(Conclude(p, comps, mtime))
  }

  /** `handle_build` as written. `tools/gitmds2.py` defines no `lookup_binariespath`, so a
      request with three or more components raises AttributeError before any view is chosen.
      `HandleBuild` is the handler over a back end that has it (`Backend.binariesPath`). */
  function HandleBuildAsWritten(comps: seq<string>, q: Query, env: Env): Outcome<Handled>
  {
    if |comps| < 3 then Returns(Handled([], None, None, "text/html", env.started))
    else Raises(AttributeError)
  }

  /** As written, every build request naming a repository is a bare 500, even for an unknown
      project, which the handler over the intended back end answers with its 404. Shorter
      paths behave the same in both. */
  lemma BuildAsWrittenFails(comps: seq<string>, q: Query, env: Env)
    ensures |comps| >= 3 ==> DeliverSpec(HandleBuildAsWritten(comps, q, env)) == InternalError
    ensures |comps| >= 3 && env.backend.binariesPath(comps[0]).None? ==>
      DeliverSpec(HandleBuild(comps, q, env)) ==
        Delivered([ErrorSent(404, "Project not found")], None, "", false)
    ensures |comps| < 3 ==> HandleBuildAsWritten(comps, q, env) == HandleBuild(comps, q, env)
  {
  }

  /** Every build reply is exclusive, and an unknown view on an existing repository is the
      404 "File not found". */
  lemma BuildExclusive(comps: seq<string>, q: Query, env: Env)
    ensures HandleBuild(comps, q, env).Returns? ==> Exclusive(HandleBuild(comps, q, env).value)
    ensures HandleBuild(comps, q, env).Returns? ==> HonestLength(HandleBuild(comps, q, env).value)
    ensures (&& |comps| >= 3 && env.backend.binariesPath(comps[0]).Some? && env.backend.binariesPath(comps[0]).value != ""
             && Exists(env.fs, Target(env.backend.binariesPath(comps[0]).value, comps))
             && View(q) !in {"cache", "solvstate", "cpio", "names", "binaryversions"}) ==>
      HandleBuild(comps, q, env) == Returns(Handled([FileNotFound(comps)], None, None, "text/html", env.started))
  {
    if |comps| >= 3 {
      var prj := env.backend.binariesPath(comps[0]);
      if prj.Some? && prj.value != "" {
        BuildContentShape(View(q), Target(prj.value, comps), Binary(q), q, env);
        ConcludeExclusive(comps);
      }
    }
  }

  /** Every view announces the length of a stream it serves; an unknown view serves nothing. */
  lemma BuildContentShape(view: string, target: string, binary: seq<string>, q: Query, env: Env)
    ensures var r := BuildContent(view, target, binary, q, env);
      && (r.Returns? ==> var p := r.value.0;
            && Paired(p)
            && (p.content.Some? && p.size.Some? && p.size.value.Length? ==> p.size.value.n == |p.content.value.data|))
      && (view !in {"cache", "solvstate", "cpio", "names", "binaryversions"} ==>
            r == Returns((Produced(None, None, "text/html"), env.started)))
  {
  }

  /** A production that sets its content exactly when it sets its size. */
  predicate Paired(p: Produced)
  {
    p.content.Some? <==> p.size.Some?
  }

  /** A concluded reply is exclusive whenever content and size were produced together. */
  lemma ConcludeExclusive(comps: seq<string>)
    requires |comps| >= 1
    ensures forall p, mtime :: Paired(p) ==> Exclusive(Conclude(p, comps, mtime))
  {
  }

  /** A request without a view is served exactly as one asking for `view=names`. */
  lemma ViewDefaultsToNames(comps: seq<string>, q: Query, env: Env)
    requires "view" !in q
    ensures HandleBuild(comps, q, env) == HandleBuild(comps, q["view" := ["names"]], env)
  {
    var q' := q["view" := ["names"]];
    assert View(q') == "names";
    assert Get(q', "binary") == Get(q, "binary");
    assert Binary(q') == Binary(q);
  }

  /** The names view serves the listing file with every binary kept that was requested, under
      its file name without extension, and no other; with no binary requested it lists none. */
  lemma NamesViewFilters(target: string, q: Query, env: Env)
    requires IsFile(env.fs, target + "/_repository?view=names")
    requires env.xml.parse(env.fs.files[target + "/_repository?view=names"].data).Some?
    requires BuildContent("names", target, Binary(q), q, env).Returns?
    ensures var doc := env.xml.parse(env.fs.files[target + "/_repository?view=names"].data).value;
      && FilterSpec(doc, "filename", Some(Binary(q))).Returns?
      && var d := FilterSpec(doc, "filename", Some(Binary(q))).value;
      && BuildContent("names", target, Binary(q), q, env).value.0.content == Some(Stream(env.xml.render(d)))
      && (forall c :: c in d.children && IsBinary(c) ==> "filename" in c.attrs && SplitExtRoot(c.attrs["filename"]) in Binary(q))
      && (forall c :: c in doc.children && !Unwanted(c, "filename", Binary(q)) ==> c in d.children)
      && (Get(q, "binary").None? ==> forall c :: c in d.children ==> !IsBinary(c))
  {
    var doc := env.xml.parse(env.fs.files[target + "/_repository?view=names"].data).value;
    FilterKeepsRequested(doc, "filename", Binary(q));
  }

  /** The cpio view streams what cpio writes for the requested binaries' `.rpm` base names,
      one per line in request order, with chunked transfer coding; without `binary` it raises
      KeyError. */
  lemma CpioView(target: string, q: Query, env: Env)
    ensures Get(q, "binary").None? ==> BuildContent("cpio", target, Binary(q), q, env) == Raises(KeyError)
    ensures Get(q, "binary").Some? ==>
      var bs := Get(q, "binary").value;
      && BuildContent("cpio", target, Binary(q), q, env) ==
           Returns((Produced(Some(Stream(env.cpio(target, CpioListSpec(bs)))), Some(ChunkedSize), "application/x-cpio"), env.started))
      && ((forall i :: 0 <= i < |bs| ==> '\n' !in bs[i]) ==> Split(CpioListSpec(bs), '\n') == RpmNames(bs) + [""])
  {
    if Get(q, "binary").Some? {
      var bs := Get(q, "binary").value;
      if forall i :: 0 <= i < |bs| ==> '\n' !in bs[i] {
        CpioListLines(bs);
      }
    }
  }

  /** The binaryversions view tests the `view=cache` file but reads `view=binaryversions`:
      with the first present and the second missing it raises IOError. */
  lemma BinaryVersionsProbesCache(target: string, q: Query, env: Env)
    requires IsFile(env.fs, target + "/_repository?view=cache")
    requires !IsFile(env.fs, target + "/_repository?view=binaryversions")
    ensures BuildContent("binaryversions", target, Binary(q), q, env) == Raises(IOError)
  {
  }

  // ---------------------------------------------------------------------------
  // handle_lastevents
  // ---------------------------------------------------------------------------

  /** `start` as the handler reads it: absent, or `int(start[0])`, which may fail. */
  function Start(q: Query): Option<Option<int>>
  {
    match First(q, "start")
    case None => Some(None)
    case Some(x) => match ParseInt(x) case None => None case Some(s) => Some(Some(s))
  }

  /** The caught-up wait can end (see `Mds2Settles`). */
  predicate WaitEnds(q: Query, ev: EventSource, deadline: nat)
  {
    Start(q) == Some(Some(ev.next(0))) ==> Mds2Settles(ev.next(0), ev.next, ev.shutdown, deadline)
  }

  function Events(s: int, filters: seq<Filter>, ev: EventSource, mtime: int): Handled
  {
    Handled([], Some(Stream(ev.filtered(s, filters))), Some(Length(|ev.filtered(s, filters)|)), "text/html", mtime)
  }

  /** What `handle_lastevents` leaves for `reply`. */
  function LastEventsSpec(q: Query, ev: EventSource, unquote: string -> string, mtime: int, deadline: nat): Outcome<Handled>
    requires WaitEnds(q, ev, deadline)
  {
    match Start(q)
    case None => Raises(ValueError)
    case Some(start) =>
      var n0 := ev.next(0);
      if start.None? || start.value > n0 then
        Returns(Handled([], Some(Stream(SyncLost(n0))), Some(Length(|SyncLost(n0)|)), "text/html", mtime))
      else if start.value == n0 then
        var s := start.value;
        match ParseFiltersSpec(match Get(q, "filter") case None => [] case Some(fs) => fs, unquote)
        case Raises(e) => Raises(e)
        case Returns(filters) =>
          var p := Mds2Stop(s, ev.next, ev.shutdown, 1, deadline);
          if ev.shutdown(p) then Returns(Handled([ErrorSent(503, "Shutting down")], None, None, "text/html", mtime))
          else if s < ev.next(p) then Returns(Events(s, filters, ev, mtime))
          else Returns(Handled([], None, None, "text/html", mtime))
      else Returns(Events(start.value, [], ev, mtime))
  }

  /** `handle_lastevents(urlsplit, query)`. */
  method HandleLastEvents(q: Query, ev: EventSource, unquote: string -> string, mtime: int, ghost deadline: nat)
      returns (r: Outcome<Handled>)
    requires WaitEnds(q, ev, deadline)
    ensures r == LastEventsSpec(q, ev, unquote, mtime, deadline)
  {
    var errors: seq<ErrorSent> := [];
    var content: Option<Content> := None;
    var size: Option<Size> := None;
    var start: Option<int> := None;
    var first := First(q, "start");
    if first.Some? {
      var s := ParseInt(first.value);
      if s.None? {
        return Raises(ValueError);
      }
      start := s;
    }
    assert Start(q) == Some(start);
    var qfilters := match Get(q, "filter") case None => [] case Some(fs) => fs;
    var filters: seq<Filter> := [];
    var polls: nat := 0;
    if start.None? || start.value > ev.next(0) {
      var output := SyncLost(ev.next(0));
      content, size := Some(Stream(output)), Some(Length(|output|));
    } else if start.value == ev.next(0) {
      var parsed := ParseFilters(qfilters, unquote);
      if parsed.Raises? {
        return Raises(parsed.exc);
      }
      filters := parsed.value;
      var sent503;
      polls, start, sent503 := Mds2Wait(start.value, ev.next, ev.shutdown, deadline);
      if sent503 {
        errors := errors + [ErrorSent(503, "Shutting down")];
      }
      assert errors == if ev.shutdown(polls) then [ErrorSent(503, "Shutting down")] else [];
    }
    if start.Some? && start.value < ev.next(polls) {
      var output := ev.filtered(start.value, filters);
      content, size := Some(Stream(output)), Some(Length(|output|));
    }
    r := Returns(Handled(errors, content, size, "text/html", mtime));
  }

  /** Every lastevents reply sends at most one error and then no 200, with an honest length. */
  lemma LastEventsExclusive(q: Query, ev: EventSource, unquote: string -> string, mtime: int, deadline: nat)
    requires WaitEnds(q, ev, deadline)
    ensures var r := LastEventsSpec(q, ev, unquote, mtime, deadline);
      r.Returns? ==> Exclusive(r.value) && HonestLength(r.value)
  {
  }

  /** A `start` that does not read as a number is a ValueError; an absent one, or one ahead
      of the counter, loses sync: the reply names the current counter and holds no events. A
      caller behind the counter gets all events since its `start`, ignoring its filters. */
  lemma LastEventsImmediate(q: Query, ev: EventSource, unquote: string -> string, mtime: int, deadline: nat)
    requires WaitEnds(q, ev, deadline)
    ensures Start(q).None? ==> LastEventsSpec(q, ev, unquote, mtime, deadline) == Raises(ValueError)
    ensures (Start(q) == Some(None) || (Start(q).Some? && Start(q).value.Some? && Start(q).value.value > ev.next(0))) ==>
      LastEventsSpec(q, ev, unquote, mtime, deadline) ==
        Returns(Handled([], Some(Stream(SyncLost(ev.next(0)))), Some(Length(|SyncLost(ev.next(0))|)), "text/html", mtime))
    ensures Start(q).Some? && Start(q).value.Some? && Start(q).value.value < ev.next(0) ==>
      LastEventsSpec(q, ev, unquote, mtime, deadline) == Returns(Events(Start(q).value.value, [], ev, mtime))
  {
  }

  /** `handle_lastevents` as written. `tools/gitmds2.py` defines no `get_next_event` (nor
      `get_events_filtered`), so once `start` has been read the first test of the counter
      raises AttributeError: in the `start > ...` comparison, or, for an absent `start`, in
      building the sync-lost reply. `HandleLastEvents` is the handler over an event source that
      has them (`EventSource`). */
  function LastEventsAsWritten(q: Query): Outcome<Handled>
  {
    if Start(q).None? then Raises(ValueError) else Raises(AttributeError)
  }

  /** As written, every lastevents request is a bare 500. Over the intended event source, a
      request without `start` gets the sync-lost reply instead; a `start` that is not a number
      is a ValueError in both. */
  lemma LastEventsAsWrittenFails(q: Query, ev: EventSource, unquote: string -> string, mtime: int, deadline: nat)
    requires WaitEnds(q, ev, deadline)
    ensures DeliverSpec(LastEventsAsWritten(q)) == InternalError
    ensures Start(q).Some? ==> LastEventsAsWritten(q) == Raises(AttributeError)
    ensures Start(q) == Some(None) ==>
      DeliverSpec(LastEventsSpec(q, ev, unquote, mtime, deadline)) ==
        Delivered([], Some(Headers("text/html", mtime, Some(Length(|SyncLost(ev.next(0))|)))), SyncLost(ev.next(0)), false)
    ensures Start(q).None? ==> LastEventsAsWritten(q) == LastEventsSpec(q, ev, unquote, mtime, deadline)
  {
  }

  /** Poll `p` is the first at which the server is shutting down, the counter unchanged
      until then. */
  predicate ShutsDownFirst(s: int, ev: EventSource, p: nat)
  {
    p >= 1 && ev.shutdown(p) && forall j :: 1 <= j < p ==> !ev.shutdown(j) && ev.next(j) == s
  }

  /** Poll `p` is the first at which the counter has moved above `s`, with no shutdown and no
      other change up to it. */
  predicate RisesFirst(s: int, ev: EventSource, p: nat)
  {
    p >= 1 && !ev.shutdown(p) && s < ev.next(p) && forall j :: 1 <= j < p ==> !ev.shutdown(j) && ev.next(j) == s
  }

  /** A caught-up caller with well-formed filters waits: it gets the 503 exactly when the
      server shuts down before the counter moves, its filtered events exactly when the counter
      first moves up, and an empty reply when it first moves down. */
  lemma LastEventsCaughtUp(q: Query, ev: EventSource, unquote: string -> string, mtime: int, deadline: nat,
                           filters: seq<Filter>)
    requires WaitEnds(q, ev, deadline)
    requires Start(q) == Some(Some(ev.next(0)))
    requires ParseFiltersSpec(match Get(q, "filter") case None => [] case Some(fs) => fs, unquote) == Returns(filters)
    ensures var r := LastEventsSpec(q, ev, unquote, mtime, deadline);
      var s := ev.next(0);
      && r.Returns?
      && ((exists p: nat :: p <= deadline && ShutsDownFirst(s, ev, p)) <==>
            r.value == Handled([ErrorSent(503, "Shutting down")], None, None, "text/html", mtime))
      && ((exists p: nat :: p <= deadline && RisesFirst(s, ev, p)) <==> r.value == Events(s, filters, ev, mtime))
      && (r.value.errors == [] && r.value.content.None? <==>
            !(exists p: nat :: p <= deadline && ShutsDownFirst(s, ev, p)) && !(exists p: nat :: p <= deadline && RisesFirst(s, ev, p)))
  {
    var s := ev.next(0);
    Mds2StopIsFirst(s, ev.next, ev.shutdown, 1, deadline);
    var stop := Mds2Stop(s, ev.next, ev.shutdown, 1, deadline);
    forall p: nat | p <= deadline && (ShutsDownFirst(s, ev, p) || RisesFirst(s, ev, p)) ensures p == stop {
    }
    if ev.shutdown(stop) {
      assert ShutsDownFirst(s, ev, stop);
    } else if s < ev.next(stop) {
      assert RisesFirst(s, ev, stop);
    }
  }

  // ---------------------------------------------------------------------------
  // One request
  // ---------------------------------------------------------------------------

  /** The long poll can end when the request is a lastevents one. */
  predicate Settles(urlpath: string, q: Query, env: Env, deadline: nat)
  {
    Route(urlpath, env.unquote).Returns? && Route(urlpath, env.unquote).value.api == LastEventsApi ==>
      WaitEnds(q, env.events, deadline)
  }

  /** `send_head`: route, then the handler. */
  function SendHeadSpec(urlpath: string, q: Query, env: Env, deadline: nat): Outcome<Handled>
    requires Settles(urlpath, q, env, deadline)
  {
    match Route(urlpath, env.unquote)
    case Raises(e) => Raises(e)
    case Returns(Routed(api, comps)) =>
      match api
      case SourceApi => HandleSource(comps, q, env)
      case BuildApi => HandleBuild(comps, q, env)
      case LastEventsApi => LastEventsSpec(q, env.events, env.unquote, env.started, deadline)
      case UpdateApi => env.update(comps, q)
  }

  /** `do_GET` for a request with that path and query. */
  method Serve(urlpath: string, q: Query, env: Env, ghost deadline: nat) returns (d: Delivery)
    requires Settles(urlpath, q, env, deadline)
    ensures d == DeliverSpec(SendHeadSpec(urlpath, q, env, deadline))
  {
    var routed := Route(urlpath, env.unquote);
    var h: Outcome<Handled>;
    if routed.Raises? {
      h := Raises(routed.exc);
    } else {
      var comps := routed.value.comps;
      match routed.value.api {
        case SourceApi => h := HandleSource(comps, q, env);
        case BuildApi => h := HandleBuild(comps, q, env);
        case LastEventsApi => h := HandleLastEvents(q, env.events, env.unquote, env.started, deadline);
        case UpdateApi => h := env.update(comps, q);
      }
    }
    d := Deliver(h);
  }

  /** An unsupported path is a bare 500. */
  lemma ServeUnsupported(urlpath: string, q: Query, env: Env, deadline: nat)
    requires Route(urlpath, env.unquote).Raises?
    ensures DeliverSpec(SendHeadSpec(urlpath, q, env, deadline)) == InternalError
  {
  }
}
