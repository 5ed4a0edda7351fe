/** `fakeobs.py`, the legacy front end: `send_head` with its mapping lookups, the source and
    build path normalisation, the lastevents wait without shutdown escape, the listing views and
    the 404 decision. The `gitmer` back end it calls is not part of this model: each of its
    functions is a parameter. */
module FakeObs {
  import opened Wrappers
  import opened Text
  import opened Manifest
  import opened Resolver
  import opened PosixPath
  import opened Binaries
  import opened LastEvents
  import opened Http

  /** The `gitmer` functions the handler calls, with the event counter after p sleeps. */
  datatype Gitmer = Gitmer(
    nextEvent: nat -> int,
    eventsFiltered: (int, seq<Filter>) -> string,
    projectIndex: string -> string,
    adjustMeta: (string, string) -> string,
    packageIndex: (string, string, Option<string>, int) -> Option<string>,
    packageFile: (string, string, string, string, Option<string>) -> Option<(int, string)>)

  /** Everything a request sees besides itself: the mappings of `mappings.xml`, `gitmer`, the
      file system, percent-decoding, minidom's parser and `toxml`, what `tools/createcpio`
      writes for a directory and a file list, and the clock. */
  datatype FakeEnv = FakeEnv(mappings: seq<Mapping>, gitmer: Gitmer, fs: FileSystem, unquote: string -> string,
                             parse: string -> Option<Element>, toxml: Element -> string,
                             createcpio: (string, string) -> string, now: int)

  /** What `send_head` has chosen to serve: the stream, `contentsize`, `contentmtime` and
      `contenttype`. */
  datatype Served = Served(data: string, size: int, mtime: int, contentType: string)

  /** `string2stream(s)` stamped with the current time. */
  function Str(s: string, contentType: string, now: int): Served
  {
    Served(s, |s|, now, contentType)
  }

  // ---------------------------------------------------------------------------
  // lookup_path, lookup_binariespath
  // ---------------------------------------------------------------------------

  const UnknownProject: string := "--UNKNOWNPROJECT"

  /** `lookup_path(projectname)`. */
  function LookupPath(ms: seq<Mapping>, prj: string): Option<string>
  {
    match FindMapping(ms, prj)
    case None => None
    case Some(i) => Some(ms[i].path)
  }

  /** `lookup_binariespath(projectname)`: the matching mapping must have `binaries`. */
  function LookupBinariesPath(ms: seq<Mapping>, prj: string): Outcome<Option<string>>
  {
    match FindMapping(ms, prj)
    case None => Returns(None)
    case Some(i) => if ms[i].binaries.None? then Raises(KeyError) else Returns(Some(ms[i].binaries.value))
  }

  /** `if pathparts[2] is None: pathparts[2] = "--UNKNOWNPROJECT"`. */
  function Resolve(found: Option<string>): string
  {
    match found
    case None => UnknownProject
    case Some(p) => p
  }

  /** A project resolves to the path of the first mapping for it, and to the placeholder when
      there is none; its binaries path likewise, raising KeyError when that mapping has none. */
  lemma LookupFirstMapping(ms: seq<Mapping>, prj: string)
    ensures (forall m :: m in ms ==> m.project != prj) ==>
      Resolve(LookupPath(ms, prj)) == UnknownProject && LookupBinariesPath(ms, prj) == Returns(None)
    ensures forall i :: 0 <= i < |ms| && ms[i].project == prj && (forall j :: 0 <= j < i ==> ms[j].project != prj) ==>
      && LookupPath(ms, prj) == Some(ms[i].path)
      && LookupBinariesPath(ms, prj) == (if ms[i].binaries.None? then Raises(KeyError) else Returns(ms[i].binaries))
  {
    forall i | 0 <= i < |ms| && ms[i].project == prj && (forall j :: 0 <= j < i ==> ms[j].project != prj)
      ensures LookupPath(ms, prj) == Some(ms[i].path)
      ensures LookupBinariesPath(ms, prj) == (if ms[i].binaries.None? then Raises(KeyError) else Returns(ms[i].binaries))
    {
      FirstMappingFound(ms, prj, i);
    }
  }

  /** `FindMapping` finds the first mapping for the project. */
  lemma FirstMappingFound(ms: seq<Mapping>, prj: string, i: nat)
    requires i < |ms| && ms[i].project == prj && forall j :: 0 <= j < i ==> ms[j].project != prj
    ensures FindMapping(ms, prj) == Some(i)
  {
  }

  // ---------------------------------------------------------------------------
  // /public/source/: path normalisation
  // ---------------------------------------------------------------------------

  /** `path.split("/")[1:]`. */
  function RawParts(path: string): seq<string>
  {
    Split(path, '/')[1..]
  }

  /** The parts after the unquote loop and the rewrite of index 2, and `realproject`. */
  function SourcePartsSpec(path: string, unquote: string -> string, ms: seq<Mapping>): (r: (seq<string>, Option<string>))
    ensures |r.0| == |RawParts(path)| && (r.1.Some? <==> |r.0| >= 3)
  {
    var raw := RawParts(path);
    var decoded := seq(|raw|, i requires 0 <= i < |raw| => unquote(raw[i]));
    if |decoded| >= 3 then (decoded[2 := Resolve(LookupPath(ms, decoded[2]))], Some(decoded[2]))
    else (decoded, None)
  }

  /** The unquote loop over `pathparts`, then the lookup written over index 2. */
  method SourceParts(path: string, unquote: string -> string, ms: seq<Mapping>)
      returns (parts: seq<string>, realproject: Option<string>)
    ensures (parts, realproject) == SourcePartsSpec(path, unquote, ms)
  {
    ghost var raw := RawParts(path);
    parts := Split(path, '/')[1..];
    var x := 0;
    while x < |parts|
      invariant 0 <= x <= |parts| == |raw|
      invariant forall k :: 0 <= k < x ==> parts[k] == unquote(raw[k])
      invariant forall k :: x <= k < |parts| ==> parts[k] == raw[k]
    {
      parts := parts[x := unquote(parts[x])];
      x := x + 1;
    }
    assert parts == seq(|raw|, i requires 0 <= i < |raw| => unquote(raw[i]));
    realproject := None;
    if |parts| >= 3 {
      realproject := Some(parts[2]);
      parts := parts[2 := Resolve(LookupPath(ms, parts[2]))];
    }
  }

  /** Every part is percent-decoded, except the project part, which is the first matching
      mapping's path or the placeholder; `realproject` keeps the decoded project name. */
  lemma SourcePartsDecoded(path: string, unquote: string -> string, ms: seq<Mapping>)
    ensures var raw := RawParts(path);
      var (parts, realproject) := SourcePartsSpec(path, unquote, ms);
      && (forall i :: 0 <= i < |raw| && i != 2 ==> parts[i] == unquote(raw[i]))
      && (|raw| >= 3 ==> realproject == Some(unquote(raw[2])) && parts[2] == Resolve(LookupPath(ms, unquote(raw[2]))))
      && (|raw| >= 3 && (forall m :: m in ms ==> m.project != unquote(raw[2])) ==> parts[2] == UnknownProject)
  {
    var raw := RawParts(path);
    if |raw| >= 3 {
      LookupFirstMapping(ms, unquote(raw[2]));
    }
  }

  /** The raw parts of a join of slash-free pieces are the pieces after the first. */
  lemma RawPartsOfJoin(pieces: seq<string>)
    requires |pieces| >= 1
    requires forall i :: 0 <= i < |pieces| ==> '/' !in pieces[i]
    ensures RawParts(Text.Join(pieces, '/')) == pieces[1..]
  {
    SplitJoin(pieces, '/');
  }

  // ---------------------------------------------------------------------------
  // /public/source/: content
  // ---------------------------------------------------------------------------

  /** The source branches by part count (`public`, `source`, project, ...). */
  function SourceSpec(parts: seq<string>, realproject: Option<string>, q: Query, env: FakeEnv): Outcome<Option<Served>>
    requires |parts| >= 3 ==> realproject.Some?
  {
    if |parts| == 3 then
      if IsFile(env.fs, parts[2] + "/packages.xml") then Returns(Some(Str(env.gitmer.projectIndex(parts[2]), "text/xml", env.now)))
      else Returns(None)
    else if |parts| == 4 then
      if parts[3] == "_config" then
        match File2Stream(env.fs, parts[2] + "/" + parts[3])
        case Raises(e) => Raises(e)
        case Returns(o) => Returns(Some(Served(o.data, o.size, o.mtime, "text/plain")))
      else if parts[3] == "_meta" then Returns(Some(Str(env.gitmer.adjustMeta(parts[2], realproject.value), "text/xml", env.now)))
      else if parts[3] == "_pubkey" || parts[3] == "_pattern" then Returns(None)
      else
        match IntParam(q, "expand", 0)
        case None => Raises(ValueError)
        case Some(expand) =>
          match env.gitmer.packageIndex(parts[2], parts[3], First(q, "rev"), expand)
          case None => Raises(TypeError)
          case Some(s) => Returns(Some(Str(s, "text/xml", env.now)))
    else if |parts| == 5 then
      if IntParam(q, "expand", 0).None? then Raises(ValueError)
      else
        match env.gitmer.packageFile(realproject.value, parts[2], parts[3], parts[4], First(q, "rev"))
        case None => Raises(TypeError)
        case Some((size, data)) => Returns(Some(Served(data, size, env.now, "application/octet-stream")))
    else Returns(None)
  }

  /** Source dispatch: the project index only when the project directory has `packages.xml`;
      `_config` read from the project directory as text/plain with the file's size and mtime;
      `_meta` from the real project name; `_pubkey`, `_pattern` and any other part count are
      404s; a package file carries `gitmer`'s size, whatever the length of its data. */
  lemma SourceDispatch(parts: seq<string>, realproject: Option<string>, q: Query, env: FakeEnv)
    requires |parts| >= 3 ==> realproject.Some?
    ensures var r := SourceSpec(parts, realproject, q, env);
      && (|parts| < 3 || |parts| > 5 ==> r == Returns(None))
      && (|parts| == 3 ==> (r.Returns? && (r.value.Some? <==> IsFile(env.fs, parts[2] + "/packages.xml"))))
      && (|parts| == 4 && (parts[3] == "_pubkey" || parts[3] == "_pattern") ==> r == Returns(None))
      && (|parts| == 4 && parts[3] == "_config" ==>
            (r.Returns? <==> IsFile(env.fs, parts[2] + "/_config"))
            && (r.Returns? ==> r.value == Some(Served(env.fs.files[parts[2] + "/_config"].data, |env.fs.files[parts[2] + "/_config"].data|,
                                                     env.fs.files[parts[2] + "/_config"].mtime, "text/plain"))))
      && (|parts| == 4 && parts[3] == "_meta" ==>
            r == Returns(Some(Str(env.gitmer.adjustMeta(parts[2], realproject.value), "text/xml", env.now))))
      && (|parts| == 5 && r.Returns? ==>
            && IntParam(q, "expand", 0).Some?
            && var f := env.gitmer.packageFile(realproject.value, parts[2], parts[3], parts[4], First(q, "rev"));
            && f.Some? && r.value == Some(Served(f.value.1, f.value.0, env.now, "application/octet-stream")))
  {
    if |parts| == 4 && parts[3] == "_config" {
      assert parts[2] + "/" + parts[3] == parts[2] + "/_config";
    }
  }

  // ---------------------------------------------------------------------------
  // /public/build: path rewriting
  // ---------------------------------------------------------------------------

  /** The query after a `/<pkg>` last part is folded into it: `pkg` appended to `binary`,
      `view` defaulting to "names". */
  function Rewritten(q: Query, binary: string): Query
  {
    var binaries := match Get(q, "binary") case None => [] case Some(b) => b;
    var q1 := q["binary" := binaries + [binary]];
    if Get(q1, "view").None? then q1["view" := ["names"]] else q1
  }

  /** The parts and query after the project lookup and the rewrite of a six-part path. */
  function BuildPartsSpec(path: string, q: Query, ms: seq<Mapping>): Outcome<(seq<string>, Query)>
  {
    var raw := RawParts(path);
    match (if |raw| >= 3 then LookupBinariesPath(ms, raw[2]) else Returns(None))
    case Raises(e) => Raises(e)
    case Returns(found) =>
      var parts := if |raw| >= 3 then raw[2 := Resolve(found)] else raw;
      if |parts| == 6 && parts[5] != "_repository" then Returns((parts[5 := "_repository"], Rewritten(q, parts[5])))
      else Returns((parts, q))
  }

  /** The rewriting of `pathparts` and `query` in place. */
  method BuildParts(path: string, q: Query, ms: seq<Mapping>) returns (r: Outcome<(seq<string>, Query)>)
    ensures r == BuildPartsSpec(path, q, ms)
  {
    var parts := Split(path, '/')[1..];
    var query := q;
    if |parts| >= 3 {
      var found := LookupBinariesPath(ms, parts[2]);
      if found.Raises? {
        return Raises(found.exc);
      }
      parts := parts[2 := Resolve(found.value)];
    }
    ghost var resolved := parts;
    if |parts| == 6 && parts[5] != "_repository" {
      if Get(query, "binary").None? {
        query := query["binary" := []];
      }
      query := query["binary" := query["binary"] + [parts[5]]];
      if Get(query, "view").None? {
        query := query["view" := ["names"]];
      }
      assert query == Rewritten(q, resolved[5]);
      parts := parts[5 := "_repository"];
    }
    r := Returns((parts, query));
  }

  /** Folding a package into the query appends it to the requested binaries, keeps a requested
      view or asks for "names", and leaves every other parameter as it was. */
  lemma RewrittenQuery(q: Query, binary: string)
    ensures var q' := Rewritten(q, binary);
      && Get(q', "binary") == Some((match Get(q, "binary") case None => [] case Some(b) => b) + [binary])
      && First(q', "view") == Some(match First(q, "view") case None => "names" case Some(v) => v)
      && forall k :: k != "binary" && k != "view" ==> Get(q', k) == Get(q, k)
  {
  }

  /** A six-part build path ending in a package is rewritten to end in `_repository`, the
      project part resolved and the other parts untouched; any other path only has its project
      part resolved. */
  lemma BuildPartsShape(path: string, q: Query, ms: seq<Mapping>)
    requires BuildPartsSpec(path, q, ms).Returns?
    ensures var raw := RawParts(path);
      var (parts, q') := BuildPartsSpec(path, q, ms).value;
      && |parts| == |raw|
      && (forall i :: 0 <= i < |raw| && i != 2 && i != 5 ==> parts[i] == raw[i])
      && (|raw| >= 3 ==> parts[2] == Resolve(LookupBinariesPath(ms, raw[2]).value))
      && (|raw| == 6 && raw[5] != "_repository" ==> parts[5] == "_repository" && q' == Rewritten(q, raw[5]))
      && (!(|raw| == 6 && raw[5] != "_repository") ==> parts == (if |raw| >= 3 then raw[2 := parts[2]] else raw) && q' == q)
  {
  }

  // ---------------------------------------------------------------------------
  // /public/build: the views
  // ---------------------------------------------------------------------------

  /** The names and binaryversions views: when `probe` is a file, parse `path` with minidom,
      remove the unwanted binaries and serialise the root; otherwise the empty listing.
      `env.parse` gives `doc.childNodes[0]`, the document's first child node, which the code
      edits and serialises; minidom's NotFoundErr is reported as ValueError. */
  function Listing(probe: string, path: string, key: string, empty: string, q: Query, env: FakeEnv): Outcome<Option<Served>>
  {
    if !IsFile(env.fs, probe) then Returns(Some(Str(empty, "text/html", env.now)))
    else
      match File2Stream(env.fs, path)
      case Raises(e) => Raises(e)
      case Returns(o) =>
        match env.parse(o.data)
        case None => Raises(XmlSyntaxError)
        case Some(doc) =>
          match FilterSpec(doc, key, Get(q, "binary"))
          case Raises(e) => Raises(e)
          case Returns(d) => Returns(Some(Str(env.toxml(d), "text/html", env.now)))
  }

  /** The views of a `.../_repository` path of six parts. */
  function BuildSpec(parts: seq<string>, q: Query, env: FakeEnv): Outcome<Option<Served>>
  {
    if |parts| != 6 || parts[5] != "_repository" then Returns(None)
    else
      var dir := parts[2] + "/" + parts[3] + "/" + parts[4];
      match First(q, "view")
      case None => Returns(None)
      case Some(view) =>
        if view == "cache" || view == "solvstate" then
          var path := dir + "/_repository?view=" + view;
          match File2Stream(env.fs, if IsFile(env.fs, path) then path else EmptyCache)
          case Raises(e) => Raises(e)
          case Returns(o) => Returns(Some(Served(o.data, o.size, o.mtime, "application/octet-stream")))
        else if view == "cpio" then
          match Get(q, "binary")
          case None => Raises(KeyError)
          case Some(bs) => Returns(Some(Str(env.createcpio(dir, CpioListSpec(bs)), "application/x-cpio", env.now)))
        else if view == "names" then
          Listing(dir + "/_repository?view=names", dir + "/_repository?view=names", "filename", "<binarylist />", q, env)
        else if view == "binaryversions" then
          Listing(dir + "/_repository?view=cache", dir + "/_repository?view=binaryversions", "name", "<binaryversionlist />", q, env)
        else Returns(None)
  }

  /** The names view serves the root of the listing with exactly the requested binaries kept,
      the empty listing when the file is missing, and a KeyError when the listing holds a
      binary but the request names none. */
  lemma NamesView(parts: seq<string>, q: Query, env: FakeEnv)
    requires |parts| == 6 && parts[5] == "_repository" && First(q, "view") == Some("names")
    ensures var file := parts[2] + "/" + parts[3] + "/" + parts[4] + "/_repository?view=names";
      var r := BuildSpec(parts, q, env);
      && (!IsFile(env.fs, file) ==> r == Returns(Some(Str("<binarylist />", "text/html", env.now))))
      && (IsFile(env.fs, file) && env.parse(env.fs.files[file].data).Some? ==>
            var doc := env.parse(env.fs.files[file].data).value;
            && (Get(q, "binary").None? && HasBinary(doc) ==> r == Raises(KeyError))
            && (r.Returns? && Get(q, "binary").Some? ==>
                  var d := FilterSpec(doc, "filename", Get(q, "binary")).value;
                  && r.value == Some(Str(env.toxml(d), "text/html", env.now))
                  && (forall c :: c in d.children && IsBinary(c) ==>
                        "filename" in c.attrs && SplitExtRoot(c.attrs["filename"]) in Get(q, "binary").value)
                  && (forall c :: c in doc.children && !Unwanted(c, "filename", Get(q, "binary").value) ==> c in d.children)))
  {
    var file := parts[2] + "/" + parts[3] + "/" + parts[4] + "/_repository?view=names";
    if IsFile(env.fs, file) && env.parse(env.fs.files[file].data).Some? && Get(q, "binary").Some? {
      var doc := env.parse(env.fs.files[file].data).value;
      if FilterSpec(doc, "filename", Get(q, "binary")).Returns? {
        FilterKeepsRequested(doc, "filename", Get(q, "binary").value);
      }
    }
  }

  /** The cpio view needs `binary`, and archives the requested binaries' `.rpm` base names from
      the repository directory. */
  lemma CpioView(parts: seq<string>, q: Query, env: FakeEnv)
    requires |parts| == 6 && parts[5] == "_repository" && First(q, "view") == Some("cpio")
    ensures Get(q, "binary").None? ==> BuildSpec(parts, q, env) == Raises(KeyError)
    ensures Get(q, "binary").Some? ==>
      var bs := Get(q, "binary").value;
      && BuildSpec(parts, q, env) == Returns(Some(Str(env.createcpio(parts[2] + "/" + parts[3] + "/" + parts[4], CpioListSpec(bs)),
                                                      "application/x-cpio", env.now)))
      && ((forall i :: 0 <= i < |bs| ==> '\n' !in bs[i]) ==> Split(CpioListSpec(bs), '\n') == RpmNames(bs) + [""])
  {
    if Get(q, "binary").Some? {
      var bs := Get(q, "binary").value;
      if forall i :: 0 <= i < |bs| ==> '\n' !in bs[i] {
        CpioListLines(bs);
      }
    }
  }

  /** A repository without the cache or solvstate file serves the empty repository cache. */
  lemma CacheFallsBack(parts: seq<string>, q: Query, env: FakeEnv)
    requires |parts| == 6 && parts[5] == "_repository"
    requires First(q, "view") == Some("cache") || First(q, "view") == Some("solvstate")
    requires !IsFile(env.fs, parts[2] + "/" + parts[3] + "/" + parts[4] + "/_repository?view=" + First(q, "view").value)
    ensures IsFile(env.fs, EmptyCache) ==>
      BuildSpec(parts, q, env) == Returns(Some(Served(env.fs.files[EmptyCache].data, |env.fs.files[EmptyCache].data|,
                                                      env.fs.files[EmptyCache].mtime, "application/octet-stream")))
    ensures !IsFile(env.fs, EmptyCache) ==> BuildSpec(parts, q, env) == Raises(IOError)
  {
  }

  // ---------------------------------------------------------------------------
  // /public/lastevents
  // ---------------------------------------------------------------------------

  /** The wait can end: with a numeric `start` the counter eventually differs from it. */
  predicate FakeWaitEnds(q: Query, next: nat -> int, deadline: nat)
  {
    match First(q, "start")
    case None => true
    case Some(x) => match ParseInt(x) case None => true case Some(s) => FakeSettles(s, next, deadline)
  }

  function Filters(q: Query): seq<string>
  {
    match Get(q, "filter") case None => [] case Some(fs) => fs
  }

  /** The lastevents branch: sync lost without `start`; otherwise the filters, the wait, and
      the events since `start`. */
  function FakeLastEventsSpec(q: Query, env: FakeEnv): Outcome<Option<Served>>
  {
    match First(q, "start")
    case None => Returns(Some(Str(SyncLost(env.gitmer.nextEvent(0)), "text/html", env.now)))
    case Some(x) =>
      match ParseFiltersSpec(Filters(q), env.unquote)
      case Raises(e) => Raises(e)
      case Returns(filters) =>
        match ParseInt(x)
        case None => Raises(ValueError)
        case Some(s) => Returns(Some(Str(env.gitmer.eventsFiltered(s, filters), "text/html", env.now)))
  }

  /** The lastevents branch, with the filter loop and the 10-second poll; `polls` is the number
      of sleeps taken. */
  method FakeLastEvents(q: Query, env: FakeEnv, ghost deadline: nat) returns (r: Outcome<Option<Served>>, polls: nat)
    requires FakeWaitEnds(q, env.gitmer.nextEvent, deadline)
    ensures r == FakeLastEventsSpec(q, env)
    ensures r.Returns? && First(q, "start").Some? ==>
      polls == FakeStop(ParseInt(First(q, "start").value).value, env.gitmer.nextEvent, 0, deadline)
  {
    polls := 0;
    var start := First(q, "start");
    if start.None? {
      var output := SyncLost(env.gitmer.nextEvent(0));
      return Returns(Some(Str(output, "text/html", env.now))), 0;
    }
    var filters := ParseFilters(Filters(q), env.unquote);
    if filters.Raises? {
      return Raises(filters.exc), 0;
    }
    var s := ParseInt(start.value);
    if s.None? {
      return Raises(ValueError), 0;
    }
    polls := FakeWait(s.value, env.gitmer.nextEvent, deadline);
    r := Returns(Some(Str(env.gitmer.eventsFiltered(s.value, filters.value), "text/html", env.now)));
  }

  /** Without `start` the reply is the sync-lost notice for the current counter. With a numeric
      `start` and well-formed filters the reply is always the filtered events since `start`:
      there is no 503 and no sync-lost reply, even for a `start` ahead of the counter. A filter
      without '/' raises IndexError. */
  lemma FakeLastEventsOutcomes(q: Query, env: FakeEnv)
    ensures First(q, "start").None? ==>
      FakeLastEventsSpec(q, env) == Returns(Some(Str(SyncLost(env.gitmer.nextEvent(0)), "text/html", env.now)))
    ensures First(q, "start").Some? && ParseInt(First(q, "start").value).Some? && ParseFiltersSpec(Filters(q), env.unquote).Returns? ==>
      FakeLastEventsSpec(q, env) ==
        Returns(Some(Str(env.gitmer.eventsFiltered(ParseInt(First(q, "start").value).value, ParseFiltersSpec(Filters(q), env.unquote).value),
                         "text/html", env.now)))
    ensures First(q, "start").Some? && (exists i :: 0 <= i < |Filters(q)| && '/' !in Filters(q)[i]) ==>
      FakeLastEventsSpec(q, env).Raises?
  {
    ParseFiltersPointwise(Filters(q), env.unquote);
  }

  // ---------------------------------------------------------------------------
  // send_head and do_GET
  // ---------------------------------------------------------------------------

  /** The wait can end when the request is a lastevents one. */
  predicate Settles(path: string, q: Query, env: FakeEnv, deadline: nat)
  {
    StartsWith(path, "/public/lastevents") ==> FakeWaitEnds(q, env.gitmer.nextEvent, deadline)
  }

  /** `send_head` up to the 404 decision: what it would serve, `None` for nothing. */
  function SendHeadSpec(path: string, q: Query, env: FakeEnv): Outcome<Option<Served>>
  {
    if StartsWith(path, "/public/lastevents") then FakeLastEventsSpec(q, env)
    else if StartsWith(path, "/public/source/") then
      var (parts, realproject) := SourcePartsSpec(path, env.unquote, env.mappings);
      SourceSpec(parts, realproject, q, env)
    else if StartsWith(path, "/public/build") then
      match BuildPartsSpec(path, q, env.mappings)
      case Raises(e) => Raises(e)
      case Returns((parts, q')) => BuildSpec(parts, q', env)
    else Returns(None)
  }

  /** What reaches the client: a bare 500; the 404 "File not found"; or the 200 with
      Content-type, Content-Length and Last-Modified, then the stream. */
  datatype FakeDelivery =
    | FakeInternalError
    | FakeNotFound
    | FakeOk(contentType: string, length: int, lastModified: int, body: string)

  function DeliverSpec(h: Outcome<Option<Served>>): FakeDelivery
  {
    match h
    case Raises(_) => FakeInternalError
    case Returns(None) => FakeNotFound
    case Returns(Some(s)) => FakeOk(s.contentType, s.size, s.mtime, s.data)
  }

  /** `send_head`, with the in-place path normalisation and the wait. */
  method SendHead(path: string, q: Query, env: FakeEnv, ghost deadline: nat) returns (r: Outcome<Option<Served>>)
    requires Settles(path, q, env, deadline)
    ensures r == SendHeadSpec(path, q, env)
  {
    if StartsWith(path, "/public/lastevents") {
      var polls;
      r, polls := FakeLastEvents(q, env, deadline);
    } else if StartsWith(path, "/public/source/") {
      var parts, realproject := SourceParts(path, env.unquote, env.mappings);
      r := SourceSpec(parts, realproject, q, env);
    } else if StartsWith(path, "/public/build") {
      var rewritten := BuildParts(path, q, env.mappings);
      if rewritten.Raises? {
        return Raises(rewritten.exc);
      }
      r := BuildSpec(rewritten.value.0, rewritten.value.1, env);
    } else {
      r := Returns(None);
    }
  }

  /** `do_GET`. */
  method Serve(path: string, q: Query, env: FakeEnv, ghost deadline: nat) returns (d: FakeDelivery)
    requires Settles(path, q, env, deadline)
    ensures d == DeliverSpec(SendHeadSpec(path, q, env))
  {
    var h := SendHead(path, q, env, deadline);
    if h.Raises? {
      d := FakeInternalError;
    } else if h.value.None? {
      d := FakeNotFound;
    } else {
      var s := h.value.value;
      d := FakeOk(s.contentType, s.size, s.mtime, s.data);
    }
  }

  /** The reply is a 404 exactly when nothing was chosen, and a 500 exactly when `send_head`
      raised; a 200 sends what was chosen under its type, size and mtime. A path outside the
      three APIs is a 404. */
  lemma ReplyDecision(path: string, q: Query, env: FakeEnv)
    ensures var h := SendHeadSpec(path, q, env);
      var d := DeliverSpec(h);
      && (d == FakeNotFound <==> h == Returns(None))
      && (d == FakeInternalError <==> h.Raises?)
      && (d.FakeOk? <==> h.Returns? && h.value.Some?)
      && (d.FakeOk? ==> d.body == h.value.value.data && d.length == h.value.value.size && d.lastModified == h.value.value.mtime)
    ensures !StartsWith(path, "/public/lastevents") && !StartsWith(path, "/public/source/") && !StartsWith(path, "/public/build") ==>
      DeliverSpec(SendHeadSpec(path, q, env)) == FakeNotFound
  {
  }

  /** `/public/build/<P>/<R>/<A>/<pkg>` is served exactly as `/public/build/<P>/<R>/<A>/_repository`
      with `pkg` appended to the requested binaries and `view` defaulting to "names". */
  lemma PackagePathIsRepositoryView(p: string, r: string, a: string, pkg: string, q: Query, env: FakeEnv)
    requires '/' !in p && '/' !in r && '/' !in a && '/' !in pkg && pkg != "_repository"
    ensures var byPackage := Text.Join(["", "public", "build", p, r, a, pkg], '/');
      var byView := Text.Join(["", "public", "build", p, r, a, "_repository"], '/');
      SendHeadSpec(byPackage, q, env) == SendHeadSpec(byView, Rewritten(q, pkg), env)
  {
    var byPackage := Text.Join(["", "public", "build", p, r, a, pkg], '/');
    var byView := Text.Join(["", "public", "build", p, r, a, "_repository"], '/');
    BuildPath(p, r, a, pkg);
    BuildPath(p, r, a, "_repository");
    BuildRoute(byPackage, q, env);
    BuildRoute(byView, Rewritten(q, pkg), env);
    BuildPartsOfPackage(byPackage, byView, p, r, a, pkg, q, env.mappings);
  }

  /** A seven-piece build path splits back into its parts and is routed to the build branch. */
  lemma BuildPath(p: string, r: string, a: string, last: string)
    requires '/' !in p && '/' !in r && '/' !in a && '/' !in last
    ensures var path := Text.Join(["", "public", "build", p, r, a, last], '/');
      && RawParts(path) == ["public", "build", p, r, a, last]
      && StartsWith(path, "/public/build") && !StartsWith(path, "/public/lastevents") && !StartsWith(path, "/public/source/")
  {
    var cs := [p, r, a, last];
    var pieces := ["", "public", "build", p, r, a, last];
    BuildPathSlashFree(p, r, a, last);
    RawPartsOfJoin(pieces);
    BuildPrefix(cs);
    BuildPieces7(p, r, a, last);
  }

  lemma BuildPathSlashFree(p: string, r: string, a: string, last: string)
    requires '/' !in p && '/' !in r && '/' !in a && '/' !in last
    ensures var pieces := ["", "public", "build", p, r, a, last];
      forall i :: 0 <= i < |pieces| ==> '/' !in pieces[i]
  {
    var pieces := ["", "public", "build", p, r, a, last];
    assert pieces[1] == "public" && pieces[2] == "build";
  }

  lemma BuildPieces7(p: string, r: string, a: string, last: string)
    ensures ["", "public", "build"] + [p, r, a, last] == ["", "public", "build", p, r, a, last]
    ensures ["", "public", "build", p, r, a, last][1..] == ["public", "build", p, r, a, last]
  {
  }

  /** A path under `/public/build` is answered by the build branch of `send_head`. */
  lemma BuildRoute(path: string, q: Query, env: FakeEnv)
    requires StartsWith(path, "/public/build") && !StartsWith(path, "/public/lastevents") && !StartsWith(path, "/public/source/")
    ensures SendHeadSpec(path, q, env) ==
      match BuildPartsSpec(path, q, env.mappings)
      case Raises(e) => Raises(e)
      case Returns((parts, q')) => BuildSpec(parts, q', env)
  {
  }

  /** The package path and the `_repository` path with the package folded into the query are
      rewritten alike. */
  lemma BuildPartsOfPackage(byPackage: string, byView: string, p: string, r: string, a: string, pkg: string,
                            q: Query, ms: seq<Mapping>)
    requires pkg != "_repository"
    requires RawParts(byPackage) == ["public", "build", p, r, a, pkg]
    requires RawParts(byView) == ["public", "build", p, r, a, "_repository"]
    ensures BuildPartsSpec(byPackage, q, ms) == BuildPartsSpec(byView, Rewritten(q, pkg), ms)
  {
    var raw := RawParts(byPackage);
    var found := LookupBinariesPath(ms, p);
    if found.Returns? {
      assert raw[2 := Resolve(found.value)][5 := "_repository"] == RawParts(byView)[2 := Resolve(found.value)];
    }
  }

  /** A `/public/build/...` path is routed to the build branch. */
  lemma BuildPrefix(cs: seq<string>)
    requires |cs| >= 1
    ensures var path := Text.Join(["", "public", "build"] + cs, '/');
      StartsWith(path, "/public/build") && !StartsWith(path, "/public/lastevents") && !StartsWith(path, "/public/source/")
  {
    BuildJoin(cs);
    BuildPathPrefix(Text.Join(cs, '/'));
  }

  /** The three leading pieces of a build path, joined. */
  lemma BuildJoin(cs: seq<string>)
    requires |cs| >= 1
    ensures Text.Join(["", "public", "build"] + cs, '/') == "/public/build/" + Text.Join(cs, '/')
  {
    var j := Text.Join(cs, '/');
    JoinCons("build", cs, '/', j);
    JoinCons("public", ["build"] + cs, '/', "build" + "/" + j);
    JoinCons("", ["public"] + (["build"] + cs), '/', "public" + "/" + ("build" + "/" + j));
    BuildLiteral(j);
    BuildPieces(cs);
  }

  lemma BuildLiteral(j: string)
    ensures "" + "/" + ("public" + "/" + ("build" + "/" + j)) == "/public/build/" + j
  {
  }

  lemma BuildPieces(cs: seq<string>)
    ensures [""] + (["public"] + (["build"] + cs)) == ["", "public", "build"] + cs
  {
  }

  /** The build prefix, spelled out, and what it rules out. */
  lemma BuildPathPrefix(j: string)
    ensures var path := "/public/build/" + j;
      StartsWith(path, "/public/build") && !StartsWith(path, "/public/lastevents") && !StartsWith(path, "/public/source/")
  {
    var path := "/public/build/" + j;
    assert path[..13] == "/public/build";
    assert path[8] == 'b';
  }


}
