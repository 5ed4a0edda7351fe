/** The manifest / cache resolver of `gitmds2.py`: it finds a project's documents in git, lists
    its packages, resolves a revision selector against the mapping cache and serves package
    indexes and package files. Git is read through the `Store`; the mapping cache is the
    document `get_mappingscache()` returns. */
module Resolver {
  import opened Wrappers
  import opened Text
  import opened Git
  import opened Manifest
  import opened MappingsCache

  /** The dictionary `get_project` returns. */
  datatype Project = Project(obsprjname: string, prjname: string, gitbranch: string, subdir: string,
                             gitrepo: string, packages: Manifest, prjconf: string, meta: Element)

  /** lxml's `fromstring` on the two project documents; `None` where it raises. */
  datatype Parsers = Parsers(packages: string -> Option<Manifest>, meta: string -> Option<Element>)

  // ---------------------------------------------------------------------------
  // get_project
  // ---------------------------------------------------------------------------

  /** The first `mapping` element whose `project` attribute is `prj`. */
  function FindMapping(ms: seq<Mapping>, prj: string): (r: Option<nat>)
    ensures r.Some? ==> r.value < |ms| && ms[r.value].project == prj
    ensures r.Some? ==> forall j :: 0 <= j < r.value ==> ms[j].project != prj
    ensures r.None? ==> forall m :: m in ms ==> m.project != prj
  {
    if |ms| == 0 then None
    else if ms[0].project == prj then Some(0)
    else match FindMapping(ms[1..], prj)
      case Some(i) => Some(i + 1)
      case None => None
  }

  /** What `get_project` has found before it reads the three blobs: the identifier's parts,
      the repository path and the tree of the requested branch. */
  datatype Located = Located(parts: seq<string>, path: string, tree: seq<TreeEntry>)

  /** The steps of `get_project` up to the tree: `None` for an identifier that is not
      `PROJECT:GITREF:SUBDIR` or whose project has no mapping; the repository reader raises
      when the repository or the branch cannot be opened. */
  function Locate(projectname: string, mappings: seq<Mapping>, store: Store): (r: Outcome<Option<Located>>)
    ensures r.Returns? && r.value.Some? ==>
      var l := r.value.value;
      && l.parts == Split(projectname, ':') && |l.parts| == 3
      && FindMapping(mappings, l.parts[0]).Some?
      && l.path == mappings[FindMapping(mappings, l.parts[0]).value].path
      && l.path in store && BranchTree(store[l.path], l.parts[1]) == Returns(l.tree)
    ensures r.Raises? ==> r.exc == GitError
    ensures |Split(projectname, ':')| != 3 ==> r == Returns(None)
    ensures (forall m :: m in mappings ==> m.project != Split(projectname, ':')[0]) ==> r == Returns(None)
  {
    var parts := Split(projectname, ':');
    if |parts| != 3 then Returns(None)
    else match FindMapping(mappings, parts[0])
      case None => Returns(None)
      case Some(i) =>
        assert mappings[i] in mappings;
        var path := mappings[i].path;
        if path !in store then Raises(GitError)
        else match BranchTree(store[path], parts[1])
          case Raises(e) => Raises(e)
          case Returns(tree) => Returns(Some(Located(parts, path, tree)))
  }

  /** The rest of `get_project` once the three blobs are read: parse them and rename every
      `project` element of the meta to the full identifier. */
  function Assemble(projectname: string, l: Located, packages: string, prjconf: string, meta: string,
                    parse: Parsers): (r: Outcome<Option<Project>>)
    requires |l.parts| == 3
    ensures r.Returns? <==> parse.packages(packages).Some? && parse.meta(meta).Some?
    ensures r.Raises? ==> r.exc == XmlSyntaxError
    ensures r.Returns? ==> r.value.Some?
    ensures r.Returns? ==> var p := r.value.value;
      && p.obsprjname == projectname && p.prjname == l.parts[0] && p.gitbranch == l.parts[1]
      && p.subdir == l.parts[2] && p.gitrepo == l.path && p.prjconf == prjconf
      && Some(p.packages) == parse.packages(packages)
      && p.meta == RenameProjects(parse.meta(meta).value, projectname)
      && AllProjectsNamed(p.meta, projectname)
  {
    match parse.packages(packages)
    case None => Raises(XmlSyntaxError)
    case Some(m) =>
      match parse.meta(meta)
      case None => Raises(XmlSyntaxError)
      case Some(e) =>
        RenameProjectsNamesAll(e, projectname);
        Returns(Some(Project(projectname, l.parts[0], l.parts[1], l.parts[2], l.path, m, prjconf,
                             RenameProjects(e, projectname))))
  }

  /** One of `packages.xml`, `_config` and `_meta` is missing under the subdirectory. */
  predicate MissingFile(l: Located)
    requires |l.parts| == 3
  {
    || TreeLookup(l.tree, l.parts[2] + "/packages.xml").None?
    || TreeLookup(l.tree, l.parts[2] + "/_config").None?
    || TreeLookup(l.tree, l.parts[2] + "/_meta").None?
  }

  /** The project's documents are what the three files under its subdirectory of `tree` hold
      (`git_cat` of each): the parsed `packages.xml`, the `_config` text, and the parsed `_meta`
      with every `project` element renamed to the full identifier. */
  predicate ReadFrom(p: Project, tree: seq<TreeEntry>, parse: Parsers)
  {
    var pk := TreeLookup(tree, p.subdir + "/packages.xml");
    var cf := TreeLookup(tree, p.subdir + "/_config");
    var mt := TreeLookup(tree, p.subdir + "/_meta");
    && pk.Some? && cf.Some? && mt.Some?
    && parse.packages(Cat(pk.value)) == Some(p.packages)
    && p.prjconf == Cat(cf.value)
    && parse.meta(Cat(mt.value)).Some?
    && p.meta == RenameProjects(parse.meta(Cat(mt.value)).value, p.obsprjname)
  }

  /** `get_project` as written: a missing `packages.xml`, `_config` or `_meta` under the
      subdirectory is a KeyError from the tree lookup. */
  function GetProjectAsWritten(projectname: string, mappings: seq<Mapping>, store: Store, parse: Parsers): Outcome<Option<Project>>
  {
    match Locate(projectname, mappings, store)
    case Raises(e) => Raises(e)
    case Returns(None) => Returns(None)
    case Returns(Some(l)) =>
      var sub := l.parts[2];
      var pk := TreeLookup(l.tree, sub + "/packages.xml");
      var cf := TreeLookup(l.tree, sub + "/_config");
      var mt := TreeLookup(l.tree, sub + "/_meta");
      if pk.None? || cf.None? || mt.None? then Raises(KeyError)
      else Assemble(projectname, l, Cat(pk.value), Cat(cf.value), Cat(mt.value), parse)
  }

  /** `get_project` as its comment describes it ("either return None or a dictionary"): a
      missing blob means there is no such project. */
  function GetProject(projectname: string, mappings: seq<Mapping>, store: Store, parse: Parsers): (r: Outcome<Option<Project>>)
    ensures r.Raises? ==> r.exc in {GitError, XmlSyntaxError}
    ensures |Split(projectname, ':')| != 3 ==> r == Returns(None)
    ensures (forall m :: m in mappings ==> m.project != Split(projectname, ':')[0]) ==> r == Returns(None)
    ensures r.Returns? && r.value.Some? ==> var p := r.value.value;
      && p.obsprjname == projectname
      && [p.prjname, p.gitbranch, p.subdir] == Split(projectname, ':')
      && FindMapping(mappings, p.prjname).Some?
      && p.gitrepo == mappings[FindMapping(mappings, p.prjname).value].path
      && p.gitrepo in store && BranchTree(store[p.gitrepo], p.gitbranch).Returns?
      && ReadFrom(p, BranchTree(store[p.gitrepo], p.gitbranch).value, parse)
      && AllProjectsNamed(p.meta, projectname)
    ensures var loc := Locate(projectname, mappings, store);
      loc.Returns? && loc.value.Some? && MissingFile(loc.value.value) ==> r == Returns(None)
  {
    match Locate(projectname, mappings, store)
    case Raises(e) => Raises(e)
    case Returns(None) => Returns(None)
    case Returns(Some(l)) =>
      var sub := l.parts[2];
      var pk := TreeLookup(l.tree, sub + "/packages.xml");
      var cf := TreeLookup(l.tree, sub + "/_config");
      var mt := TreeLookup(l.tree, sub + "/_meta");
      if pk.None? || cf.None? || mt.None? then Returns(None)
      else
        var r := Assemble(projectname, l, Cat(pk.value), Cat(cf.value), Cat(mt.value), parse);
        assert r.Returns? ==> [r.value.value.prjname, r.value.value.gitbranch, r.value.value.subdir] == l.parts;
        r
  }

  /** The two agree except where a file is missing: there the code raises KeyError and the
      documented behaviour is `None`. */
  lemma GetProjectMissingBlob(projectname: string, mappings: seq<Mapping>, store: Store, parse: Parsers)
    requires Locate(projectname, mappings, store).Returns?
    requires Locate(projectname, mappings, store).value.Some?
    requires MissingFile(Locate(projectname, mappings, store).value.value)
    ensures GetProjectAsWritten(projectname, mappings, store, parse) == Raises(KeyError)
    ensures GetProject(projectname, mappings, store, parse) == Returns(None)
  {
  }

  /** Everywhere else the documented and the written behaviour coincide. */
  lemma GetProjectAgrees(projectname: string, mappings: seq<Mapping>, store: Store, parse: Parsers)
    requires GetProjectAsWritten(projectname, mappings, store, parse) != Raises(KeyError)
    ensures GetProject(projectname, mappings, store, parse) == GetProjectAsWritten(projectname, mappings, store, parse)
  {
  }

  /** A concrete identifier that shows the discrepancy: project `Core` on branch `master`
      whose tree has no `i586/packages.xml`. */
  lemma GetProjectMissingBlobExample(parse: Parsers)
    ensures var store := map["git/core" := Repository([Branch("master", [Commit("c1", 0, [])])], [])];
      GetProjectAsWritten("Core:master:i586", [Mapping("Core", "git/core", None)], store, parse) == Raises(KeyError)
      && GetProject("Core:master:i586", [Mapping("Core", "git/core", None)], store, parse) == Returns(None)
  {
    var store := map["git/core" := Repository([Branch("master", [Commit("c1", 0, [])])], [])];
    var ms := [Mapping("Core", "git/core", None)];
    SplitIdentifierExample();
    assert FindMapping(ms, "Core") == Some(0);
    assert BranchTree(store["git/core"], "master") == Returns([]);
    var l := Located(["Core", "master", "i586"], "git/core", []);
    assert Locate("Core:master:i586", ms, store) == Returns(Some(l));
    TreeLookupEmpty(l.parts[2] + "/packages.xml");
    GetProjectMissingBlob("Core:master:i586", ms, store, parse);
  }

  lemma SplitIdentifierExample()
    ensures Split("Core:master:i586", ':') == ["Core", "master", "i586"]
  {
    IdentifierPieces();
    SplitPrefix("Core", "master:i586", ':');
    SplitPrefix("master", "i586", ':');
    SplitNoSeparator("i586", ':');
  }

  lemma IdentifierPieces()
    ensures "Core:master:i586" == "Core" + [':'] + "master:i586"
    ensures "master:i586" == "master" + [':'] + "i586"
    ensures ':' !in "Core" && ':' !in "master" && ':' !in "i586"
  {
  }

  // ---------------------------------------------------------------------------
  // build_project_index
  // ---------------------------------------------------------------------------

  function PackageNames(ps: seq<Package>): (ns: seq<string>)
    ensures |ns| == |ps| && forall i :: 0 <= i < |ps| ==> ns[i] == ps[i].name
  {
    if |ps| == 0 then [] else PackageNames(ps[..|ps| - 1]) + [ps[|ps| - 1].name]
  }

  function LinkTargets(ls: seq<Link>): (ns: seq<string>)
    ensures |ns| == |ls| && forall i :: 0 <= i < |ls| ==> ns[i] == ls[i].to
  {
    if |ls| == 0 then [] else LinkTargets(ls[..|ls| - 1]) + [ls[|ls| - 1].to]
  }

  /** `build_project_index` as written: the package loop runs, then the call of the minidom
      method `getElementsByTagName` on an lxml element raises AttributeError. */
  function BuildProjectIndexAsWritten(m: Manifest): Outcome<seq<string>>
  {
    Raises(AttributeError)
  }

  lemma BuildProjectIndexAlwaysRaises(m: Manifest)
    ensures BuildProjectIndexAsWritten(m) == Raises(AttributeError)
    ensures BuildProjectIndex(m) != []  <== |m.packages| + |m.links| > 0
  {
  }

  /** The intended directory listing: one `entry` per package, named after it, then one per
      link, named after its `to`. */
  function BuildProjectIndex(m: Manifest): (names: seq<string>)
    ensures |names| == |m.packages| + |m.links|
    ensures forall i :: 0 <= i < |m.packages| ==> names[i] == m.packages[i].name
    ensures forall j :: 0 <= j < |m.links| ==> names[|m.packages| + j] == m.links[j].to
  {
    PackageNames(m.packages) + LinkTargets(m.links)
  }

  /** A name is listed exactly when a package has it or a link points to it. */
  lemma BuildProjectIndexListsAll(m: Manifest, n: string)
    ensures n in BuildProjectIndex(m) <==>
      (exists p :: p in m.packages && p.name == n) || (exists l :: l in m.links && l.to == n)
  {
    if n in BuildProjectIndex(m) {
      ListedComesFrom(m, n);
    }
    if p :| p in m.packages && p.name == n {
      PackageListed(m, p);
    }
    if l :| l in m.links && l.to == n {
      LinkListed(m, l);
    }
  }

  lemma ListedComesFrom(m: Manifest, n: string)
    requires n in BuildProjectIndex(m)
    ensures (exists p :: p in m.packages && p.name == n) || (exists l :: l in m.links && l.to == n)
  {
    var names := BuildProjectIndex(m);
    var i :| 0 <= i < |names| && names[i] == n;
    if i < |m.packages| {
      assert m.packages[i] in m.packages;
    } else {
      assert m.links[i - |m.packages|] in m.links;
    }
  }

  lemma PackageListed(m: Manifest, p: Package)
    requires p in m.packages
    ensures p.name in BuildProjectIndex(m)
  {
    var i :| 0 <= i < |m.packages| && m.packages[i] == p;
    assert BuildProjectIndex(m)[i] == p.name;
  }

  lemma LinkListed(m: Manifest, l: Link)
    requires l in m.links
    ensures l.to in BuildProjectIndex(m)
  {
    var j :| 0 <= j < |m.links| && m.links[j] == l;
    var names := BuildProjectIndex(m);
    var k := |m.packages| + j;
    assert k < |names| && names[k] == l.to;
  }

  // ---------------------------------------------------------------------------
  // Link recursion
  // ---------------------------------------------------------------------------

  /** The first package element with that name. */
  function FindPackage(ps: seq<Package>, name: string): (r: Option<Package>)
    ensures r.Some? ==> r.value in ps && r.value.name == name
    ensures r.Some? ==>
      exists i :: 0 <= i < |ps| && ps[i] == r.value && forall j :: 0 <= j < i ==> ps[j].name != name
    ensures r.None? ==> forall p :: p in ps ==> p.name != name
  {
    if |ps| == 0 then None
    else if ps[0].name == name then Some(ps[0])
    else
      var r := FindPackage(ps[1..], name);
      if r.Some? then
        var i :| 0 <= i < |ps[1..]| && ps[1..][i] == r.value && forall j :: 0 <= j < i ==> ps[1..][j].name != name;
        assert ps[i + 1] == r.value;
        assert forall j :: 0 <= j < i + 1 ==> ps[j].name != name by {
          forall j | 0 <= j < i + 1 ensures ps[j].name != name {
            if j > 0 {
              assert ps[j] == ps[1..][j - 1];
            }
          }
        }
        r
      else r
  }

  /** The first link element whose `to` is that name. */
  function FindLink(ls: seq<Link>, name: string): (r: Option<Link>)
    ensures r.Some? ==> r.value in ls && r.value.to == name
    ensures r.Some? ==>
      exists i :: 0 <= i < |ls| && ls[i] == r.value && forall j :: 0 <= j < i ==> ls[j].to != name
    ensures r.None? ==> forall l :: l in ls ==> l.to != name
  {
    if |ls| == 0 then None
    else if ls[0].to == name then Some(ls[0])
    else
      var r := FindLink(ls[1..], name);
      if r.Some? then
        var i :| 0 <= i < |ls[1..]| && ls[1..][i] == r.value && forall j :: 0 <= j < i ==> ls[1..][j].to != name;
        assert ls[i + 1] == r.value;
        assert forall j :: 0 <= j < i + 1 ==> ls[j].to != name by {
          forall j | 0 <= j < i + 1 ensures ls[j].to != name {
            if j > 0 {
              assert ls[j] == ls[1..][j - 1];
            }
          }
        }
        r
      else r
  }

  /** The names links point from. */
  function LinkSources(m: Manifest): set<string>
  {
    set l | l in m.links :: l.from
  }

  /** The shape all four lookups share: try the packages of that name (`direct`); when that
      finds nothing, recurse on the `from` of the first link whose `to` is the name. The code
      has no cycle guard: on a link cycle it recurses until CPython's recursion limit, which the
      model reports as soon as a name repeats on the chain (`visited`). */
  function Follow<T>(m: Manifest, name: string, visited: set<string>, direct: string -> Outcome<Option<T>>): Outcome<Option<T>>
    decreases LinkSources(m) + {name} - visited
  {
    if name in visited then Raises(RecursionLimit)
    else match direct(name)
      case Raises(e) => Raises(e)
      case Returns(Some(v)) => Returns(Some(v))
      case Returns(None) =>
        match FindLink(m.links, name)
        case None => Returns(None)
        case Some(l) =>
          assert l.from in LinkSources(m);
          assert LinkSources(m) + {l.from} - (visited + {name}) < LinkSources(m) + {name} - visited;
          Follow(m, l.from, visited + {name}, direct)
  }

  /** Where the link graph has no cycle (some rank decreases along every link, from `to` to
      `from`), the recursion ends on its own and the recursion limit is never reached. */
  lemma {:induction false} AcyclicLinksTerminate<T>(m: Manifest, name: string, visited: set<string>,
                                                    direct: string -> Outcome<Option<T>>, rank: string -> nat)
    requires forall l :: l in m.links ==> rank(l.from) < rank(l.to)
    requires forall v :: v in visited ==> rank(name) < rank(v)
    requires forall n :: direct(n) != Raises(RecursionLimit)
    ensures Follow(m, name, visited, direct) != Raises(RecursionLimit)
    decreases LinkSources(m) + {name} - visited
  {
    if name !in visited && direct(name) == Returns(None) {
      match FindLink(m.links, name)
      case None =>
      case Some(l) =>
        assert l.from in LinkSources(m);
        assert LinkSources(m) + {l.from} - (visited + {name}) < LinkSources(m) + {name} - visited;
        AcyclicLinksTerminate(m, l.from, visited + {name}, direct, rank);
    }
  }

  /** A package that links to itself and is not a package: the code recurses forever. */
  lemma SelfLinkDiverges<T>(m: Manifest, name: string, direct: string -> Outcome<Option<T>>)
    requires direct(name) == Returns(None)
    requires FindLink(m.links, name).Some? && FindLink(m.links, name).value.from == name
    ensures Follow(m, name, {}, direct) == Raises(RecursionLimit)
  {
    var l := FindLink(m.links, name).value;
    assert l.from in LinkSources(m);
  }

  /** `s` is a chain the link recursion walks from `name`: each later name is the `from` of
      the first link to the name before it, and every name but the last was tried directly,
      found nothing, and was not yet visited. */
  predicate Tried<T>(m: Manifest, s: seq<string>, name: string, visited: set<string>, direct: string -> Outcome<Option<T>>)
  {
    && |s| >= 1 && s[0] == name
    && forall i :: 0 <= i < |s| - 1 ==>
         && s[i] !in visited && direct(s[i]) == Returns(None)
         && FindLink(m.links, s[i]).Some? && FindLink(m.links, s[i]).value.from == s[i + 1]
  }

  /** Short of the recursion limit, `Follow` gives what the direct lookup gives for the last
      name of the link chain from `name`, a name not yet visited; when that is `None`, no link
      points to that last name. */
  lemma {:induction false} FollowFound<T>(m: Manifest, name: string, visited: set<string>, direct: string -> Outcome<Option<T>>)
    ensures var r := Follow(m, name, visited, direct);
      r != Raises(RecursionLimit) ==>
        exists s :: Tried(m, s, name, visited, direct) && s[|s| - 1] !in visited && direct(s[|s| - 1]) == r
          && (r == Returns(None) ==> FindLink(m.links, s[|s| - 1]).None?)
    decreases LinkSources(m) + {name} - visited
  {
    var r := Follow(m, name, visited, direct);
    if r != Raises(RecursionLimit) {
      if direct(name) == Returns(None) && FindLink(m.links, name).Some? {
        var l := FindLink(m.links, name).value;
        assert l.from in LinkSources(m);
        assert LinkSources(m) + {l.from} - (visited + {name}) < LinkSources(m) + {name} - visited;
        FollowFound(m, l.from, visited + {name}, direct);
        var t :| Tried(m, t, l.from, visited + {name}, direct) && t[|t| - 1] !in visited + {name} && direct(t[|t| - 1]) == r
          && (r == Returns(None) ==> FindLink(m.links, t[|t| - 1]).None?);
        var s := [name] + t;
        assert s[|s| - 1] == t[|t| - 1];
        forall i | 0 <= i < |s| - 1
          ensures s[i] !in visited && direct(s[i]) == Returns(None)
          ensures FindLink(m.links, s[i]).Some? && FindLink(m.links, s[i]).value.from == s[i + 1]
        {
          if i > 0 {
            assert s[i] == t[i - 1] && s[i + 1] == t[i];
          }
        }
        assert Tried(m, s, name, visited, direct);
      } else {
        assert Tried(m, [name], name, visited, direct);
      }
    }
  }

  /** Where the recursion stays short of its limit, the names already visited do not change
      what it finds. */
  lemma {:induction false} FollowVisited<T>(m: Manifest, name: string, visited: set<string>, fewer: set<string>,
                                            direct: string -> Outcome<Option<T>>)
    requires fewer <= visited
    requires Follow(m, name, visited, direct) != Raises(RecursionLimit)
    ensures Follow(m, name, fewer, direct) == Follow(m, name, visited, direct)
    decreases LinkSources(m) + {name} - visited
  {
    if direct(name) == Returns(None) && FindLink(m.links, name).Some? {
      var l := FindLink(m.links, name).value;
      assert l.from in LinkSources(m);
      assert LinkSources(m) + {l.from} - (visited + {name}) < LinkSources(m) + {name} - visited;
      FollowVisited(m, l.from, visited + {name}, fewer + {name}, direct);
    }
  }

  /** A name the direct lookup does not find is looked up again under the `from` of the first
      link to it, as the code's recursive call does, wherever that stays short of the limit; with
      no such link the result is `None`. */
  lemma FollowLink<T>(m: Manifest, name: string, direct: string -> Outcome<Option<T>>)
    requires direct(name) == Returns(None)
    ensures FindLink(m.links, name).None? ==> Follow(m, name, {}, direct) == Returns(None)
    ensures FindLink(m.links, name).Some? && Follow(m, name, {}, direct) != Raises(RecursionLimit) ==>
      Follow(m, name, {}, direct) == Follow(m, FindLink(m.links, name).value.from, {}, direct)
  {
    if FindLink(m.links, name).Some? && Follow(m, name, {}, direct) != Raises(RecursionLimit) {
      var l := FindLink(m.links, name).value;
      var none: set<string> := {};
      assert none + {name} == {name};
      assert Follow(m, name, none, direct) == Follow(m, l.from, {name}, direct);
      FollowVisited(m, l.from, {name}, {}, direct);
    }
  }

  // ---------------------------------------------------------------------------
  // get_latest_commit and the selector
  // ---------------------------------------------------------------------------

  /** The `commit` of the first package with that name. */
  function PackageCommit(ps: seq<Package>, name: string): (r: Option<string>)
    ensures r.Some? <==> exists p :: p in ps && p.name == name
    ensures r.Some? ==> r == Some(FindPackage(ps, name).value.commit)
  {
    match FindPackage(ps, name)
    case Some(p) => Some(p.commit)
    case None => None
  }

  function GetLatestCommit(m: Manifest, name: string): Outcome<Option<string>>
  {
    Follow(m, name, {}, n => Returns(PackageCommit(m.packages, n)))
  }

  /** `get_latest_commit`: a package of that name gives the `commit` of the first one;
      otherwise the first link to the name is followed, and its `from` looked up in turn; the
      result only ever is some package's commit. */
  lemma GetLatestCommitSpec(m: Manifest, name: string)
    ensures (exists p :: p in m.packages && p.name == name) ==>
      GetLatestCommit(m, name) == Returns(Some(FindPackage(m.packages, name).value.commit))
    ensures ((forall p :: p in m.packages ==> p.name != name) && FindLink(m.links, name).Some?
      && GetLatestCommit(m, name) != Raises(RecursionLimit)) ==>
      GetLatestCommit(m, name) == GetLatestCommit(m, FindLink(m.links, name).value.from)
    ensures (forall p :: p in m.packages ==> p.name != name) && (forall l :: l in m.links ==> l.to != name) ==>
      GetLatestCommit(m, name) == Returns(None)
    ensures GetLatestCommit(m, name).Raises? ==> GetLatestCommit(m, name).exc == RecursionLimit
    ensures GetLatestCommit(m, name).Returns? && GetLatestCommit(m, name).value.Some? ==>
      exists p :: p in m.packages && p.commit == GetLatestCommit(m, name).value.value
  {
    var direct := n => Returns(PackageCommit(m.packages, n));
    if forall p :: p in m.packages ==> p.name != name {
      FollowLink(m, name, direct);
    }
    FollowFound(m, name, {}, direct);
    var r := GetLatestCommit(m, name);
    if r.Returns? && r.value.Some? {
      var s :| Tried(m, s, name, {}, direct) && s[|s| - 1] !in {} && direct(s[|s| - 1]) == r;
      assert FindPackage(m.packages, s[|s| - 1]).value in m.packages;
    }
  }

  /** The revision selector: None, "upload" and "build" mean "latest", and "latest" means the
      latest commit of the package; anything else is used as given. */
  function NormalizeSelector(m: Manifest, name: string, getrev: Option<string>): (r: Outcome<Option<string>>)
    ensures getrev.None? || getrev.value in {"upload", "build", "latest"} ==> r == GetLatestCommit(m, name)
    ensures getrev.Some? && getrev.value !in {"upload", "build", "latest"} ==> r == Returns(getrev)
  {
    var g := if getrev.None? || getrev.value == "upload" || getrev.value == "build" then "latest" else getrev.value;
    if g == "latest" then GetLatestCommit(m, name) else Returns(Some(g))
  }

  // ---------------------------------------------------------------------------
  // Searching the mapping cache
  // ---------------------------------------------------------------------------

  /** The first map record of a repo element that satisfies `ok` for the package. */
  function FirstRecord(maps: seq<MapRecord>, p: Package, ok: (Package, MapRecord) -> bool): (r: Option<MapRecord>)
    ensures r.Some? ==> r.value in maps && ok(p, r.value)
    ensures r.Some? ==>
      exists i :: 0 <= i < |maps| && maps[i] == r.value && forall j :: 0 <= j < i ==> !ok(p, maps[j])
    ensures r.None? ==> forall rec :: rec in maps ==> !ok(p, rec)
  {
    if |maps| == 0 then None
    else if ok(p, maps[0]) then Some(maps[0])
    else
      var r := FirstRecord(maps[1..], p, ok);
      if r.Some? then
        var i :| 0 <= i < |maps[1..]| && maps[1..][i] == r.value && forall j :: 0 <= j < i ==> !ok(p, maps[1..][j]);
        assert maps[i + 1] == r.value;
        assert forall j :: 0 <= j < i + 1 ==> !ok(p, maps[j]) by {
          forall j | 0 <= j < i + 1 ensures !ok(p, maps[j]) {
            if j > 0 {
              assert maps[j] == maps[1..][j - 1];
            }
          }
        }
        r
      else r
  }

  /** The first such record over the repo elements whose path is the package's `git`, in
      document order: the record `FirstRecord` finds in the first of them that has one. */
  function FirstInRepos(cache: seq<RepoRecord>, p: Package, ok: (Package, MapRecord) -> bool): (r: Option<MapRecord>)
    ensures r.Some? ==> ok(p, r.value) && exists repo :: repo in cache && repo.path == p.git && r.value in repo.maps
    ensures r.Some? ==>
      exists k :: 0 <= k < |cache| && cache[k].path == p.git && FirstRecord(cache[k].maps, p, ok) == r
        && forall j :: 0 <= j < k && cache[j].path == p.git ==> FirstRecord(cache[j].maps, p, ok).None?
    ensures r.None? ==> forall repo, rec :: repo in cache && repo.path == p.git && rec in repo.maps ==> !ok(p, rec)
  {
    if |cache| == 0 then None
    else
      var here := if cache[0].path == p.git then FirstRecord(cache[0].maps, p, ok) else None;
      if here.Some? then here
      else
        var rest := FirstInRepos(cache[1..], p, ok);
        if rest.Some? then
          var k :| 0 <= k < |cache[1..]| && cache[1..][k].path == p.git && FirstRecord(cache[1..][k].maps, p, ok) == rest
            && forall j :: 0 <= j < k && cache[1..][j].path == p.git ==> FirstRecord(cache[1..][j].maps, p, ok).None?;
          ShiftFirst(cache, k, (c: RepoRecord) => c.path == p.git && FirstRecord(c.maps, p, ok).Some?);
          assert cache[k + 1] in cache;
          rest
        else
          assert forall repo :: repo in cache ==> repo == cache[0] || repo in cache[1..];
          rest
  }

  /** The first such record over the packages with that name: the record `FirstInRepos` finds
      for the first of them that has one (`FirstInPackagesIsFirst`). */
  function FirstInPackages(ps: seq<Package>, name: string, cache: seq<RepoRecord>,
                           ok: (Package, MapRecord) -> bool): (r: Option<(Package, MapRecord)>)
    ensures r.Some? ==> var (p, rec) := r.value;
      p in ps && p.name == name && ok(p, rec)
      && exists repo :: repo in cache && repo.path == p.git && rec in repo.maps
    ensures r.None? ==> forall p, repo, rec :: (p in ps && p.name == name && repo in cache && repo.path == p.git
      && rec in repo.maps) ==> !ok(p, rec)
  {
    if |ps| == 0 then None
    else
      var p := ps[0];
      var here := if p.name == name then FirstInRepos(cache, p, ok) else None;
      if here.Some? then Some((p, here.value))
      else
        var rest := FirstInPackages(ps[1..], name, cache, ok);
        assert rest.None? ==> forall q :: q in ps ==> q == p || q in ps[1..];
        rest
  }

  /** The match comes from the first package of that name, in document order, for which
      `FirstInRepos` finds a record. */
  lemma {:induction false} FirstInPackagesIsFirst(ps: seq<Package>, name: string, cache: seq<RepoRecord>,
                                                  ok: (Package, MapRecord) -> bool)
    ensures var r := FirstInPackages(ps, name, cache, ok);
      r.Some? ==>
        exists i :: 0 <= i < |ps| && ps[i] == r.value.0 && ps[i].name == name && FirstInRepos(cache, ps[i], ok) == Some(r.value.1)
          && forall j :: 0 <= j < i ==> !Supplies(ps[j], name, cache, ok)
  {
    var r := FirstInPackages(ps, name, cache, ok);
    if |ps| > 0 && r.Some? {
      if !Supplies(ps[0], name, cache, ok) {
        var t := ps[1..];
        assert r == FirstInPackages(t, name, cache, ok);
        FirstInPackagesIsFirst(t, name, cache, ok);
        var i :| 0 <= i < |t| && t[i] == r.value.0 && t[i].name == name && FirstInRepos(cache, t[i], ok) == Some(r.value.1)
          && forall j :: 0 <= j < i ==> !Supplies(t[j], name, cache, ok);
        ShiftFirst(ps, i, p => Supplies(p, name, cache, ok));
      }
    }
  }

  /** A package of that name whose repository has a matching record. */
  predicate Supplies(p: Package, name: string, cache: seq<RepoRecord>, ok: (Package, MapRecord) -> bool)
  {
    p.name == name && FirstInRepos(cache, p, ok).Some?
  }

  /** No hit among the first `i` elements of `s[1..]`, nor at `s[0]`, is no hit among the
      first `i + 1` elements of `s`. */
  lemma ShiftFirst<T>(s: seq<T>, i: nat, hit: T -> bool)
    requires i + 1 < |s| && !hit(s[0])
    requires forall j :: 0 <= j < i ==> !hit(s[1..][j])
    ensures s[i + 1] == s[1..][i]
    ensures forall j :: 0 <= j < i + 1 ==> !hit(s[j])
  {
    forall j | 0 < j < i + 1
      ensures !hit(s[j])
    {
      assert s[j] == s[1..][j - 1];
    }
  }

  /** The `entries` dict built from a map record's entry children (a later name wins). */
  function EntriesDict(es: seq<Entry>): (d: map<string, string>)
    ensures forall e :: e in es ==> e.name in d
    ensures forall n :: n in d ==> Entry(n, d[n]) in es
  {
    if |es| == 0 then map[]
    else
      var e := es[|es| - 1];
      var d := EntriesDict(es[..|es| - 1]);
      assert forall x :: x in es[..|es| - 1] ==> x in es;
      d[e.name := e.md5]
  }

  /** `get_entries_from_commit`: the entries of the first cached record with that commit id
      (on any branch) in the repo of a package of that name, following links. */
  function GetEntriesFromCommit(m: Manifest, name: string, commit: string, cache: seq<RepoRecord>): Outcome<Option<map<string, string>>>
  {
    Follow(m, name, {}, n => Returns(EntriesDirect(m, n, commit, cache)))
  }

  /** A map record found by commit id. */
  function ByCommit(commit: string): (Package, MapRecord) -> bool
  {
    (p: Package, rec: MapRecord) => rec.commit == commit
  }

  /** A map record on the package's `followbranch` that the selector matches. */
  function BySelector(sel: Option<string>): (Package, MapRecord) -> bool
  {
    (p: Package, rec: MapRecord) => rec.branch == p.followbranch && SelectorMatches(rec, sel)
  }

  function EntriesDirect(m: Manifest, n: string, commit: string, cache: seq<RepoRecord>): (r: Option<map<string, string>>)
    ensures r.Some? ==> exists p, repo, rec :: (p in m.packages && p.name == n && repo in cache && repo.path == p.git
      && rec in repo.maps && rec.commit == commit && r.value == EntriesDict(rec.entries))
    ensures r.None? ==> forall p, repo, rec :: (p in m.packages && p.name == n && repo in cache && repo.path == p.git
      && rec in repo.maps) ==> rec.commit != commit
    ensures var f := FirstInPackages(m.packages, n, cache, ByCommit(commit));
      (r.Some? <==> f.Some?) && (f.Some? ==> r.value == EntriesDict(f.value.1.entries))
  {
    match FirstInPackages(m.packages, n, cache, ByCommit(commit))
    case None => None
    case Some((_, rec)) => Some(EntriesDict(rec.entries))
  }

  /** The selector matches a record by commit id, by srcmd5, or by the revision as it is
      written in the cache (`str(rev)`); `None` matches nothing. */
  predicate SelectorMatches(rec: MapRecord, sel: Option<string>)
  {
    sel.Some? && (rec.commit == sel.value || rec.srcmd5 == sel.value || IntToString(rec.rev) == sel.value)
  }

  /** What `get_package_tree_from_commit_or_rev` returns. */
  datatype TreeHit = TreeHit(commit: string, rev: int, srcmd5: string, tree: seq<TreeEntry>, git: string)

  /** The direct part of the revision lookup: the first record, on the package's
      `followbranch`, that the selector matches; its tree is read from git by commit id. */
  function TreeDirect(m: Manifest, n: string, sel: Option<string>, cache: seq<RepoRecord>, store: Store): (r: Outcome<Option<TreeHit>>)
    ensures r.Returns? && r.value.Some? ==> var h := r.value.value;
      exists p, repo, rec :: p in m.packages && p.name == n && repo in cache && repo.path == p.git
        && rec in repo.maps && rec.branch == p.followbranch && SelectorMatches(rec, sel)
        && h == TreeHit(rec.commit, rec.rev, rec.srcmd5, h.tree, p.git)
    ensures r == Returns(None) <==> forall p, repo, rec :: (p in m.packages && p.name == n && repo in cache
      && repo.path == p.git && rec in repo.maps) ==> !(rec.branch == p.followbranch && SelectorMatches(rec, sel))
    ensures var f := FirstInPackages(m.packages, n, cache, BySelector(sel));
      && (r == Returns(None) <==> f.None?)
      && (f.Some? ==> var (p, rec) := f.value;
           && (r.Raises? <==> p.git !in store || FindCommit(store[p.git], rec.commit).None?)
           && (r.Raises? ==> r.exc == GitError)
           && (r.Returns? ==> r.value == Some(TreeHit(rec.commit, rec.rev, rec.srcmd5,
                                                      FindCommit(store[p.git], rec.commit).value.tree, p.git))))
  {
    match FirstInPackages(m.packages, n, cache, BySelector(sel))
    case None => Returns(None)
    case Some((p, rec)) =>
      if p.git !in store then Raises(GitError)
      else match FindCommit(store[p.git], rec.commit)
        case None => Raises(GitError)
        case Some(c) => Returns(Some(TreeHit(rec.commit, rec.rev, rec.srcmd5, c.tree, p.git)))
  }

  function GetPackageTree(m: Manifest, name: string, sel: Option<string>, cache: seq<RepoRecord>, store: Store): Outcome<Option<TreeHit>>
  {
    Follow(m, name, {}, n => TreeDirect(m, n, sel, cache, store))
  }

  /** `get_package_commit_mtime_vrev`: the committer date of the first package's `commit`
      and its `vrev`, following links. */
  function MtimeDirect(m: Manifest, n: string, store: Store): (r: Outcome<Option<(int, string)>>)
    ensures r.Returns? && r.value.Some? ==> FindPackage(m.packages, n).Some? && r.value.value.1 == FindPackage(m.packages, n).value.vrev
    ensures r == Returns(None) <==> FindPackage(m.packages, n).None?
    ensures FindPackage(m.packages, n).Some? ==> var p := FindPackage(m.packages, n).value;
      && (r.Raises? <==> p.git !in store || FindCommit(store[p.git], p.commit).None?)
      && (r.Raises? ==> r.exc == GitError)
      && (r.Returns? ==> r.value == Some((FindCommit(store[p.git], p.commit).value.date, p.vrev)))
  {
    match FindPackage(m.packages, n)
    case None => Returns(None)
    case Some(p) =>
      if p.git !in store then Raises(GitError)
      else match FindCommit(store[p.git], p.commit)
        case None => Raises(GitError)
        case Some(c) => Returns(Some((c.date, p.vrev)))
  }

  function GetCommitMtimeVrev(m: Manifest, name: string, store: Store): Outcome<Option<(int, string)>>
  {
    Follow(m, name, {}, n => MtimeDirect(m, n, store))
  }

  /** Where a name has no direct hit, each of the three lookups goes on at the `from` of the
      first link to it, and gives `None` when no link leads to it. */
  lemma GetPackageTreeFollowsLink(m: Manifest, name: string, sel: Option<string>, cache: seq<RepoRecord>, store: Store)
    ensures TreeDirect(m, name, sel, cache, store) == Returns(None) && FindLink(m.links, name).None? ==>
      GetPackageTree(m, name, sel, cache, store) == Returns(None)
    ensures (TreeDirect(m, name, sel, cache, store) == Returns(None) && FindLink(m.links, name).Some?
      && GetPackageTree(m, name, sel, cache, store) != Raises(RecursionLimit)) ==>
      GetPackageTree(m, name, sel, cache, store) == GetPackageTree(m, FindLink(m.links, name).value.from, sel, cache, store)
  {
    if TreeDirect(m, name, sel, cache, store) == Returns(None) {
      FollowLink(m, name, n => TreeDirect(m, n, sel, cache, store));
    }
  }

  lemma GetEntriesFollowsLink(m: Manifest, name: string, commit: string, cache: seq<RepoRecord>)
    ensures EntriesDirect(m, name, commit, cache).None? && FindLink(m.links, name).None? ==>
      GetEntriesFromCommit(m, name, commit, cache) == Returns(None)
    ensures (EntriesDirect(m, name, commit, cache).None? && FindLink(m.links, name).Some?
      && GetEntriesFromCommit(m, name, commit, cache) != Raises(RecursionLimit)) ==>
      GetEntriesFromCommit(m, name, commit, cache) == GetEntriesFromCommit(m, FindLink(m.links, name).value.from, commit, cache)
  {
    if EntriesDirect(m, name, commit, cache).None? {
      FollowLink(m, name, n => Returns(EntriesDirect(m, n, commit, cache)));
    }
  }

  lemma GetMtimeFollowsLink(m: Manifest, name: string, store: Store)
    ensures FindPackage(m.packages, name).None? && FindLink(m.links, name).None? ==>
      GetCommitMtimeVrev(m, name, store) == Returns(None)
    ensures (FindPackage(m.packages, name).None? && FindLink(m.links, name).Some?
      && GetCommitMtimeVrev(m, name, store) != Raises(RecursionLimit)) ==>
      GetCommitMtimeVrev(m, name, store) == GetCommitMtimeVrev(m, FindLink(m.links, name).value.from, store)
  {
    if FindPackage(m.packages, name).None? {
      FollowLink(m, name, n => MtimeDirect(m, n, store));
    }
  }

  // ---------------------------------------------------------------------------
  // get_package_index
  // ---------------------------------------------------------------------------

  /** An `entry` of the package index. */
  datatype IndexEntry = IndexEntry(name: string, size: nat, mtime: int, md5: string)

  /** The `directory` document of the package index. */
  datatype Directory = Directory(name: string, srcmd5: string, rev: string, vrev: string, entries: seq<IndexEntry>)

  /** The top-level tree entries the index lists: all but `_meta` and `_attribute`, in tree order. */
  function Listed(tree: seq<TreeEntry>): (l: seq<TreeEntry>)
    ensures forall e :: e in l <==> e in tree && !Reserved(e.name)
    ensures |l| <= |tree|
  {
    if |tree| == 0 then []
    else if Reserved(tree[0].name) then Listed(tree[1..])
    else [tree[0]] + Listed(tree[1..])
  }

  /** One `entry` per listed tree entry, in tree order, with the entry's size, the package's
      mtime and the md5 the cache records for its name; indexing the md5s fails with TypeError
      when there are none and with KeyError when the name is missing. */
  function IndexEntries(tree: seq<TreeEntry>, mtime: int, md5s: Option<map<string, string>>): (r: Outcome<seq<IndexEntry>>)
    ensures r.Returns? <==> forall e :: e in Listed(tree) ==> md5s.Some? && e.name in md5s.value
    ensures r.Raises? ==> r.exc in {TypeError, KeyError}
    ensures r.Raises? && md5s.None? ==> r.exc == TypeError
    ensures r.Returns? ==> |r.value| == |Listed(tree)| && forall i :: 0 <= i < |r.value| ==>
      md5s.Some? && Listed(tree)[i].name in md5s.value &&
      r.value[i] == IndexEntry(Listed(tree)[i].name, Size(Listed(tree)[i].obj), mtime, md5s.value[Listed(tree)[i].name])
  {
    if |tree| == 0 then Returns([])
    else
      var b := tree[0];
      var rest := IndexEntries(tree[1..], mtime, md5s);
      if Reserved(b.name) then
        assert Listed(tree) == Listed(tree[1..]);
        rest
      else if md5s.None? then Raises(TypeError)
      else if b.name !in md5s.value then Raises(KeyError)
      else match rest
        case Raises(e) => Raises(e)
        case Returns(es) =>
          var r := [IndexEntry(b.name, Size(b.obj), mtime, md5s.value[b.name])] + es;
          assert Listed(tree) == [b] + Listed(tree[1..]);
          assert forall i :: 0 < i < |r| ==> r[i] == es[i - 1];
          Returns(r)
  }

  /** `get_package_index`: resolve the selector, look the revision up, and list its tree.
      `None` where the lookup finds no revision (the TypeError of unpacking None is caught). */
  function GetPackageIndex(m: Manifest, name: string, getrev: Option<string>, cache: seq<RepoRecord>, store: Store): Outcome<Option<Directory>>
  {
    match NormalizeSelector(m, name, getrev)
    case Raises(e) => Raises(e)
    case Returns(sel) =>
      match GetPackageTree(m, name, sel, cache, store)
      case Raises(e) => if e == TypeError then Returns(None) else Raises(e)
      case Returns(None) => Returns(None)
      case Returns(Some(hit)) =>
        match GetCommitMtimeVrev(m, name, store)
        case Raises(e) => Raises(e)
        case Returns(None) => Raises(TypeError)
        case Returns(Some((mtime, vrev))) =>
          match GetEntriesFromCommit(m, name, hit.commit, cache)
          case Raises(e) => Raises(e)
          case Returns(md5s) =>
            match IndexEntries(hit.tree, mtime, md5s)
            case Raises(e) => Raises(e)
            case Returns(es) => Returns(Some(Directory(name, hit.srcmd5, IntToString(hit.rev), vrev, es)))
  }

  /** A package index names the package, carries the srcmd5 and revision of the record the
      lookup found, and lists no reserved file; an unresolved lookup gives `None`. */
  lemma GetPackageIndexSpec(m: Manifest, name: string, getrev: Option<string>, cache: seq<RepoRecord>, store: Store)
    ensures var r := GetPackageIndex(m, name, getrev, cache, store);
      r.Returns? && r.value.Some? ==>
        && NormalizeSelector(m, name, getrev).Returns?
        && var hit := GetPackageTree(m, name, NormalizeSelector(m, name, getrev).value, cache, store);
        && hit.Returns? && hit.value.Some?
        && r.value.value.name == name
        && r.value.value.srcmd5 == hit.value.value.srcmd5
        && r.value.value.rev == IntToString(hit.value.value.rev)
        && var mv := GetCommitMtimeVrev(m, name, store);
        && mv.Returns? && mv.value.Some?
        && r.value.value.vrev == mv.value.value.1
        && var md5s := GetEntriesFromCommit(m, name, hit.value.value.commit, cache);
        && md5s.Returns?
        && IndexEntries(hit.value.value.tree, mv.value.value.0, md5s.value) == Returns(r.value.value.entries)
    ensures (NormalizeSelector(m, name, getrev).Returns? &&
      GetPackageTree(m, name, NormalizeSelector(m, name, getrev).value, cache, store) == Returns(None)) ==>
      GetPackageIndex(m, name, getrev, cache, store) == Returns(None)
  {
    var sel := NormalizeSelector(m, name, getrev);
    if sel.Returns? {
      var hit := GetPackageTree(m, name, sel.value, cache, store);
      if hit.Returns? && hit.value.Some? {
        var h := hit.value.value;
        var cm := GetCommitMtimeVrev(m, name, store);
        if cm.Returns? && cm.value.Some? {
          var md5s := GetEntriesFromCommit(m, name, h.commit, cache);
          if md5s.Returns? {
            var es := IndexEntries(h.tree, cm.value.value.0, md5s.value);
            if es.Returns? {
              assert GetPackageIndex(m, name, getrev, cache, store)
                == Returns(Some(Directory(name, h.srcmd5, IntToString(h.rev), cm.value.value.1, es.value)));
            }
          }
        }
      }
    }
  }

  // ---------------------------------------------------------------------------
  // get_if_disable and get_package_file
  // ---------------------------------------------------------------------------

  /** Whether some package of that name carries a truthy `enablei586`. */
  function PackageEnables(ps: seq<Package>, name: string): (r: bool)
    ensures r <==> exists p :: p in ps && p.name == name && Truthy(p.enablei586)
  {
    if |ps| == 0 then false
    else if ps[0].name == name && Truthy(ps[0].enablei586) then true
    else
      var r := PackageEnables(ps[1..], name);
      assert r ==> exists p :: p in ps[1..] && p.name == name && Truthy(p.enablei586);
      assert !r ==> forall p :: p in ps ==> p == ps[0] || p in ps[1..];
      r
  }

  /** Whether some link to that name carries a truthy `enablei586`. */
  function LinkEnables(ls: seq<Link>, name: string): (r: bool)
    ensures r <==> exists l :: l in ls && l.to == name && Truthy(l.enablei586)
  {
    if |ls| == 0 then false
    else if ls[0].to == name && Truthy(ls[0].enablei586) then true
    else
      var r := LinkEnables(ls[1..], name);
      assert r ==> exists l :: l in ls[1..] && l.to == name && Truthy(l.enablei586);
      assert !r ==> forall l :: l in ls ==> l == ls[0] || l in ls[1..];
      r
  }

  /** `get_if_disable`: true exactly when the root has a truthy `disablei586` and neither a
      package of that name nor a link to it has a truthy `enablei586`. */
  function GetIfDisable(m: Manifest, name: string): (r: bool)
    ensures r <==> (Truthy(m.disablei586)
      && (forall p :: p in m.packages && p.name == name ==> !Truthy(p.enablei586))
      && (forall l :: l in m.links && l.to == name ==> !Truthy(l.enablei586)))
  {
    if Truthy(m.disablei586) then !PackageEnables(m.packages, name) && !LinkEnables(m.links, name)
    else false
  }

  const DisableDirective: string := "<build><disable arch=\"i586\" /></build>"

  /** The synthesised `_meta` text, up to the slot for the build directive. */
  function MetaHead(project: string, name: string): string
  {
    "<package project=\"" + project + "\" name=\"" + name + "\">\n  <title>" + name
      + "</title>\n  <description>Description\n</description>\n  <url>http://www.merproject.org</url>\n  "
  }

  const MetaTail: string := "\n</package>\n"

  function FakeMeta(project: string, name: string, disable: bool): string
  {
    MetaHead(project, name) + (if disable then DisableDirective else "") + MetaTail
  }

  /** The synthesised `_meta` carries the i586 disable directive in its build slot exactly
      when `get_if_disable` holds, and the slot is empty otherwise. */
  lemma FakeMetaSlot(project: string, name: string, disable: bool)
    ensures var t := FakeMeta(project, name, disable);
      var h := |MetaHead(project, name)|;
      && |t| == h + |MetaTail| + (if disable then |DisableDirective| else 0)
      && t[..h] == MetaHead(project, name)
      && t[|t| - |MetaTail|..] == MetaTail
      && (t[h..|t| - |MetaTail|] == DisableDirective <==> disable)
      && (!disable ==> t[h..|t| - |MetaTail|] == "")
  {
    var t := FakeMeta(project, name, disable);
    var h := |MetaHead(project, name)|;
    var slot := if disable then DisableDirective else "";
    assert t == MetaHead(project, name) + slot + MetaTail;
    assert t[h..|t| - |MetaTail|] == slot;
  }

  /** A served file: the size the code returns and the bytes. */
  datatype FileContents = FileContents(size: nat, data: string)

  /** `get_package_file`: `_meta` is synthesised from the manifest; any other file is the first
      tree entry of that name in the revision the selector resolves to, or `None`. */
  function GetPackageFile(p: Project, name: string, filename: string, getrev: Option<string>,
                          cache: seq<RepoRecord>, store: Store): (r: Outcome<Option<FileContents>>)
    ensures r.Returns? && r.value.Some? && r.value.value.size != |r.value.value.data| ==>
      filename != "_meta" && r.value.value.data == ""
    ensures filename == "_meta" && NormalizeSelector(p.packages, name, getrev).Returns? ==>
      r == Returns(Some(FileContents(|FakeMeta(p.obsprjname, name, GetIfDisable(p.packages, name))|,
                                     FakeMeta(p.obsprjname, name, GetIfDisable(p.packages, name)))))
    ensures filename != "_meta" && r.Returns? && r.value.Some? ==>
      NormalizeSelector(p.packages, name, getrev).Returns? &&
      var hit := GetPackageTree(p.packages, name, NormalizeSelector(p.packages, name, getrev).value, cache, store);
      hit.Returns? && hit.value.Some? && FindEntry(hit.value.value.tree, filename).Some?
      && r.value.value == FileContents(Size(FindEntry(hit.value.value.tree, filename).value),
                                       Cat(FindEntry(hit.value.value.tree, filename).value))
    ensures filename != "_meta" && NormalizeSelector(p.packages, name, getrev).Returns? ==>
      var hit := GetPackageTree(p.packages, name, NormalizeSelector(p.packages, name, getrev).value, cache, store);
      hit.Returns? && hit.value.Some? ==>
        r == match FindEntry(hit.value.value.tree, filename)
             case None => Returns(None)
             case Some(o) => Returns(Some(FileContents(Size(o), Cat(o))))
  {
    match NormalizeSelector(p.packages, name, getrev)
    case Raises(e) => Raises(e)
    case Returns(sel) =>
      var disable := GetIfDisable(p.packages, name);
      if filename == "_meta" then
        var text := FakeMeta(p.obsprjname, name, disable);
        Returns(Some(FileContents(|text|, text)))
      else
        match GetPackageTree(p.packages, name, sel, cache, store)
        case Raises(e) => if e == TypeError then Returns(None) else Raises(e)
        case Returns(None) => Returns(None)
        case Returns(Some(hit)) =>
          match FindEntry(hit.tree, filename)
          case None => Returns(None)
          case Some(o) => Returns(Some(FileContents(Size(o), Cat(o))))
  }

  /** An unresolved revision gives `None` for every file but the synthesised `_meta`. */
  lemma GetPackageFileUnresolved(p: Project, name: string, filename: string, getrev: Option<string>,
                                 cache: seq<RepoRecord>, store: Store)
    requires filename != "_meta"
    requires NormalizeSelector(p.packages, name, getrev).Returns?
    requires GetPackageTree(p.packages, name, NormalizeSelector(p.packages, name, getrev).value, cache, store) == Returns(None)
    ensures GetPackageFile(p, name, filename, getrev, cache, store) == Returns(None)
  {
  }
}
