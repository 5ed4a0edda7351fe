/** The per-project documents the resolver reads from the project's git tree: the package
    manifest `packages.xml`, the project `_meta`, and the `mappings.xml` project table. */
module Manifest {
  import opened Wrappers

  /** A `package` element of `packages.xml`. `enablei586` is read with `attrib.get`, so it may
      be absent. */
  datatype Package = Package(name: string, commit: string, git: string, followbranch: string,
                             vrev: string, enablei586: Option<string>)

  /** A `link` element: package `to` is served from package `from`. */
  datatype Link = Link(from: string, to: string, enablei586: Option<string>)

  /** The root of `packages.xml`: its optional `disablei586` attribute and its `package` and
      `link` descendants, each in document order. */
  datatype Manifest = Manifest(disablei586: Option<string>, packages: seq<Package>, links: seq<Link>)

  /** A `mapping` element of `mappings.xml`: project name -> path of its git repository, and
      the optional `binaries` attribute: where its build results live. */
  datatype Mapping = Mapping(project: string, path: string, binaries: Option<string>)

  /** Python truthiness of `attrib.get(...)`: present and not the empty string. */
  predicate Truthy(a: Option<string>)
  {
    a.Some? && a.value != ""
  }

  // ---------------------------------------------------------------------------
  // The project `_meta` document and its renaming
  // ---------------------------------------------------------------------------

  /** An XML element: tag, attributes and children. */
  datatype Element = Element(tag: string, attrs: map<string, string>, children: seq<Element>)

  /** `for x in meta.iter("project"): x.set("name", obsname)`: every element tagged `project`,
      the root included, at any depth, gets its `name` attribute set. */
  function RenameProjects(e: Element, obsname: string): Element
  {
    var cs := seq(|e.children|, i requires 0 <= i < |e.children| => RenameProjects(e.children[i], obsname));
    if e.tag == "project" then Element(e.tag, e.attrs["name" := obsname], cs)
    else Element(e.tag, e.attrs, cs)
  }

  /** Every `project` element in the tree carries `name == obsname`. */
  predicate AllProjectsNamed(e: Element, obsname: string)
  {
    (e.tag == "project" ==> "name" in e.attrs && e.attrs["name"] == obsname)
    && forall i :: 0 <= i < |e.children| ==> AllProjectsNamed(e.children[i], obsname)
  }

  /** Two trees that differ at most in the `name` attribute of `project` elements. */
  predicate SameUpToProjectNames(a: Element, b: Element)
  {
    a.tag == b.tag
    && |a.children| == |b.children|
    && (a.tag == "project" ==> a.attrs - {"name"} == b.attrs - {"name"})
    && (a.tag != "project" ==> a.attrs == b.attrs)
    && forall i :: 0 <= i < |a.children| ==> SameUpToProjectNames(a.children[i], b.children[i])
  }

  /** After renaming, every `project` element is named after the requested identifier, and
      nothing else in the document changed. */
  lemma {:induction false} RenameProjectsNamesAll(e: Element, obsname: string)
    ensures AllProjectsNamed(RenameProjects(e, obsname), obsname)
    ensures SameUpToProjectNames(e, RenameProjects(e, obsname))
  {
    var r := RenameProjects(e, obsname);
    forall i | 0 <= i < |e.children|
      ensures AllProjectsNamed(r.children[i], obsname)
      ensures SameUpToProjectNames(e.children[i], r.children[i])
    {
      RenameProjectsNamesAll(e.children[i], obsname);
    }
  }

  /** Renaming twice is renaming once. */
  lemma {:induction false} RenameProjectsIdempotent(e: Element, obsname: string)
    ensures RenameProjects(RenameProjects(e, obsname), obsname) == RenameProjects(e, obsname)
  {
    var r := RenameProjects(e, obsname);
    forall i | 0 <= i < |e.children|
      ensures RenameProjects(r.children[i], obsname) == r.children[i]
    {
      RenameProjectsIdempotent(e.children[i], obsname);
    }
    if e.tag == "project" {
      assert r.attrs["name" := obsname] == r.attrs;
    }
  }
}
