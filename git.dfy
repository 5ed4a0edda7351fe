/** The repository reader: what the modelled code reads from git through GitPython and
    `git cat-file`. Only the data is modelled; opening repositories and running git is not. */
module Git {
  import opened Wrappers
  import opened Text

  /** A git object a tree entry names: a blob with its bytes, or a subtree with the size of
      its tree object and its own entries. */
  datatype Object = BlobObject(data: string) | TreeObject(size: nat, entries: seq<TreeEntry>)

  /** One entry of a tree as `for entry in tree` yields it: the top level only, subtrees
      included. */
  datatype TreeEntry = TreeEntry(name: string, obj: Object)

  /** A commit: its hex id, its committer date and the top level of its tree. */
  datatype Commit = Commit(id: string, date: int, tree: seq<TreeEntry>)

  /** A branch head and the commits `repo.iter_commits(branch)` yields, tip first. */
  datatype Branch = Branch(name: string, commits: seq<Commit>)

  /** A repository: its heads, in the order `repo.heads` lists them, and the commits its
      object database holds that no head reaches (left by a force-push, or reachable only
      from a tag). */
  datatype Repository = Repository(heads: seq<Branch>, unreached: seq<Commit>)

  /** The repositories on disk, by path. */
  type Store = map<string, Repository>

  /** `repo.commit(id)`: a commit with that id anywhere in the object database. */
  function FindCommit(repo: Repository, id: string): (r: Option<Commit>)
    ensures r.Some? ==> r.value.id == id
    ensures r.None? ==> (forall b, c :: b in repo.heads && c in b.commits ==> c.id != id)
                        && forall c :: c in repo.unreached ==> c.id != id
  {
    match FindCommitIn(repo.heads, id)
    case Some(c) => Some(c)
    case None => FindCommitOnBranch(repo.unreached, id)
  }

  function FindCommitIn(heads: seq<Branch>, id: string): (r: Option<Commit>)
    ensures r.Some? ==> r.value.id == id
    ensures r.None? ==> forall b, c :: b in heads && c in b.commits ==> c.id != id
  {
    if |heads| == 0 then None
    else
      match FindCommitOnBranch(heads[0].commits, id)
      case Some(c) => Some(c)
      case None => FindCommitIn(heads[1..], id)
  }

  function FindCommitOnBranch(commits: seq<Commit>, id: string): (r: Option<Commit>)
    ensures r.Some? ==> r.value.id == id && r.value in commits
    ensures r.None? ==> forall c :: c in commits ==> c.id != id
  {
    if |commits| == 0 then None
    else if commits[0].id == id then Some(commits[0])
    else FindCommitOnBranch(commits[1..], id)
  }

  /** `repo.tree(branch)`: the tree of the branch's tip commit. */
  function BranchTree(repo: Repository, branch: string): (r: Outcome<seq<TreeEntry>>)
    ensures r.Returns? <==> FindHead(repo.heads, branch).Some? && |FindHead(repo.heads, branch).value.commits| > 0
    ensures r.Returns? ==> r.value == FindHead(repo.heads, branch).value.commits[0].tree
  {
    var hs := FindHead(repo.heads, branch);
    if hs.None? || |hs.value.commits| == 0 then Raises(GitError)
    else Returns(hs.value.commits[0].tree)
  }

  function FindHead(heads: seq<Branch>, name: string): (r: Option<Branch>)
    ensures r.Some? ==> r.value in heads && r.value.name == name
    ensures r.None? ==> forall b :: b in heads ==> b.name != name
  {
    if |heads| == 0 then None
    else if heads[0].name == name then Some(heads[0])
    else FindHead(heads[1..], name)
  }

  /** What `git cat-file blob` writes for an entry: a blob's bytes, and nothing for a subtree
      (git refuses to print a tree as a blob). */
  function Cat(o: Object): string
  {
    match o
    case BlobObject(data) => data
    case TreeObject(_, _) => ""
  }

  /** `entry.size`: a blob's length, or the size of the subtree's object. */
  function Size(o: Object): nat
  {
    match o
    case BlobObject(data) => |data|
    case TreeObject(size, _) => size
  }

  /** The first top-level entry of that name: what `for entry in tree: if entry.name == name`
      finds. */
  function FindEntry(tree: seq<TreeEntry>, name: string): (r: Option<Object>)
    ensures r.Some? ==>
      exists i :: 0 <= i < |tree| && tree[i] == TreeEntry(name, r.value) && forall j :: 0 <= j < i ==> tree[j].name != name
    ensures r.None? ==> forall e :: e in tree ==> e.name != name
  {
    if |tree| == 0 then None
    else if tree[0].name == name then Some(tree[0].obj)
    else
      var r := FindEntry(tree[1..], name);
      if r.Some? then
        var i :| 0 < i + 1 <= |tree[1..]| && tree[1..][i] == TreeEntry(name, r.value)
          && forall j :: 0 <= j < i ==> tree[1..][j].name != name;
        assert tree[i + 1] == TreeEntry(name, r.value);
        assert forall j :: 0 <= j < i + 1 ==> tree[j].name != name by {
          forall j | 0 <= j < i + 1 ensures tree[j].name != name {
            if j > 0 {
              assert tree[j] == tree[1..][j - 1];
            }
          }
        }
        r
      else
        assert forall e :: e in tree ==> e == tree[0] || e in tree[1..];
        r
  }

  /** `tree[path]`: GitPython splits the path at '/' and looks each component up in the tree
      reached so far; a missing component, or a blob before the last one, is KeyError (`None`
      here). */
  function TreeLookup(tree: seq<TreeEntry>, path: string): Option<Object>
  {
    WalkPath(tree, Split(path, '/'))
  }

  function WalkPath(tree: seq<TreeEntry>, components: seq<string>): Option<Object>
    requires |components| >= 1
    decreases |components|
  {
    match FindEntry(tree, components[0])
    case None => None
    case Some(o) =>
      if |components| == 1 then Some(o)
      else if o.TreeObject? then WalkPath(o.entries, components[1..])
      else None
  }

  /** Nothing is found in an empty tree. */
  lemma TreeLookupEmpty(path: string)
    ensures TreeLookup([], path).None?
  {
  }

  /** A path without '/' names the first top-level entry of that name. */
  lemma TreeLookupTopLevel(tree: seq<TreeEntry>, name: string)
    requires '/' !in name
    ensures TreeLookup(tree, name) == FindEntry(tree, name)
  {
    SplitNoSeparator(name, '/');
  }

  /** A path `dir/rest` descends into the first top-level entry named `dir` when it is a
      subtree, and is missing otherwise. */
  lemma TreeLookupDescends(tree: seq<TreeEntry>, dir: string, rest: string)
    requires '/' !in dir
    ensures TreeLookup(tree, dir + "/" + rest) ==
      match FindEntry(tree, dir)
      case Some(TreeObject(_, entries)) => TreeLookup(entries, rest)
      case _ => None
  {
    SplitPrefix(dir, rest, '/');
    assert dir + "/" + rest == dir + ['/'] + rest;
  }
}
