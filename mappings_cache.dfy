/** The mapping cache (`packages-git/mappingscache.xml`) and what the incremental indexer
    `generate_mappings(cachefile)` appends to it, as functions of the repositories it walks.
    The imperative indexer in module Indexer is proved to compute exactly `Index` below. */
module MappingsCache {
  import opened Wrappers
  import opened Text
  import opened Git

  // ---------------------------------------------------------------------------
  // The cache document: maps > repo > map > entry
  // ---------------------------------------------------------------------------

  /** An `entry` element: a top-level tree entry's name and the md5 hex digest of what
      `git cat-file blob` writes for it. */
  datatype Entry = Entry(name: string, md5: string)

  /** A `map` element: one commit of one branch, its revision number, its content
      fingerprint `srcmd5` and one entry per indexed top-level name. */
  datatype MapRecord = MapRecord(branch: string, commit: string, srcmd5: string, rev: int, entries: seq<Entry>)

  /** A `repo` element: the repository path and its map records in document order. */
  datatype RepoRecord = RepoRecord(path: string, maps: seq<MapRecord>)

  /** A directory matched by the indexer's glob of `packages-git` (two levels deep), whether it is a directory, and the
      repository found there. */
  datatype RepoDir = RepoDir(path: string, isDir: bool, repo: Repository)

  /** Files the indexer never hashes. */
  predicate Reserved(name: string)
  {
    name == "_meta" || name == "_attribute"
  }

  // ---------------------------------------------------------------------------
  // One commit: file hashes and the content fingerprint
  // ---------------------------------------------------------------------------

  /** What a tree holds for the indexer: non-reserved top-level name -> what `git cat-file
      blob` writes for the entry, a blob's bytes or nothing for a subtree (a later entry of the
      same name wins, as in a Python dict). */
  function Contents(tree: seq<TreeEntry>): map<string, string>
  {
    if |tree| == 0 then map[]
    else
      var b := tree[|tree| - 1];
      var m := Contents(tree[..|tree| - 1]);
      if Reserved(b.name) then m else m[b.name := Cat(b.obj)]
  }

  /** The `entries` dict the indexer fills: non-reserved top-level name -> md5 of that
      output. */
  function EntryMap(tree: seq<TreeEntry>, md5: string -> string): map<string, string>
  {
    if |tree| == 0 then map[]
    else
      var b := tree[|tree| - 1];
      var m := EntryMap(tree[..|tree| - 1], md5);
      if Reserved(b.name) then m else m[b.name := md5(Cat(b.obj))]
  }

  /** The keys of that dict, in the order they were first inserted. */
  function EntryNames(tree: seq<TreeEntry>): seq<string>
  {
    if |tree| == 0 then []
    else
      var b := tree[|tree| - 1];
      var ns := EntryNames(tree[..|tree| - 1]);
      if Reserved(b.name) || b.name in ns then ns else ns + [b.name]
  }

  /** `sorted(entries.keys())`. */
  function SortedNames(tree: seq<TreeEntry>): seq<string>
  {
    Sort(EntryNames(tree))
  }

  /** The entries of the given names, in that order, with their hashes from `m`. */
  function EntriesFor(names: seq<string>, m: map<string, string>): (es: seq<Entry>)
    requires forall n :: n in names ==> n in m
    ensures |es| == |names|
    ensures forall i :: 0 <= i < |es| ==> es[i] == Entry(names[i], m[names[i]])
  {
    if |names| == 0 then []
    else EntriesFor(names[..|names| - 1], m) + [Entry(names[|names| - 1], m[names[|names| - 1]])]
  }

  /** The `entry` children of the commit's `map` element. */
  function Entries(tree: seq<TreeEntry>, md5: string -> string): seq<Entry>
  {
    EntryNamesInMap(tree, md5);
    EntriesFor(SortedNames(tree), EntryMap(tree, md5))
  }

  /** The text the fingerprint is the md5 of: `"<md5>  <name>\n"` per entry, in order. */
  function FingerprintText(es: seq<Entry>): string
  {
    if |es| == 0 then ""
    else FingerprintText(es[..|es| - 1]) + FingerprintLine(es[|es| - 1])
  }

  function FingerprintLine(e: Entry): string
  {
    e.md5 + "  " + e.name + "\n"
  }

  /** The content fingerprint `srcmd5` of a tree. */
  function SrcMd5(tree: seq<TreeEntry>, md5: string -> string): string
  {
    md5(FingerprintText(Entries(tree, md5)))
  }

  /** The `map` element the indexer writes for a commit of a branch with the given revision. */
  function Record(branch: string, c: Commit, rev: int, md5: string -> string): MapRecord
  {
    MapRecord(branch, c.id, SrcMd5(c.tree, md5), rev, Entries(c.tree, md5))
  }

  // ---------------------------------------------------------------------------
  // Lemmas about one commit
  // ---------------------------------------------------------------------------

  lemma {:induction false} EntryNamesInMap(tree: seq<TreeEntry>, md5: string -> string)
    ensures forall n :: n in EntryNames(tree) <==> n in EntryMap(tree, md5)
    ensures forall n :: n in SortedNames(tree) <==> n in EntryMap(tree, md5)
    ensures Distinct(EntryNames(tree))
  {
    EntryNamesKeys(tree, md5);
    SortProperties(EntryNames(tree));
    forall n ensures n in SortedNames(tree) <==> n in EntryNames(tree) {
      assert n in SortedNames(tree) <==> n in multiset(SortedNames(tree));
      assert n in EntryNames(tree) <==> n in multiset(EntryNames(tree));
    }
  }

  lemma {:induction false} EntryNamesKeys(tree: seq<TreeEntry>, md5: string -> string)
    ensures forall n :: n in EntryNames(tree) <==> n in EntryMap(tree, md5)
    ensures Distinct(EntryNames(tree))
  {
    if |tree| > 0 {
      EntryNamesKeys(tree[..|tree| - 1], md5);
    }
  }

  /** The hashed dict is the md5 of the contents, name by name. */
  lemma {:induction false} EntryMapIsHashedContents(tree: seq<TreeEntry>, md5: string -> string)
    ensures EntryMap(tree, md5).Keys == Contents(tree).Keys
    ensures forall n :: n in Contents(tree) ==> EntryMap(tree, md5)[n] == md5(Contents(tree)[n])
  {
    if |tree| > 0 {
      EntryMapIsHashedContents(tree[..|tree| - 1], md5);
    }
  }

  /** Each map record holds exactly one entry per non-reserved top-level name of the tree, in
      ascending name order, whose md5 is the md5 of what `git cat-file blob` writes for it;
      `_meta` and `_attribute` never appear. */
  lemma EntriesShape(tree: seq<TreeEntry>, md5: string -> string)
    ensures forall i, j :: 0 <= i < j < |Entries(tree, md5)| ==>
              Less(Entries(tree, md5)[i].name, Entries(tree, md5)[j].name)
    ensures forall e :: e in Entries(tree, md5) ==> !Reserved(e.name)
    ensures forall e :: e in Entries(tree, md5) ==>
              e.name in Contents(tree) && e.md5 == md5(Contents(tree)[e.name])
    ensures forall n :: n in Contents(tree) ==> exists e :: e in Entries(tree, md5) && e.name == n
  {
    EntriesAscending(tree, md5);
    EntriesHashed(tree, md5);
    EntriesCover(tree, md5);
  }

  lemma EntriesAscending(tree: seq<TreeEntry>, md5: string -> string)
    ensures forall i, j :: 0 <= i < j < |Entries(tree, md5)| ==>
              Less(Entries(tree, md5)[i].name, Entries(tree, md5)[j].name)
  {
    EntryNamesInMap(tree, md5);
    SortProperties(EntryNames(tree));
  }

  lemma EntriesHashed(tree: seq<TreeEntry>, md5: string -> string)
    ensures forall e :: e in Entries(tree, md5) ==> !Reserved(e.name)
    ensures forall e :: e in Entries(tree, md5) ==>
              e.name in Contents(tree) && e.md5 == md5(Contents(tree)[e.name])
  {
    var es := Entries(tree, md5);
    EntryNamesInMap(tree, md5);
    EntryMapIsHashedContents(tree, md5);
    ContentsNotReserved(tree);
    forall e | e in es
      ensures e.name in Contents(tree) && e.md5 == md5(Contents(tree)[e.name]) && !Reserved(e.name)
    {
      var i :| 0 <= i < |es| && es[i] == e;
    }
  }

  lemma EntriesCover(tree: seq<TreeEntry>, md5: string -> string)
    ensures forall n :: n in Contents(tree) ==> exists e :: e in Entries(tree, md5) && e.name == n
  {
    var es := Entries(tree, md5);
    var ns := SortedNames(tree);
    EntryNamesInMap(tree, md5);
    EntryMapIsHashedContents(tree, md5);
    forall n | n in Contents(tree) ensures exists e :: e in es && e.name == n {
      var i :| 0 <= i < |ns| && ns[i] == n;
      assert es[i] in es && es[i].name == n;
    }
  }

  lemma {:induction false} ContentsNotReserved(tree: seq<TreeEntry>)
    ensures forall n :: n in Contents(tree) ==> !Reserved(n)
  {
    if |tree| > 0 {
      ContentsNotReserved(tree[..|tree| - 1]);
    }
  }

  /** The fingerprint depends on the name -> content map alone: two trees with the same
      `Contents` get the same entries and the same srcmd5, whatever their commit ids, their
      entry order or their reserved entries. */
  lemma FingerprintDependsOnContentsOnly(t1: seq<TreeEntry>, t2: seq<TreeEntry>, md5: string -> string)
    requires Contents(t1) == Contents(t2)
    ensures Entries(t1, md5) == Entries(t2, md5)
    ensures SrcMd5(t1, md5) == SrcMd5(t2, md5)
  {
    EntryMapIsHashedContents(t1, md5);
    EntryMapIsHashedContents(t2, md5);
    assert EntryMap(t1, md5) == EntryMap(t2, md5);
    EntryNamesInMap(t1, md5);
    EntryNamesInMap(t2, md5);
    SortSameElements(EntryNames(t1), EntryNames(t2));
  }

  /** The entries record the name -> content map faithfully: where md5 has no collisions on
      the cat-file outputs, equal entries mean equal contents. */
  lemma EntriesDetermineContents(t1: seq<TreeEntry>, t2: seq<TreeEntry>, md5: string -> string)
    requires forall x, y :: md5(x) == md5(y) ==> x == y
    requires Entries(t1, md5) == Entries(t2, md5)
    ensures Contents(t1) == Contents(t2)
  {
    EntriesHashed(t1, md5);
    EntriesHashed(t2, md5);
    EntriesCover(t1, md5);
    EntriesCover(t2, md5);
    var es := Entries(t1, md5);
    forall n | n in Contents(t1) ensures n in Contents(t2) && Contents(t1)[n] == Contents(t2)[n] {
      var e :| e in es && e.name == n;
    }
    forall n | n in Contents(t2) ensures n in Contents(t1) {
      var e :| e in es && e.name == n;
    }
  }

  // ---------------------------------------------------------------------------
  // The incremental walk over one branch
  // ---------------------------------------------------------------------------

  /** `len(repo.xpath("./map[@branch=...]"))`: the map records already cached for a branch. */
  function CountBranch(maps: seq<MapRecord>, branch: string): nat
  {
    if |maps| == 0 then 0
    else CountBranch(maps[..|maps| - 1], branch) + (if maps[|maps| - 1].branch == branch then 1 else 0)
  }

  /** How many commits the walk from the tip records, for `toprev` commits of which `seenrevs`
      are cached: none when they are equal; otherwise it stops once `toprev - rev == seenrevs`,
      a test that never fires when `seenrevs > toprev`, so then every commit is recorded again. */
  function WalkLength(toprev: nat, seenrevs: nat): nat
  {
    if seenrevs == toprev then 0
    else if seenrevs < toprev then toprev - seenrevs
    else toprev
  }

  /** The records of the first `n` commits from the tip; the k-th (from 0) gets `toprev - k`. */
  function Walk(branch: string, commits: seq<Commit>, n: nat, md5: string -> string): (w: seq<MapRecord>)
    requires n <= |commits|
    ensures |w| == n
  {
    if n == 0 then []
    else Walk(branch, commits, n - 1, md5) + [Record(branch, commits[n - 1], |commits| - (n - 1), md5)]
  }

  /** One branch of the indexer's loop: append what the walk records. */
  function IndexBranch(r: RepoRecord, b: Branch, md5: string -> string): RepoRecord
  {
    var n := WalkLength(|b.commits|, CountBranch(r.maps, b.name));
    r.(maps := r.maps + Walk(b.name, b.commits, n, md5))
  }

  /** All branches of a repository, in `repo.heads` order. */
  function IndexBranches(r: RepoRecord, heads: seq<Branch>, md5: string -> string): RepoRecord
  {
    if |heads| == 0 then r
    else IndexBranch(IndexBranches(r, heads[..|heads| - 1], md5), heads[|heads| - 1], md5)
  }

  /** `indexdoc.xpath("//repo[@path=...]")[0]`: the first repo element with that path. */
  function FindRepo(repos: seq<RepoRecord>, path: string): (r: Option<nat>)
    ensures r.Some? ==> r.value < |repos| && repos[r.value].path == path
    ensures r.Some? ==> forall j :: 0 <= j < r.value ==> repos[j].path != path
    ensures r.None? ==> forall j :: 0 <= j < |repos| ==> repos[j].path != path
  {
    if |repos| == 0 then None
    else if repos[0].path == path then Some(0)
    else match FindRepo(repos[1..], path)
      case Some(i) => Some(i + 1)
      case None => None
  }

  /** One globbed directory: skipped unless it is a directory; otherwise its cached repo
      element is extended, or a new one is appended when none has that path. */
  function IndexDir(repos: seq<RepoRecord>, d: RepoDir, md5: string -> string): seq<RepoRecord>
  {
    if !d.isDir then repos
    else match FindRepo(repos, d.path)
      case Some(i) => repos[i := IndexBranches(repos[i], d.repo.heads, md5)]
      case None => repos + [IndexBranches(RepoRecord(d.path, []), d.repo.heads, md5)]
  }

  /** The cache after `generate_mappings(cachefile)` has walked the directories in glob order. */
  function Index(repos: seq<RepoRecord>, dirs: seq<RepoDir>, md5: string -> string): seq<RepoRecord>
  {
    if |dirs| == 0 then repos
    else IndexDir(Index(repos, dirs[..|dirs| - 1], md5), dirs[|dirs| - 1], md5)
  }

  /** The full build of the shadowed `generate_mappings(repos)`: one repo element per
      repository and, per branch, every commit from the tip with revisions `toprev` down to 1. */
  function FullBuild(dirs: seq<RepoDir>, md5: string -> string): seq<RepoRecord>
  {
    if |dirs| == 0 then []
    else
      var d := dirs[|dirs| - 1];
      FullBuild(dirs[..|dirs| - 1], md5) + [RepoRecord(d.path, FullMaps(d.repo.heads, md5))]
  }

  function FullMaps(heads: seq<Branch>, md5: string -> string): seq<MapRecord>
  {
    if |heads| == 0 then []
    else
      var b := heads[|heads| - 1];
      FullMaps(heads[..|heads| - 1], md5) + Walk(b.name, b.commits, |b.commits|, md5)
  }

  // ---------------------------------------------------------------------------
  // Lemmas about the walk
  // ---------------------------------------------------------------------------

  lemma {:induction false} WalkAt(branch: string, commits: seq<Commit>, n: nat, md5: string -> string, k: nat)
    requires n <= |commits| && k < n
    ensures Walk(branch, commits, n, md5)[k] == Record(branch, commits[k], |commits| - k, md5)
  {
    if k < n - 1 {
      WalkAt(branch, commits, n - 1, md5, k);
    }
  }

  lemma {:induction false} CountAppend(a: seq<MapRecord>, b: seq<MapRecord>, branch: string)
    ensures CountBranch(a + b, branch) == CountBranch(a, branch) + CountBranch(b, branch)
  {
    if |b| > 0 {
      assert (a + b)[..|a + b| - 1] == a + b[..|b| - 1];
      CountAppend(a, b[..|b| - 1], branch);
    } else {
      assert a + b == a;
    }
  }

  /** A walk of branch `name` adds `n` records of that branch and none of any other. */
  lemma {:induction false} CountWalk(name: string, commits: seq<Commit>, n: nat, md5: string -> string, branch: string)
    requires n <= |commits|
    ensures CountBranch(Walk(name, commits, n, md5), branch) == if branch == name then n else 0
  {
    if n > 0 {
      var w := Walk(name, commits, n, md5);
      assert w[..|w| - 1] == Walk(name, commits, n - 1, md5);
      CountWalk(name, commits, n - 1, md5, branch);
    }
  }

  /** What one branch appends: the walk from the tip, the k-th commit numbered `toprev - k`.
      Nothing is appended when the cache already holds `toprev` records; when it holds fewer,
      exactly `toprev - seenrevs` records are appended, numbered `toprev` down to `seenrevs + 1`
      (down to 1 from an empty cache); when it holds more, the whole history is appended again. */
  lemma BranchAppends(r: RepoRecord, b: Branch, md5: string -> string)
    ensures IndexBranch(r, b, md5).path == r.path
    ensures r.maps <= IndexBranch(r, b, md5).maps
    ensures CountBranch(r.maps, b.name) == |b.commits| ==> IndexBranch(r, b, md5) == r
    ensures CountBranch(r.maps, b.name) < |b.commits| ==>
      |IndexBranch(r, b, md5).maps| == |r.maps| + |b.commits| - CountBranch(r.maps, b.name)
    ensures CountBranch(r.maps, b.name) > |b.commits| ==>
      |IndexBranch(r, b, md5).maps| == |r.maps| + |b.commits|
    ensures forall k :: |r.maps| <= k < |IndexBranch(r, b, md5).maps| ==>
      IndexBranch(r, b, md5).maps[k] == Record(b.name, b.commits[k - |r.maps|], |b.commits| - (k - |r.maps|), md5)
    ensures CountBranch(r.maps, b.name) < |b.commits| ==>
      IndexBranch(r, b, md5).maps[|r.maps|].rev == |b.commits|
      && IndexBranch(r, b, md5).maps[|IndexBranch(r, b, md5).maps| - 1].rev == CountBranch(r.maps, b.name) + 1
    ensures CountBranch(IndexBranch(r, b, md5).maps, b.name)
      == CountBranch(r.maps, b.name) + |IndexBranch(r, b, md5).maps| - |r.maps|
  {
    BranchCounts(r, b, md5);
    BranchRecords(r, b, md5);
  }

  lemma BranchCounts(r: RepoRecord, b: Branch, md5: string -> string)
    ensures IndexBranch(r, b, md5).path == r.path
    ensures r.maps <= IndexBranch(r, b, md5).maps
    ensures CountBranch(r.maps, b.name) == |b.commits| ==> IndexBranch(r, b, md5) == r
    ensures CountBranch(r.maps, b.name) < |b.commits| ==>
      |IndexBranch(r, b, md5).maps| == |r.maps| + |b.commits| - CountBranch(r.maps, b.name)
    ensures CountBranch(r.maps, b.name) > |b.commits| ==>
      |IndexBranch(r, b, md5).maps| == |r.maps| + |b.commits|
    ensures CountBranch(r.maps, b.name) < |b.commits| ==>
      IndexBranch(r, b, md5).maps[|r.maps|].rev == |b.commits|
      && IndexBranch(r, b, md5).maps[|IndexBranch(r, b, md5).maps| - 1].rev == CountBranch(r.maps, b.name) + 1
    ensures CountBranch(IndexBranch(r, b, md5).maps, b.name)
      == CountBranch(r.maps, b.name) + |IndexBranch(r, b, md5).maps| - |r.maps|
  {
    var n := WalkLength(|b.commits|, CountBranch(r.maps, b.name));
    var w := Walk(b.name, b.commits, n, md5);
    BranchShape(r, b, md5);
    assert IndexBranch(r, b, md5).maps[..|r.maps|] == r.maps;
    if CountBranch(r.maps, b.name) < |b.commits| {
      BranchRevs(r, b, md5);
    }
    CountAppend(r.maps, w, b.name);
    CountWalk(b.name, b.commits, n, md5, b.name);
  }

  lemma BranchRecords(r: RepoRecord, b: Branch, md5: string -> string)
    ensures forall k :: |r.maps| <= k < |IndexBranch(r, b, md5).maps| ==>
      IndexBranch(r, b, md5).maps[k] == Record(b.name, b.commits[k - |r.maps|], |b.commits| - (k - |r.maps|), md5)
  {
    var n := WalkLength(|b.commits|, CountBranch(r.maps, b.name));
    AppendedWalk(r.maps, b.name, b.commits, n, md5, IndexBranch(r, b, md5).maps);
  }

  lemma BranchShape(r: RepoRecord, b: Branch, md5: string -> string)
    ensures var n := WalkLength(|b.commits|, CountBranch(r.maps, b.name));
      && n <= |b.commits|
      && IndexBranch(r, b, md5) == r.(maps := r.maps + Walk(b.name, b.commits, n, md5))
      && (CountBranch(r.maps, b.name) == |b.commits| ==> IndexBranch(r, b, md5) == r)
  {
    var n := WalkLength(|b.commits|, CountBranch(r.maps, b.name));
    if n == 0 {
      assert r.maps + Walk(b.name, b.commits, n, md5) == r.maps;
    }
  }

  /** The first record appended carries `toprev`, the last `seenrevs + 1`. */
  lemma BranchRevs(r: RepoRecord, b: Branch, md5: string -> string)
    requires CountBranch(r.maps, b.name) < |b.commits|
    ensures var after := IndexBranch(r, b, md5).maps;
      |after| > |r.maps| && after[|r.maps|].rev == |b.commits| && after[|after| - 1].rev == CountBranch(r.maps, b.name) + 1
  {
    var seen := CountBranch(r.maps, b.name);
    var n := |b.commits| - seen;
    var w := Walk(b.name, b.commits, n, md5);
    BranchShape(r, b, md5);
    WalkAt(b.name, b.commits, n, md5, 0);
    WalkAt(b.name, b.commits, n, md5, n - 1);
    ConcatAt(r.maps, w, 0);
    ConcatAt(r.maps, w, n - 1);
  }

  lemma ConcatAt(a: seq<MapRecord>, w: seq<MapRecord>, k: nat)
    requires k < |w|
    ensures (a + w)[|a| + k] == w[k] && |a + w| == |a| + |w|
  {
  }

  /** The records after a prefix `pre` are the walk's, in order. */
  lemma AppendedWalk(pre: seq<MapRecord>, name: string, commits: seq<Commit>, n: nat, md5: string -> string, all: seq<MapRecord>)
    requires n <= |commits| && all == pre + Walk(name, commits, n, md5)
    ensures pre <= all
    ensures forall k :: |pre| <= k < |all| ==> all[k] == Record(name, commits[k - |pre|], |commits| - (k - |pre|), md5)
  {
    assert all[..|pre|] == pre;
    forall k | |pre| <= k < |all|
      ensures all[k] == Record(name, commits[k - |pre|], |commits| - (k - |pre|), md5)
    {
      WalkAt(name, commits, n, md5, k - |pre|);
    }
  }

  /** Branches of other names leave a branch's count alone. */
  lemma {:induction false} IndexBranchesOtherCount(r: RepoRecord, heads: seq<Branch>, md5: string -> string, name: string)
    requires forall b :: b in heads ==> b.name != name
    ensures CountBranch(IndexBranches(r, heads, md5).maps, name) == CountBranch(r.maps, name)
    ensures IndexBranches(r, heads, md5).path == r.path
    ensures r.maps <= IndexBranches(r, heads, md5).maps
  {
    if |heads| > 0 {
      var r' := IndexBranches(r, heads[..|heads| - 1], md5);
      var b := heads[|heads| - 1];
      IndexBranchesOtherCount(r, heads[..|heads| - 1], md5, name);
      var w := Walk(b.name, b.commits, WalkLength(|b.commits|, CountBranch(r'.maps, b.name)), md5);
      CountAppend(r'.maps, w, name);
      CountWalk(b.name, b.commits, |w|, md5, name);
    }
  }

  /** Indexing the branches of a repository only appends to its records. */
  lemma {:induction false} IndexBranchesExtends(r: RepoRecord, heads: seq<Branch>, md5: string -> string)
    ensures IndexBranches(r, heads, md5).path == r.path
    ensures r.maps <= IndexBranches(r, heads, md5).maps
  {
    if |heads| > 0 {
      IndexBranchesExtends(r, heads[..|heads| - 1], md5);
    }
  }

  /** The cache is append-only: every repo element keeps its place and path and its map
      records are a prefix of the new ones; a repo element is created only for a globbed
      directory whose path no earlier element has. */
  lemma {:induction false} IndexAppendOnly(repos: seq<RepoRecord>, dirs: seq<RepoDir>, md5: string -> string)
    ensures var after := Index(repos, dirs, md5);
      && |repos| <= |after|
      && (forall i :: 0 <= i < |repos| ==> after[i].path == repos[i].path && repos[i].maps <= after[i].maps)
      && (forall j :: |repos| <= j < |after| ==> exists d :: d in dirs && d.isDir && d.path == after[j].path)
      && (forall i, j :: 0 <= i < j < |after| && |repos| <= j ==> after[i].path != after[j].path)
  {
    if |dirs| > 0 {
      var pre := dirs[..|dirs| - 1];
      var d := dirs[|dirs| - 1];
      var x := Index(repos, pre, md5);
      var after := IndexDir(x, d, md5);
      IndexAppendOnly(repos, pre, md5);
      IndexDirAppendOnly(x, d, md5);
      forall i | 0 <= i < |repos| ensures after[i].path == repos[i].path && repos[i].maps <= after[i].maps {
        PrefixTrans(repos[i].maps, x[i].maps, after[i].maps);
      }
      forall i, j | 0 <= i < j < |after| && |repos| <= j ensures after[i].path != after[j].path {
        if j < |x| {
          assert x[i].path != x[j].path;
        }
      }
      forall j | |repos| <= j < |after| ensures exists e :: e in dirs && e.isDir && e.path == after[j].path {
        if j < |x| {
          assert after[j].path == x[j].path;
          assert exists e :: e in pre && e.isDir && e.path == x[j].path;
          var e :| e in pre && e.isDir && e.path == x[j].path;
          assert e in dirs;
        } else {
          assert d in dirs;
        }
      }
    }
  }

  lemma PrefixTrans(a: seq<MapRecord>, b: seq<MapRecord>, c: seq<MapRecord>)
    requires a <= b && b <= c
    ensures a <= c
  {
    assert c[..|a|] == b[..|a|];
  }

  /** One directory only appends: elements keep their place, path and earlier records, and
      at most one element is added, for a directory whose path no element has. */
  lemma IndexDirAppendOnly(x: seq<RepoRecord>, d: RepoDir, md5: string -> string)
    ensures var y := IndexDir(x, d, md5);
      && |x| <= |y| <= |x| + 1
      && (forall i :: 0 <= i < |x| ==> y[i].path == x[i].path && x[i].maps <= y[i].maps)
      && (|y| == |x| + 1 ==> d.isDir && y[|x|].path == d.path && forall i :: 0 <= i < |x| ==> x[i].path != d.path)
  {
    if d.isDir {
      match FindRepo(x, d.path)
      case Some(i) =>
        IndexBranchesExtends(x[i], d.repo.heads, md5);
      case None =>
        IndexBranchesExtends(RepoRecord(d.path, []), d.repo.heads, md5);
    }
  }

  /** Full build versus incremental extension, on one branch whose history grows from `older`
      to `newer + older`: indexing `older` from nothing and then extending gives the records of
      the full walk, the older part first. */
  lemma IncrementalMatchesFullWalk(r: RepoRecord, name: string, newer: seq<Commit>, older: seq<Commit>, md5: string -> string)
    requires CountBranch(r.maps, name) == 0
    ensures var full := Walk(name, newer + older, |newer + older|, md5);
      IndexBranch(IndexBranch(r, Branch(name, older), md5), Branch(name, newer + older), md5).maps
        == r.maps + full[|newer|..] + full[..|newer|]
  {
    var commits := newer + older;
    var full := Walk(name, commits, |commits|, md5);
    var first := IndexBranch(r, Branch(name, older), md5);
    var w1 := Walk(name, older, |older|, md5);
    var w2 := Walk(name, commits, |newer|, md5);
    FirstRun(r, name, older, md5);
    SecondRun(first, name, newer, older, md5);
    WalkSuffix(name, newer, older, md5);
    WalkPrefix(name, commits, |newer|, md5);
    assert r.maps + w1 + w2 == r.maps + full[|newer|..] + full[..|newer|];
  }

  /** Indexing a branch with nothing cached records its whole history. */
  lemma FirstRun(r: RepoRecord, name: string, older: seq<Commit>, md5: string -> string)
    requires CountBranch(r.maps, name) == 0
    ensures IndexBranch(r, Branch(name, older), md5).maps == r.maps + Walk(name, older, |older|, md5)
    ensures CountBranch(IndexBranch(r, Branch(name, older), md5).maps, name) == |older|
  {
    var w1 := Walk(name, older, |older|, md5);
    CountAppend(r.maps, w1, name);
    CountWalk(name, older, |older|, md5, name);
  }

  /** With `|older|` records cached, the grown history appends its `|newer|` newest commits. */
  lemma SecondRun(first: RepoRecord, name: string, newer: seq<Commit>, older: seq<Commit>, md5: string -> string)
    requires CountBranch(first.maps, name) == |older|
    ensures IndexBranch(first, Branch(name, newer + older), md5).maps == first.maps + Walk(name, newer + older, |newer|, md5)
  {
    assert WalkLength(|newer + older|, |older|) == |newer|;
  }

  /** The walk of a history's oldest part is the tail of the walk of the whole history. */
  lemma WalkSuffix(name: string, newer: seq<Commit>, older: seq<Commit>, md5: string -> string)
    ensures Walk(name, older, |older|, md5) == Walk(name, newer + older, |newer + older|, md5)[|newer|..]
  {
    var commits := newer + older;
    var full := Walk(name, commits, |commits|, md5);
    var w1 := Walk(name, older, |older|, md5);
    forall k | 0 <= k < |older| ensures w1[k] == full[|newer|..][k] {
      WalkAt(name, older, |older|, md5, k);
      WalkAt(name, commits, |commits|, md5, |newer| + k);
      assert commits[|newer| + k] == older[k];
    }
  }

  /** A shorter walk is a prefix of the full one. */
  lemma WalkPrefix(name: string, commits: seq<Commit>, n: nat, md5: string -> string)
    requires n <= |commits|
    ensures Walk(name, commits, n, md5) == Walk(name, commits, |commits|, md5)[..n]
  {
    var full := Walk(name, commits, |commits|, md5);
    var w2 := Walk(name, commits, n, md5);
    forall k | 0 <= k < n ensures w2[k] == full[..n][k] {
      WalkAt(name, commits, n, md5, k);
      WalkAt(name, commits, |commits|, md5, k);
    }
  }

  /** A cache that holds more records of a branch than the branch has commits is never
      settled: every run appends the whole history of that branch again. */
  lemma CacheAheadGrowsEveryRun(r: RepoRecord, b: Branch, md5: string -> string)
    requires CountBranch(r.maps, b.name) > |b.commits| > 0
    ensures |IndexBranch(r, b, md5).maps| == |r.maps| + |b.commits|
    ensures |IndexBranch(IndexBranch(r, b, md5), b, md5).maps| == |r.maps| + 2 * |b.commits|
  {
    BranchAppends(r, b, md5);
    BranchAppends(IndexBranch(r, b, md5), b, md5);
    assert CountBranch(IndexBranch(r, b, md5).maps, b.name) > |b.commits|;
  }

  /** A run that leaves a branch with at most as many cached records as it has commits
      leaves it settled: running again on the same history appends nothing. */
  lemma BranchSettles(r: RepoRecord, b: Branch, md5: string -> string)
    requires CountBranch(r.maps, b.name) <= |b.commits|
    ensures CountBranch(IndexBranch(r, b, md5).maps, b.name) == |b.commits|
    ensures IndexBranch(IndexBranch(r, b, md5), b, md5) == IndexBranch(r, b, md5)
  {
    BranchAppends(r, b, md5);
    BranchAppends(IndexBranch(r, b, md5), b, md5);
  }

  /** Branch names in a repository's head list are distinct. */
  predicate DistinctNames(heads: seq<Branch>)
  {
    forall i, j :: 0 <= i < j < |heads| ==> heads[i].name != heads[j].name
  }

  lemma {:induction false} CountFullMaps(heads: seq<Branch>, md5: string -> string, name: string)
    requires forall b :: b in heads ==> b.name != name
    ensures CountBranch(FullMaps(heads, md5), name) == 0
  {
    if |heads| > 0 {
      var b := heads[|heads| - 1];
      assert forall h :: h in heads[..|heads| - 1] ==> h in heads;
      CountFullMaps(heads[..|heads| - 1], md5, name);
      CountAppend(FullMaps(heads[..|heads| - 1], md5), Walk(b.name, b.commits, |b.commits|, md5), name);
      CountWalk(b.name, b.commits, |b.commits|, md5, name);
    }
  }

  /** Indexing a repository with no cached records is the full build of that repository. */
  lemma {:induction false} FromEmptyIsFullMaps(path: string, heads: seq<Branch>, md5: string -> string)
    requires DistinctNames(heads)
    ensures IndexBranches(RepoRecord(path, []), heads, md5) == RepoRecord(path, FullMaps(heads, md5))
  {
    if |heads| > 0 {
      var pre := heads[..|heads| - 1];
      var b := heads[|heads| - 1];
      FromEmptyIsFullMaps(path, pre, md5);
      forall h | h in pre ensures h.name != b.name {
        var i :| 0 <= i < |pre| && pre[i] == h;
      }
      CountFullMaps(pre, md5, b.name);
    }
  }

  lemma {:induction false} FullBuildPaths(dirs: seq<RepoDir>, md5: string -> string)
    ensures |FullBuild(dirs, md5)| == |dirs|
    ensures forall i :: 0 <= i < |dirs| ==> FullBuild(dirs, md5)[i].path == dirs[i].path
  {
    if |dirs| > 0 {
      FullBuildPaths(dirs[..|dirs| - 1], md5);
    }
  }

  /** From an absent cache file the incremental indexer produces exactly what the full build
      `generate_mappings(repos)` produces, for globbed directories that are all repositories,
      with distinct paths and distinct branch names. */
  lemma {:induction false} IndexFromEmptyIsFullBuild(dirs: seq<RepoDir>, md5: string -> string)
    requires forall d :: d in dirs ==> d.isDir && DistinctNames(d.repo.heads)
    requires forall i, j :: 0 <= i < j < |dirs| ==> dirs[i].path != dirs[j].path
    ensures Index([], dirs, md5) == FullBuild(dirs, md5)
  {
    if |dirs| > 0 {
      var pre := dirs[..|dirs| - 1];
      var d := dirs[|dirs| - 1];
      assert forall e :: e in pre ==> e in dirs;
      IndexFromEmptyIsFullBuild(pre, md5);
      FullBuildPaths(pre, md5);
      assert d in dirs;
      var x := FullBuild(pre, md5);
      match FindRepo(x, d.path)
      case Some(i) =>
        assert false;
      case None =>
        FromEmptyIsFullMaps(d.path, d.repo.heads, md5);
    }
  }

  /** The records of other branches are untouched by indexing one branch. */
  lemma IndexBranchOtherCount(r: RepoRecord, b: Branch, md5: string -> string, name: string)
    requires b.name != name
    ensures CountBranch(IndexBranch(r, b, md5).maps, name) == CountBranch(r.maps, name)
  {
    var n := WalkLength(|b.commits|, CountBranch(r.maps, b.name));
    CountAppend(r.maps, Walk(b.name, b.commits, n, md5), name);
    CountWalk(b.name, b.commits, n, md5, name);
  }

  /** A branch with at most as many records as commits has exactly as many after indexing. */
  lemma BranchCatchesUp(r: RepoRecord, b: Branch, md5: string -> string)
    requires CountBranch(r.maps, b.name) <= |b.commits|
    ensures CountBranch(IndexBranch(r, b, md5).maps, b.name) == |b.commits|
  {
    var n := WalkLength(|b.commits|, CountBranch(r.maps, b.name));
    CountAppend(r.maps, Walk(b.name, b.commits, n, md5), b.name);
    CountWalk(b.name, b.commits, n, md5, b.name);
  }

  /** Distinct names in a head list: distinct in the list without its last head, and none
      of them is the last head's name. */
  lemma DistinctSplit(heads: seq<Branch>)
    requires DistinctNames(heads) && |heads| > 0
    ensures DistinctNames(heads[..|heads| - 1])
    ensures forall h :: h in heads[..|heads| - 1] ==> h.name != heads[|heads| - 1].name
  {
    forall h | h in heads[..|heads| - 1] ensures h.name != heads[|heads| - 1].name {
      var i :| 0 <= i < |heads| - 1 && heads[i] == h;
    }
  }

  /** The last step of `IndexBranchesSettle`: indexing `last` catches it up and keeps the
      earlier, differently named heads settled. */
  lemma SettleStep(r: RepoRecord, pre: seq<Branch>, last: Branch, md5: string -> string)
    requires forall h :: h in pre ==> h.name != last.name && CountBranch(r.maps, h.name) == |h.commits|
    requires CountBranch(r.maps, last.name) <= |last.commits|
    ensures forall h :: h in pre + [last] ==> CountBranch(IndexBranch(r, last, md5).maps, h.name) == |h.commits|
  {
    BranchCatchesUp(r, last, md5);
    forall h | h in pre + [last] ensures CountBranch(IndexBranch(r, last, md5).maps, h.name) == |h.commits| {
      if h != last {
        IndexBranchOtherCount(r, last, md5, h.name);
      }
    }
  }

  /** One pass over a repository's heads with no cached branch ahead of git leaves every
      branch with exactly as many records as commits. */
  lemma {:induction false} IndexBranchesSettle(r: RepoRecord, heads: seq<Branch>, md5: string -> string)
    requires DistinctNames(heads)
    requires forall b :: b in heads ==> CountBranch(r.maps, b.name) <= |b.commits|
    ensures forall b :: b in heads ==> CountBranch(IndexBranches(r, heads, md5).maps, b.name) == |b.commits|
    ensures IndexBranches(r, heads, md5).path == r.path
  {
    IndexBranchesExtends(r, heads, md5);
    if |heads| > 0 {
      var pre := heads[..|heads| - 1];
      var last := heads[|heads| - 1];
      assert heads == pre + [last];
      DistinctSplit(heads);
      IndexBranchesSettle(r, pre, md5);
      IndexBranchesOtherCount(r, pre, md5, last.name);
      SettleStep(IndexBranches(r, pre, md5), pre, last, md5);
    }
  }

  /** A pass over heads that all have as many records as commits changes nothing. */
  lemma {:induction false} IndexBranchesFixed(r: RepoRecord, heads: seq<Branch>, md5: string -> string)
    requires forall b :: b in heads ==> CountBranch(r.maps, b.name) == |b.commits|
    ensures IndexBranches(r, heads, md5) == r
  {
    if |heads| > 0 {
      assert forall h :: h in heads[..|heads| - 1] ==> h in heads;
      IndexBranchesFixed(r, heads[..|heads| - 1], md5);
      BranchAppends(r, heads[|heads| - 1], md5);
    }
  }

  /** `FindRepo` gives the same answer on a list that keeps the paths of `x` and appends only
      elements of other paths, or any elements once `x` already has one of that path. */
  lemma FindRepoKept(x: seq<RepoRecord>, y: seq<RepoRecord>, p: string)
    requires |x| <= |y| && forall i :: 0 <= i < |x| ==> y[i].path == x[i].path
    requires FindRepo(x, p).Some? || forall k :: |x| <= k < |y| ==> y[k].path != p
    ensures FindRepo(y, p) == FindRepo(x, p)
  {
    var a := FindRepo(x, p);
    if a.Some? {
      assert y[a.value].path == p;
      assert forall j :: 0 <= j < a.value ==> y[j].path != p;
    } else {
      assert forall j :: 0 <= j < |y| ==> y[j].path != p;
    }
  }

  /** Indexing a directory leaves the element of any other path where it was, unchanged. */
  lemma IndexDirFrame(x: seq<RepoRecord>, d: RepoDir, md5: string -> string, p: string)
    requires p != d.path
    ensures FindRepo(IndexDir(x, d, md5), p) == FindRepo(x, p)
    ensures FindRepo(x, p).Some? ==> IndexDir(x, d, md5)[FindRepo(x, p).value] == x[FindRepo(x, p).value]
  {
    var y := IndexDir(x, d, md5);
    IndexDirAppendOnly(x, d, md5);
    FindRepoKept(x, y, p);
  }

  /** A run over directories none of which has path `p` leaves the element of path `p`
      where it was, unchanged. */
  lemma {:induction false} IndexFrame(c: seq<RepoRecord>, dirs: seq<RepoDir>, md5: string -> string, p: string)
    requires forall e :: e in dirs ==> e.path != p
    ensures FindRepo(Index(c, dirs, md5), p) == FindRepo(c, p)
    ensures FindRepo(c, p).Some? ==> Index(c, dirs, md5)[FindRepo(c, p).value] == c[FindRepo(c, p).value]
  {
    if |dirs| > 0 {
      var pre := dirs[..|dirs| - 1];
      assert forall e :: e in pre ==> e in dirs;
      IndexFrame(c, pre, md5, p);
      IndexDirFrame(Index(c, pre, md5), dirs[|dirs| - 1], md5, p);
    }
  }

  /** The cache holds the directory's repository, and every branch of it has as many records
      as commits. */
  predicate SettledDir(repos: seq<RepoRecord>, d: RepoDir)
  {
    match FindRepo(repos, d.path)
    case None => false
    case Some(i) => forall b :: b in d.repo.heads ==> CountBranch(repos[i].maps, b.name) == |b.commits|
  }

  /** No branch of the directory's repository has more cached records than commits. */
  predicate NotAheadDir(repos: seq<RepoRecord>, d: RepoDir)
  {
    match FindRepo(repos, d.path)
    case None => true
    case Some(i) => forall b :: b in d.repo.heads ==> CountBranch(repos[i].maps, b.name) <= |b.commits|
  }

  /** A run over directories that are all settled changes nothing. */
  lemma {:induction false} SettledRunFixed(repos: seq<RepoRecord>, dirs: seq<RepoDir>, md5: string -> string)
    requires forall d :: d in dirs && d.isDir ==> SettledDir(repos, d)
    ensures Index(repos, dirs, md5) == repos
  {
    if |dirs| > 0 {
      var d := dirs[|dirs| - 1];
      assert forall e :: e in dirs[..|dirs| - 1] ==> e in dirs;
      SettledRunFixed(repos, dirs[..|dirs| - 1], md5);
      if d.isDir {
        assert d in dirs;
        var i := FindRepo(repos, d.path).value;
        IndexBranchesFixed(repos[i], d.repo.heads, md5);
      }
    }
  }

  /** A run over directories with distinct paths and distinct branch names, none with a
      cached branch ahead of git, settles every directory that is a repository. */
  lemma {:induction false} RunSettles(c: seq<RepoRecord>, dirs: seq<RepoDir>, md5: string -> string)
    requires forall d :: d in dirs ==> DistinctNames(d.repo.heads) && NotAheadDir(c, d)
    requires forall i, j :: 0 <= i < j < |dirs| ==> dirs[i].path != dirs[j].path
    ensures forall d :: d in dirs && d.isDir ==> SettledDir(Index(c, dirs, md5), d)
  {
    if |dirs| > 0 {
      var pre := dirs[..|dirs| - 1];
      var d := dirs[|dirs| - 1];
      assert forall e :: e in pre ==> e in dirs;
      RunSettles(c, pre, md5);
      var x := Index(c, pre, md5);
      var y := IndexDir(x, d, md5);
      forall e | e in pre ensures e.path != d.path {
        var k :| 0 <= k < |pre| && pre[k] == e;
        assert dirs[k] == e;
      }
      forall e | e in pre && e.isDir ensures SettledDir(y, e) {
        IndexDirFrame(x, d, md5, e.path);
      }
      if d.isDir {
        assert d in dirs;
        SettlesLast(c, pre, d, md5);
      }
      forall e | e in dirs && e.isDir ensures SettledDir(y, e) {
        if e != d {
          assert e in pre;
        }
      }
    }
  }

  /** The step of `RunSettles` for the last directory. */
  lemma SettlesLast(c: seq<RepoRecord>, pre: seq<RepoDir>, d: RepoDir, md5: string -> string)
    requires d.isDir && DistinctNames(d.repo.heads) && NotAheadDir(c, d)
    requires forall e :: e in pre ==> e.path != d.path
    ensures SettledDir(IndexDir(Index(c, pre, md5), d, md5), d)
  {
    var x := Index(c, pre, md5);
    var y := IndexDir(x, d, md5);
    IndexFrame(c, pre, md5, d.path);
    IndexDirAppendOnly(x, d, md5);
    match FindRepo(x, d.path)
    case Some(i) =>
      IndexBranchesSettle(x[i], d.repo.heads, md5);
      FindRepoKept(x, y, d.path);
    case None =>
      var empty := RepoRecord(d.path, []);
      assert forall b :: b in d.repo.heads ==> CountBranch(empty.maps, b.name) == 0;
      IndexBranchesSettle(empty, d.repo.heads, md5);
      assert y[|x|].path == d.path;
      assert forall j :: 0 <= j < |x| ==> y[j].path != d.path;
  }

  /** Re-running the indexer over the same directories, with no new commits, leaves the
      cache as the first run left it: distinct directory paths, distinct branch names, and no
      cached branch ahead of git. */
  lemma IndexIdempotent(c: seq<RepoRecord>, dirs: seq<RepoDir>, md5: string -> string)
    requires forall d :: d in dirs ==> DistinctNames(d.repo.heads) && NotAheadDir(c, d)
    requires forall i, j :: 0 <= i < j < |dirs| ==> dirs[i].path != dirs[j].path
    ensures Index(Index(c, dirs, md5), dirs, md5) == Index(c, dirs, md5)
  {
    RunSettles(c, dirs, md5);
    SettledRunFixed(Index(c, dirs, md5), dirs, md5);
  }
}
