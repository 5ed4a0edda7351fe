/** The imperative side of the mapping cache: the incremental indexer
    `generate_mappings(cachefile)`, which appends map records to the cache document in place,
    and the reload state of `get_mappingscache()`. */
module Indexer {
  import opened Wrappers
  import opened Text
  import opened Git
  import opened MappingsCache

  /** The `entries` dict of one commit, filled entry by entry over the top level of its tree
      (the md5 of `git_cat`'s output), skipping the reserved names, together with its keys in
      insertion order. */
  method HashTree(tree: seq<TreeEntry>, md5: string -> string) returns (entries: map<string, string>, keys: seq<string>)
    ensures entries == EntryMap(tree, md5)
    ensures keys == EntryNames(tree)
  {
    entries := map[];
    keys := [];
    var i := 0;
    while i < |tree|
      invariant 0 <= i <= |tree|
      invariant entries == EntryMap(tree[..i], md5)
      invariant keys == EntryNames(tree[..i])
    {
      assert tree[..i + 1][..i] == tree[..i];
      var e := tree[i];
      if e.name != "_meta" && e.name != "_attribute" {
        var st := Cat(e.obj);
        entries := entries[e.name := md5(st)];
        if e.name !in keys {
          keys := keys + [e.name];
        }
      }
      i := i + 1;
    }
    assert tree[..i] == tree;
  }

  /** The four appends of one fingerprint line. */
  lemma AppendLine(prior: string, h: string, y: string)
    ensures prior + h + "  " + y + "\n" == prior + FingerprintLine(Entry(y, h))
  {
  }

  /** The fingerprint text, accumulated with `meta +=` over the sorted keys. */
  method FingerprintMeta(names: seq<string>, entries: map<string, string>) returns (meta: string)
    requires forall n :: n in names ==> n in entries
    ensures meta == FingerprintText(EntriesFor(names, entries))
  {
    meta := "";
    var j := 0;
    while j < |names|
      invariant 0 <= j <= |names|
      invariant meta == FingerprintText(EntriesFor(names[..j], entries))
    {
      var y := names[j];
      var h := entries[y];
      EntriesForSnoc(names, j, entries);
      FingerprintTextSnoc(EntriesFor(names[..j], entries), Entry(y, h));
      ghost var prior := meta;
      meta := meta + h;
      meta := meta + "  ";
      meta := meta + y;
      meta := meta + "\n";
      AppendLine(prior, h, y);
      j := j + 1;
    }
    assert names[..j] == names;
  }

  lemma EntriesForSnoc(names: seq<string>, j: nat, entries: map<string, string>)
    requires j < |names|
    requires forall n :: n in names ==> n in entries
    ensures forall n :: n in names[..j] ==> n in entries
    ensures EntriesFor(names[..j + 1], entries) == EntriesFor(names[..j], entries) + [Entry(names[j], entries[names[j]])]
  {
    assert names[..j + 1][..j] == names[..j];
  }

  lemma FingerprintTextSnoc(es: seq<Entry>, e: Entry)
    ensures FingerprintText(es + [e]) == FingerprintText(es) + FingerprintLine(e)
  {
    assert (es + [e])[..|es|] == es;
  }

  /** The `entry` children, one per sorted key. */
  method EntryElements(names: seq<string>, entries: map<string, string>) returns (es: seq<Entry>)
    requires forall n :: n in names ==> n in entries
    ensures |es| == |names|
    ensures forall i :: 0 <= i < |es| ==> es[i] == Entry(names[i], entries[names[i]])
  {
    es := [];
    var j := 0;
    while j < |names|
      invariant 0 <= j <= |names| && |es| == j
      invariant forall i :: 0 <= i < j ==> es[i] == Entry(names[i], entries[names[i]])
    {
      es := es + [Entry(names[j], entries[names[j]])];
      j := j + 1;
    }
  }

  /** One commit's `map` element, built as the indexer builds it. */
  method BuildRecord(branch: string, c: Commit, rev: int, md5: string -> string) returns (rec: MapRecord)
    ensures rec == Record(branch, c, rev, md5)
  {
    var entries, keys := HashTree(c.tree, md5);
    EntryNamesInMap(c.tree, md5);
    var sortedkeys := Sort(keys);
    var meta := FingerprintMeta(sortedkeys, entries);
    var srcmd5 := md5(meta);
    var es := EntryElements(sortedkeys, entries);
    assert es == EntriesFor(sortedkeys, entries);
    rec := MapRecord(branch, c.id, srcmd5, rev, es);
  }

  /** The `maps` document of the cache file, modified in place by the indexer. */
  class CacheDocument {
    var repos: seq<RepoRecord>

    /** The document the indexer starts from: the parsed cache file when it exists,
        otherwise an empty `maps` element. */
    constructor (existing: Option<seq<RepoRecord>>)
      ensures repos == if existing.Some? then existing.value else []
    {
      repos := if existing.Some? then existing.value else [];
    }

    /** `generate_mappings(cachefile)` over the globbed directories, in glob order. */
    method GenerateMappings(dirs: seq<RepoDir>, md5: string -> string)
      modifies this
      ensures repos == Index(old(repos), dirs, md5)
    {
      var i := 0;
      while i < |dirs|
        invariant 0 <= i <= |dirs|
        invariant repos == Index(old(repos), dirs[..i], md5)
      {
        assert dirs[..i + 1][..i] == dirs[..i];
        IndexDirectory(dirs[i], md5);
        i := i + 1;
      }
      assert dirs[..i] == dirs;
    }

    /** One globbed path: skipped unless it is a directory; otherwise the first `repo` element
        with its path, or a new one appended, receives the records of every branch. */
    method IndexDirectory(d: RepoDir, md5: string -> string)
      modifies this
      ensures repos == IndexDir(old(repos), d, md5)
    {
      if !d.isDir {
        return;
      }
      var found := FindRepo(repos, d.path);
      var k: nat;
      if found.Some? {
        k := found.value;
      } else {
        repos := repos + [RepoRecord(d.path, [])];
        k := |repos| - 1;
      }
      IndexHeads(k, d.repo.heads, md5);
      if found.None? {
        assert repos == old(repos) + [IndexBranches(RepoRecord(d.path, []), d.repo.heads, md5)];
      }
    }

    /** The loop over `repo.heads` on one repository element. */
    method IndexHeads(k: nat, heads: seq<Branch>, md5: string -> string)
      requires k < |repos|
      modifies this
      ensures repos == old(repos)[k := IndexBranches(old(repos)[k], heads, md5)]
    {
      var j := 0;
      while j < |heads|
        invariant 0 <= j <= |heads|
        invariant |repos| == |old(repos)|
        invariant repos == old(repos)[k := IndexBranches(old(repos)[k], heads[..j], md5)]
      {
        assert heads[..j + 1][..j] == heads[..j];
        AppendBranch(k, heads[j], md5);
        j := j + 1;
      }
      assert heads[..j] == heads;
    }

    /** One branch: count the commits and the cached records, skip when they agree, otherwise
        append records from the tip until `toprev - rev == seenrevs`. */
    method AppendBranch(k: nat, b: Branch, md5: string -> string)
      requires k < |repos|
      modifies this
      ensures repos == old(repos)[k := IndexBranch(old(repos)[k], b, md5)]
    {
      var seenrevs := CountBranch(repos[k].maps, b.name);
      var toprev := CountCommits(b);
      if seenrevs == toprev {
        SkipBranch(repos[k], b, md5);
        assert repos[k := repos[k]] == repos;
        return;
      }
      WalkBranch(k, b, seenrevs, toprev, md5);
    }

    /** The walk from the tip, one record per commit, stopping once `toprev - rev == seenrevs`. */
    method WalkBranch(k: nat, b: Branch, seenrevs: nat, toprev: nat, md5: string -> string)
      requires k < |repos| && seenrevs == CountBranch(repos[k].maps, b.name) && toprev == |b.commits| && seenrevs != toprev
      modifies this
      ensures repos == old(repos)[k := IndexBranch(old(repos)[k], b, md5)]
    {
      ghost var r0 := repos[k];
      var rev := 0;
      WalkNone(r0, b, md5);
      assert old(repos)[k := r0] == old(repos);
      while rev < |b.commits|
        invariant 0 <= rev <= |b.commits|
        invariant seenrevs < toprev ==> rev < toprev - seenrevs
        invariant repos == old(repos)[k := Walked(r0, b, rev, md5)]
      {
        var cm := b.commits[rev];
        var rec := BuildRecord(b.name, cm, toprev - rev, md5);
        WalkStep(r0, b, rev, rec, md5);
        ghost var w := Walked(r0, b, rev, md5);
        AddRecord(k, rec);
        UpdateTwice(old(repos), k, w, w.(maps := w.maps + [rec]));
        rev := rev + 1;
        if toprev - rev == seenrevs {
          break;
        }
      }
      WalkDone(r0, b, rev, md5);
    }

    /** `etree.SubElement(repoelement, "map", ...)`: the record is appended to one repository
        element. */
    method AddRecord(k: nat, rec: MapRecord)
      requires k < |repos|
      modifies this
      ensures repos == old(repos)[k := old(repos)[k].(maps := old(repos)[k].maps + [rec])]
    {
      repos := repos[k := repos[k].(maps := repos[k].maps + [rec])];
    }
  }

  /** `for xz in repo.iter_commits(branch): toprev = toprev + 1`. */
  method CountCommits(b: Branch) returns (toprev: nat)
    ensures toprev == |b.commits|
  {
    toprev := 0;
    var c := 0;
    while c < |b.commits|
      invariant 0 <= c <= |b.commits| && toprev == c
    {
      toprev := toprev + 1;
      c := c + 1;
    }
  }

  lemma SkipBranch(r: RepoRecord, b: Branch, md5: string -> string)
    requires CountBranch(r.maps, b.name) == |b.commits|
    ensures IndexBranch(r, b, md5) == r
  {
    assert r.maps + [] == r.maps;
  }

  lemma WalkNone(r: RepoRecord, b: Branch, md5: string -> string)
    ensures Walked(r, b, 0, md5) == r
  {
    assert r.maps + [] == r.maps;
  }

  lemma UpdateTwice(s: seq<RepoRecord>, k: nat, a: RepoRecord, b: RepoRecord)
    requires k < |s|
    ensures s[k := a][k := b] == s[k := b]
  {
  }

  /** The repository element after the walk has recorded the first `n` commits of `b`. */
  function Walked(r: RepoRecord, b: Branch, n: nat, md5: string -> string): RepoRecord
    requires n <= |b.commits|
  {
    r.(maps := r.maps + Walk(b.name, b.commits, n, md5))
  }

  lemma WalkDone(r: RepoRecord, b: Branch, rev: nat, md5: string -> string)
    requires rev == WalkLength(|b.commits|, CountBranch(r.maps, b.name))
    ensures rev <= |b.commits| && Walked(r, b, rev, md5) == IndexBranch(r, b, md5)
  {
  }

  lemma WalkStep(r: RepoRecord, b: Branch, rev: nat, rec: MapRecord, md5: string -> string)
    requires rev < |b.commits| && rec == Record(b.name, b.commits[rev], |b.commits| - rev, md5)
    ensures var before := Walked(r, b, rev, md5);
      before.(maps := before.maps + [rec]) == Walked(r, b, rev + 1, md5)
  {
    var w := Walk(b.name, b.commits, rev, md5);
    assert Walk(b.name, b.commits, rev + 1, md5) == w + [rec];
    assert r.maps + w + [rec] == r.maps + (w + [rec]);
  }

  /** The reload state of `get_mappingscache()`: the parsed cache and the mtime it was read at. */
  class MappingsCacheLoader {
    var mcache: Option<seq<RepoRecord>>
    var mcachetime: int

    constructor ()
      ensures mcache.None?
    {
      mcache := None;
      mcachetime := 0;
    }

    /** One call, given what the cache file holds now and its mtime: the first call parses it;
        a later call reparses it only when the mtime differs from the one recorded. */
    method Get(disk: seq<RepoRecord>, mtime: int) returns (doc: seq<RepoRecord>)
      modifies this
      ensures mcache == Some(doc) && mcachetime == mtime
      ensures old(mcache).Some? && old(mcachetime) == mtime ==> doc == old(mcache).value
      ensures old(mcache).None? || old(mcachetime) != mtime ==> doc == disk
    {
      if mcache.None? {
        mcache := Some(disk);
        mcachetime := mtime;
      }
      if mcachetime != mtime {
        mcache := Some(disk);
        mcachetime := mtime;
      }
      doc := mcache.value;
    }
  }
}
