# mds: a model of the git-backed mapping daemon and the fake OBS server

mds is a small HTTP server. It makes a set of git repositories look like the
source and build API of an Open Build Service (OBS) instance.

- The daemon is `tools/mds2.py`. It works over the mapping layer in
  `tools/gitmds2.py`.
- `tools/fakeobs.py` answers the same URL space over a directory tree
  and the `gitmer` helpers.

This project models the following parts in Dafny and proves properties of them:

- **The mappings cache** (`generate_mappings(cachefile)`). It walks the commits
  `iter_commits` lists for every branch of every repository (the whole history, newest
  first). For each commit it records a revision number, the md5 of what `git cat-file blob`
  prints for every top-level entry of its tree (a subtree prints nothing), and a source md5
  over the `"md5  name\n"` lines. It appends only the commits a branch has gained since the
  last run.
- **The resolvers.** `get_project` turns `project:branch:subdir` into a project through
  `mappings.xml`. The others all follow package links:
  - `get_latest_commit` and `get_package_commit_mtime_vrev`;
  - `get_entries_from_commit` and `get_package_tree_from_commit_or_rev`;
  - `get_package_index`, `get_if_disable` and `get_package_file`.
- **The mds2 request handlers** (`send_head`, `handle_source`, `handle_build` and
  `handle_lastevents`), with the `reply`/`do_GET` pair that turns a handler's result
  into headers and a body. This includes the chunked transfer coding of `chunkfile`,
  which follows section 7.1 of RFC 9112.
- **The fakeobs handlers** (`lastevents`, `source` and `build`), the path rewriting they
  do, and the 200/404/500 decision of `do_GET`.

How the model represents the world:

- A Python exception is the `Raises` arm of `Wrappers.Outcome`.
- A git repository is a value (`Git.Repository`): branches with the commits
  `iter_commits` yields for them, newest first, and the commits its object database holds
  that no head reaches. A commit's tree is its list of top-level
  entries, each a blob with its bytes or a subtree with its object size and its own entries.
- md5, `urllib.unquote`, XML parsing and rendering, the cpio helpers and the `gitmer`
  module are function parameters.
- mds2 also calls `gitmds2.lookup_binariespath`, `gitmds2.get_next_event` and
  `gitmds2.get_events_filtered`, which `tools/gitmds2.py` does not define. The model takes
  them as the parameters `Mds2.Backend.binariesPath` and `Mds2.EventSource`, standing for
  the intended back end; as written these calls raise AttributeError (see "## Findings").
- The file system is a map from path to contents and mtime.
- The wall clock and the server's start time are integer parameters (`now`, `started`).
- The long polls read the event counter and the shut-down flag as oracles indexed by the
  number of sleeps taken.

Where the code and its documentation disagree, the model follows the code, with five
exceptions listed under "## Findings". For each of those the model has both the code as
written and a corrected version. The `handle_source`, `handle_build` and
`handle_lastevents` models are built on the corrected ones. Cases where the model follows the code:

- In mds2, a package index or package file that does not resolve ends in a 500, not a
  404. `string2stream(None)` raises, and so does unpacking `None`.
- In fakeobs, `lastevents` has no sync-lost reply for a `start` ahead of the counter.
- In fakeobs, the `filter` values are parsed before `start` is converted, so a malformed
  filter is reported first.
- `get_if_disable` tests attribute truthiness, so an empty `enablei586` or `disablei586`
  attribute counts as absent.

Modules (one file each):

- `wrappers`: Option and Outcome.
- `text`: split, join, `int`/`str`, sorting.
- `git`: repositories, commits and trees.
- `manifest`: `packages.xml` and `mappings.xml`.
- `posixpath`: `splitext`, `basename` and `join`.
- `mappings_cache`: the cache as values and the full walk.
- `indexer`: the imperative cache builder and the cache loader.
- `resolver`: the lookups of `gitmds2.py`.
- `binaries`: the `names` filter and the cpio list.
- `chunked`: the chunked coding.
- `lastevents`: filter parsing and the long polls.
- `http`: query, file probes, `reply` and `do_GET`.
- `mds2`: the mds2 handlers.
- `fakeobs`: the fakeobs handlers.

## Model

| member | source | states |
|---|---|---|
| `Git.FindCommit` | tools/gitmds2.py:131-132 | `repo.commit(id)` finds a commit with exactly that id anywhere in the object database, on a head's history or not; when it finds none, no commit the repository holds has that id |
| `Git.BranchTree` | tools/gitmds2.py:79-81 | `repo.tree(branch)` succeeds exactly when the repository has a head of that name with at least one commit, and is then the tip commit's tree |
| `Git.FindEntry` | tools/gitmds2.py:299-301 | the loop over a tree that compares each entry's name finds the first top-level entry with that name; when it finds none, no top-level entry has the name |
| `Git.TreeLookupTopLevel` | tools/gitmds2.py:83-87 | `tree[name]` for a name without a slash is that first top-level entry |
| `Git.TreeLookupDescends` | tools/gitmds2.py:83-87 | `tree[dir + "/" + rest]` looks `rest` up in the subtree the first entry named `dir` holds, and is the KeyError case when that entry is missing or is a blob |
| `Manifest.RenameProjectsNamesAll` | tools/gitmds2.py:95-97 | after the rename, every `project` element at any depth is named after the OBS project, and the meta document is otherwise unchanged |
| `Manifest.RenameProjectsIdempotent` | tools/gitmds2.py:95-97 | renaming a second time changes nothing |
| `Text.Split` | tools/gitmds2.py:59-61 | `str.split(sep)` yields at least one piece, and no piece contains the separator |
| `Text.JoinSplit` | tools/gitmds2.py:59-61 | joining the pieces of a split with the separator restores the string, so splitting loses nothing |
| `Text.SplitJoin` | tools/mds2.py:174 | splitting a join of separator-free pieces gives back exactly those pieces |
| `Text.ParseInt` | tools/mds2.py:358-360 | `int(s)` can succeed only on a non-empty string; its partner is `Text.ParseIntOfIntToString` |
| `Text.ParseIntOfIntToString` | tools/gitmds2.py:364-367 | a revision number written with `str` into the cache is read back by `int` as the same number |
| `Text.IntToStringInjective` | tools/gitmds2.py:167 | two revisions print alike only when they are equal, so a selector matches at most one revision number |
| `Text.SortProperties` | tools/gitmds2.py:355 | `sorted` on distinct names gives a strictly ascending permutation of them |
| `Text.SortSameElements` | tools/gitmds2.py:355 | the sorted order depends only on the set of names, not on the tree's order |
| `PosixPath.SplitExtRootSplits` | tools/mds2.py:320 | `splitext` cuts a prefix off the path. The extension it leaves is empty, or one dot followed by neither a dot nor a slash. A non-empty extension leaves a base name with a character that is not a dot |
| `PosixPath.SplitExtNoDot` | tools/mds2.py:320 | a final path component without a dot has no extension |
| `PosixPath.BasenameSuffix` | tools/mds2.py:304-307 | `basename` is the slash-free suffix of the path; it is the whole path exactly when the path has no slash |
| `PosixPath.Join` | tools/mds2.py:280-281 | `os.path.join(a, b)` is `b` when `b` is absolute; otherwise it ends with `b` |
| `PosixPath.JoinAllRelative` | tools/mds2.py:262 | joining relative components puts exactly one slash between consecutive ones |
| `Binaries.FilterBinaries` | tools/mds2.py:318-323 | the loop that collects the unwanted children, then removes them, computes `Binaries.FilterSpec`, including the KeyError on a `binary` child without the key |
| `Binaries.FilterKeepsRequested` | tools/mds2.py:318-323 | the filtered list keeps the root's tag and attributes. Every binary kept is one whose name without its extension was requested. Every non-binary child, and every requested binary, is kept |
| `Binaries.FilterIdempotent` | tools/mds2.py:318-323 | filtering the filtered list again changes nothing |
| `Binaries.CpioList` | tools/mds2.py:302-307 | the accumulated cpio file list is `Binaries.CpioListSpec` of the requested binaries |
| `Binaries.CpioListLines` | tools/mds2.py:302-307 | read back line by line, the list holds each requested binary's basename plus `.rpm`, in request order, newline-terminated |
| `Chunked.HexReadsBack` | tools/mds2.py:76 | a chunk-size line is upper-case hex with no leading zero (except for size 0), and reads back as the size |
| `Chunked.ChunksCover` | tools/mds2.py:67-72 | `chunk_generator` yields non-empty reads of at most `n` bytes, all but the last exactly `n`, which concatenate to the source; a zero read size yields nothing |
| `Chunked.ChunkGenerator` | tools/mds2.py:67-72 | the reads until the first empty one are exactly the successive chunks of the source: each of them `chunksize` long except the last, or the whole source when `chunksize` is negative, and none at all when it is zero |
| `Chunked.ChunkFile` | tools/mds2.py:74-79 | the loop over the generator's chunks writes exactly the chunked encoding of those chunks, ending with the last chunk |
| `Chunked.DecodeEncode` | tools/mds2.py:74-79 | decoding the chunked encoding of non-empty chunks gives their concatenation |
| `Chunked.ChunkFileRoundTrip` | tools/mds2.py:74-79 | a recipient decoding what `chunkfile` wrote gets the source back |
| `Chunked.EncodeEndsWithLastChunk` | tools/mds2.py:79 | every encoded body ends with the last chunk `0` CRLF CRLF |
| `Http.File2Stream` | tools/mds2.py:46-49 | `file2stream` succeeds exactly on regular files and otherwise raises IOError; the size it reports is the length of the data, and the mtime is the file's |
| `Http.Get` | tools/mds2.py:162-168 | a parsed query yields a key's values exactly when the key maps to a non-empty list |
| `Http.First` | tools/mds2.py:358-360 | `query[key][0]` is defined exactly when the key has values, and is the first of them |
| `Http.ReplyHeaders` | tools/mds2.py:131-150 | `reply` sends the 200 headers exactly when content or a size is set. They carry the handler's content type, its mtime, and its size or the chunked marker |
| `Http.Transmit` | tools/mds2.py:101-105 | the body writer copies a stream or chunk-encodes it. It writes nothing for absent or empty content, and aborts on a non-empty bare string |
| `Http.Deliver` | tools/mds2.py:92-105 | `do_GET` sends a bare 500 when `send_head` raised, and otherwise the handler's errors, the reply headers and the body of `Http.DeliverSpec` |
| `Http.StreamDelivered` | tools/mds2.py:101-105 | a stream arrives whole. Under a Content-Length it is sent as it is. Chunked, it decodes back to the stream and ends with the last chunk |
| `LastEvents.ParseFilters` | tools/mds2.py:371-376 | the filter loop computes `LastEvents.ParseFiltersSpec`: all filters in order, or the IndexError of the first malformed value |
| `LastEvents.ParseFiltersAbort` | tools/mds2.py:371-376 | once a prefix of the `filter` values raises, the whole list raises the same way |
| `LastEvents.ParseFiltersPointwise` | tools/mds2.py:371-376 | parsing succeeds exactly when every value contains a slash; the filters then match the values one to one |
| `LastEvents.ParseFilterRaises` | tools/mds2.py:372-376 | one value raises IndexError exactly when it has no slash |
| `LastEvents.ParseFilterShapes` | tools/mds2.py:373-376 | `type/project` parses to a filter without a package, and `type/project/package` to one with that package, each part unquoted |
| `LastEvents.Mds2StopIsFirst` | tools/mds2.py:380-385 | the mds2 wait stops at the first poll after a sleep where the server is shutting down or the counter differs |
| `LastEvents.Mds2Wait` | tools/mds2.py:380-385 | the polling loop stops at that poll. It sends the 503 and clears `start` exactly when the server is shutting down there, and keeps `start` otherwise |
| `LastEvents.FakeStopIsFirst` | tools/fakeobs.py:131-132 | the fakeobs wait stops at the first poll where the counter differs, with the counter unchanged at every earlier poll |
| `LastEvents.FakeWait` | tools/fakeobs.py:131-132 | the fakeobs polling loop takes exactly that many sleeps |
| `MappingsCache.EntriesFor` | tools/gitmds2.py:368-370 | one `entry` per name, in the given order, each with that name's md5 |
| `MappingsCache.EntryNamesInMap` | tools/gitmds2.py:344-355 | the names collected, and their sorted order, hold exactly the keys of the md5 dictionary, each once |
| `MappingsCache.EntryMapIsHashedContents` | tools/gitmds2.py:347-354 | the md5 dictionary has exactly the non-reserved top-level names of the commit's tree, each mapped to the md5 of what `git cat-file blob` prints for the last entry of that name: a blob's bytes, or nothing for a subtree |
| `MappingsCache.EntriesShape` | tools/gitmds2.py:347-370 | the recorded entries are strictly ascending by name and hold no reserved name. Every entry carries its file's md5, and every file has an entry |
| `MappingsCache.FingerprintDependsOnContentsOnly` | tools/gitmds2.py:347-363 | two trees with the same file contents get the same entries and the same source md5, whatever the tree's order |
| `MappingsCache.EntriesDetermineContents` | tools/gitmds2.py:368-370 | the recorded entries determine the file contents, when md5 is taken as injective |
| `MappingsCache.FindRepo` | tools/gitmds2.py:324-329 | the cache's `repo` element for a path is the first with that path; when there is none, no element has it |
| `MappingsCache.WalkAt` | tools/gitmds2.py:344-374 | the walk's `k`-th record is the `k`-th commit from the tip, numbered `toprev - k` |
| `MappingsCache.CountWalk` | tools/gitmds2.py:334 | a walk of `n` commits adds `n` records of its own branch and none of any other |
| `MappingsCache.BranchAppends` | tools/gitmds2.py:332-374 | indexing a branch appends records and never changes earlier ones. A branch already fully recorded is left alone. Otherwise the newest commits are appended, numbered from the branch's length down to one more than the records already held |
| `MappingsCache.IndexAppendOnly` | tools/gitmds2.py:319-330 | a run keeps every existing `repo` element, and its records, as a prefix. New elements come only from directories found, and their paths are distinct from every other |
| `MappingsCache.IncrementalMatchesFullWalk` | tools/gitmds2.py:340-374 | indexing an older history, then its extension, records exactly the commits of the full walk: the old part first, then the new ones |
| `MappingsCache.CacheAheadGrowsEveryRun` | tools/gitmds2.py:371-374 | when the cache holds more records of a branch than the branch has commits, every run appends the whole branch again |
| `MappingsCache.BranchSettles` | tools/gitmds2.py:340-342 | once a branch is indexed, indexing it again changes nothing |
| `MappingsCache.BranchCatchesUp` | tools/gitmds2.py:333-374 | a branch with no more cached records than commits has exactly as many records as commits after indexing |
| `MappingsCache.IndexBranchOtherCount` | tools/gitmds2.py:333-374 | indexing one branch leaves the record count of every other branch name unchanged |
| `MappingsCache.IndexBranchesSettle` | tools/gitmds2.py:331-374 | one pass over a repository's heads, with distinct names and none cached ahead of git, leaves every head with exactly as many records as commits |
| `MappingsCache.IndexBranchesFixed` | tools/gitmds2.py:331-342 | a pass over heads that each have as many records as commits changes nothing |
| `MappingsCache.IndexFrame` | tools/gitmds2.py:318-330 | a run over directories of other paths leaves the `repo` element of a path where it was, unchanged, and `FindRepo` still finds it there |
| `MappingsCache.SettledRunFixed` | tools/gitmds2.py:318-342 | a run over directories whose repositories are all cached with as many records per head as commits changes nothing |
| `MappingsCache.RunSettles` | tools/gitmds2.py:318-374 | a run over directories with distinct paths and distinct branch names, none cached ahead of git, leaves every repository found cached with as many records per head as commits |
| `MappingsCache.IndexIdempotent` | tools/gitmds2.py:318-374 | under the same conditions, running the indexer a second time over the same directories leaves the cache as the first run left it |
| `MappingsCache.FromEmptyIsFullMaps` | tools/gitmds2.py:217-249 | indexing one repository from an empty record gives exactly its full walk |
| `MappingsCache.FullBuildPaths` | tools/gitmds2.py:213-214 | the full build has one `repo` element per repository, in order, with its path |
| `MappingsCache.IndexFromEmptyIsFullBuild` | tools/gitmds2.py:209-251 | the incremental builder started from an empty cache produces what the full build produces |
| `Indexer.HashTree` | tools/gitmds2.py:347-354 | the loop over a commit's tree computes the md5 dictionary and the list of names |
| `Indexer.FingerprintMeta` | tools/gitmds2.py:356-361 | the loop over the sorted names writes the text whose md5 is the source md5 |
| `Indexer.EntryElements` | tools/gitmds2.py:368-370 | the loop writes one `entry` element per sorted name, with its md5 |
| `Indexer.BuildRecord` | tools/gitmds2.py:346-370 | the commit's `map` element carries branch, revision, commit, entries and source md5, as `MappingsCache.Record` defines them |
| `Indexer.CacheDocument.constructor` | tools/gitmds2.py:308-314 | the document starts from the cache file's `repo` elements when the file exists, and from none otherwise |
| `Indexer.CacheDocument.GenerateMappings` | tools/gitmds2.py:319-374 | the document's new elements are `MappingsCache.Index` of the old ones and the repositories found |
| `Indexer.CacheDocument.AppendBranch` | tools/gitmds2.py:332-374 | indexing one branch changes only its repository's element, to `MappingsCache.IndexBranch` of it |
| `Indexer.CacheDocument.IndexDirectory` | tools/gitmds2.py:319-331 | one directory's pass finds its cached `repo` element by path, or appends a new one, and leaves the document as `MappingsCache.IndexDir` of the old one |
| `Indexer.CacheDocument.IndexHeads` | tools/gitmds2.py:331-374 | the pass over a repository's heads changes only that repository's element, to `MappingsCache.IndexBranches` of it |
| `Indexer.CacheDocument.WalkBranch` | tools/gitmds2.py:342-372 | the walk over a branch with new revisions appends one record per new commit, newest first, and stops once the cached count is reached, giving `MappingsCache.IndexBranch` of the element |
| `Indexer.CacheDocument.AddRecord` | tools/gitmds2.py:363-368 | `etree.SubElement(repoelement, "map", ...)` appends the record to that repository's element and changes nothing else |
| `Indexer.CountCommits` | tools/gitmds2.py:336-338 | counting `iter_commits(branch)` gives the number of commits on the branch |
| `Indexer.MappingsCacheLoader.constructor` | tools/gitmds2.py:31-35 | nothing is cached before the first request |
| `Indexer.MappingsCacheLoader.Get` | tools/gitmds2.py:31-41 | the cached document is returned while the file's mtime is unchanged. Otherwise the file is reloaded and its mtime remembered |
| `Resolver.FindMapping` | tools/gitmds2.py:70-74 | the mapping used is the first whose project matches; when there is none, no mapping matches |
| `Resolver.Locate` | tools/gitmds2.py:59-81 | a project is located only for a three-part identifier with a mapping for its first part. Its path is the first such mapping's path, and its tree is the tip tree of the named branch in that repository. Other identifiers, and unmapped projects, give `None`; a repository or branch that cannot be opened is a git error |
| `Resolver.Assemble` | tools/gitmds2.py:89-99 | the project is assembled exactly when both documents parse, and is an XML syntax error otherwise. It carries the identifier's parts, the repository path, the `_config` text, the parsed `packages.xml`, and the parsed `_meta` with every `project` element renamed |
| `Resolver.GetProject` | tools/gitmds2.py:56-99 | get_project (with a missing file read as `None`) raises only git or XML errors. It returns `None` for a malformed identifier, an unmapped project, or a subdirectory missing `packages.xml`, `_config` or `_meta`. A project it returns has the identifier's parts and the first matching mapping's path, and its packages, configuration and renamed meta are read from those three files of the branch's tip tree |
| `Resolver.GetProjectMissingBlob` | tools/gitmds2.py:83-87 | a located project missing any of the three files raises KeyError as written; the corrected resolver returns `None` |
| `Resolver.GetProjectAgrees` | tools/gitmds2.py:56-99 | apart from that KeyError, the corrected resolver behaves exactly as the code does |
| `Resolver.GetProjectMissingBlobExample` | tools/gitmds2.py:83 | `Core:master:i586`, mapped to a repository whose tree is empty, raises KeyError as written and gives `None` corrected |
| `Resolver.BuildProjectIndexAlwaysRaises` | tools/gitmds2.py:113 | `build_project_index` as written raises AttributeError on every manifest, while the intended listing is non-empty for any package or link |
| `Resolver.BuildProjectIndex` | tools/gitmds2.py:106-115 | the intended listing names every package, then every link target, in document order |
| `Resolver.BuildProjectIndexListsAll` | tools/gitmds2.py:111-114 | a name is listed exactly when some package has it or some link points to it |
| `Resolver.FindPackage` | tools/gitmds2.py:119-121 | the `package` element found is the first with that name; when none is found, no element has it |
| `Resolver.FindLink` | tools/gitmds2.py:122-124 | the `link` element found is the first pointing to that name; when none is found, no link does |
| `Resolver.AcyclicLinksTerminate` | tools/gitmds2.py:122-124 | when every link leads from a lower rank to a higher one, following links never hits the recursion limit |
| `Resolver.SelfLinkDiverges` | tools/gitmds2.py:122-124 | a package linked to itself, and not resolved directly, hits the recursion limit |
| `Resolver.FollowFound` | tools/gitmds2.py:151-153 | short of the recursion limit, a lookup's result is what the direct lookup gives for the last name of the chain of first links from the name, every earlier name having found nothing directly; a `None` result means no link leads on from that last name |
| `Resolver.FollowVisited` | tools/gitmds2.py:151-153 | short of the recursion limit, the names already visited do not change what following links finds |
| `Resolver.FollowLink` | tools/gitmds2.py:122-124 | a name not found directly is looked up again under the `from` of the first link to it; with no such link the result is `None` |
| `Resolver.PackageCommit` | tools/gitmds2.py:119-121 | a direct commit is found exactly when some package has the name, and it is that package's `commit` |
| `Resolver.GetLatestCommitSpec` | tools/gitmds2.py:117-125 | the first package's own commit wins. Otherwise the result is that of the `from` of the first link to the name, and `None` when no link points to it. The only exception is the recursion limit, and any commit returned is some package's |
| `Resolver.NormalizeSelector` | tools/gitmds2.py:178-185 | no `rev`, or `upload`/`build`/`latest`, selects the latest commit; any other `rev` is used as given |
| `Resolver.FirstRecord` | tools/gitmds2.py:164-167 | the `map` record chosen is the first that satisfies the test; when none is chosen, no record does |
| `Resolver.FirstInRepos` | tools/gitmds2.py:162-167 | the record comes from the first `repo` element of the package's repository that has a matching record; when none is chosen, none there matches |
| `Resolver.FirstInPackages` | tools/gitmds2.py:159-169 | the match comes from a package of that name and a record of its repository that satisfies the test; when there is none, no combination matches |
| `Resolver.FirstInPackagesIsFirst` | tools/gitmds2.py:159-169 | the match comes from the first package of that name, in document order, whose repository has a matching record |
| `Resolver.EntriesDict` | tools/gitmds2.py:147-150 | the dictionary of a record's entries has a key for every entry, and every key comes from an entry |
| `Resolver.EntriesDirect` | tools/gitmds2.py:139-150 | the entries found are those of the first record with that commit, taken over the packages of that name in order and their `repo` elements in order; when none are found, no such record exists |
| `Resolver.TreeDirect` | tools/gitmds2.py:157-169 | the tree is found from the first record, over the packages of that name and their `repo` elements in order, that is on the package's follow branch and matches the selector. The result carries that record's commit, revision and source md5, the tree of that commit, and the package's repository; a commit git cannot find is a git error; no such record gives `None` |
| `Resolver.MtimeDirect` | tools/gitmds2.py:127-132 | for the first package of that name, the result is the committer date of its `commit` and its `vrev`, or a git error when that commit cannot be found; with no such package it is `None` |
| `Resolver.GetPackageTreeFollowsLink` | tools/gitmds2.py:170-172 | with no direct match, the revision lookup goes on at the `from` of the first link to the name, and gives `None` when there is no such link |
| `Resolver.GetEntriesFollowsLink` | tools/gitmds2.py:151-153 | with no direct match, the entries lookup goes on at the `from` of the first link to the name, and gives `None` when there is no such link |
| `Resolver.GetMtimeFollowsLink` | tools/gitmds2.py:133-135 | with no package of that name, the mtime lookup goes on at the `from` of the first link to the name, and gives `None` when there is no such link |
| `Resolver.Listed` | tools/gitmds2.py:200-202 | the entries listed are exactly the top-level entries other than `_meta` and `_attribute` |
| `Resolver.IndexEntries` | tools/gitmds2.py:200-206 | the directory listing succeeds exactly when every listed entry's name has an md5. It then has one entry per listed tree entry, in tree order, each with the entry's name, its size, the commit time and its md5. Failures are TypeError (no md5 dictionary) or KeyError |
| `Resolver.GetPackageIndexSpec` | tools/gitmds2.py:177-207 | a returned index names the package, carries the resolved tree's source md5 and revision and the package's `vrev`, and its entries are `Resolver.IndexEntries` of the resolved tree under the package's commit time and the resolved commit's md5s; an unresolved tree gives `None` |
| `Resolver.PackageEnables` | tools/gitmds2.py:256-260 | some `package` element of that name sets `enablei586` |
| `Resolver.LinkEnables` | tools/gitmds2.py:261-265 | some `link` to that name sets `enablei586` |
| `Resolver.GetIfDisable` | tools/gitmds2.py:253-267 | i586 is disabled exactly when the root sets `disablei586` and neither a package nor a link of that name sets `enablei586` |
| `Resolver.FakeMetaSlot` | tools/gitmds2.py:280-295 | the generated `_meta` is the fixed head, the `disable arch="i586"` directive exactly when disabled, and the fixed tail |
| `Resolver.GetPackageFile` | tools/gitmds2.py:270-305 | `_meta` is always the generated meta. For any other file of a resolved tree, the result is the first top-level entry of that name, with its size and what `git cat-file blob` prints for it, or `None` when the tree has no such entry. The reported size differs from the data's length only for a subtree, whose data is empty |
| `Resolver.GetPackageFileUnresolved` | tools/gitmds2.py:297-305 | a file of a package whose tree does not resolve gives `None` |
| `Mds2.RouteOfPath` | tools/mds2.py:171-186 | a path `/<api>/c1/…/cn` routes to that handler with the unquoted components. The same path under `/public` routes the same way |
| `Mds2.RouteRefuses` | tools/mds2.py:187-189 | any other path raises, which `do_GET` turns into a 500 |
| `Mds2.PackageFileAsWrittenAborts` | tools/mds2.py:257 | as written, a non-empty package file gets 200 headers with its Content-Length, and then writing the body raises, so no body arrives |
| `Mds2.PackageFileDelivered` | tools/mds2.py:255-258 | corrected, the file's bytes arrive whole under their own length |
| `Mds2.SourceExclusive` | tools/mds2.py:191-267 | a source request sends either exactly one error and no content, or content and no error. A Content-Length is the content's length, except for a package file that is a subtree, whose body is empty |
| `Mds2.SourceNotFound` | tools/mds2.py:261-265 | an unknown project gets `404 Project not found`; more than three components get the file-not-found 404 |
| `Mds2.SourceServed` | tools/mds2.py:202-258 | with the corrected resolver and stream wrapping, a known project's listing, `_config`, `_meta` and package index are sent as streams with their length and the start time, each with its content type; a package file is sent as a stream of its data under the size `get_package_file` reports |
| `Mds2.SourceUnresolvedIsError` | tools/mds2.py:243-257 | a package index or file that does not resolve raises TypeError, a 500, instead of a 404 |
| `Mds2.BuildAsWrittenFails` | tools/mds2.py:275-277 | as written, a build request with three or more components raises AttributeError at `gitmds2.lookup_binariespath`, a bare 500, where the handler over the intended back end answers an unknown project with `404 Project not found`. Shorter paths behave alike |
| `Mds2.BuildExclusive` | tools/mds2.py:269-350 | a build request sends one error or content, never both, with an honest length. An existing target with an unknown view gets the file-not-found 404 |
| `Mds2.ViewDefaultsToNames` | tools/mds2.py:287-291 | a request without `view` is answered as `view=names` |
| `Mds2.NamesViewFilters` | tools/mds2.py:315-326 | the `names` view sends the repository listing filtered to the requested binaries. Other children are kept, and without `binary` no binary is listed |
| `Mds2.CpioView` | tools/mds2.py:301-313 | the `cpio` view needs `binary` (KeyError otherwise). It sends, chunked, the archive built over the list of requested `.rpm` names |
| `Mds2.BinaryVersionsProbesCache` | tools/mds2.py:327-338 | `binaryversions` checks for the `cache` file but opens its own, so a target with only the cache file raises IOError |
| `Mds2.LastEventsAsWrittenFails` | tools/mds2.py:358-367 | as written, every lastevents request is a bare 500: a non-numeric `start` raises ValueError, and otherwise `gitmds2.get_next_event` raises AttributeError. Over the intended event source a request without `start` gets the sync-lost reply |
| `Mds2.HandleLastEvents` | tools/mds2.py:352-390 | the handler, its filter loop and its polling loop compute `Mds2.LastEventsSpec` |
| `Mds2.LastEventsExclusive` | tools/mds2.py:352-390 | a lastevents request sends one error or content, never both, with an honest length |
| `Mds2.LastEventsImmediate` | tools/mds2.py:358-388 | a malformed `start` raises ValueError. A missing `start`, or one ahead of the counter, gets the sync-lost reply. A `start` behind the counter gets events since `start`, unfiltered |
| `Mds2.LastEventsCaughtUp` | tools/mds2.py:370-388 | a caught-up caller waits. It gets the 503 exactly when the server shuts down before the counter moves, and its filtered events exactly when the counter first rises. An empty reply comes exactly in the remaining case |
| `Mds2.Serve` | tools/mds2.py:92-105 | `do_GET` on `send_head` delivers `Http.DeliverSpec` of what the routed handler left |
| `Mds2.ServeUnsupported` | tools/mds2.py:187-189 | an unroutable path is answered with a 500 |
| `FakeObs.LookupFirstMapping` | tools/fakeobs.py:72-83 | the first mapping of a project gives its path and its `binaries` (KeyError when absent); an unmapped project resolves to the unknown marker and no binaries path |
| `FakeObs.SourceParts` | tools/fakeobs.py:145-155 | the splitting and decoding loop computes `FakeObs.SourcePartsSpec` |
| `FakeObs.SourcePartsDecoded` | tools/fakeobs.py:145-155 | every part is unquoted. The project part is replaced by its mapped path, or by the unknown marker, and remembered as the real project |
| `FakeObs.SourceDispatch` | tools/fakeobs.py:157-197 | source requests by part count: the package list when `packages.xml` exists, `_config` as a file, `_meta` through `adjustMeta`, `_pubkey` and `_pattern` as 404s, and a package file through `gitmer` |
| `FakeObs.BuildParts` | tools/fakeobs.py:199-215 | the path splitting and rewriting computes `FakeObs.BuildPartsSpec` |
| `FakeObs.RewrittenQuery` | tools/fakeobs.py:207-215 | a per-package path adds its package to `binary`, sets `view` to `names` unless given, and leaves every other key alone |
| `FakeObs.BuildPartsShape` | tools/fakeobs.py:203-215 | the project part becomes its binaries path, a package part becomes `_repository` with the rewritten query, and every other part is unchanged |
| `FakeObs.NamesView` | tools/fakeobs.py:253-268 | the `names` view sends `<binarylist />` without a listing file. Without `binary` it raises KeyError on a listing that has binaries. Otherwise it sends the listing filtered to the requested binaries |
| `FakeObs.CpioView` | tools/fakeobs.py:238-251 | the `cpio` view needs `binary` (KeyError otherwise) and sends the archive over the list of requested `.rpm` names |
| `FakeObs.CacheFallsBack` | tools/fakeobs.py:224-237 | a missing `cache` or `solvstate` file is answered with the empty repository cache, or IOError when that is missing too |
| `FakeObs.FakeLastEvents` | tools/fakeobs.py:114-142 | the handler computes `FakeObs.FakeLastEventsSpec` and sleeps exactly until the counter moves |
| `FakeObs.FakeLastEventsOutcomes` | tools/fakeobs.py:114-142 | no `start` gets the sync-lost reply. A valid `start` with valid filters gets the filtered events. A malformed filter raises |
| `FakeObs.SendHead` | tools/fakeobs.py:101-286 | the dispatcher computes `FakeObs.SendHeadSpec` |
| `FakeObs.Serve` | tools/fakeobs.py:41-54 | `do_GET` delivers `FakeObs.DeliverSpec` of what `send_head` returned |
| `FakeObs.ReplyDecision` | tools/fakeobs.py:287-297 | `None` is a 404, an exception a 500, and content a 200 with its length and mtime. A path outside the three APIs is a 404 |
| `FakeObs.PackagePathIsRepositoryView` | tools/fakeobs.py:198-220 | `…/<arch>/<package>` is answered exactly like `…/<arch>/_repository` with the package added to `binary` |

## Left out

- Git access, XML parsing and rendering, md5, `urllib.unquote` and the cpio subprocesses (`createcpio`, `cpio -o`) are function parameters; their internals are not modelled.
- The `gitmer` module used by fakeobs (`adjustMeta`, `packageFile`, the event log) is a parameter; its internals are not part of this model.
- Socket I/O, the threading server, the module-level lock, signal handling and `time.sleep` are not modelled; the long polls count their sleeps instead.
- `handle_update` and `refresh_cache` (tools/mds2.py:392-444) are not modelled: they only run rsync and rebuild the cache. As written, `refresh_cache` calls `generate_mappings` with two arguments against a one-argument definition (tools/gitmds2.py:307), which raises TypeError.
- `do_HEAD` and `do_POST` are not modelled; only `do_GET` is.
- The fakeobs `cpio` view's isfile check followed by a no-op assert (tools/fakeobs.py:241-242) has no effect and is not modelled.
- Wall-clock time is an integer parameter (`now`). The default `mtime` that mds2's `reply` binds once when the class is defined is the parameter `started`.
- `get_mappingscache` stats the cache file twice. The model reads one mtime per request.
- A `mappings.xml` or cache file that does not parse is left out: the parsers are parameters that always return a document, and every attribute the code indexes is present (a missing one would raise KeyError).
- The long polls assume the wait ends by some poll (a ghost deadline). Without one the source loops for ever. Several reads of the event counter between two sleeps are taken to agree.
- Python's recursion limit is modelled as a cycle in the links (a visited set). CPython would also stop on a very long acyclic chain.
- Logging and the watcher thread's name are not modelled.
- `Text.ParseInt`: reads an optional sign and decimal digits only; Python's `int` also accepts surrounding whitespace.
- `Http.Get`: a key mapped to an empty list counts as absent. `urlparse.parse_qs` never produces one.
- `Http.FileSystem`: paths are compared as written, without normalisation, and symbolic links are not modelled.
- `Mds2.HandleLastEvents`: requires the wait to end by a deadline, which the source does not demand.
- `Mds2.HandleLastEvents`: runs over `Mds2.EventSource`, the intended `get_next_event` and `get_events_filtered`. `tools/gitmds2.py` defines neither, so as written every request raises AttributeError at tools/mds2.py:366-367 (after a ValueError check on `start`), a bare 500; `Mds2.LastEventsAsWritten` models that.
- `Mds2.LastEventsImmediate`: states the sync-lost reply and the events of the intended event source. As written these requests raise AttributeError at tools/mds2.py:366-367, because `gitmds2.get_next_event` does not exist.
- `Mds2.LastEventsCaughtUp`: states the wait over the intended event source. As written the caught-up branch is never reached, because tools/mds2.py:366 already raises AttributeError.
- `Mds2.HandleBuild`: runs over `Mds2.Backend.binariesPath`, the intended `lookup_binariespath`. `tools/gitmds2.py` does not define it, so as written every request with three or more components raises AttributeError at tools/mds2.py:277, a bare 500; `Mds2.HandleBuildAsWritten` models that.
- `Mds2.BuildExclusive`: states the replies of the handler over the intended back end. As written an unknown view, like every other request naming a repository, raises AttributeError at tools/mds2.py:277 instead of getting the 404.
- `FakeObs.Listing`: `FakeEnv.parse` gives the element the code edits and serialises, `doc.childNodes[0]`. That is the document's first child node, which a leading comment or processing instruction would displace. minidom's NotFoundErr on removing a non-child is reported as ValueError.
- `FakeObs.FakeLastEvents`: requires the wait to end by a deadline, which the source does not demand.
- The fakeobs package-file size is the one `gitmer.packageFile` reports; it is not checked against the data.
- `Mds2.HandleSource`: composes the corrected `Resolver.GetProject`, `Resolver.BuildProjectIndex` and `Mds2.PackageFileContent`. As written, the same requests raise KeyError, raise AttributeError, or abort the body, as the Findings rows show.
- `Mds2.SourceExclusive`: does not promise an honest Content-Length for a package file that is a subtree. The code announces the tree object's size there and sends an empty body.
- `Indexer.CacheDocument.GenerateMappings`: every directory the glob finds is taken to be a git repository. In the code, `git.Repo` on a directory that is not one raises, and the run ends before the cache is written.
- `Indexer.CacheDocument.GenerateMappings`: paths and branch names are taken to contain no apostrophe. In the code, one breaks the XPath expressions `//repo[@path='...']` and `./map[@branch='...']` (tools/gitmds2.py:324, 334), which raises.
- `MappingsCache.Index`: the same two aborts are left out of the function the indexer is proved against.
- `MappingsCache.IndexIdempotent`: proved for distinct directory paths, distinct branch names, and no branch cached with more records than commits. With a branch cached ahead of git the code is not idempotent, as `MappingsCache.CacheAheadGrowsEveryRun` shows.
- `Git.FindCommit`: resolves a full commit id only. The abbreviated ids, ref names and other revision expressions `repo.commit` also accepts are not modelled; the packages documents hold the full ids the indexer wrote.
- `MappingsCache.FullBuild`: the shadowed builder's `assert len(st) == entry.size` (tools/gitmds2.py:229) is not modelled. It would fail on a subtree, whose `git cat-file blob` output is empty.
- `Resolver.Locate`: `repo.tree(gitref)` is modelled for branch names only, not for tags or commit ids.

## Findings

| source | as written | input that shows it | evidently intended | confidence | as-written member | corrected member |
|---|---|---|---|---|---|---|
| tools/gitmds2.py:113 | `build_project_index` calls the minidom method `getElementsByTagName` on an lxml element, which has no such attribute | any resolvable project, e.g. a GET of `/public/source/Core:master:i586` | the listing of every package name and link target | not executed | `Resolver.BuildProjectIndexAsWritten` (shown by `Resolver.BuildProjectIndexAlwaysRaises`) | `Resolver.BuildProjectIndex` (proved by `Resolver.BuildProjectIndexListsAll`) |
| tools/gitmds2.py:83-87 | a subdirectory without `packages.xml`, `_config` or `_meta` makes the tree lookup raise KeyError | identifier `Core:master:i586` with `Core` mapped to a repository whose `master` tree is empty | `get_project` returns `None`, as its own comment says it does for an unknown project | not executed | `Resolver.GetProjectAsWritten` (shown by `Resolver.GetProjectMissingBlobExample`) | `Resolver.GetProject` (proved by `Resolver.GetProjectAgrees`) |
| tools/mds2.py:277 | `handle_build` calls `gitmds2.lookup_binariespath`, which `tools/gitmds2.py` does not define, so every build request naming a repository raises AttributeError | a GET of `/public/build/Core:master:i586/standard/i586/_repository?view=cache` | the binaries path of the project's mapping, as fakeobs's own `lookup_binariespath` gives it | not executed | `Mds2.HandleBuildAsWritten` (shown by `Mds2.BuildAsWrittenFails`) | `Mds2.HandleBuild` (proved by `Mds2.BuildExclusive`) |
| tools/mds2.py:366-367 | `handle_lastevents` calls `gitmds2.get_next_event`, which `tools/gitmds2.py` does not define, so every lastevents request raises AttributeError | a GET of `/public/lastevents` without `start` | the sync-lost reply naming the event log's next number, and the long poll over it | not executed | `Mds2.LastEventsAsWritten` (shown by `Mds2.LastEventsAsWrittenFails`) | `Mds2.HandleLastEvents` (proved by `Mds2.LastEventsImmediate` and `Mds2.LastEventsCaughtUp`) |
| tools/mds2.py:257 | the three-component source branch passes `get_package_file`'s bare string to `reply`, and `copyfile` then calls `read` on it | a GET of `/public/source/Core:master:i586/pkg/pkg.spec` for a non-empty file | the file wrapped by `string2stream` like every other branch, so that its bytes are sent | not executed | `Mds2.PackageFileContentAsWritten` (shown by `Mds2.PackageFileAsWrittenAborts`) | `Mds2.PackageFileContent` (proved by `Mds2.PackageFileDelivered`) |
