/** The `os.path` functions (POSIX flavour) the front ends use: `splitext`, `basename` and
    `join`, with `str.rfind` underneath. */
module PosixPath {

  /** `s.rfind(c)`: the last index of `c`, or -1. */
  function RFind(s: string, c: char): (i: int)
    ensures -1 <= i < |s|
    ensures i >= 0 ==> s[i] == c
    ensures forall j :: i < j < |s| ==> s[j] != c
  {
    if |s| == 0 then -1
    else if s[|s| - 1] == c then |s| - 1
    else RFind(s[..|s| - 1], c)
  }

  /** `os.path.splitext(p)[0]`: the extension is the part from the last dot of the last path
      component, unless everything before that dot in the component is dots (".bashrc" has no
      extension). */
  function SplitExtRoot(p: string): string
  {
    var sep := RFind(p, '/');
    var dot := RFind(p, '.');
    if dot > sep && exists k :: sep + 1 <= k < dot && p[k] != '.' then p[..dot] else p
  }

  /** `splitext` splits `p` into root and extension: the extension is empty or a dot followed
      by no dot and no slash, and the last component of the root does not consist of
      dots alone. */
  lemma SplitExtRootSplits(p: string)
    ensures var root := SplitExtRoot(p);
      && |root| <= |p| && p[..|root|] == root
      && var ext := p[|root|..];
      && (ext == "" || (ext[0] == '.' && '.' !in ext[1..] && '/' !in ext))
      && (ext != "" ==> exists k :: RFind(p, '/') + 1 <= k < |root| && p[k] != '.')
  {
    var sep := RFind(p, '/');
    var dot := RFind(p, '.');
    var root := SplitExtRoot(p);
    if root != p {
      var ext := p[dot..];
      assert root == p[..dot];
      forall j | 0 <= j < |ext[1..]| ensures ext[1..][j] != '.' {
        assert ext[1..][j] == p[dot + 1 + j];
      }
      forall j | 0 <= j < |ext| ensures ext[j] != '/' {
        assert ext[j] == p[dot + j];
      }
    } else {
      assert p[|root|..] == "";
    }
  }

  /** A name with no dot after its last slash is its own root. */
  lemma SplitExtNoDot(p: string)
    requires forall j :: RFind(p, '/') < j < |p| ==> p[j] != '.'
    ensures SplitExtRoot(p) == p
  {
  }

  /** `os.path.basename(p)`: what follows the last slash. */
  function Basename(p: string): string
  {
    p[RFind(p, '/') + 1..]
  }

  /** The base name holds no slash and is a suffix of the path; the path is its own base name
      exactly when it holds no slash. */
  lemma BasenameSuffix(p: string)
    ensures '/' !in Basename(p)
    ensures |Basename(p)| <= |p| && p[|p| - |Basename(p)|..] == Basename(p)
    ensures Basename(p) == p <==> '/' !in p
  {
    var i := RFind(p, '/');
    if '/' in p {
      var k :| 0 <= k < |p| && p[k] == '/';
      assert i >= k;
    } else {
      assert i == -1;
    }
  }

  /** `os.path.join(a, b)`: an absolute `b` replaces `a`; otherwise a slash is inserted unless
      `a` is empty or already ends in one. */
  function Join(a: string, b: string): (r: string)
    ensures |b| > 0 && b[0] == '/' ==> r == b
    ensures !(|b| > 0 && b[0] == '/') ==> |r| >= |b| && r[|r| - |b|..] == b
  {
    if |b| > 0 && b[0] == '/' then b
    else if a == "" || a[|a| - 1] == '/' then a + b
    else a + "/" + b
  }

  /** `os.path.join(*parts)` for at least one part: joined left to right. */
  function JoinAll(parts: seq<string>): string
    requires |parts| >= 1
  {
    if |parts| == 1 then parts[0] else Join(JoinAll(parts[..|parts| - 1]), parts[|parts| - 1])
  }

  /** Relative parts, none empty and none ending in a slash, are joined with one slash
      between neighbours. */
  lemma {:induction false} JoinAllRelative(parts: seq<string>)
    requires |parts| >= 1
    requires forall i :: 0 <= i < |parts| ==> |parts[i]| > 0 && parts[i][0] != '/' && parts[i][|parts[i]| - 1] != '/'
    ensures |parts| >= 2 ==> JoinAll(parts) == JoinAll(parts[..|parts| - 1]) + "/" + parts[|parts| - 1]
    ensures |JoinAll(parts)| > 0 && JoinAll(parts)[|JoinAll(parts)| - 1] != '/'
  {
    if |parts| >= 2 {
      var pre := parts[..|parts| - 1];
      JoinAllRelative(pre);
    }
  }
}
