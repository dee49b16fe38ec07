/**
 * Paths as the builder handles them: the project root it derives from its
 * own path, the `path.basename` and `path.dirname` it calls (their POSIX
 * behaviour) and the file-system facts it asks about (`fs.existsSync`,
 * `fs.statSync(...).isDirectory()`), given as a snapshot.
 */
module Paths {
  import opened TextSearch

  // ---------------------------------------------------------------------------
  // The project root.

  /** The path of the builder's entry script below the project root. */
  const EntryScript: string := "/src/js/index.mjs"

  /** `process.argv[1].replace("/src/js/index.mjs", "")`: the first occurrence of the entry script's path removed. */
  function ProjectRoot(argv1: string): (root: string)
    ensures !Contains(argv1, EntryScript) ==> root == argv1
    ensures |root| <= |argv1|
  {
    ReplaceFirst(argv1, EntryScript, "")
  }

  /** Where the entry script's path can overlap itself: only at a `/`, and those are at 0, 4 and 7. */
  lemma {:induction false} EntryScriptChars()
    ensures |EntryScript| == 17
    ensures EntryScript[0] == '/' && EntryScript[1] == 's' && EntryScript[5] == 'j' && EntryScript[8] == 'i'
    ensures forall d :: 0 <= d < 17 && EntryScript[d] == '/' ==> d == 0 || d == 4 || d == 7
  {
  }

  /**
   * Run as `<root>/src/js/index.mjs`, the builder takes `<root>` as the
   * project root, provided the entry script's path does not already occur
   * in `<root>`: the path cannot overlap itself, so no earlier occurrence
   * reaches across the join.
   */
  lemma {:induction false} ProjectRootOf(root: string)
    requires !Contains(root, EntryScript)
    ensures ProjectRoot(root + EntryScript) == root
  {
    var s, k, n := root + EntryScript, EntryScript, |root|;
    EntryScriptChars();
    assert s[n..] == k;
    assert OccursAt(s, k, n);
    forall j: nat | j < n ensures !OccursAt(s, k, j) {
      if j + |k| <= n {
        assert s[..n] == root;
        OccursInSlice(s, k, 0, n, j);
      } else if OccursAt(s, k, j) {
        OverlapIsNoOccurrence(s, n, j);
      }
    }
    ReplaceFirstAt(s, k, "", n);
    var r := ReplaceFirst(s, k, "");
    assert r == r[..n] + r[n..];
  }

  lemma {:induction false} OverlapIsNoOccurrence(s: string, n: nat, j: nat)
    requires n + |EntryScript| <= |s| && s[n..n + |EntryScript|] == EntryScript
    requires j < n < j + |EntryScript|
    ensures !OccursAt(s, EntryScript, j)
  {
    EntryScriptChars();
    var k := EntryScript;
    if OccursAt(s, k, j) {
      OccurrenceCovers(s, k, j, n);
      OccurrenceCovers(s, k, j, n + 1);
      assert false;
    }
  }

  // ---------------------------------------------------------------------------
  // `path.basename` and `path.dirname`.

  /** The path without the `/` characters it ends with. */
  function StripTrailingSlashes(p: string): (r: string)
    ensures r <= p
    ensures r == [] || r[|r| - 1] != '/'
    ensures forall i :: |r| <= i < |p| ==> p[i] == '/'
  {
    if p != [] && p[|p| - 1] == '/' then StripTrailingSlashes(p[..|p| - 1]) else p
  }

  /** The index of the last `/` in the path, if any. */
  function LastSlash(p: string): (r: Option<nat>)
    ensures r.Some? ==> r.value < |p| && p[r.value] == '/' && forall i :: r.value < i < |p| ==> p[i] != '/'
    ensures r.None? ==> '/' !in p
  {
    if p == [] then None
    else if p[|p| - 1] == '/' then Some(|p| - 1)
    else LastSlash(p[..|p| - 1])
  }

  /** `path.basename(p)`: the last segment of the path, trailing `/` characters ignored. */
  function Basename(p: string): (name: string)
    ensures '/' !in name
  {
    var q := StripTrailingSlashes(p);
    match LastSlash(q)
    case Some(i) => q[i + 1..]
    case None => q
  }

  /**
   * `path.dirname(p)`: the path up to the `/` before its last segment, `"."`
   * when there is no such `/`, `"/"` when only the root is left (and `"//"`
   * for a path starting with two of them).
   */
  function Dirname(p: string): (d: string)
    ensures d != []
  {
    if p == [] then "."
    else
      var q := StripTrailingSlashes(p);
      match LastSlash(q)
      case Some(i) =>
        if i == 0 then "/"
        else if p[0] == '/' && i == 1 then "//"
        else p[..i]
      case None => if p[0] == '/' then "/" else "."
  }

  /** The segment after a directory and `/` is the base name. */
  lemma {:induction false} BasenameOfJoin(dir: string, name: string)
    requires name != [] && '/' !in name
    ensures Basename(dir + "/" + name) == name
  {
    var p := dir + "/" + name;
    assert p[|p| - 1] == name[|name| - 1];
    assert StripTrailingSlashes(p) == p;
    SlashBeforeName(dir, name);
  }

  /** The directory before `/` and a segment is the directory name, when the directory is not the root. */
  lemma {:induction false} DirnameOfJoin(dir: string, name: string)
    requires name != [] && '/' !in name
    requires dir != [] && dir[|dir| - 1] != '/'
    ensures Dirname(dir + "/" + name) == dir
  {
    var p := dir + "/" + name;
    assert p[|p| - 1] == name[|name| - 1];
    assert StripTrailingSlashes(p) == p;
    SlashBeforeName(dir, name);
    assert p[..|dir|] == dir;
  }

  lemma {:induction false} SlashBeforeName(dir: string, name: string)
    requires '/' !in name
    ensures var p := dir + "/" + name;
      LastSlash(p) == Some(|dir|) && p[|dir| + 1..] == name
  {
    var p := dir + "/" + name;
    assert p[|dir|] == '/';
    forall i | |dir| < i < |p| ensures p[i] != '/' {
      assert p[i] == name[i - |dir| - 1];
    }
    LastSlashIs(p, |dir|);
  }

  /** A `/` with none after it is the last one. */
  lemma {:induction false} LastSlashIs(p: string, i: nat)
    requires i < |p| && p[i] == '/'
    requires forall j :: i < j < |p| ==> p[j] != '/'
    decreases |p|
    ensures LastSlash(p) == Some(i)
  {
    if i < |p| - 1 {
      var q := p[..|p| - 1];
      assert q[i] == '/';
      LastSlashIs(q, i);
    }
  }

  /** A name without a slash lies in the current directory. */
  lemma {:induction false} DirnameOfName(name: string)
    requires name != [] && '/' !in name
    ensures Dirname(name) == "."
  {
    assert name[|name| - 1] in name;
    assert StripTrailingSlashes(name) == name;
  }

  // ---------------------------------------------------------------------------
  // The file system, as the builder sees it.

  datatype EntryKind = File | Directory

  /** What each existing path names. */
  datatype FileSystem = FileSystem(entries: map<string, EntryKind>)

  /** `fs.existsSync(p)`. */
  predicate Exists(fs: FileSystem, p: string) {
    p in fs.entries
  }

  /** `fs.statSync(p).isDirectory()` for an existing path. */
  predicate IsDirectory(fs: FileSystem, p: string) {
    p in fs.entries && fs.entries[p] == Directory
  }
}
