/** The filesystem the exporters and the exports store work on: a map from paths to nodes. */
module Disk {
  import opened Json
  import opened Text

  /** A path is the list of its segments; `Path::join(dir, name)` is `dir + [name]`. */
  type Path = seq<string>

  function Join(dir: Path, name: string): Path {
    dir + [name]
  }

  /** PHP `basename` of a path: its last segment. */
  function Basename(p: Path): string {
    if |p| == 0 then "" else p[|p| - 1]
  }

  /** `p` is `dir` itself or lies somewhere below it. */
  predicate Under(dir: Path, p: Path) {
    |dir| <= |p| && p[..|dir|] == dir
  }

  /** What a regular file holds: a JSON document, an opaque original (image, media, logo),
      or the archive built from a directory tree. */
  datatype Content = Data(json: Json) | Original(id: Path) | Archive(tree: Path)

  datatype Node = Dir | File(content: Content)

  /** The pattern `*.zip` of `glob`: ends with `.zip` and does not start with a dot. */
  predicate ZipPattern(name: string) {
    EndsWith(name, ".zip") && |name| > 0 && name[0] != '.'
  }

  // Names of the entries directly inside `dir` that `glob($dir . '/*.zip')` matches.
  function ZipNames(entries: map<Path, Node>, dir: Path): set<string> {
    set p | p in entries.Keys && |p| == |dir| + 1 && p[..|dir|] == dir && ZipPattern(p[|dir|]) :: p[|dir|]
  }

  /** A name is matched by the glob exactly when `dir/name` exists and fits the pattern. */
  lemma ZipNamesMember(entries: map<Path, Node>, dir: Path, name: string)
    ensures name in ZipNames(entries, dir) <==> Join(dir, name) in entries && ZipPattern(name)
  {
    var p := Join(dir, name);
    if p in entries && ZipPattern(name) {
      assert p[..|dir|] == dir && p[|dir|] == name;
    }
    if name in ZipNames(entries, dir) {
      var q :| q in entries.Keys && |q| == |dir| + 1 && q[..|dir|] == dir && ZipPattern(q[|dir|]) && q[|dir|] == name;
      assert q == q[..|dir|] + [q[|dir|]];
    }
  }

  /** The entries left after a recursive delete of `dir`. */
  function Without(entries: map<Path, Node>, dir: Path): (r: map<Path, Node>)
    ensures forall p :: p in r <==> p in entries && !Under(dir, p)
    ensures forall p :: p in r ==> r[p] == entries[p]
  {
    map p | p in entries && !Under(dir, p) :: entries[p]
  }

  /** `entries` with a directory added at every non-empty prefix of `p` that is missing. */
  function WithDirs(entries: map<Path, Node>, p: Path): (r: map<Path, Node>)
    ensures forall q :: q in entries ==> q in r && r[q] == entries[q]
    ensures forall q :: q in r ==> q in entries || (Under(q, p) && |q| >= 1 && r[q] == Dir)
    ensures |p| >= 1 ==> p in r && (p !in entries ==> r[p] == Dir)
  {
    var added := map k | 1 <= k <= |p| && p[..k] !in entries :: p[..k] := Dir;
    assert p[..|p|] == p;
    assert forall q :: q in added ==> Under(q, p) && |q| >= 1 && added[q] == Dir;
    entries + added
  }

  /** Two prefixes of one path are prefixes of each other. */
  lemma PrefixesComparable(a: Path, b: Path, p: Path)
    requires Under(a, p) && Under(b, p)
    ensures Under(a, b) || Under(b, a)
  {
    if |a| <= |b| {
      assert b[..|a|] == p[..|a|];
    } else {
      assert a[..|b|] == p[..|b|];
    }
  }

  /** `mkdir -p` of a path below `dir` changes nothing away from `dir` and its ancestors. */
  lemma WithDirsConfined(entries: map<Path, Node>, p: Path, dir: Path)
    requires Under(dir, p)
    ensures Confined(entries, WithDirs(entries, p), dir)
  {
    forall q | q in WithDirs(entries, p) && !Under(dir, q) && !Under(q, dir)
      ensures q in entries
    {
      if q !in entries {
        PrefixesComparable(q, dir, p);
      }
    }
  }

  /** A change at one path below `dir` is confined to `dir`. */
  lemma TouchedConfined(before: map<Path, Node>, after: map<Path, Node>, p: Path, dir: Path)
    requires Touched(before, after, p) && Under(dir, p)
    ensures Confined(before, after, dir)
  {
    forall q | q in after && !Under(dir, q) && !Under(q, dir)
      ensures q in before && after[q] == before[q]
    {
      assert q != p;
    }
  }

  /** A child of a path below `dir` is below `dir`. */
  lemma UnderChild(dir: Path, p: Path, name: string)
    requires Under(dir, p)
    ensures Under(dir, p + [name])
  {
    assert (p + [name])[..|dir|] == p[..|dir|];
  }

  /** Below a path below `dir` is below `dir`. */
  lemma UnderTrans(a: Path, b: Path, c: Path)
    requires Under(a, b) && Under(b, c)
    ensures Under(a, c)
  {
    assert c[..|b|][..|a|] == c[..|a|];
  }

  lemma ConfinedTrans(a: map<Path, Node>, b: map<Path, Node>, c: map<Path, Node>, dir: Path)
    requires Confined(a, b, dir) && Confined(b, c, dir)
    ensures Confined(a, c, dir)
  {
  }

  /** `is_file(p)`. */
  predicate RegularFile(entries: map<Path, Node>, p: Path) {
    p in entries && entries[p].File?
  }

  /** The entries after `unlink(p)`: a regular file goes, anything else stays. */
  function Unlinked(entries: map<Path, Node>, p: Path): (r: map<Path, Node>)
    ensures p in entries && entries[p].File? ==> p !in r
    ensures !(p in entries && entries[p].File?) ==> r == entries
    ensures forall q :: q != p ==> (q in r <==> q in entries) && (q in r ==> r[q] == entries[q])
  {
    if p in entries && entries[p].File? then entries - {p} else entries
  }

  /** `to` is a directory with nothing below it. */
  predicate EmptyDir(entries: map<Path, Node>, to: Path) {
    IsDirIn(entries, to) && forall q :: q in entries && Under(to, q) ==> q == to
  }

  /** `rename(2)` moves a regular file onto any target that is not a directory. */
  predicate FileMoves(entries: map<Path, Node>, from: Path, to: Path) {
    RegularFile(entries, from) && !IsDirIn(entries, to)
  }

  /** `rename(2)` moves a directory onto a target that is missing or an empty directory, that does
      not lie inside the directory itself and that is not one of its ancestors (which is never empty). */
  predicate DirMoves(entries: map<Path, Node>, from: Path, to: Path) {
    IsDirIn(entries, from) && !Under(from, to) && !Under(to, from) && (to !in entries || EmptyDir(entries, to))
  }

  /** The entries after a directory `from` moves to `to`: everything below `from` is found at the
      same place below `to`. */
  function MovedDir(entries: map<Path, Node>, from: Path, to: Path): map<Path, Node> {
    var kept := map q | q in entries && !Under(from, q) && q != to :: entries[q];
    var targets := set q | q in entries && Under(from, q) :: to + q[|from|..];
    var moved := map t | t in targets && |to| <= |t| ::
      if from + t[|to|..] in entries then entries[from + t[|to|..]] else Dir;
    kept + moved
  }

  /** The entries after `rename(from, to)`. The target's parent is taken to be a directory; the
      targets `updateSlug` is given here all lie directly in the exports directory. A regular file replaces whatever file was
      at `to`; a directory takes its whole subtree along; any other case (a missing source, a file onto
      a directory, a directory onto a file, onto a non-empty directory or into itself) fails and
      changes nothing. */
  function Renamed(entries: map<Path, Node>, from: Path, to: Path): (r: map<Path, Node>)
    ensures FileMoves(entries, from, to) ==>
      to in r && r[to] == entries[from] && (from != to ==> from !in r) &&
      forall q :: q != from && q != to ==> (q in r <==> q in entries) && (q in r ==> r[q] == entries[q])
    ensures DirMoves(entries, from, to) ==>
      from !in r &&
      (forall q :: q in entries && Under(from, q) ==> to + q[|from|..] in r && r[to + q[|from|..]] == entries[q]) &&
      (forall q :: q in entries && !Under(from, q) && !Under(to, q) ==> q in r && r[q] == entries[q]) &&
      (forall q :: q in r ==> Under(to, q) || (q in entries && !Under(from, q)))
    ensures !FileMoves(entries, from, to) && !DirMoves(entries, from, to) ==> r == entries
  {
    if FileMoves(entries, from, to) then (entries - {from})[to := entries[from]]
    else if DirMoves(entries, from, to) then
      var r := MovedDir(entries, from, to);
      MovedDirSpec(entries, from, to);
      r
    else entries
  }

  lemma MovedDirSpec(entries: map<Path, Node>, from: Path, to: Path)
    requires DirMoves(entries, from, to)
    ensures var r := MovedDir(entries, from, to);
      from !in r &&
      (forall q :: q in entries && Under(from, q) ==> to + q[|from|..] in r && r[to + q[|from|..]] == entries[q]) &&
      (forall q :: q in entries && !Under(from, q) && !Under(to, q) ==> q in r && r[q] == entries[q]) &&
      (forall q :: q in r ==> Under(to, q) || (q in entries && !Under(from, q)))
  {
    var r := MovedDir(entries, from, to);
    forall q | q in entries && Under(from, q)
      ensures to + q[|from|..] in r && r[to + q[|from|..]] == entries[q]
    {
      var t := to + q[|from|..];
      assert t[..|to|] == to && t[|to|..] == q[|from|..];
      assert from + t[|to|..] == q;
    }
    assert Under(from, from);
  }

  /** `after` differs from `before` at most at `p`, where an entry may have been added or replaced. */
  predicate Touched(before: map<Path, Node>, after: map<Path, Node>, p: Path) {
    before.Keys <= after.Keys
    && forall q :: q in after && q != p ==> q in before && after[q] == before[q]
  }

  /** Nothing changed away from `dir` and its ancestors, and nothing was removed. */
  predicate Confined(before: map<Path, Node>, after: map<Path, Node>, dir: Path) {
    before.Keys <= after.Keys
    && forall q :: q in after && !Under(dir, q) && !Under(q, dir) ==> q in before && after[q] == before[q]
  }

  predicate IsDirIn(entries: map<Path, Node>, p: Path) {
    p in entries && entries[p] == Dir
  }

  /** `mkdir(p)` without `recursive`: succeeds only inside an existing directory and where nothing is yet. */
  function MadeDir(entries: map<Path, Node>, p: Path): (r: map<Path, Node>)
    requires |p| > 0
    ensures IsDirIn(entries, p[..|p| - 1]) && p !in entries ==> r == entries[p := Dir]
    ensures !(IsDirIn(entries, p[..|p| - 1]) && p !in entries) ==> r == entries
    ensures Touched(entries, r, p)
  {
    if IsDirIn(entries, p[..|p| - 1]) && p !in entries then entries[p := Dir] else entries
  }

  /** `file_put_contents(p, json_encode(value))`: writes when the parent is a directory and `p` is not one. */
  function Put(entries: map<Path, Node>, p: Path, value: Json): (r: map<Path, Node>)
    requires |p| > 0
    ensures IsDirIn(entries, p[..|p| - 1]) && !IsDirIn(entries, p) ==> r == entries[p := File(Data(value))]
    ensures !(IsDirIn(entries, p[..|p| - 1]) && !IsDirIn(entries, p)) ==> r == entries
    ensures Touched(entries, r, p)
  {
    if IsDirIn(entries, p[..|p| - 1]) && !IsDirIn(entries, p) then entries[p := File(Data(value))] else entries
  }

  /** `copy(src, dst)`: duplicates a regular file into an existing directory; fails quietly otherwise,
      and on an empty destination. */
  predicate CopyLands(entries: map<Path, Node>, src: Path, dst: Path) {
    |dst| > 0 && RegularFile(entries, src) && IsDirIn(entries, dst[..|dst| - 1]) && !IsDirIn(entries, dst)
  }

  function Copied(entries: map<Path, Node>, src: Path, dst: Path): (r: map<Path, Node>)
    ensures CopyLands(entries, src, dst) ==> r == entries[dst := entries[src]]
    ensures !CopyLands(entries, src, dst) ==> r == entries
    ensures Touched(entries, r, dst)
  {
    if CopyLands(entries, src, dst) then entries[dst := entries[src]] else entries
  }

  class FileSystem {
    var entries: map<Path, Node>
    /** Every `copy` call, successful or not, as (source, destination). */
    ghost var copies: seq<(Path, Path)>

    constructor (initial: map<Path, Node>)
      ensures entries == initial && copies == []
    {
      entries := initial;
      copies := [];
    }

    predicate IsDir(p: Path)
      reads this
    {
      p in entries && entries[p] == Dir
    }

    predicate IsFile(p: Path)
      reads this
    {
      p in entries && entries[p].File?
    }

    /** `mkdir(p, 0777, true)`: creates `p` and every missing ancestor; what already exists is left alone. */
    method MakeDirs(p: Path)
      modifies this
      ensures entries == WithDirs(old(entries), p)
      ensures |p| >= 1 && p !in old(entries) ==> IsDir(p)
      ensures copies == old(copies)
    {
      entries := WithDirs(entries, p);
    }

    method MakeDir(p: Path)
      requires |p| > 0
      modifies this
      ensures entries == MadeDir(old(entries), p)
      ensures copies == old(copies)
    {
      if IsDir(p[..|p| - 1]) && p !in entries {
        entries := entries[p := Dir];
      }
    }

    method PutJson(p: Path, value: Json)
      requires |p| > 0
      modifies this
      ensures entries == Put(old(entries), p, value)
      ensures copies == old(copies)
    {
      if IsDir(p[..|p| - 1]) && !IsDir(p) {
        entries := entries[p := File(Data(value))];
      }
    }

    /** Every call is recorded, whether or not it succeeds. */
    method Copy(src: Path, dst: Path)
      modifies this
      ensures entries == Copied(old(entries), src, dst)
      ensures copies == old(copies) + [(src, dst)]
    {
      if |dst| > 0 && IsFile(src) && IsDir(dst[..|dst| - 1]) && !IsDir(dst) {
        entries := entries[dst := entries[src]];
      }
      copies := copies + [(src, dst)];
    }

    /** `unlink(p)`: removes a regular file. */
    method Unlink(p: Path)
      modifies this
      ensures entries == Unlinked(old(entries), p)
      ensures copies == old(copies)
    {
      entries := Unlinked(entries, p);
    }

    /** `rename(from, to)`: a regular file moves, replacing whatever file was at `to`, and a directory
        moves with everything below it. */
    method Rename(from: Path, to: Path)
      modifies this
      ensures entries == Renamed(old(entries), from, to)
      ensures copies == old(copies)
    {
      entries := Renamed(entries, from, to);
    }

    /** The recursive delete both exporters use: nothing when `dir` is missing, else `dir` and all below it go. */
    method RemoveDirectory(dir: Path)
      modifies this
      ensures entries == if dir in old(entries) then Without(old(entries), dir) else old(entries)
      ensures dir in old(entries) ==> forall p :: p in entries ==> !Under(dir, p)
      ensures copies == old(copies)
    {
      if dir in entries {
        entries := Without(entries, dir);
      }
    }

    /** `ExtendedZip::zipTree(root, zip, CREATE, 'content')`; `written` says whether ZipArchive produced the file. */
    method ZipTree(root: Path, zip: Path, written: bool)
      modifies this
      ensures entries == if written then old(entries)[zip := File(Archive(root))] else old(entries)
      ensures copies == old(copies)
    {
      if written {
        entries := entries[zip := File(Archive(root))];
      }
    }

    // `glob($dir . '/*.zip')`: the matching names, sorted in strcmp order as glob returns them.
    method Glob(dir: Path) returns (names: seq<string>)
      ensures names == SortedList(ZipNames(entries, dir))
    {
      names := SortStrings(ZipNames(entries, dir));
    }
  }
}
