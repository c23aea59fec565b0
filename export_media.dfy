/** The list of export archives shown to users: decoded, grouped by package slug, newest first. */
module ExportMedia {
  import opened Wrappers
  import opened Text
  import opened Disk
  import opened Filenames
  import opened ExportsStore

  /** One row of the listing, as `get` builds it for an archive. */
  datatype MediaEntry = MediaEntry(date: string, filename: string, filepath: Path, isSlim: bool, package: string, timestamp: int)

  /** A decoded archive: the slug it is filed under and its row. */
  datatype Found = Found(slug: string, entry: MediaEntry)

  /** The rows of one slug, in the order the listing shows them. */
  datatype Group = Group(slug: string, entries: seq<MediaEntry>)

  /** What calling `format` on the `false` that `createFromFormat` returned throws. */
  const FormatOnFalse: string := "Call to a member function format() on bool"

  /** The body of the glob loop for one name: skip it, file it under its slug, or throw. */
  function MediaOf(name: string, relativeDir: Path, parse: DateParser, lookup: PackageLookup): (r: Result<Option<Found>>)
    ensures Decode(name).None? ==> r == Ok(None)
    ensures Decode(name).Some? ==> (r.Err? <==> parse(Decode(name).value.datePiece).None?) && (r.Ok? ==> r.value.Some?)
    ensures r.Ok? && r.value.Some? ==> (Decode(name).Some? &&
      var d := Decode(name).value;
      var f := r.value.value;
      f.slug == d.slug && f.entry.filename == name && f.entry.filepath == relativeDir + [name] &&
      f.entry.isSlim == d.isSlim &&
      (lookup(d.slug).None? ==> f.entry.package == "") &&
      (lookup(d.slug).Some? ==> f.entry.package == lookup(d.slug).value.name))
  {
    match Decode(name)
    case None => Ok(None)
    case Some(d) =>
      var packageName := if lookup(d.slug).Some? then lookup(d.slug).value.name else "";
      match parse(d.datePiece)
      case None => Err(FormatOnFalse)
      case Some(date) =>
        Ok(Some(Found(d.slug, MediaEntry(date.display, name, relativeDir + [name], d.isSlim, packageName, date.timestamp))))
  }

  /** The decoded archives of `names` in order, or the first error. */
  function Collect(names: seq<string>, relativeDir: Path, parse: DateParser, lookup: PackageLookup): Result<seq<Found>>
    decreases |names|
  {
    if |names| == 0 then Ok([])
    else match MediaOf(names[0], relativeDir, parse, lookup)
      case Err(m) => Err(m)
      case Ok(found) =>
        match Collect(names[1..], relativeDir, parse, lookup)
        case Err(m) => Err(m)
        case Ok(rest) => Ok((if found.Some? then [found.value] else []) + rest)
  }

  /** The slugs that occur among `found`. */
  function Slugs(found: seq<Found>): (r: set<string>)
    ensures forall k :: k in r <==> exists f :: f in found && f.slug == k
  {
    set f | f in found :: f.slug
  }

  /** The rows filed under `slug`, in glob order. */
  function GroupOf(found: seq<Found>, slug: string): (r: seq<MediaEntry>)
    ensures |r| <= |found|
  {
    if |found| == 0 then []
    else GroupOf(found[..|found| - 1], slug) + (if found[|found| - 1].slug == slug then [found[|found| - 1].entry] else [])
  }

  /** The `$files` dictionary: for each slug, its rows in glob order. */
  function Grouped(found: seq<Found>): (r: map<string, seq<MediaEntry>>)
    ensures r.Keys == Slugs(found)
  {
    map k | k in Slugs(found) :: GroupOf(found, k)
  }

  /** Rows with non-increasing timestamps. */
  predicate Descending(es: seq<MediaEntry>) {
    forall i, j :: 0 <= i < j < |es| ==> es[i].timestamp >= es[j].timestamp
  }

  /** Puts `e` after every row at least as recent, as a stable sort does with a later element. */
  function InsertDesc(sorted: seq<MediaEntry>, e: MediaEntry): (r: seq<MediaEntry>)
    ensures multiset(r) == multiset(sorted) + multiset{e}
  {
    if |sorted| == 0 then [e]
    else
      var last := sorted[|sorted| - 1];
      assert sorted == sorted[..|sorted| - 1] + [last];
      if last.timestamp >= e.timestamp then sorted + [e]
      else InsertDesc(sorted[..|sorted| - 1], e) + [last]
  }

  /** Inserting keeps every row at least as recent as a bound that all the rows and `e` meet. */
  lemma {:induction false} InsertDescAbove(sorted: seq<MediaEntry>, e: MediaEntry, t: int)
    requires forall k :: 0 <= k < |sorted| ==> sorted[k].timestamp >= t
    requires e.timestamp >= t
    ensures forall k :: 0 <= k < |InsertDesc(sorted, e)| ==> InsertDesc(sorted, e)[k].timestamp >= t
    decreases |sorted|
  {
    if |sorted| > 0 && sorted[|sorted| - 1].timestamp < e.timestamp {
      InsertDescAbove(sorted[..|sorted| - 1], e, t);
    }
  }

  lemma {:induction false} InsertDescSorted(sorted: seq<MediaEntry>, e: MediaEntry)
    requires Descending(sorted)
    ensures Descending(InsertDesc(sorted, e))
    decreases |sorted|
  {
    if |sorted| > 0 {
      var last := sorted[|sorted| - 1];
      var init := sorted[..|sorted| - 1];
      if last.timestamp < e.timestamp {
        InsertDescSorted(init, e);
        InsertDescAbove(init, e, last.timestamp);
      }
    }
  }

  /** The rows stamped `t`, in their order. */
  function OfTime(es: seq<MediaEntry>, t: int): (r: seq<MediaEntry>)
    ensures forall e :: e in r <==> e in es && e.timestamp == t
  {
    if |es| == 0 then []
    else
      assert es == es[..|es| - 1] + [es[|es| - 1]];
      OfTime(es[..|es| - 1], t) + (if es[|es| - 1].timestamp == t then [es[|es| - 1]] else [])
  }

  lemma OfTimeAppend(es: seq<MediaEntry>, e: MediaEntry, t: int)
    ensures OfTime(es + [e], t) == OfTime(es, t) + (if e.timestamp == t then [e] else [])
  {
    assert (es + [e])[..|es|] == es;
  }

  /** Inserting `e` passes only rows strictly older than it, so among rows of one timestamp it comes last. */
  lemma {:induction false} InsertDescStable(sorted: seq<MediaEntry>, e: MediaEntry, t: int)
    ensures OfTime(InsertDesc(sorted, e), t) == OfTime(sorted, t) + (if e.timestamp == t then [e] else [])
    decreases |sorted|
  {
    if |sorted| == 0 {
      OfTimeAppend([], e, t);
      assert [] + [e] == [e];
    } else {
      var last := sorted[|sorted| - 1];
      var init := sorted[..|sorted| - 1];
      assert sorted == init + [last];
      if last.timestamp >= e.timestamp {
        assert InsertDesc(sorted, e) == sorted + [e];
        OfTimeAppend(sorted, e, t);
      } else {
        var ins := InsertDesc(init, e);
        assert InsertDesc(sorted, e) == ins + [last];
        InsertDescStable(init, e, t);
        OfTimeAppend(ins, last, t);
        OfTimeAppend(init, last, t);
        // `last` is strictly older than `e`, so at most one of them is stamped `t`.
        if e.timestamp == t {
          assert OfTime(sorted, t) == OfTime(init, t);
          assert OfTime(ins + [last], t) == OfTime(ins, t);
        } else {
          assert OfTime(ins, t) == OfTime(init, t);
        }
      }
    }
  }

  /** `uasort` by timestamp, newest first; rows with equal timestamps keep their order (PHP 8's sort is stable). */
  function SortDesc(es: seq<MediaEntry>): (r: seq<MediaEntry>)
    ensures multiset(r) == multiset(es)
    ensures Descending(r)
  {
    if |es| == 0 then []
    else
      assert es == es[..|es| - 1] + [es[|es| - 1]];
      InsertDescSorted(SortDesc(es[..|es| - 1]), es[|es| - 1]);
      InsertDesc(SortDesc(es[..|es| - 1]), es[|es| - 1])
  }

  /** The sort is stable: the rows of any one timestamp come out in the order they went in. */
  lemma {:induction false} SortDescStable(es: seq<MediaEntry>, t: int)
    ensures OfTime(SortDesc(es), t) == OfTime(es, t)
    decreases |es|
  {
    if |es| > 0 {
      var init := es[..|es| - 1];
      assert es == init + [es[|es| - 1]];
      SortDescStable(init, t);
      InsertDescStable(SortDesc(init), es[|es| - 1], t);
      OfTimeAppend(init, es[|es| - 1], t);
    }
  }

  /** The groups in slug order, each sorted newest first. */
  function SortedGroups(files: map<string, seq<MediaEntry>>, keys: seq<string>): (r: seq<Group>)
    requires forall i :: 0 <= i < |keys| ==> keys[i] in files
    ensures |r| == |keys|
    ensures forall i :: 0 <= i < |keys| ==> r[i].slug == keys[i] && r[i].entries == SortDesc(files[keys[i]])
  {
    if |keys| == 0 then []
    else
      var n := |keys| - 1;
      var init := SortedGroups(files, keys[..n]);
      init + [Group(keys[n], SortDesc(files[keys[n]]))]
  }

  /** `get($absolute, $relative, $format)`: nothing for a missing directory; else the groups sorted by slug. */
  ghost function MediaListing(entries: map<Path, Node>, dir: Path, relativeDir: Path, parse: DateParser, lookup: PackageLookup): (r: Result<seq<Group>>)
    ensures r.Ok? ==> forall i, j :: 0 <= i < j < |r.value| ==> LexLess(r.value[i].slug, r.value[j].slug)
    ensures r.Ok? ==> forall i :: 0 <= i < |r.value| ==> Descending(r.value[i].entries)
  {
    if dir !in entries then Ok([])
    else match Collect(SortedList(ZipNames(entries, dir)), relativeDir, parse, lookup)
      case Err(m) => Err(m)
      case Ok(found) => Ok(SortedGroups(Grouped(found), SortedList(Slugs(found))))
  }

  lemma CollectStep(names: seq<string>, i: nat, relativeDir: Path, parse: DateParser, lookup: PackageLookup, found: seq<Found>)
    requires i < |names|
    ensures var m := MediaOf(names[i], relativeDir, parse, lookup);
      m.Err? ==> Prefix(found, Collect(names[i..], relativeDir, parse, lookup)) == Err(m.message)
    ensures var m := MediaOf(names[i], relativeDir, parse, lookup);
      m.Ok? && m.value.None? ==>
        Prefix(found, Collect(names[i..], relativeDir, parse, lookup)) == Prefix(found, Collect(names[i + 1..], relativeDir, parse, lookup))
    ensures var m := MediaOf(names[i], relativeDir, parse, lookup);
      m.Ok? && m.value.Some? ==>
        Prefix(found, Collect(names[i..], relativeDir, parse, lookup)) == Prefix(found + [m.value.value], Collect(names[i + 1..], relativeDir, parse, lookup))
  {
    assert names[i..][1..] == names[i + 1..];
    var m := MediaOf(names[i], relativeDir, parse, lookup);
    if m.Ok? {
      var later := Collect(names[i + 1..], relativeDir, parse, lookup);
      if later.Ok? {
        if m.value.Some? {
          assert found + ([m.value.value] + later.value) == (found + [m.value.value]) + later.value;
        } else {
          assert [] + later.value == later.value;
        }
      }
    }
  }

  function Prefix(found: seq<Found>, later: Result<seq<Found>>): Result<seq<Found>> {
    match later
    case Err(m) => Err(m)
    case Ok(rest) => Ok(found + rest)
  }

  /** Filing one more decoded archive into the dictionary. */
  lemma GroupedAppend(found: seq<Found>, f: Found)
    ensures var files := Grouped(found);
      Grouped(found + [f]) == files[f.slug := (if f.slug in files then files[f.slug] else []) + [f.entry]]
  {
    var files := Grouped(found);
    var after := found + [f];
    var want := files[f.slug := (if f.slug in files then files[f.slug] else []) + [f.entry]];
    assert after[..|after| - 1] == found;
    assert Slugs(after) == Slugs(found) + {f.slug} by {
      assert forall g :: g in after <==> g in found || g == f;
    }
    assert Grouped(after).Keys == want.Keys;
    assert forall k :: k in Slugs(after) ==> GroupOf(after, k) == want[k] by {
      forall k | k in Slugs(after)
        ensures GroupOf(after, k) == want[k]
      {
        assert GroupOf(after, k) == GroupOf(found, k) + (if f.slug == k then [f.entry] else []);
        if k == f.slug && f.slug !in files {
          GroupOfAbsent(found, f.slug);
        }
      }
    }
  }

  lemma {:induction false} GroupOfAbsent(found: seq<Found>, slug: string)
    requires slug !in Slugs(found)
    ensures GroupOf(found, slug) == []
  {
    if |found| > 0 {
      assert found[|found| - 1] in found;
      assert forall g :: g in found[..|found| - 1] ==> g in found;
      GroupOfAbsent(found[..|found| - 1], slug);
    }
  }

  /** The glob loop: decode each name and file its row under its slug. */
  method Gather(names: seq<string>, relativeDir: Path, parse: DateParser, lookup: PackageLookup) returns (r: Result<map<string, seq<MediaEntry>>>)
    ensures Collect(names, relativeDir, parse, lookup).Err? ==> r == Err(Collect(names, relativeDir, parse, lookup).message)
    ensures Collect(names, relativeDir, parse, lookup).Ok? ==> r == Ok(Grouped(Collect(names, relativeDir, parse, lookup).value))
  {
    var files: map<string, seq<MediaEntry>> := map[];
    ghost var found: seq<Found> := [];
    ghost var total := Collect(names, relativeDir, parse, lookup);
    assert names[0..] == names;
    assert total.Ok? ==> [] + total.value == total.value;
    var i := 0;
    while i < |names|
      invariant 0 <= i <= |names|
      invariant total == Prefix(found, Collect(names[i..], relativeDir, parse, lookup))
      invariant files == Grouped(found)
    {
      CollectStep(names, i, relativeDir, parse, lookup, found);
      var m := MediaOf(names[i], relativeDir, parse, lookup);
      if m.Err? {
        return Err(m.message);
      }
      if m.value.Some? {
        var f := m.value.value;
        GroupedAppend(found, f);
        var row := if f.slug in files then files[f.slug] else [];
        files := files[f.slug := row + [f.entry]];
        found := found + [f];
      }
      i := i + 1;
    }
    assert names[i..] == [];
    assert found + [] == found;
    return Ok(files);
  }

  lemma SortedGroupsStep(files: map<string, seq<MediaEntry>>, keys: seq<string>, i: nat)
    requires i < |keys|
    requires forall k :: 0 <= k < |keys| ==> keys[k] in files
    ensures SortedGroups(files, keys[..i + 1]) == SortedGroups(files, keys[..i]) + [Group(keys[i], SortDesc(files[keys[i]]))]
  {
    assert keys[..i + 1][..i] == keys[..i];
  }

  /** Sorting each group and ordering the groups by slug (`uasort`, then `ksort`). */
  method SortGroups(files: map<string, seq<MediaEntry>>) returns (sorted: seq<Group>)
    ensures sorted == SortedGroups(files, SortedList(files.Keys))
  {
    var keys := SortStrings(files.Keys);
    assert forall k :: 0 <= k < |keys| ==> keys[k] in files;
    sorted := [];
    var i := 0;
    while i < |keys|
      invariant 0 <= i <= |keys|
      invariant sorted == SortedGroups(files, keys[..i])
    {
      SortedGroupsStep(files, keys, i);
      var group := SortDesc(files[keys[i]]);
      sorted := sorted + [Group(keys[i], group)];
      i := i + 1;
    }
    assert keys[..i] == keys;
  }

  class Media {
    const lookup: PackageLookup

    constructor (lookup: PackageLookup)
      ensures this.lookup == lookup
    {
      this.lookup := lookup;
    }

    method Get(fs: FileSystem, dir: Path, relativeDir: Path, parse: DateParser) returns (r: Result<seq<Group>>)
      ensures r == MediaListing(fs.entries, dir, relativeDir, parse, lookup)
    {
      if dir !in fs.entries {
        return Ok([]);
      }
      var names := fs.Glob(dir);
      var files := Gather(names, relativeDir, parse, lookup);
      if files.Err? {
        return Err(files.message);
      }
      var sorted := SortGroups(files.value);
      return Ok(sorted);
    }
  }

  /** A decoded archive is collected exactly when it is what one of the names yields. */
  lemma {:induction false} CollectMember(names: seq<string>, relativeDir: Path, parse: DateParser, lookup: PackageLookup, f: Found)
    requires Collect(names, relativeDir, parse, lookup).Ok?
    ensures f in Collect(names, relativeDir, parse, lookup).value <==>
      f.entry.filename in names && MediaOf(f.entry.filename, relativeDir, parse, lookup) == Ok(Some(f))
    decreases |names|
  {
    if |names| > 0 {
      CollectMember(names[1..], relativeDir, parse, lookup, f);
      assert forall n :: n in names <==> n == names[0] || n in names[1..];
    }
  }

  /** Collecting succeeds exactly when no decodable name has an unparsable date. */
  lemma {:induction false} CollectOk(names: seq<string>, relativeDir: Path, parse: DateParser, lookup: PackageLookup)
    ensures Collect(names, relativeDir, parse, lookup).Ok? <==>
      forall n :: n in names ==> MediaOf(n, relativeDir, parse, lookup).Ok?
    decreases |names|
  {
    if |names| > 0 {
      CollectOk(names[1..], relativeDir, parse, lookup);
      assert forall n :: n in names <==> n == names[0] || n in names[1..];
    }
  }

  lemma {:induction false} GroupOfMember(found: seq<Found>, slug: string, e: MediaEntry)
    ensures e in GroupOf(found, slug) <==> Found(slug, e) in found
  {
    if |found| > 0 {
      GroupOfMember(found[..|found| - 1], slug, e);
      assert found == found[..|found| - 1] + [found[|found| - 1]];
      assert forall g :: g in found <==> g in found[..|found| - 1] || g == found[|found| - 1];
    }
  }

  /** Every row sits under the slug its filename decodes to, and comes from an archive in the directory. */
  lemma MediaRowFiled(entries: map<Path, Node>, dir: Path, relativeDir: Path, parse: DateParser, lookup: PackageLookup, i: nat, e: MediaEntry)
    requires MediaListing(entries, dir, relativeDir, parse, lookup).Ok?
    requires i < |MediaListing(entries, dir, relativeDir, parse, lookup).value|
    requires e in MediaListing(entries, dir, relativeDir, parse, lookup).value[i].entries
    ensures e.filename in ZipNames(entries, dir) && Decode(e.filename).Some?
    ensures Decode(e.filename).value.slug == MediaListing(entries, dir, relativeDir, parse, lookup).value[i].slug
  {
    var names := SortedList(ZipNames(entries, dir));
    var found := Collect(names, relativeDir, parse, lookup).value;
    var keys := SortedList(Slugs(found));
    var g := MediaListing(entries, dir, relativeDir, parse, lookup).value[i];
    assert g.slug == keys[i] && g.entries == SortDesc(Grouped(found)[keys[i]]);
    assert e in multiset(g.entries);
    assert e in GroupOf(found, g.slug);
    GroupOfMember(found, g.slug, e);
    CollectMember(names, relativeDir, parse, lookup, Found(g.slug, e));
  }

  /** Every archive in the directory that decodes has its row under its own slug. */
  lemma MediaFileListed(entries: map<Path, Node>, dir: Path, relativeDir: Path, parse: DateParser, lookup: PackageLookup, name: string)
    requires MediaListing(entries, dir, relativeDir, parse, lookup).Ok?
    requires dir in entries && name in ZipNames(entries, dir) && Decode(name).Some?
    ensures var gs := MediaListing(entries, dir, relativeDir, parse, lookup).value;
      exists i, e :: 0 <= i < |gs| && e in gs[i].entries && e.filename == name && gs[i].slug == Decode(name).value.slug
  {
    var names := SortedList(ZipNames(entries, dir));
    CollectOk(names, relativeDir, parse, lookup);
    var found := Collect(names, relativeDir, parse, lookup).value;
    var f := MediaOf(name, relativeDir, parse, lookup).value.value;
    CollectMember(names, relativeDir, parse, lookup, f);
    assert f.slug in Slugs(found);
    var keys := SortedList(Slugs(found));
    var i :| 0 <= i < |keys| && keys[i] == f.slug;
    GroupOfMember(found, f.slug, f.entry);
    var gs := MediaListing(entries, dir, relativeDir, parse, lookup).value;
    assert gs[i].entries == SortDesc(Grouped(found)[f.slug]);
    assert f.entry in multiset(gs[i].entries);
  }

  /** Names that are strictly sorted never repeat, so no decoded archive is collected twice. */
  lemma {:induction false} CollectOnce(names: seq<string>, relativeDir: Path, parse: DateParser, lookup: PackageLookup, f: Found)
    requires StrictlySorted(names)
    requires Collect(names, relativeDir, parse, lookup).Ok?
    ensures multiset(Collect(names, relativeDir, parse, lookup).value)[f] == if f in Collect(names, relativeDir, parse, lookup).value then 1 else 0
    decreases |names|
  {
    if |names| > 0 {
      var rest := Collect(names[1..], relativeDir, parse, lookup);
      var m := MediaOf(names[0], relativeDir, parse, lookup);
      assert StrictlySorted(names[1..]);
      CollectOnce(names[1..], relativeDir, parse, lookup, f);
      if m.value.Some? && m.value.value == f {
        CollectMember(names[1..], relativeDir, parse, lookup, f);
        if names[0] in names[1..] {
          var j :| 0 <= j < |names[1..]| && names[1..][j] == names[0];
          assert LexLess(names[0], names[j + 1]);
          LexLessIrreflexive(names[0]);
        }
      }
    }
  }

  /** A slug's group holds a row as often as the decoded archives hold it under that slug. */
  lemma {:induction false} GroupOfCount(found: seq<Found>, slug: string, e: MediaEntry)
    ensures multiset(GroupOf(found, slug))[e] == multiset(found)[Found(slug, e)]
    decreases |found|
  {
    if |found| > 0 {
      var init := found[..|found| - 1];
      GroupOfCount(init, slug, e);
      assert found == init + [found[|found| - 1]];
    }
  }

  /** Every archive in the directory that decodes has its row exactly once in the listing: once in
      the group of its own slug, and in no other group. */
  lemma MediaFileOnce(entries: map<Path, Node>, dir: Path, relativeDir: Path, parse: DateParser, lookup: PackageLookup, name: string)
    requires MediaListing(entries, dir, relativeDir, parse, lookup).Ok?
    requires dir in entries && name in ZipNames(entries, dir) && Decode(name).Some?
    ensures MediaOf(name, relativeDir, parse, lookup).Ok? && MediaOf(name, relativeDir, parse, lookup).value.Some?
    ensures var gs := MediaListing(entries, dir, relativeDir, parse, lookup).value;
      var f := MediaOf(name, relativeDir, parse, lookup).value.value;
      forall i :: 0 <= i < |gs| ==>
        multiset(gs[i].entries)[f.entry] == if gs[i].slug == Decode(name).value.slug then 1 else 0
  {
    var names := SortedList(ZipNames(entries, dir));
    CollectOk(names, relativeDir, parse, lookup);
    var found := Collect(names, relativeDir, parse, lookup).value;
    var f := MediaOf(name, relativeDir, parse, lookup).value.value;
    CollectMember(names, relativeDir, parse, lookup, f);
    var keys := SortedList(Slugs(found));
    var gs := MediaListing(entries, dir, relativeDir, parse, lookup).value;
    forall i | 0 <= i < |gs|
      ensures multiset(gs[i].entries)[f.entry] == if gs[i].slug == Decode(name).value.slug then 1 else 0
    {
      assert gs[i].slug == keys[i] && gs[i].entries == SortDesc(Grouped(found)[keys[i]]);
      GroupOfCount(found, keys[i], f.entry);
      var g := Found(keys[i], f.entry);
      CollectOnce(names, relativeDir, parse, lookup, g);
      if keys[i] != f.slug {
        CollectMember(names, relativeDir, parse, lookup, g);
      }
    }
  }
}
