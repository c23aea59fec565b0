/** The file-based store of package exports: the archives directly inside one directory. */
module ExportsStore {
  import opened Wrappers
  import opened Text
  import opened Disk
  import opened Filenames

  /** A parsed export date: what `format('M j, Y g:i A')` and `getTimestamp()` give for it. */
  datatype DateInfo = DateInfo(display: string, timestamp: int)

  /** The package an export belongs to: the `name` and `slug` of the package model. */
  datatype PackageInfo = PackageInfo(name: string, slug: string)

  /** One archive of the exports directory. */
  datatype PackageExport = PackageExport(
    absolutePath: Path,
    exportDate: string,
    exportTimestamp: int,
    isSlim: bool,
    filename: string,
    package: PackageInfo,
    publicPath: Path)

  /** `DateTime::createFromFormat` with the configured format: `None` where PHP returns false. */
  type DateParser = string -> Option<DateInfo>

  /** `PackagesStore::findBySlug`: `None` where it finds nothing. */
  type PackageLookup = string -> Option<PackageInfo>

  /** What the typed `PackageExport` constructor throws when handed `false` for its date, without
      the `, called in ... on line N` that PHP appends. */
  const DateTypeError: string := "App\\Models\\PackageExport::__construct(): Argument #2 ($exportedOn) must be of type DateTime, bool given"

  /** `buildExport($filename)`: `Ok(None)` for a name that does not decode, an error for an unparsable date. */
  function BuildExport(dir: Path, relativeDir: Path, name: string, parse: DateParser, lookup: PackageLookup): (r: Result<Option<PackageExport>>)
    ensures Decode(name).None? ==> r == Ok(None)
    ensures Decode(name).Some? ==> (r.Err? <==> parse(Decode(name).value.datePiece).None?) && (r.Ok? ==> r.value.Some?)
    ensures r.Ok? && r.value.Some? ==> (Decode(name).Some? &&
      var d := Decode(name).value;
      var e := r.value.value;
      e.filename == name && e.absolutePath == dir + [name] && e.publicPath == relativeDir + [name] &&
      e.isSlim == d.isSlim && e.package == lookup(d.slug).GetOr(PackageInfo(d.slug, d.slug)) &&
      e.exportDate == parse(d.datePiece).value.display && e.exportTimestamp == parse(d.datePiece).value.timestamp)
  {
    match Decode(name)
    case None => Ok(None)
    case Some(d) =>
      match parse(d.datePiece)
      case None => Err(DateTypeError)
      case Some(date) =>
        var package := lookup(d.slug).GetOr(PackageInfo(d.slug, d.slug));
        Ok(Some(PackageExport(dir + [name], date.display, date.timestamp, d.isSlim, name, package, relativeDir + [name])))
  }

  /** The exports built from `names` in order, or the first error thrown. */
  function BuildAll(dir: Path, relativeDir: Path, names: seq<string>, parse: DateParser, lookup: PackageLookup): Result<seq<PackageExport>>
    decreases |names|
  {
    if |names| == 0 then Ok([])
    else match BuildExport(dir, relativeDir, names[0], parse, lookup)
      case Err(m) => Err(m)
      case Ok(found) =>
        Then(if found.Some? then [found.value] else [], BuildAll(dir, relativeDir, names[1..], parse, lookup))
  }

  /** `buildExport` as evidently intended: a name whose date does not parse is passed over, like a
      name that does not decode, instead of reaching the typed constructor. */
  function BuildExportSkipping(dir: Path, relativeDir: Path, name: string, parse: DateParser, lookup: PackageLookup): (r: Result<Option<PackageExport>>)
    ensures r.Ok?
    ensures r.value.Some? <==> Decode(name).Some? && parse(Decode(name).value.datePiece).Some?
    ensures r.value.Some? ==> r == BuildExport(dir, relativeDir, name, parse, lookup)
  {
    match Decode(name)
    case None => Ok(None)
    case Some(d) => if parse(d.datePiece).None? then Ok(None) else BuildExport(dir, relativeDir, name, parse, lookup)
  }

  /** The listing loop over `names` with `BuildExportSkipping`. */
  function BuildAllSkipping(dir: Path, relativeDir: Path, names: seq<string>, parse: DateParser, lookup: PackageLookup): Result<seq<PackageExport>>
    decreases |names|
  {
    if |names| == 0 then Ok([])
    else match BuildExportSkipping(dir, relativeDir, names[0], parse, lookup)
      case Err(m) => Err(m)
      case Ok(found) =>
        Then(if found.Some? then [found.value] else [], BuildAllSkipping(dir, relativeDir, names[1..], parse, lookup))
  }

  /** `xs` in front of a later result, an error staying an error. */
  function Then(xs: seq<PackageExport>, later: Result<seq<PackageExport>>): Result<seq<PackageExport>> {
    match later
    case Err(m) => Err(m)
    case Ok(ys) => Ok(xs + ys)
  }

  /** One step of the listing loop: an error ends it, otherwise the found export joins those before it. */
  lemma BuildAllStep(dir: Path, relativeDir: Path, names: seq<string>, i: nat, parse: DateParser, lookup: PackageLookup, exports: seq<PackageExport>)
    requires i < |names|
    ensures var built := BuildExport(dir, relativeDir, names[i], parse, lookup);
      Then(exports, BuildAll(dir, relativeDir, names[i..], parse, lookup)) ==
        if built.Err? then Err(built.message)
        else Then(exports + (if built.value.Some? then [built.value.value] else []), BuildAll(dir, relativeDir, names[i + 1..], parse, lookup))
  {
    assert names[i..][1..] == names[i + 1..];
    var built := BuildExport(dir, relativeDir, names[i], parse, lookup);
    if built.Ok? {
      var later := BuildAll(dir, relativeDir, names[i + 1..], parse, lookup);
      if later.Ok? {
        var found := if built.value.Some? then [built.value.value] else [];
        assert exports + (found + later.value) == (exports + found) + later.value;
      }
    }
  }

  /** The `foreach` of `findAll` over the glob result. */
  method BuildEach(dir: Path, relativeDir: Path, names: seq<string>, parse: DateParser, lookup: PackageLookup) returns (r: Result<seq<PackageExport>>)
    ensures r == BuildAll(dir, relativeDir, names, parse, lookup)
  {
    var exports := [];
    var i := 0;
    assert names[0..] == names;
    ghost var total := BuildAll(dir, relativeDir, names, parse, lookup);
    assert total.Ok? ==> [] + total.value == total.value;
    while i < |names|
      invariant 0 <= i <= |names|
      invariant total == Then(exports, BuildAll(dir, relativeDir, names[i..], parse, lookup))
    {
      BuildAllStep(dir, relativeDir, names, i, parse, lookup, exports);
      var built := BuildExport(dir, relativeDir, names[i], parse, lookup);
      if built.Err? {
        return Err(built.message);
      }
      if built.value.Some? {
        exports := exports + [built.value.value];
      } else {
        assert exports + [] == exports;
      }
      i := i + 1;
    }
    assert names[i..] == [];
    assert exports + [] == exports;
    return Ok(exports);
  }

  /** `findAll()`: nothing for a missing directory, else the decodable archives in glob order. */
  ghost function ListingOf(entries: map<Path, Node>, dir: Path, relativeDir: Path, parse: DateParser, lookup: PackageLookup): Result<seq<PackageExport>> {
    if dir !in entries then Ok([])
    else BuildAll(dir, relativeDir, SortedList(ZipNames(entries, dir)), parse, lookup)
  }

  /** `findAll()` with `BuildExportSkipping`. */
  ghost function ListingSkipping(entries: map<Path, Node>, dir: Path, relativeDir: Path, parse: DateParser, lookup: PackageLookup): Result<seq<PackageExport>> {
    if dir !in entries then Ok([])
    else BuildAllSkipping(dir, relativeDir, SortedList(ZipNames(entries, dir)), parse, lookup)
  }

  /** The exports whose package has `slug`, in their listed order. */
  function OfSlug(xs: seq<PackageExport>, slug: string): (r: seq<PackageExport>)
    ensures forall x :: x in r <==> x in xs && x.package.slug == slug
  {
    if |xs| == 0 then []
    else
      assert xs == xs[..|xs| - 1] + [xs[|xs| - 1]];
      OfSlug(xs[..|xs| - 1], slug) + (if xs[|xs| - 1].package.slug == slug then [xs[|xs| - 1]] else [])
  }

  lemma OfSlugEmpty(xs: seq<PackageExport>, slug: string)
    ensures OfSlug(xs, slug) == [] <==> forall x :: x in xs ==> x.package.slug != slug
  {
    if OfSlug(xs, slug) != [] {
      assert OfSlug(xs, slug)[0] in OfSlug(xs, slug);
    }
  }

  /** The `foreach` of `findBySlug`: keep the exports whose package slug is `slug`. */
  method FilterSlug(xs: seq<PackageExport>, slug: string) returns (r: seq<PackageExport>)
    ensures r == OfSlug(xs, slug)
  {
    r := [];
    var i := 0;
    while i < |xs|
      invariant 0 <= i <= |xs|
      invariant r == OfSlug(xs[..i], slug)
    {
      assert xs[..i + 1][..i] == xs[..i];
      if xs[i].package.slug == slug {
        r := r + [xs[i]];
      }
      i := i + 1;
    }
    assert xs[..i] == xs;
  }

  function Paths(xs: seq<PackageExport>): (r: seq<Path>)
    ensures |r| == |xs| && forall i :: 0 <= i < |xs| ==> r[i] == xs[i].absolutePath
  {
    seq(|xs|, i requires 0 <= i < |xs| => xs[i].absolutePath)
  }

  /** The entries after unlinking each path in turn. */
  function UnlinkAll(entries: map<Path, Node>, ps: seq<Path>): map<Path, Node>
  {
    if |ps| == 0 then entries else Unlinked(UnlinkAll(entries, ps[..|ps| - 1]), ps[|ps| - 1])
  }

  /** The path `updateSlug` moves an export to: the new file name, kept as one name, in the exports
      directory. `Path::join` would nest a name holding `/` in directories that need not exist. */
  function RenameTarget(dir: Path, e: PackageExport, newSlug: string, dateText: string): Path {
    dir + [Filename(newSlug, dateText, e.isSlim)]
  }

  /** The entries after renaming each export in turn. */
  function RenameAll(entries: map<Path, Node>, xs: seq<PackageExport>, dir: Path, newSlug: string, dateText: string): map<Path, Node>
  {
    if |xs| == 0 then entries
    else Renamed(RenameAll(entries, xs[..|xs| - 1], dir, newSlug, dateText), xs[|xs| - 1].absolutePath, RenameTarget(dir, xs[|xs| - 1], newSlug, dateText))
  }

  /** What `destroy` answers: whether no export of the slug is listed any more. */
  function NoneOfSlug(listing: Result<seq<PackageExport>>, slug: string): Result<bool> {
    match listing
    case Err(m) => Err(m)
    case Ok(xs) => Ok(OfSlug(xs, slug) == [])
  }

  /** The `foreach ... unlink` loop of `destroy` and `destroyAll`. */
  method UnlinkEach(fs: FileSystem, ps: seq<Path>)
    modifies fs
    ensures fs.entries == UnlinkAll(old(fs.entries), ps)
    ensures fs.copies == old(fs.copies)
  {
    var i := 0;
    while i < |ps|
      invariant 0 <= i <= |ps|
      invariant fs.entries == UnlinkAll(old(fs.entries), ps[..i])
      invariant fs.copies == old(fs.copies)
    {
      assert ps[..i + 1][..i] == ps[..i];
      fs.Unlink(ps[i]);
      i := i + 1;
    }
    assert ps[..i] == ps;
  }

  /** The `foreach ... rename` loop of `updateSlug`. */
  method RenameEach(fs: FileSystem, xs: seq<PackageExport>, dir: Path, newSlug: string, dateText: string)
    modifies fs
    ensures fs.entries == RenameAll(old(fs.entries), xs, dir, newSlug, dateText)
    ensures fs.copies == old(fs.copies)
  {
    var i := 0;
    while i < |xs|
      invariant 0 <= i <= |xs|
      invariant fs.entries == RenameAll(old(fs.entries), xs[..i], dir, newSlug, dateText)
      invariant fs.copies == old(fs.copies)
    {
      assert xs[..i + 1][..i] == xs[..i];
      fs.Rename(xs[i].absolutePath, RenameTarget(dir, xs[i], newSlug, dateText));
      i := i + 1;
    }
    assert xs[..i] == xs;
  }

  class Store {
    const fs: FileSystem
    const absoluteDir: Path
    const relativeDir: Path
    const parse: DateParser
    const lookup: PackageLookup

    /** The store over `absoluteDir`; `relativeToPublicDir` prefixes the public paths. */
    constructor (fs: FileSystem, absoluteDir: Path, parse: DateParser, lookup: PackageLookup, relativeToPublicDir: Path)
      ensures this.fs == fs && this.absoluteDir == absoluteDir && this.relativeDir == relativeToPublicDir
      ensures this.parse == parse && this.lookup == lookup
    {
      this.fs := fs;
      this.absoluteDir := absoluteDir;
      this.parse := parse;
      this.lookup := lookup;
      this.relativeDir := relativeToPublicDir;
    }

    ghost function Listing(): Result<seq<PackageExport>>
      reads fs
    {
      ListingOf(fs.entries, absoluteDir, relativeDir, parse, lookup)
    }

    method FindAll() returns (r: Result<seq<PackageExport>>)
      ensures r == Listing()
    {
      if absoluteDir !in fs.entries {
        return Ok([]);
      }
      var names := fs.Glob(absoluteDir);
      r := BuildEach(absoluteDir, relativeDir, names, parse, lookup);
    }

    method FindBySlug(slug: string) returns (r: Result<seq<PackageExport>>)
      ensures Listing().Err? ==> r == Err(Listing().message)
      ensures Listing().Ok? ==> r == Ok(OfSlug(Listing().value, slug))
    {
      if absoluteDir !in fs.entries {
        return Ok([]);
      }
      var all := FindAll();
      if all.Err? {
        return Err(all.message);
      }
      var exports := FilterSlug(all.value, slug);
      r := Ok(exports);
    }

    /** `destroy($slug)`: unlink each export of the slug, then report whether none is listed any more. */
    method Destroy(slug: string) returns (r: Result<bool>)
      modifies fs
      ensures old(Listing()).Err? ==> r.Err? && fs.entries == old(fs.entries)
      ensures old(Listing()).Ok? ==>
        fs.entries == UnlinkAll(old(fs.entries), Paths(OfSlug(old(Listing()).value, slug))) &&
        r == NoneOfSlug(Listing(), slug)
      ensures fs.copies == old(fs.copies)
    {
      var exports := FindBySlug(slug);
      if exports.Err? {
        return Err(exports.message);
      }
      UnlinkEach(fs, Paths(exports.value));
      var left := FindBySlug(slug);
      r := if left.Err? then Err(left.message) else Ok(left.value == []);
    }

    /** `destroyAll()`: unlink every listed export, then report whether the listing is empty. */
    method DestroyAll() returns (r: Result<bool>)
      modifies fs
      ensures old(Listing()).Err? ==> r.Err? && fs.entries == old(fs.entries)
      ensures old(Listing()).Ok? ==>
        fs.entries == UnlinkAll(old(fs.entries), Paths(old(Listing()).value)) &&
        r == (if Listing().Err? then Err(Listing().message) else Ok(Listing().value == []))
      ensures fs.copies == old(fs.copies)
    {
      var exports := FindAll();
      if exports.Err? {
        return Err(exports.message);
      }
      UnlinkEach(fs, Paths(exports.value));
      var left := FindAll();
      r := if left.Err? then Err(left.message) else Ok(left.value == []);
    }

    /** `updateSlug($old, $new)`: move each export of `oldSlug` to the name `getFilename` gives today
        for `newSlug`. Every move reads the same `dateText`, so exports of `oldSlug` with the same
        slim flag share one target, and each later move replaces the archive the earlier one left
        there (`RenameOverwrites`). A new name holding `/` stays one name here (see `RenameTarget`). */
    method UpdateSlug(oldSlug: string, newSlug: string, dateText: string) returns (r: Outcome)
      modifies fs
      ensures old(Listing()).Err? ==> r == Fail(old(Listing()).message) && fs.entries == old(fs.entries)
      ensures old(Listing()).Ok? ==>
        r == Pass && fs.entries == RenameAll(old(fs.entries), OfSlug(old(Listing()).value, oldSlug), absoluteDir, newSlug, dateText)
      ensures old(Listing()).Ok? ==>
        var moved := OfSlug(old(Listing()).value, oldSlug);
        forall a, b :: a in moved && b in moved && a.isSlim == b.isSlim ==>
          RenameTarget(absoluteDir, a, newSlug, dateText) == RenameTarget(absoluteDir, b, newSlug, dateText)
      ensures fs.copies == old(fs.copies)
    {
      var exports := FindBySlug(oldSlug);
      if exports.Err? {
        return Fail(exports.message);
      }
      RenameEach(fs, exports.value, absoluteDir, newSlug, dateText);
      return Pass;
    }
  }

  /** As written, one archive whose name decodes to a date the format rejects makes the whole
      listing throw; as intended, that archive is passed over and the listing is empty. */
  lemma UnparsableDateThrows(dir: Path, relativeDir: Path, name: string, parse: DateParser, lookup: PackageLookup)
    requires Decode(name).Some? && parse(Decode(name).value.datePiece).None?
    ensures BuildAll(dir, relativeDir, [name], parse, lookup) == Err(DateTypeError)
    ensures BuildAllSkipping(dir, relativeDir, [name], parse, lookup) == Ok([])
  {
    assert [name][1..] == [];
    var none: seq<PackageExport> := [];
    assert BuildExportSkipping(dir, relativeDir, name, parse, lookup) == Ok(None);
    assert none + none == none;
  }

  /** The corrected listing never fails. */
  lemma {:induction false} BuildAllSkippingOk(dir: Path, relativeDir: Path, names: seq<string>, parse: DateParser, lookup: PackageLookup)
    ensures BuildAllSkipping(dir, relativeDir, names, parse, lookup).Ok?
    decreases |names|
  {
    if |names| > 0 {
      BuildAllSkippingOk(dir, relativeDir, names[1..], parse, lookup);
    }
  }

  /** The corrected listing holds exactly the exports built from the names whose date parses. */
  lemma {:induction false} BuildAllSkippingMember(dir: Path, relativeDir: Path, names: seq<string>, parse: DateParser, lookup: PackageLookup, y: PackageExport)
    ensures BuildAllSkipping(dir, relativeDir, names, parse, lookup).Ok?
    ensures y in BuildAllSkipping(dir, relativeDir, names, parse, lookup).value <==>
      y.filename in names && Decode(y.filename).Some? && parse(Decode(y.filename).value.datePiece).Some? &&
      BuildExport(dir, relativeDir, y.filename, parse, lookup) == Ok(Some(y))
    decreases |names|
  {
    BuildAllSkippingOk(dir, relativeDir, names, parse, lookup);
    if |names| > 0 {
      BuildAllSkippingMember(dir, relativeDir, names[1..], parse, lookup, y);
      assert forall n :: n in names <==> n == names[0] || n in names[1..];
    }
  }

  /** Where the listing as written succeeds, the corrected one gives the same exports. */
  lemma {:induction false} BuildAllSkippingAgrees(dir: Path, relativeDir: Path, names: seq<string>, parse: DateParser, lookup: PackageLookup)
    requires BuildAll(dir, relativeDir, names, parse, lookup).Ok?
    ensures BuildAllSkipping(dir, relativeDir, names, parse, lookup) == BuildAll(dir, relativeDir, names, parse, lookup)
    decreases |names|
  {
    if |names| > 0 {
      BuildAllSkippingAgrees(dir, relativeDir, names[1..], parse, lookup);
    }
  }

  /** The listing fails exactly when some name in it decodes but its date does not parse. */
  lemma {:induction false} BuildAllOk(dir: Path, relativeDir: Path, names: seq<string>, parse: DateParser, lookup: PackageLookup)
    ensures BuildAll(dir, relativeDir, names, parse, lookup).Ok? <==>
      forall n :: n in names ==> BuildExport(dir, relativeDir, n, parse, lookup).Ok?
    decreases |names|
  {
    if |names| > 0 {
      BuildAllOk(dir, relativeDir, names[1..], parse, lookup);
      assert forall n :: n in names <==> n == names[0] || n in names[1..];
    }
  }

  /** An export is listed exactly when it is what one of the names builds. */
  lemma {:induction false} BuildAllMember(dir: Path, relativeDir: Path, names: seq<string>, parse: DateParser, lookup: PackageLookup, y: PackageExport)
    requires BuildAll(dir, relativeDir, names, parse, lookup).Ok?
    ensures y in BuildAll(dir, relativeDir, names, parse, lookup).value <==>
      y.filename in names && BuildExport(dir, relativeDir, y.filename, parse, lookup) == Ok(Some(y))
    decreases |names|
  {
    if |names| > 0 {
      BuildAllMember(dir, relativeDir, names[1..], parse, lookup, y);
      assert forall n :: n in names <==> n == names[0] || n in names[1..];
    }
  }

  /** The filenames of the listed exports come from `names`, in the same order. */
  lemma {:induction false} BuildAllOrdered(dir: Path, relativeDir: Path, names: seq<string>, parse: DateParser, lookup: PackageLookup)
    requires StrictlySorted(names)
    requires BuildAll(dir, relativeDir, names, parse, lookup).Ok?
    ensures var xs := BuildAll(dir, relativeDir, names, parse, lookup).value;
      forall i, j :: 0 <= i < j < |xs| ==> LexLess(xs[i].filename, xs[j].filename)
    decreases |names|
  {
    if |names| > 0 {
      var xs := BuildAll(dir, relativeDir, names, parse, lookup).value;
      var rest := BuildAll(dir, relativeDir, names[1..], parse, lookup);
      assert StrictlySorted(names[1..]);
      BuildAllOrdered(dir, relativeDir, names[1..], parse, lookup);
      var built := BuildExport(dir, relativeDir, names[0], parse, lookup);
      if built.value.Some? {
        assert xs == [built.value.value] + rest.value;
        forall j | 0 <= j < |rest.value|
          ensures LexLess(names[0], rest.value[j].filename)
        {
          BuildAllMember(dir, relativeDir, names[1..], parse, lookup, rest.value[j]);
          var k :| 0 <= k < |names[1..]| && names[1..][k] == rest.value[j].filename;
          assert names[k + 1] == rest.value[j].filename;
        }
      } else {
        assert xs == rest.value;
      }
    }
  }

  /** `findAll` fails exactly when some archive in the directory decodes to a date that does not parse. */
  lemma ListingOk(entries: map<Path, Node>, dir: Path, relativeDir: Path, parse: DateParser, lookup: PackageLookup)
    ensures ListingOf(entries, dir, relativeDir, parse, lookup).Ok? <==>
      (dir in entries ==> forall n :: n in ZipNames(entries, dir) ==> BuildExport(dir, relativeDir, n, parse, lookup).Ok?)
  {
    if dir in entries {
      BuildAllOk(dir, relativeDir, SortedList(ZipNames(entries, dir)), parse, lookup);
    }
  }

  /** An export is listed exactly when its archive sits in the directory, fits `*.zip`, and decodes to it. */
  lemma ListingMember(entries: map<Path, Node>, dir: Path, relativeDir: Path, parse: DateParser, lookup: PackageLookup, y: PackageExport)
    requires ListingOf(entries, dir, relativeDir, parse, lookup).Ok?
    ensures y in ListingOf(entries, dir, relativeDir, parse, lookup).value <==>
      dir in entries && dir + [y.filename] in entries && ZipPattern(y.filename) &&
      BuildExport(dir, relativeDir, y.filename, parse, lookup) == Ok(Some(y))
  {
    ZipNamesMember(entries, dir, y.filename);
    if dir in entries {
      BuildAllMember(dir, relativeDir, SortedList(ZipNames(entries, dir)), parse, lookup, y);
    }
  }

  /** The corrected `findAll` never throws, and lists exactly the archives in the directory that fit
      `*.zip`, decode, and carry a date the format accepts. */
  lemma ListingSkippingMember(entries: map<Path, Node>, dir: Path, relativeDir: Path, parse: DateParser, lookup: PackageLookup, y: PackageExport)
    ensures ListingSkipping(entries, dir, relativeDir, parse, lookup).Ok?
    ensures y in ListingSkipping(entries, dir, relativeDir, parse, lookup).value <==>
      dir in entries && dir + [y.filename] in entries && ZipPattern(y.filename) &&
      Decode(y.filename).Some? && parse(Decode(y.filename).value.datePiece).Some? &&
      BuildExport(dir, relativeDir, y.filename, parse, lookup) == Ok(Some(y))
  {
    ZipNamesMember(entries, dir, y.filename);
    if dir in entries {
      BuildAllSkippingMember(dir, relativeDir, SortedList(ZipNames(entries, dir)), parse, lookup, y);
    }
  }

  /** The listing is in glob order: filenames strictly increasing in strcmp order. */
  lemma ListingOrdered(entries: map<Path, Node>, dir: Path, relativeDir: Path, parse: DateParser, lookup: PackageLookup)
    requires ListingOf(entries, dir, relativeDir, parse, lookup).Ok?
    ensures var xs := ListingOf(entries, dir, relativeDir, parse, lookup).value;
      forall i, j :: 0 <= i < j < |xs| ==> LexLess(xs[i].filename, xs[j].filename)
  {
    if dir in entries {
      BuildAllOrdered(dir, relativeDir, SortedList(ZipNames(entries, dir)), parse, lookup);
    }
  }

  /** Unlinking keeps every entry it does not remove, and removes the regular files named. */
  lemma {:induction false} UnlinkAllEffect(entries: map<Path, Node>, ps: seq<Path>)
    ensures forall q :: q in UnlinkAll(entries, ps) ==> q in entries && UnlinkAll(entries, ps)[q] == entries[q]
    ensures forall q :: q in entries && (q !in ps || !entries[q].File?) ==> q in UnlinkAll(entries, ps)
    ensures forall q :: q in ps && q in entries && entries[q].File? ==> q !in UnlinkAll(entries, ps)
    decreases |ps|
  {
    if |ps| > 0 {
      UnlinkAllEffect(entries, ps[..|ps| - 1]);
      assert forall q :: q in ps <==> q in ps[..|ps| - 1] || q == ps[|ps| - 1];
    }
  }

  /** The archive of a listed export is the directory joined with its filename. */
  lemma ListedPath(entries: map<Path, Node>, dir: Path, relativeDir: Path, parse: DateParser, lookup: PackageLookup, y: PackageExport)
    requires ListingOf(entries, dir, relativeDir, parse, lookup).Ok?
    requires y in ListingOf(entries, dir, relativeDir, parse, lookup).value
    ensures dir in entries && y.absolutePath == dir + [y.filename] && y.absolutePath in entries
  {
    ListingMember(entries, dir, relativeDir, parse, lookup, y);
  }

  /** Membership in the listing of a directory whose entries shrank, stated per export. */
  lemma ShrunkMember(entries: map<Path, Node>, left: map<Path, Node>, dir: Path, relativeDir: Path, parse: DateParser, lookup: PackageLookup, y: PackageExport)
    requires ListingOf(entries, dir, relativeDir, parse, lookup).Ok?
    requires ListingOf(left, dir, relativeDir, parse, lookup).Ok?
    requires dir in entries && dir in left
    requires forall q :: q in left ==> q in entries
    ensures y in ListingOf(left, dir, relativeDir, parse, lookup).value <==>
      y in ListingOf(entries, dir, relativeDir, parse, lookup).value && y.absolutePath in left
  {
    ListingMember(entries, dir, relativeDir, parse, lookup, y);
    ListingMember(left, dir, relativeDir, parse, lookup, y);
  }

  /** After unlinking the archives of some listed exports, the listing still succeeds and holds exactly
      the other exports, plus those whose archive was not a regular file. */
  lemma ListingAfterUnlink(entries: map<Path, Node>, dir: Path, relativeDir: Path, parse: DateParser, lookup: PackageLookup, removed: seq<PackageExport>)
    requires ListingOf(entries, dir, relativeDir, parse, lookup).Ok?
    requires forall e :: e in removed ==> e in ListingOf(entries, dir, relativeDir, parse, lookup).value
    ensures var xs := ListingOf(entries, dir, relativeDir, parse, lookup).value;
      var after := ListingOf(UnlinkAll(entries, Paths(removed)), dir, relativeDir, parse, lookup);
      after.Ok? &&
      forall y :: y in after.value <==> y in xs && (y.absolutePath !in Paths(removed) || !RegularFile(entries, y.absolutePath))
  {
    var xs := ListingOf(entries, dir, relativeDir, parse, lookup).value;
    var ps := Paths(removed);
    var left := UnlinkAll(entries, ps);
    UnlinkAllEffect(entries, ps);
    if dir !in entries {
      assert dir !in left;
      return;
    }
    forall e | e in removed ensures e.absolutePath != dir {
      ListedPath(entries, dir, relativeDir, parse, lookup, e);
    }
    assert dir in left;
    LeftListingOk(entries, left, dir, relativeDir, parse, lookup);
    forall y ensures y in ListingOf(left, dir, relativeDir, parse, lookup).value <==>
      y in xs && (y.absolutePath !in ps || !RegularFile(entries, y.absolutePath))
    {
      ShrunkMember(entries, left, dir, relativeDir, parse, lookup, y);
      if y in xs {
        ListedPath(entries, dir, relativeDir, parse, lookup, y);
      }
    }
  }

  /** Removing entries never makes a successful listing fail. */
  lemma LeftListingOk(entries: map<Path, Node>, left: map<Path, Node>, dir: Path, relativeDir: Path, parse: DateParser, lookup: PackageLookup)
    requires ListingOf(entries, dir, relativeDir, parse, lookup).Ok?
    requires forall q :: q in left ==> q in entries
    ensures ListingOf(left, dir, relativeDir, parse, lookup).Ok?
  {
    forall n | n in ZipNames(left, dir)
      ensures n in ZipNames(entries, dir)
    {
      ZipNamesMember(left, dir, n);
      ZipNamesMember(entries, dir, n);
    }
    ListingOk(entries, dir, relativeDir, parse, lookup);
    ListingOk(left, dir, relativeDir, parse, lookup);
  }

  lemma PathsMember(xs: seq<PackageExport>, e: PackageExport)
    ensures e in xs ==> e.absolutePath in Paths(xs)
  {
    if e in xs {
      var k :| 0 <= k < |xs| && xs[k] == e;
      assert Paths(xs)[k] == e.absolutePath;
    }
  }

  /** `destroy` answers true exactly when every archive of the slug was a regular file, all of them then gone;
      the other exports stay listed. */
  lemma DestroyAnswer(entries: map<Path, Node>, dir: Path, relativeDir: Path, parse: DateParser, lookup: PackageLookup, slug: string)
    requires ListingOf(entries, dir, relativeDir, parse, lookup).Ok?
    ensures var xs := ListingOf(entries, dir, relativeDir, parse, lookup).value;
      var after := ListingOf(UnlinkAll(entries, Paths(OfSlug(xs, slug))), dir, relativeDir, parse, lookup);
      after.Ok? &&
      (NoneOfSlug(after, slug) == Ok(true) <==> forall e :: e in OfSlug(xs, slug) ==> RegularFile(entries, e.absolutePath)) &&
      (forall y :: y in xs && y.package.slug != slug ==> y in after.value)
  {
    var xs := ListingOf(entries, dir, relativeDir, parse, lookup).value;
    var removed := OfSlug(xs, slug);
    ListingAfterUnlink(entries, dir, relativeDir, parse, lookup, removed);
    var after := ListingOf(UnlinkAll(entries, Paths(removed)), dir, relativeDir, parse, lookup);
    forall y | y in xs && y.package.slug != slug ensures y in after.value {
      if y.absolutePath in Paths(removed) {
        var k :| 0 <= k < |removed| && Paths(removed)[k] == y.absolutePath;
        SamePathSameExport(entries, dir, relativeDir, parse, lookup, y, removed[k]);
      }
    }
    forall y | y in after.value ensures y in removed ==> !RegularFile(entries, y.absolutePath) {
      PathsMember(removed, y);
    }
    OfSlugEmpty(after.value, slug);
  }

  /** Two listed exports with the same archive path are the same export. */
  lemma SamePathSameExport(entries: map<Path, Node>, dir: Path, relativeDir: Path, parse: DateParser, lookup: PackageLookup, a: PackageExport, b: PackageExport)
    requires ListingOf(entries, dir, relativeDir, parse, lookup).Ok?
    requires a in ListingOf(entries, dir, relativeDir, parse, lookup).value
    requires b in ListingOf(entries, dir, relativeDir, parse, lookup).value
    requires a.absolutePath == b.absolutePath
    ensures a == b
  {
    ListingMember(entries, dir, relativeDir, parse, lookup, a);
    ListingMember(entries, dir, relativeDir, parse, lookup, b);
    assert dir + [a.filename] == dir + [b.filename];
    assert a.filename == (dir + [a.filename])[|dir|];
  }

  /** `destroyAll` answers true exactly when every listed archive was a regular file. */
  lemma DestroyAllAnswer(entries: map<Path, Node>, dir: Path, relativeDir: Path, parse: DateParser, lookup: PackageLookup)
    requires ListingOf(entries, dir, relativeDir, parse, lookup).Ok?
    ensures var xs := ListingOf(entries, dir, relativeDir, parse, lookup).value;
      var after := ListingOf(UnlinkAll(entries, Paths(xs)), dir, relativeDir, parse, lookup);
      after.Ok? && (after.value == [] <==> forall e :: e in xs ==> RegularFile(entries, e.absolutePath))
  {
    var xs := ListingOf(entries, dir, relativeDir, parse, lookup).value;
    ListingAfterUnlink(entries, dir, relativeDir, parse, lookup, xs);
    var after := ListingOf(UnlinkAll(entries, Paths(xs)), dir, relativeDir, parse, lookup);
    forall e | e in xs ensures e.absolutePath in Paths(xs) {
      PathsMember(xs, e);
    }
    NoMembersEmpty(after.value);
  }

  lemma NoMembersEmpty(s: seq<PackageExport>)
    ensures s == [] <==> forall y :: y !in s
  {
    if s != [] {
      assert s[0] in s;
    }
  }

  /** `updateSlug` names each archive from the new slug, one date and the slim flag alone: two exports
      of the old slug with the same flag move to the same path, and the one renamed later replaces
      the earlier. */
  lemma RenameOverwrites(entries: map<Path, Node>, a: PackageExport, b: PackageExport, dir: Path, newSlug: string, dateText: string)
    requires a.isSlim == b.isSlim && a.absolutePath != b.absolutePath
    requires a.absolutePath in entries && entries[a.absolutePath].File?
    requires b.absolutePath in entries && entries[b.absolutePath].File?
    requires var t := RenameTarget(dir, a, newSlug, dateText);
      t != a.absolutePath && t != b.absolutePath && !(t in entries && entries[t] == Dir)
    ensures RenameTarget(dir, b, newSlug, dateText) == RenameTarget(dir, a, newSlug, dateText)
    ensures var t, after := RenameTarget(dir, a, newSlug, dateText), RenameAll(entries, [a, b], dir, newSlug, dateText);
      t in after && after[t] == entries[b.absolutePath] && a.absolutePath !in after && b.absolutePath !in after
  {
    var t := RenameTarget(dir, a, newSlug, dateText);
    assert [a, b][..1] == [a] && [a][..0] == [];
    var mid := Renamed(entries, a.absolutePath, t);
    assert RenameAll(entries, [a], dir, newSlug, dateText) == mid;
    assert b.absolutePath in mid && mid[b.absolutePath] == entries[b.absolutePath];
  }

  /** `updateSlug` moves each export to a name that reads back as the new slug with the same slim flag. */
  lemma RenameKeepsSlim(dir: Path, e: PackageExport, newSlug: string, dateText: string)
    requires '_' !in newSlug && '_' !in dateText
    ensures var target := RenameTarget(dir, e, newSlug, dateText);
      Decode(Basename(target)) == Some(Decoded(newSlug, dateText, e.isSlim))
  {
    RoundTrip(newSlug, dateText, e.isSlim);
  }
}
