/** `exporter:export` of the current generation: every package (or the one named on the command
    line) is filled from the collection and single stores, packages with nothing in them are
    dropped, and each remaining package is exported in full and then in slim form. Old archives are
    removed first. Progress and errors go to the progress log. */
module ExportCommands {
  import opened Wrappers
  import opened Json
  import opened Text
  import opened Disk
  import Models
  import Config
  import Logging
  import ExportsStore
  import PE = PackageExporting

  /** How a console command ends: `Command::SUCCESS`, `Command::FAILURE` with the message it
      reports, or an exception that escapes `execute` altogether. */
  datatype Status = Success | Failure(message: string) | Crashed(message: string)

  /** A row of the packages taxonomy, as the packages store reads it. */
  datatype PackageEntry = PackageEntry(name: string, slug: string)

  const NoPackages: string := "No packages found!"
  const ProcessName: string := "Content Exporter"
  const DefaultPublicPath: string := "/files/exports/"
  const PublicPathPath: seq<string> := ["exporter", "public_path"]
  /** What `belongsTo` throws when the package is `null`: the slug read from it is `null` too. The
      messages stop before the `, called in ... on line N` that PHP appends. */
  const CollectionSlugNull: string := "App\\Models\\Collection::belongsTo(): Argument #1 ($packageSlug) must be of type string, null given"
  const SingleSlugNull: string := "App\\Models\\Single::belongsTo(): Argument #1 ($packageSlug) must be of type string, null given"
  const IsEmptyOnNull: string := "Call to a member function isEmpty() on null"

  /** `if ($slug)`: no argument, `""` and `"0"` all mean every package. */
  predicate Named(slug: Option<string>) {
    slug.Some? && slug.value != "" && slug.value != "0"
  }

  function FormatTypeError(j: Json): string {
    "App\\Stores\\PackageExportsStore::__construct(): Argument #2 ($fileDateFormat) must be of type string, " + TypeName(j) + " given"
  }

  /** `findBySlug`: the first row with the slug. */
  function FindEntry(rows: seq<PackageEntry>, slug: string): (r: Option<PackageEntry>)
    ensures r.None? <==> forall i :: 0 <= i < |rows| ==> rows[i].slug != slug
    ensures r.Some? ==> exists i :: 0 <= i < |rows| && rows[i] == r.value && r.value.slug == slug
                                    && forall k :: 0 <= k < i ==> rows[k].slug != slug
  {
    if |rows| == 0 then None
    else if rows[0].slug == slug then Some(rows[0])
    else
      var r := FindEntry(rows[1..], slug);
      if r.Some? then
        var i :| 0 <= i < |rows[1..]| && rows[1..][i] == r.value && r.value.slug == slug
                 && forall k :: 0 <= k < i ==> rows[1..][k].slug != slug;
        assert rows[i + 1] == r.value && forall k :: 0 <= k < i + 1 ==> rows[k].slug != slug;
        r
      else
        assert forall i :: 1 <= i < |rows| ==> rows[i] == rows[1..][i - 1];
        r
  }

  /** The packages store as the exports listing consults it. */
  function Lookup(rows: seq<PackageEntry>): ExportsStore.PackageLookup {
    s => match FindEntry(rows, s)
         case None => None
         case Some(e) => Some(ExportsStore.PackageInfo(e.name, e.slug))
  }

  /** The rows `execute` starts from: the named package, or every package. */
  function Available(rows: seq<PackageEntry>, slug: Option<string>): (r: seq<Option<PackageEntry>>)
    ensures |r| == 0 <==> !Named(slug) && rows == []
    ensures None in r <==> Named(slug) && FindEntry(rows, slug.value).None?
    ensures forall i :: 0 <= i < |r| && r[i].Some? ==> r[i].value in rows && (Named(slug) ==> r[i].value.slug == slug.value)
  {
    if Named(slug) then [FindEntry(rows, slug.value)]
    else seq(|rows|, i requires 0 <= i < |rows| => Some(rows[i]))
  }

  /** The slug `removeOldExports` receives: the argument when it names a package, else `''`. */
  function SlugArgument(slug: Option<string>): string {
    if Named(slug) then slug.value else ""
  }

  /** The rows of the available packages, once none of them is `null`. */
  function Present(available: seq<Option<PackageEntry>>): (r: seq<PackageEntry>)
    requires None !in available
    ensures |r| == |available| && forall i :: 0 <= i < |r| ==> available[i] == Some(r[i])
  {
    if |available| == 0 then []
    else
      assert available[0] in available && available == [available[0]] + available[1..];
      [available[0].value] + Present(available[1..])
  }

  /** `exporter/supported_languages`, or English when the setting is falsy. */
  function CommandLanguages(config: Json): Option<seq<PE.LanguageSetting>> {
    var setting := Config.Walk(config, PE.LanguagesPath, JNull);
    PE.DecodeLanguages(if setting.Truthy() then setting else PE.DefaultLanguagesJson)
  }

  /** An empty list counts as unset: the command then fills packages for English alone. */
  lemma EmptyLanguagesMeanEnglish(config: Json)
    requires Config.Walk(config, PE.LanguagesPath, JNull) == JList([])
    ensures CommandLanguages(config) == Some([PE.LanguageSetting("en", JList([JStr("en-US"), JStr("en")]), "English", true)])
  {
    PE.DefaultLanguages();
  }

  /** `exporter/file_date_suffix`, or the default format when the setting is falsy. */
  function DateFormatSetting(config: Json): (r: Json)
    ensures r.Truthy()
  {
    var setting := Config.Walk(config, PE.DateFormatPath, JNull);
    if setting.Truthy() then setting else JStr(PE.DefaultFileDateFormat)
  }

  /** `exporter/public_path`, or `/files/exports/` when it is not a non-empty string. */
  function PublicPathSetting(config: Json): string {
    var setting := Config.Walk(config, PublicPathPath, JNull);
    if setting.JStr? && setting.Truthy() then setting.s else DefaultPublicPath
  }

  /** A path written `/a/b/` splits into an empty piece, `a`, `b` and an empty piece. */
  lemma SplitTwoNames(a: string, b: string)
    requires '/' !in a && '/' !in b
    ensures Split(['/'] + a + ['/'] + b + ['/'], '/') == ["", a, b, ""]
  {
    SplitAfterPiece(b, '/', "");
    SplitAfterPiece(a, '/', b + ['/']);
    SplitAfterPiece("", '/', a + ['/'] + (b + ['/']));
    assert ['/'] + a + ['/'] + b + ['/'] == "" + ['/'] + (a + ['/'] + (b + ['/']));
    assert b + ['/'] + "" == b + ['/'];
  }

  /** A setting written `/a/b/` with plain names lands two levels below the public directory. */
  lemma BelowTwoNames(publicDir: Path, a: string, b: string)
    requires PE.CanonicalPath(publicDir) && PE.CanonicalPath([a, b])
    ensures PE.Concat(publicDir, ['/'] + a + ['/'] + b + ['/']) == publicDir + [a, b]
  {
    var tail := ['/'] + a + ['/'] + b + ['/'];
    PE.ConcatBelow(publicDir, tail);
    assert [a, b][0] == a && [a, b][1] == b;
    SplitTwoNames(a, b);
    PE.ResolveSkip(publicDir, "", [a, b, ""]);
    PE.ResolvePlainHead(publicDir, a, [b, ""]);
    PE.ResolvePlainHead(publicDir + [a], b, [""]);
    PE.ResolveSkip(publicDir + [a, b], "", []);
  }

  /** The default `/files/exports/` starts with `/`, so it lands below the public directory. */
  lemma DefaultExportsDir(publicDir: Path)
    requires PE.CanonicalPath(publicDir)
    ensures PE.Concat(publicDir, DefaultPublicPath) == publicDir + ["files", "exports"]
  {
    assert DefaultPublicPath == ['/'] + "files" + ['/'] + "exports" + ['/'];
    BelowTwoNames(publicDir, "files", "exports");
  }

  /** The objects in a list of store answers, as a frame. */
  function Items<T>(answers: seq<seq<T>>): set<T> {
    set j, x | 0 <= j < |answers| && x in answers[j] :: x
  }

  /** The collections of a store answer that belong to the package, in store order. */
  function Owned(cs: seq<Models.Collection>, slug: string): seq<Models.Collection>
    reads cs
  {
    if |cs| == 0 then []
    else
      Owned(cs[..|cs| - 1], slug) + if cs[|cs| - 1].BelongsTo(slug) then [cs[|cs| - 1]] else []
  }

  /** The singles of a store answer that belong to the package, in store order. */
  function OwnedSingles(ss: seq<Models.Single>, slug: string): seq<Models.Single>
    reads ss
  {
    if |ss| == 0 then []
    else
      OwnedSingles(ss[..|ss| - 1], slug) + if ss[|ss| - 1].BelongsTo(slug) then [ss[|ss| - 1]] else []
  }

  /** An item of the answer is owned exactly when it belongs to the package; an owned item appears
      once for each of its places in the answer, in the same order. */
  lemma {:induction false} OwnedMembers(cs: seq<Models.Collection>, slug: string)
    ensures forall c :: c in Owned(cs, slug) <==> c in cs && c.BelongsTo(slug)
    ensures |Owned(cs, slug)| <= |cs|
  {
    if |cs| > 0 {
      var n := |cs| - 1;
      OwnedMembers(cs[..n], slug);
      assert cs == cs[..n] + [cs[n]];
    }
  }

  lemma {:induction false} OwnedSinglesMembers(ss: seq<Models.Single>, slug: string)
    ensures forall s :: s in OwnedSingles(ss, slug) <==> s in ss && s.BelongsTo(slug)
    ensures |OwnedSingles(ss, slug)| <= |ss|
  {
    if |ss| > 0 {
      var n := |ss| - 1;
      OwnedSinglesMembers(ss[..n], slug);
      assert ss == ss[..n] + [ss[n]];
    }
  }

  /** Per language, the owned collections of the store's answer for it. */
  function OwnedAnswers(cf: seq<seq<Models.Collection>>, slug: string): (r: seq<seq<Models.Collection>>)
    reads Items(cf)
    ensures |r| == |cf| && forall j :: 0 <= j < |cf| ==> r[j] == Owned(cf[j], slug)
  {
    seq(|cf|, j requires 0 <= j < |cf| reads Items(cf) =>
      assert forall x :: x in cf[j] ==> x in Items(cf);
      Owned(cf[j], slug))
  }

  /** Per language, the owned singles of the store's answer for it. */
  function OwnedSingleAnswers(sf: seq<seq<Models.Single>>, slug: string): (r: seq<seq<Models.Single>>)
    reads Items(sf)
    ensures |r| == |sf| && forall j :: 0 <= j < |sf| ==> r[j] == OwnedSingles(sf[j], slug)
  {
    seq(|sf|, j requires 0 <= j < |sf| reads Items(sf) =>
      assert forall x :: x in sf[j] ==> x in Items(sf);
      OwnedSingles(sf[j], slug))
  }

  /** Some answer holds an item. */
  predicate AnyOwned<T>(owned: seq<seq<T>>) {
    exists j :: 0 <= j < |owned| && |owned[j]| > 0
  }

  /** Some store answer holds a collection or single of the package. */
  predicate Owns(cf: seq<seq<Models.Collection>>, sf: seq<seq<Models.Single>>, slug: string)
    reads Items(cf), Items(sf)
  {
    AnyOwned(OwnedAnswers(cf, slug)) || AnyOwned(OwnedSingleAnswers(sf, slug))
  }

  /** The elements of `xs` whose flag is set, in order. */
  function Select<T>(xs: seq<T>, keep: seq<bool>): seq<T>
    requires |keep| == |xs|
  {
    if |xs| == 0 then []
    else
      var n := |xs| - 1;
      assert xs == xs[..n] + [xs[n]];
      Select(xs[..n], keep[..n]) + if keep[n] then [xs[n]] else []
  }

  /** Selecting from a longer list adds its last element when that one is flagged. */
  lemma SelectStep<T>(xs: seq<T>, keep: seq<bool>)
    requires |keep| == |xs| > 0
    ensures Select(xs, keep) == Select(xs[..|xs| - 1], keep[..|xs| - 1]) + if keep[|xs| - 1] then [xs[|xs| - 1]] else []
  {
  }

  /** For each package, whether it owns something. */
  function Owners(ps: seq<Models.Package>, cf: seq<seq<Models.Collection>>, sf: seq<seq<Models.Single>>): (r: seq<bool>)
    reads Items(cf), Items(sf)
    ensures |r| == |ps| && forall i :: 0 <= i < |ps| ==> (r[i] <==> Owns(cf, sf, ps[i].slug))
  {
    seq(|ps|, i requires 0 <= i < |ps| reads Items(cf), Items(sf) => Owns(cf, sf, ps[i].slug))
  }

  /** The packages `buildPackages` returns: those that own something, in their order. */
  function Kept(ps: seq<Models.Package>, cf: seq<seq<Models.Collection>>, sf: seq<seq<Models.Single>>): (r: seq<Models.Package>)
    reads Items(cf), Items(sf)
  {
    Select(ps, Owners(ps, cf, sf))
  }

  /** A package is kept exactly when it owns something. */
  lemma KeptIffOwns(ps: seq<Models.Package>, cf: seq<seq<Models.Collection>>, sf: seq<seq<Models.Single>>, q: Models.Package)
    ensures q in Kept(ps, cf, sf) <==> q in ps && Owns(cf, sf, q.slug)
  {
    SelectMembers(ps, Owners(ps, cf, sf), q);
  }

  /** An element is selected exactly when it sits at a flagged position. */
  lemma {:induction false} SelectMembers<T>(xs: seq<T>, keep: seq<bool>, x: T)
    requires |keep| == |xs|
    ensures x in Select(xs, keep) <==> exists i :: 0 <= i < |xs| && xs[i] == x && keep[i]
  {
    if |xs| > 0 {
      var n := |xs| - 1;
      SelectMembers(xs[..n], keep[..n], x);
      if x in Select(xs[..n], keep[..n]) {
        var i :| 0 <= i < n && xs[..n][i] == x && keep[..n][i];
        assert xs[i] == x && keep[i];
      }
      if exists i :: 0 <= i < |xs| && xs[i] == x && keep[i] {
        var i :| 0 <= i < |xs| && xs[i] == x && keep[i];
        if i < n {
          assert xs[..n][i] == x && keep[..n][i];
        }
      }
    }
  }

  /** `m` with `items` appended under `locale`; a locale gains an entry only when something is added. */
  function Put<T>(m: map<string, seq<T>>, locale: string, items: seq<T>): map<string, seq<T>> {
    if |items| == 0 then m else m[locale := (if locale in m then m[locale] else []) + items]
  }

  /** Adding items one at a time builds the same map as adding them at once. */
  lemma PutAppend<T>(m: map<string, seq<T>>, locale: string, items: seq<T>, x: T)
    ensures Put(m, locale, items + [x]) == Put(m, locale, items)[locale := (if locale in Put(m, locale, items) then Put(m, locale, items)[locale] else []) + [x]]
  {
    if |items| == 0 {
      assert items + [x] == [x];
      assert Put(m, locale, items) == m;
    } else {
      var before := if locale in m then m[locale] else [];
      assert Put(m, locale, items)[locale] == before + items;
      assert before + (items + [x]) == before + items + [x];
    }
  }

  /** What `buildPackages` adds under `locale`: for each language with that locale code, in
      setting order, what it owns of the store's answer for that language. */
  function Gathered<T>(langs: seq<PE.LanguageSetting>, owned: seq<seq<T>>, locale: string): seq<T>
    requires |owned| == |langs|
  {
    if |langs| == 0 then []
    else
      var n := |langs| - 1;
      Gathered(langs[..n], owned[..n], locale) + if langs[n].boltLocaleCode == locale then owned[n] else []
  }

  /** The package's map from locale to items once `buildPackages` has gone through the languages. */
  function Entries<T>(langs: seq<PE.LanguageSetting>, owned: seq<seq<T>>): map<string, seq<T>>
    requires |owned| == |langs|
  {
    if |langs| == 0 then map[]
    else
      var n := |langs| - 1;
      Put(Entries(langs[..n], owned[..n]), langs[n].boltLocaleCode, owned[n])
  }

  /** One more language adds its items under its locale code. */
  lemma EntriesStep<T>(langs: seq<PE.LanguageSetting>, owned: seq<seq<T>>, j: nat)
    requires |owned| == |langs| && j < |langs|
    ensures Entries(langs[..j + 1], owned[..j + 1]) == Put(Entries(langs[..j], owned[..j]), langs[j].boltLocaleCode, owned[j])
  {
    assert langs[..j + 1][..j] == langs[..j] && owned[..j + 1][..j] == owned[..j];
  }

  /** The map lists, under each locale, what is gathered for it. */
  lemma {:induction false} EntriesByLocale<T>(langs: seq<PE.LanguageSetting>, owned: seq<seq<T>>, locale: string)
    requires |owned| == |langs|
    ensures (if locale in Entries(langs, owned) then Entries(langs, owned)[locale] else []) == Gathered(langs, owned, locale)
  {
    if |langs| > 0 {
      var n := |langs| - 1;
      EntriesByLocale(langs[..n], owned[..n], locale);
    }
  }

  /** The map stays empty exactly when every answer contributes nothing. */
  lemma {:induction false} EntriesEmptyIff<T>(langs: seq<PE.LanguageSetting>, owned: seq<seq<T>>)
    requires |owned| == |langs|
    ensures Entries(langs, owned) == map[] <==> !AnyOwned(owned)
  {
    if |langs| > 0 {
      var n := |langs| - 1;
      EntriesEmptyIff(langs[..n], owned[..n]);
      var before := Entries(langs[..n], owned[..n]);
      if |owned[n]| > 0 {
        assert langs[n].boltLocaleCode in Entries(langs, owned);
      }
      if before != map[] {
        var l :| l in before;
        assert l in Entries(langs, owned);
      }
      if AnyOwned(owned[..n]) {
        var j :| 0 <= j < n && |owned[..n][j]| > 0;
        assert |owned[j]| > 0;
      }
      if AnyOwned(owned) && |owned[n]| == 0 {
        var j :| 0 <= j < |owned| && |owned[j]| > 0;
        assert |owned[..n][j]| > 0;
      }
    }
  }

  /** The package holds exactly what `buildPackages` gathers from the owned items `oc` and `os`,
      one list per language. */
  ghost predicate Holds(p: Models.Package, langs: seq<PE.LanguageSetting>, oc: seq<seq<Models.Collection>>, os: seq<seq<Models.Single>>)
    reads p
  {
    |oc| == |langs| == |os|
    && p.Valid()
    && p.collections == Entries(langs, oc)
    && p.singles == Entries(langs, os)
  }

  /** Such a package lists under each locale the owned items of the answers for that locale's
      languages, in language and then answer order. */
  lemma HoldsContents(p: Models.Package, langs: seq<PE.LanguageSetting>, oc: seq<seq<Models.Collection>>, os: seq<seq<Models.Single>>, locale: string)
    requires Holds(p, langs, oc, os)
    ensures p.CollectionsByLocale(locale) == Gathered(langs, oc, locale)
    ensures p.SinglesByLocale(locale) == Gathered(langs, os, locale)
  {
    EntriesByLocale(langs, oc, locale);
    EntriesByLocale(langs, os, locale);
  }

  /** Such a package is empty exactly when no answer holds one of its items. */
  lemma HoldsEmptyIff(p: Models.Package, langs: seq<PE.LanguageSetting>, oc: seq<seq<Models.Collection>>, os: seq<seq<Models.Single>>)
    requires Holds(p, langs, oc, os)
    ensures p.IsEmpty() <==> !AnyOwned(oc) && !AnyOwned(os)
  {
    EntriesEmptyIff(langs, oc);
    EntriesEmptyIff(langs, os);
  }

  /** The store's `findAll`/`findBySlug`: a new, empty package per row. */
  method Fetch(rows: seq<PackageEntry>) returns (ps: seq<Models.Package>)
    ensures |ps| == |rows|
    ensures forall i :: 0 <= i < |rows| ==> PackageEntry(ps[i].name, ps[i].slug) == rows[i]
    ensures forall i :: 0 <= i < |rows| ==> fresh(ps[i]) && ps[i].Valid() && ps[i].IsEmpty()
    ensures forall i, j :: 0 <= i < j < |ps| ==> ps[i] != ps[j]
  {
    ps := [];
    for i := 0 to |rows|
      invariant |ps| == i
      invariant forall k :: 0 <= k < i ==> PackageEntry(ps[k].name, ps[k].slug) == rows[k]
      invariant forall k :: 0 <= k < i ==> fresh(ps[k]) && ps[k].Valid() && ps[k].IsEmpty()
      invariant forall k, j :: 0 <= k < j < i ==> ps[k] != ps[j]
    {
      var p := new Models.Package(rows[i].name, rows[i].slug);
      ps := ps + [p];
    }
  }

  /** The collection loop of `buildPackages` for one package and locale. */
  method AddOwnedCollections(p: Models.Package, locale: string, cs: seq<Models.Collection>)
    requires p.Valid()
    modifies p
    ensures p.Valid()
    ensures p.collections == Put(old(p.collections), locale, Owned(cs, p.slug))
    ensures p.singles == old(p.singles)
  {
    for i := 0 to |cs|
      invariant p.Valid() && p.singles == old(p.singles)
      invariant p.collections == Put(old(p.collections), locale, Owned(cs[..i], p.slug))
    {
      assert cs[..i + 1][..i] == cs[..i];
      if cs[i].BelongsTo(p.slug) {
        assert Owned(cs[..i + 1], p.slug) == Owned(cs[..i], p.slug) + [cs[i]];
        PutAppend(old(p.collections), locale, Owned(cs[..i], p.slug), cs[i]);
        p.AddCollection(locale, cs[i]);
      } else {
        assert Owned(cs[..i + 1], p.slug) == Owned(cs[..i], p.slug);
      }
    }
    assert cs[..|cs|] == cs;
  }

  /** The single loop of `buildPackages` for one package and locale. */
  method AddOwnedSingles(p: Models.Package, locale: string, ss: seq<Models.Single>)
    requires p.Valid()
    modifies p
    ensures p.Valid()
    ensures p.singles == Put(old(p.singles), locale, OwnedSingles(ss, p.slug))
    ensures p.collections == old(p.collections)
  {
    for i := 0 to |ss|
      invariant p.Valid() && p.collections == old(p.collections)
      invariant p.singles == Put(old(p.singles), locale, OwnedSingles(ss[..i], p.slug))
    {
      assert ss[..i + 1][..i] == ss[..i];
      if ss[i].BelongsTo(p.slug) {
        assert OwnedSingles(ss[..i + 1], p.slug) == OwnedSingles(ss[..i], p.slug) + [ss[i]];
        PutAppend(old(p.singles), locale, OwnedSingles(ss[..i], p.slug), ss[i]);
        p.AddSingle(locale, ss[i]);
      } else {
        assert OwnedSingles(ss[..i + 1], p.slug) == OwnedSingles(ss[..i], p.slug);
      }
    }
    assert ss[..|ss|] == ss;
  }

  /** One language of `buildPackages` for one package: the owned collections, then the owned singles. */
  method FillLanguage(p: Models.Package, locale: string, cs: seq<Models.Collection>, ss: seq<Models.Single>)
    requires p.Valid()
    modifies p
    ensures p.Valid()
    ensures p.collections == Put(old(p.collections), locale, Owned(cs, p.slug))
    ensures p.singles == Put(old(p.singles), locale, OwnedSingles(ss, p.slug))
  {
    AddOwnedCollections(p, locale, cs);
    AddOwnedSingles(p, locale, ss);
  }

  /** The `j`-th turn of the language loop: the package then holds what the first `j + 1`
      languages contribute. */
  method FillStep(p: Models.Package, langs: seq<PE.LanguageSetting>, cf: seq<seq<Models.Collection>>, sf: seq<seq<Models.Single>>,
                  j: nat, ghost oc: seq<seq<Models.Collection>>, ghost os: seq<seq<Models.Single>>)
    requires |cf| == |langs| == |sf| && j < |langs|
    requires oc == OwnedAnswers(cf, p.slug) && os == OwnedSingleAnswers(sf, p.slug)
    requires p.Valid() && p.collections == Entries(langs[..j], oc[..j]) && p.singles == Entries(langs[..j], os[..j])
    modifies p
    ensures p.Valid() && p.collections == Entries(langs[..j + 1], oc[..j + 1]) && p.singles == Entries(langs[..j + 1], os[..j + 1])
  {
    EntriesStep(langs, oc, j);
    EntriesStep(langs, os, j);
    FillLanguage(p, langs[j].boltLocaleCode, cf[j], sf[j]);
  }

  /** The language loop of `buildPackages` for one package that starts empty. */
  method FillPackage(p: Models.Package, langs: seq<PE.LanguageSetting>, cf: seq<seq<Models.Collection>>, sf: seq<seq<Models.Single>>)
    requires |cf| == |langs| == |sf|
    requires p.Valid() && p.IsEmpty()
    modifies p
    ensures Holds(p, langs, old(OwnedAnswers(cf, p.slug)), old(OwnedSingleAnswers(sf, p.slug)))
  {
    ghost var oc := OwnedAnswers(cf, p.slug);
    ghost var os := OwnedSingleAnswers(sf, p.slug);
    for j := 0 to |langs|
      invariant p.Valid()
      invariant p.collections == Entries(langs[..j], oc[..j])
      invariant p.singles == Entries(langs[..j], os[..j])
      invariant unchanged(Items(cf), Items(sf))
    {
      assert OwnedAnswers(cf, p.slug) == oc && OwnedSingleAnswers(sf, p.slug) == os;
      FillStep(p, langs, cf, sf, j, oc, os);
    }
    assert langs[..|langs|] == langs && oc[..|oc|] == oc && os[..|os|] == os;
  }

  /** One package of `buildPackages`: filled, then appended to the results when it is not empty. */
  method KeepIfFilled(p: Models.Package, langs: seq<PE.LanguageSetting>, cf: seq<seq<Models.Collection>>,
                      sf: seq<seq<Models.Single>>, results: seq<Models.Package>) returns (kept: seq<Models.Package>)
    requires |cf| == |langs| == |sf|
    requires p.Valid() && p.IsEmpty()
    modifies p
    ensures Holds(p, langs, old(OwnedAnswers(cf, p.slug)), old(OwnedSingleAnswers(sf, p.slug)))
    ensures kept == results + if old(Owns(cf, sf, p.slug)) then [p] else []
  {
    FillPackage(p, langs, cf, sf);
    HoldsEmptyIff(p, langs, old(OwnedAnswers(cf, p.slug)), old(OwnedSingleAnswers(sf, p.slug)));
    kept := results;
    if !p.IsEmpty() {
      kept := kept + [p];
    }
  }

  /** The packages before `i` hold what they own and `results` lists, in order, those whose
      `keep` flag is set; the packages from `i` on are as the store made them. */
  ghost predicate FilledUpTo(ps: seq<Models.Package>, i: nat, langs: seq<PE.LanguageSetting>, oc: seq<seq<seq<Models.Collection>>>,
                             os: seq<seq<seq<Models.Single>>>, keep: seq<bool>, results: seq<Models.Package>)
    reads ps
  {
    && i <= |ps| && |oc| == |ps| == |os| == |keep|
    && results == Select(ps[..i], keep[..i])
    && (forall k :: 0 <= k < i ==> Holds(ps[k], langs, oc[k], os[k]))
    && (forall k :: i <= k < |ps| ==> ps[k].Valid() && ps[k].IsEmpty())
  }

  /** The `i`-th turn of the package loop of `buildPackages`. */
  method FillNext(ps: seq<Models.Package>, i: nat, langs: seq<PE.LanguageSetting>, cf: seq<seq<Models.Collection>>,
                  sf: seq<seq<Models.Single>>, results: seq<Models.Package>, ghost oc: seq<seq<seq<Models.Collection>>>,
                  ghost os: seq<seq<seq<Models.Single>>>, ghost keep: seq<bool>)
    returns (next: seq<Models.Package>)
    requires |cf| == |langs| == |sf| && i < |ps|
    requires forall j, k :: 0 <= j < k < |ps| ==> ps[j] != ps[k]
    requires FilledUpTo(ps, i, langs, oc, os, keep, results)
    requires oc[i] == OwnedAnswers(cf, ps[i].slug) && os[i] == OwnedSingleAnswers(sf, ps[i].slug)
    requires keep[i] == (AnyOwned(oc[i]) || AnyOwned(os[i]))
    modifies ps[i]
    ensures FilledUpTo(ps, i + 1, langs, oc, os, keep, next)
  {
    SelectStep(ps[..i + 1], keep[..i + 1]);
    assert ps[..i + 1][..i] == ps[..i] && keep[..i + 1][..i] == keep[..i];
    next := KeepIfFilled(ps[i], langs, cf, sf, results);
  }

  /** `buildPackages`: each package filled from the stores' answers, then kept when it is not empty. */
  method BuildPackages(available: seq<Models.Package>, langs: seq<PE.LanguageSetting>,
                       cf: seq<seq<Models.Collection>>, sf: seq<seq<Models.Single>>) returns (results: seq<Models.Package>)
    requires |cf| == |langs| == |sf|
    requires forall i :: 0 <= i < |available| ==> available[i].Valid() && available[i].IsEmpty()
    requires forall i, j :: 0 <= i < j < |available| ==> available[i] != available[j]
    modifies available
    ensures results == old(Kept(available, cf, sf))
    ensures forall i :: 0 <= i < |available| ==>
      Holds(available[i], langs, old(OwnedAnswers(cf, available[i].slug)), old(OwnedSingleAnswers(sf, available[i].slug)))
  {
    ghost var oc := seq(|available|, k requires 0 <= k < |available| reads Items(cf) => OwnedAnswers(cf, available[k].slug));
    ghost var os := seq(|available|, k requires 0 <= k < |available| reads Items(sf) => OwnedSingleAnswers(sf, available[k].slug));
    ghost var keep := Keeps(oc, os);
    KeptOfOwning(available, cf, sf, oc, os);
    results := FillAll(available, langs, cf, sf, oc, os, keep);
    assert available[..|available|] == available && keep[..|keep|] == keep;
  }

  /** The package loop of `buildPackages`, with what each package owns at hand. */
  method FillAll(ps: seq<Models.Package>, langs: seq<PE.LanguageSetting>, cf: seq<seq<Models.Collection>>,
                 sf: seq<seq<Models.Single>>, ghost oc: seq<seq<seq<Models.Collection>>>,
                 ghost os: seq<seq<seq<Models.Single>>>, ghost keep: seq<bool>) returns (results: seq<Models.Package>)
    requires |cf| == |langs| == |sf|
    requires forall i :: 0 <= i < |ps| ==> ps[i].Valid() && ps[i].IsEmpty()
    requires forall i, j :: 0 <= i < j < |ps| ==> ps[i] != ps[j]
    requires Owning(ps, cf, sf, oc, os) && keep == Keeps(oc, os)
    modifies ps
    ensures FilledUpTo(ps, |ps|, langs, oc, os, keep, results)
  {
    results := [];
    for i := 0 to |ps|
      invariant FilledUpTo(ps, i, langs, oc, os, keep, results)
      invariant unchanged(Items(cf), Items(sf))
    {
      assert OwnedAnswers(cf, ps[i].slug) == old(OwnedAnswers(cf, ps[i].slug));
      assert OwnedSingleAnswers(sf, ps[i].slug) == old(OwnedSingleAnswers(sf, ps[i].slug));
      results := FillNext(ps, i, langs, cf, sf, results, oc, os, keep);
    }
  }

  /** What `buildPackages` throws for the `null` that `findBySlug` gives for an unknown slug:
      `belongsTo(null)` on the first collection or single any answer holds, or `isEmpty()` on
      `null` when every answer is empty. */
  function NullPackageError<C, S>(cf: seq<seq<C>>, sf: seq<seq<S>>): string
    requires |cf| == |sf|
  {
    if |cf| == 0 then IsEmptyOnNull
    else if |cf[0]| > 0 then CollectionSlugNull
    else if |sf[0]| > 0 then SingleSlugNull
    else NullPackageError(cf[1..], sf[1..])
  }

  /** The loop reaches `isEmpty()` exactly when no store answer holds anything. */
  lemma {:induction false} NullPackageReachesIsEmpty<C, S>(cf: seq<seq<C>>, sf: seq<seq<S>>)
    requires |cf| == |sf|
    ensures NullPackageError(cf, sf) == IsEmptyOnNull <==> forall j :: 0 <= j < |cf| ==> cf[j] == [] && sf[j] == []
    ensures NullPackageError(cf, sf) in {IsEmptyOnNull, CollectionSlugNull, SingleSlugNull}
  {
    if |cf| > 0 {
      NullPackageReachesIsEmpty(cf[1..], sf[1..]);
      assert forall j :: 1 <= j < |cf| ==> cf[j] == cf[1..][j - 1] && sf[j] == sf[1..][j - 1];
    }
  }

  /** A store's `findAll($locale)`: what it holds under the locale, nothing for an unknown one. */
  function FindAll<T>(found: map<string, seq<T>>, locale: string): seq<T> {
    if locale in found then found[locale] else []
  }

  /** Every object a store holds. */
  function Stored<T>(found: map<string, seq<T>>): set<T> {
    set l, x | l in found && x in found[l] :: x
  }

  /** The answers for any languages hold only stored objects. */
  lemma AnswersStored<T>(langs: seq<PE.LanguageSetting>, found: map<string, seq<T>>)
    ensures Items(Answers(langs, found)) <= Stored(found)
  {
  }

  /** The store's answer for every language, in setting order. */
  function Answers<T>(langs: seq<PE.LanguageSetting>, found: map<string, seq<T>>): (r: seq<seq<T>>)
    ensures |r| == |langs| && forall j :: 0 <= j < |langs| ==> r[j] == FindAll(found, langs[j].boltLocaleCode)
  {
    seq(|langs|, j requires 0 <= j < |langs| => FindAll(found, langs[j].boltLocaleCode))
  }

  /** The calls `exportPackages` makes on the exporter: each package in full, then slim. */
  function AllSteps(ps: seq<Models.Package>, langs: seq<PE.LanguageSetting>): seq<PE.Step>
    reads ps
  {
    if |ps| == 0 then []
    else
      var p := ps[|ps| - 1];
      AllSteps(ps[..|ps| - 1], langs) + PE.ExportSteps(p.name, p.slug, false, langs, p) + PE.ExportSteps(p.name, p.slug, true, langs, p)
  }

  /** Some package stops its export: `startLocale` fails for one of its locales. */
  predicate SomeVisitFails(config: Json, langs: seq<PE.LanguageSetting>, ps: seq<Models.Package>, logo: Path)
    reads ps
  {
    exists k :: 0 <= k < |ps| && PE.VisitFails(config, langs, ps[k], logo)
  }

  /** What the exports numbered from `first` on recorded of their archives: each one is on disk
      when the writer produced it. */
  ghost predicate ZipsKept(zipWritten: nat -> bool, first: nat, made: seq<bool>) {
    forall k :: 0 <= k < |made| && zipWritten(first + k) ==> made[k]
  }

  lemma ZipsKeptJoin(zipWritten: nat -> bool, first: nat, made: seq<bool>, more: seq<bool>)
    requires ZipsKept(zipWritten, first, made) && ZipsKept(zipWritten, first + |made|, more)
    ensures ZipsKept(zipWritten, first, made + more)
  {
    forall k | 0 <= k < |made + more| && zipWritten(first + k)
      ensures (made + more)[k]
    {
      if k >= |made| {
        assert zipWritten(first + |made| + (k - |made|));
      }
    }
  }

  /** The outcomes of one more turn joined to those before: an export missing its archive is among
      them exactly when it is among the new ones, as long as none was before. */
  lemma OutcomesJoin(zipWritten: nat -> bool, asWritten: bool, made: seq<bool>, more: seq<bool>)
    requires ZipsKept(zipWritten, 0, made) && ZipsKept(zipWritten, |made|, more) && (asWritten ==> false !in made)
    ensures ZipsKept(zipWritten, 0, made + more)
    ensures asWritten ==> (false in made + more <==> false in more)
  {
    ZipsKeptJoin(zipWritten, 0, made, more);
    assert forall b :: b in made + more <==> b in made || b in more;
  }

  /** The record of one export: nothing when it stopped early, otherwise whether its archive is on
      disk, which it is when the writer produced it. */
  lemma OnceKept(zipWritten: nat -> bool, first: nat, made: seq<bool>, stops: bool, there: bool)
    requires made == if stops then [] else [zipWritten(first) || there]
    ensures |made| <= 1 && ZipsKept(zipWritten, first, made)
    ensures false in made <==> !stops && !zipWritten(first) && !there
  {
    if !stops {
      assert made[0] == (zipWritten(first) || there);
    }
  }

  /** One call of `export`, with `made` what it recorded of its archive: nothing when it stopped
      before `finish`, otherwise whether the archive was on disk. */
  method ExportOnce(exporter: PE.PackageExporter, p: Models.Package, slim: bool, zipWritten: nat -> bool, first: nat,
                    asWritten: bool)
    returns (r: Outcome, ghost made: seq<bool>)
    requires exporter.Valid()
    modifies exporter, exporter.fs, exporter.logger
    ensures exporter.Valid()
    ensures exporter.archiveOutcomes == old(exporter.archiveOutcomes) + made
    ensures |made| <= 1 && ZipsKept(zipWritten, first, made)
    ensures r.Fail? <==> !PE.DateFormat(exporter.settings.config).JStr?
                         || PE.VisitFails(exporter.settings.config, exporter.supportedLanguages, p, exporter.siteLogoPath)
                         || (asWritten && false in made)
    ensures asWritten && false in made ==> r == Fail(PE.UndefinedLogError)
    ensures r.Pass? ==> |made| == 1 && (asWritten ==> made[0])
    ensures r.Pass? ==> exporter.steps == old(exporter.steps) + PE.ExportSteps(p.name, p.slug, slim, exporter.supportedLanguages, p)
  {
    ghost var config := exporter.settings.config;
    ghost var stops := !PE.DateFormat(config).JStr? || PE.VisitFails(config, exporter.supportedLanguages, p, exporter.siteLogoPath);
    ghost var there := !stops && PE.ArchivePath(PE.WorkingDir(exporter.exportsDir, p.slug, exporter.formatDate(PE.DateFormat(config).s), slim))
                                   in exporter.fs.entries;
    r := exporter.Export(p, slim, zipWritten(first), asWritten);
    made := if stops then [] else [zipWritten(first) || there];
    OnceKept(zipWritten, first, made, stops, there);
  }

  /** The records of a package's full export, which finished, and of its slim export. */
  lemma PairKept(zipWritten: nat -> bool, first: nat, asWritten: bool, made: seq<bool>, second: seq<bool>)
    requires |made| == 1 && ZipsKept(zipWritten, first, made) && (asWritten ==> made[0])
    requires |second| <= 1 && ZipsKept(zipWritten, first + 1, second)
    ensures |made + second| <= 2 && ZipsKept(zipWritten, first, made + second)
    ensures asWritten ==> (false in made + second <==> false in second)
  {
    ZipsKeptJoin(zipWritten, first, made, second);
    assert forall b :: b in made + second <==> b in made || b in second;
  }

  /** One turn of `exportPackages`: the package in full and then slim, between two progress records.
      The two exports are the run's `first`-th and the next; `asWritten` says whether `finish` runs
      as written; `made` is what the exports recorded of their archives. */
  method ExportPackage(exporter: PE.PackageExporter, p: Models.Package, zipWritten: nat -> bool, first: nat, asWritten: bool)
    returns (r: Outcome, ghost made: seq<bool>)
    requires exporter.Valid()
    modifies exporter, exporter.fs, exporter.logger
    ensures exporter.Valid()
    ensures exporter.archiveOutcomes == old(exporter.archiveOutcomes) + made
    ensures |made| <= 2 && ZipsKept(zipWritten, first, made)
    ensures r.Fail? <==> !PE.DateFormat(exporter.settings.config).JStr?
                         || old(PE.VisitFails(exporter.settings.config, exporter.supportedLanguages, p, exporter.siteLogoPath))
                         || (asWritten && false in made)
    ensures asWritten && false in made ==> r == Fail(PE.UndefinedLogError)
    ensures r.Pass? ==> |made| == 2 && (asWritten ==> false !in made)
    ensures r.Pass? ==> exporter.steps == old(exporter.steps + PE.ExportSteps(p.name, p.slug, false, exporter.supportedLanguages, p)
                                                           + PE.ExportSteps(p.name, p.slug, true, exporter.supportedLanguages, p))
  {
    ghost var outcomes := exporter.archiveOutcomes;
    exporter.logger.Log("Creating package: " + p.name, exporter.now);
    r, made := ExportOnce(exporter, p, false, zipWritten, first, asWritten);
    if r.Fail? {
      return;
    }
    ghost var second;
    r, second := ExportOnce(exporter, p, true, zipWritten, first + 1, asWritten);
    PairKept(zipWritten, first, asWritten, made, second);
    Text.AppendAssoc(outcomes, made, second);
    made := made + second;
    if r.Pass? {
      exporter.logger.Log("Completed package: " + p.name, exporter.now);
    }
  }

  /** The first `i` packages are exported, each in full and then slim, after the steps `base`. */
  ghost predicate ExportedUpTo(exporter: PE.PackageExporter, ps: seq<Models.Package>, i: nat, base: seq<PE.Step>)
    reads exporter, ps
  {
    var config, langs := exporter.settings.config, exporter.supportedLanguages;
    && i <= |ps|
    && exporter.steps == base + AllSteps(ps[..i], langs)
    && (i > 0 ==> PE.DateFormat(config).JStr?)
    && (forall k :: 0 <= k < i ==> !PE.VisitFails(config, langs, ps[k], exporter.siteLogoPath))
  }

  /** The loop body of `exportPackages` for the `i`-th package, whose archives are the run's `2 * i`-th
      and `2 * i + 1`-th; `made` is what the exports before recorded after `zbase`, and `later` that
      followed by what this turn's exports record. */
  method ExportNext(exporter: PE.PackageExporter, ps: seq<Models.Package>, i: nat, zipWritten: nat -> bool, asWritten: bool,
                    ghost base: seq<PE.Step>, ghost zbase: seq<bool>, ghost made: seq<bool>)
    returns (r: Outcome, ghost later: seq<bool>)
    requires i < |ps| && exporter.Valid() && ExportedUpTo(exporter, ps, i, base)
    requires exporter.archiveOutcomes == zbase + made
    requires |made| == 2 * i && ZipsKept(zipWritten, 0, made) && (asWritten ==> false !in made)
    modifies exporter, exporter.fs, exporter.logger
    ensures exporter.Valid()
    ensures exporter.archiveOutcomes == zbase + later && ZipsKept(zipWritten, 0, later)
    ensures r.Fail? <==> !PE.DateFormat(exporter.settings.config).JStr?
                         || PE.VisitFails(exporter.settings.config, exporter.supportedLanguages, ps[i], exporter.siteLogoPath)
                         || (asWritten && false in later)
    ensures asWritten && false in later ==> r == Fail(PE.UndefinedLogError)
    ensures r.Pass? ==> |later| == 2 * (i + 1) && (asWritten ==> false !in later)
    ensures r.Pass? ==> ExportedUpTo(exporter, ps, i + 1, base)
  {
    ghost var langs := exporter.supportedLanguages;
    assert ps[..i + 1][..i] == ps[..i];
    ghost var steps := AllSteps(ps[..i + 1], langs);
    assert steps == AllSteps(ps[..i], langs) + PE.ExportSteps(ps[i].name, ps[i].slug, false, langs, ps[i])
                                             + PE.ExportSteps(ps[i].name, ps[i].slug, true, langs, ps[i]);
    ghost var more;
    r, more := ExportPackage(exporter, ps[i], zipWritten, 2 * i, asWritten);
    assert AllSteps(ps[..i + 1], langs) == steps;
    later := made + more;
    OutcomesJoin(zipWritten, asWritten, made, more);
    AppendAssoc(zbase, made, more);
  }

  /** `exportPackages`: every package exported in full and then slim, between two progress records;
      the first export that throws ends the loop. The export numbered `k` in the run finds its archive
      produced when `zipWritten(k)`; `made` is what the exports recorded of their archives. As
      written, the run also throws when an archive is missing. The packages themselves are not
      changed, so what is said of them is said of their state on entry. */
  method ExportPackages(exporter: PE.PackageExporter, ps: seq<Models.Package>, zipWritten: nat -> bool, asWritten: bool)
    returns (r: Outcome, ghost made: seq<bool>)
    requires exporter.Valid()
    modifies exporter, exporter.fs, exporter.logger
    ensures exporter.Valid()
    ensures exporter.archiveOutcomes == old(exporter.archiveOutcomes) + made
    ensures ZipsKept(zipWritten, 0, made)
    ensures r.Fail? <==> (|ps| > 0 && !PE.DateFormat(exporter.settings.config).JStr?)
                         || old(SomeVisitFails(exporter.settings.config, exporter.supportedLanguages, ps, exporter.siteLogoPath))
                         || (asWritten && false in made)
    ensures asWritten && false in made ==> r == Fail(PE.UndefinedLogError)
    ensures r.Pass? ==> |made| == 2 * |ps|
    ensures r.Pass? ==> exporter.steps == old(exporter.steps + AllSteps(ps, exporter.supportedLanguages))
    ensures unchanged(ps)
  {
    ghost var base, zbase := exporter.steps, exporter.archiveOutcomes;
    r, made := Pass, [];
    for i := 0 to |ps|
      invariant exporter.Valid() && r.Pass? && ExportedUpTo(exporter, ps, i, base)
      invariant exporter.archiveOutcomes == zbase + made
      invariant |made| == 2 * i && ZipsKept(zipWritten, 0, made) && (asWritten ==> false !in made)
    {
      r, made := ExportNext(exporter, ps, i, zipWritten, asWritten, base, zbase, made);
      if r.Fail? {
        return;
      }
    }
    assert ps[..|ps|] == ps;
  }

  /** The archives `removeOldExports` unlinks: all of them for an empty slug, else the slug's. */
  function Doomed(xs: seq<ExportsStore.PackageExport>, slug: string): (r: seq<ExportsStore.PackageExport>)
    ensures forall x :: x in r <==> x in xs && (slug == "" || slug == "0" || x.package.slug == slug)
  {
    if slug == "" || slug == "0" then xs else ExportsStore.OfSlug(xs, slug)
  }

  /** `removeOldExports`: the archive listing under `exportsDir`, read with the configured date
      format, and every archive of `slug` (of every package when `slug` is empty) unlinked. The
      listing is built inside the exports store, so a format that is not a string fails there. */
  method RemoveOldExports(fs: FileSystem, exportsDir: Path, relativeDir: Path, config: Json, rows: seq<PackageEntry>,
                          parseWith: string -> ExportsStore.DateParser, slug: string) returns (r: Result<bool>)
    modifies fs
    ensures !DateFormatSetting(config).JStr? ==> r == Err(FormatTypeError(DateFormatSetting(config))) && fs.entries == old(fs.entries)
    ensures DateFormatSetting(config).JStr? ==>
      var listing := ExportsStore.ListingOf(old(fs.entries), exportsDir, relativeDir, parseWith(DateFormatSetting(config).s), Lookup(rows));
      (listing.Err? ==> r.Err? && fs.entries == old(fs.entries))
      && (listing.Ok? ==> fs.entries == ExportsStore.UnlinkAll(old(fs.entries), ExportsStore.Paths(Doomed(listing.value, slug))))
    ensures fs.copies == old(fs.copies)
  {
    var format := DateFormatSetting(config);
    if !format.JStr? {
      return Err(FormatTypeError(format));
    }
    var store := new ExportsStore.Store(fs, exportsDir, parseWith(format.s), Lookup(rows), relativeDir);
    if slug == "" || slug == "0" {
      r := store.DestroyAll();
    } else {
      r := store.Destroy(slug);
    }
  }

  /** How the progress log ends: the completion record on success, the error on failure; an
      exception that escapes `execute` leaves the log empty. */
  predicate LogEndsWith(data: seq<Logging.Entry>, status: Status, counter: int, now: int) {
    match status
    case Success => |data| > 0 && data[|data| - 1] == Logging.Entry(true, Some(counter), false, ProcessName + Logging.CompletedSuffix, now)
    case Failure(m) => |data| > 0 && data[|data| - 1] == Logging.Entry(false, Some(counter), true, m, now)
    case Crashed(_) => data == []
  }

  /** `logError($message)` followed by `return Command::FAILURE`. */
  method Report(logger: Logging.FileLogger, message: string, now: int) returns (status: Status)
    modifies logger
    ensures status == Failure(message) && LogEndsWith(logger.data, status, logger.counter, now)
    ensures logger.data == old(logger.data) + [Logging.Entry(false, Some(old(logger.counter)), true, message, now)]
    ensures logger.counter == old(logger.counter)
  {
    logger.LogError(message, now);
    status := Failure(message);
  }

  /** `oc` and `os` list, per package and language, what the package owns of the answers. */
  ghost predicate Owning(ps: seq<Models.Package>, cf: seq<seq<Models.Collection>>, sf: seq<seq<Models.Single>>,
                         oc: seq<seq<seq<Models.Collection>>>, os: seq<seq<seq<Models.Single>>>)
    reads Items(cf), Items(sf)
  {
    && |oc| == |ps| == |os|
    && forall i :: 0 <= i < |ps| ==> oc[i] == OwnedAnswers(cf, ps[i].slug) && os[i] == OwnedSingleAnswers(sf, ps[i].slug)
  }

  /** Per package, whether it owns something. */
  function Keeps<C, S>(oc: seq<seq<seq<C>>>, os: seq<seq<seq<S>>>): (keep: seq<bool>)
    requires |oc| == |os|
    ensures |keep| == |oc| && forall k :: 0 <= k < |oc| ==> keep[k] == (AnyOwned(oc[k]) || AnyOwned(os[k]))
  {
    seq(|oc|, k requires 0 <= k < |oc| => AnyOwned(oc[k]) || AnyOwned(os[k]))
  }

  /** The packages that own something, by what they own. */
  function KeptOf(ps: seq<Models.Package>, oc: seq<seq<seq<Models.Collection>>>, os: seq<seq<seq<Models.Single>>>): seq<Models.Package>
    requires |oc| == |ps| == |os|
  {
    Select(ps, Keeps(oc, os))
  }

  /** With the owned items at hand, the kept packages are the ones `Kept` describes. */
  lemma KeptOfOwning(ps: seq<Models.Package>, cf: seq<seq<Models.Collection>>, sf: seq<seq<Models.Single>>,
                     oc: seq<seq<seq<Models.Collection>>>, os: seq<seq<seq<Models.Single>>>)
    requires Owning(ps, cf, sf, oc, os)
    ensures KeptOf(ps, oc, os) == Kept(ps, cf, sf)
  {
    assert Owners(ps, cf, sf) == Keeps(oc, os);
  }

  /** Every package holds what it owns, and `built` lists those that own something, in order. */
  ghost predicate Filled(ps: seq<Models.Package>, langs: seq<PE.LanguageSetting>, oc: seq<seq<seq<Models.Collection>>>,
                         os: seq<seq<seq<Models.Single>>>, built: seq<Models.Package>)
    reads ps
  {
    && |oc| == |ps| == |os|
    && (forall i :: 0 <= i < |ps| ==> Holds(ps[i], langs, oc[i], os[i]))
    && built == KeptOf(ps, oc, os)
  }

  /** How exporting `built` ended. An exporter whose language setting cannot be read throws as
      soon as it has a package to export; otherwise the first export that stops fails the run,
      and a run that does not fail made exactly the export calls for every package in order. */
  ghost predicate Exported(exporter: Result<PE.PackageExporter>, built: seq<Models.Package>, status: Status,
                           zipWritten: nat -> bool, asWritten: bool)
    reads if exporter.Ok? then {exporter.value} else {}, built
  {
    && (exporter.Err? ==> status == if |built| == 0 then Success else Failure(exporter.message))
    && (exporter.Ok? ==>
          var e := exporter.value;
          && (status.Failure? <==>
                (|built| > 0 && !PE.DateFormat(e.settings.config).JStr?)
                || SomeVisitFails(e.settings.config, e.supportedLanguages, built, e.siteLogoPath)
                || (asWritten && false in e.archiveOutcomes))
          && (asWritten && false in e.archiveOutcomes ==> status == Failure(PE.UndefinedLogError))
          && ZipsKept(zipWritten, 0, e.archiveOutcomes)
          && (status.Success? ==> e.steps == AllSteps(built, e.supportedLanguages) && |e.archiveOutcomes| == 2 * |built|))
  }

  /** `exportPackages` with a working exporter, then `logFinished`; what it throws is logged as
      the error. */
  method ExportWith(exporter: PE.PackageExporter, logger: Logging.FileLogger, built: seq<Models.Package>,
                    zipWritten: nat -> bool, asWritten: bool, now: int) returns (status: Status)
    requires exporter.Valid() && exporter.logger == logger && exporter.steps == [] && exporter.archiveOutcomes == []
    modifies logger, exporter, exporter.fs
    ensures !status.Crashed? && LogEndsWith(logger.data, status, logger.counter, now)
    ensures exporter.Valid() && Exported(Ok(exporter), built, status, zipWritten, asWritten)
  {
    var r, made := ExportPackages(exporter, built, zipWritten, asWritten);
    ghost var reported := if r.Fail? then Failure(r.message) else Success;
    assert Exported(Ok(exporter), built, reported, zipWritten, asWritten);
    status := Conclude(logger, r, now);
  }

  /** The end of `execute`'s `try`: what `exportPackages` threw is logged as the error, or else
      `logFinished` logs the completion. */
  method Conclude(logger: Logging.FileLogger, r: Outcome, now: int) returns (status: Status)
    modifies logger
    ensures status == if r.Fail? then Failure(r.message) else Success
    ensures LogEndsWith(logger.data, status, logger.counter, now)
  {
    if r.Fail? {
      status := Report(logger, r.message, now);
    } else {
      logger.LogFinished(ProcessName, now);
      status := Success;
    }
  }

  /** The end of `execute`'s `try`: the built packages exported, then `logFinished`; what
      `exportPackages` throws is logged as the error. The packages and the answers' items stay
      as they are. */
  method ExportBuilt(exporter: Result<PE.PackageExporter>, logger: Logging.FileLogger, built: seq<Models.Package>,
                     zipWritten: nat -> bool, asWritten: bool, now: int, ghost ps: seq<Models.Package>, ghost cf: seq<seq<Models.Collection>>,
                     ghost sf: seq<seq<Models.Single>>)
    returns (status: Status)
    requires exporter.Ok? ==> exporter.value.Valid() && exporter.value.logger == logger && exporter.value.steps == [] && exporter.value.archiveOutcomes == []
    modifies logger, if exporter.Ok? then {exporter.value, exporter.value.fs} else {}
    ensures !status.Crashed? && LogEndsWith(logger.data, status, logger.counter, now)
    ensures exporter.Ok? ==> exporter.value.Valid()
    ensures Exported(exporter, built, status, zipWritten, asWritten)
    ensures forall i :: 0 <= i < |ps| ==> unchanged(ps[i])
    ensures unchanged(Items(cf), Items(sf))
  {
    if exporter.Ok? {
      status := ExportWith(exporter.value, logger, built, zipWritten, asWritten, now);
    } else if |built| > 0 {
      status := Report(logger, exporter.message, now);
    } else {
      logger.LogFinished(ProcessName, now);
      status := Success;
    }
  }

  /** `buildPackages` with what each package owns laid out as values. */
  method BuildOwned(ps: seq<Models.Package>, langs: seq<PE.LanguageSetting>, cf: seq<seq<Models.Collection>>,
                    sf: seq<seq<Models.Single>>)
    returns (built: seq<Models.Package>, ghost oc: seq<seq<seq<Models.Collection>>>, ghost os: seq<seq<seq<Models.Single>>>)
    requires |cf| == |langs| == |sf|
    requires forall i :: 0 <= i < |ps| ==> ps[i].Valid() && ps[i].IsEmpty()
    requires forall i, j :: 0 <= i < j < |ps| ==> ps[i] != ps[j]
    modifies ps
    ensures Owning(ps, cf, sf, oc, os) && Filled(ps, langs, oc, os, built)
  {
    oc := seq(|ps|, i requires 0 <= i < |ps| reads Items(cf) => OwnedAnswers(cf, ps[i].slug));
    os := seq(|ps|, i requires 0 <= i < |ps| reads Items(sf) => OwnedSingleAnswers(sf, ps[i].slug));
    KeptOfOwning(ps, cf, sf, oc, os);
    built := BuildPackages(ps, langs, cf, sf);
    assert unchanged(Items(cf), Items(sf));
  }

  /** The packages `findAll` gave, filled from the answers and then exported. */
  method BuildAndExport(exporter: Result<PE.PackageExporter>, logger: Logging.FileLogger, ps: seq<Models.Package>,
                        langs: seq<PE.LanguageSetting>, cf: seq<seq<Models.Collection>>, sf: seq<seq<Models.Single>>,
                        zipWritten: nat -> bool, asWritten: bool, now: int)
    returns (status: Status, ghost oc: seq<seq<seq<Models.Collection>>>, ghost os: seq<seq<seq<Models.Single>>>,
             ghost built: seq<Models.Package>)
    requires |cf| == |langs| == |sf|
    requires forall i :: 0 <= i < |ps| ==> ps[i].Valid() && ps[i].IsEmpty()
    requires forall i, j :: 0 <= i < j < |ps| ==> ps[i] != ps[j]
    requires exporter.Ok? ==> exporter.value.Valid() && exporter.value.logger == logger && exporter.value.steps == [] && exporter.value.archiveOutcomes == []
    modifies ps, logger, if exporter.Ok? then {exporter.value, exporter.value.fs} else {}
    ensures !status.Crashed? && LogEndsWith(logger.data, status, logger.counter, now)
    ensures exporter.Ok? ==> exporter.value.Valid()
    ensures Owning(ps, cf, sf, oc, os) && Filled(ps, langs, oc, os, built) && Exported(exporter, built, status, zipWritten, asWritten)
  {
    var results;
    results, oc, os := BuildOwned(ps, langs, cf, sf);
    label Built:
    status := ExportBuilt(exporter, logger, results, zipWritten, asWritten, now, ps, cf, sf);
    built := results;
  }

  /** What `execute` ends with once the old exports are gone: the languages to build for, then
      the `null` that `findBySlug` gave for an unknown slug, or the build and the export. */
  ghost predicate AfterRemovalEnds(exporter: Result<PE.PackageExporter>, config: Json, ps: seq<Models.Package>, unknownSlug: bool,
                                   collectionsFound: map<string, seq<Models.Collection>>,
                                   singlesFound: map<string, seq<Models.Single>>, oc: seq<seq<seq<Models.Collection>>>,
                                   os: seq<seq<seq<Models.Single>>>, built: seq<Models.Package>, status: Status,
                                   zipWritten: nat -> bool, asWritten: bool)
    reads if exporter.Ok? then {exporter.value} else {}, ps, built, Stored(collectionsFound), Stored(singlesFound)
  {
    match CommandLanguages(config)
    case None => status == Failure(PE.MalformedLanguages)
    case Some(langs) =>
      var cf := Answers(langs, collectionsFound);
      var sf := Answers(langs, singlesFound);
      AnswersStored(langs, collectionsFound);
      AnswersStored(langs, singlesFound);
      if unknownSlug then status == Failure(NullPackageError(cf, sf))
      else Owning(ps, cf, sf, oc, os) && Filled(ps, langs, oc, os, built) && Exported(exporter, built, status, zipWritten, asWritten)
  }

  /** `execute` once the old exports are gone. */
  method AfterRemoval(exporter: Result<PE.PackageExporter>, logger: Logging.FileLogger, config: Json,
                      ps: seq<Models.Package>, unknownSlug: bool, collectionsFound: map<string, seq<Models.Collection>>,
                      singlesFound: map<string, seq<Models.Single>>, zipWritten: nat -> bool, asWritten: bool, now: int)
    returns (status: Status, ghost oc: seq<seq<seq<Models.Collection>>>, ghost os: seq<seq<seq<Models.Single>>>,
             ghost built: seq<Models.Package>)
    requires forall i :: 0 <= i < |ps| ==> ps[i].Valid() && ps[i].IsEmpty()
    requires forall i, j :: 0 <= i < j < |ps| ==> ps[i] != ps[j]
    requires exporter.Ok? ==> exporter.value.Valid() && exporter.value.logger == logger && exporter.value.steps == [] && exporter.value.archiveOutcomes == []
    modifies ps, logger, if exporter.Ok? then {exporter.value, exporter.value.fs} else {}
    ensures !status.Crashed? && LogEndsWith(logger.data, status, logger.counter, now)
    ensures exporter.Ok? ==> exporter.value.Valid()
    ensures AfterRemovalEnds(exporter, config, ps, unknownSlug, collectionsFound, singlesFound, oc, os, built, status, zipWritten, asWritten)
  {
    oc, os, built := [], [], [];
    var langs := CommandLanguages(config);
    if langs.None? {
      status := Report(logger, PE.MalformedLanguages, now);
      return;
    }
    var cf := Answers(langs.value, collectionsFound);
    var sf := Answers(langs.value, singlesFound);
    if unknownSlug {
      status := Report(logger, NullPackageError(cf, sf), now);
      return;
    }
    status, oc, os, built := BuildAndExport(exporter, logger, ps, langs.value, cf, sf, zipWritten, asWritten, now);
  }

  /** What `removeOldExports` did to the disk `entries`, leaving `cleaned`. */
  ghost predicate Removed(entries: map<Path, Node>, cleaned: map<Path, Node>, removal: Result<bool>, exportsDir: Path,
                          relativeDir: Path, config: Json, rows: seq<PackageEntry>,
                          parseWith: string -> ExportsStore.DateParser, slug: string)
  {
    var format := DateFormatSetting(config);
    if !format.JStr? then removal == Err(FormatTypeError(format)) && cleaned == entries
    else
      var listing := ExportsStore.ListingOf(entries, exportsDir, relativeDir, parseWith(format.s), Lookup(rows));
      && (listing.Err? ==> removal.Err? && cleaned == entries)
      && (listing.Ok? ==> cleaned == ExportsStore.UnlinkAll(entries, ExportsStore.Paths(Doomed(listing.value, slug))))
  }

  /** The part of `execute` from `removeOldExports` on; an exception from it escapes `execute`. */
  method RemoveAndRun(fs: FileSystem, exportsDir: Path, relativeDir: Path, config: Json, rows: seq<PackageEntry>,
                      parseWith: string -> ExportsStore.DateParser, slug: Option<string>,
                      exporter: Result<PE.PackageExporter>, logger: Logging.FileLogger, ps: seq<Models.Package>,
                      collectionsFound: map<string, seq<Models.Collection>>, singlesFound: map<string, seq<Models.Single>>,
                      zipWritten: nat -> bool, asWritten: bool, now: int)
    returns (status: Status, ghost removal: Result<bool>, ghost cleaned: map<Path, Node>,
             ghost oc: seq<seq<seq<Models.Collection>>>, ghost os: seq<seq<seq<Models.Single>>>, ghost built: seq<Models.Package>)
    requires forall i :: 0 <= i < |ps| ==> ps[i].Valid() && ps[i].IsEmpty()
    requires forall i, j :: 0 <= i < j < |ps| ==> ps[i] != ps[j]
    requires exporter.Ok? ==> exporter.value.Valid() && exporter.value.logger == logger && exporter.value.fs == fs && exporter.value.steps == [] && exporter.value.archiveOutcomes == []
    modifies fs, ps, logger, if exporter.Ok? then {exporter.value} else {}
    ensures exporter.Ok? ==> exporter.value.Valid()
    ensures Removed(old(fs.entries), cleaned, removal, exportsDir, relativeDir, config, rows, parseWith, SlugArgument(slug))
    ensures removal.Err? ==> status == Crashed(removal.message) && fs.entries == cleaned && logger.data == old(logger.data)
    ensures removal.Ok? ==> !status.Crashed? && LogEndsWith(logger.data, status, logger.counter, now)
    ensures removal.Ok? ==>
      AfterRemovalEnds(exporter, config, ps, Named(slug) && FindEntry(rows, slug.value).None?, collectionsFound, singlesFound,
                       oc, os, built, status, zipWritten, asWritten)
  {
    var removed := RemoveOldExports(fs, exportsDir, relativeDir, config, rows, parseWith, SlugArgument(slug));
    removal, cleaned, oc, os, built := removed, fs.entries, [], [], [];
    assert Removed(old(fs.entries), cleaned, removal, exportsDir, relativeDir, config, rows, parseWith, SlugArgument(slug));
    if removed.Err? {
      status := Crashed(removed.message);
      return;
    }
    status, oc, os, built := AfterRemoval(exporter, logger, config, ps, Named(slug) && FindEntry(rows, slug.value).None?,
                                  collectionsFound, singlesFound, zipWritten, asWritten, now);
  }

  /** The exports directory as the public site addresses it, for the archives' public paths. */
  function RelativeDir(publicPath: string): Path {
    PE.Resolve([], Split(publicPath, '/'))
  }

  /** The console command. The stores' answers are given: the rows of the packages taxonomy, in
      the name order the packages store's `findAll` sorts them into, and the collections and
      singles `findAll` returns per Bolt locale. */
  class ExportCommand {
    const fs: FileSystem
    const settings: Config.Settings
    const publicDir: Path
    const publicPath: string
    const exportsDir: Path
    const packageRows: seq<PackageEntry>
    const collectionsFound: map<string, seq<Models.Collection>>
    const singlesFound: map<string, seq<Models.Single>>
    const formatDate: string -> string
    const parseWith: string -> ExportsStore.DateParser
    const now: int
    var fileLogger: Logging.FileLogger?
    var packageExporter: PE.PackageExporter?

    /** The exports directory is the canonical form of the public directory's text followed by
        `exporter/public_path`, and is made when it does not exist. */
    constructor (fs: FileSystem, settings: Config.Settings, publicDir: Path, packageRows: seq<PackageEntry>,
                 collectionsFound: map<string, seq<Models.Collection>>, singlesFound: map<string, seq<Models.Single>>,
                 formatDate: string -> string, parseWith: string -> ExportsStore.DateParser, now: int)
      modifies fs
      ensures this.fs == fs && this.settings == settings && this.publicDir == publicDir && this.packageRows == packageRows
      ensures this.collectionsFound == collectionsFound && this.singlesFound == singlesFound
      ensures this.formatDate == formatDate && this.parseWith == parseWith && this.now == now
      ensures publicPath == PublicPathSetting(settings.config)
      ensures exportsDir == PE.Concat(publicDir, publicPath)
      ensures fs.entries == if exportsDir in old(fs.entries) then old(fs.entries) else WithDirs(old(fs.entries), exportsDir)
      ensures |exportsDir| >= 1 ==> exportsDir in fs.entries
      ensures fs.copies == old(fs.copies)
      ensures fileLogger == null && packageExporter == null
    {
      this.fs := fs;
      this.settings := settings;
      this.publicDir := publicDir;
      this.packageRows := packageRows;
      this.collectionsFound := collectionsFound;
      this.singlesFound := singlesFound;
      this.formatDate := formatDate;
      this.parseWith := parseWith;
      this.now := now;
      var path := PublicPathSetting(settings.config);
      publicPath := path;
      exportsDir := PE.Concat(publicDir, path);
      fileLogger := null;
      packageExporter := null;
      new;
      if exportsDir !in fs.entries {
        fs.MakeDirs(exportsDir);
      }
    }

    /** `execute`: the logger and the exporter are made and kept in the command's fields, the
        packages read (`slug` names one, or every package is read), the old archives removed,
        and the packages built and exported. `fetched` are the packages read, `removal` what the
        removal answered when it ran and `cleaned` the disk it left; `owned`, `ownedSingles` and
        `built` are as `AfterRemovalEnds` describes them. The export numbered `k` in the run (the
        full archive of the `i`-th package is `2 * i`, its slim one `2 * i + 1`) finds its archive
        produced when `zipWritten(k)`; `asWritten` runs `finish` as written rather than as evidently
        intended. */
    method Execute(slug: Option<string>, zipWritten: nat -> bool, asWritten: bool)
      returns (status: Status, ghost logger: Logging.FileLogger, ghost exporter: Result<PE.PackageExporter>,
               ghost fetched: seq<Models.Package>, ghost removal: Option<Result<bool>>,
               ghost cleaned: map<Path, Node>, ghost owned: seq<seq<seq<Models.Collection>>>,
               ghost ownedSingles: seq<seq<seq<Models.Single>>>, ghost built: seq<Models.Package>)
      modifies this, fs
      ensures fileLogger == logger && fresh(logger) && packageExporter == if exporter.Ok? then exporter.value else null
      ensures LogEndsWith(logger.data, status, logger.counter, now)
      ensures exporter.Err? ==> exporter.message in {PE.ExportsDirMissing, PE.MalformedLanguages}
      ensures exportsDir !in old(fs.entries) ==> status == Crashed(PE.ExportsDirMissing) && fs.entries == old(fs.entries)
      ensures exportsDir in old(fs.entries) && Available(packageRows, slug) == [] ==>
                status == Failure(NoPackages) && fs.entries == old(fs.entries)
      ensures removal.Some? <==> exportsDir in old(fs.entries) && Available(packageRows, slug) != []
      ensures removal.Some? ==>
        Removed(old(fs.entries), cleaned, removal.value, exportsDir, RelativeDir(publicPath), settings.config, packageRows,
                parseWith, SlugArgument(slug))
      ensures removal.Some? && removal.value.Err? ==> status == Crashed(removal.value.message) && fs.entries == cleaned
      ensures removal.Some? && removal.value.Ok? ==>
        AfterRemovalEnds(exporter, settings.config, fetched, None in Available(packageRows, slug),
                         collectionsFound, singlesFound, owned, ownedSingles, built, status, zipWritten, asWritten)
      ensures exportsDir in old(fs.entries) && None !in Available(packageRows, slug) ==> Read(packageRows, slug, fetched)
    {
      ghost var entries := fs.entries;
      var answer := Start();
      assert fs.entries == entries;
      logger, exporter := fileLogger, answer;
      status, fetched, removal, cleaned, owned, ownedSingles, built :=
        StartAndRun(fs, exportsDir, publicPath, settings.config, packageRows, collectionsFound, singlesFound,
                    parseWith, now, slug, zipWritten, asWritten, answer, fileLogger);
    }

    /** The first lines of `execute`: the file logger is made, then the exporter, whose constructor
        throws when the exports directory is missing or the languages are malformed. */
    method Start() returns (answer: Result<PE.PackageExporter>)
      modifies this
      ensures fileLogger != null && fresh(fileLogger) && fileLogger.data == [] && fileLogger.counter == 0
      ensures packageExporter == if answer.Ok? then answer.value else null
      ensures exportsDir !in fs.entries ==> answer == Err(PE.ExportsDirMissing)
      ensures exportsDir in fs.entries ==> answer != Err(PE.ExportsDirMissing)
      ensures answer.Err? ==> answer.message in {PE.ExportsDirMissing, PE.MalformedLanguages}
      ensures answer.Ok? ==> fresh(answer.value) && answer.value.Valid() && answer.value.logger == fileLogger
                             && answer.value.fs == fs && answer.value.steps == [] && answer.value.archiveOutcomes == []
    {
      var made := new Logging.FileLogger();
      fileLogger := made;
      answer := PE.NewPackageExporter(fs, made, settings, publicDir, exportsDir, formatDate, now);
      assert |PE.ExportsDirMissing| != |PE.MalformedLanguages|;
      packageExporter := if answer.Ok? then answer.value else null;
    }
  }

  /** The body of `execute` once the logger and the exporter are made: the command ends when the
      exports directory is missing; otherwise the packages are read, the old archives removed and
      the packages exported as `ReadAndRun` describes. */
  method StartAndRun(fs: FileSystem, exportsDir: Path, publicPath: string, config: Json,
                     rows: seq<PackageEntry>, collectionsFound: map<string, seq<Models.Collection>>,
                     singlesFound: map<string, seq<Models.Single>>, parseWith: string -> ExportsStore.DateParser,
                     now: int, slug: Option<string>, zipWritten: nat -> bool, asWritten: bool,
                     exporter: Result<PE.PackageExporter>, logger: Logging.FileLogger)
    returns (status: Status, ghost fetched: seq<Models.Package>, ghost removal: Option<Result<bool>>,
             ghost cleaned: map<Path, Node>, ghost owned: seq<seq<seq<Models.Collection>>>,
             ghost ownedSingles: seq<seq<seq<Models.Single>>>, ghost built: seq<Models.Package>)
    requires logger.data == [] && logger.counter == 0
    requires exportsDir !in fs.entries ==> exporter == Err(PE.ExportsDirMissing)
    requires exporter.Err? ==> exporter.message in {PE.ExportsDirMissing, PE.MalformedLanguages}
    requires exportsDir in fs.entries ==> exporter != Err(PE.ExportsDirMissing)
    requires exporter.Ok? ==> exporter.value.Valid() && exporter.value.logger == logger && exporter.value.fs == fs && exporter.value.steps == [] && exporter.value.archiveOutcomes == []
    modifies fs, logger, if exporter.Ok? then {exporter.value} else {}
    ensures LogEndsWith(logger.data, status, logger.counter, now)
    ensures exportsDir !in old(fs.entries) ==> status == Crashed(PE.ExportsDirMissing) && fs.entries == old(fs.entries)
    ensures exportsDir in old(fs.entries) && Available(rows, slug) == [] ==>
              status == Failure(NoPackages) && fs.entries == old(fs.entries)
    ensures removal.Some? <==> exportsDir in old(fs.entries) && Available(rows, slug) != []
    ensures removal.Some? ==>
      Removed(old(fs.entries), cleaned, removal.value, exportsDir, RelativeDir(publicPath), config, rows,
              parseWith, SlugArgument(slug))
    ensures removal.Some? && removal.value.Err? ==> status == Crashed(removal.value.message) && fs.entries == cleaned
    ensures removal.Some? && removal.value.Ok? ==>
      AfterRemovalEnds(exporter, config, fetched, None in Available(rows, slug),
                       collectionsFound, singlesFound, owned, ownedSingles, built, status, zipWritten, asWritten)
    ensures exportsDir in old(fs.entries) && None !in Available(rows, slug) ==> Read(rows, slug, fetched)
  {
    if exporter == Err(PE.ExportsDirMissing) {
      fetched, removal, cleaned, owned, ownedSingles, built := [], None, fs.entries, [], [], [];
      status := Crashed(PE.ExportsDirMissing);
      return;
    }
    status, fetched, removal, cleaned, owned, ownedSingles, built :=
      ReadAndRun(fs, exportsDir, publicPath, config, rows, collectionsFound, singlesFound, parseWith,
                 now, slug, zipWritten, asWritten, exporter, logger);
  }

  /** The packages read for the command line's `slug` are new ones, one per available row. */
  ghost predicate Read(rows: seq<PackageEntry>, slug: Option<string>, fetched: seq<Models.Package>) {
    var available := Available(rows, slug);
    && |fetched| == |available|
    && forall i :: 0 <= i < |fetched| ==> available[i] == Some(PackageEntry(fetched[i].name, fetched[i].slug))
  }

  /** `execute` once the exporter is made: the packages read, then the removal and the rest. */
  method ReadAndRun(fs: FileSystem, exportsDir: Path, publicPath: string, config: Json,
                    rows: seq<PackageEntry>, collectionsFound: map<string, seq<Models.Collection>>,
                    singlesFound: map<string, seq<Models.Single>>, parseWith: string -> ExportsStore.DateParser,
                    now: int, slug: Option<string>, zipWritten: nat -> bool, asWritten: bool, exporter: Result<PE.PackageExporter>,
                    logger: Logging.FileLogger)
    returns (status: Status, ghost fetched: seq<Models.Package>, ghost removal: Option<Result<bool>>,
             ghost cleaned: map<Path, Node>, ghost owned: seq<seq<seq<Models.Collection>>>,
             ghost ownedSingles: seq<seq<seq<Models.Single>>>, ghost built: seq<Models.Package>)
    requires logger.data == [] && logger.counter == 0
    requires exporter.Ok? ==> exporter.value.Valid() && exporter.value.logger == logger && exporter.value.fs == fs && exporter.value.steps == [] && exporter.value.archiveOutcomes == []
    modifies fs, logger, if exporter.Ok? then {exporter.value} else {}
    ensures LogEndsWith(logger.data, status, logger.counter, now)
    ensures Available(rows, slug) == [] ==> status == Failure(NoPackages) && fs.entries == old(fs.entries)
    ensures removal.Some? <==> Available(rows, slug) != []
    ensures removal.Some? ==>
      Removed(old(fs.entries), cleaned, removal.value, exportsDir, RelativeDir(publicPath), config, rows,
              parseWith, SlugArgument(slug))
    ensures removal.Some? && removal.value.Err? ==> status == Crashed(removal.value.message) && fs.entries == cleaned
    ensures removal.Some? && removal.value.Ok? ==>
      AfterRemovalEnds(exporter, config, fetched, None in Available(rows, slug),
                       collectionsFound, singlesFound, owned, ownedSingles, built, status, zipWritten, asWritten)
    ensures None !in Available(rows, slug) ==> Read(rows, slug, fetched)
  {
    fetched, removal, cleaned, owned, ownedSingles, built := [], None, fs.entries, [], [], [];
    var available := Available(rows, slug);
    if |available| == 0 {
      status := Report(logger, NoPackages, now);
      return;
    }
    var ps := [];
    if None !in available {
      ps := Fetch(Present(available));
      assert Read(rows, slug, ps);
    }
    fetched := ps;
    ghost var answer;
    status, answer, cleaned, owned, ownedSingles, built :=
      RemoveAndRun(fs, exportsDir, RelativeDir(publicPath), config, rows, parseWith, slug, exporter, logger,
                   ps, collectionsFound, singlesFound, zipWritten, asWritten, now);
    removal := Some(answer);
  }
}
