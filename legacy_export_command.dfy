/** `exporter:export` of the previous generation: every package of the packages taxonomy is filled
    from the collection and single stores, packages with nothing in them are dropped, and each
    remaining package is laid out, zipped and cleaned up by the previous generation's content
    exporter, one supported language at a time. What is thrown is written to the console and ends
    the command with `FAILURE`. */
module LegacyExportCommands {
  import opened Wrappers
  import opened Json
  import opened Text
  import opened Disk
  import Models
  import Config
  import LM = LegacyModels
  import PE = PackageExporting
  import LE = LegacyExporting
  import EC = ExportCommands

  /** How `execute` ends: `Command::SUCCESS`, or `Command::FAILURE` once the message of what was
      thrown has been written. */
  datatype Status = Success | Failure(message: string)

  /** A row of the packages taxonomy; the store makes `new Package(slug, name)` from it. */
  datatype PackageRow = PackageRow(slug: string, name: string)

  const DefaultPublicPath: string := "/files/exports/"

  /** What PHP throws when `start` is handed a date suffix that is not a string. */
  function SuffixTypeError(j: Json): string {
    "App\\Exporter\\Utilities\\ContentExporter::start(): Argument #3 ($fileDateSuffix) must be of type string, "
      + TypeName(j) + " given"
  }

  /** `exporter/supported_languages`, or the default English entry when the setting is falsy. */
  function Languages(config: Json): Option<seq<PE.LanguageSetting>> {
    var setting := Config.LegacyWalk(config, PE.LanguagesPath);
    PE.DecodeLanguages(if setting.Truthy() then setting else PE.DefaultLanguagesJson)
  }

  /** `exporter/file_date_suffix`, or `m-d-Y-H-i` when the setting is falsy. */
  function DateSuffix(config: Json): Json {
    var setting := Config.LegacyWalk(config, PE.DateFormatPath);
    if setting.Truthy() then setting else JStr(PE.DefaultFileDateFormat)
  }

  /** `exporter/public_path`, or `/files/exports/` when it is not a non-empty string. */
  function PublicPath(config: Json): string {
    var setting := Config.LegacyWalk(config, EC.PublicPathPath);
    if setting.JStr? && setting.Truthy() then setting.s else DefaultPublicPath
  }

  /** The logo handed to `start`: the public directory's text followed by the configured path, when that
      names an existing file, else none. */
  function Logo(entries: map<Path, Node>, publicDir: Path, config: Json): Path {
    var setting := Config.LegacyWalk(config, PE.LogoPath);
    if setting.JStr? && setting.Truthy() && PE.Concat(publicDir, setting.s) in entries
    then PE.Concat(publicDir, setting.s)
    else []
  }

  /** The interface texts of a locale: its own entry when truthy, else the English one. */
  function InterfaceFor(config: Json, locale: string): Json {
    var own := Config.LegacyWalk(config, PE.InterfacePath(locale));
    if own.Truthy() then own else Config.LegacyWalk(config, PE.InterfacePath("en"))
  }

  /** Both generations read the same supported languages and date suffix, although the older `get`
      has no default. */
  lemma ListsAgree(config: Json)
    ensures Languages(config) == EC.CommandLanguages(config)
    ensures DateSuffix(config) == EC.DateFormatSetting(config)
  {
    Config.LegacyIsNullDefault(config, PE.LanguagesPath);
    Config.LegacyIsNullDefault(config, PE.DateFormatPath);
  }

  /** Both generations read the same exports path and site logo. */
  lemma PathsAgree(config: Json, entries: map<Path, Node>, publicDir: Path)
    ensures PublicPath(config) == EC.PublicPathSetting(config)
    ensures Logo(entries, publicDir, config) == PE.SiteLogo(entries, publicDir, config)
  {
    Config.LegacyIsNullDefault(config, EC.PublicPathPath);
    Config.LegacyIsNullDefault(config, PE.LogoPath);
  }

  /** Both generations give a locale the same interface texts. */
  lemma InterfaceAgrees(config: Json, locale: string)
    ensures InterfaceFor(config, locale) == PE.InterfaceFor(config, locale)
  {
    Config.LegacyIsNullDefault(config, PE.InterfacePath(locale));
    Config.LegacyIsNullDefault(config, PE.InterfacePath("en"));
  }

  /** An interface setting that `$interface['APP_LOGO'] = ...` cannot extend: `true`, a number or a string. */
  predicate Scalar(interface: Json) {
    (interface.JBool? && interface.b) || interface.JInt? || interface.JStr?
  }

  /** The collections of a store answer that belong to the package, in store order. */
  function Owned(cs: seq<LM.Collection>, slug: string): seq<LM.Collection>
    reads cs
  {
    if |cs| == 0 then []
    else
      Owned(cs[..|cs| - 1], slug) + if cs[|cs| - 1].BelongsTo(slug) then [cs[|cs| - 1]] else []
  }

  /** The singles of a store answer that belong to the package, in store order. */
  function OwnedSingles(ss: seq<LM.Single>, slug: string): seq<LM.Single>
    reads ss
  {
    if |ss| == 0 then []
    else
      OwnedSingles(ss[..|ss| - 1], slug) + if ss[|ss| - 1].BelongsTo(slug) then [ss[|ss| - 1]] else []
  }

  /** An item of the answer is owned exactly when it belongs to the package. */
  lemma {:induction false} OwnedMembers(cs: seq<LM.Collection>, slug: string)
    ensures forall c :: c in Owned(cs, slug) <==> c in cs && c.BelongsTo(slug)
  {
    if |cs| > 0 {
      var n := |cs| - 1;
      OwnedMembers(cs[..n], slug);
      assert cs == cs[..n] + [cs[n]];
    }
  }

  lemma {:induction false} OwnedSinglesMembers(ss: seq<LM.Single>, slug: string)
    ensures forall s :: s in OwnedSingles(ss, slug) <==> s in ss && s.BelongsTo(slug)
  {
    if |ss| > 0 {
      var n := |ss| - 1;
      OwnedSinglesMembers(ss[..n], slug);
      assert ss == ss[..n] + [ss[n]];
    }
  }

  /** Per language, the owned collections of the answer the package received for it. */
  function OwnedAnswers(cf: seq<seq<LM.Collection>>, slug: string): (r: seq<seq<LM.Collection>>)
    reads EC.Items(cf)
    ensures |r| == |cf| && forall j :: 0 <= j < |cf| ==> r[j] == Owned(cf[j], slug)
  {
    seq(|cf|, j requires 0 <= j < |cf| reads EC.Items(cf) =>
      assert forall x :: x in cf[j] ==> x in EC.Items(cf);
      Owned(cf[j], slug))
  }

  /** Per language, the owned singles of the answer the package received for it. */
  function OwnedSingleAnswers(sf: seq<seq<LM.Single>>, slug: string): (r: seq<seq<LM.Single>>)
    reads EC.Items(sf)
    ensures |r| == |sf| && forall j :: 0 <= j < |sf| ==> r[j] == OwnedSingles(sf[j], slug)
  {
    seq(|sf|, j requires 0 <= j < |sf| reads EC.Items(sf) =>
      assert forall x :: x in sf[j] ==> x in EC.Items(sf);
      OwnedSingles(sf[j], slug))
  }

  /** The package holds exactly what `buildPackages` gathers from the owned items `oc` and `os`,
      one list per language. */
  ghost predicate Holds(p: LM.Package, langs: seq<PE.LanguageSetting>, oc: seq<seq<LM.Collection>>, os: seq<seq<LM.Single>>)
    reads p
  {
    |oc| == |langs| == |os|
    && p.Valid()
    && p.collections == EC.Entries(langs, oc)
    && p.singles == EC.Entries(langs, os)
  }

  /** Such a package lists under each locale the owned items of the answers for that locale's
      languages, in language and then answer order. */
  lemma HoldsContents(p: LM.Package, langs: seq<PE.LanguageSetting>, oc: seq<seq<LM.Collection>>, os: seq<seq<LM.Single>>, locale: string)
    requires Holds(p, langs, oc, os)
    ensures p.CollectionsByLocale(locale) == EC.Gathered(langs, oc, locale)
    ensures p.SinglesByLocale(locale) == EC.Gathered(langs, os, locale)
  {
    EC.EntriesByLocale(langs, oc, locale);
    EC.EntriesByLocale(langs, os, locale);
  }

  /** Such a package is empty exactly when no answer holds one of its items. */
  lemma HoldsEmptyIff(p: LM.Package, langs: seq<PE.LanguageSetting>, oc: seq<seq<LM.Collection>>, os: seq<seq<LM.Single>>)
    requires Holds(p, langs, oc, os)
    ensures p.IsEmpty() <==> !EC.AnyOwned(oc) && !EC.AnyOwned(os)
  {
    EC.EntriesEmptyIff(langs, oc);
    EC.EntriesEmptyIff(langs, os);
  }

  /** The packages store's `findAll`: a new, empty package per row, in row order. */
  method Fetch(rows: seq<PackageRow>) returns (ps: seq<LM.Package>)
    ensures |ps| == |rows|
    ensures forall i :: 0 <= i < |rows| ==> PackageRow(ps[i].slug, ps[i].title) == rows[i]
    ensures forall i :: 0 <= i < |rows| ==> fresh(ps[i]) && ps[i].Valid() && ps[i].IsEmpty()
    ensures forall i, j :: 0 <= i < j < |ps| ==> ps[i] != ps[j]
  {
    ps := [];
    for i := 0 to |rows|
      invariant |ps| == i
      invariant forall k :: 0 <= k < i ==> PackageRow(ps[k].slug, ps[k].title) == rows[k]
      invariant forall k :: 0 <= k < i ==> fresh(ps[k]) && ps[k].Valid() && ps[k].IsEmpty()
      invariant forall k, j :: 0 <= k < j < i ==> ps[k] != ps[j]
    {
      var p := new LM.Package(rows[i].slug, rows[i].name);
      ps := ps + [p];
    }
  }

  /** The collection loop of `buildPackages` for one package and locale. */
  method AddOwnedCollections(p: LM.Package, locale: string, cs: seq<LM.Collection>)
    requires p.Valid()
    modifies p
    ensures p.Valid()
    ensures p.collections == EC.Put(old(p.collections), locale, Owned(cs, p.slug))
    ensures p.singles == old(p.singles)
  {
    ghost var start, kept := p.collections, p.singles;
    for i := 0 to |cs|
      invariant p.Valid() && p.singles == kept
      invariant p.collections == EC.Put(start, locale, Owned(cs[..i], p.slug))
    {
      assert cs[..i + 1][..i] == cs[..i];
      if cs[i].BelongsTo(p.slug) {
        assert Owned(cs[..i + 1], p.slug) == Owned(cs[..i], p.slug) + [cs[i]];
        EC.PutAppend(start, locale, Owned(cs[..i], p.slug), cs[i]);
        p.AddCollection(locale, cs[i]);
      } else {
        assert Owned(cs[..i + 1], p.slug) == Owned(cs[..i], p.slug);
      }
    }
    assert cs[..|cs|] == cs;
  }

  /** The single loop of `buildPackages` for one package and locale. */
  method AddOwnedSingles(p: LM.Package, locale: string, ss: seq<LM.Single>)
    requires p.Valid()
    modifies p
    ensures p.Valid()
    ensures p.singles == EC.Put(old(p.singles), locale, OwnedSingles(ss, p.slug))
    ensures p.collections == old(p.collections)
  {
    ghost var start, kept := p.singles, p.collections;
    for i := 0 to |ss|
      invariant p.Valid() && p.collections == kept
      invariant p.singles == EC.Put(start, locale, OwnedSingles(ss[..i], p.slug))
    {
      assert ss[..i + 1][..i] == ss[..i];
      if ss[i].BelongsTo(p.slug) {
        assert OwnedSingles(ss[..i + 1], p.slug) == OwnedSingles(ss[..i], p.slug) + [ss[i]];
        EC.PutAppend(start, locale, OwnedSingles(ss[..i], p.slug), ss[i]);
        p.AddSingle(locale, ss[i]);
      } else {
        assert OwnedSingles(ss[..i + 1], p.slug) == OwnedSingles(ss[..i], p.slug);
      }
    }
    assert ss[..|ss|] == ss;
  }

  /** The `j`-th turn of the language loop: the package then holds what the first `j + 1`
      languages contribute. */
  method FillStep(p: LM.Package, langs: seq<PE.LanguageSetting>, cf: seq<seq<LM.Collection>>, sf: seq<seq<LM.Single>>,
                  j: nat, ghost oc: seq<seq<LM.Collection>>, ghost os: seq<seq<LM.Single>>)
    requires |cf| == |langs| == |sf| && j < |langs|
    requires oc == OwnedAnswers(cf, p.slug) && os == OwnedSingleAnswers(sf, p.slug)
    requires p.Valid() && p.collections == EC.Entries(langs[..j], oc[..j]) && p.singles == EC.Entries(langs[..j], os[..j])
    modifies p
    ensures p.Valid() && p.collections == EC.Entries(langs[..j + 1], oc[..j + 1]) && p.singles == EC.Entries(langs[..j + 1], os[..j + 1])
  {
    EC.EntriesStep(langs, oc, j);
    EC.EntriesStep(langs, os, j);
    AddOwnedCollections(p, langs[j].boltLocaleCode, cf[j]);
    AddOwnedSingles(p, langs[j].boltLocaleCode, sf[j]);
  }

  /** The language loop of `buildPackages` for one package that starts empty: `cf` and `sf` are
      the stores' answers to the package's `findAll` calls, one per language. */
  method FillPackage(p: LM.Package, langs: seq<PE.LanguageSetting>, cf: seq<seq<LM.Collection>>, sf: seq<seq<LM.Single>>)
    requires |cf| == |langs| == |sf|
    requires p.Valid() && p.IsEmpty()
    modifies p
    ensures Holds(p, langs, old(OwnedAnswers(cf, p.slug)), old(OwnedSingleAnswers(sf, p.slug)))
  {
    ghost var oc := OwnedAnswers(cf, p.slug);
    ghost var os := OwnedSingleAnswers(sf, p.slug);
    for j := 0 to |langs|
      invariant p.Valid()
      invariant p.collections == EC.Entries(langs[..j], oc[..j])
      invariant p.singles == EC.Entries(langs[..j], os[..j])
      invariant unchanged(EC.Items(cf), EC.Items(sf))
    {
      assert OwnedAnswers(cf, p.slug) == oc && OwnedSingleAnswers(sf, p.slug) == os;
      FillStep(p, langs, cf, sf, j, oc, os);
    }
    assert langs[..|langs|] == langs && oc[..|oc|] == oc && os[..|os|] == os;
  }

  /** Some answer the package received holds a collection or single of it. */
  predicate Owns(cf: seq<seq<LM.Collection>>, sf: seq<seq<LM.Single>>, slug: string)
    reads EC.Items(cf), EC.Items(sf)
  {
    EC.AnyOwned(OwnedAnswers(cf, slug)) || EC.AnyOwned(OwnedSingleAnswers(sf, slug))
  }

  /** One package of `buildPackages`: filled, then appended to the results when it is not empty. */
  method KeepIfFilled(p: LM.Package, langs: seq<PE.LanguageSetting>, cf: seq<seq<LM.Collection>>,
                      sf: seq<seq<LM.Single>>, results: seq<LM.Package>) returns (kept: seq<LM.Package>)
    requires |cf| == |langs| == |sf|
    requires p.Valid() && p.IsEmpty()
    modifies p
    ensures Holds(p, langs, old(OwnedAnswers(cf, p.slug)), old(OwnedSingleAnswers(sf, p.slug)))
    ensures kept == results + if old(Owns(cf, sf, p.slug)) then [p] else []
  {
    FillPackage(p, langs, cf, sf);
    HoldsEmptyIff(p, langs, old(OwnedAnswers(cf, p.slug)), old(OwnedSingleAnswers(sf, p.slug)));
    kept := results;
    if !p.IsEmpty() {
      kept := kept + [p];
    }
  }

  /** Every object of every answer, as a frame. */
  function Answered<T>(af: seq<seq<seq<T>>>): set<T> {
    set k, j, x | 0 <= k < |af| && 0 <= j < |af[k]| && x in af[k][j] :: x
  }

  /** Answers given per package hold well-formed language lists: one answer per language. */
  predicate Shaped<T>(af: seq<seq<seq<T>>>, n: nat, langs: nat) {
    |af| == n && forall k :: 0 <= k < n ==> |af[k]| == langs
  }

  /** What each package owns of the answers it received. */
  function OwnedPer(ps: seq<LM.Package>, cf: seq<seq<seq<LM.Collection>>>): (oc: seq<seq<seq<LM.Collection>>>)
    requires |cf| == |ps|
    reads Answered(cf)
    ensures |oc| == |ps|
    ensures forall k :: 0 <= k < |ps| ==> oc[k] == OwnedAnswers(cf[k], ps[k].slug)
  {
    seq(|ps|, k requires 0 <= k < |ps| reads Answered(cf) =>
      assert forall x :: x in EC.Items(cf[k]) ==> x in Answered(cf);
      OwnedAnswers(cf[k], ps[k].slug))
  }

  function OwnedSinglesPer(ps: seq<LM.Package>, sf: seq<seq<seq<LM.Single>>>): (os: seq<seq<seq<LM.Single>>>)
    requires |sf| == |ps|
    reads Answered(sf)
    ensures |os| == |ps|
    ensures forall k :: 0 <= k < |ps| ==> os[k] == OwnedSingleAnswers(sf[k], ps[k].slug)
  {
    seq(|ps|, k requires 0 <= k < |ps| reads Answered(sf) =>
      assert forall x :: x in EC.Items(sf[k]) ==> x in Answered(sf);
      OwnedSingleAnswers(sf[k], ps[k].slug))
  }

  /** The packages before `i` hold what they own and `results` lists, in order, those whose
      `keep` flag is set; the packages from `i` on are as the store made them. */
  ghost predicate FilledUpTo(ps: seq<LM.Package>, i: nat, langs: seq<PE.LanguageSetting>, oc: seq<seq<seq<LM.Collection>>>,
                             os: seq<seq<seq<LM.Single>>>, keep: seq<bool>, results: seq<LM.Package>)
    reads ps
  {
    && i <= |ps| && |oc| == |ps| == |os| == |keep|
    && results == EC.Select(ps[..i], keep[..i])
    && (forall k :: 0 <= k < i ==> Holds(ps[k], langs, oc[k], os[k]))
    && (forall k :: i <= k < |ps| ==> ps[k].Valid() && ps[k].IsEmpty())
  }

  /** The `i`-th turn of the package loop of `buildPackages`. */
  method FillNext(ps: seq<LM.Package>, i: nat, langs: seq<PE.LanguageSetting>, cf: seq<seq<LM.Collection>>,
                  sf: seq<seq<LM.Single>>, results: seq<LM.Package>, ghost oc: seq<seq<seq<LM.Collection>>>,
                  ghost os: seq<seq<seq<LM.Single>>>, ghost keep: seq<bool>)
    returns (next: seq<LM.Package>)
    requires |cf| == |langs| == |sf| && i < |ps|
    requires forall j, k :: 0 <= j < k < |ps| ==> ps[j] != ps[k]
    requires FilledUpTo(ps, i, langs, oc, os, keep, results)
    requires oc[i] == OwnedAnswers(cf, ps[i].slug) && os[i] == OwnedSingleAnswers(sf, ps[i].slug)
    requires keep[i] == (EC.AnyOwned(oc[i]) || EC.AnyOwned(os[i]))
    modifies ps[i]
    ensures FilledUpTo(ps, i + 1, langs, oc, os, keep, next)
  {
    EC.SelectStep(ps[..i + 1], keep[..i + 1]);
    assert ps[..i + 1][..i] == ps[..i] && keep[..i + 1][..i] == keep[..i];
    next := KeepIfFilled(ps[i], langs, cf, sf, results);
  }

  /** A package is kept exactly when it owns something. */
  lemma KeptIffOwns(ps: seq<LM.Package>, oc: seq<seq<seq<LM.Collection>>>, os: seq<seq<seq<LM.Single>>>, q: LM.Package)
    requires |oc| == |ps| == |os|
    ensures q in EC.Select(ps, EC.Keeps(oc, os)) <==> exists i :: 0 <= i < |ps| && ps[i] == q && (EC.AnyOwned(oc[i]) || EC.AnyOwned(os[i]))
  {
    EC.SelectMembers(ps, EC.Keeps(oc, os), q);
  }

  /** `buildPackages`: each package filled from the answers to its own `findAll` calls (the stores
      make new objects on every call), then kept when it is not empty. */
  method BuildPackages(ps: seq<LM.Package>, langs: seq<PE.LanguageSetting>,
                       cf: seq<seq<seq<LM.Collection>>>, sf: seq<seq<seq<LM.Single>>>)
    returns (results: seq<LM.Package>)
    requires Shaped(cf, |ps|, |langs|) && Shaped(sf, |ps|, |langs|)
    requires forall i :: 0 <= i < |ps| ==> ps[i].Valid() && ps[i].IsEmpty()
    requires forall i, j :: 0 <= i < j < |ps| ==> ps[i] != ps[j]
    modifies ps
    ensures forall i :: 0 <= i < |ps| ==> Holds(ps[i], langs, old(OwnedPer(ps, cf))[i], old(OwnedSinglesPer(ps, sf))[i])
    ensures results == EC.Select(ps, EC.Keeps(old(OwnedPer(ps, cf)), old(OwnedSinglesPer(ps, sf))))
  {
    ghost var oc := OwnedPer(ps, cf);
    ghost var os := OwnedSinglesPer(ps, sf);
    ghost var keep := EC.Keeps(oc, os);
    results := [];
    for i := 0 to |ps|
      invariant FilledUpTo(ps, i, langs, oc, os, keep, results)
    {
      results := FillNext(ps, i, langs, cf[i], sf[i], results, oc, os, keep);
    }
    assert ps[..|ps|] == ps && keep[..|keep|] == keep;
  }

  /** The calls `export` makes for one locale. */
  function CollectionCalls(cs: seq<LM.Collection>): (r: seq<LE.Call>)
    ensures |r| == |cs| && forall i :: 0 <= i < |cs| ==> r[i] == LE.CollectionAdded(cs[i])
  {
    seq(|cs|, i requires 0 <= i < |cs| => LE.CollectionAdded(cs[i]))
  }

  function SingleCalls(ss: seq<LM.Single>): (r: seq<LE.Call>)
    ensures |r| == |ss| && forall i :: 0 <= i < |ss| ==> r[i] == LE.SingleAdded(ss[i])
  {
    seq(|ss|, i requires 0 <= i < |ss| => LE.SingleAdded(ss[i]))
  }

  function LocaleCalls(locale: string, text: string, cs: seq<LM.Collection>, ss: seq<LM.Single>): seq<LE.Call> {
    [LE.LocaleStarted(locale), LE.LanguageAdded(text)] + CollectionCalls(cs) + SingleCalls(ss) + [LE.LocaleFinished]
  }

  /** The locale loop of `export`: the supported languages in order, a locale the package has no
      content for skipped. */
  function VisitCalls(langs: seq<PE.LanguageSetting>, p: LM.Package): seq<LE.Call>
    reads p
  {
    if |langs| == 0 then []
    else
      var l := langs[|langs| - 1];
      VisitCalls(langs[..|langs| - 1], p)
      + if p.HasContentForLocale(l.boltLocaleCode)
        then LocaleCalls(l.boltLocaleCode, l.text, p.CollectionsByLocale(l.boltLocaleCode), p.SinglesByLocale(l.boltLocaleCode))
        else []
  }

  /** The calls `export` makes for one package. */
  function PackageCalls(langs: seq<PE.LanguageSetting>, p: LM.Package): seq<LE.Call>
    reads p
  {
    [LE.Started(p.title, p.slug)] + VisitCalls(langs, p) + [LE.Finished]
  }

  /** The calls `export` makes for all packages, in order. */
  function AllCalls(ps: seq<LM.Package>, langs: seq<PE.LanguageSetting>): seq<LE.Call>
    reads ps
  {
    if |ps| == 0 then [] else AllCalls(ps[..|ps| - 1], langs) + PackageCalls(langs, ps[|ps| - 1])
  }

  /** The calls of one locale start that locale and no other. */
  lemma LocaleStartedIn(locale: string, code: string, text: string, cs: seq<LM.Collection>, ss: seq<LM.Single>)
    ensures LE.LocaleStarted(locale) in LocaleCalls(code, text, cs, ss) <==> locale == code
  {
    var calls := LocaleCalls(code, text, cs, ss);
    if LE.LocaleStarted(locale) in calls {
      var i :| 0 <= i < |calls| && calls[i] == LE.LocaleStarted(locale);
      assert i == 0;
    }
  }

  /** A supported language the package has content for uses the locale. */
  predicate Visits(langs: seq<PE.LanguageSetting>, p: LM.Package, locale: string)
    reads p
  {
    exists i :: 0 <= i < |langs| && langs[i].boltLocaleCode == locale && p.HasContentForLocale(locale)
  }

  lemma VisitsStep(langs: seq<PE.LanguageSetting>, p: LM.Package, locale: string)
    requires |langs| > 0
    ensures Visits(langs, p, locale)
            <==> Visits(langs[..|langs| - 1], p, locale) || (langs[|langs| - 1].boltLocaleCode == locale && p.HasContentForLocale(locale))
  {
    var n := |langs| - 1;
    if Visits(langs, p, locale) {
      var i :| 0 <= i < |langs| && langs[i].boltLocaleCode == locale && p.HasContentForLocale(locale);
      if i < n {
        assert langs[..n][i] == langs[i];
      }
    }
    if Visits(langs[..n], p, locale) {
      var i :| 0 <= i < n && langs[..n][i].boltLocaleCode == locale && p.HasContentForLocale(locale);
      assert langs[i] == langs[..n][i];
    }
  }

  /** A locale is started for the package exactly when it is a supported one the package has content for. */
  lemma {:induction false} VisitedIff(langs: seq<PE.LanguageSetting>, p: LM.Package, locale: string)
    ensures LE.LocaleStarted(locale) in VisitCalls(langs, p) <==> Visits(langs, p, locale)
  {
    if |langs| > 0 {
      var n := |langs| - 1;
      var l := langs[n];
      VisitedIff(langs[..n], p, locale);
      VisitsStep(langs, p, locale);
      var has := p.HasContentForLocale(l.boltLocaleCode);
      var mine := if has then LocaleCalls(l.boltLocaleCode, l.text, p.CollectionsByLocale(l.boltLocaleCode), p.SinglesByLocale(l.boltLocaleCode)) else [];
      assert VisitCalls(langs, p) == VisitCalls(langs[..n], p) + mine;
      LocaleStartedIn(locale, l.boltLocaleCode, l.text, p.CollectionsByLocale(l.boltLocaleCode), p.SinglesByLocale(l.boltLocaleCode));
      assert LE.LocaleStarted(locale) in mine <==> has && l.boltLocaleCode == locale;
    }
  }

  /** Only the locale loop's own calls occur inside it: no `start` and no `finish`. */
  lemma {:induction false} VisitCallsInside(langs: seq<PE.LanguageSetting>, p: LM.Package)
    ensures forall c :: c in VisitCalls(langs, p) ==> !c.Started? && !c.Finished?
  {
    if |langs| > 0 {
      VisitCallsInside(langs[..|langs| - 1], p);
    }
  }

  /** The collections the calls add, in order. */
  function CollectionsOf(calls: seq<LE.Call>): seq<LM.Collection> {
    if |calls| == 0 then []
    else
      var n := |calls| - 1;
      CollectionsOf(calls[..n]) + if calls[n].CollectionAdded? then [calls[n].collection] else []
  }

  lemma {:induction false} CollectionsOfAppend(a: seq<LE.Call>, b: seq<LE.Call>)
    ensures CollectionsOf(a + b) == CollectionsOf(a) + CollectionsOf(b)
  {
    if |b| > 0 {
      var n := |b| - 1;
      CollectionsOfAppend(a, b[..n]);
      assert (a + b)[..|a| + n] == a + b[..n];
      assert (a + b)[|a| + n] == b[n];
    } else {
      assert a + b == a;
    }
  }

  /** The calls of one locale add its collections. */
  lemma LocaleCollections(code: string, text: string, cs: seq<LM.Collection>, ss: seq<LM.Single>)
    ensures CollectionsOf(LocaleCalls(code, text, cs, ss)) == cs
  {
    var head: seq<LE.Call> := [LE.LocaleStarted(code), LE.LanguageAdded(text)];
    CollectionsOfAppend(head, CollectionCalls(cs));
    CollectionsOfAppend(head + CollectionCalls(cs), SingleCalls(ss));
    CollectionsOfAppend(head + CollectionCalls(cs) + SingleCalls(ss), [LE.LocaleFinished]);
    assert CollectionsOf(head) == [] by {
      assert head[..1] == [LE.LocaleStarted(code)];
    }
    CollectionCallsAdd(cs);
    SinglesAddNothing(ss);
  }

  lemma {:induction false} CollectionCallsAdd(cs: seq<LM.Collection>)
    ensures CollectionsOf(CollectionCalls(cs)) == cs
  {
    if |cs| > 0 {
      var n := |cs| - 1;
      CollectionCallsAdd(cs[..n]);
      assert CollectionCalls(cs)[..n] == CollectionCalls(cs[..n]);
    }
  }

  lemma {:induction false} SinglesAddNothing(ss: seq<LM.Single>)
    ensures CollectionsOf(SingleCalls(ss)) == []
  {
    if |ss| > 0 {
      var n := |ss| - 1;
      SinglesAddNothing(ss[..n]);
      assert SingleCalls(ss)[..n] == SingleCalls(ss[..n]);
    }
  }

  /** The episodes the collections list, in order: those `addCollection` copies and unsets. */
  function EpisodesOf(cs: seq<LM.Collection>): seq<Models.Episode>
    reads cs
  {
    if |cs| == 0 then [] else EpisodesOf(cs[..|cs| - 1]) + cs[|cs| - 1].episodes
  }

  /** The same, read from a record of each collection's episodes. */
  function EpisodesIn(cs: seq<LM.Collection>, held: map<LM.Collection, seq<Models.Episode>>): seq<Models.Episode> {
    if |cs| == 0 then []
    else
      var c := cs[|cs| - 1];
      EpisodesIn(cs[..|cs| - 1], held) + if c in held then held[c] else []
  }

  lemma {:induction false} EpisodesInAppend(a: seq<LM.Collection>, b: seq<LM.Collection>, held: map<LM.Collection, seq<Models.Episode>>)
    ensures EpisodesIn(a + b, held) == EpisodesIn(a, held) + EpisodesIn(b, held)
  {
    if |b| > 0 {
      var n := |b| - 1;
      EpisodesInAppend(a, b[..n], held);
      assert (a + b)[..|a| + n] == a + b[..n];
      assert (a + b)[|a| + n] == b[n];
    } else {
      assert a + b == a;
    }
  }

  /** A prefix of the collections lists a prefix of the episodes. */
  lemma EpisodesInPrefix(a: seq<LM.Collection>, b: seq<LM.Collection>, held: map<LM.Collection, seq<Models.Episode>>)
    requires a <= b
    ensures EpisodesIn(a, held) <= EpisodesIn(b, held)
  {
    assert b == a + b[|a|..];
    EpisodesInAppend(a, b[|a|..], held);
  }

  /** The record agrees with the collections. */
  lemma {:induction false} EpisodesAgree(cs: seq<LM.Collection>, held: map<LM.Collection, seq<Models.Episode>>)
    requires forall c :: c in cs ==> c in held && held[c] == c.episodes
    ensures EpisodesOf(cs) == EpisodesIn(cs, held)
  {
    if |cs| > 0 {
      EpisodesAgree(cs[..|cs| - 1], held);
    }
  }

  /** The episode held both of its local paths when the export began. */
  predicate Usable(x: Models.Episode, orig: map<Models.Episode, LE.Locals>) {
    x in orig && orig[x].image.Some? && orig[x].filename.Some?
  }

  /** Every episode held both local paths when the export began and none is listed twice: then
      no `copy` is handed a path that an earlier clone unset. */
  predicate Strippable(eps: seq<Models.Episode>, orig: map<Models.Episode, LE.Locals>) {
    LE.NoRepeats(eps) && forall i :: 0 <= i < |eps| ==> Usable(eps[i], orig)
  }

  lemma StrippableAppend(a: seq<Models.Episode>, b: seq<Models.Episode>, orig: map<Models.Episode, LE.Locals>)
    ensures Strippable(a + b, orig) <==> Strippable(a, orig) && Strippable(b, orig) && forall i :: 0 <= i < |b| ==> b[i] !in a
  {
    var ab := a + b;
    if Strippable(ab, orig) {
      forall i | 0 <= i < |b| ensures b[i] !in a {
        forall k | 0 <= k < |a| ensures a[k] != b[i] {
          assert ab[k] == a[k] && ab[|a| + i] == b[i];
        }
      }
      forall i | 0 <= i < |b| ensures Usable(b[i], orig) {
        assert ab[|a| + i] == b[i];
      }
      forall i, j | 0 <= i < j < |b| ensures b[i] != b[j] {
        assert ab[|a| + i] == b[i] && ab[|a| + j] == b[j];
      }
      forall i | 0 <= i < |a| ensures Usable(a[i], orig) {
        assert ab[i] == a[i];
      }
      forall i, j | 0 <= i < j < |a| ensures a[i] != a[j] {
        assert ab[i] == a[i] && ab[j] == a[j];
      }
    }
  }

  lemma StrippablePrefix(a: seq<Models.Episode>, b: seq<Models.Episode>, orig: map<Models.Episode, LE.Locals>)
    requires a <= b
    ensures Strippable(b, orig) ==> Strippable(a, orig)
  {
    assert b == a + b[|a|..];
    StrippableAppend(a, b[|a|..], orig);
  }

  /** The local paths each episode of the frame holds now. */
  function Snapshot(frame: set<Models.Episode>): map<Models.Episode, LE.Locals>
    reads frame
  {
    map x | x in frame :: LE.Locals(x.localImage, x.localFilename)
  }

  /** The episodes of `done` are stripped; every other episode of the frame holds what it held
      when the export began. */
  ghost predicate Tracks(frame: set<Models.Episode>, done: seq<Models.Episode>, orig: map<Models.Episode, LE.Locals>)
    reads frame
  {
    (forall i :: 0 <= i < |done| ==> done[i] in frame)
    && forall x :: x in frame ==>
         x in orig && if x in done then x.localImage.None? && x.localFilename.None? else LE.Locals(x.localImage, x.localFilename) == orig[x]
  }

  /** Each recorded collection still lists the episodes recorded for it, all of them in the frame. */
  ghost predicate Kept(held: map<LM.Collection, seq<Models.Episode>>, frame: set<Models.Episode>)
    reads held.Keys
  {
    forall c :: c in held ==> c.episodes == held[c] && forall x :: x in held[c] ==> x in frame
  }

  /** The exporter is inside a started package. */
  ghost predicate Ready(e: LE.ContentExporter)
    reads e, e.fs
  {
    e.Valid() && |e.dirs.exportRoot| > 0 && e.dirs.exportRoot in e.fs.entries
  }

  /** `addCollection`, seen from the command: it passes when every episode still holds both local
      paths and none is listed twice, and then leaves them stripped. */
  method AddCollection(e: LE.ContentExporter, c: LM.Collection) returns (r: Outcome)
    requires Ready(e) && e.InLocale()
    modifies e`mainData, e`calls, e.fs, c.episodes
    ensures Ready(e) && e.InLocale() && e.calls == old(e.calls) + [LE.CollectionAdded(c)]
    ensures r.Fail? ==> r == Fail(LE.NullSource)
    ensures r.Pass? <==> LE.AllLocal(old(LE.LocalsOf(c.episodes))) && LE.NoRepeats(c.episodes)
    ensures r.Pass? ==> LE.Stripped(c.episodes)
  {
    r := e.AddCollection(c);
  }

  /** `addCollection` for one collection while `done` has been stripped. */
  method AddOne(e: LE.ContentExporter, c: LM.Collection, ghost held: map<LM.Collection, seq<Models.Episode>>,
                ghost frame: set<Models.Episode>, ghost done: seq<Models.Episode>, ghost orig: map<Models.Episode, LE.Locals>)
    returns (r: Outcome)
    requires Ready(e) && e.InLocale() && c in held && Kept(held, frame)
    requires Tracks(frame, done, orig) && Strippable(done, orig)
    modifies e`mainData, e`calls, e.fs, frame
    ensures Ready(e) && e.InLocale() && Kept(held, frame) && e.calls == old(e.calls) + [LE.CollectionAdded(c)]
    ensures r.Fail? ==> r == Fail(LE.NullSource)
    ensures r.Pass? <==> Strippable(done + held[c], orig)
    ensures r.Pass? ==> Tracks(frame, done + held[c], orig)
  {
    ghost var eps := c.episodes;
    ghost var locals := LE.LocalsOf(eps);
    assert LE.AllLocal(locals) <==> forall i :: 0 <= i < |eps| ==> eps[i] !in done && Usable(eps[i], orig) by {
      forall i | 0 <= i < |eps|
        ensures (locals[i].image.Some? && locals[i].filename.Some?) <==> eps[i] !in done && Usable(eps[i], orig)
      {
        assert eps[i] in frame;
      }
    }
    StrippableAppend(done, eps, orig);
    r := AddCollection(e, c);
  }

  /** The first `i` collections are added after the calls `base`, and their episodes stripped after `done`. */
  ghost predicate CollectedUpTo(e: LE.ContentExporter, cs: seq<LM.Collection>, i: nat, base: seq<LE.Call>,
                                held: map<LM.Collection, seq<Models.Episode>>, frame: set<Models.Episode>,
                                done: seq<Models.Episode>, orig: map<Models.Episode, LE.Locals>)
    reads e, e.fs, frame, held.Keys
  {
    && i <= |cs| && Ready(e) && e.InLocale() && Kept(held, frame)
    && e.calls == base + CollectionCalls(cs[..i])
    && Tracks(frame, done + EpisodesIn(cs[..i], held), orig)
    && Strippable(done + EpisodesIn(cs[..i], held), orig)
  }

  /** The `i`-th turn of the collection loop. */
  method CollectNext(e: LE.ContentExporter, cs: seq<LM.Collection>, i: nat, ghost base: seq<LE.Call>,
                     ghost held: map<LM.Collection, seq<Models.Episode>>, ghost frame: set<Models.Episode>,
                     ghost done: seq<Models.Episode>, ghost orig: map<Models.Episode, LE.Locals>) returns (r: Outcome)
    requires i < |cs| && cs[i] in held && CollectedUpTo(e, cs, i, base, held, frame, done, orig)
    modifies e`mainData, e`calls, e.fs, frame
    ensures Ready(e) && e.InLocale() && Kept(held, frame)
    ensures r.Fail? ==> r == Fail(LE.NullSource) && !Strippable(done + EpisodesIn(cs, held), orig)
    ensures r.Pass? ==> CollectedUpTo(e, cs, i + 1, base, held, frame, done, orig)
  {
    ghost var sofar := done + EpisodesIn(cs[..i], held);
    assert cs[..i + 1][..i] == cs[..i];
    assert done + EpisodesIn(cs[..i + 1], held) == sofar + held[cs[i]];
    EpisodesInPrefix(cs[..i + 1], cs, held);
    StrippablePrefix(sofar + held[cs[i]], done + EpisodesIn(cs, held), orig);
    assert CollectionCalls(cs[..i + 1]) == CollectionCalls(cs[..i]) + [LE.CollectionAdded(cs[i])];
    r := AddOne(e, cs[i], held, frame, sofar, orig);
  }

  /** The collection loop of one locale: the first collection that fails ends it. */
  method AddCollections(e: LE.ContentExporter, cs: seq<LM.Collection>, ghost held: map<LM.Collection, seq<Models.Episode>>,
                        ghost frame: set<Models.Episode>, ghost done: seq<Models.Episode>, ghost orig: map<Models.Episode, LE.Locals>)
    returns (r: Outcome)
    requires Ready(e) && e.InLocale() && Kept(held, frame) && forall c :: c in cs ==> c in held
    requires Tracks(frame, done, orig) && Strippable(done, orig)
    modifies e`mainData, e`calls, e.fs, frame
    ensures Ready(e) && e.InLocale() && Kept(held, frame)
    ensures r.Fail? ==> r == Fail(LE.NullSource)
    ensures r.Pass? <==> Strippable(done + EpisodesIn(cs, held), orig)
    ensures r.Pass? ==> e.calls == old(e.calls) + CollectionCalls(cs) && Tracks(frame, done + EpisodesIn(cs, held), orig)
  {
    ghost var base := e.calls;
    assert cs[..0] == [];
    r := Pass;
    for i := 0 to |cs|
      invariant r == Pass && CollectedUpTo(e, cs, i, base, held, frame, done, orig)
    {
      r := CollectNext(e, cs, i, base, held, frame, done, orig);
      if r.Fail? {
        return;
      }
    }
    assert cs[..|cs|] == cs;
  }

  /** `addSingle`, seen from the command: it never fails. */
  method AddSingle(e: LE.ContentExporter, s: LM.Single)
    requires Ready(e) && e.InLocale()
    modifies e`mainData, e`calls, e.fs
    ensures Ready(e) && e.InLocale() && e.calls == old(e.calls) + [LE.SingleAdded(s)]
  {
    e.AddSingle(s);
  }

  /** The single loop of one locale. */
  method AddSingles(e: LE.ContentExporter, ss: seq<LM.Single>)
    requires Ready(e) && e.InLocale()
    modifies e`mainData, e`calls, e.fs
    ensures Ready(e) && e.InLocale() && e.calls == old(e.calls) + SingleCalls(ss)
  {
    ghost var base := e.calls;
    for i := 0 to |ss|
      invariant Ready(e) && e.InLocale()
      invariant e.calls == base + SingleCalls(ss[..i])
    {
      assert SingleCalls(ss[..i + 1]) == SingleCalls(ss[..i]) + [LE.SingleAdded(ss[i])];
      AddSingle(e, ss[i]);
    }
    assert ss[..|ss|] == ss;
  }

  /** `startLocale` fails for the language `l`, which `export` visits because the package has
      content for it: its interface texts cannot take the logo. */
  predicate LocaleFails(config: Json, l: PE.LanguageSetting, p: LM.Package)
    reads p
  {
    p.HasContentForLocale(l.boltLocaleCode) && Scalar(InterfaceFor(config, l.boltLocaleCode))
  }

  /** `startLocale` fails for some locale `export` visits. */
  predicate VisitFails(config: Json, langs: seq<PE.LanguageSetting>, p: LM.Package)
    reads p
  {
    exists i :: 0 <= i < |langs| && LocaleFails(config, langs[i], p)
  }

  predicate SomeVisitFails(config: Json, langs: seq<PE.LanguageSetting>, ps: seq<LM.Package>)
    reads ps
  {
    exists k :: 0 <= k < |ps| && VisitFails(config, langs, ps[k])
  }

  /** A failing locale of a prefix of the languages is a failing locale of the whole list. */
  lemma VisitFailsPrefix(config: Json, langs: seq<PE.LanguageSetting>, p: LM.Package, n: nat)
    requires n <= |langs|
    ensures VisitFails(config, langs[..n], p) ==> VisitFails(config, langs, p)
  {
    if VisitFails(config, langs[..n], p) {
      var i :| 0 <= i < n && LocaleFails(config, langs[..n][i], p);
      assert langs[..n][i] == langs[i];
    }
  }

  /** A failing locale among the first `j + 1` languages is among the first `j` or is the `j`-th. */
  lemma VisitFailsSplit(config: Json, langs: seq<PE.LanguageSetting>, p: LM.Package, j: nat)
    requires j < |langs|
    ensures VisitFails(config, langs[..j + 1], p) ==> VisitFails(config, langs[..j], p) || LocaleFails(config, langs[j], p)
  {
    var next, before := langs[..j + 1], langs[..j];
    if VisitFails(config, next, p) {
      var i :| 0 <= i < |next| && LocaleFails(config, next[i], p);
      if i == j {
        assert next[i] == langs[j];
      } else {
        assert before[i] == next[i];
      }
    }
  }

  /** The first `j + 1` languages hold every failing locale of the first `j` and the `j`-th. */
  lemma VisitFailsGrow(config: Json, langs: seq<PE.LanguageSetting>, p: LM.Package, j: nat)
    requires j < |langs|
    ensures VisitFails(config, langs[..j], p) || LocaleFails(config, langs[j], p) ==> VisitFails(config, langs[..j + 1], p)
  {
    var next, before := langs[..j + 1], langs[..j];
    if VisitFails(config, before, p) {
      var i :| 0 <= i < |before| && LocaleFails(config, before[i], p);
      assert before[i] == next[i];
    }
    assert next[j] == langs[j];
  }

  lemma VisitFailsStep(config: Json, langs: seq<PE.LanguageSetting>, p: LM.Package, j: nat)
    requires j < |langs|
    ensures VisitFails(config, langs[..j + 1], p) <==> VisitFails(config, langs[..j], p) || LocaleFails(config, langs[j], p)
    ensures VisitFails(config, langs[..j + 1], p) ==> VisitFails(config, langs, p)
  {
    VisitFailsSplit(config, langs, p, j);
    VisitFailsGrow(config, langs, p, j);
    VisitFailsPrefix(config, langs, p, j + 1);
  }

  /** Every collection of the package is recorded. */
  ghost predicate PackageHeld(p: LM.Package, held: map<LM.Collection, seq<Models.Episode>>)
    reads p
  {
    forall l, c :: l in p.collections && c in p.collections[l] ==> c in held
  }

  /** `startLocale` seen from the command. */
  method StartLocale(e: LE.ContentExporter, locale: string, interface: Json) returns (r: Outcome)
    requires Ready(e)
    modifies e`currentLocale, e`providedLocales, e`dirs, e`calls, e.fs
    ensures Ready(e) && e.dirs.exportRoot == old(e.dirs.exportRoot) && e.calls == old(e.calls) + [LE.LocaleStarted(locale)]
    ensures r.Fail? <==> Scalar(interface)
    ensures r.Fail? ==> r.message in {PE.ScalarAsArray, PE.StringOffset}
    ensures r.Pass? ==> e.InLocale()
  {
    r := e.StartLocale(locale, interface);
  }

  /** `finishLocale` seen from the command. */
  method FinishLocale(e: LE.ContentExporter)
    requires Ready(e) && e.InLocale()
    modifies e`mainData, e`calls, e.fs
    ensures Ready(e) && e.dirs.exportRoot == old(e.dirs.exportRoot) && e.calls == old(e.calls) + [LE.LocaleFinished]
  {
    e.FinishLocale();
  }

  /** The start of one locale: `startLocale` with its interface texts, then `addLanguage`. */
  method OpenLocale(e: LE.ContentExporter, lang: PE.LanguageSetting, interface: Json) returns (r: Outcome)
    requires Ready(e)
    modifies e`currentLocale, e`providedLocales, e`dirs, e`languageData, e`calls, e.fs
    ensures Ready(e) && e.dirs.exportRoot == old(e.dirs.exportRoot)
    ensures r.Fail? <==> Scalar(interface)
    ensures r.Fail? ==> r.message in {PE.ScalarAsArray, PE.StringOffset}
    ensures r.Pass? ==> e.InLocale() && e.calls == old(e.calls) + [LE.LocaleStarted(lang.boltLocaleCode), LE.LanguageAdded(lang.text)]
  {
    r := StartLocale(e, lang.boltLocaleCode, interface);
    if r.Pass? {
      e.AddLanguage(PE.Language(lang.codes, lang.text, lang.default));
    }
  }

  /** The rest of one locale: its collections and singles added, then the manifest written. */
  method FillLocale(e: LE.ContentExporter, cs: seq<LM.Collection>, ss: seq<LM.Single>,
                    ghost held: map<LM.Collection, seq<Models.Episode>>, ghost frame: set<Models.Episode>,
                    ghost done: seq<Models.Episode>, ghost orig: map<Models.Episode, LE.Locals>) returns (r: Outcome)
    requires Ready(e) && e.InLocale() && Kept(held, frame) && forall c :: c in cs ==> c in held
    requires Tracks(frame, done, orig) && Strippable(done, orig)
    modifies e`mainData, e`calls, e.fs, frame
    ensures Ready(e) && e.dirs.exportRoot == old(e.dirs.exportRoot) && Kept(held, frame)
    ensures r.Fail? ==> r == Fail(LE.NullSource)
    ensures r.Pass? <==> Strippable(done + EpisodesIn(cs, held), orig)
    ensures r.Pass? ==> e.calls == old(e.calls) + CollectionCalls(cs) + SingleCalls(ss) + [LE.LocaleFinished]
    ensures r.Pass? ==> Tracks(frame, done + EpisodesIn(cs, held), orig)
  {
    r := AddCollections(e, cs, held, frame, done, orig);
    if r.Fail? {
      return;
    }
    AddSingles(e, ss);
    FinishLocale(e);
  }

  /** One locale of `export`: started with its interface texts, its language added, its collections
      and singles added and the manifest written. The first call that throws ends it. */
  method VisitLocale(e: LE.ContentExporter, config: Json, lang: PE.LanguageSetting, p: LM.Package,
                     ghost held: map<LM.Collection, seq<Models.Episode>>, ghost frame: set<Models.Episode>,
                     ghost done: seq<Models.Episode>, ghost orig: map<Models.Episode, LE.Locals>) returns (r: Outcome)
    requires Ready(e) && Kept(held, frame) && PackageHeld(p, held)
    requires Tracks(frame, done, orig) && Strippable(done, orig)
    modifies e, e.fs, frame
    ensures Ready(e) && e.dirs.exportRoot == old(e.dirs.exportRoot) && Kept(held, frame)
    ensures r.Fail? ==> r.message in {PE.ScalarAsArray, PE.StringOffset, LE.NullSource}
    ensures r.Pass? <==> !Scalar(InterfaceFor(config, lang.boltLocaleCode))
                         && Strippable(done + EpisodesIn(p.CollectionsByLocale(lang.boltLocaleCode), held), orig)
    ensures r.Pass? ==> e.calls == old(e.calls) + LocaleCalls(lang.boltLocaleCode, lang.text, p.CollectionsByLocale(lang.boltLocaleCode), p.SinglesByLocale(lang.boltLocaleCode))
    ensures r.Pass? ==> Tracks(frame, done + EpisodesIn(p.CollectionsByLocale(lang.boltLocaleCode), held), orig)
  {
    var code := lang.boltLocaleCode;
    var cs, ss := p.CollectionsByLocale(code), p.SinglesByLocale(code);
    r := OpenLocale(e, lang, InterfaceFor(config, code));
    if r.Fail? {
      return;
    }
    r := FillLocale(e, cs, ss, held, frame, done, orig);
    Regroup(old(e.calls), [LE.LocaleStarted(code), LE.LanguageAdded(lang.text)], CollectionCalls(cs), SingleCalls(ss), [LE.LocaleFinished]);
  }

  lemma Regroup<T>(a: seq<T>, b: seq<T>, c: seq<T>, d: seq<T>, f: seq<T>)
    ensures a + b + c + d + f == a + (b + c + d + f)
  {
  }

  /** The calls of a prefix of the languages are a prefix of the package's calls. */
  lemma {:induction false} VisitCallsPrefix(langs: seq<PE.LanguageSetting>, j: nat, p: LM.Package)
    requires j <= |langs|
    ensures VisitCalls(langs[..j], p) <= VisitCalls(langs, p)
    decreases |langs| - j
  {
    if j < |langs| {
      VisitCallsPrefix(langs, j + 1, p);
      assert langs[..j + 1][..j] == langs[..j];
    } else {
      assert langs[..j] == langs;
    }
  }

  lemma CollectionsOfPrefix(a: seq<LE.Call>, b: seq<LE.Call>)
    requires a <= b
    ensures CollectionsOf(a) <= CollectionsOf(b)
  {
    assert b == a + b[|a|..];
    CollectionsOfAppend(a, b[|a|..]);
  }

  /** A package's calls add the collections its locale loop adds. */
  lemma PackageCollections(langs: seq<PE.LanguageSetting>, p: LM.Package)
    ensures CollectionsOf(PackageCalls(langs, p)) == CollectionsOf(VisitCalls(langs, p))
  {
    CollectionsOfAppend([LE.Started(p.title, p.slug)], VisitCalls(langs, p));
    CollectionsOfAppend([LE.Started(p.title, p.slug)] + VisitCalls(langs, p), [LE.Finished]);
    assert CollectionsOf([LE.Started(p.title, p.slug)]) == [];
    assert CollectionsOf([LE.Finished]) == [];
  }

  /** The episodes the package's locale loop has stripped after `done`, `j` languages in. */
  function Visited(langs: seq<PE.LanguageSetting>, j: nat, p: LM.Package, held: map<LM.Collection, seq<Models.Episode>>,
                   done: seq<Models.Episode>): seq<Models.Episode>
    requires j <= |langs|
    reads p
  {
    done + EpisodesIn(CollectionsOf(VisitCalls(langs[..j], p)), held)
  }

  /** The first `j` languages of the package are visited, after the calls `base`. */
  ghost predicate VisitedUpTo(e: LE.ContentExporter, config: Json, langs: seq<PE.LanguageSetting>, j: nat, p: LM.Package,
                              base: seq<LE.Call>, held: map<LM.Collection, seq<Models.Episode>>, frame: set<Models.Episode>,
                              done: seq<Models.Episode>, orig: map<Models.Episode, LE.Locals>)
    reads e, e.fs, frame, held.Keys, p
  {
    && j <= |langs| && Ready(e) && Kept(held, frame)
    && e.calls == base + VisitCalls(langs[..j], p)
    && !VisitFails(config, langs[..j], p)
    && Tracks(frame, Visited(langs, j, p, held, done), orig)
    && Strippable(Visited(langs, j, p, held, done), orig)
  }

  /** What the locale loop has stripped only grows with the languages it has visited. */
  lemma VisitedGrows(langs: seq<PE.LanguageSetting>, j: nat, p: LM.Package, held: map<LM.Collection, seq<Models.Episode>>,
                     done: seq<Models.Episode>, orig: map<Models.Episode, LE.Locals>)
    requires j <= |langs|
    ensures Strippable(Visited(langs, |langs|, p, held, done), orig) ==> Strippable(Visited(langs, j, p, held, done), orig)
  {
    VisitCallsPrefix(langs, j, p);
    assert langs[..|langs|] == langs;
    CollectionsOfPrefix(VisitCalls(langs[..j], p), VisitCalls(langs, p));
    EpisodesInPrefix(CollectionsOf(VisitCalls(langs[..j], p)), CollectionsOf(VisitCalls(langs, p)), held);
    StrippablePrefix(Visited(langs, j, p, held, done), Visited(langs, |langs|, p, held, done), orig);
  }

  /** The calls of one more language: its locale's calls when the package has content for it. */
  lemma VisitCallsStep(langs: seq<PE.LanguageSetting>, j: nat, p: LM.Package)
    requires j < |langs|
    ensures var code := langs[j].boltLocaleCode;
            p.HasContentForLocale(code) ==>
              VisitCalls(langs[..j + 1], p)
                == VisitCalls(langs[..j], p) + LocaleCalls(code, langs[j].text, p.CollectionsByLocale(code), p.SinglesByLocale(code))
    ensures !p.HasContentForLocale(langs[j].boltLocaleCode) ==> VisitCalls(langs[..j + 1], p) == VisitCalls(langs[..j], p)
  {
    assert langs[..j + 1][..j] == langs[..j] && langs[..j + 1][j] == langs[j];
  }

  /** One more language: nothing when the package has no content for it, the episodes of its
      locale's collections otherwise. */
  lemma VisitedStep(langs: seq<PE.LanguageSetting>, j: nat, p: LM.Package, held: map<LM.Collection, seq<Models.Episode>>,
                    done: seq<Models.Episode>)
    requires j < |langs|
    ensures var code := langs[j].boltLocaleCode;
            p.HasContentForLocale(code) ==>
              Visited(langs, j + 1, p, held, done) == Visited(langs, j, p, held, done) + EpisodesIn(p.CollectionsByLocale(code), held)
    ensures !p.HasContentForLocale(langs[j].boltLocaleCode) ==> Visited(langs, j + 1, p, held, done) == Visited(langs, j, p, held, done)
  {
    var l := langs[j];
    var code := l.boltLocaleCode;
    VisitCallsStep(langs, j, p);
    var sofar := VisitCalls(langs[..j], p);
    if p.HasContentForLocale(code) {
      var cs, ss := p.CollectionsByLocale(code), p.SinglesByLocale(code);
      CollectionsOfAppend(sofar, LocaleCalls(code, l.text, cs, ss));
      LocaleCollections(code, l.text, cs, ss);
      EpisodesInAppend(CollectionsOf(sofar), cs, held);
      Assoc(done, EpisodesIn(CollectionsOf(sofar), held), EpisodesIn(cs, held));
    }
  }

  /** The `j`-th turn of the locale loop: a locale without content is skipped. */
  method VisitNext(e: LE.ContentExporter, config: Json, langs: seq<PE.LanguageSetting>, j: nat, p: LM.Package,
                   ghost base: seq<LE.Call>, ghost held: map<LM.Collection, seq<Models.Episode>>, ghost frame: set<Models.Episode>,
                   ghost done: seq<Models.Episode>, ghost orig: map<Models.Episode, LE.Locals>) returns (r: Outcome)
    requires j < |langs| && PackageHeld(p, held) && VisitedUpTo(e, config, langs, j, p, base, held, frame, done, orig)
    modifies e, e.fs, frame
    ensures Ready(e) && e.dirs.exportRoot == old(e.dirs.exportRoot) && Kept(held, frame)
    ensures r.Fail? ==> r.message in {PE.ScalarAsArray, PE.StringOffset, LE.NullSource}
    ensures r.Fail? ==> VisitFails(config, langs, p) || !Strippable(Visited(langs, |langs|, p, held, done), orig)
    ensures r.Pass? ==> VisitedUpTo(e, config, langs, j + 1, p, base, held, frame, done, orig)
  {
    var l := langs[j];
    VisitFailsStep(config, langs, p, j);
    VisitCallsStep(langs, j, p);
    VisitedStep(langs, j, p, held, done);
    VisitedGrows(langs, j + 1, p, held, done, orig);
    var code := l.boltLocaleCode;
    if !p.HasContentForLocale(code) {
      return Pass;
    }
    r := VisitLocale(e, config, l, p, held, frame, Visited(langs, j, p, held, done), orig);
    if r.Pass? {
      Assoc(base, VisitCalls(langs[..j], p), LocaleCalls(code, l.text, p.CollectionsByLocale(code), p.SinglesByLocale(code)));
    }
  }

  lemma Assoc<T>(a: seq<T>, b: seq<T>, c: seq<T>)
    ensures a + b + c == a + (b + c)
  {
  }

  lemma Regroup4<T>(a: seq<T>, b: seq<T>, c: seq<T>, d: seq<T>)
    ensures a + b + c + d == a + (b + c + d)
  {
  }

  /** `start` for one package: the working directory exists afterwards. */
  method StartPackage(e: LE.ContentExporter, title: string, slug: string, dateText: string, logo: Path,
                      ghost held: map<LM.Collection, seq<Models.Episode>>, ghost frame: set<Models.Episode>,
                      ghost done: seq<Models.Episode>, ghost orig: map<Models.Episode, LE.Locals>)
    requires e.Valid() && Kept(held, frame) && Tracks(frame, done, orig)
    modifies e`mainData, e`languageData, e`exportFilename, e`dirs, e`logoPath, e`calls, e.fs
    ensures Ready(e) && e.calls == old(e.calls) + [LE.Started(title, slug)]
    ensures Kept(held, frame) && Tracks(frame, done, orig)
  {
    e.Start(title, slug, dateText, logo);
  }

  /** `finish` for one package. */
  method FinishPackage(e: LE.ContentExporter, zipWritten: bool,
                       ghost held: map<LM.Collection, seq<Models.Episode>>, ghost frame: set<Models.Episode>,
                       ghost done: seq<Models.Episode>, ghost orig: map<Models.Episode, LE.Locals>)
    requires Ready(e) && Kept(held, frame) && Tracks(frame, done, orig)
    modifies e`calls, e.fs
    ensures e.Valid() && e.calls == old(e.calls) + [LE.Finished]
    ensures Kept(held, frame) && Tracks(frame, done, orig)
  {
    e.Finish(zipWritten);
  }

  /** The locale loop of one package, inside its working directory. */
  method VisitAll(e: LE.ContentExporter, config: Json, p: LM.Package, langs: seq<PE.LanguageSetting>,
                  ghost held: map<LM.Collection, seq<Models.Episode>>, ghost frame: set<Models.Episode>,
                  ghost done: seq<Models.Episode>, ghost orig: map<Models.Episode, LE.Locals>) returns (r: Outcome)
    requires Ready(e) && Kept(held, frame) && PackageHeld(p, held)
    requires Tracks(frame, done, orig) && Strippable(done, orig)
    modifies e, e.fs, frame
    ensures Ready(e) && Kept(held, frame)
    ensures r.Fail? ==> r.message in {PE.ScalarAsArray, PE.StringOffset, LE.NullSource}
    ensures r.Pass? <==> !VisitFails(config, langs, p) && Strippable(Visited(langs, |langs|, p, held, done), orig)
    ensures r.Pass? ==> e.calls == old(e.calls) + VisitCalls(langs, p)
    ensures r.Pass? ==> Tracks(frame, Visited(langs, |langs|, p, held, done), orig)
  {
    ghost var base := e.calls;
    assert langs[..0] == [];
    assert Visited(langs, 0, p, held, done) == done;
    r := Pass;
    var j := 0;
    while j < |langs|
      invariant r.Pass? && VisitedUpTo(e, config, langs, j, p, base, held, frame, done, orig)
    {
      r := VisitNext(e, config, langs, j, p, base, held, frame, done, orig);
      if r.Fail? {
        return;
      }
      j := j + 1;
    }
    assert langs[..|langs|] == langs;
  }

  /** One package: `start`, every language the package has content for, `finish`. */
  method ExportPackage(e: LE.ContentExporter, config: Json, dateText: string, logo: Path, p: LM.Package,
                       langs: seq<PE.LanguageSetting>, zipWritten: bool,
                       ghost held: map<LM.Collection, seq<Models.Episode>>, ghost frame: set<Models.Episode>,
                       ghost done: seq<Models.Episode>, ghost orig: map<Models.Episode, LE.Locals>) returns (r: Outcome)
    requires e.Valid() && Kept(held, frame) && PackageHeld(p, held)
    requires Tracks(frame, done, orig) && Strippable(done, orig)
    modifies e, e.fs, frame
    ensures e.Valid() && Kept(held, frame)
    ensures r.Fail? ==> r.message in {PE.ScalarAsArray, PE.StringOffset, LE.NullSource}
    ensures r.Pass? <==> !VisitFails(config, langs, p) && Strippable(Visited(langs, |langs|, p, held, done), orig)
    ensures r.Pass? ==> e.calls == old(e.calls) + PackageCalls(langs, p)
    ensures r.Pass? ==> Tracks(frame, Visited(langs, |langs|, p, held, done), orig)
  {
    StartPackage(e, p.title, p.slug, dateText, logo, held, frame, done, orig);
    r := VisitAll(e, config, p, langs, held, frame, done, orig);
    if r.Fail? {
      return;
    }
    FinishPackage(e, zipWritten, held, frame, Visited(langs, |langs|, p, held, done), orig);
    Regroup4(old(e.calls), [LE.Started(p.title, p.slug)], VisitCalls(langs, p), [LE.Finished]);
  }

  /** Every collection the locale loop adds belongs to the package, hence is recorded. */
  lemma {:induction false} VisitCollectionsHeld(langs: seq<PE.LanguageSetting>, p: LM.Package,
                                                held: map<LM.Collection, seq<Models.Episode>>)
    requires PackageHeld(p, held)
    ensures forall c :: c in CollectionsOf(VisitCalls(langs, p)) ==> c in held
  {
    if |langs| > 0 {
      var n := |langs| - 1;
      var l := langs[n];
      VisitCollectionsHeld(langs[..n], p, held);
      var code := l.boltLocaleCode;
      var tail := if p.HasContentForLocale(code)
                  then LocaleCalls(code, l.text, p.CollectionsByLocale(code), p.SinglesByLocale(code)) else [];
      CollectionsOfAppend(VisitCalls(langs[..n], p), tail);
      if p.HasContentForLocale(code) {
        LocaleCollections(code, l.text, p.CollectionsByLocale(code), p.SinglesByLocale(code));
      }
    }
  }

  /** Every collection the whole export adds is recorded. */
  lemma {:induction false} AllCollectionsHeld(ps: seq<LM.Package>, langs: seq<PE.LanguageSetting>,
                                              held: map<LM.Collection, seq<Models.Episode>>)
    requires forall k :: 0 <= k < |ps| ==> PackageHeld(ps[k], held)
    ensures forall c :: c in CollectionsOf(AllCalls(ps, langs)) ==> c in held
  {
    if |ps| > 0 {
      var n := |ps| - 1;
      AllCollectionsHeld(ps[..n], langs, held);
      VisitCollectionsHeld(langs, ps[n], held);
      PackageCollections(langs, ps[n]);
      CollectionsOfAppend(AllCalls(ps[..n], langs), PackageCalls(langs, ps[n]));
    }
  }

  /** The calls of the first packages are a prefix of all the calls. */
  lemma {:induction false} AllCallsPrefix(ps: seq<LM.Package>, k: nat, langs: seq<PE.LanguageSetting>)
    requires k <= |ps|
    ensures AllCalls(ps[..k], langs) <= AllCalls(ps, langs)
    decreases |ps| - k
  {
    if k < |ps| {
      AllCallsPrefix(ps, k + 1, langs);
      assert ps[..k + 1][..k] == ps[..k];
    } else {
      assert ps[..k] == ps;
    }
  }

  /** The episodes the first `k` packages strip. */
  function Exported(ps: seq<LM.Package>, k: nat, langs: seq<PE.LanguageSetting>,
                    held: map<LM.Collection, seq<Models.Episode>>): seq<Models.Episode>
    requires k <= |ps|
    reads ps
  {
    EpisodesIn(CollectionsOf(AllCalls(ps[..k], langs)), held)
  }

  /** One more package: its calls follow, and its locale loop strips after the earlier packages. */
  lemma ExportedStep(ps: seq<LM.Package>, k: nat, langs: seq<PE.LanguageSetting>, held: map<LM.Collection, seq<Models.Episode>>)
    requires k < |ps|
    ensures AllCalls(ps[..k + 1], langs) == AllCalls(ps[..k], langs) + PackageCalls(langs, ps[k])
    ensures Exported(ps, k + 1, langs, held) == Visited(langs, |langs|, ps[k], held, Exported(ps, k, langs, held))
  {
    AllCallsStep(ps, k, langs);
    var before, calls := AllCalls(ps[..k], langs), PackageCalls(langs, ps[k]);
    assert langs[..|langs|] == langs;
    PackageCollections(langs, ps[k]);
    CollectionsOfAppend(before, calls);
    EpisodesInAppend(CollectionsOf(before), CollectionsOf(VisitCalls(langs, ps[k])), held);
  }

  /** The calls of the first `k + 1` packages are those of the first `k` followed by the `k`-th's. */
  lemma AllCallsStep(ps: seq<LM.Package>, k: nat, langs: seq<PE.LanguageSetting>)
    requires k < |ps|
    ensures AllCalls(ps[..k + 1], langs) == AllCalls(ps[..k], langs) + PackageCalls(langs, ps[k])
  {
    assert ps[..k + 1][..k] == ps[..k] && ps[..k + 1][k] == ps[k];
  }

  /** What the export has stripped only grows with the packages it has exported. */
  lemma ExportedGrows(ps: seq<LM.Package>, k: nat, langs: seq<PE.LanguageSetting>,
                      held: map<LM.Collection, seq<Models.Episode>>, orig: map<Models.Episode, LE.Locals>)
    requires k <= |ps|
    ensures Strippable(Exported(ps, |ps|, langs, held), orig) ==> Strippable(Exported(ps, k, langs, held), orig)
  {
    AllCallsPrefix(ps, k, langs);
    assert ps[..|ps|] == ps;
    CollectionsOfPrefix(AllCalls(ps[..k], langs), AllCalls(ps, langs));
    EpisodesInPrefix(CollectionsOf(AllCalls(ps[..k], langs)), CollectionsOf(AllCalls(ps, langs)), held);
    StrippablePrefix(Exported(ps, k, langs, held), Exported(ps, |ps|, langs, held), orig);
  }

  lemma SomeVisitFailsStep(config: Json, langs: seq<PE.LanguageSetting>, ps: seq<LM.Package>, k: nat)
    requires k < |ps|
    ensures SomeVisitFails(config, langs, ps[..k + 1])
            <==> SomeVisitFails(config, langs, ps[..k]) || VisitFails(config, langs, ps[k])
  {
    SomeVisitFailsSplit(config, langs, ps, k);
    SomeVisitFailsJoin(config, langs, ps, k);
  }

  /** A failing package among the first `k + 1` is among the first `k` or is the `k`-th. */
  lemma SomeVisitFailsSplit(config: Json, langs: seq<PE.LanguageSetting>, ps: seq<LM.Package>, k: nat)
    requires k < |ps|
    ensures SomeVisitFails(config, langs, ps[..k + 1])
            ==> SomeVisitFails(config, langs, ps[..k]) || VisitFails(config, langs, ps[k])
  {
    var next, before := ps[..k + 1], ps[..k];
    if SomeVisitFails(config, langs, next) {
      var i :| 0 <= i < |next| && VisitFails(config, langs, next[i]);
      if i == k {
        assert next[i] == ps[k];
      } else {
        assert before[i] == next[i];
      }
    }
  }

  /** A failing package among the first `k`, or the `k`-th failing, is among the first `k + 1`. */
  lemma SomeVisitFailsJoin(config: Json, langs: seq<PE.LanguageSetting>, ps: seq<LM.Package>, k: nat)
    requires k < |ps|
    ensures SomeVisitFails(config, langs, ps[..k]) || VisitFails(config, langs, ps[k])
            ==> SomeVisitFails(config, langs, ps[..k + 1])
  {
    var next, before := ps[..k + 1], ps[..k];
    if SomeVisitFails(config, langs, before) {
      var i :| 0 <= i < |before| && VisitFails(config, langs, before[i]);
      assert before[i] == next[i];
      assert VisitFails(config, langs, next[i]);
    }
    assert next[k] == ps[k];
    if VisitFails(config, langs, ps[k]) {
      assert VisitFails(config, langs, next[k]);
    }
  }

  /** The first `k` packages are exported, after the calls `base`. */
  ghost predicate ExportedUpTo(e: LE.ContentExporter, config: Json, langs: seq<PE.LanguageSetting>, ps: seq<LM.Package>, k: nat,
                               base: seq<LE.Call>, held: map<LM.Collection, seq<Models.Episode>>, frame: set<Models.Episode>,
                               orig: map<Models.Episode, LE.Locals>)
    reads e, frame, held.Keys, ps
  {
    && k <= |ps| && e.Valid() && Kept(held, frame)
    && e.calls == base + AllCalls(ps[..k], langs)
    && !SomeVisitFails(config, langs, ps[..k])
    && Tracks(frame, Exported(ps, k, langs, held), orig)
    && Strippable(Exported(ps, k, langs, held), orig)
  }

  /** The `k`-th turn of the package loop. */
  method ExportNext(e: LE.ContentExporter, config: Json, dateText: string, logo: Path, langs: seq<PE.LanguageSetting>,
                    ps: seq<LM.Package>, k: nat, zipWritten: bool,
                    ghost base: seq<LE.Call>, ghost held: map<LM.Collection, seq<Models.Episode>>, ghost frame: set<Models.Episode>,
                    ghost orig: map<Models.Episode, LE.Locals>) returns (r: Outcome)
    requires k < |ps| && PackageHeld(ps[k], held) && ExportedUpTo(e, config, langs, ps, k, base, held, frame, orig)
    modifies e, e.fs, frame
    ensures e.Valid() && Kept(held, frame)
    ensures r.Fail? ==> r.message in {PE.ScalarAsArray, PE.StringOffset, LE.NullSource}
    ensures r.Fail? ==> SomeVisitFails(config, langs, ps) || !Strippable(Exported(ps, |ps|, langs, held), orig)
    ensures r.Pass? ==> ExportedUpTo(e, config, langs, ps, k + 1, base, held, frame, orig)
  {
    ghost var done := Exported(ps, k, langs, held);
    ghost var sofar := AllCalls(ps[..k], langs);
    ghost var failed := SomeVisitFails(config, langs, ps[..k]);
    label Before:
    r := ExportPackage(e, config, dateText, logo, ps[k], langs, zipWritten, held, frame, done, orig);
    assert unchanged@Before(ps) && unchanged@Before(ps[..k]);
    assert done == Exported(ps, k, langs, held);
    assert sofar == AllCalls(ps[..k], langs) && failed == SomeVisitFails(config, langs, ps[..k]);
    SomeVisitFailsStep(config, langs, ps, k);
    assert VisitFails(config, langs, ps[k]) ==> SomeVisitFails(config, langs, ps);
    ExportedStep(ps, k, langs, held);
    ExportedGrows(ps, k + 1, langs, held, orig);
    if r.Pass? {
      Assoc(base, sofar, PackageCalls(langs, ps[k]));
    }
  }

  /** The collections of the packages. */
  function HeldBy(ps: seq<LM.Package>): set<LM.Collection>
    reads ps
  {
    set k, l, c | 0 <= k < |ps| && l in ps[k].collections && c in ps[k].collections[l] :: c
  }

  /** The episodes the collections list. */
  function EpisodesUnder(cols: set<LM.Collection>): set<Models.Episode>
    reads cols
  {
    set c, x | c in cols && x in c.episodes :: x
  }

  /** The episodes of the packages' collections: what `export` may change. */
  function EpisodesHeld(ps: seq<LM.Package>): set<Models.Episode>
    reads ps, HeldBy(ps)
  {
    EpisodesUnder(HeldBy(ps))
  }

  /** Each collection of the packages with the episodes it lists. */
  function Record(ps: seq<LM.Package>): map<LM.Collection, seq<Models.Episode>>
    reads ps, HeldBy(ps)
  {
    map c | c in HeldBy(ps) :: c.episodes
  }

  /** The record covers every package and agrees with the collections. */
  lemma RecordHeld(ps: seq<LM.Package>)
    ensures forall k :: 0 <= k < |ps| ==> PackageHeld(ps[k], Record(ps))
    ensures Kept(Record(ps), EpisodesHeld(ps))
  {
    forall k, l, c | 0 <= k < |ps| && l in ps[k].collections && c in ps[k].collections[l]
      ensures c in HeldBy(ps)
    {
    }
  }

  /** The package loop of `export`. */
  method ExportAll(e: LE.ContentExporter, config: Json, dateText: string, logo: Path, langs: seq<PE.LanguageSetting>,
                   ps: seq<LM.Package>, zipWritten: bool,
                   ghost held: map<LM.Collection, seq<Models.Episode>>, ghost frame: set<Models.Episode>,
                   ghost orig: map<Models.Episode, LE.Locals>) returns (r: Outcome)
    requires forall k :: 0 <= k < |ps| ==> PackageHeld(ps[k], held)
    requires ExportedUpTo(e, config, langs, ps, 0, e.calls, held, frame, orig)
    modifies e, e.fs, frame
    ensures e.Valid() && Kept(held, frame)
    ensures forall k :: 0 <= k < |ps| ==> PackageHeld(ps[k], held)
    ensures r.Fail? ==> r.message in {PE.ScalarAsArray, PE.StringOffset, LE.NullSource}
    ensures r.Fail? ==> SomeVisitFails(config, langs, ps) || !Strippable(Exported(ps, |ps|, langs, held), orig)
    ensures r.Pass? ==> ExportedUpTo(e, config, langs, ps, |ps|, old(e.calls), held, frame, orig)
  {
    ghost var base := e.calls;
    r := Pass;
    var k := 0;
    while k < |ps|
      invariant r.Pass? && ExportedUpTo(e, config, langs, ps, k, base, held, frame, orig)
      invariant unchanged(ps)
    {
      r := ExportNext(e, config, dateText, logo, langs, ps, k, zipWritten, base, held, frame, orig);
      if r.Fail? {
        return;
      }
      k := k + 1;
    }
  }

  /** The recorded collections and the snapshot of their episodes describe the packages as the export begins. */
  lemma RecordStart(ps: seq<LM.Package>, langs: seq<PE.LanguageSetting>)
    ensures forall k :: 0 <= k < |ps| ==> PackageHeld(ps[k], Record(ps))
    ensures Kept(Record(ps), EpisodesHeld(ps)) && Tracks(EpisodesHeld(ps), [], Snapshot(EpisodesHeld(ps)))
    ensures Exported(ps, 0, langs, Record(ps)) == []
    ensures EpisodesOf(CollectionsOf(AllCalls(ps, langs))) == Exported(ps, |ps|, langs, Record(ps))
  {
    RecordHeld(ps);
    AllCollectionsHeld(ps, langs, Record(ps));
    EpisodesAgree(CollectionsOf(AllCalls(ps, langs)), Record(ps));
    assert ps[..|ps|] == ps && ps[..0] == [];
  }

  /** The package loop of `export` from a started command, the suffix already known to be a string.
      `frame` holds every episode of the packages' collections. */
  method ExportPackages(e: LE.ContentExporter, config: Json, dateText: string, logo: Path, langs: seq<PE.LanguageSetting>,
                        ps: seq<LM.Package>, zipWritten: bool, ghost frame: set<Models.Episode>) returns (r: Outcome)
    requires e.Valid() && EpisodesHeld(ps) <= frame
    modifies e, e.fs, frame
    ensures e.Valid()
    ensures r.Fail? ==> r.message in {PE.ScalarAsArray, PE.StringOffset, LE.NullSource}
    ensures r.Pass? <==> !SomeVisitFails(config, langs, ps)
                         && Strippable(EpisodesOf(CollectionsOf(AllCalls(ps, langs))), old(Snapshot(frame)))
    ensures r.Pass? ==> e.calls == old(e.calls) + AllCalls(ps, langs)
  {
    ghost var held := Record(ps);
    ghost var orig := Snapshot(frame);
    RecordStart(ps, langs);
    r := ExportAll(e, config, dateText, logo, langs, ps, zipWritten, held, frame, orig);
    AllCollectionsHeld(ps, langs, held);
    EpisodesAgree(CollectionsOf(AllCalls(ps, langs)), held);
    assert ps[..|ps|] == ps;
  }

  /** How `execute` reports an export outcome: a thrown message becomes `FAILURE` once written. */
  function Caught(r: Outcome): (s: Status)
    ensures s.Success? <==> r.Pass?
    ensures r.Fail? ==> s.message == r.message
  {
    if r.Pass? then Success else Failure(r.message)
  }

  /** What `export` of the packages `ps` promises, seen as the status `execute` reports: success
      exactly when the date suffix is a string (or there is no package), no visited locale has
      scalar interface texts, and the episodes of all the collections added held both local paths
      in `orig` (the episodes as the export began) and are each listed once; and on success the
      exporter received, after `before`, the calls of every package in turn. */
  ghost predicate ExportReports(config: Json, langs: seq<PE.LanguageSetting>, ps: seq<LM.Package>,
                                orig: map<Models.Episode, LE.Locals>, before: seq<LE.Call>, after: seq<LE.Call>,
                                status: Status)
    reads ps, CollectionsOf(AllCalls(ps, langs))
  {
    && (status == Success <==> && (|ps| == 0 || DateSuffix(config).JStr?)
                               && !SomeVisitFails(config, langs, ps)
                               && Strippable(EpisodesOf(CollectionsOf(AllCalls(ps, langs))), orig))
    && (status == Success ==> after == before + AllCalls(ps, langs))
  }

  /** `export`: every package in turn, with the date suffix and the site logo read once; a suffix
      that is not a string fails at the first package, before anything is called. `frame` holds
      every episode of the packages' collections. */
  method Export(e: LE.ContentExporter, config: Json, publicDir: Path, langs: seq<PE.LanguageSetting>, ps: seq<LM.Package>,
                formatDate: string -> string, zipWritten: bool, ghost frame: set<Models.Episode>) returns (r: Outcome)
    requires e.Valid() && EpisodesHeld(ps) <= frame
    modifies e, e.fs, frame
    ensures e.Valid()
    ensures ExportReports(config, langs, ps, old(Snapshot(frame)), old(e.calls), e.calls, Caught(r))
    ensures |ps| > 0 && !DateSuffix(config).JStr? ==> r == Fail(SuffixTypeError(DateSuffix(config))) && e.calls == old(e.calls)
    ensures r.Fail? && (|ps| == 0 || DateSuffix(config).JStr?) ==> r.message in {PE.ScalarAsArray, PE.StringOffset, LE.NullSource}
  {
    var suffix := DateSuffix(config);
    var logo := Logo(e.fs.entries, publicDir, config);
    if |ps| > 0 && !suffix.JStr? {
      return Fail(SuffixTypeError(suffix));
    }
    var dateText := if suffix.JStr? then formatDate(suffix.s) else "";
    r := ExportPackages(e, config, dateText, logo, langs, ps, zipWritten, frame);
  }

  /** A package's locale map holds only items of the lists it was built from. */
  lemma {:induction false} EntriesWithin<T>(langs: seq<PE.LanguageSetting>, owned: seq<seq<T>>)
    requires |owned| == |langs|
    ensures forall l :: l in EC.Entries(langs, owned) ==> forall x :: x in EC.Entries(langs, owned)[l] ==> x in EC.Items(owned)
  {
    if |langs| > 0 {
      var n := |langs| - 1;
      EntriesWithin(langs[..n], owned[..n]);
      forall j, x | 0 <= j < n && x in owned[..n][j] ensures x in EC.Items(owned) {
        assert owned[..n][j] == owned[j];
      }
      forall x | x in owned[n] ensures x in EC.Items(owned) {
      }
    }
  }

  /** What a package owns of its answers was in those answers. */
  lemma OwnedWithin(ps: seq<LM.Package>, cf: seq<seq<seq<LM.Collection>>>)
    requires |cf| == |ps|
    ensures forall i :: 0 <= i < |ps| ==> EC.Items(OwnedPer(ps, cf)[i]) <= Answered(cf)
  {
    forall i, j, c | 0 <= i < |ps| && 0 <= j < |cf[i]| && c in Owned(cf[i][j], ps[i].slug)
      ensures c in Answered(cf)
    {
      OwnedAnswer(cf, ps, i, j, c);
    }
  }

  lemma OwnedAnswer(cf: seq<seq<seq<LM.Collection>>>, ps: seq<LM.Package>, i: nat, j: nat, c: LM.Collection)
    requires i < |cf| && i < |ps| && j < |cf[i]| && c in Owned(cf[i][j], ps[i].slug)
    ensures c in Answered(cf)
  {
    OwnedMembers(cf[i][j], ps[i].slug);
  }

  /** Packages built from answers within `cols` hold only collections of `cols`. */
  lemma HeldWithin(ps: seq<LM.Package>, langs: seq<PE.LanguageSetting>, oc: seq<seq<seq<LM.Collection>>>,
                   os: seq<seq<seq<LM.Single>>>, cols: set<LM.Collection>)
    requires |oc| == |ps| == |os|
    requires forall i :: 0 <= i < |ps| ==> Holds(ps[i], langs, oc[i], os[i]) && EC.Items(oc[i]) <= cols
    ensures HeldBy(ps) <= cols
  {
    forall i | 0 <= i < |ps| ensures forall l, c :: l in ps[i].collections && c in ps[i].collections[l] ==> c in cols {
      EntriesWithin(langs, oc[i]);
    }
  }

  lemma HeldBySub(qs: seq<LM.Package>, ps: seq<LM.Package>)
    requires forall q :: q in qs ==> q in ps
    ensures HeldBy(qs) <= HeldBy(ps)
  {
    forall k, l, c | 0 <= k < |qs| && l in qs[k].collections && c in qs[k].collections[l] ensures c in HeldBy(ps) {
      assert qs[k] in qs;
      var i :| 0 <= i < |ps| && ps[i] == qs[k];
    }
  }

  /** What the packages own is what their rows own. */
  lemma OwnedPerRows(ps: seq<LM.Package>, rows: seq<PackageRow>, cf: seq<seq<seq<LM.Collection>>>, sf: seq<seq<seq<LM.Single>>>)
    requires |ps| == |rows| == |cf| == |sf| && forall i :: 0 <= i < |ps| ==> ps[i].slug == rows[i].slug
    ensures OwnedPer(ps, cf) == OwnedFor(rows, cf) && OwnedSinglesPer(ps, sf) == OwnedSinglesFor(rows, sf)
  {
  }

  /** `ps` are the packages made from `rows`, in order, each holding what it owns of its
      answers, and `kept` those of them that own a collection or a single. */
  ghost predicate Builds(rows: seq<PackageRow>, langs: seq<PE.LanguageSetting>, oc: seq<seq<seq<LM.Collection>>>,
                         os: seq<seq<seq<LM.Single>>>, ps: seq<LM.Package>, kept: seq<LM.Package>)
    reads ps
  {
    && |ps| == |rows| == |oc| == |os|
    && (forall i :: 0 <= i < |ps| ==> PackageRow(ps[i].slug, ps[i].title) == rows[i] && Holds(ps[i], langs, oc[i], os[i]))
    && kept == EC.Select(ps, EC.Keeps(oc, os))
  }

  /** `buildPackages` from the package rows: new packages, filled from their own answers. Only
      new objects change. */
  method BuildFrom(rows: seq<PackageRow>, langs: seq<PE.LanguageSetting>,
                   cf: seq<seq<seq<LM.Collection>>>, sf: seq<seq<seq<LM.Single>>>,
                   ghost oc: seq<seq<seq<LM.Collection>>>, ghost os: seq<seq<seq<LM.Single>>>)
    returns (ps: seq<LM.Package>, kept: seq<LM.Package>)
    requires Shaped(cf, |rows|, |langs|) && Shaped(sf, |rows|, |langs|)
    requires oc == OwnedFor(rows, cf) && os == OwnedSinglesFor(rows, sf)
    ensures forall i :: 0 <= i < |ps| ==> fresh(ps[i])
    ensures Builds(rows, langs, oc, os, ps, kept)
    ensures HeldBy(kept) <= Answered(cf)
  {
    ps := Fetch(rows);
    assert unchanged(Answered(cf), Answered(sf));
    assert oc == OwnedFor(rows, cf) && os == OwnedSinglesFor(rows, sf);
    OwnedPerRows(ps, rows, cf, sf);
    OwnedWithin(ps, cf);
    kept := BuildPackages(ps, langs, cf, sf);
    HeldWithin(ps, langs, oc, os, Answered(cf));
    forall q | q in kept ensures q in ps {
      KeptIffOwns(ps, oc, os, q);
    }
    HeldBySub(kept, ps);
  }

  /** The `try` of `execute`: the packages built from the stores' answers, then exported.
      `frame` holds every episode the answered collections list. */
  method BuildAndExport(e: LE.ContentExporter, config: Json, publicDir: Path, langs: seq<PE.LanguageSetting>,
                        rows: seq<PackageRow>, cf: seq<seq<seq<LM.Collection>>>, sf: seq<seq<seq<LM.Single>>>,
                        formatDate: string -> string, zipWritten: bool, ghost frame: set<Models.Episode>)
    returns (r: Outcome, ghost ps: seq<LM.Package>, ghost kept: seq<LM.Package>)
    requires e.Valid() && Shaped(cf, |rows|, |langs|) && Shaped(sf, |rows|, |langs|)
    requires EpisodesUnder(Answered(cf)) <= frame
    modifies e, e.fs, frame
    ensures forall i :: 0 <= i < |ps| ==> fresh(ps[i])
    ensures Builds(rows, langs, old(OwnedFor(rows, cf)), old(OwnedSinglesFor(rows, sf)), ps, kept)
    ensures ExportReports(config, langs, kept, old(Snapshot(frame)), old(e.calls), e.calls, Caught(r))
    ensures |kept| > 0 && !DateSuffix(config).JStr? ==> r == Fail(SuffixTypeError(DateSuffix(config))) && e.calls == old(e.calls)
    ensures r.Fail? && (|kept| == 0 || DateSuffix(config).JStr?) ==> r.message in {PE.ScalarAsArray, PE.StringOffset, LE.NullSource}
  {
    ghost var orig, before := Snapshot(frame), e.calls;
    ghost var oc, os := OwnedFor(rows, cf), OwnedSinglesFor(rows, sf);
    var fetched, built := BuildFrom(rows, langs, cf, sf, oc, os);
    assert orig == Snapshot(frame) && before == e.calls;
    label Built:
    r := Export(e, config, publicDir, langs, built, formatDate, zipWritten, frame);
    assert unchanged@Built(fetched);
    ps, kept := fetched, built;
  }

  /** What each package row owns of the answers given for it, before the packages exist. */
  function OwnedFor(rows: seq<PackageRow>, cf: seq<seq<seq<LM.Collection>>>): (oc: seq<seq<seq<LM.Collection>>>)
    requires |cf| == |rows|
    reads Answered(cf)
    ensures |oc| == |rows| && forall k :: 0 <= k < |rows| ==> oc[k] == OwnedAnswers(cf[k], rows[k].slug)
  {
    seq(|rows|, k requires 0 <= k < |rows| reads Answered(cf) =>
      assert forall x :: x in EC.Items(cf[k]) ==> x in Answered(cf);
      OwnedAnswers(cf[k], rows[k].slug))
  }

  function OwnedSinglesFor(rows: seq<PackageRow>, sf: seq<seq<seq<LM.Single>>>): (os: seq<seq<seq<LM.Single>>>)
    requires |sf| == |rows|
    reads Answered(sf)
    ensures |os| == |rows| && forall k :: 0 <= k < |rows| ==> os[k] == OwnedSingleAnswers(sf[k], rows[k].slug)
  {
    seq(|rows|, k requires 0 <= k < |rows| reads Answered(sf) =>
      assert forall x :: x in EC.Items(sf[k]) ==> x in Answered(sf);
      OwnedSingleAnswers(sf[k], rows[k].slug))
  }

  /** The console command of the older generation. The stores' answers are given: the rows of the
      packages taxonomy and, per package row and supported language, the collections and singles
      `findAll` returns. */
  class ExportCommand {
    const fs: FileSystem
    const config: Json
    const publicDir: Path
    const exportsDir: Path
    const packageRows: seq<PackageRow>
    const collectionsFound: seq<seq<seq<LM.Collection>>>
    const singlesFound: seq<seq<seq<LM.Single>>>
    const formatDate: string -> string
    /** The exporter, or the error its constructor throws (which the command does not catch). */
    const contentExporter: Result<LE.ContentExporter>

    /** The exports directory is the canonical form of the public directory's text followed by
        `exporter/public_path`, made when it does not exist; the exporter is made for it. */
    constructor (fs: FileSystem, config: Json, publicDir: Path, packageRows: seq<PackageRow>,
                 collectionsFound: seq<seq<seq<LM.Collection>>>, singlesFound: seq<seq<seq<LM.Single>>>,
                 formatDate: string -> string)
      modifies fs
      ensures this.fs == fs && this.config == config && this.publicDir == publicDir && this.packageRows == packageRows
      ensures this.collectionsFound == collectionsFound && this.singlesFound == singlesFound && this.formatDate == formatDate
      ensures exportsDir == PE.Concat(publicDir, PublicPath(config))
      ensures fs.entries == if exportsDir in old(fs.entries) then old(fs.entries) else WithDirs(old(fs.entries), exportsDir)
      ensures fs.copies == old(fs.copies)
      ensures contentExporter.Err? <==> exportsDir !in fs.entries
      ensures contentExporter.Err? ==> contentExporter.message == PE.ExportsDirMissing
      ensures |exportsDir| >= 1 ==> contentExporter.Ok?
      ensures contentExporter.Ok? ==> var e := contentExporter.value;
                fresh(e) && e.fs == fs && e.exportsDir == exportsDir && e.Valid() && e.calls == []
    {
      this.fs := fs;
      this.config := config;
      this.publicDir := publicDir;
      this.packageRows := packageRows;
      this.collectionsFound := collectionsFound;
      this.singlesFound := singlesFound;
      this.formatDate := formatDate;
      var dir := PE.Concat(publicDir, PublicPath(config));
      exportsDir := dir;
      if dir !in fs.entries {
        fs.MakeDirs(dir);
      }
      var made := LE.NewContentExporter(fs, dir);
      contentExporter := made;
    }

    /** `execute`: the packages built from the stores' answers, then exported; whatever the build
        or the export throws becomes a failure carrying its message. `fetched` are the packages
        read and `built` those kept. The export succeeds exactly when the date suffix is a string
        (or nothing is kept), no visited locale has scalar interface texts, and the episodes of all
        the collections added held both local paths when the command began and are each listed
        once. */
    method Execute(zipWritten: bool) returns (status: Status, ghost fetched: seq<LM.Package>, ghost built: seq<LM.Package>)
      requires contentExporter.Ok? && contentExporter.value.fs == fs && contentExporter.value.Valid()
      requires Languages(config).Some? ==> var n := |Languages(config).value|;
                 Shaped(collectionsFound, |packageRows|, n) && Shaped(singlesFound, |packageRows|, n)
      modifies contentExporter.value, fs, EpisodesUnder(Answered(collectionsFound))
      ensures Languages(config).None? ==> status == Failure(PE.MalformedLanguages) && unchanged(contentExporter.value, fs)
      ensures Languages(config).Some? ==>
        var langs := Languages(config).value;
        && (forall i :: 0 <= i < |fetched| ==> fresh(fetched[i]))
        && Builds(packageRows, langs, old(OwnedFor(packageRows, collectionsFound)),
                  old(OwnedSinglesFor(packageRows, singlesFound)), fetched, built)
        && ExportReports(config, langs, built, old(Snapshot(EpisodesUnder(Answered(collectionsFound)))),
                         old(contentExporter.value.calls), contentExporter.value.calls, status)
        && (|built| > 0 && !DateSuffix(config).JStr? ==>
              status == Failure(SuffixTypeError(DateSuffix(config))) && contentExporter.value.calls == old(contentExporter.value.calls))
        && (status.Failure? && (|built| == 0 || DateSuffix(config).JStr?) ==>
              status.message in {PE.ScalarAsArray, PE.StringOffset, LE.NullSource})
    {
      var e := contentExporter.value;
      var languages := Languages(config);
      if languages.None? {
        return Failure(PE.MalformedLanguages), [], [];
      }
      var langs := languages.value;
      var r, ps, kept := BuildAndExport(e, config, publicDir, langs, packageRows, collectionsFound, singlesFound,
                                        formatDate, zipWritten, EpisodesUnder(Answered(collectionsFound)));
      fetched, built := ps, kept;
      status := Caught(r);
    }
  }
}
