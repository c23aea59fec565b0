/** The content objects of the older exporter generation: a package keyed by slug and title, and
    collections and singles that carry no remote URLs. The older generation's own episode class is
    not part of this model: its episodes are assumed to behave as the current generation's. */
module LegacyModels {
  import opened Wrappers
  import opened Text
  import opened Disk
  import Models

  /** A string of decimal digits only: the numeric strings this model compares by value. PHP 8 also
      reads signs, surrounding whitespace, decimals and exponents as numeric; those are compared
      byte for byte here. */
  predicate DigitString(s: string) {
    |s| >= 1 && forall i :: 0 <= i < |s| ==> '0' <= s[i] <= '9'
  }

  /** PHP `==` on two strings, narrowed to digit strings: two digit strings compare by value,
      anything else byte for byte. */
  predicate LooseEquals(a: string, b: string) {
    if DigitString(a) && DigitString(b) then DigitsValue(a) == DigitsValue(b) else a == b
  }

  /** `in_array($x, $xs)` without the strict flag. */
  predicate LooseIn(x: string, xs: seq<string>) {
    exists i :: 0 <= i < |xs| && LooseEquals(xs[i], x)
  }

  /** `if (!in_array($x, $xs)) { $xs[] = $x; }` with the loose comparison. */
  function AddLooseUnique(xs: seq<string>, x: string): (r: seq<string>)
    ensures LooseIn(x, xs) ==> r == xs
    ensures !LooseIn(x, xs) ==> r == xs + [x]
    ensures LooseIn(x, r)
  {
    if LooseIn(x, xs) then xs else (assert LooseEquals((xs + [x])[|xs|], x); xs + [x])
  }

  /** Appending to a list keeps every loosely listed value listed. */
  lemma ListedStays(keys: set<string>, xs: seq<string>, ys: seq<string>)
    requires xs <= ys
    requires forall l :: l in keys ==> LooseIn(l, xs)
    ensures forall l :: l in keys ==> LooseIn(l, ys)
  {
    forall l | l in keys
      ensures LooseIn(l, ys)
    {
      var i :| 0 <= i < |xs| && LooseEquals(xs[i], l);
      assert ys[i] == xs[i];
    }
  }

  /** For a locale code that is not a digit string the loose search is plain membership. */
  lemma LooseInIsMembership(x: string, xs: seq<string>)
    requires !DigitString(x)
    ensures LooseIn(x, xs) <==> x in xs
  {
    if x in xs {
      var i :| 0 <= i < |xs| && xs[i] == x;
      assert LooseEquals(xs[i], x);
    }
  }

  class Package {
    const slug: string
    const title: string
    var collections: map<string, seq<Collection>>
    var singles: map<string, seq<Single>>
    var supportedLocales: seq<string>

    /** Every locale with content is (loosely) listed, every listed locale has content, no list is empty. */
    ghost predicate Valid()
      reads this
    {
      (forall l :: l in collections ==> LooseIn(l, supportedLocales))
      && (forall l :: l in singles ==> LooseIn(l, supportedLocales))
      && (forall i :: 0 <= i < |supportedLocales| ==> supportedLocales[i] in collections || supportedLocales[i] in singles)
      && (forall l :: l in collections ==> |collections[l]| > 0)
      && (forall l :: l in singles ==> |singles[l]| > 0)
    }

    constructor (slug: string, title: string)
      ensures this.slug == slug && this.title == title
      ensures Valid() && IsEmpty()
      ensures forall l :: !HasContentForLocale(l) && CollectionsByLocale(l) == [] && SinglesByLocale(l) == []
    {
      this.slug := slug;
      this.title := title;
      collections := map[];
      singles := map[];
      supportedLocales := [];
    }

    method AddCollection(locale: string, collection: Collection)
      requires Valid()
      modifies this
      ensures Valid()
      ensures CollectionsByLocale(locale) == old(CollectionsByLocale(locale)) + [collection]
      ensures collections == old(collections)[locale := old(CollectionsByLocale(locale)) + [collection]]
      ensures forall l :: l != locale ==> CollectionsByLocale(l) == old(CollectionsByLocale(l))
      ensures singles == old(singles)
      ensures supportedLocales == AddLooseUnique(old(supportedLocales), locale)
      ensures HasContentForLocale(locale) && !IsEmpty()
    {
      ghost var before := supportedLocales;
      var listed := if locale in collections then collections[locale] else [];
      if locale !in collections {
        AddSupportedLocale(locale);
      }
      collections := collections[locale := listed + [collection]];
      ListedStays(collections.Keys - {locale}, before, supportedLocales);
      ListedStays(singles.Keys, before, supportedLocales);
    }

    method AddSingle(locale: string, single: Single)
      requires Valid()
      modifies this
      ensures Valid()
      ensures SinglesByLocale(locale) == old(SinglesByLocale(locale)) + [single]
      ensures singles == old(singles)[locale := old(SinglesByLocale(locale)) + [single]]
      ensures forall l :: l != locale ==> SinglesByLocale(l) == old(SinglesByLocale(l))
      ensures collections == old(collections)
      ensures supportedLocales == AddLooseUnique(old(supportedLocales), locale)
      ensures HasContentForLocale(locale) && !IsEmpty()
    {
      ghost var before := supportedLocales;
      var listed := if locale in singles then singles[locale] else [];
      if locale !in singles {
        AddSupportedLocale(locale);
      }
      singles := singles[locale := listed + [single]];
      ListedStays(singles.Keys - {locale}, before, supportedLocales);
      ListedStays(collections.Keys, before, supportedLocales);
    }

    function CollectionsByLocale(locale: string): seq<Collection>
      reads this
    {
      if locale in collections then collections[locale] else []
    }

    function SinglesByLocale(locale: string): seq<Single>
      reads this
    {
      if locale in singles then singles[locale] else []
    }

    /** `in_array($localeCode, $this->supportedLocales)`, loose. */
    predicate HasContentForLocale(locale: string)
      reads this
    {
      LooseIn(locale, supportedLocales)
    }

    predicate IsEmpty()
      reads this
    {
      collections == map[] && singles == map[]
    }

    method AddSupportedLocale(locale: string)
      modifies this
      ensures supportedLocales == AddLooseUnique(old(supportedLocales), locale)
      ensures collections == old(collections) && singles == old(singles)
    {
      if !LooseIn(locale, supportedLocales) {
        supportedLocales := supportedLocales + [locale];
      }
    }
  }

  /** For the usual locale codes (not digit strings) a locale has content exactly when something is listed under it. */
  lemma HasContentIffItems(p: Package, locale: string)
    requires p.Valid() && !DigitString(locale)
    ensures p.HasContentForLocale(locale) <==> |p.CollectionsByLocale(locale)| + |p.SinglesByLocale(locale)| > 0
  {
    LooseInIsMembership(locale, p.supportedLocales);
    if locale in p.supportedLocales {
      var i :| 0 <= i < |p.supportedLocales| && p.supportedLocales[i] == locale;
    }
  }

  /** The loose search lets a locale that was never added count as supported: content under "1" answers for "01". */
  lemma LooseLocaleMatch(p: Package)
    requires p.Valid() && "1" in p.collections
    ensures p.HasContentForLocale("01")
  {
    assert DigitString("1") && DigitString("01");
    assert DigitsValue("1") == 1 by { assert "1"[..0] == ""; }
    assert DigitsValue("01") == 1 by { assert "01"[..1] == "0" && "0"[..0] == ""; }
    var xs := p.supportedLocales;
    var i :| 0 <= i < |xs| && LooseEquals(xs[i], "1");
    assert LooseEquals(xs[i], "01");
  }

  class Collection {
    const slug: string
    const title: string
    const desc: string
    const mediaType: string
    const localImage: Path
    const image: string
    const recommended: bool
    var categories: seq<string>
    var episodes: seq<Models.Episode>
    var tags: seq<string>
    var packages: seq<string>

    /** Unlike the current collection, the slug is kept as given. */
    constructor (slug: string, title: string, desc: string, mediaType: string, localImage: Path, recommended: bool)
      ensures this.slug == slug && this.title == title && this.desc == desc && this.mediaType == mediaType
      ensures this.localImage == localImage && image == Basename(localImage) && this.recommended == recommended
      ensures categories == [] && episodes == [] && tags == [] && packages == []
      ensures forall p :: !BelongsTo(p)
    {
      this.slug := slug;
      this.title := title;
      this.desc := desc;
      this.mediaType := mediaType;
      this.localImage := localImage;
      this.image := Basename(localImage);
      this.recommended := recommended;
      this.categories := [];
      this.episodes := [];
      this.tags := [];
      this.packages := [];
    }

    method AddCategory(category: string)
      modifies this
      ensures categories == Models.AddUnique(old(categories), category)
      ensures episodes == old(episodes) && tags == old(tags) && packages == old(packages)
    {
      if category !in categories {
        categories := categories + [category];
      }
    }

    method AddEpisode(episode: Models.Episode)
      modifies this
      ensures episodes == old(episodes) + [episode]
      ensures categories == old(categories) && tags == old(tags) && packages == old(packages)
    {
      episodes := episodes + [episode];
    }

    method AddPackage(package: string)
      modifies this
      ensures packages == Models.AddUnique(old(packages), package)
      ensures BelongsTo(package) && forall p :: p != package ==> (BelongsTo(p) <==> old(BelongsTo(p)))
      ensures categories == old(categories) && episodes == old(episodes) && tags == old(tags)
    {
      if package !in packages {
        packages := packages + [package];
      }
    }

    method AddTag(tag: string)
      modifies this
      ensures tags == Models.AddUnique(old(tags), tag)
      ensures categories == old(categories) && episodes == old(episodes) && packages == old(packages)
    {
      if tag !in tags {
        tags := tags + [tag];
      }
    }

    predicate BelongsTo(packageSlug: string)
      reads this
    {
      packageSlug in packages
    }
  }

  method NewCollection(fs: FileSystem, slug: string, title: string, desc: string, mediaType: string,
                       localImage: Path, recommended: bool)
    returns (r: Result<Collection>)
    ensures r.Err? <==> localImage !in fs.entries
    ensures r.Err? ==> r.message == Models.CollectionImageMissing
    ensures r.Ok? ==> fresh(r.value) && r.value.slug == slug && r.value.localImage == localImage
    ensures r.Ok? ==> r.value.recommended == recommended && r.value.episodes == []
  {
    if localImage !in fs.entries {
      return Err(Models.CollectionImageMissing);
    }
    var c := new Collection(slug, title, desc, mediaType, localImage, recommended);
    return Ok(c);
  }

  class Single {
    const slug: string
    const title: string
    const desc: string
    const mediaType: string
    const localImage: Path
    const image: string
    const localFilename: Path
    const filename: string
    const mimeType: string
    const recommended: bool
    var categories: seq<string>
    var tags: seq<string>
    var packages: seq<string>

    /** `mimeType` is what `mime_content_type` reports for the media file. */
    constructor (slug: string, title: string, desc: string, mediaType: string, localFilename: Path,
                 localImage: Path, recommended: bool, mimeType: string)
      ensures this.slug == slug && this.title == title && this.desc == desc && this.mediaType == mediaType
      ensures this.localImage == localImage && image == Basename(localImage)
      ensures this.localFilename == localFilename && filename == Basename(localFilename)
      ensures this.mimeType == mimeType && this.recommended == recommended
      ensures categories == [] && tags == [] && packages == []
      ensures forall p :: !BelongsTo(p)
    {
      this.slug := slug;
      this.title := title;
      this.desc := desc;
      this.mediaType := mediaType;
      this.localImage := localImage;
      this.image := Basename(localImage);
      this.localFilename := localFilename;
      this.filename := Basename(localFilename);
      this.mimeType := mimeType;
      this.recommended := recommended;
      this.categories := [];
      this.tags := [];
      this.packages := [];
    }

    method AddCategory(category: string)
      modifies this
      ensures categories == Models.AddUnique(old(categories), category)
      ensures tags == old(tags) && packages == old(packages)
    {
      if category !in categories {
        categories := categories + [category];
      }
    }

    method AddPackage(package: string)
      modifies this
      ensures packages == Models.AddUnique(old(packages), package)
      ensures BelongsTo(package) && forall p :: p != package ==> (BelongsTo(p) <==> old(BelongsTo(p)))
      ensures categories == old(categories) && tags == old(tags)
    {
      if package !in packages {
        packages := packages + [package];
      }
    }

    method AddTag(tag: string)
      modifies this
      ensures tags == Models.AddUnique(old(tags), tag)
      ensures categories == old(categories) && packages == old(packages)
    {
      if tag !in tags {
        tags := tags + [tag];
      }
    }

    predicate BelongsTo(packageSlug: string)
      reads this
    {
      packageSlug in packages
    }
  }

  /** The image is checked before the media file. */
  method NewSingle(fs: FileSystem, slug: string, title: string, desc: string, mediaType: string,
                   localFilename: Path, localImage: Path, recommended: bool, mimeType: string)
    returns (r: Result<Single>)
    ensures localImage !in fs.entries ==> r == Err(Models.SingleImageMissing)
    ensures localImage in fs.entries && localFilename !in fs.entries ==> r == Err(Models.SingleFileMissing)
    ensures r.Ok? <==> localImage in fs.entries && localFilename in fs.entries
    ensures r.Ok? ==> fresh(r.value) && r.value.slug == slug && r.value.recommended == recommended
    ensures r.Ok? ==> r.value.localImage == localImage && r.value.localFilename == localFilename
  {
    if localImage !in fs.entries {
      return Err(Models.SingleImageMissing);
    }
    if localFilename !in fs.entries {
      return Err(Models.SingleFileMissing);
    }
    var s := new Single(slug, title, desc, mediaType, localFilename, localImage, recommended, mimeType);
    return Ok(s);
  }
}
