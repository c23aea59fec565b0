/** The content objects of the current generation: episodes, collections, singles, packages and courses. */
module Models {
  import opened Wrappers
  import opened Json
  import opened Text
  import opened Disk

  /** No value occurs twice. */
  predicate Distinct(xs: seq<string>) {
    forall i, j :: 0 <= i < j < |xs| ==> xs[i] != xs[j]
  }

  /** `if (!in_array($x, $xs, true)) { $xs[] = $x; }`: order kept, no duplicate, a second add changes nothing. */
  function AddUnique(xs: seq<string>, x: string): (r: seq<string>)
    ensures xs <= r && |r| <= |xs| + 1
    ensures forall y :: y in r <==> y in xs || y == x
    ensures x in xs ==> r == xs
    ensures Distinct(xs) ==> Distinct(r)
  {
    if x in xs then xs else xs + [x]
  }

  /** A PHP list of strings, as `json_encode` writes it. */
  function StrList(xs: seq<string>): Json {
    JList(seq(|xs|, i requires 0 <= i < |xs| => JStr(xs[i])))
  }

  /** `$data['recommended'] = true` when the flag is set. */
  function WithRecommended(data: map<string, Json>, recommended: bool): (r: map<string, Json>)
    ensures r.Keys == data.Keys + (if recommended then {"recommended"} else {})
    ensures forall k :: k in data && k != "recommended" ==> r[k] == data[k]
    ensures recommended ==> r["recommended"] == JBool(true)
  {
    if recommended then data["recommended" := JBool(true)] else data
  }

  /** The one URL key a slim collection adds. */
  function WithImageUrl(data: map<string, Json>, isSlim: bool, imageUrl: string): (r: map<string, Json>)
    ensures r.Keys == data.Keys + (if isSlim then {"imageUrl"} else {})
    ensures forall k :: k in data && k != "imageUrl" ==> r[k] == data[k]
    ensures isSlim ==> r["imageUrl"] == JStr(imageUrl)
  {
    if isSlim then data["imageUrl" := JStr(imageUrl)] else data
  }

  /** The two URL keys a slim export adds. */
  function WithUrls(data: map<string, Json>, isSlim: bool, imageUrl: string, resourceUrl: string): (r: map<string, Json>)
    ensures r.Keys == data.Keys + (if isSlim then UrlKeys else {})
    ensures forall k :: k in data && k !in UrlKeys ==> r[k] == data[k]
    ensures isSlim ==> r["imageUrl"] == JStr(imageUrl) && r["resourceUrl"] == JStr(resourceUrl)
  {
    if isSlim then data["imageUrl" := JStr(imageUrl)]["resourceUrl" := JStr(resourceUrl)] else data
  }

  const EpisodeImageMissing: string := "The episode image does not exist!"
  const EpisodeFileMissing: string := "The episode file does not exist!"
  const CollectionImageMissing: string := "The collection image does not exist!"
  const SingleImageMissing: string := "The single image does not exist!"
  const SingleFileMissing: string := "The single file does not exist!"

  /** The keys of an episode's array before the flags are applied. */
  const EpisodeKeys: set<string> := {"desc", "filename", "image", "mediaType", "mimeType", "slug", "tags", "title"}
  /** The keys a slim export adds, pointing at the published files instead of packaged copies. */
  const UrlKeys: set<string> := {"imageUrl", "resourceUrl"}
  const CollectionKeys: set<string> := {"categories", "desc", "episodes", "image", "mediaType", "slug", "tags", "title"}
  const SingleKeys: set<string> := {"categories", "desc", "filename", "image", "mediaType", "mimeType", "slug", "tags", "title"}
  const CollectionPrefix: string := "collection-"

  /** The nine keys every single's array has, in both generations of the models. */
  function SingleFields(categories: seq<string>, desc: string, filename: string, image: string, mediaType: string,
                        mimeType: string, slug: string, tags: seq<string>, title: string): (data: map<string, Json>)
    ensures data.Keys == SingleKeys
    ensures data["slug"] == JStr(slug) && data["image"] == JStr(image) && data["filename"] == JStr(filename)
  {
    map[
      "categories" := StrList(categories), "desc" := JStr(desc), "filename" := JStr(filename),
      "image" := JStr(image), "mediaType" := JStr(mediaType), "mimeType" := JStr(mimeType),
      "slug" := JStr(slug), "tags" := StrList(tags), "title" := JStr(title)]
  }

  class Episode {
    const slug: string
    const title: string
    const desc: string
    const imageUrl: string
    const mediaType: string
    const image: string
    const filename: string
    const mimeType: string
    const resourceUrl: string
    /** The local paths; `None` once an exporter has unset them through a shallow clone. */
    var localImage: Option<Path>
    var localFilename: Option<Path>
    var tags: seq<string>

    /** `mimeType` is what `mime_content_type(localFilename)` reports. */
    constructor (slug: string, title: string, desc: string, imageUrl: string, mediaType: string,
                 localFilename: Path, localImage: Path, resourceUrl: string, mimeType: string)
      ensures this.slug == slug && this.title == title && this.desc == desc && this.imageUrl == imageUrl
      ensures this.mediaType == mediaType && this.resourceUrl == resourceUrl && this.mimeType == mimeType
      ensures this.localImage == Some(localImage) && image == Basename(localImage)
      ensures this.localFilename == Some(localFilename) && filename == Basename(localFilename)
      ensures tags == []
    {
      this.slug := slug;
      this.title := title;
      this.desc := desc;
      this.imageUrl := imageUrl;
      this.mediaType := mediaType;
      this.localImage := Some(localImage);
      this.image := Basename(localImage);
      this.localFilename := Some(localFilename);
      this.filename := Basename(localFilename);
      this.mimeType := mimeType;
      this.resourceUrl := resourceUrl;
      this.tags := [];
    }

    method AddTag(tag: string)
      modifies this
      ensures tags == AddUnique(old(tags), tag)
      ensures localImage == old(localImage) && localFilename == old(localFilename)
    {
      if tag !in tags {
        tags := tags + [tag];
      }
    }

    /** `asArray($isMainFile, $isSlim)`: the manifest keeps only the title; slim adds the two URLs. */
    function AsArray(isMainFile: bool, isSlim: bool): (data: map<string, Json>)
      reads this
      ensures data.Keys == (if isMainFile then {"title"} else EpisodeKeys) + (if isSlim then UrlKeys else {})
      ensures data["title"] == JStr(title)
      ensures !isMainFile ==> data["image"] == JStr(image) && data["filename"] == JStr(filename)
      ensures !isMainFile ==> data["slug"] == JStr(slug) && data["tags"] == StrList(tags)
      ensures isSlim ==> data["imageUrl"] == JStr(imageUrl) && data["resourceUrl"] == JStr(resourceUrl)
    {
      // The manifest form unsets every base key but the title.
      var kept := if isMainFile then map["title" := JStr(title)] else Base();
      WithUrls(kept, isSlim, imageUrl, resourceUrl)
    }

    function Base(): (data: map<string, Json>)
      reads this
      ensures data.Keys == EpisodeKeys
      ensures data["title"] == JStr(title) && data["image"] == JStr(image) && data["filename"] == JStr(filename)
      ensures data["slug"] == JStr(slug) && data["tags"] == StrList(tags)
    {
      map[
        "desc" := JStr(desc), "filename" := JStr(filename), "image" := JStr(image),
        "mediaType" := JStr(mediaType), "mimeType" := JStr(mimeType), "slug" := JStr(slug),
        "tags" := StrList(tags), "title" := JStr(title)]
    }
  }

  /** `new Episode(...)`: the image is checked first, then the media file. */
  method NewEpisode(fs: FileSystem, slug: string, title: string, desc: string, imageUrl: string, mediaType: string,
                    localFilename: Path, localImage: Path, resourceUrl: string, mimeType: string)
    returns (r: Result<Episode>)
    ensures localImage !in fs.entries ==> r == Err(EpisodeImageMissing)
    ensures localImage in fs.entries && localFilename !in fs.entries ==> r == Err(EpisodeFileMissing)
    ensures r.Ok? ==> fresh(r.value) && r.value.slug == slug && r.value.tags == []
    ensures r.Ok? ==> r.value.image == Basename(localImage) && r.value.filename == Basename(localFilename)
    ensures r.Ok? ==> r.value.localImage == Some(localImage) && r.value.localFilename == Some(localFilename)
    ensures r.Ok? <==> localImage in fs.entries && localFilename in fs.entries
  {
    if localImage !in fs.entries {
      return Err(EpisodeImageMissing);
    }
    if localFilename !in fs.entries {
      return Err(EpisodeFileMissing);
    }
    var e := new Episode(slug, title, desc, imageUrl, mediaType, localFilename, localImage, resourceUrl, mimeType);
    return Ok(e);
  }

  /** The episodes' arrays, one per episode, in order and with the same flags. */
  function EpisodeArrays(episodes: seq<Episode>, isMainFile: bool, isSlim: bool): (r: seq<Json>)
    reads episodes
    ensures |r| == |episodes| && forall i :: 0 <= i < |episodes| ==> r[i] == JObj(episodes[i].AsArray(isMainFile, isSlim))
  {
    seq(|episodes|, i requires 0 <= i < |episodes| reads episodes => JObj(episodes[i].AsArray(isMainFile, isSlim)))
  }

  class Collection {
    const slug: string
    const storedSlug: string
    const title: string
    const desc: string
    const imageUrl: string
    const mediaType: string
    const localImage: Path
    const image: string
    const recommended: bool
    var categories: seq<string>
    var episodes: seq<Episode>
    var tags: seq<string>
    var packages: seq<string>

    constructor (slug: string, title: string, desc: string, imageUrl: string, mediaType: string,
                 localImage: Path, recommended: bool)
      ensures this.slug == CollectionPrefix + slug && storedSlug == slug
      ensures this.title == title && this.desc == desc && this.imageUrl == imageUrl && this.mediaType == mediaType
      ensures this.localImage == localImage && image == Basename(localImage) && this.recommended == recommended
      ensures categories == [] && episodes == [] && tags == [] && packages == []
      ensures forall p :: !BelongsTo(p)
    {
      this.slug := CollectionPrefix + slug;
      this.storedSlug := slug;
      this.title := title;
      this.desc := desc;
      this.imageUrl := imageUrl;
      this.mediaType := mediaType;
      this.localImage := localImage;
      this.image := Basename(localImage);
      this.recommended := recommended;
      this.categories := [];
      this.episodes := [];
      this.tags := [];
      this.packages := [];
    }

    method AddCategory(category: string)
      modifies this
      ensures categories == AddUnique(old(categories), category)
      ensures episodes == old(episodes) && tags == old(tags) && packages == old(packages)
    {
      if category !in categories {
        categories := categories + [category];
      }
    }

    /** Episodes are appended whatever is already there. */
    method AddEpisode(episode: Episode)
      modifies this
      ensures episodes == old(episodes) + [episode]
      ensures categories == old(categories) && tags == old(tags) && packages == old(packages)
    {
      episodes := episodes + [episode];
    }

    method AddPackage(package: string)
      modifies this
      ensures packages == AddUnique(old(packages), package)
      ensures BelongsTo(package) && forall p :: p != package ==> (BelongsTo(p) <==> old(BelongsTo(p)))
      ensures categories == old(categories) && episodes == old(episodes) && tags == old(tags)
    {
      if package !in packages {
        packages := packages + [package];
      }
    }

    method AddTag(tag: string)
      modifies this
      ensures tags == AddUnique(old(tags), tag)
      ensures categories == old(categories) && episodes == old(episodes) && packages == old(packages)
    {
      if tag !in tags {
        tags := tags + [tag];
      }
    }

    predicate BelongsTo(packageSlug: string)
      reads this
    {
      packageSlug in packages
    }

    /** What `asArray($isMainFile, $isSlim)` returns. */
    function Projection(isMainFile: bool, isSlim: bool): (data: map<string, Json>)
      reads this, episodes
      ensures data.Keys == CollectionKeys + (if recommended then {"recommended"} else {}) + (if isSlim then {"imageUrl"} else {})
      ensures data["episodes"].JList? && |data["episodes"].items| == |episodes|
      ensures forall i :: 0 <= i < |episodes| ==> data["episodes"].items[i] == JObj(episodes[i].AsArray(isMainFile, isSlim))
      ensures recommended ==> data["recommended"] == JBool(true)
      ensures isSlim ==> data["imageUrl"] == JStr(imageUrl)
    {
      var list := EpisodeArrays(episodes, isMainFile, isSlim);
      var flagged := WithRecommended(Base(JList(list)), recommended);
      assert "episodes" != "recommended" && "episodes" != "imageUrl" && "recommended" != "imageUrl";
      var data := WithImageUrl(flagged, isSlim, imageUrl);
      assert data["episodes"] == JList(list);
      data
    }

    /** The fixed keys, with `episodes` holding the given list. */
    function Base(episodeList: Json): (data: map<string, Json>)
      reads this
      ensures data.Keys == CollectionKeys
      ensures data["slug"] == JStr(slug) && data["episodes"] == episodeList
    {
      map[
        "categories" := StrList(categories), "desc" := JStr(desc), "episodes" := episodeList,
        "image" := JStr(image), "mediaType" := JStr(mediaType), "slug" := JStr(slug),
        "tags" := StrList(tags), "title" := JStr(title)]
    }

    /** `asArray`: one episode array per episode, then the fixed keys and the two flags. */
    method AsArray(isMainFile: bool, isSlim: bool) returns (data: map<string, Json>)
      ensures data == Projection(isMainFile, isSlim)
    {
      var list: seq<Json> := [];
      for i := 0 to |episodes|
        invariant |list| == i
        invariant forall j :: 0 <= j < i ==> list[j] == JObj(episodes[j].AsArray(isMainFile, isSlim))
      {
        list := list + [JObj(episodes[i].AsArray(isMainFile, isSlim))];
      }
      assert list == EpisodeArrays(episodes, isMainFile, isSlim);
      data := WithImageUrl(WithRecommended(Base(JList(list)), recommended), isSlim, imageUrl);
    }
  }

  /** `new Collection(...)`: fails when the image is missing. */
  method NewCollection(fs: FileSystem, slug: string, title: string, desc: string, imageUrl: string, mediaType: string,
                       localImage: Path, recommended: bool)
    returns (r: Result<Collection>)
    ensures r.Err? <==> localImage !in fs.entries
    ensures r.Err? ==> r.message == CollectionImageMissing
    ensures r.Ok? ==> fresh(r.value) && r.value.slug == CollectionPrefix + slug && r.value.storedSlug == slug
    ensures r.Ok? ==> r.value.image == Basename(localImage) && r.value.localImage == localImage
    ensures r.Ok? ==> r.value.episodes == [] && r.value.packages == []
  {
    if localImage !in fs.entries {
      return Err(CollectionImageMissing);
    }
    var c := new Collection(slug, title, desc, imageUrl, mediaType, localImage, recommended);
    return Ok(c);
  }

  class Single {
    const slug: string
    const title: string
    const desc: string
    const imageUrl: string
    const mediaType: string
    const localImage: Path
    const image: string
    const localFilename: Path
    const filename: string
    const mimeType: string
    const resourceUrl: string
    const recommended: bool
    var categories: seq<string>
    var tags: seq<string>
    var packages: seq<string>

    constructor (slug: string, title: string, desc: string, imageUrl: string, mediaType: string,
                 localFilename: Path, localImage: Path, resourceUrl: string, recommended: bool, mimeType: string)
      ensures this.slug == slug && this.title == title && this.desc == desc && this.imageUrl == imageUrl
      ensures this.mediaType == mediaType && this.resourceUrl == resourceUrl && this.recommended == recommended
      ensures this.localImage == localImage && image == Basename(localImage)
      ensures this.localFilename == localFilename && filename == Basename(localFilename) && this.mimeType == mimeType
      ensures categories == [] && tags == [] && packages == []
      ensures forall p :: !BelongsTo(p)
    {
      this.slug := slug;
      this.title := title;
      this.desc := desc;
      this.imageUrl := imageUrl;
      this.mediaType := mediaType;
      this.localImage := localImage;
      this.image := Basename(localImage);
      this.localFilename := localFilename;
      this.filename := Basename(localFilename);
      this.mimeType := mimeType;
      this.resourceUrl := resourceUrl;
      this.recommended := recommended;
      this.categories := [];
      this.tags := [];
      this.packages := [];
    }

    method AddCategory(category: string)
      modifies this
      ensures categories == AddUnique(old(categories), category)
      ensures tags == old(tags) && packages == old(packages)
    {
      if category !in categories {
        categories := categories + [category];
      }
    }

    method AddPackage(package: string)
      modifies this
      ensures packages == AddUnique(old(packages), package)
      ensures BelongsTo(package) && forall p :: p != package ==> (BelongsTo(p) <==> old(BelongsTo(p)))
      ensures categories == old(categories) && tags == old(tags)
    {
      if package !in packages {
        packages := packages + [package];
      }
    }

    method AddTag(tag: string)
      modifies this
      ensures tags == AddUnique(old(tags), tag)
      ensures categories == old(categories) && packages == old(packages)
    {
      if tag !in tags {
        tags := tags + [tag];
      }
    }

    predicate BelongsTo(packageSlug: string)
      reads this
    {
      packageSlug in packages
    }

    /** `asArray($isSlim)`: nine keys always, `recommended` only when set, both URLs only when slim. */
    function AsArray(isSlim: bool): (data: map<string, Json>)
      reads this
      ensures data.Keys == SingleKeys + (if recommended then {"recommended"} else {}) + (if isSlim then UrlKeys else {})
      ensures recommended ==> "recommended" in data && data["recommended"] == JBool(true)
      ensures isSlim ==> "imageUrl" in data && data["imageUrl"] == JStr(imageUrl)
      ensures isSlim ==> "resourceUrl" in data && data["resourceUrl"] == JStr(resourceUrl)
    {
      var base := Base();
      var flagged := WithRecommended(base, recommended);
      assert "recommended" !in UrlKeys;
      WithUrls(flagged, isSlim, imageUrl, resourceUrl)
    }

    function Base(): (data: map<string, Json>)
      reads this
      ensures data.Keys == SingleKeys
      ensures data["slug"] == JStr(slug) && data["image"] == JStr(image) && data["filename"] == JStr(filename)
    {
      SingleFields(categories, desc, filename, image, mediaType, mimeType, slug, tags, title)
    }
  }

  /** `new Single(...)`: the image is checked first, then the media file. */
  method NewSingle(fs: FileSystem, slug: string, title: string, desc: string, imageUrl: string, mediaType: string,
                   localFilename: Path, localImage: Path, resourceUrl: string, recommended: bool, mimeType: string)
    returns (r: Result<Single>)
    ensures localImage !in fs.entries ==> r == Err(SingleImageMissing)
    ensures localImage in fs.entries && localFilename !in fs.entries ==> r == Err(SingleFileMissing)
    ensures r.Ok? <==> localImage in fs.entries && localFilename in fs.entries
    ensures r.Ok? ==> fresh(r.value) && r.value.slug == slug && r.value.packages == []
    ensures r.Ok? ==> r.value.image == Basename(localImage) && r.value.filename == Basename(localFilename)
  {
    if localImage !in fs.entries {
      return Err(SingleImageMissing);
    }
    if localFilename !in fs.entries {
      return Err(SingleFileMissing);
    }
    var s := new Single(slug, title, desc, imageUrl, mediaType, localFilename, localImage, resourceUrl, recommended, mimeType);
    return Ok(s);
  }

  /** A package's locales list exactly the locales something was added under, each once. */
  ghost predicate LocalesAgree<C, S>(collections: map<string, seq<C>>, singles: map<string, seq<S>>, supportedLocales: seq<string>) {
    Distinct(supportedLocales)
    && (forall l :: l in supportedLocales <==> l in collections || l in singles)
    && (forall l :: l in collections ==> |collections[l]| > 0)
    && (forall l :: l in singles ==> |singles[l]| > 0)
  }

  class Package {
    const name: string
    const slug: string
    var collections: map<string, seq<Collection>>
    var singles: map<string, seq<Single>>
    var supportedLocales: seq<string>

    /** A locale is supported exactly when something was added under it, and is listed once. */
    ghost predicate Valid()
      reads this
    {
      LocalesAgree(collections, singles, supportedLocales)
    }

    constructor (name: string, slug: string)
      ensures this.name == name && this.slug == slug
      ensures Valid() && IsEmpty()
      ensures forall l :: !HasContentForLocale(l) && CollectionsByLocale(l) == [] && SinglesByLocale(l) == []
    {
      this.name := name;
      this.slug := slug;
      collections := map[];
      singles := map[];
      supportedLocales := [];
    }

    method AddCollection(locale: string, collection: Collection)
      requires Valid()
      modifies this
      ensures Valid()
      ensures CollectionsByLocale(locale) == old(CollectionsByLocale(locale)) + [collection]
      ensures collections == old(collections)[locale := old(CollectionsByLocale(locale)) + [collection]]
      ensures forall l :: l != locale ==> CollectionsByLocale(l) == old(CollectionsByLocale(l))
      ensures singles == old(singles)
      ensures supportedLocales == AddUnique(old(supportedLocales), locale)
      ensures HasContentForLocale(locale) && !IsEmpty()
    {
      var listed := if locale in collections then collections[locale] else [];
      if locale !in collections {
        AddSupportedLocale(locale);
      }
      collections := collections[locale := listed + [collection]];
    }

    method AddSingle(locale: string, single: Single)
      requires Valid()
      modifies this
      ensures Valid()
      ensures SinglesByLocale(locale) == old(SinglesByLocale(locale)) + [single]
      ensures singles == old(singles)[locale := old(SinglesByLocale(locale)) + [single]]
      ensures forall l :: l != locale ==> SinglesByLocale(l) == old(SinglesByLocale(l))
      ensures collections == old(collections)
      ensures supportedLocales == AddUnique(old(supportedLocales), locale)
      ensures HasContentForLocale(locale) && !IsEmpty()
    {
      var listed := if locale in singles then singles[locale] else [];
      if locale !in singles {
        AddSupportedLocale(locale);
      }
      singles := singles[locale := listed + [single]];
    }

    function CollectionsByLocale(locale: string): seq<Collection>
      reads this
    {
      if locale in collections then collections[locale] else []
    }

    function SinglesByLocale(locale: string): seq<Single>
      reads this
    {
      if locale in singles then singles[locale] else []
    }

    predicate HasContentForLocale(locale: string)
      reads this
    {
      locale in supportedLocales
    }

    predicate IsEmpty()
      reads this
    {
      collections == map[] && singles == map[]
    }

    method AddSupportedLocale(locale: string)
      modifies this
      ensures supportedLocales == AddUnique(old(supportedLocales), locale)
      ensures collections == old(collections) && singles == old(singles)
    {
      if locale !in supportedLocales {
        supportedLocales := supportedLocales + [locale];
      }
    }
  }

  /** A locale has content exactly when something is listed under it. */
  lemma HasContentIffItems(p: Package, locale: string)
    requires p.Valid()
    ensures p.HasContentForLocale(locale) <==> |p.CollectionsByLocale(locale)| + |p.SinglesByLocale(locale)| > 0
  {
  }

  /** A package is empty exactly when no locale is supported. */
  lemma EmptyIffNoLocale(p: Package)
    requires p.Valid()
    ensures p.IsEmpty() <==> p.supportedLocales == []
  {
    if p.supportedLocales != [] {
      assert p.supportedLocales[0] in p.supportedLocales;
    }
    if !p.IsEmpty() {
      if p.collections != map[] {
        var l :| l in p.collections;
        assert l in p.supportedLocales;
      } else {
        var l :| l in p.singles;
        assert l in p.supportedLocales;
      }
    }
  }

  class Course {
    const title: string
    const language: string
    const description: string
    const filePath: string
    var tags: seq<string>
    var prettyTags: string

    constructor (description: string, filePath: string, title: string, language: string)
      ensures this.description == description && this.filePath == filePath
      ensures this.title == title && this.language == language
      ensures tags == [] && prettyTags == "[]"
    {
      this.description := description;
      this.filePath := filePath;
      this.title := title;
      this.language := language;
      tags := [];
      prettyTags := "[]";
    }

    /** `addTag`: the tag list grows without duplicates and the pretty form is rebuilt from it. */
    method AddTag(tag: string)
      modifies this
      ensures tags == AddUnique(old(tags), tag)
      ensures prettyTags == PrettyTags(tags)
    {
      if tag !in tags {
        tags := tags + [tag];
      }
      prettyTags := PrettyTags(tags);
    }
  }

  function Quote(tag: string): string {
    "\"" + tag + "\""
  }

  function Quoted(tags: seq<string>): seq<string> {
    seq(|tags|, i requires 0 <= i < |tags| => Quote(tags[i]))
  }

  /** `setPrettyTags`: `[]` for no tags, else the tags in double quotes, comma separated, in brackets. */
  function PrettyTags(tags: seq<string>): (r: string)
    ensures |r| >= 2 && r[0] == '[' && r[|r| - 1] == ']'
    ensures r == "[]" <==> tags == []
  {
    if |tags| == 0 then "[]"
    else
      JoinNotEmpty(Quoted(tags), ",");
      "[" + Text.Join(Quoted(tags), ",") + "]"
  }

  lemma {:induction false} JoinNotEmpty(parts: seq<string>, sep: string)
    requires |parts| >= 1 && |parts[0]| >= 1
    ensures |Text.Join(parts, sep)| >= 1
  {
  }

  function Unquote(s: string): string {
    if |s| >= 2 then s[1..|s| - 1] else s
  }

  /** Reads the tags back: drop the brackets, split on commas, drop each pair of quotes. */
  function ParseTags(pretty: string): seq<string> {
    if pretty == "[]" || |pretty| < 2 then []
    else
      var pieces := Split(pretty[1..|pretty| - 1], ',');
      seq(|pieces|, i requires 0 <= i < |pieces| => Unquote(pieces[i]))
  }

  /** Tags without commas come back from their pretty form. */
  lemma PrettyTagsRoundTrip(tags: seq<string>)
    requires forall i :: 0 <= i < |tags| ==> ',' !in tags[i]
    ensures ParseTags(PrettyTags(tags)) == tags
  {
    if |tags| > 0 {
      var quoted := Quoted(tags);
      forall i | 0 <= i < |quoted|
        ensures ',' !in quoted[i]
      {
        assert quoted[i] == ['"'] + tags[i] + ['"'];
      }
      SplitJoin(quoted, ',');
      var r := PrettyTags(tags);
      assert r[1..|r| - 1] == Text.Join(quoted, ",");
      var pieces := Split(r[1..|r| - 1], ',');
      assert pieces == quoted;
      forall i | 0 <= i < |tags|
        ensures Unquote(pieces[i]) == tags[i]
      {
        assert pieces[i] == ['"'] + tags[i] + ['"'];
      }
    }
  }

  /** Quotes are not escaped: one tag holding `","` prints like two tags. */
  lemma QuotesNotEscaped(a: string, b: string)
    ensures PrettyTags([a + "\",\"" + b]) == PrettyTags([a, b])
  {
    var one := a + "\",\"" + b;
    assert Quoted([one]) == [Quote(one)];
    assert Quoted([a, b]) == [Quote(a), Quote(b)];
    assert Text.Join([Quote(a), Quote(b)], ",") == Quote(a) + "," + Quote(b);
    assert Quote(a) + "," + Quote(b) == Quote(one);
  }

  /** Local paths, the stored slug and the package list never reach a projection, whatever the flags. */
  lemma LocalFieldsNeverProjected()
    ensures forall k :: k in {"localImage", "localFilename", "storedSlug", "packages"} ==>
      k !in EpisodeKeys + UrlKeys && k !in CollectionKeys + {"recommended", "imageUrl"} && k !in SingleKeys + {"recommended"} + UrlKeys
  {
  }
}
