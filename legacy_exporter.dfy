/** The previous generation's exporter. It lays a package out below the exports directory in one form
    only (media always copied in), names the working directory `prefix-date`, writes each item as the
    `json_encode` of a shallow clone with its local paths unset, zips the tree and removes it. Progress
    goes to the console, which the model leaves out. */
module LegacyExporting {
  import opened Wrappers
  import opened Json
  import opened Text
  import opened Disk
  import Models
  import LegacyModels
  import Filenames
  import PE = PackageExporting

  /** What PHP throws when `copy` is handed a local path that an earlier clone has unset. */
  const NullSource: string := "copy(): Argument #1 ($from) must be of type string, null given"

  /** The calls the exporter receives, in order. */
  datatype Call =
    | Started(itemName: string, filePrefix: string)
    | LocaleStarted(locale: string)
    | LanguageAdded(text: string)
    | CollectionAdded(collection: LegacyModels.Collection)
    | SingleAdded(single: LegacyModels.Single)
    | LocaleFinished
    | Finished

  /** The local paths an episode holds; `None` once unset. */
  datatype Locals = Locals(image: Option<Path>, filename: Option<Path>)

  function LocalsOf(episodes: seq<Models.Episode>): (r: seq<Locals>)
    reads episodes
    ensures |r| == |episodes|
    ensures forall i :: 0 <= i < |episodes| ==> r[i] == Locals(episodes[i].localImage, episodes[i].localFilename)
  {
    seq(|episodes|, i requires 0 <= i < |episodes| reads episodes => Locals(episodes[i].localImage, episodes[i].localFilename))
  }

  /** Every episode still has both of its local paths. */
  predicate AllLocal(locals: seq<Locals>) {
    forall i :: 0 <= i < |locals| ==> locals[i].image.Some? && locals[i].filename.Some?
  }

  /** Every episode has had both local paths unset. */
  ghost predicate Stripped(episodes: seq<Models.Episode>)
    reads episodes
  {
    forall e :: e in episodes ==> e.localImage.None? && e.localFilename.None?
  }

  /** No episode object is listed twice. */
  predicate NoRepeats(episodes: seq<Models.Episode>) {
    forall i, j :: 0 <= i < j < |episodes| ==> episodes[i] != episodes[j]
  }

  /** `json_encode` of a collection's clone: every public property but `localImage`, and `recommended`
      only when it is set. The episodes are given already encoded. */
  function CollectionJson(c: LegacyModels.Collection, episodes: seq<Json>): (data: map<string, Json>)
    reads c
    ensures data.Keys == Models.CollectionKeys + (if c.recommended then {"recommended"} else {})
    ensures "localImage" !in data && data["episodes"] == JList(episodes) && data["slug"] == JStr(c.slug)
  {
    Models.WithRecommended(map[
      "categories" := Models.StrList(c.categories), "desc" := JStr(c.desc), "episodes" := JList(episodes),
      "image" := JStr(c.image), "mediaType" := JStr(c.mediaType), "slug" := JStr(c.slug),
      "tags" := Models.StrList(c.tags), "title" := JStr(c.title)], c.recommended)
  }

  /** The clone the manifest lists: the same without `episodes`. */
  function CollectionEntry(c: LegacyModels.Collection): (data: map<string, Json>)
    reads c
    ensures data.Keys == Models.CollectionKeys - {"episodes"} + (if c.recommended then {"recommended"} else {})
    ensures forall k :: k in data ==> data[k] == CollectionJson(c, [])[k]
  {
    CollectionJson(c, []) - {"episodes"}
  }

  /** `json_encode` of a single's clone: every public property but the two local paths, and
      `recommended` only when it is set. */
  function SingleJson(s: LegacyModels.Single): (data: map<string, Json>)
    reads s
    ensures data.Keys == Models.SingleKeys + (if s.recommended then {"recommended"} else {})
    ensures "localImage" !in data && "localFilename" !in data
    ensures "slug" in data && data["slug"] == JStr(s.slug)
  {
    var base := Models.SingleFields(s.categories, s.desc, s.filename, s.image, s.mediaType, s.mimeType, s.slug, s.tags, s.title);
    assert "recommended" !in Models.SingleKeys && "localImage" !in Models.SingleKeys && "localFilename" !in Models.SingleKeys;
    Models.WithRecommended(base, s.recommended)
  }

  /** Two files copied in turn into a directory below `root`. */
  method CopyBoth(fs: FileSystem, root: Path, first: (Path, Path), second: (Path, Path))
    requires Under(root, first.1) && Under(root, second.1)
    modifies fs
    ensures fs.entries == PE.CopyAll(old(fs.entries), [first, second])
    ensures fs.copies == old(fs.copies) + [first, second]
    ensures Confined(old(fs.entries), fs.entries, root)
  {
    fs.Copy(first.0, first.1);
    TouchedConfined(old(fs.entries), fs.entries, first.1, root);
    ghost var copied := fs.entries;
    fs.Copy(second.0, second.1);
    TouchedConfined(copied, fs.entries, second.1, root);
    ConfinedTrans(old(fs.entries), copied, fs.entries, root);
    PE.CopyAllPair(old(fs.entries), [], first, second);
    assert [] + [first, second] == [first, second];
  }

  /** The logo `start` ships: the given one when it is not empty and exists once the working directory is made. */
  function ShippedLogo(made: map<Path, Node>, logo: Path): Path {
    if logo != [] && logo in made then logo else []
  }

  /** What adding a collection leaves on disk: the episodes' copies, the data file, then the collection's image. */
  function CollectionLayout(entries: map<Path, Node>, dirs: PE.Directories, slug: string, data: Json,
                            episodes: seq<PE.EpisodeFiles>, localImage: Path, image: string): map<Path, Node>
    requires |dirs.exportData| > 0
  {
    var copied := PE.CopyAll(entries, PE.EpisodeCopies(episodes, dirs.exportImages, dirs.exportMedia));
    Copied(Put(copied, dirs.exportData + [slug + ".json"], data), localImage, dirs.exportImages + [image])
  }

  /** The archive `finish` leaves is `<prefix>-<date>.zip` in the exports directory: one piece, so the
      exports listing, which wants two or three `_`-separated pieces, never shows it. */
  lemma ArchiveNotListed(exportsDir: Path, filePrefix: string, dateText: string)
    requires '_' !in filePrefix && '_' !in dateText
    ensures PE.ArchivePath(exportsDir + [filePrefix + "-" + dateText]) == exportsDir + [filePrefix + "-" + dateText + Filenames.ZipSuffix]
    ensures Filenames.Decode(Basename(PE.ArchivePath(exportsDir + [filePrefix + "-" + dateText]))).None?
  {
    var root := exportsDir + [filePrefix + "-" + dateText];
    assert root[..|root| - 1] == exportsDir;
    Filenames.HyphenatedNameNotDecoded(filePrefix, dateText);
  }

  /** The disk work of `start`: the working directory made when missing, then the logo copied into it
      when it exists at that point. The logo shipped, or the empty path, comes back. */
  method MakeRoot(fs: FileSystem, root: Path, logo: Path) returns (shipped: Path)
    requires |root| > 0
    modifies fs
    ensures shipped == ShippedLogo(PE.MkdirsIfMissing(old(fs.entries), root), logo)
    ensures fs.entries == PE.StartLayout(old(fs.entries), root, shipped)
    ensures root in fs.entries && Confined(old(fs.entries), fs.entries, root)
  {
    if root !in fs.entries {
      fs.MakeDirs(root);
      WithDirsConfined(old(fs.entries), root, root);
    }
    shipped := if logo != [] && logo in fs.entries then logo else [];
    if shipped != [] {
      ghost var made := fs.entries;
      var dst := Disk.Join(root, Basename(logo));
      fs.Copy(logo, dst);
      assert Under(root, dst);
      TouchedConfined(made, fs.entries, dst, root);
      ConfinedTrans(old(fs.entries), made, fs.entries, root);
    }
  }

  /** One turn of the episode loop of `addCollection`: the episode's image copied into `images` and
      its media file into `media`, then both local paths unset on the episode object. A path already
      unset makes PHP throw, after the image is copied when it is the media file's. */
  method StripEpisode(fs: FileSystem, e: Models.Episode, images: Path, media: Path, ghost root: Path) returns (r: Outcome)
    requires Under(root, images) && Under(root, media)
    modifies fs, e
    ensures r.Pass? <==> old(e.localImage).Some? && old(e.localFilename).Some?
    ensures r.Fail? ==> r == Fail(NullSource)
    ensures r.Pass? ==> fs.entries == PE.CopyAll(old(fs.entries), PE.EpisodeCopy(old(PE.FilesOf(e)), images, media))
    ensures r.Pass? ==> fs.copies == old(fs.copies) + PE.EpisodeCopy(old(PE.FilesOf(e)), images, media)
    ensures r.Pass? ==> e.localImage.None? && e.localFilename.None?
    ensures Confined(old(fs.entries), fs.entries, root)
  {
    if e.localImage.None? {
      return Fail(NullSource);
    }
    var imageDst := Disk.Join(images, e.image);
    fs.Copy(e.localImage.value, imageDst);
    UnderChild(root, images, e.image);
    TouchedConfined(old(fs.entries), fs.entries, imageDst, root);
    if e.localFilename.None? {
      return Fail(NullSource);
    }
    ghost var copied := fs.entries;
    var mediaDst := Disk.Join(media, e.filename);
    fs.Copy(e.localFilename.value, mediaDst);
    UnderChild(root, media, e.filename);
    TouchedConfined(copied, fs.entries, mediaDst, root);
    ConfinedTrans(old(fs.entries), copied, fs.entries, root);
    PE.CopyAllPair(old(fs.entries), [], (e.localImage.value, imageDst), (e.localFilename.value, mediaDst));
    assert [] + [(e.localImage.value, imageDst), (e.localFilename.value, mediaDst)] == [(e.localImage.value, imageDst), (e.localFilename.value, mediaDst)];
    e.localImage := None;
    e.localFilename := None;
    r := Pass;
  }

  /** The episode loop of `addCollection` has stripped the first `i` episodes: they all had both local
      paths, none of them twice, and every later episode not among them still has its own. */
  ghost predicate StrippedUpTo(episodes: seq<Models.Episode>, locals: seq<Locals>, i: nat)
    requires i <= |episodes| == |locals|
    reads episodes
  {
    AllLocal(locals[..i]) && NoRepeats(episodes[..i])
    && (forall j :: 0 <= j < i ==> episodes[j].localImage.None? && episodes[j].localFilename.None?)
    && (forall j :: i <= j < |episodes| && episodes[j] !in episodes[..i] ==>
          episodes[j].localImage == locals[j].image && episodes[j].localFilename == locals[j].filename)
  }

  /** The `i`th turn of the episode loop. */
  method StripAt(fs: FileSystem, episodes: seq<Models.Episode>, i: nat, images: Path, media: Path, ghost root: Path,
                 ghost files: seq<PE.EpisodeFiles>, ghost locals: seq<Locals>)
    returns (r: Outcome)
    requires i < |episodes| == |locals| == |files| && StrippedUpTo(episodes, locals, i)
    requires Under(root, images) && Under(root, media)
    requires files[i] == PE.EpisodeFiles(episodes[i].title, PE.Source(locals[i].image), episodes[i].image,
                                         PE.Source(locals[i].filename), episodes[i].filename)
    modifies fs, episodes[i]
    ensures r.Fail? ==> r == Fail(NullSource) && !(AllLocal(locals) && NoRepeats(episodes))
    ensures r.Pass? ==> StrippedUpTo(episodes, locals, i + 1)
    ensures r.Pass? ==> fs.entries == PE.CopyAll(old(fs.entries), PE.EpisodeCopy(files[i], images, media))
    ensures r.Pass? ==> fs.copies == old(fs.copies) + PE.EpisodeCopy(files[i], images, media)
    ensures Confined(old(fs.entries), fs.entries, root)
  {
    var e := episodes[i];
    ghost var repeated := e in episodes[..i];
    assert !repeated ==> PE.FilesOf(e) == files[i];
    r := StripEpisode(fs, e, images, media, root);
    if r.Fail? {
      assert !AllLocal(locals) || !NoRepeats(episodes) by {
        if repeated {
          var j :| 0 <= j < i && episodes[..i][j] == e;
          assert episodes[j] == episodes[i];
        } else {
          assert !(locals[i].image.Some? && locals[i].filename.Some?);
        }
      }
      return;
    }
    assert !repeated;
    assert episodes[..i + 1] == episodes[..i] + [e];
    assert locals[..i + 1] == locals[..i] + [locals[i]];
  }

  /** The episode loop of `addCollection`. An episode reached with a path already unset, by an
      earlier export or earlier in this list, makes PHP throw. */
  method StripEpisodes(fs: FileSystem, episodes: seq<Models.Episode>, images: Path, media: Path, ghost root: Path,
                       ghost files: seq<PE.EpisodeFiles>, ghost locals: seq<Locals>)
    returns (r: Outcome)
    requires Under(root, images) && Under(root, media) && |files| == |episodes| && |locals| == |episodes|
    requires forall i :: 0 <= i < |episodes| ==> locals[i] == Locals(episodes[i].localImage, episodes[i].localFilename)
    requires forall i :: 0 <= i < |episodes| ==> files[i] == PE.FilesOf(episodes[i])
    modifies fs, episodes
    ensures r.Pass? <==> AllLocal(locals) && NoRepeats(episodes)
    ensures r.Fail? ==> r == Fail(NullSource)
    ensures r.Pass? ==> fs.entries == PE.CopyAll(old(fs.entries), PE.EpisodeCopies(files, images, media))
    ensures r.Pass? ==> fs.copies == old(fs.copies) + PE.EpisodeCopies(files, images, media)
    ensures r.Pass? ==> Stripped(episodes)
    ensures Confined(old(fs.entries), fs.entries, root)
  {
    assert forall i :: 0 <= i < |episodes| ==> files[i] == PE.EpisodeFiles(episodes[i].title, PE.Source(locals[i].image),
      episodes[i].image, PE.Source(locals[i].filename), episodes[i].filename);
    assert locals[..0] == [] && episodes[..0] == [];
    ghost var done: seq<(Path, Path)> := [];
    for i := 0 to |episodes|
      invariant done == PE.EpisodeCopies(files[..i], images, media)
      invariant fs.entries == PE.CopyAll(old(fs.entries), done) && fs.copies == old(fs.copies) + done
      invariant Confined(old(fs.entries), fs.entries, root)
      invariant StrippedUpTo(episodes, locals, i)
    {
      ghost var before := fs.entries;
      r := StripAt(fs, episodes, i, images, media, root, files, locals);
      if r.Fail? {
        return;
      }
      ConfinedTrans(old(fs.entries), before, fs.entries, root);
      ghost var pair := PE.EpisodeCopy(files[i], images, media);
      PE.CopyAllAppend(old(fs.entries), done, pair);
      PE.EpisodeCopiesStep(files, i, images, media);
      AppendAssoc(old(fs.copies), done, pair);
      done := done + pair;
    }
    r := Pass;
    assert files[..|episodes|] == files;
    assert episodes[..|episodes|] == episodes && locals[..|episodes|] == locals;
  }

  class ContentExporter {
    const fs: FileSystem
    const exportsDir: Path

    var currentLocale: string
    var exportFilename: string
    var dirs: PE.Directories
    var mainData: map<string, Json>
    var languageData: seq<PE.Language>
    /** What `APP_LOGO` is set to: `content/` and the logo's name once a logo has been shipped. */
    var logoPath: string
    var providedLocales: seq<string>
    /** The calls made so far. */
    ghost var calls: seq<Call>

    ghost predicate Valid()
      reads this`mainData, this`languageData, this`providedLocales
    {
      ("content" in mainData ==> mainData["content"].JList?)
      && PE.DistinctTexts(languageData)
      && Models.Distinct(providedLocales)
    }

    /** The working directories are those of the current locale, all of them made below the root. */
    predicate InLocale()
      reads this
    {
      |dirs.exportRoot| > 0 && dirs == PE.LocaleDirs(dirs.exportRoot, currentLocale, false)
    }

    constructor (fs: FileSystem, exportsDir: Path)
      ensures this.fs == fs && this.exportsDir == exportsDir
      ensures currentLocale == "en" && exportFilename == "" && dirs == PE.Directories([], [], [], [], [])
      ensures mainData == map[] && languageData == [] && logoPath == "" && providedLocales == []
      ensures calls == [] && Valid()
    {
      this.fs := fs;
      this.exportsDir := exportsDir;
      currentLocale := "en";
      exportFilename := "";
      dirs := PE.Directories([], [], [], [], []);
      mainData := map[];
      languageData := [];
      logoPath := "";
      providedLocales := [];
      calls := [];
    }

    /** `start`: a fresh manifest and language list, the working directory `prefix-date` made when
        missing, and the logo copied into it when it exists. The provided locales and, when no logo
        is shipped, the logo reference stay as they were. */
    method Start(itemName: string, filePrefix: string, dateText: string, logo: Path)
      requires Valid()
      modifies this`mainData, this`languageData, this`exportFilename, this`dirs, this`logoPath, this`calls, fs
      ensures Valid()
      ensures mainData == map["itemName" := JStr(itemName), "content" := JList([])] && languageData == []
      ensures exportFilename == filePrefix + "-" + dateText
      ensures dirs == old(dirs).(exportRoot := exportsDir + [exportFilename])
      ensures fs.entries == PE.StartLayout(old(fs.entries), dirs.exportRoot,
                                           ShippedLogo(PE.MkdirsIfMissing(old(fs.entries), dirs.exportRoot), logo))
      ensures logoPath == if ShippedLogo(PE.MkdirsIfMissing(old(fs.entries), dirs.exportRoot), logo) != []
                          then PE.LogoDir + Basename(logo) else old(logoPath)
      ensures dirs.exportRoot in fs.entries && Confined(old(fs.entries), fs.entries, dirs.exportRoot)
      ensures calls == old(calls) + [Started(itemName, filePrefix)]
    {
      var name := filePrefix + "-" + dateText;
      var root := Disk.Join(exportsDir, name);
      var shipped := MakeRoot(fs, root, logo);
      Reset(itemName, filePrefix, name, shipped);
    }

    /** The bookkeeping of `start`, once the working directory is made and `shipped` is the logo copied into it. */
    method Reset(itemName: string, filePrefix: string, name: string, shipped: Path)
      requires Models.Distinct(providedLocales)
      modifies this`mainData, this`languageData, this`exportFilename, this`dirs, this`logoPath, this`calls
      ensures Valid()
      ensures mainData == map["itemName" := JStr(itemName), "content" := JList([])] && languageData == []
      ensures exportFilename == name && dirs == old(dirs).(exportRoot := exportsDir + [name])
      ensures logoPath == if shipped != [] then PE.LogoDir + Basename(shipped) else old(logoPath)
      ensures calls == old(calls) + [Started(itemName, filePrefix)]
    {
      if shipped != [] {
        logoPath := PE.LogoDir + Basename(shipped);
      }
      mainData := map["itemName" := JStr(itemName), "content" := JList([])];
      languageData := [];
      exportFilename := name;
      dirs := dirs.(exportRoot := exportsDir + [name]);
      calls := calls + [Started(itemName, filePrefix)];
    }

    /** The bookkeeping of `startLocale`: the current locale, the provided locales and the directories. */
    method EnterLocale(locale: string, interface: Json) returns (r: Outcome)
      requires Valid() && |dirs.exportRoot| > 0
      modifies this`currentLocale, this`providedLocales, this`dirs, this`calls
      ensures Valid() && currentLocale == locale && dirs.exportRoot == old(dirs.exportRoot)
      ensures calls == old(calls) + [LocaleStarted(locale)]
      ensures r.Fail? <==> PE.WithLogo(interface, logoPath).Err?
      ensures r.Fail? ==> r == Fail(PE.WithLogo(interface, logoPath).message)
      ensures r.Fail? ==> dirs == old(dirs) && providedLocales == old(providedLocales)
      ensures r.Pass? ==> InLocale() && providedLocales == Models.AddUnique(old(providedLocales), locale)
      ensures r.Pass? ==> dirs.localeRoot == dirs.exportRoot + [locale]
    {
      currentLocale := locale;
      calls := calls + [LocaleStarted(locale)];
      var withLogo := PE.WithLogo(interface, logoPath);
      if withLogo.Err? {
        return Fail(withLogo.message);
      }
      providedLocales := Models.AddUnique(providedLocales, locale);
      dirs := PE.LocaleDirs(dirs.exportRoot, locale, false);
      r := Pass;
    }

    /** `startLocale`: the interface texts take the logo reference (an interface that is a scalar makes
        PHP throw), the locale is listed once, and its directory is laid out with `data/interface.json`,
        `images/` and `media/`. */
    method StartLocale(locale: string, interface: Json) returns (r: Outcome)
      requires Valid() && |dirs.exportRoot| > 0 && dirs.exportRoot in fs.entries
      modifies this`currentLocale, this`providedLocales, this`dirs, this`calls, fs
      ensures Valid() && currentLocale == locale && dirs.exportRoot == old(dirs.exportRoot)
      ensures calls == old(calls) + [LocaleStarted(locale)]
      ensures r.Fail? <==> PE.WithLogo(interface, logoPath).Err?
      ensures r.Fail? ==> r == Fail(PE.WithLogo(interface, logoPath).message)
      ensures r.Fail? ==> fs.entries == old(fs.entries) && dirs == old(dirs) && providedLocales == old(providedLocales)
      ensures r.Pass? ==> InLocale() && providedLocales == Models.AddUnique(old(providedLocales), locale)
      ensures r.Pass? ==> fs.entries == PE.LocaleLayout(old(fs.entries), dirs.localeRoot, PE.WithLogo(interface, logoPath).value, false)
      ensures dirs.exportRoot in fs.entries && Confined(old(fs.entries), fs.entries, dirs.exportRoot)
      ensures fs.copies == old(fs.copies)
    {
      r := EnterLocale(locale, interface);
      if r.Fail? {
        return;
      }
      PE.LayOutLocale(fs, dirs.exportRoot, locale, PE.WithLogo(interface, logoPath).value, false);
    }

    /** The rest of `addCollection` once its episodes are done: the data file, the collection's image,
        and the manifest entry. */
    method WriteCollection(c: LegacyModels.Collection, data: Json, entry: Json)
      requires Valid() && Under(dirs.exportRoot, dirs.exportData) && Under(dirs.exportRoot, dirs.exportImages)
      modifies fs, this`mainData
      ensures Valid()
      ensures fs.entries == Copied(Put(old(fs.entries), dirs.exportData + [c.slug + ".json"], data), c.localImage, dirs.exportImages + [c.image])
      ensures fs.copies == old(fs.copies) + [(c.localImage, dirs.exportImages + [c.image])]
      ensures mainData == PE.AppendContent(old(mainData), entry)
      ensures Confined(old(fs.entries), fs.entries, dirs.exportRoot)
    {
      var path := Disk.Join(dirs.exportData, c.slug + ".json");
      fs.PutJson(path, data);
      UnderChild(dirs.exportRoot, dirs.exportData, c.slug + ".json");
      TouchedConfined(old(fs.entries), fs.entries, path, dirs.exportRoot);
      ghost var written := fs.entries;
      var imageDst := Disk.Join(dirs.exportImages, c.image);
      fs.Copy(c.localImage, imageDst);
      UnderChild(dirs.exportRoot, dirs.exportImages, c.image);
      TouchedConfined(written, fs.entries, imageDst, dirs.exportRoot);
      ConfinedTrans(old(fs.entries), written, fs.entries, dirs.exportRoot);
      mainData := PE.AppendContent(mainData, entry);
    }

    /** `addCollection`: each episode's image and media file copied in, the collection's data file
        (its episodes encoded without local paths), its image copied in and one manifest entry without
        episodes. The shallow clone shares the episode objects, so their local paths end up unset on
        the collection itself; a collection whose episodes were already stripped, or that lists one
        episode twice, makes PHP throw. */
    method AddCollection(c: LegacyModels.Collection) returns (r: Outcome)
      requires Valid() && InLocale()
      modifies fs, this`mainData, this`calls, c.episodes
      ensures Valid() && calls == old(calls) + [CollectionAdded(c)]
      ensures r.Pass? <==> AllLocal(old(LocalsOf(c.episodes))) && NoRepeats(old(c.episodes))
      ensures r.Fail? ==> r == Fail(NullSource) && mainData == old(mainData)
      ensures r.Pass? ==> Stripped(old(c.episodes))
      ensures r.Pass? ==> mainData == PE.AppendContent(old(mainData), JObj(old(CollectionEntry(c))))
      ensures r.Pass? ==> fs.entries == CollectionLayout(old(fs.entries), dirs, c.slug,
                                          JObj(old(CollectionJson(c, Models.EpisodeArrays(c.episodes, false, true)))),
                                          old(PE.EpisodeFilesOf(c.episodes)), c.localImage, c.image)
      ensures r.Pass? ==> fs.copies == old(fs.copies) + PE.EpisodeCopies(old(PE.EpisodeFilesOf(c.episodes)), dirs.exportImages, dirs.exportMedia)
                                                       + [(c.localImage, dirs.exportImages + [c.image])]
      ensures Confined(old(fs.entries), fs.entries, dirs.exportRoot)
    {
      ghost var files := PE.EpisodeFilesOf(c.episodes);
      ghost var locals := LocalsOf(c.episodes);
      var data := CollectionJson(c, Models.EpisodeArrays(c.episodes, false, true));
      var entry := CollectionEntry(c);
      r := AddCollectionRead(c, JObj(data), JObj(entry), files, locals);
    }

    /** The work of `addCollection` on the collection's arrays as they were when the call began. */
    method AddCollectionRead(c: LegacyModels.Collection, data: Json, entry: Json, ghost files: seq<PE.EpisodeFiles>,
                             ghost locals: seq<Locals>)
      returns (r: Outcome)
      requires Valid() && InLocale()
      requires |files| == |c.episodes| && |locals| == |c.episodes|
      requires forall i :: 0 <= i < |c.episodes| ==> locals[i] == Locals(c.episodes[i].localImage, c.episodes[i].localFilename)
      requires forall i :: 0 <= i < |c.episodes| ==> files[i] == PE.FilesOf(c.episodes[i])
      modifies fs, this`mainData, this`calls, c.episodes
      ensures Valid() && calls == old(calls) + [CollectionAdded(c)]
      ensures r.Pass? <==> AllLocal(locals) && NoRepeats(c.episodes)
      ensures r.Fail? ==> r == Fail(NullSource) && mainData == old(mainData)
      ensures r.Pass? ==> Stripped(c.episodes)
      ensures r.Pass? ==> mainData == PE.AppendContent(old(mainData), entry)
      ensures r.Pass? ==> fs.entries == CollectionLayout(old(fs.entries), dirs, c.slug, data, files, c.localImage, c.image)
      ensures r.Pass? ==> fs.copies == old(fs.copies) + PE.EpisodeCopies(files, dirs.exportImages, dirs.exportMedia)
                                                       + [(c.localImage, dirs.exportImages + [c.image])]
      ensures Confined(old(fs.entries), fs.entries, dirs.exportRoot)
    {
      PE.LocaleDirsBelowRoot(dirs.exportRoot, currentLocale, false);
      calls := calls + [CollectionAdded(c)];
      var d := dirs;
      r := StripEpisodes(fs, c.episodes, d.exportImages, d.exportMedia, d.exportRoot, files, locals);
      if r.Fail? {
        return;
      }
      ghost var stripped := fs.entries;
      WriteCollection(c, data, entry);
      ConfinedTrans(old(fs.entries), stripped, fs.entries, d.exportRoot);
      AppendAssoc(old(fs.copies), PE.EpisodeCopies(files, d.exportImages, d.exportMedia), [(c.localImage, d.exportImages + [c.image])]);
    }

    /** `addLanguage`: a language is listed once, by its text. */
    method AddLanguage(language: PE.Language)
      requires Valid()
      modifies this`languageData, this`calls
      ensures Valid() && languageData == PE.AddByText(old(languageData), language)
      ensures calls == old(calls) + [LanguageAdded(language.text)]
    {
      var exists_ := false;
      for i := 0 to |languageData|
        invariant exists_ <==> exists j :: 0 <= j < i && languageData[j].text == language.text
      {
        if languageData[i].text == language.text {
          exists_ := true;
        }
      }
      if !exists_ {
        languageData := languageData + [language];
      }
      calls := calls + [LanguageAdded(language.text)];
    }

    /** `addSingle`: the single's data file, its image and media file copied in, and the same clone
        appended to the manifest. */
    method AddSingle(s: LegacyModels.Single)
      requires Valid() && InLocale()
      modifies fs, this`mainData, this`calls
      ensures Valid() && calls == old(calls) + [SingleAdded(s)]
      ensures mainData == PE.AppendContent(old(mainData), JObj(SingleJson(s)))
      ensures fs.entries == PE.CopyAll(Put(old(fs.entries), dirs.exportData + [s.slug + ".json"], JObj(SingleJson(s))),
                                       [(s.localImage, dirs.exportImages + [s.image]), (s.localFilename, dirs.exportMedia + [s.filename])])
      ensures fs.copies == old(fs.copies) + [(s.localImage, dirs.exportImages + [s.image]), (s.localFilename, dirs.exportMedia + [s.filename])]
      ensures Confined(old(fs.entries), fs.entries, dirs.exportRoot)
    {
      var data := JObj(SingleJson(s));
      AddSingleRead(s, data);
    }

    /** The work of `addSingle` on the single's clone as it was encoded when the call began. */
    method AddSingleRead(s: LegacyModels.Single, data: Json)
      requires Valid() && InLocale()
      modifies fs, this`mainData, this`calls
      ensures Valid() && calls == old(calls) + [SingleAdded(s)]
      ensures mainData == PE.AppendContent(old(mainData), data)
      ensures fs.entries == PE.CopyAll(Put(old(fs.entries), dirs.exportData + [s.slug + ".json"], data),
                                       [(s.localImage, dirs.exportImages + [s.image]), (s.localFilename, dirs.exportMedia + [s.filename])])
      ensures fs.copies == old(fs.copies) + [(s.localImage, dirs.exportImages + [s.image]), (s.localFilename, dirs.exportMedia + [s.filename])]
      ensures Confined(old(fs.entries), fs.entries, dirs.exportRoot)
    {
      PE.LocaleDirsBelowRoot(dirs.exportRoot, currentLocale, false);
      calls := calls + [SingleAdded(s)];
      var path := Disk.Join(dirs.exportData, s.slug + ".json");
      fs.PutJson(path, data);
      UnderChild(dirs.exportRoot, dirs.exportData, s.slug + ".json");
      TouchedConfined(old(fs.entries), fs.entries, path, dirs.exportRoot);
      ghost var written := fs.entries;
      var imageDst := Disk.Join(dirs.exportImages, s.image);
      var mediaDst := Disk.Join(dirs.exportMedia, s.filename);
      UnderChild(dirs.exportRoot, dirs.exportImages, s.image);
      UnderChild(dirs.exportRoot, dirs.exportMedia, s.filename);
      CopyBoth(fs, dirs.exportRoot, (s.localImage, imageDst), (s.localFilename, mediaDst));
      ConfinedTrans(old(fs.entries), written, fs.entries, dirs.exportRoot);
      mainData := PE.AppendContent(mainData, data);
    }

    /** `finishLocale`: `main.json` written from the manifest, which then starts over empty. */
    method FinishLocale()
      requires Valid() && InLocale()
      modifies fs, this`mainData, this`calls
      ensures Valid() && mainData == map[] && calls == old(calls) + [LocaleFinished]
      ensures fs.entries == Put(old(fs.entries), dirs.exportData + ["main.json"], PE.ManifestJson(old(mainData)))
      ensures Confined(old(fs.entries), fs.entries, dirs.exportRoot) && fs.copies == old(fs.copies)
    {
      PE.LocaleDirsBelowRoot(dirs.exportRoot, currentLocale, false);
      var path := Disk.Join(dirs.exportData, "main.json");
      fs.PutJson(path, PE.ManifestJson(mainData));
      UnderChild(dirs.exportRoot, dirs.exportData, "main.json");
      TouchedConfined(old(fs.entries), fs.entries, path, dirs.exportRoot);
      mainData := map[];
      calls := calls + [LocaleFinished];
    }

    /** `finish`: `languages.json`, the archive next to the working directory (when `ZipArchive`
        writes it), then every provided locale's directory and the working directory removed. Only
        the archive is left behind. */
    method Finish(zipWritten: bool)
      requires |dirs.exportRoot| > 0 && dirs.exportRoot in fs.entries
      modifies fs, this`calls
      ensures calls == old(calls) + [Finished]
      ensures fs.entries == Without(PE.ZipLayout(Put(old(fs.entries), dirs.exportRoot + ["languages.json"],
                                                     PE.LanguagesJson(languageData)), dirs.exportRoot, zipWritten), dirs.exportRoot)
      ensures PE.ExportLeft(old(fs.entries), fs.entries, dirs.exportRoot, zipWritten)
      ensures fs.copies == old(fs.copies)
    {
      var root := dirs.exportRoot;
      var languages := PE.LanguagesJson(languageData);
      fs.PutJson(Disk.Join(root, "languages.json"), languages);
      assert root in fs.entries;
      fs.ZipTree(root, PE.ArchivePath(root), zipWritten);
      assert root in fs.entries;
      PE.RemoveWorkingDir(fs, root, providedLocales);
      PE.ExportLeaves(old(fs.entries), old(fs.entries), root, languages, zipWritten);
      calls := calls + [Finished];
    }
  }

  /** The constructor: it refuses an exports directory that does not exist. */
  method NewContentExporter(fs: FileSystem, exportsDir: Path) returns (r: Result<ContentExporter>)
    ensures r.Err? <==> exportsDir !in fs.entries
    ensures r.Err? ==> r.message == PE.ExportsDirMissing
    ensures r.Ok? ==> fresh(r.value) && r.value.fs == fs && r.value.exportsDir == exportsDir
    ensures r.Ok? ==> r.value.Valid() && r.value.calls == [] && r.value.providedLocales == [] && r.value.logoPath == ""
  {
    if exportsDir !in fs.entries {
      return Err(PE.ExportsDirMissing);
    }
    var exporter := new ContentExporter(fs, exportsDir);
    r := Ok(exporter);
  }
}
