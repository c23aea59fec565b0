/** The first exporter: one locale's collections laid out directly below a working directory
    `name-date`, a manifest written, and then the whole directory removed again. It makes no
    archive. Without strict types, a local path that an earlier clone unset reaches `copy` as the
    empty string, and PHP 8 throws a `ValueError` for it. */
module OldestExporting {
  import opened Wrappers
  import opened Json
  import opened Disk
  import Models
  import Filenames
  import PE = PackageExporting
  import LE = LegacyExporting

  /** The manifest's fixed item name. */
  const ExportedData: string := "Exported Data"

  /** What PHP 8 throws when `copy` is handed the empty string as its source. */
  const EmptyPath: string := "Path cannot be empty"

  /** The directories `start` names: data, images and media directly below the root, and a locale
      directory that is named but never made. */
  function OldestDirs(root: Path, locale: string): (d: PE.Directories)
    ensures d.exportRoot == root && d.localeRoot == root + [locale]
    ensures Under(root, d.exportData) && Under(root, d.exportImages) && Under(root, d.exportMedia)
  {
    assert (root + ["data"])[..|root|] == root && (root + ["images"])[..|root|] == root;
    assert (root + ["media"])[..|root|] == root;
    PE.Directories(root, root + [locale], root + ["data"], root + ["images"], root + ["media"])
  }

  /** What `start` leaves on disk: the root made when missing, then `data/`, `images/` and `media/`
      each made when missing. */
  function StartLayout(entries: map<Path, Node>, root: Path): map<Path, Node>
    requires |root| > 0
  {
    var made := PE.MkdirsIfMissing(entries, root);
    PE.MkdirIfMissing(PE.MkdirIfMissing(PE.MkdirIfMissing(made, root + ["data"]), root + ["images"]), root + ["media"])
  }

  /** `json_encode` of a collection's clone. */
  function CollectionJson(c: Models.Collection): (data: map<string, Json>)
    reads c, c.episodes
  {
    c.Projection(false, true)["storedSlug" := JStr(c.storedSlug)]
  }

  /** The clone the manifest lists: the same without `episodes`. */
  function CollectionEntry(c: Models.Collection): (data: map<string, Json>)
    reads c, c.episodes
  {
    CollectionJson(c) - {"episodes"}
  }

  /** The data file holds every public property of the collection but `localImage`, `recommended` only
      when it is set, and each episode with all its public properties but the two local paths; the
      manifest entry holds the same but `episodes`. */
  lemma ClonedCollection(c: Models.Collection)
    ensures CollectionJson(c).Keys == Models.CollectionKeys + (if c.recommended then {"recommended"} else {}) + {"imageUrl", "storedSlug"}
    ensures CollectionJson(c)["storedSlug"] == JStr(c.storedSlug)
    ensures CollectionJson(c)["episodes"].JList? && |CollectionJson(c)["episodes"].items| == |c.episodes|
    ensures forall i :: 0 <= i < |c.episodes| ==> CollectionJson(c)["episodes"].items[i] == JObj(c.episodes[i].AsArray(false, true))
    ensures CollectionEntry(c).Keys == CollectionJson(c).Keys - {"episodes"}
    ensures forall k :: k in CollectionEntry(c) ==> CollectionEntry(c)[k] == CollectionJson(c)[k]
  {
    var p := c.Projection(false, true);
    assert "storedSlug" != "episodes";
    assert CollectionJson(c)["episodes"] == p["episodes"];
  }

  /** The files the episode loop actually copies: an episode object met a second time has had its
      local paths unset, so it copies from the empty path. */
  function Reached(episodes: seq<Models.Episode>, files: seq<PE.EpisodeFiles>): (r: seq<PE.EpisodeFiles>)
    requires |files| == |episodes|
    ensures |r| == |files|
    ensures forall i :: 0 <= i < |files| && episodes[i] !in episodes[..i] ==> r[i] == files[i]
    ensures forall i :: 0 <= i < |files| && episodes[i] in episodes[..i] ==>
      r[i] == files[i].(localImage := [], localFilename := [])
  {
    seq(|files|, i requires 0 <= i < |files| =>
      if episodes[i] in episodes[..i] then files[i].(localImage := [], localFilename := []) else files[i])
  }

  /** An episode list that can be stripped reaches `copy` with its own files. */
  lemma ReachedOwnFiles(episodes: seq<Models.Episode>, files: seq<PE.EpisodeFiles>)
    requires |files| == |episodes| && LE.NoRepeats(episodes)
    ensures Reached(episodes, files) == files
  {
    forall i | 0 <= i < |files|
      ensures Reached(episodes, files)[i] == files[i]
    {
      assert episodes[i] !in episodes[..i];
    }
  }

  /** An episode listed twice reaches `copy` the second time with the empty path, which `copy`
      refuses. */
  lemma RepeatReachesEmpty(episodes: seq<Models.Episode>, files: seq<PE.EpisodeFiles>)
    requires |files| == |episodes| && !LE.NoRepeats(episodes)
    ensures exists i :: 0 <= i < |files| && Reached(episodes, files)[i].localImage == []
  {
    var i, j :| 0 <= i < j < |episodes| && episodes[i] == episodes[j];
    assert episodes[..j][i] == episodes[j];
    assert Reached(episodes, files)[j].localImage == [];
  }

  /** The episode loop of `addCollection`: each episode's image and media file copied in, then both
      of its local paths unset. It is the older exporter's loop, but without strict types an unset
      path reaches `copy` as the empty string, which throws `EmptyPath` rather than a `TypeError`:
      for an episode whose paths an earlier call unset, and for one listed twice. */
  method VisitEpisodes(fs: FileSystem, episodes: seq<Models.Episode>, images: Path, media: Path, ghost root: Path,
                       ghost files: seq<PE.EpisodeFiles>, ghost locals: seq<LE.Locals>)
    returns (r: Outcome)
    requires Under(root, images) && Under(root, media) && |files| == |episodes| && |locals| == |episodes|
    requires forall i :: 0 <= i < |episodes| ==> locals[i] == LE.Locals(episodes[i].localImage, episodes[i].localFilename)
    requires forall i :: 0 <= i < |episodes| ==> files[i] == PE.FilesOf(episodes[i])
    modifies fs, episodes
    ensures r.Pass? <==> LE.AllLocal(locals) && LE.NoRepeats(episodes)
    ensures r.Fail? ==> r == Fail(EmptyPath)
    ensures r.Pass? ==> fs.entries == PE.CopyAll(old(fs.entries), PE.EpisodeCopies(files, images, media))
    ensures r.Pass? ==> fs.copies == old(fs.copies) + PE.EpisodeCopies(files, images, media)
    ensures r.Pass? ==> LE.Stripped(episodes)
    ensures Confined(old(fs.entries), fs.entries, root)
  {
    r := LE.StripEpisodes(fs, episodes, images, media, root, files, locals);
    if r.Fail? {
      r := Fail(EmptyPath);
    }
  }

  /** `finish` after work confined to the root: nothing is left of the root, nothing else changed but
      the root's ancestors, and no archive appears. */
  lemma NothingLeft(before: map<Path, Node>, mid: map<Path, Node>, root: Path, manifest: Json)
    requires |root| > 0 && Confined(before, mid, root)
    ensures PE.ExportLeft(before, Without(Put(mid, root + ["data", "main.json"], manifest), root), root, false)
  {
    var file := root + ["data", "main.json"];
    var put := Put(mid, file, manifest);
    assert file[..|root|] == root;
    TouchedConfined(mid, put, file, root);
    ConfinedTrans(before, mid, put, root);
    var zip := PE.ArchivePath(root);
    PE.ArchiveOutsideRoot(root);
    assert |zip| == |root| && zip != root by {
      assert |zip[|root| - 1]| == |root[|root| - 1]| + |Filenames.ZipSuffix|;
    }
    assert !Under(zip, root);
  }

  class ContentExporter {
    const fs: FileSystem
    const exportsDir: Path

    var exportFilename: string
    var dirs: PE.Directories
    var mainData: map<string, Json>

    ghost predicate Valid()
      reads this`mainData
    {
      "content" in mainData ==> mainData["content"].JList?
    }

    /** `start` has named the directories. */
    predicate Started()
      reads this`dirs
    {
      |dirs.exportRoot| > 0 && Under(dirs.exportRoot, dirs.exportData)
      && Under(dirs.exportRoot, dirs.exportImages) && Under(dirs.exportRoot, dirs.exportMedia)
    }

    constructor (fs: FileSystem, exportsDir: Path)
      ensures this.fs == fs && this.exportsDir == exportsDir && exportFilename == ""
      ensures dirs == PE.Directories([], [], [], [], []) && mainData == map[] && Valid()
    {
      this.fs := fs;
      this.exportsDir := exportsDir;
      exportFilename := "";
      dirs := PE.Directories([], [], [], [], []);
      mainData := map[];
    }

    /** `start`: a fresh manifest, the working directory `name-date` and its three directories made
        when missing. */
    method Start(locale: string, name: string, dateText: string)
      modifies this`mainData, this`exportFilename, this`dirs, fs
      ensures Valid() && Started()
      ensures mainData == map["itemName" := JStr(ExportedData), "content" := JList([])]
      ensures exportFilename == name + "-" + dateText
      ensures dirs == OldestDirs(exportsDir + [exportFilename], locale)
      ensures fs.entries == StartLayout(old(fs.entries), dirs.exportRoot)
      ensures dirs.exportRoot in fs.entries && Confined(old(fs.entries), fs.entries, dirs.exportRoot)
      ensures fs.copies == old(fs.copies)
    {
      var root := Disk.Join(exportsDir, name + "-" + dateText);
      MakeLayout(fs, root);
      mainData := map["itemName" := JStr(ExportedData), "content" := JList([])];
      exportFilename := name + "-" + dateText;
      dirs := OldestDirs(root, locale);
    }

    /** `addCollection`: each episode's image and media file copied in, the collection's data file, its
        image copied in and one manifest entry without episodes: `1 + 2n` copies for `n` episodes. The
        shallow clone shares the episode objects, so their local paths end up unset on the collection
        itself; a collection whose episodes were already stripped, or that lists one episode twice,
        throws in the episode loop, before the data file, the image and the manifest entry. */
    method AddCollection(c: Models.Collection) returns (r: Outcome)
      requires Valid() && Started()
      modifies fs, this`mainData, c.episodes
      ensures Valid() && dirs == old(dirs)
      ensures r.Pass? <==> LE.AllLocal(old(LE.LocalsOf(c.episodes))) && LE.NoRepeats(old(c.episodes))
      ensures r.Fail? ==> r == Fail(EmptyPath) && mainData == old(mainData)
      ensures r.Pass? ==> LE.Stripped(old(c.episodes))
      ensures r.Pass? ==> mainData == PE.AppendContent(old(mainData), JObj(old(CollectionEntry(c))))
      ensures r.Pass? ==> fs.entries == LE.CollectionLayout(old(fs.entries), old(dirs), c.slug, JObj(old(CollectionJson(c))),
                                                            old(PE.EpisodeFilesOf(c.episodes)), c.localImage, c.image)
      ensures r.Pass? ==> fs.copies == old(fs.copies) + PE.EpisodeCopies(old(PE.EpisodeFilesOf(c.episodes)), old(dirs.exportImages), old(dirs.exportMedia))
                                                       + [(c.localImage, old(dirs.exportImages) + [c.image])]
      ensures r.Pass? ==> |fs.copies| == |old(fs.copies)| + 1 + 2 * |old(c.episodes)|
      ensures Confined(old(fs.entries), fs.entries, old(dirs.exportRoot))
    {
      var entry := CollectionEntry(c);
      var data := CollectionJson(c);
      ghost var files := PE.EpisodeFilesOf(c.episodes);
      ghost var locals := LE.LocalsOf(c.episodes);
      r := AddCollectionRead(c, JObj(data), JObj(entry), files, locals);
    }

    /** The work of `addCollection` on the collection's arrays as they were when the call began. */
    method AddCollectionRead(c: Models.Collection, data: Json, entry: Json, ghost files: seq<PE.EpisodeFiles>,
                             ghost locals: seq<LE.Locals>)
      returns (r: Outcome)
      requires Valid() && Started()
      requires |files| == |c.episodes| && forall i :: 0 <= i < |c.episodes| ==> files[i] == PE.FilesOf(c.episodes[i])
      requires |locals| == |c.episodes|
      requires forall i :: 0 <= i < |c.episodes| ==> locals[i] == LE.Locals(c.episodes[i].localImage, c.episodes[i].localFilename)
      modifies fs, this`mainData, c.episodes
      ensures Valid() && dirs == old(dirs)
      ensures r.Pass? <==> LE.AllLocal(locals) && LE.NoRepeats(c.episodes)
      ensures r.Fail? ==> r == Fail(EmptyPath) && mainData == old(mainData)
      ensures r.Pass? ==> LE.Stripped(c.episodes)
      ensures r.Pass? ==> mainData == PE.AppendContent(old(mainData), entry)
      ensures r.Pass? ==> fs.entries == LE.CollectionLayout(old(fs.entries), dirs, c.slug, data, files, c.localImage, c.image)
      ensures r.Pass? ==> fs.copies == old(fs.copies) + PE.EpisodeCopies(files, dirs.exportImages, dirs.exportMedia)
                                                       + [(c.localImage, dirs.exportImages + [c.image])]
      ensures r.Pass? ==> |fs.copies| == |old(fs.copies)| + 1 + 2 * |c.episodes|
      ensures Confined(old(fs.entries), fs.entries, dirs.exportRoot)
    {
      r := ExportCollection(fs, c.episodes, files, locals, c.slug, data, c.localImage, c.image, dirs);
      if r.Pass? {
        mainData := PE.AppendContent(mainData, entry);
      }
    }

    /** `finish`: `main.json` written, then the working directory removed with everything in it. */
    method Finish()
      requires Started() && dirs.exportData == dirs.exportRoot + ["data"] && dirs.exportRoot in fs.entries
      modifies fs
      ensures fs.entries == Without(Put(old(fs.entries), dirs.exportData + ["main.json"], PE.ManifestJson(mainData)), dirs.exportRoot)
      ensures forall q :: q in fs.entries ==> !Under(dirs.exportRoot, q) && q in old(fs.entries) && fs.entries[q] == old(fs.entries)[q]
      ensures fs.copies == old(fs.copies)
    {
      var path := Disk.Join(dirs.exportData, "main.json");
      fs.PutJson(path, PE.ManifestJson(mainData));
      assert dirs.exportRoot in fs.entries;
      fs.RemoveDirectory(dirs.exportRoot);
    }
  }

  /** The disk work of `addCollection`: the episodes visited, then, when none of them throws, the
      collection's data file written and its image copied in. */
  method ExportCollection(fs: FileSystem, episodes: seq<Models.Episode>, ghost files: seq<PE.EpisodeFiles>,
                          ghost locals: seq<LE.Locals>, slug: string, data: Json, localImage: Path, image: string,
                          d: PE.Directories)
    returns (r: Outcome)
    requires |d.exportRoot| > 0 && Under(d.exportRoot, d.exportData)
    requires Under(d.exportRoot, d.exportImages) && Under(d.exportRoot, d.exportMedia)
    requires |files| == |episodes| && forall i :: 0 <= i < |episodes| ==> files[i] == PE.FilesOf(episodes[i])
    requires |locals| == |episodes|
    requires forall i :: 0 <= i < |episodes| ==> locals[i] == LE.Locals(episodes[i].localImage, episodes[i].localFilename)
    modifies fs, episodes
    ensures r.Pass? <==> LE.AllLocal(locals) && LE.NoRepeats(episodes)
    ensures r.Fail? ==> r == Fail(EmptyPath)
    ensures r.Pass? ==> LE.Stripped(episodes)
    ensures r.Pass? ==> fs.entries == LE.CollectionLayout(old(fs.entries), d, slug, data, files, localImage, image)
    ensures r.Pass? ==> fs.copies == old(fs.copies) + PE.EpisodeCopies(files, d.exportImages, d.exportMedia)
                                                     + [(localImage, d.exportImages + [image])]
    ensures r.Pass? ==> |fs.copies| == |old(fs.copies)| + 1 + 2 * |episodes|
    ensures Confined(old(fs.entries), fs.entries, d.exportRoot)
  {
    r := VisitEpisodes(fs, episodes, d.exportImages, d.exportMedia, d.exportRoot, files, locals);
    if r.Fail? {
      return;
    }
    ghost var visited := fs.entries;
    var path := Disk.Join(d.exportData, slug + ".json");
    fs.PutJson(path, data);
    UnderChild(d.exportRoot, d.exportData, slug + ".json");
    TouchedConfined(visited, fs.entries, path, d.exportRoot);
    ghost var written := fs.entries;
    var imageDst := Disk.Join(d.exportImages, image);
    fs.Copy(localImage, imageDst);
    UnderChild(d.exportRoot, d.exportImages, image);
    TouchedConfined(written, fs.entries, imageDst, d.exportRoot);
    ConfinedTrans(visited, written, fs.entries, d.exportRoot);
    ConfinedTrans(old(fs.entries), visited, fs.entries, d.exportRoot);
    Text.AppendAssoc(old(fs.copies), PE.EpisodeCopies(files, d.exportImages, d.exportMedia), [(localImage, d.exportImages + [image])]);
  }

  /** The disk work of `start`. */
  method MakeLayout(fs: FileSystem, root: Path)
    requires |root| > 0
    modifies fs
    ensures fs.entries == StartLayout(old(fs.entries), root)
    ensures root in fs.entries && Confined(old(fs.entries), fs.entries, root)
    ensures fs.copies == old(fs.copies)
  {
    if root !in fs.entries {
      fs.MakeDirs(root);
      WithDirsConfined(old(fs.entries), root, root);
    }
    ghost var made := fs.entries;
    MakeChild(fs, root, "data");
    ghost var withData := fs.entries;
    ConfinedTrans(old(fs.entries), made, withData, root);
    MakeChild(fs, root, "images");
    ghost var withImages := fs.entries;
    ConfinedTrans(old(fs.entries), withData, withImages, root);
    MakeChild(fs, root, "media");
    ConfinedTrans(old(fs.entries), withImages, fs.entries, root);
  }

  /** `mkdir` of a directory just below the root, guarded by `file_exists`. */
  method MakeChild(fs: FileSystem, root: Path, name: string)
    requires |root| > 0
    modifies fs
    ensures fs.entries == PE.MkdirIfMissing(old(fs.entries), root + [name])
    ensures Confined(old(fs.entries), fs.entries, root) && fs.copies == old(fs.copies)
    ensures root in old(fs.entries) ==> root in fs.entries
  {
    var dir := Disk.Join(root, name);
    if dir !in fs.entries {
      fs.MakeDir(dir);
    }
    UnderChild(root, root, name);
    TouchedConfined(old(fs.entries), fs.entries, dir, root);
  }

  /** The constructor: it refuses an exports directory that does not exist. */
  method NewContentExporter(fs: FileSystem, exportsDir: Path) returns (r: Result<ContentExporter>)
    ensures r.Err? <==> exportsDir !in fs.entries
    ensures r.Err? ==> r.message == PE.ExportsDirMissing
    ensures r.Ok? ==> fresh(r.value) && r.value.fs == fs && r.value.exportsDir == exportsDir && r.value.Valid()
  {
    if exportsDir !in fs.entries {
      return Err(PE.ExportsDirMissing);
    }
    var exporter := new ContentExporter(fs, exportsDir);
    r := Ok(exporter);
  }
}
