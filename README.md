# mediabuilder export pipeline, in Dafny

The mediabuilder site keeps its media library (collections of episodes, singles, packages and
courses) in a Bolt CMS database. The `exporter:export` console command turns each package of
that library into a self-contained ZIP archive that the MM Interface (the offline media player
the archives are made for) can load. For every supported language the package has content for,
the archive holds a manifest `main.json`, one JSON data file per collection or single, the
interface texts and, in the full form, copies of the images and media. The command writes a
progress log as it goes. The exports store and the media listing then read the archive names
back, so that users can download, rename or delete the archives.

This project models that pipeline in all three generations the repository still carries:

- **Current generation.** These modules model it:
  - `Filenames`, `ExportsStore` and `ExportMedia`: the archive-name codec and the two listings built on it.
  - `Models`: the content objects and their JSON projections.
  - `PackageExporting.PackageExporter`: the exporter, in full and slim form.
  - `Logging.FileLogger`: the progress log.
  - `ExportCommands.ExportCommand`: the command.
- **Previous generation.** These modules model it:
  - `LegacyModels`: its own package, collection and single.
  - `LegacyExporting.ContentExporter`: its exporter.
  - `Logging.LegacyFileLogger`: its log.
  - `LegacyExportCommands.ExportCommand`: its command.
- **Oldest exporter.** `OldestExporting.ContentExporter` models it.
- **Shared modules.** `Config` holds both settings lookups and `Zip` the recursive archive walk. The two copies of `ExtendedZip` differ only in layout and type declarations.
- **Supporting modules.**
  - `Disk`: the filesystem, a map from paths to directories and files.
  - `Json`: JSON and YAML values, as a tree.
  - `Text`: `explode`, `implode`, `basename` and `strcmp`.
  - `Wrappers`: `Option`, `Result` and `Outcome`.

Objects the PHP code updates in place are Dafny classes whose methods state their whole new state:

- the packages, collections and singles;
- the exporters with their manifest, language list and call history;
- the loggers;
- the filesystem.

Pure computations are functions:

- the filename codec;
- the settings lookups;
- the JSON projections;
- the archive walk;
- the listings.

Each loop of the source is a method with its invariants. Each method is proved against a function or a predicate that says what the source promises, for example:

- `buildPackages` keeps exactly the packages that own something;
- `export` makes the calls `start`, then each visited locale's calls, then `finish`;
- `finish` leaves nothing of the working directory behind;
- decoding an archive name undoes `getFilename`.

The lemmas relate these specifications to one another and to the source's documented intent.

Inputs that PHP reads from outside the program are parameters:

- the store and repository answers;
- the clock, and the formatting and parsing of dates;
- the outcome of writing a ZIP archive;
- the order in which `readdir` and `glob` return names.

Thrown exceptions and PHP errors are `Fail`/`Err` values that carry PHP's message.

## Model

| member | source | states |
|---|---|---|
| Text.StripSuffix | src/Stores/PackageExportsStore.php:177 | `basename($filename, '.zip')` cuts the suffix exactly when the name ends with it and is longer than it; otherwise the name is unchanged |
| Text.LastPiece | src/Utilities/PackageExporter.php:205 | `basename` of a name keeps no `/`, and leaves a name without `/` unchanged |
| Text.LastPieceAfter | src/Utilities/PackageExporter.php:205 | `basename` drops everything up to and including the last `/` |
| Text.SplitJoin | src/Stores/PackageExportsStore.php:177 | `explode` on a one-character separator undoes `implode` when no part holds the separator |
| Text.SortedList | src/Stores/PackageExportsStore.php:99 | the listing of a finite set of names is strictly increasing in `strcmp` order and holds exactly the set's members |
| Text.SortStrings | src/Stores/PackageExportsStore.php:99 | picking the least remaining name until none is left yields the sorted listing `SortedList` |
| Text.StrictlySortedUnique | src/Utilities/ExportMedia.php:84 | two strictly sorted sequences with the same members are equal, so a sorted listing is fixed by its set |
| Json.TypeName | src/Stores/PackageExportsStore.php:156 | the type PHP names in a `TypeError` is `string` exactly for a string and `array` exactly for a list or a map |
| Filenames.Filename | src/Stores/PackageExportsStore.php:156-166 | the name ends with `.zip`, starts with `slim_` when slim, and holds the `_` of the slug and the date plus one separator, or two when slim |
| Filenames.Decode | src/Stores/PackageExportsStore.php:177-188 | a name decodes exactly when its stem holds one or two `_`; two means slim; no decoded piece holds `_` |
| Filenames.RoundTrip | src/Stores/PackageExportsStore.php:156-185 | a slug and date text free of `_` decode back from their name, slim flag included |
| Filenames.SlimMarkerUnchecked | src/Stores/PackageExportsStore.php:182-185 | with three pieces the first one is never compared with `slim`: any marker gives a slim export of the second piece |
| Filenames.DecodeSplit | src/Stores/PackageExportsStore.php:177-188 | decoding a name is: two pieces give slug and date, not slim; three give slug and date from pieces 1 and 2, slim; anything else is rejected |
| Filenames.MisparseUnderscoreSlug | src/Stores/PackageExportsStore.php:177-185 | the full export of a slug `a_b` reads back as a slim export of slug `b` |
| Filenames.UnderscoreSlugDropped | src/Stores/PackageExportsStore.php:177-188 | a full export whose slug holds two or more `_`, or a slim one whose slug holds any, is not listed at all |
| Filenames.HyphenatedNameNotDecoded | src/Exporter/Utilities/ContentExporter.php:134-135 | an archive named `<prefix>-<date>.zip`, as the older exporter names its root, has a single piece and is never listed |
| ExportsStore.BuildExport | src/Stores/PackageExportsStore.php:175-201 | an undecodable name gives no export; a decodable one with an unparsable date piece throws the constructor's type error; otherwise the export carries the name, its absolute and public paths, the slim flag, the date, and the looked-up package or the placeholder `Package(slug, slug)` |
| ExportsStore.BuildAllStep | src/Stores/PackageExportsStore.php:99-104 | one loop step: an error ends the listing, otherwise a built export joins those before it |
| ExportsStore.BuildEach | src/Stores/PackageExportsStore.php:99-106 | the loop over the glob result returns `BuildAll` of the names |
| ExportsStore.OfSlug | src/Stores/PackageExportsStore.php:122-126 | an export is kept exactly when it is listed and its package slug is the given one |
| ExportsStore.OfSlugEmpty | src/Stores/PackageExportsStore.php:70 | the slug's exports are empty exactly when no listed export has that slug |
| ExportsStore.FilterSlug | src/Stores/PackageExportsStore.php:121-128 | the loop returns `OfSlug` of the listing, in listed order |
| ExportsStore.UnlinkEach | src/Stores/PackageExportsStore.php:66-68 | the entries afterwards are those left by unlinking each path in turn |
| ExportsStore.RenameEach | src/Stores/PackageExportsStore.php:140-144 | the entries afterwards are those left by renaming each export in turn to its new name |
| ExportsStore.Store.constructor | src/Stores/PackageExportsStore.php:44-54 | the store keeps its directory, the public prefix, the date parser and the package lookup |
| ExportsStore.Store.FindAll | src/Stores/PackageExportsStore.php:93-107 | the result is the listing: nothing for a missing directory, else the decodable archives in glob order, or the first error |
| ExportsStore.Store.FindBySlug | src/Stores/PackageExportsStore.php:116-129 | the result is the listing filtered to the slug, order kept, or the listing's error |
| ExportsStore.Store.Destroy | src/Stores/PackageExportsStore.php:63-71 | a failing listing changes nothing; otherwise each export of the slug is unlinked and the answer is whether none of the slug is listed afterwards |
| ExportsStore.Store.DestroyAll | src/Stores/PackageExportsStore.php:78-86 | a failing listing changes nothing; otherwise every listed export is unlinked and the answer is whether the listing is empty afterwards |
| ExportsStore.Store.UpdateSlug | src/Stores/PackageExportsStore.php:137-145 | a failing listing changes nothing; otherwise each export of the old slug is renamed in listed order to `getFilename(new, date, isSlim)`, and exports with the same slim flag share that target |
| ExportsStore.BuildAllOk | src/Stores/PackageExportsStore.php:99-104 | the listing fails exactly when some name decodes to a date that does not parse |
| ExportsStore.BuildAllMember | src/Stores/PackageExportsStore.php:99-104 | an export is listed exactly when one of the names builds it |
| ExportsStore.BuildAllOrdered | src/Stores/PackageExportsStore.php:99-104 | the listed exports keep the order of their names |
| ExportsStore.ListingOk | src/Stores/PackageExportsStore.php:93-107 | `findAll` fails exactly when some archive in the directory decodes to an unparsable date |
| ExportsStore.ListingMember | src/Stores/PackageExportsStore.php:93-107 | an export is listed exactly when its archive sits in the directory, fits `*.zip` and decodes to it |
| ExportsStore.ListingOrdered | src/Stores/PackageExportsStore.php:99 | the listing is in glob order: filenames strictly increasing in `strcmp` order |
| ExportsStore.UnlinkAllEffect | src/Stores/PackageExportsStore.php:66-68 | unlinking keeps every entry it does not remove and removes exactly the regular files named |
| ExportsStore.ListedPath | src/Stores/PackageExportsStore.php:194-200 | a listed export's absolute path is the directory joined with its filename, and it exists |
| ExportsStore.ListingAfterUnlink | src/Stores/PackageExportsStore.php:63-71 | after unlinking listed exports, the listing still succeeds and holds exactly the exports not removed |
| ExportsStore.LeftListingOk | src/Stores/PackageExportsStore.php:70 | removing entries never makes a successful listing fail |
| ExportsStore.DestroyAnswer | src/Stores/PackageExportsStore.php:63-71 | `destroy` answers true exactly when every export of the slug was a regular file, and exports of other slugs stay listed |
| ExportsStore.SamePathSameExport | src/Stores/PackageExportsStore.php:194-200 | two listed exports with the same archive path are the same export |
| ExportsStore.DestroyAllAnswer | src/Stores/PackageExportsStore.php:78-86 | `destroyAll` answers true exactly when every listed archive was a regular file |
| ExportsStore.RenameKeepsSlim | src/Stores/PackageExportsStore.php:141-143 | each renamed export's new name reads back as the new slug with the same slim flag |
| ExportsStore.BuildExportSkipping | src/Stores/PackageExportsStore.php:175-201 | corrected `buildExport`: it never throws; it builds an export exactly when the name decodes and its date parses, and then builds the same export as the code as written |
| ExportsStore.UnparsableDateThrows | src/Stores/PackageExportsStore.php:181-194 | as written, one archive whose name decodes to a date the format rejects makes the listing throw the constructor's type error; the corrected listing passes over it |
| ExportsStore.BuildAllSkippingOk | src/Stores/PackageExportsStore.php:99-104 | the corrected listing loop never fails |
| ExportsStore.BuildAllSkippingMember | src/Stores/PackageExportsStore.php:99-104 | the corrected listing holds exactly the exports built from names that decode and whose date parses |
| ExportsStore.BuildAllSkippingAgrees | src/Stores/PackageExportsStore.php:99-104 | wherever the listing as written succeeds, the corrected one gives the same exports |
| ExportsStore.ListingSkippingMember | src/Stores/PackageExportsStore.php:93-107 | the corrected `findAll` never fails and lists exactly the `*.zip` archives in the directory that decode and carry a date the format accepts |
| ExportsStore.RenameOverwrites | src/Stores/PackageExportsStore.php:137-145 | two exports of the old slug with the same slim flag get the same new name, and after renaming both the target holds the later one's archive and neither old path remains |
| Config.Index | src/Utilities/Config.php:52-53 | `isset($content[$key])` yields a member only when it is present and non-null; on a map it succeeds exactly when the key is set; on a string exactly when the key reads as a 64-bit integer naming a position, a negative one counted from the end |
| Config.IntegerOffset | src/Utilities/Config.php:52-53 | a string key is an integer offset only when, blanks aside, it is an optional sign and digits whose value fits in 64 bits |
| Config.StringPosition | src/Utilities/Config.php:52-53 | an offset names a character exactly when it lies between minus the length and the length; a negative one counts from the end |
| Config.SignedUnpadded | src/Utilities/Config.php:52-53 | a sign followed by digits has no blank to skip |
| Config.NegatedDigits | src/Utilities/Config.php:52-53 | `-` followed by digits reads as the negated number |
| Config.IntegerKeyOffset | src/Utilities/Config.php:52-53 | a key that names a list position names the same position of a string |
| Config.NegativeOffset | src/Utilities/Config.php:52-53 | a key `-n` gives the `n`-th character from the end of a string at least `n` long |
| Config.BlankAroundOffset | src/Utilities/Config.php:52-53 | blanks around an offset are skipped: `" 1\n"` reads the second character |
| Config.SignedPaddedOffset | src/Utilities/Config.php:52-53 | a `+` sign and leading zeros are read past: `"+01"` reads the second character |
| Config.FractionNotOffset | src/Utilities/Config.php:52-53 | a fraction such as `"1.0"` is not an integer offset, so it reads nothing |
| Config.Settings.constructor | src/Utilities/Config.php:26-37 | the settings hold the parsed YAML document |
| Config.Settings.Get | src/Utilities/Config.php:47-60 | the loop over the `/`-separated segments returns the lookup `Walk` of the whole path from the configuration with the given default |
| Config.LegacySettings.constructor | src/Exporter/Utilities/Config.php:23-34 | the settings hold the parsed YAML document |
| Config.LegacySettings.Get | src/Exporter/Utilities/Config.php:41-53 | the loop over the segments returns the older lookup `LegacyWalk`, in which a miss gives null |
| Config.WalkFindsNested | src/Utilities/Config.php:51-53 | when every segment is set, the result is the nested value, whatever the default |
| Config.NullCountsAsMissing | src/Utilities/Config.php:52-55 | a key whose value is null counts as missing: the walk restarts from the default |
| Config.ScalarDefaultReturned | src/Utilities/Config.php:54-56 | after a miss, a null, boolean or integer default is returned unchanged for any remaining segments |
| Config.MissDescendsDefault | src/Utilities/Config.php:54-57 | after a miss the remaining segments index into the default, so an array default holding them is descended |
| Config.LegacyIsNullDefault | src/Exporter/Utilities/Config.php:41-53 | the older lookup equals the newer one with a null default |
| Config.LegacyMissStaysNull | src/Exporter/Utilities/Config.php:46-50 | in the older lookup, a path with any missing segment gives null |
| Config.LegacyFindsNested | src/Exporter/Utilities/Config.php:45-48 | in the older lookup, a path whose segments are all set gives the nested value |
| Disk.ZipNamesMember | src/Stores/PackageExportsStore.php:99 | a name is matched by the `*.zip` glob of a directory exactly when that directory holds an entry of that name ending in `.zip` and not starting with a dot |
| Disk.Without | src/Utilities/PackageExporter.php:417-434 | a recursive delete keeps exactly the entries outside the deleted directory, unchanged |
| Disk.WithDirs | src/Utilities/PackageExporter.php:206-207 | `mkdir` with `recursive` keeps every existing entry, adds only directories on the path, and leaves the path itself present |
| Disk.Unlinked | src/Stores/PackageExportsStore.php:67 | `unlink` removes a regular file and nothing else; any other path is left as it was |
| Disk.Renamed | src/Stores/PackageExportsStore.php:143 | `rename` moves a regular file onto any target that is not a directory, replacing a file there and removing the source; it moves a directory with everything below it onto a missing or empty directory outside itself, leaving every other entry as it was; any other `rename` fails and changes nothing |
| Disk.MovedDirSpec | src/Stores/PackageExportsStore.php:143 | a moved directory leaves no source behind, every entry below it reappears at the same place below the target, entries outside both are kept, and nothing else appears |
| Disk.MadeDir | src/Utilities/PackageExporter.php:242-243 | `mkdir` without `recursive` creates the directory only inside an existing directory and where nothing exists; only that path can change |
| Disk.Put | src/Utilities/PackageExporter.php:247 | `file_put_contents` writes the JSON document when the parent is a directory and the target is not one; only that path can change |
| Disk.Copied | src/Utilities/PackageExporter.php:289 | `copy` duplicates a regular file into an existing directory; otherwise nothing changes; only the target can change |
| Disk.FileSystem.constructor | src/Utilities/PackageExporter.php:118 | the filesystem starts with the given entries and no recorded copies |
| Disk.FileSystem.MakeDirs | src/Utilities/PackageExporter.php:206-207 | the new entries are `WithDirs` of the old ones, and a path that was missing is a directory afterwards |
| Disk.FileSystem.MakeDir | src/Utilities/PackageExporter.php:242-243 | the new entries are `MadeDir` of the old ones |
| Disk.FileSystem.PutJson | src/Utilities/PackageExporter.php:247 | the new entries are `Put` of the old ones |
| Disk.FileSystem.Copy | src/Utilities/PackageExporter.php:289 | the new entries are `Copied` of the old ones, and the call is appended to the copy record whether or not it succeeds |
| Disk.FileSystem.Unlink | src/Stores/PackageExportsStore.php:67 | the new entries are `Unlinked` of the old ones |
| Disk.FileSystem.Rename | src/Stores/PackageExportsStore.php:143 | the new entries are `Renamed` of the old ones: a regular file or a whole directory moves |
| Disk.FileSystem.RemoveDirectory | src/Utilities/PackageExporter.php:417-434 | a missing directory is a no-op; otherwise the directory and everything below it are gone and nothing else changes |
| Disk.FileSystem.ZipTree | src/Utilities/PackageExporter.php:370-374 | the archive appears at the zip path exactly when the archive writer produced it; nothing else changes |
| Disk.FileSystem.Glob | src/Stores/PackageExportsStore.php:99 | the glob returns the matching names sorted in byte order |
| Models.AddUnique | src/Models/Collection.php:143-148 | adding with a strict `in_array` check keeps the list as a prefix, adds the value at most once, leaves a list already holding it unchanged, and keeps a list free of duplicates |
| Models.WithRecommended | src/Models/Collection.php:204-206 | the `recommended` key is added, as `true`, exactly when the flag is set; every other key is kept |
| Models.WithImageUrl | src/Models/Collection.php:207-209 | a slim collection gains exactly the `imageUrl` key; every other key is kept |
| Models.WithUrls | src/Models/Single.php:220-223 | a slim export gains exactly the `imageUrl` and `resourceUrl` keys; every other key is kept |
| Models.SingleFields | src/Models/Single.php:206-216 | a single's array has exactly the nine fixed keys, holding its slug, image and file names |
| Models.Episode.constructor | src/Models/Episode.php:108-134 | the episode keeps its fields, its image and file names are the basenames of the local paths, and it has no tags |
| Models.Episode.AddTag | src/Models/Episode.php:142-147 | a tag is added once, in order; the local paths are unchanged |
| Models.Episode.AsArray | src/Models/Episode.php:157-184 | the manifest form keeps only `title`; the full form has the eight keys with the episode's own values; slim adds the two URLs |
| Models.NewEpisode | src/Models/Episode.php:117-123 | construction fails with the image message when the image is missing, else with the file message when the file is missing, and succeeds exactly when both exist |
| Models.EpisodeArrays | src/Models/Collection.php:210-212 | the episodes' arrays, one per episode, in order and with the same flags |
| Models.Collection.constructor | src/Models/Collection.php:115-136 | the slug gets the `collection-` prefix and the given slug is stored apart; the image name is the basename; the lists are empty and the collection belongs to no package |
| Models.Collection.AddCategory | src/Models/Collection.php:143-148 | a category is added once, in order; the other lists are unchanged |
| Models.Collection.AddEpisode | src/Models/Collection.php:155-158 | an episode is appended, whatever is already there |
| Models.Collection.AddPackage | src/Models/Collection.php:165-170 | a package slug is added once; afterwards the collection belongs to it and to exactly the packages it belonged to before |
| Models.Collection.AddTag | src/Models/Collection.php:177-182 | a tag is added once, in order; the other lists are unchanged |
| Models.Collection.Projection | src/Models/Collection.php:192-214 | the array has the eight fixed keys, plus `recommended` when set and `imageUrl` when slim; `episodes` holds each episode's array with the same flags, in order |
| Models.Collection.AsArray | src/Models/Collection.php:192-214 | the loop builds exactly `Projection` |
| Models.NewCollection | src/Models/Collection.php:124-126 | construction fails, with the collection image message, exactly when the image is missing |
| Models.Single.constructor | src/Models/Single.php:130-158 | the single keeps its fields, its image and file names are the basenames, the lists are empty and it belongs to no package |
| Models.Single.AddCategory | src/Models/Single.php:166-171 | a category is added once, in order; the other lists are unchanged |
| Models.Single.AddPackage | src/Models/Single.php:178-183 | a package slug is added once; afterwards the single belongs to it and to exactly the packages it belonged to before |
| Models.Single.AddTag | src/Models/Single.php:190-195 | a tag is added once, in order; the other lists are unchanged |
| Models.Single.AsArray | src/Models/Single.php:204-225 | nine keys always, `recommended` only when set, both URLs only when slim |
| Models.NewSingle | src/Models/Single.php:141-146 | construction fails with the image message when the image is missing, else with the file message when the file is missing, and succeeds exactly when both exist |
| Models.Package.constructor | src/Models/Package.php:55-61 | a new package is empty and has content for no locale |
| Models.Package.AddCollection | src/Models/Package.php:69-77 | the collection is appended to its locale's list, other locales are unchanged, the locale is listed once, and the package is no longer empty |
| Models.Package.AddSingle | src/Models/Package.php:84-92 | the single is appended to its locale's list, other locales are unchanged, the locale is listed once, and the package is no longer empty |
| Models.Package.AddSupportedLocale | src/Models/Package.php:154-159 | the locale is added once, in order; the content is unchanged |
| Models.HasContentIffItems | src/Models/Package.php:134-137 | a locale has content exactly when something is listed under it |
| Models.EmptyIffNoLocale | src/Models/Package.php:144-147 | a package is empty exactly when it supports no locale |
| Models.Course.constructor | src/Models/Course.php:62-72 | the course keeps its fields and starts with no tags and the pretty form `[]` |
| Models.Course.AddTag | src/Models/Course.php:79-85 | a tag is added once and the pretty form is rebuilt from the tags |
| Models.PrettyTags | src/Models/Course.php:92-103 | the pretty form is bracketed, and is `[]` exactly when there are no tags |
| Models.PrettyTagsRoundTrip | src/Models/Course.php:92-103 | tags without commas are read back from their pretty form |
| Models.QuotesNotEscaped | src/Models/Course.php:99-102 | quotes are not escaped: one tag holding `","` prints like two tags |
| Models.LocalFieldsNeverProjected | src/Models/Collection.php:192-214 | the local paths, the stored slug and the package list never reach an exported array, whatever the flags |
| LegacyModels.AddLooseUnique | src/Exporter/Models/Package.php:149-154 | adding with a loose `in_array` check leaves the list unchanged when some listed value loosely equals the new one, else appends it; either way it is loosely listed afterwards |
| LegacyModels.ListedStays | src/Exporter/Models/Package.php:149-154 | appending to the locale list keeps every loosely listed locale listed |
| LegacyModels.LooseInIsMembership | src/Exporter/Models/Package.php:130 | for a locale code that is not a digit string, the loose search is plain membership |
| LegacyModels.Package.constructor | src/Exporter/Models/Package.php:53-60 | a new package is empty and has content for no locale |
| LegacyModels.Package.AddCollection | src/Exporter/Models/Package.php:68-76 | the collection is appended to its locale's list, other locales are unchanged, the locale is added with the loose check, and the package is no longer empty |
| LegacyModels.Package.AddSingle | src/Exporter/Models/Package.php:83-91 | the single is appended to its locale's list, other locales are unchanged, the locale is added with the loose check, and the package is no longer empty |
| LegacyModels.Package.AddSupportedLocale | src/Exporter/Models/Package.php:149-154 | the locale is added with the loose check; the content is unchanged |
| LegacyModels.HasContentIffItems | src/Exporter/Models/Package.php:128-131 | for a locale code that is not a digit string, a locale has content exactly when something is listed under it |
| LegacyModels.LooseLocaleMatch | src/Exporter/Models/Package.php:128-131 | the loose search lets a locale never added count as supported: content under `1` answers for `01` |
| LegacyModels.Collection.constructor | src/Exporter/Models/Collection.php:99-117 | unlike the current collection, the slug is kept as given; the image name is the basename; the lists are empty and it belongs to no package |
| LegacyModels.Collection.AddCategory | src/Exporter/Models/Collection.php:124-129 | a category is added once, in order; the other lists are unchanged |
| LegacyModels.Collection.AddEpisode | src/Exporter/Models/Collection.php:136-139 | an episode is appended, whatever is already there |
| LegacyModels.Collection.AddPackage | src/Exporter/Models/Collection.php:146-151 | a package slug is added once; afterwards the collection belongs to it and to exactly the packages it belonged to before |
| LegacyModels.Collection.AddTag | src/Exporter/Models/Collection.php:158-163 | a tag is added once, in order; the other lists are unchanged |
| LegacyModels.NewCollection | src/Exporter/Models/Collection.php:107-109 | construction fails, with the collection image message, exactly when the image is missing |
| LegacyModels.Single.constructor | src/Exporter/Models/Single.php:114-139 | the single keeps its fields, its image and file names are the basenames, the lists are empty and it belongs to no package |
| LegacyModels.Single.AddCategory | src/Exporter/Models/Single.php:146-151 | a category is added once, in order; the other lists are unchanged |
| LegacyModels.Single.AddPackage | src/Exporter/Models/Single.php:158-163 | a package slug is added once; afterwards the single belongs to it and to exactly the packages it belonged to before |
| LegacyModels.Single.AddTag | src/Exporter/Models/Single.php:170-175 | a tag is added once, in order; the other lists are unchanged |
| LegacyModels.NewSingle | src/Exporter/Models/Single.php:123-128 | construction fails with the image message when the image is missing, else with the file message when the file is missing, and succeeds exactly when both exist |
| Logging.EntryJson | src/Utilities/FileLogger.php:76-82 | a record is written as a JSON object, with a `counter` key exactly when the record carries one |
| Logging.EntryRoundTrip | src/Utilities/FileLogger.php:76-82 | reading a written record gives back the same record |
| Logging.LogRoundTrip | src/Utilities/FileLogger.php:153-156 | reading the file written by `save` gives back exactly the records logged, in order |
| Logging.LogOnlyGrows | src/Utilities/FileLogger.php:83-84 | records are only appended: the file read after more calls starts with the records read before |
| Logging.FileLogger.constructor | src/Utilities/FileLogger.php:49-58 | the leftover log file is deleted: no records, counter 0, no file |
| Logging.FileLogger.IncreaseCounter | src/Utilities/FileLogger.php:63-66 | the counter goes up by one; records and file are unchanged |
| Logging.FileLogger.ReduceCounter | src/Utilities/FileLogger.php:137-140 | the counter goes down by one; records and file are unchanged |
| Logging.FileLogger.ResetCounter | src/Utilities/FileLogger.php:145-148 | the counter is 0; records and file are unchanged |
| Logging.FileLogger.Log | src/Utilities/FileLogger.php:73-88 | one ordinary record with the current counter is appended and the file then reads back as all records |
| Logging.FileLogger.LogFinished | src/Utilities/FileLogger.php:95-110 | one completed record `<process> has completed!` with the current counter is appended and the file reads back as all records |
| Logging.FileLogger.LogError | src/Utilities/FileLogger.php:117-132 | one error record with the current counter is appended and the file reads back as all records |
| Logging.FileLogger.Save | src/Utilities/FileLogger.php:153-156 | the file is replaced by the encoding of the whole list, which reads back as the records |
| Logging.LegacyFileLogger.constructor | src/Exporter/Utilities/FileLogger.php:36-45 | the leftover log file is deleted: no records, no file |
| Logging.LegacyFileLogger.Log | src/Exporter/Utilities/FileLogger.php:54-70 | one ordinary record without a counter is appended and the file reads back as all records |
| Logging.LegacyFileLogger.LogFinished | src/Exporter/Utilities/FileLogger.php:77-93 | one completed record whose message is `FINISHED` is appended, whatever the process name |
| Logging.LegacyFileLogger.LogError | src/Exporter/Utilities/FileLogger.php:100-116 | one error record without a counter is appended and the file reads back as all records |
| Logging.LegacyFileLogger.Save | src/Exporter/Utilities/FileLogger.php:119-122 | the file is replaced by the encoding of the whole list |
| Zip.ExtendedZip.constructor | src/Utilities/ExtendedZip.php:72-73 | a freshly opened archive holds nothing |
| Zip.ExtendedZip.AddTree | src/Utilities/ExtendedZip.php:21-27 | the archive gains the local name's directory when the name is truthy, then the walk of the tree, after what it held |
| Zip.ExtendedZip.AddTreeBelow | src/Utilities/ExtendedZip.php:35-56 | the archive gains the walk `ListDir` of the directory: the loop stops at an entry named `0`, skips `.` and `..`, adds each directory and recurses, adds each file, and ignores anything else |
| Zip.ZipTree | src/Utilities/ExtendedZip.php:66-76 | the archive holds exactly what `addTree` adds for the tree |
| Zip.ListedBelow | src/Utilities/ExtendedZip.php:45 | with a truthy local name every entry of the walk is stored below it |
| Zip.ListDirAgrees | src/Utilities/ExtendedZip.php:38 | when no entry anywhere in the tree is named `0`, the walk as written and the intended walk add the same entries |
| Zip.EveryFileListed | src/Utilities/ExtendedZip.php:38-53 | in the intended walk, every file directly in a directory, other than `.` and `..`, is added under its entry name |
| Zip.EverySubdirListed | src/Utilities/ExtendedZip.php:38-49 | in the intended walk, every sub-directory is added, and so is everything its own walk adds |
| Zip.ZeroNameStopsListing | src/Utilities/ExtendedZip.php:38 | as written, a directory entry named `0` ends the listing, so the files after it never reach the archive; the intended walk adds them |
| ExportMedia.MediaOf | src/Utilities/ExportMedia.php:49-75 | an undecodable name is skipped; a decodable one with an unparsable date throws from `format` on `false`; otherwise the row is filed under the decoded slug with the name, its public path, the slim flag, and the package's name or `''` when the package is unknown |
| ExportMedia.Slugs | src/Utilities/ExportMedia.php:65-67 | the dictionary's keys are exactly the slugs some decoded archive is filed under |
| ExportMedia.Grouped | src/Utilities/ExportMedia.php:65-68 | the `$files` dictionary has a key for exactly the slugs that occur |
| ExportMedia.InsertDesc | src/Utilities/ExportMedia.php:79-81 | inserting a row into the sorted rows adds exactly that row |
| ExportMedia.InsertDescSorted | src/Utilities/ExportMedia.php:79-81 | inserting into rows sorted newest first keeps them sorted newest first |
| ExportMedia.InsertDescStable | src/Utilities/ExportMedia.php:79-81 | among rows of one timestamp, the inserted row comes after those already there |
| ExportMedia.OfTime | src/Utilities/ExportMedia.php:80 | the rows of one timestamp are exactly the rows stamped with it |
| ExportMedia.SortDesc | src/Utilities/ExportMedia.php:79-81 | `uasort` by `$b['timestamp'] <=> $a['timestamp']` yields a permutation of the rows, sorted newest first |
| ExportMedia.SortDescStable | src/Utilities/ExportMedia.php:79-81 | the sort is stable: rows with the same timestamp keep their glob order |
| ExportMedia.SortedGroups | src/Utilities/ExportMedia.php:77-83 | each slug in the given order gets one group holding its rows sorted newest first |
| ExportMedia.MediaListing | src/Utilities/ExportMedia.php:42-87 | a successful listing has its groups in strictly increasing slug order and each group's rows newest first |
| ExportMedia.CollectStep | src/Utilities/ExportMedia.php:48-76 | one step of the glob loop: an error ends it, a skipped name adds nothing, a decoded name adds its row |
| ExportMedia.GroupedAppend | src/Utilities/ExportMedia.php:65-68 | filing one more row appends it to its slug's list, creating the list when the slug is new |
| ExportMedia.Gather | src/Utilities/ExportMedia.php:44-76 | the glob loop returns the first error, or the dictionary of rows grouped by slug in glob order |
| ExportMedia.SortGroups | src/Utilities/ExportMedia.php:77-84 | the two sorts give the groups in `strcmp` order of their slugs, each sorted newest first |
| ExportMedia.Media.constructor | src/Utilities/ExportMedia.php:27-31 | the listing keeps the package lookup |
| ExportMedia.Media.Get | src/Utilities/ExportMedia.php:42-87 | nothing for a missing directory; otherwise the collected rows grouped and sorted as `MediaListing` describes, or the first error |
| ExportMedia.CollectMember | src/Utilities/ExportMedia.php:48-76 | a row is collected exactly when one of the names decodes to it |
| ExportMedia.CollectOk | src/Utilities/ExportMedia.php:55-69 | collecting fails exactly when some decodable name has a date that does not parse |
| ExportMedia.GroupOfMember | src/Utilities/ExportMedia.php:65-68 | a row is in a slug's group exactly when it was filed under that slug |
| ExportMedia.MediaRowFiled | src/Utilities/ExportMedia.php:48-75 | every listed row comes from an archive in the directory whose name decodes to the slug of its group |
| ExportMedia.MediaFileListed | src/Utilities/ExportMedia.php:48-75 | every archive in the directory whose name decodes has its row in the group of its own slug |
| ExportMedia.CollectOnce | src/Utilities/ExportMedia.php:44-76 | the glob names never repeat, so each decoded archive is collected at most once |
| ExportMedia.GroupOfCount | src/Utilities/ExportMedia.php:65-75 | a slug's group holds a row as often as the decoded archives file it under that slug |
| ExportMedia.MediaFileOnce | src/Utilities/ExportMedia.php:44-84 | every archive in the directory that decodes has its row exactly once in the listing: once in its own slug's group and in no other |
| PackageExporting.DecodeLanguages | src/Utilities/PackageExporter.php:131-134 | the languages setting decodes only when it is a list, and then to one entry per item, each item decoded on its own |
| PackageExporting.DefaultLanguages | src/Constants.php:28-35 | the default setting decodes to English under `en`, with the codes `en-US` and `en`, marked as the default |
| PackageExporting.NoSettingMeansEnglish | src/Utilities/PackageExporter.php:131-134 | without an `exporter` section the exporter supports English alone |
| PackageExporting.AddByText | src/Utilities/PackageExporter.php:306-319 | a language whose text is already listed leaves the list unchanged, any other goes last; texts stay distinct and the language's text is listed afterwards |
| PackageExporting.InterfacePathSplit | src/Utilities/PackageExporter.php:160-163 | `exporter/interface/` followed by the locale code names the locale's entry below `exporter/interface` |
| PackageExporting.ArchiveNamed | src/Utilities/PackageExporter.php:204-205 | for a slug and date text free of `_` and `/`, the archive sits in the exports directory under the name `getFilename` gives, which the exports store decodes back to the slug, the date text and the slim flag |
| PackageExporting.ArchiveCutAtSlash | src/Utilities/PackageExporter.php:204-205 | a date text holding `/` (from a `d/m/Y` setting, say) names the working directory and the archive after its last `/`-piece alone; when that piece holds no `_` the exports store cannot decode the archive |
| PackageExporting.ResolvePlainHead | src/Commands/ExportCommand.php:123 | `Path::canonicalize` keeps a plain name as the next directory |
| PackageExporting.ResolveSkip | src/Commands/ExportCommand.php:123 | `Path::canonicalize` drops an empty or `.` segment |
| PackageExporting.ResolveJoined | src/Commands/ExportCommand.php:121-123 | reading a canonical directory's text back name by name stops at its last name, to which the glued text belongs |
| PackageExporting.ConcatGlued | src/Utilities/PackageExporter.php:126 | `canonicalize($dir . $tail)` resolves the directory's last name with the tail glued to it, from the directory's parent |
| PackageExporting.ConcatBelow | src/Commands/ExportCommand.php:121-123 | a setting that starts with `/` lands below the directory, as if the two were joined |
| PackageExporting.ConcatBeside | src/Commands/ExportCommand.php:121-123 | a tail `a/b` without the leading `/` makes `a` part of the directory's last name and `b` a directory below that |
| PackageExporting.ConcatSibling | src/Commands/ExportCommand.php:121-123 | a setting without the leading `/`, such as `files/exports` under `/app/public`, gives `/app/publicfiles/exports`, beside the public directory |
| PackageExporting.ArchiveOutsideRoot | src/Utilities/PackageExporter.php:375-388 | the archive `root.zip` never lies inside the working directory, so removing the directory keeps it |
| PackageExporting.DecimalString | src/Utilities/PackageExporter.php:233 | the key a list index gets when the list becomes an object is a non-empty digit string whose value is the index |
| PackageExporting.WithLogo | src/Utilities/PackageExporter.php:233 | adding `APP_LOGO` succeeds exactly when the interface texts are not `true`, a number or a string; the result is an object whose `APP_LOGO` is the logo reference, and an object keeps its other keys |
| PackageExporting.AppendContent | src/Utilities/PackageExporter.php:280 | appending to the manifest adds `content` if missing, puts the item last in it and keeps every other key |
| PackageExporting.MkdirIfMissing | src/Utilities/PackageExporter.php:238-245 | making a directory that may already exist changes nothing but that path and its ancestors |
| PackageExporting.LocaleDataConfined | src/Utilities/PackageExporter.php:238-247 | writing the locale's `data` directory and `interface.json` changes nothing away from the locale's directory |
| PackageExporting.LocaleMediaDirsConfined | src/Utilities/PackageExporter.php:256-263 | making `images` and `media` changes nothing away from the locale's directory |
| PackageExporting.LocaleLayoutConfined | src/Utilities/PackageExporter.php:236-264 | starting a locale changes nothing away from the locale's directory and its ancestors |
| PackageExporting.MkdirsVacant | src/Utilities/PackageExporter.php:206-208 | a recursive `mkdir` of a path with nothing below it leaves a directory there, still with nothing below it |
| PackageExporting.VacantMissing | src/Utilities/PackageExporter.php:238-247 | nothing lies strictly below a vacant directory |
| PackageExporting.LocaleDataWrites | src/Utilities/PackageExporter.php:242-247 | in a fresh locale directory, the `data` directory is made and `interface.json` holds the interface texts |
| PackageExporting.LocaleMediaDirsWrites | src/Utilities/PackageExporter.php:256-263 | in a fresh locale directory, `images` and `media` are made as directories |
| PackageExporting.LocaleLayoutWrites | src/Utilities/PackageExporter.php:236-264 | in a vacant locale directory, starting the locale leaves the locale and `data` directories, `interface.json` with the interface texts, and `images` and `media` exactly when the export is not slim |
| PackageExporting.EpisodeFilesOf | src/Utilities/PackageExporter.php:291-297 | the files read off the episodes, one entry per episode, in order |
| PackageExporting.EpisodeCopies | src/Utilities/PackageExporter.php:291-297 | two copies per episode |
| PackageExporting.EpisodeCopiesIndexed | src/Utilities/PackageExporter.php:291-297 | the `k`th episode's copies are at positions `2k` and `2k+1`: its image into `images`, then its media file into `media` |
| PackageExporting.EpisodeCopiesStep | src/Utilities/PackageExporter.php:291-297 | one more episode adds its two copies after those before it |
| PackageExporting.CopyAllConfined | src/Utilities/PackageExporter.php:289-297 | copies whose targets lie in a directory change nothing away from it |
| PackageExporting.ConfinedWiden | src/Utilities/PackageExporter.php:236-264 | a change confined to a directory is confined to each of its ancestors |
| PackageExporting.MediaCopies | src/Utilities/PackageExporter.php:287-297 | the copies of a full collection: its image first, then each episode's image and media file |
| PackageExporting.MakeWorkingDir | src/Utilities/PackageExporter.php:206-216 | the working directory exists afterwards, nothing outside it changes, and one copy of the logo into it is made exactly when there is a logo |
| PackageExporting.WriteLocaleData | src/Utilities/PackageExporter.php:238-247 | the locale's directory, its `data` directory and `interface.json` are written as `LocaleData` says; nothing is copied |
| PackageExporting.MakeMediaDirs | src/Utilities/PackageExporter.php:256-263 | `images` and `media` are made when missing; nothing is copied |
| PackageExporting.LayOutLocale | src/Utilities/PackageExporter.php:236-264 | the disk after starting a locale is `LocaleLayout`, and nothing outside the working directory changes |
| PackageExporting.CopyAllPair | src/Utilities/PackageExporter.php:294-296 | two more copies extend a run of copies |
| PackageExporting.CopyAllAppend | src/Utilities/PackageExporter.php:287-297 | a run of copies followed by another is one run |
| PackageExporting.RemoveWorkingDir | src/Utilities/PackageExporter.php:384-388 | removing each locale's directory and then the working directory leaves the disk without the working directory, keeps every other entry unchanged and copies nothing |
| PackageExporting.FinishReports | src/Utilities/PackageExporter.php:363-389 | the records of `finish` hold an error exactly when the archive is missing, leave the counter raised exactly when it exists, and mark no process as completed |
| PackageExporting.LocaleDirsBelowRoot | src/Utilities/PackageExporter.php:237-262 | the locale's `data`, and in a full export its `images` and `media`, lie in the working directory |
| PackageExporting.CollectionSteps | src/Utilities/PackageExporter.php:167-170 | one step per collection, in order |
| PackageExporting.SingleSteps | src/Utilities/PackageExporter.php:172-175 | one step per single, in order |
| PackageExporting.CollectionStepsStep | src/Utilities/PackageExporter.php:167-170 | one more collection adds its step last |
| PackageExporting.SingleStepsStep | src/Utilities/PackageExporter.php:172-175 | one more single adds its step last |
| PackageExporting.VisitStepsInside | src/Utilities/PackageExporter.php:150-178 | the locale loop calls neither `start` nor `finish` |
| PackageExporting.LocaleStepsInside | src/Utilities/PackageExporter.php:164-177 | one pass of the loop calls neither `start` nor `finish` |
| PackageExporting.VisitStepsLocales | src/Utilities/PackageExporter.php:150-164 | a locale is started exactly when some supported language has its code and the package has content for it |
| PackageExporting.LocaleStepsJoin | src/Utilities/PackageExporter.php:164-177 | a pass of the loop is the locale started, its language added, its collections, its singles, the locale finished |
| PackageExporting.VisitStepsStep | src/Utilities/PackageExporter.php:150-178 | one more language adds its pass when the package has content for it, else nothing |
| PackageExporting.VisitFailsStep | src/Utilities/PackageExporter.php:150-178 | the loop up to one more language fails exactly when it failed before or that language has content and interface texts that cannot take the logo |
| PackageExporting.VisitFailsPrefix | src/Utilities/PackageExporter.php:150-178 | a failure among the first languages fails the whole loop |
| PackageExporting.ExportLeaves | src/Utilities/PackageExporter.php:363-389 | after work confined to the working directory, `finish` leaves nothing in it, keeps everything outside it, changes nothing but the archive, and leaves the archive exactly when it was written or was there |
| PackageExporting.ExportStepsJoin | src/Utilities/PackageExporter.php:149-179 | `start`, the loop and `finish` make up the calls of a whole export |
| PackageExporting.ArchiveKept | src/Utilities/PackageExporter.php:190-358 | work confined to the working directory neither makes nor removes the archive beside it |
| PackageExporting.ExportLeftAfterStart | src/Utilities/PackageExporter.php:190-218 | what `start` does inside the working directory does not change what the export leaves |
| PackageExporting.ExportStepsShape | src/Utilities/PackageExporter.php:149-179 | an export's calls begin with `start`, which records the slim flag, and end with `finish`; neither occurs anywhere else |
| PackageExporting.PackageExporter.constructor | src/Utilities/PackageExporter.php:112-134 | the exporter keeps what it is given, starts with a full export, locale `en`, no directories, no data, no provided locales and no calls |
| PackageExporting.PackageExporter.Log | src/Utilities/PackageExporter.php:398-409 | one ordinary record is logged, stamped with the current counter, which is unchanged |
| PackageExporting.PackageExporter.Reset | src/Utilities/PackageExporter.php:193-198 | the manifest holds the package name and an empty content list, the languages are empty, and `start` is recorded with the slim flag |
| PackageExporting.PackageExporter.MakeRoot | src/Utilities/PackageExporter.php:199-216 | a date format that is not a string fails with `getFilename`'s `TypeError`, naming the setting's type, and changes nothing; otherwise the working directory is the `basename` of the archive name without `.zip`, made with the logo in it, and nothing outside it changes |
| PackageExporting.PackageExporter.Start | src/Utilities/PackageExporter.php:190-218 | `start` resets the manifest and languages, records the call, and fails exactly when the date format is not a string, with `getFilename`'s `TypeError` naming the setting's type; otherwise it lays out the working directory as `MakeRoot` says |
| PackageExporting.PackageExporter.EnterLocale | src/Utilities/PackageExporter.php:231-237 | the current locale is set and the call recorded; the export fails exactly when the interface texts cannot take the logo, else the locale is added once to the provided locales and the locale directory is the working directory plus the code |
| PackageExporting.PackageExporter.StartLocale | src/Utilities/PackageExporter.php:227-265 | as `EnterLocale`, and when it passes the disk is `LocaleLayout` of the texts with the logo; a failure leaves the disk unchanged |
| PackageExporting.PackageExporter.AddLanguage | src/Utilities/PackageExporter.php:306-319 | the languages become `AddByText` of the old ones; nothing else changes but the record of the call |
| PackageExporting.PackageExporter.WriteData | src/Utilities/PackageExporter.php:276-278 | the data file is written in the locale's `data` directory and nothing outside the working directory changes |
| PackageExporting.PackageExporter.RecordItem | src/Utilities/PackageExporter.php:280 | the item is appended to the manifest's content and counted |
| PackageExporting.PackageExporter.BeginItem | src/Utilities/PackageExporter.php:275-280 | the data file is written, the entry appended to the manifest, and nothing outside the working directory changes |
| PackageExporting.PackageExporter.CopyFiles | src/Utilities/PackageExporter.php:294-296 | the image is copied into `images` and then the media file into `media`, and both copies are recorded |
| PackageExporting.PackageExporter.CopyEpisodes | src/Utilities/PackageExporter.php:291-297 | the disk and the copies are those of `EpisodeCopies`, in order |
| PackageExporting.PackageExporter.CopyCollectionMedia | src/Utilities/PackageExporter.php:286-297 | the disk and the copies are those of `MediaCopies`: the collection image, then the episodes' files |
| PackageExporting.PackageExporter.AddCollectionRead | src/Utilities/PackageExporter.php:272-299 | the data file and manifest entry as given, and in a full export the media copies; a slim export copies nothing |
| PackageExporting.PackageExporter.AddCollection | src/Utilities/PackageExporter.php:272-299 | the data file holds the collection's data projection and the manifest gains its main projection, both for the slim flag; a full export copies its image and every episode's image and media file |
| PackageExporting.PackageExporter.AddSingleRead | src/Utilities/PackageExporter.php:325-347 | the data file and manifest entry as given, and in a full export the image and media copies |
| PackageExporting.PackageExporter.AddSingle | src/Utilities/PackageExporter.php:325-347 | the data file and the manifest entry hold the single's array for the slim flag; a full export copies its image and media file |
| PackageExporting.PackageExporter.AddCollections | src/Utilities/PackageExporter.php:167-170 | the collections are added in order, one step and one manifest entry each |
| PackageExporting.PackageExporter.AddSingles | src/Utilities/PackageExporter.php:172-175 | the singles are added in order, one step and one manifest entry each |
| PackageExporting.PackageExporter.ExportLocale | src/Utilities/PackageExporter.php:151-177 | a pass fails exactly when the interface texts cannot take the logo; otherwise its calls are `LocaleSteps`, the language is added by text and the locale to the provided locales |
| PackageExporting.PackageExporter.FillLocale | src/Utilities/PackageExporter.php:165-177 | the language, then the collections, then the singles are added and the locale finished, all inside the working directory |
| PackageExporting.PackageExporter.VisitLocales | src/Utilities/PackageExporter.php:150-178 | the loop fails exactly when `VisitFails`; otherwise its calls are `VisitSteps`, all inside the working directory |
| PackageExporting.PackageExporter.FinishExport | src/Utilities/PackageExporter.php:363-389 | the corrected `finish` records the archive outcome, leaves the disk as `ExportLeft` says, logs an error exactly when the archive is missing and raises the counter exactly when it exists |
| PackageExporting.PackageExporter.FinishExportAsWritten | src/Utilities/PackageExporter.php:363-389 | `finish` as written fails with the undefined-method error exactly when the archive is neither written nor already there; otherwise the export ends as `FinishExport` says, with no error logged |
| PackageExporting.PackageExporter.Run | src/Utilities/PackageExporter.php:150-179 | the loop then `finish`: fails when the loop fails or, as written, when the archive is missing (then with the undefined-method error); a pass records the calls and, measured from the disk and log before `start` (whose work stayed in the working directory and logged only progress), leaves the disk and log as `FinishExport` says |
| PackageExporting.PackageExporter.Export | src/Utilities/PackageExporter.php:144-180 | an export fails exactly when the date format is not a string, some language with content has interface texts that cannot take the logo, or, as written, the archive is missing; a pass records `ExportSteps`, works in the working directory the archive name gives, leaves only the archive behind, logs an error exactly when it is missing and raises the counter exactly when it exists |
| PackageExporting.PackageExporter.CloseManifest | src/Utilities/PackageExporter.php:356 | the next locale's manifest starts empty and the finished locale is counted |
| PackageExporting.PackageExporter.FinishLocale | src/Utilities/PackageExporter.php:350-358 | `main.json` holds the manifest; it lists one entry per item of the locale, names the package only in the export's first locale, and is `[]` for a later locale with nothing added |
| PackageExporting.PackageExporter.BuildArchive | src/Utilities/PackageExporter.php:365-376 | `languages.json` holds the languages, the archive is written when the writer produces it, and it counts as made exactly when written or already there |
| PackageExporting.PackageExporter.ReportArchive | src/Utilities/PackageExporter.php:376-383 | an existing archive raises the counter and logs progress; a missing one logs an error |
| PackageExporting.PackageExporter.CleanUp | src/Utilities/PackageExporter.php:384-389 | the working directory is removed, the archive is kept, and the export is logged as completed |
| PackageExporting.PackageExporter.Conclude | src/Utilities/PackageExporter.php:376-389 | the archive's outcome is logged, then the clean-up; the archive is kept |
| PackageExporting.PackageExporter.Finish | src/Utilities/PackageExporter.php:363-389 | the corrected `finish`: the archive exists afterwards exactly when it was written or was already there, the records are `FinishRecords`, and the working directory is removed |
| PackageExporting.PackageExporter.FinishAsWritten | src/Utilities/PackageExporter.php:363-389 | `finish` as written: a missing archive fails with the undefined-method error before the clean-up, leaving the working directory and only the first three records; otherwise the archive exists, the counter rises and the working directory is removed |
| PackageExporting.NewPackageExporter | src/Utilities/PackageExporter.php:112-134 | construction fails exactly when the exports directory is missing or the languages setting is malformed; otherwise the exporter keeps the site logo when the public directory's text followed by the configured path, canonicalised, names an existing file, and the supported languages or the English default |
| LegacyExporting.LocalsOf | src/Exporter/Utilities/ContentExporter.php:197-205 | the local paths read off the episodes, one entry per episode, in order |
| LegacyExporting.CollectionJson | src/Exporter/Utilities/ContentExporter.php:192-196 | the encoded clone has every public property but `localImage`, and `recommended` only when set; its episodes and slug are as given |
| LegacyExporting.CollectionEntry | src/Exporter/Utilities/ContentExporter.php:214-219 | the manifest's clone has the same keys without `episodes`, and agrees with the data file's clone on each of them |
| LegacyExporting.SingleJson | src/Exporter/Utilities/ContentExporter.php:252-257 | the encoded clone has every public property but the two local paths, and `recommended` only when set; its slug is kept |
| LegacyExporting.CopyBoth | src/Exporter/Utilities/ContentExporter.php:201-203 | two copies made in turn, recorded in order, changing nothing away from the working directory |
| LegacyExporting.ArchiveNotListed | src/Exporter/Utilities/ContentExporter.php:134-135 | the archive is `<prefix>-<date>.zip` in the exports directory, a name the exports store does not decode, so it is never listed there |
| LegacyExporting.MakeRoot | src/Exporter/Utilities/ContentExporter.php:136-142 | the working directory is made when missing, and the logo is copied into it exactly when it is given and exists |
| LegacyExporting.StripEpisode | src/Exporter/Utilities/ContentExporter.php:199-205 | a turn passes exactly when the episode still has both local paths; then it copies them and unsets both; otherwise it fails with the null-source error |
| LegacyExporting.StripAt | src/Exporter/Utilities/ContentExporter.php:197-206 | the `i`th turn either fails with the null-source error, which only an unset path or a repeated episode can cause, or strips one more episode after copying its files |
| LegacyExporting.StripEpisodes | src/Exporter/Utilities/ContentExporter.php:197-206 | the loop passes exactly when every episode has both local paths and none is listed twice; then every episode is stripped and the copies are `EpisodeCopies` of what they held |
| LegacyExporting.ContentExporter.constructor | src/Exporter/Utilities/ContentExporter.php:93-100 | the exporter starts with locale `en`, no directories, no data, no logo, no provided locales and no calls |
| LegacyExporting.ContentExporter.Start | src/Exporter/Utilities/ContentExporter.php:121-144 | the manifest and languages start over, the working directory is `prefix-date` in the exports directory, made with the logo in it when the logo exists, and `APP_LOGO` names the logo only then |
| LegacyExporting.ContentExporter.Reset | src/Exporter/Utilities/ContentExporter.php:129-141 | the manifest names the item with empty content, the languages are empty, and the logo reference changes only when a logo was shipped |
| LegacyExporting.ContentExporter.EnterLocale | src/Exporter/Utilities/ContentExporter.php:154-164 | the locale is set and the call recorded; it fails exactly when the interface texts cannot take the logo reference, else the locale is added once to the provided locales |
| LegacyExporting.ContentExporter.StartLocale | src/Exporter/Utilities/ContentExporter.php:152-181 | as `EnterLocale`, and when it passes the disk is the full locale layout of the texts with the logo; a failure leaves the disk unchanged |
| LegacyExporting.ContentExporter.WriteCollection | src/Exporter/Utilities/ContentExporter.php:207-220 | the data file is written, then the collection image copied, and the entry appended to the manifest |
| LegacyExporting.ContentExporter.AddCollection | src/Exporter/Utilities/ContentExporter.php:188-222 | the collection is added exactly when every episode still has both local paths and none repeats; then every episode is stripped, the manifest gains the entry clone and the disk and copies are the episodes' files, the data file and the image; otherwise it fails with the null-source error and the manifest is unchanged |
| LegacyExporting.ContentExporter.AddCollectionRead | src/Exporter/Utilities/ContentExporter.php:188-222 | as `AddCollection`, on the encodings and files read when the call began |
| LegacyExporting.ContentExporter.AddLanguage | src/Exporter/Utilities/ContentExporter.php:229-241 | the languages become `AddByText` of the old ones |
| LegacyExporting.ContentExporter.AddSingle | src/Exporter/Utilities/ContentExporter.php:248-269 | the data file holds the clone, the image and media file are copied in, and the manifest gains the same clone |
| LegacyExporting.ContentExporter.AddSingleRead | src/Exporter/Utilities/ContentExporter.php:248-269 | as `AddSingle`, on the clone encoded when the call began |
| LegacyExporting.ContentExporter.FinishLocale | src/Exporter/Utilities/ContentExporter.php:274-282 | `main.json` holds the manifest, which then starts over empty |
| LegacyExporting.ContentExporter.Finish | src/Exporter/Utilities/ContentExporter.php:287-307 | `languages.json`, the archive when written, then the working directory removed: only the archive is left behind, with no check that it exists |
| LegacyExporting.NewContentExporter | src/Exporter/Utilities/ContentExporter.php:93-100 | construction fails exactly when the exports directory is missing, with the same message as the current exporter |
| OldestExporting.OldestDirs | src/Utilities/ContentExporter.php:80-96 | the locale directory is named below the root, but `data`, `images` and `media` lie directly in the root |
| OldestExporting.ClonedCollection | src/Utilities/ContentExporter.php:108-131 | the data file holds every public property but `localImage`, `recommended` only when set, with the stored slug and the episodes' full arrays in order; the manifest's clone is the same without `episodes` |
| OldestExporting.Reached | src/Utilities/ContentExporter.php:113-119 | an episode met for the first time gives its own files; one met again gives the empty path for both local files, since the first visit unset them |
| OldestExporting.ReachedOwnFiles | src/Utilities/ContentExporter.php:113-119 | when no episode is listed twice, every episode reaches `copy` with its own files |
| OldestExporting.RepeatReachesEmpty | src/Utilities/ContentExporter.php:113-119 | an episode listed twice reaches `copy` the second time with the empty path |
| OldestExporting.VisitEpisodes | src/Utilities/ContentExporter.php:113-119 | the loop passes exactly when every episode still holds both local paths and none is listed twice, and otherwise fails with PHP 8's `Path cannot be empty`; a pass copies each episode's image and media file in order and strips every episode |
| OldestExporting.NothingLeft | src/Utilities/ContentExporter.php:139-156 | `finish` after work confined to the root leaves nothing of the root, changes nothing else, and leaves no archive |
| OldestExporting.ContentExporter.constructor | src/Utilities/ContentExporter.php:50-56 | the exporter starts with no file name, no directories and no data |
| OldestExporting.ContentExporter.Start | src/Utilities/ContentExporter.php:68-98 | the manifest names `Exported Data` with empty content, the working directory is `name-date`, and the root with its three directories is made, copying nothing |
| OldestExporting.ContentExporter.AddCollection | src/Utilities/ContentExporter.php:105-132 | passes exactly when every episode still holds both local paths and none repeats; a failure throws `Path cannot be empty` before the data file, the image and the manifest entry, leaving the manifest unchanged; a pass strips the episodes, adds the entry clone, and makes the episode copies, the data file and the image: one copy more than twice the episodes |
| OldestExporting.ContentExporter.AddCollectionRead | src/Utilities/ContentExporter.php:105-132 | as `AddCollection`, on the encodings, files and local paths read when the call began |
| OldestExporting.ContentExporter.Finish | src/Utilities/ContentExporter.php:139-156 | `main.json` is written and then the root is removed with everything in it; nothing else changes |
| OldestExporting.ExportCollection | src/Utilities/ContentExporter.php:113-123 | the episodes are visited; when that passes, the data file is written and the image copied, and a failure stops before both |
| OldestExporting.MakeLayout | src/Utilities/ContentExporter.php:82-97 | the disk after `start` is `StartLayout`, confined to the root, copying nothing |
| OldestExporting.MakeChild | src/Utilities/ContentExporter.php:86-97 | one directory below the root made when missing |
| OldestExporting.NewContentExporter | src/Utilities/ContentExporter.php:50-56 | construction fails exactly when the exports directory is missing |
| ExportCommands.FindEntry | src/Stores/PackagesStore.php:124-139 | the lookup finds nothing exactly when no row has the slug, and otherwise a row with the slug |
| ExportCommands.Available | src/Commands/ExportCommand.php:171-178 | nothing is available exactly when no package is named and there are no rows; `null` is among them exactly when a named slug has no row; every other entry is a row, with the named slug when one is named |
| ExportCommands.Present | src/Commands/ExportCommand.php:171-178 | with no `null` among them, the available entries are the rows, one for one |
| ExportCommands.EmptyLanguagesMeanEnglish | src/Commands/ExportCommand.php:211-214 | an empty languages list is falsy, so the command builds for English alone |
| ExportCommands.DateFormatSetting | src/Commands/ExportCommand.php:265-268 | the date format the removal uses is always truthy: the setting, or the default when it is falsy |
| ExportCommands.OwnedMembers | src/Commands/ExportCommand.php:220-224 | a collection is kept exactly when it is in the answer and belongs to the package; no more are kept than answered |
| ExportCommands.OwnedSinglesMembers | src/Commands/ExportCommand.php:227-231 | a single is kept exactly when it is in the answer and belongs to the package; no more are kept than answered |
| ExportCommands.OwnedAnswers | src/Commands/ExportCommand.php:216-224 | per language, the owned collections of that language's answer |
| ExportCommands.OwnedSingleAnswers | src/Commands/ExportCommand.php:216-231 | per language, the owned singles of that language's answer |
| ExportCommands.SelectStep | src/Commands/ExportCommand.php:234-236 | selecting from a longer list adds its last element when flagged |
| ExportCommands.Owners | src/Commands/ExportCommand.php:234 | per package, whether some answer holds a collection or single of it |
| ExportCommands.KeptIffOwns | src/Commands/ExportCommand.php:234-236 | a package is kept exactly when it is available and owns something |
| ExportCommands.SelectMembers | src/Commands/ExportCommand.php:234-236 | an element is selected exactly when it sits at a flagged position |
| ExportCommands.PutAppend | src/Commands/ExportCommand.php:220-224 | adding items one at a time builds the same map as adding them at once |
| ExportCommands.EntriesStep | src/Commands/ExportCommand.php:216-232 | one more language adds its owned items under its locale code |
| ExportCommands.EntriesByLocale | src/Commands/ExportCommand.php:216-232 | the package lists under each locale what the languages with that code contribute, in setting order |
| ExportCommands.EntriesEmptyIff | src/Commands/ExportCommand.php:216-234 | the package's map stays empty exactly when no answer contributes anything |
| ExportCommands.HoldsContents | src/Commands/ExportCommand.php:215-232 | a filled package lists under each locale the owned items of the answers for that locale's languages, in language and then answer order |
| ExportCommands.HoldsEmptyIff | src/Commands/ExportCommand.php:234 | a filled package is empty exactly when no answer holds one of its items |
| ExportCommands.Fetch | src/Stores/PackagesStore.php:100-114 | one new, empty, distinct package per row, with the row's name and slug |
| ExportCommands.AddOwnedCollections | src/Commands/ExportCommand.php:220-224 | the package gains, under the locale, exactly the answer's collections that belong to it, in order; its singles are unchanged |
| ExportCommands.AddOwnedSingles | src/Commands/ExportCommand.php:227-231 | the package gains, under the locale, exactly the answer's singles that belong to it, in order; its collections are unchanged |
| ExportCommands.FillLanguage | src/Commands/ExportCommand.php:217-231 | one language adds the owned collections, then the owned singles, under its locale code |
| ExportCommands.FillStep | src/Commands/ExportCommand.php:216-232 | after the `j`-th language the package holds what the first `j + 1` languages contribute |
| ExportCommands.FillPackage | src/Commands/ExportCommand.php:216-232 | an empty package ends up holding exactly what it owns of every language's answers |
| ExportCommands.KeepIfFilled | src/Commands/ExportCommand.php:215-236 | the package is filled, then appended to the results exactly when it owns something |
| ExportCommands.FillNext | src/Commands/ExportCommand.php:215-236 | one more package is filled and kept when it owns something, the earlier ones untouched |
| ExportCommands.FillAll | src/Commands/ExportCommand.php:215-237 | after the loop every package holds what it owns and the results are those that own something, in order |
| ExportCommands.BuildPackages | src/Commands/ExportCommand.php:208-240 | the results are the available packages that own something, in order, and every package holds what it owns |
| ExportCommands.NullPackageReachesIsEmpty | src/Commands/ExportCommand.php:215-236 | with the `null` package, the `isEmpty` error is reached exactly when no answer holds anything; otherwise the first `belongsTo` throws |
| ExportCommands.AnswersStored | src/Stores/CollectionsStore.php:37-61 | the stores' answers hold only stored objects |
| ExportCommands.Answers | src/Commands/ExportCommand.php:216-225 | the store's answer for every language, in setting order |
| ExportCommands.ZipsKeptJoin | src/Commands/ExportCommand.php:249-255 | the archive outcomes of two consecutive runs of exports join into those of both |
| ExportCommands.OutcomesJoin | src/Commands/ExportCommand.php:249-255 | joined outcomes keep the archives the writer produced, and, when none was missing before, one is missing exactly when one of the new exports misses it |
| ExportCommands.ExportOnce | src/Commands/ExportCommand.php:251-253 | one `export` call fails exactly when the date format is not a string, a language with content stops it, or, as written, its archive is missing; a pass records one archive outcome, which is true as written, and the calls of the export with its slim flag |
| ExportCommands.ExportPackage | src/Commands/ExportCommand.php:250-254 | the package exported in full and then slim; it fails as either export does, and a pass records two archive outcomes and the two exports' calls, full then slim |
| ExportCommands.ExportNext | src/Commands/ExportCommand.php:249-255 | the `i`-th package's turn: its archives are the run's exports `2i` and `2i+1`; a pass leaves the first `i + 1` packages exported |
| ExportCommands.ExportPackages | src/Commands/ExportCommand.php:247-256 | the run fails exactly when there is a package and the date format is not a string, some package stops at a language, or, as written, an archive is missing (then with the undefined-method error); a pass exports every package in full and then slim, recording two archive outcomes each |
| ExportCommands.Doomed | src/Commands/ExportCommand.php:275-279 | the archives removed are all of them for an empty slug (or `"0"`), else exactly the slug's |
| ExportCommands.RemoveOldExports | src/Commands/ExportCommand.php:263-280 | a date format that is not a string fails with the `TypeError` and changes nothing; a listing that fails changes nothing; otherwise exactly the doomed archives are unlinked |
| ExportCommands.Report | src/Commands/ExportCommand.php:180-182 | the error is logged with the current counter and the command fails with that message |
| ExportCommands.KeptOfOwning | src/Commands/ExportCommand.php:234-236 | with the owned items at hand, the kept packages are those that own something |
| ExportCommands.Conclude | src/Commands/ExportCommand.php:189-196 | a thrown message ends the command as a failure with that message logged last; otherwise the completion record is logged last and the command succeeds |
| ExportCommands.ExportWith | src/Commands/ExportCommand.php:186-196 | the run ends as `Exported` says, and the log ends with the completion record on success or the error on failure |
| ExportCommands.ExportBuilt | src/Commands/ExportCommand.php:186-196 | as `ExportWith`; an exporter whose languages setting could not be read fails as soon as there is a package to export, and succeeds when there is none |
| ExportCommands.BuildOwned | src/Commands/ExportCommand.php:187 | the packages are filled from the answers and the kept ones are those that own something |
| ExportCommands.BuildAndExport | src/Commands/ExportCommand.php:186-196 | the built packages are those that own something, exported as `Exported` says, with the log ending as the status says |
| ExportCommands.AfterRemoval | src/Commands/ExportCommand.php:186-196 | a malformed languages setting fails; an unknown slug fails with what `belongsTo` or `isEmpty` throws on `null`; otherwise the packages are built and exported |
| ExportCommands.RemoveAndRun | src/Commands/ExportCommand.php:184-196 | a removal that throws escapes with its message and logs nothing; otherwise the rest runs as `AfterRemoval` says |
| ExportCommands.ExportCommand.constructor | src/Commands/ExportCommand.php:101-132 | the exports directory is the canonical form of the public directory's text followed by `exporter/public_path` (or `/files/exports/`), made when missing; logger and exporter are not made yet |
| ExportCommands.SplitTwoNames | src/Commands/ExportCommand.php:123 | a path written `/a/b/` splits into an empty piece, `a`, `b` and an empty piece |
| ExportCommands.BelowTwoNames | src/Commands/ExportCommand.php:121-123 | a setting `/a/b/` with plain names lands two levels below the public directory |
| ExportCommands.DefaultExportsDir | src/Commands/ExportCommand.php:117-123 | the default `/files/exports/` gives `files/exports` below the public directory |
| ExportCommands.ExportCommand.Execute | src/Commands/ExportCommand.php:156-197 | a missing exports directory escapes from the exporter's constructor; no available package fails with `No packages found!` and removes nothing; otherwise the old archives are removed and the packages built and exported, with export `2i` (`2i+1`) the full (slim) archive of the `i`-th package; as written, a missing archive fails the run with the undefined-method error |
| ExportCommands.ExportCommand.Start | src/Commands/ExportCommand.php:160-169 | the file logger is new and empty and the exporter is kept in the command; a missing exports directory makes the exporter constructor throw, and its only other failure is the malformed languages |
| ExportCommands.StartAndRun | src/Commands/ExportCommand.php:164-196 | once the exporter is made, a missing exports directory ends the command with that crash and leaves the disk as it was; otherwise the packages are read, removed and exported as `ReadAndRun` states |
| ExportCommands.ReadAndRun | src/Commands/ExportCommand.php:171-196 | the packages are read, and the removal and the rest run exactly when some are available |
| LegacyExportCommands.ListsAgree | src/Exporter/Commands/ExportCommand.php:136-139 | the older command reads the same supported languages, and the same date suffix, as the newer one, although its `get` has no default |
| LegacyExportCommands.PathsAgree | src/Exporter/Commands/ExportCommand.php:94-99 | the older command resolves the same exports path and the same site logo as the newer one |
| LegacyExportCommands.InterfaceAgrees | src/Exporter/Commands/ExportCommand.php:225-228 | a locale's interface texts are its own entry when truthy, else the English one, as in the newer generation |
| LegacyExportCommands.OwnedMembers | src/Exporter/Commands/ExportCommand.php:169-173 | a collection of a store answer is added to the package exactly when it belongs to the package's slug |
| LegacyExportCommands.OwnedSinglesMembers | src/Exporter/Commands/ExportCommand.php:176-180 | a single of a store answer is added to the package exactly when it belongs to the package's slug |
| LegacyExportCommands.OwnedAnswers | src/Exporter/Commands/ExportCommand.php:165-173 | one list per supported language, each the owned collections of that language's answer |
| LegacyExportCommands.OwnedSingleAnswers | src/Exporter/Commands/ExportCommand.php:174-180 | one list per supported language, each the owned singles of that language's answer |
| LegacyExportCommands.HoldsContents | src/Exporter/Commands/ExportCommand.php:164-181 | a filled package's collections and singles for a locale are, in order, the owned items of every language with that locale code |
| LegacyExportCommands.HoldsEmptyIff | src/Exporter/Commands/ExportCommand.php:183-185 | a filled package is empty exactly when no answer it received holds a collection or single of it |
| LegacyExportCommands.Fetch | src/Exporter/Stores/PackagesStore.php:38-52 | one new, valid, empty package per taxonomy row, with the row's slug and name, in row order, no two the same object |
| LegacyExportCommands.AddOwnedCollections | src/Exporter/Commands/ExportCommand.php:169-173 | the locale's collection list gains the owned collections of the answer, in answer order; the singles are untouched |
| LegacyExportCommands.AddOwnedSingles | src/Exporter/Commands/ExportCommand.php:176-180 | the locale's single list gains the owned singles of the answer, in answer order; the collections are untouched |
| LegacyExportCommands.FillStep | src/Exporter/Commands/ExportCommand.php:165-181 | one more language: the package's lists are those of the first languages and this one |
| LegacyExportCommands.FillPackage | src/Exporter/Commands/ExportCommand.php:165-181 | after the language loop the package holds, per locale, what it owns of every answer it received |
| LegacyExportCommands.KeepIfFilled | src/Exporter/Commands/ExportCommand.php:164-186 | the package is filled and appended to the results exactly when it owns a collection or a single |
| LegacyExportCommands.OwnedPer | src/Exporter/Commands/ExportCommand.php:164-181 | per package, what it owns of the answers it received |
| LegacyExportCommands.OwnedSinglesPer | src/Exporter/Commands/ExportCommand.php:164-181 | per package, the singles it owns of the answers it received |
| ExportCommands.Keeps | src/Exporter/Commands/ExportCommand.php:183-185 | per package, kept exactly when it owns a collection or a single |
| LegacyExportCommands.FillNext | src/Exporter/Commands/ExportCommand.php:164-186 | one more turn of the package loop keeps the packages so far filled and the kept ones selected |
| LegacyExportCommands.KeptIffOwns | src/Exporter/Commands/ExportCommand.php:182-185 | a package is among the results exactly when it owns something |
| LegacyExportCommands.BuildPackages | src/Exporter/Commands/ExportCommand.php:160-189 | every package is filled from its own answers, and the results are, in order, the packages that own something |
| LegacyExportCommands.CollectionCalls | src/Exporter/Commands/ExportCommand.php:233-235 | one `addCollection` per collection of the locale, in order |
| LegacyExportCommands.SingleCalls | src/Exporter/Commands/ExportCommand.php:238-240 | one `addSingle` per single of the locale, in order |
| LegacyExportCommands.LocaleStartedIn | src/Exporter/Commands/ExportCommand.php:229-242 | the calls of one locale start that locale and no other |
| LegacyExportCommands.VisitsStep | src/Exporter/Commands/ExportCommand.php:215-219 | one more language visits its locale exactly when the package has content for it |
| LegacyExportCommands.VisitedIff | src/Exporter/Commands/ExportCommand.php:215-243 | a locale is started for a package exactly when it is a supported one the package has content for |
| LegacyExportCommands.VisitCallsInside | src/Exporter/Commands/ExportCommand.php:215-243 | the locale loop makes no `start` and no `finish` |
| LegacyExportCommands.CollectionsOfAppend | src/Exporter/Commands/ExportCommand.php:233-235 | the collections added by two runs of calls are those of the first, then those of the second |
| LegacyExportCommands.LocaleCollections | src/Exporter/Commands/ExportCommand.php:229-242 | the calls of one locale add exactly its collections, in order |
| LegacyExportCommands.CollectionCallsAdd | src/Exporter/Commands/ExportCommand.php:233-235 | the collection loop adds exactly its collections |
| LegacyExportCommands.SinglesAddNothing | src/Exporter/Commands/ExportCommand.php:238-240 | the single loop adds no collection |
| LegacyExportCommands.EpisodesInAppend | src/Exporter/Commands/ExportCommand.php:233-235 | the episodes of two runs of collections are those of the first, then those of the second |
| LegacyExportCommands.EpisodesInPrefix | src/Exporter/Commands/ExportCommand.php:233-235 | a prefix of the collections lists a prefix of their episodes |
| LegacyExportCommands.EpisodesAgree | src/Exporter/Commands/ExportCommand.php:233-235 | while each collection still lists the episodes recorded for it, the record gives the collections' episodes |
| LegacyExportCommands.StrippableAppend | src/Exporter/Utilities/ContentExporter.php:188-222 | two runs of episodes can both be stripped exactly when each can and they share no episode |
| LegacyExportCommands.StrippablePrefix | src/Exporter/Utilities/ContentExporter.php:188-222 | when a run of episodes can be stripped, so can any prefix of it |
| LegacyExportCommands.AddCollection | src/Exporter/Utilities/ContentExporter.php:188-222 | `addCollection` is recorded; it passes exactly when every episode held both local paths and none is listed twice, else it fails with the null-source message, and on a pass the episodes are stripped |
| LegacyExportCommands.AddOne | src/Exporter/Commands/ExportCommand.php:233-235 | one collection after earlier ones: it passes exactly when the episodes so far and its own can all be stripped |
| LegacyExportCommands.CollectNext | src/Exporter/Commands/ExportCommand.php:233-235 | one turn of the collection loop: a failure means the locale's episodes cannot all be stripped |
| LegacyExportCommands.AddCollections | src/Exporter/Commands/ExportCommand.php:232-235 | the collection loop passes exactly when all its episodes can be stripped, and then makes one `addCollection` per collection |
| LegacyExportCommands.AddSingle | src/Exporter/Commands/ExportCommand.php:238-240 | `addSingle` is recorded and never fails |
| LegacyExportCommands.AddSingles | src/Exporter/Commands/ExportCommand.php:237-240 | the single loop makes one `addSingle` per single, in order |
| LegacyExportCommands.VisitFailsStep | src/Exporter/Commands/ExportCommand.php:215-229 | one more language makes the locale loop fail exactly when the earlier ones did or this locale's interface texts are scalar |
| LegacyExportCommands.StartLocale | src/Exporter/Commands/ExportCommand.php:229 | `startLocale` is recorded and fails exactly when the interface texts are scalar, with PHP's message for that |
| LegacyExportCommands.FinishLocale | src/Exporter/Commands/ExportCommand.php:242 | `finishLocale` is recorded and never fails |
| LegacyExportCommands.OpenLocale | src/Exporter/Commands/ExportCommand.php:220-230 | the locale is started and its language added, failing exactly when the interface texts are scalar |
| LegacyExportCommands.FillLocale | src/Exporter/Commands/ExportCommand.php:232-242 | the collections, the singles and the manifest of a locale; it passes exactly when the locale's episodes can be stripped |
| LegacyExportCommands.VisitLocale | src/Exporter/Commands/ExportCommand.php:220-242 | one locale passes exactly when its interface texts are not scalar and its episodes can be stripped, and then makes exactly that locale's calls |
| LegacyExportCommands.VisitCallsPrefix | src/Exporter/Commands/ExportCommand.php:215-243 | the calls of the first languages are a prefix of the package's calls |
| LegacyExportCommands.CollectionsOfPrefix | src/Exporter/Commands/ExportCommand.php:233-235 | a prefix of the calls adds a prefix of the collections |
| LegacyExportCommands.PackageCollections | src/Exporter/Commands/ExportCommand.php:213-245 | `start` and `finish` add no collection: a package adds those of its locale loop |
| LegacyExportCommands.VisitedGrows | src/Exporter/Commands/ExportCommand.php:215-243 | if all of a package's episodes can be stripped, so can those of its first languages |
| LegacyExportCommands.VisitCallsStep | src/Exporter/Commands/ExportCommand.php:215-219 | a language the package has content for adds its locale's calls, any other adds nothing |
| LegacyExportCommands.VisitedStep | src/Exporter/Commands/ExportCommand.php:215-243 | a language the package has content for adds its collections' episodes, any other adds nothing |
| LegacyExportCommands.VisitNext | src/Exporter/Commands/ExportCommand.php:215-243 | one turn of the locale loop; a failure means some locale's interface texts are scalar or some episode cannot be stripped |
| LegacyExportCommands.StartPackage | src/Exporter/Commands/ExportCommand.php:214 | `start` is recorded and no episode changes |
| LegacyExportCommands.FinishPackage | src/Exporter/Commands/ExportCommand.php:244 | `finish` is recorded and no episode changes |
| LegacyExportCommands.VisitAll | src/Exporter/Commands/ExportCommand.php:215-243 | the locale loop passes exactly when no visited locale's interface texts are scalar and its episodes can be stripped, and then makes exactly the visited locales' calls |
| LegacyExportCommands.ExportPackage | src/Exporter/Commands/ExportCommand.php:213-245 | one package passes under the same condition and then makes `start`, its locale calls and `finish` |
| LegacyExportCommands.VisitCollectionsHeld | src/Exporter/Commands/ExportCommand.php:232-235 | every collection the locale loop adds is one of the package's |
| LegacyExportCommands.AllCollectionsHeld | src/Exporter/Commands/ExportCommand.php:212-246 | every collection the export adds is one of the packages' |
| LegacyExportCommands.AllCallsPrefix | src/Exporter/Commands/ExportCommand.php:212-246 | the calls of the first packages are a prefix of all the calls |
| LegacyExportCommands.ExportedStep | src/Exporter/Commands/ExportCommand.php:212-246 | one more package adds its calls, and strips its episodes after the earlier packages' |
| LegacyExportCommands.ExportedGrows | src/Exporter/Commands/ExportCommand.php:212-246 | if all the export's episodes can be stripped, so can those of its first packages |
| LegacyExportCommands.SomeVisitFailsStep | src/Exporter/Commands/ExportCommand.php:212-246 | one more package fails in a locale exactly when its own locale loop does |
| LegacyExportCommands.ExportNext | src/Exporter/Commands/ExportCommand.php:212-246 | one turn of the package loop; a failure means some locale's interface texts are scalar or some episode cannot be stripped |
| LegacyExportCommands.RecordHeld | src/Exporter/Commands/ExportCommand.php:212-246 | the record of collections covers every package and agrees with the collections |
| LegacyExportCommands.ExportAll | src/Exporter/Commands/ExportCommand.php:212-246 | the package loop passes exactly when every package does, and then has made every package's calls in turn |
| LegacyExportCommands.RecordStart | src/Exporter/Commands/ExportCommand.php:212-246 | the record and the episodes' local paths describe the packages as the export begins, and the episodes stripped are those of the collections added |
| LegacyExportCommands.ExportPackages | src/Exporter/Commands/ExportCommand.php:212-246 | the package loop passes exactly when no visited locale's interface texts are scalar and every episode added can be stripped, and then has made every package's calls in turn |
| LegacyExportCommands.Caught | src/Exporter/Commands/ExportCommand.php:146-150 | `execute` reports success exactly when nothing was thrown, and otherwise the thrown message |
| LegacyExportCommands.Export | src/Exporter/Commands/ExportCommand.php:198-247 | success exactly when the date suffix is a string (or there is no package), no visited locale's interface texts are scalar and every episode added held both local paths and is listed once; a non-string suffix fails before any call, with PHP's type error |
| LegacyExportCommands.EntriesWithin | src/Exporter/Commands/ExportCommand.php:164-181 | a package's locale lists hold only items of the answers it was filled from |
| LegacyExportCommands.OwnedWithin | src/Exporter/Commands/ExportCommand.php:164-181 | what a package owns was in its answers |
| LegacyExportCommands.OwnedAnswer | src/Exporter/Commands/ExportCommand.php:169-172 | an owned collection was in the answers |
| LegacyExportCommands.HeldWithin | src/Exporter/Commands/ExportCommand.php:164-181 | packages filled from answers hold only collections of those answers |
| LegacyExportCommands.HeldBySub | src/Exporter/Commands/ExportCommand.php:183-185 | the kept packages hold no collection the packages did not |
| LegacyExportCommands.OwnedPerRows | src/Exporter/Commands/ExportCommand.php:163-181 | what the packages own is what their taxonomy rows own |
| LegacyExportCommands.BuildFrom | src/Exporter/Commands/ExportCommand.php:160-189 | new packages, one per row, each filled from its own answers, and kept exactly when it owns something |
| LegacyExportCommands.BuildAndExport | src/Exporter/Commands/ExportCommand.php:141-143 | the packages are built from the stores' answers and the kept ones exported, with `export`'s outcome |
| LegacyExportCommands.OwnedFor | src/Exporter/Commands/ExportCommand.php:163-181 | per taxonomy row, what it owns of the answers given for it |
| LegacyExportCommands.OwnedSinglesFor | src/Exporter/Commands/ExportCommand.php:163-181 | per taxonomy row, the singles it owns of the answers given for it |
| LegacyExportCommands.ExportCommand.constructor | src/Exporter/Commands/ExportCommand.php:86-115 | the exports directory is the canonical form of the public directory's text followed by `exporter/public_path` (default `/files/exports/`), made when missing; the exporter is made for it |
| LegacyExportCommands.ExportCommand.Execute | src/Exporter/Commands/ExportCommand.php:133-151 | the packages are built and the kept ones exported; the status is success exactly when the export promises it, and a failure carries the thrown message |

## Left out

- Console output (`writeln`, `echo`) and `set_time_limit` are left out. They change no state that the model states anything about.
- The clock is not modelled. The date text of a run, `DateTime::format` and `DateTime::createFromFormat` are parameters (`dateText`, `formatDate`, `parseDate`), and so are the modification times of archives.
- `ZipArchive` itself is not modelled. Whether `close` leaves an archive on disk is the parameter `zipWritten`; for the current command it is given per export (`2i` is the full export of package `i`, `2i + 1` its slim export). The older command (`LegacyExportCommands.ExportAll`, `LegacyExportCommands.ExportPackages`, `LegacyExportCommands.Export`) takes one flag for every package of a run. Its `finish` does not look at the archive, so none of its contracts rests on the flag. `Zip` models what `addTree` adds to an archive, but the exporters' archive is an opaque token on disk: its entries are not tied to `Zip`, and the file's bytes are not modelled.
- JSON files are stored as `Json` trees rather than the bytes `json_encode` writes. Objects are maps, so key order and pretty-printing are not modelled, and neither is the escaping of `/` and Unicode.
- The YAML parser is not modelled: the settings are given as an already parsed `Json` tree.
- Bolt's repositories and the stores' queries are not modelled. Their answers are given as sequences: the package rows, and per locale the collections and singles.
- The older generation's own episode class (`App\Exporter\Models\Episode`) is not part of this model. Its collections are assumed to list episodes with the same fields and projection as `Models.Episode`, and `LegacyExporting` relies on that assumption.
- LegacyModels.LooseEquals: compares two strings by value only when both are non-empty runs of ASCII digits, and otherwise byte for byte. PHP 8's `==` also treats leading whitespace, trailing whitespace, signs, decimals and exponents as numeric (`" 1" == "1"`, `"-0" == "0"`, `"1e1" == "10"`). So `LegacyModels.LooseIn` and `LegacyModels.AddLooseUnique` differ from `in_array` on such locale codes and slugs.
- ExportMedia.Media.Get: orders the slug groups by `strcmp` on the slug and gives each group as a plain sequence. PHP differs in two ways:
  - `ksort` compares keys as PHP 8 does. A slug that is a decimal integer (such as `"9"`) becomes an `int` key. An `int` key and a non-numeric string key compare as strings, but two keys that both read as numbers (`9`, `"2.5"`, `"1e1"`) compare as numbers. So the two orders can differ only between two slugs that both read as numbers.
  - `uasort` keeps each row's original key. A group whose rows the sort reorders therefore has keys other than `0, 1, 2, …` in that order, and the model's sequence keeps only the order.

  The same holds for ExportMedia.MediaListing and ExportMedia.SortGroups.
- ExportsStore.RenameEach: moves each export to the exports directory plus the new file name as one name, through ExportsStore.RenameTarget. PHP builds the target with `Path::join`, so a new name holding `/` nests. This happens when the date format holds `/` (such as `d/m/Y`) or the new slug does. For `news_2024-01-02.zip` renamed to slug `daily` on 15 October 2026, the target is `daily_15/10/2026.zip` below the exports directory, and its parent `daily_15/10` normally does not exist. So PHP's `rename` returns `false` with a warning and the archive stays under slug `news`, while the model moves it and the listing then reads it as slug `daily`. The contracts of ExportsStore.RenameEach, ExportsStore.RenameKeepsSlim and ExportsStore.RenameOverwrites hold as PHP behaves only for a new slug and a date text free of `/`.
- ExportsStore.Store.UpdateSlug: keeps a new file name holding `/` as one name in the exports directory, as the ExportsStore.RenameEach line above says; PHP's rename into the nested path fails.
- ExportsStore.Store.UpdateSlug: takes one date text for the whole rename, where `getFilename` makes a new `DateTime` for every export it renames. Its contract states that exports of the old slug with the same slim flag get one target name, so each later rename replaces the archive an earlier one left there.
- LegacyExportCommands.Export: takes one formatter for every package, where the older `start` makes a new `DateTime` for every package, so the model gives every package of one run the same date text.
- ExportsStore.BuildExport: compares PHP's error messages without the `, called in <file> on line <n>` suffix that PHP appends to a `TypeError` from a userland function. The same holds for ExportCommands.NullPackageError, ExportCommands.FormatTypeError, PackageExporting.FilenameTypeError and LegacyExportCommands.SuffixTypeError.
- PackageExporting.WorkingDir: adds the `basename` of the archive name to the exports directory as one name. `Path::join` would also resolve a `basename` of `.` or `..`, which a date text ending in `/.` or `/..` produces; the model keeps such a name as it is.
- LegacyExporting.ContentExporter.Start: puts the working directory `prefix-date` into the exports directory as one name. `Path::join` splits a name holding `/` into nested directories and resolves `.` and `..`, so for a date format with `/` PHP's working directory and archive lie deeper than the model's. The same holds for LegacyExporting.ArchiveNotListed and LegacyExportCommands.ExportCommand.Execute.
- OldestExporting.ContentExporter.Start: puts the working directory `name-date` into the exports directory as one name, where `Path::join` nests the pieces of a name holding `/`, as for the older exporter above.
- ExportCommands.PublicPathSetting: falls back to `/files/exports/` for a truthy `exporter/public_path` that is not a string. PHP converts such a value to text (`5` gives `5`, an array gives `Array`) and glues that onto the public directory. The same holds for LegacyExportCommands.PublicPath, and for the logo setting in PackageExporting.SiteLogo and LegacyExportCommands.Logo, where the model then ships no logo.
- Config.Index: indexes a string by character, where PHP indexes bytes; the two differ for text outside ASCII. The same holds for Config.StringPosition.
- PackageExporting.DecodeLanguages: decodes the supported-languages setting up front. A setting that is not a list of entries, each with a string `bolt_locale_code`, a string `text` and an array `codes`, fails at once with the stand-in message `MalformedLanguages`. PHP behaves differently:
  - it also iterates an associative array;
  - it accepts a `bolt_locale_code` that is not a string;
  - it throws its own `TypeError` from `new Language(...)` or from the `array` parameter, and only when it reaches the offending entry, possibly after earlier packages were already archived.

  The same holds for PackageExporting.DecodeLanguage, PackageExporting.NewPackageExporter, ExportCommands.CommandLanguages, LegacyExportCommands.Languages and LegacyExportCommands.ExportCommand.Execute.
- ExportCommands.Fetch: takes the package rows already in the order `findAll` sorts them into (`usort` by `strcmp` on the name); the sort itself is not modelled. ExportCommands.Available looks a named slug up in that same order, so when two rows share a slug the first of them in name order is taken.
- Zip.ZipTree: the directory tree is given with each directory's entries in `readdir` order. Symbolic links and entries that are neither files nor directories are not modelled.
- Disk.WithDirs: a regular file lying on a directory path is not modelled. PHP's recursive `mkdir` then fails and creates nothing; the model adds the missing directories below that file. The same holds for Disk.FileSystem.MakeDirs. The statement of PackageExporting.PackageExporter.Export and ExportCommands.ExportPackages that an export fails exactly when its settings or texts say so holds only on disks where no regular file sits on a directory path, and where no directory is named like an archive (`*.zip`).
- Disk.FileSystem.RemoveDirectory: a regular file at the given path is removed like an empty directory. PHP's `RecursiveDirectoryIterator` throws `UnexpectedValueException` on a path that is not a directory, so `removeDirectory` then fails. The exports directories are taken to hold only what the exporters put there, as in the line above.
- Disk.Renamed: the target's parent is taken to be an existing directory. In the model every target `updateSlug` renames to lies directly in the exports directory, because ExportsStore.RenameTarget keeps the new name as one name; the ExportsStore.RenameEach line above says where PHP differs. A `rename` that fails returns `false` with a warning in PHP; the model changes nothing then and records no warning.
- PackageExporting.PackageExporter.EnterLocale: takes the locale directory to be the working directory plus the locale code as one plain name. The same holds for PackageExporting.PackageExporter.StartLocale, LegacyExporting.ContentExporter.EnterLocale and LegacyExporting.ContentExporter.StartLocale. PHP builds it with `Path::join`, which canonicalises the code:
  - `''` and `.` give the working directory itself, so `data/` and the interface file land beside the package's other files;
  - `..` gives the exports directory, so `data/` is written there and `finish` then removes the whole exports directory, archives included;
  - a code holding `/` gives nested directories.

  So PackageExporting.ExportLeaves, PackageExporting.ArchiveKept and the statement of PackageExporting.PackageExporter.Export that only the archive is left behind hold for locale codes that are plain names, as Bolt's locale codes are.
- File permissions (`mkdir` mode `0777`) are not modelled, and neither are the failures of `mkdir`, `copy`, `unlink` or `rename` on an unwritable disk.
- The controllers and menus that serve the archives over HTTP (`ExporterController`, `ExporterMenu`) are not part of this model.

## Findings

| source | as written | input that shows it | evidently intended | confidence | as-written member | corrected member |
|---|---|---|---|---|---|---|
| src/Utilities/PackageExporter.php:382 | when the archive is missing, `finish` calls `$this->logError`, a method `PackageExporter` does not define. The resulting `Error` skips the cleanup at lines 385-388 and makes the command report FAILURE | an export whose `zipWritten` is false and whose archive did not already exist | log the error to the progress log, remove the working directory, and go on with the next export | high; not executed | PackageExporting.PackageExporter.FinishAsWritten | PackageExporting.PackageExporter.Finish |
| src/Stores/PackageExportsStore.php:184 | the date piece goes through `createFromFormat` unchecked, so a piece that does not parse hands `false` to `PackageExport`'s `\DateTime` parameter (line 194). The `TypeError` makes `findAll`, `findBySlug`, `destroy` and `updateSlug` throw for the whole directory | one archive named `news_notadate.zip` | skip a name whose date does not parse, as a name with the wrong number of pieces is skipped | medium; not executed | ExportsStore.UnparsableDateThrows | ExportsStore.ListingSkippingMember |
| src/Utilities/ExtendedZip.php:38 | `while ($filename = readdir($dir))` stops at an entry named `0`, because the string `"0"` is falsy | a directory whose `readdir` order lists `0` before `a.mp3` | archive every entry other than `.` and `..` | high; not executed | Zip.ZeroNameStopsListing | Zip.EveryFileListed |
