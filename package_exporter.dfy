/** The current exporter. A package is laid out as a directory tree below the exports directory, in
    full form (media copied in) or slim form (media referenced by URL). The tree is zipped with every
    entry under `content/` and then removed. */
module PackageExporting {
  import opened Wrappers
  import opened Json
  import opened Text
  import opened Disk
  import opened Models
  import Config
  import Filenames
  import Logging

  /** One entry of the `exporter/supported_languages` setting. */
  datatype LanguageSetting = LanguageSetting(boltLocaleCode: string, codes: Json, text: string, default: bool)

  /** `App\Models\Language`: what `languages.json` lists. */
  datatype Language = Language(codes: Json, text: string, default: bool)

  /** The calls the exporter makes on itself, in order. */
  datatype Step =
    | Started(name: string, slug: string, isSlim: bool)
    | LocaleStarted(locale: string)
    | LanguageAdded(text: string)
    | CollectionAdded(collection: Collection)
    | SingleAdded(single: Single)
    | LocaleFinished
    | Finished

  /** The five working directories; the empty path stands for PHP's `''`. */
  datatype Directories = Directories(exportRoot: Path, localeRoot: Path, exportData: Path, exportImages: Path, exportMedia: Path)

  const DefaultFileDateFormat: string := "m-d-Y-H-i"
  const ExportsDirMissing: string := "The exports directory does not exist!"
  /** Stands for whatever PHP raises, wherever it raises it, on a languages setting that is not a list
      of objects with string fields; the model stops at the setting's first reading instead. */
  const MalformedLanguages: string := "The supported languages setting is malformed"
  /** What `getFilename` throws when handed a date format that is not a string. */
  const FilenameTypeErrorHead: string := "App\\Stores\\PackageExportsStore::getFilename(): Argument #2 ($fileDateFormat) must be of type string, "
  function FilenameTypeError(format: Json): string {
    FilenameTypeErrorHead + TypeName(format) + " given"
  }

  const ScalarAsArray: string := "Cannot use a scalar value as an array"
  const StringOffset: string := "Cannot access offset of type string on string"
  const UndefinedLogError: string := "Call to undefined method App\\Utilities\\PackageExporter::logError()"
  const LogoKey: string := "APP_LOGO"
  const LogoDir: string := "content/"

  /** `Constants::DEFAULT_SUPPORTED_LANGUAGES`: English alone, as the default. */
  const DefaultLanguagesJson: Json :=
    JList([JObj(map["text" := JStr("English"), "bolt_locale_code" := JStr("en"),
                    "codes" := JList([JStr("en-US"), JStr("en")]), "default" := JBool(true)])])

  /** A language entry as the exporter reads it: a locale code and a text that are strings, codes that
      form an array, and `(bool) $lang['default']`, false when absent. */
  function DecodeLanguage(j: Json): Option<LanguageSetting> {
    if j.JObj? && "bolt_locale_code" in j.fields && j.fields["bolt_locale_code"].JStr?
      && "codes" in j.fields && (j.fields["codes"].JList? || j.fields["codes"].JObj?)
      && "text" in j.fields && j.fields["text"].JStr?
    then Some(LanguageSetting(j.fields["bolt_locale_code"].s, j.fields["codes"], j.fields["text"].s,
                              "default" in j.fields && j.fields["default"].Truthy()))
    else None
  }

  function DecodeLanguages(j: Json): (r: Option<seq<LanguageSetting>>)
    ensures r.Some? ==> j.JList? && |r.value| == |j.items|
    ensures r.Some? ==> forall i :: 0 <= i < |j.items| ==> DecodeLanguage(j.items[i]) == Some(r.value[i])
  {
    if j.JList? && forall i :: 0 <= i < |j.items| ==> DecodeLanguage(j.items[i]).Some?
    then
      var ls := seq(|j.items|, i requires 0 <= i < |j.items| && DecodeLanguage(j.items[i]).Some? => DecodeLanguage(j.items[i]).value);
      assert forall i :: 0 <= i < |j.items| ==> ls[i] == DecodeLanguage(j.items[i]).value;
      Some(ls)
    else None
  }

  /** The default setting decodes to English under `en`, marked as the default language. */
  lemma DefaultLanguages()
    ensures DecodeLanguages(DefaultLanguagesJson) == Some([LanguageSetting("en", JList([JStr("en-US"), JStr("en")]), "English", true)])
  {
    var j := DefaultLanguagesJson.items[0];
    assert "bolt_locale_code" in j.fields && "codes" in j.fields && "text" in j.fields && "default" in j.fields;
    var en := LanguageSetting("en", JList([JStr("en-US"), JStr("en")]), "English", true);
    assert DecodeLanguage(j) == Some(en);
    assert forall i :: 0 <= i < |DefaultLanguagesJson.items| ==> DecodeLanguage(DefaultLanguagesJson.items[i]).Some?;
    var r := DecodeLanguages(DefaultLanguagesJson);
    assert r.Some? && |r.value| == 1 && r.value[0] == en;
    assert r.value == [en];
  }

  function LanguageJson(l: Language): Json {
    JObj(map["codes" := l.codes, "default" := JBool(l.default), "text" := JStr(l.text)])
  }

  function LanguagesJson(ls: seq<Language>): Json {
    JList(seq(|ls|, i requires 0 <= i < |ls| => LanguageJson(ls[i])))
  }

  /** No two languages share a text. */
  predicate DistinctTexts(ls: seq<Language>) {
    forall i, j :: 0 <= i < j < |ls| ==> ls[i].text != ls[j].text
  }

  /** `addLanguage`: a language whose text is already listed is dropped, otherwise it goes last. */
  function AddByText(ls: seq<Language>, l: Language): (r: seq<Language>)
    ensures (exists i :: 0 <= i < |ls| && ls[i].text == l.text) ==> r == ls
    ensures (forall i :: 0 <= i < |ls| ==> ls[i].text != l.text) ==> r == ls + [l]
    ensures DistinctTexts(ls) ==> DistinctTexts(r)
    ensures exists i :: 0 <= i < |r| && r[i].text == l.text
  {
    if exists i :: 0 <= i < |ls| && ls[i].text == l.text then ls
    else (assert (ls + [l])[|ls|].text == l.text; ls + [l])
  }

  /** `Path::canonicalize` of a relative path appended to a base: empty and `.` segments vanish, `..` climbs. */
  function Resolve(base: Path, segments: seq<string>): Path
    decreases |segments|
  {
    if |segments| == 0 then base
    else if segments[0] == "" || segments[0] == "." then Resolve(base, segments[1..])
    else if segments[0] == ".." then Resolve(if |base| > 0 then base[..|base| - 1] else base, segments[1..])
    else Resolve(base + [segments[0]], segments[1..])
  }

  /** A path as `Path::canonicalize` leaves it: no empty, `.` or `..` segment, and no `/` inside one. */
  predicate CanonicalPath(dir: Path) {
    forall i :: 0 <= i < |dir| ==> dir[i] != "" && dir[i] != "." && dir[i] != ".." && '/' !in dir[i]
  }

  /** `Path::canonicalize($dir . $tail)` for an absolute directory: the text is glued on without a separator. */
  function Concat(dir: Path, tail: string): Path {
    Resolve([], Split("/" + Text.Join(dir, "/") + tail, '/'))
  }

  /** A plain name at the head of the segments is simply appended. */
  lemma ResolvePlainHead(base: Path, name: string, rest: seq<string>)
    requires name != "" && name != "." && name != ".."
    ensures Resolve(base, [name] + rest) == Resolve(base + [name], rest)
  {
    assert ([name] + rest)[1..] == rest;
  }

  /** An empty or `.` segment changes nothing. */
  lemma ResolveSkip(base: Path, name: string, rest: seq<string>)
    requires name == "" || name == "."
    ensures Resolve(base, [name] + rest) == Resolve(base, rest)
  {
    assert ([name] + rest)[1..] == rest;
  }

  /** Reading a canonical directory's names one by one stops at its last name, to which the tail is glued. */
  lemma {:induction false} ResolveJoined(base: Path, dir: Path, tail: string)
    requires |dir| > 0 && CanonicalPath(dir)
    ensures Resolve(base, Split(Text.Join(dir, "/") + tail, '/'))
      == Resolve(base + dir[..|dir| - 1], Split(dir[|dir| - 1] + tail, '/'))
    decreases |dir|
  {
    if |dir| == 1 {
      assert base + dir[..0] == base;
    } else {
      var later := dir[1..];
      assert CanonicalPath(later);
      var rest := Text.Join(later, "/") + tail;
      calc {
        Text.Join(dir, "/") + tail;
        dir[0] + "/" + Text.Join(later, "/") + tail;
        { AppendAssoc(dir[0] + "/", Text.Join(later, "/"), tail); }
        dir[0] + ['/'] + rest;
      }
      SplitAfterPiece(dir[0], '/', rest);
      ResolvePlainHead(base, dir[0], Split(rest, '/'));
      ResolveJoined(base + [dir[0]], later, tail);
      assert |later| == |dir| - 1 && later[|later| - 1] == dir[|dir| - 1];
      assert base + [dir[0]] + later[..|later| - 1] == base + dir[..|dir| - 1];
    }
  }

  /** The glued text ends up next to the directory's last name unless the tail starts with `/`. */
  lemma ConcatGlued(dir: Path, tail: string)
    requires |dir| > 0 && CanonicalPath(dir)
    ensures Concat(dir, tail) == Resolve(dir[..|dir| - 1], Split(dir[|dir| - 1] + tail, '/'))
  {
    var text := Text.Join(dir, "/") + tail;
    assert "/" + Text.Join(dir, "/") + tail == "" + ['/'] + text;
    SplitAfterPiece("", '/', text);
    assert ([""] + Split(text, '/'))[1..] == Split(text, '/');
    ResolveJoined([], dir, tail);
    assert [] + dir[..|dir| - 1] == dir[..|dir| - 1];
  }

  /** A tail that starts with `/` lands below the directory, as if the two had been joined. */
  lemma ConcatBelow(dir: Path, tail: string)
    requires CanonicalPath(dir) && |tail| > 0 && tail[0] == '/'
    ensures Concat(dir, tail) == Resolve(dir, Split(tail, '/'))
  {
    var rest := tail[1..];
    assert tail == "" + ['/'] + rest;
    SplitAfterPiece("", '/', rest);
    assert ([""] + Split(rest, '/'))[1..] == Split(rest, '/');
    if |dir| == 0 {
      assert "/" + Text.Join(dir, "/") + tail == "" + ['/'] + tail;
      SplitAfterPiece("", '/', tail);
      assert ([""] + Split(tail, '/'))[1..] == Split(tail, '/');
    } else {
      var last := dir[|dir| - 1];
      ConcatGlued(dir, tail);
      assert last + tail == last + ['/'] + rest;
      SplitAfterPiece(last, '/', rest);
      assert ([last] + Split(rest, '/'))[1..] == Split(rest, '/');
      assert dir[..|dir| - 1] + [last] == dir;
    }
  }

  /** A tail `a/b` without the leading `/` is glued onto the directory's last name: `a` becomes part of
      that name and `b` a directory below it. */
  lemma ConcatBeside(parent: Path, last: string, a: string, b: string)
    requires CanonicalPath(parent + [last]) && CanonicalPath([a, b])
    ensures Concat(parent + [last], a + "/" + b) == parent + [last + a, b]
  {
    var dir := parent + [last];
    assert dir[|dir| - 1] == last && dir[..|dir| - 1] == parent;
    assert [a, b][0] == a && [a, b][1] == b;
    ConcatGlued(dir, a + "/" + b);
    assert last + (a + "/" + b) == (last + a) + ['/'] + b;
    assert '/' !in last + a && last + a != "" && last + a != "." && last + a != "..";
    SplitAfterPiece(last + a, '/', b);
    SplitWithoutSeparator(b, '/');
    ResolvePlainHead(parent, last + a, [b]);
    ResolvePlainHead(parent + [last + a], b, []);
  }

  /** A relative setting such as `files/exports` under `/app/public` gives `/app/publicfiles/exports`. */
  lemma ConcatSibling()
    ensures Concat(["app", "public"], "files/exports") == ["app", "publicfiles", "exports"]
  {
    ConcatBeside(["app"], "public", "files", "exports");
    assert ["app"] + ["public"] == ["app", "public"];
    assert "files" + "/" + "exports" == "files/exports";
    assert "public" + "files" == "publicfiles";
  }

  /** The settings the exporter reads, as the segments `Config::get` splits their keys into. */
  const LogoPath: seq<string> := ["exporter", "logo_public_path"]
  const LanguagesPath: seq<string> := ["exporter", "supported_languages"]
  const DateFormatPath: seq<string> := ["exporter", "file_date_suffix"]

  function InterfacePath(locale: string): seq<string> {
    ["exporter", "interface"] + Split(locale, '/')
  }

  /** `'exporter/interface/' . $code` names the locale's entry below `exporter/interface`. */
  lemma InterfacePathSplit(locale: string)
    ensures Split("exporter/interface/" + locale, '/') == InterfacePath(locale)
  {
    SplitAfterPiece("interface", '/', locale);
    assert "exporter/interface/" + locale == "exporter" + ['/'] + ("interface" + ['/'] + locale);
    SplitAfterPiece("exporter", '/', "interface" + ['/'] + locale);
  }

  /** The site logo the exporter ships: the public directory's text followed by the configured path,
      when that names an existing file, else none. */
  function SiteLogo(entries: map<Path, Node>, publicPath: Path, config: Json): Path {
    var setting := Config.Walk(config, LogoPath, JNull);
    if setting.JStr? && setting.Truthy() && Concat(publicPath, setting.s) in entries
    then Concat(publicPath, setting.s)
    else []
  }

  /** The working directory: `basename` of the archive name, less `.zip`, inside the exports directory. */
  function WorkingDir(exportsDir: Path, slug: string, dateText: string, isSlim: bool): Path {
    exportsDir + [StripSuffix(LastPiece(Filenames.Filename(slug, dateText, isSlim), '/'), Filenames.ZipSuffix)]
  }

  /** `root . '.zip'`: a sibling of the working directory. */
  function ArchivePath(root: Path): Path {
    if |root| == 0 then [Filenames.ZipSuffix] else root[..|root| - 1] + [root[|root| - 1] + Filenames.ZipSuffix]
  }

  /** The archive of an export whose slug and date text hold neither `_` nor `/` sits in the exports
      directory under the name `getFilename` gives, which the exports store decodes back to the slug,
      the date text and the slim flag. */
  lemma ArchiveNamed(exportsDir: Path, slug: string, dateText: string, isSlim: bool)
    requires '_' !in slug && '_' !in dateText
    requires '/' !in slug && '/' !in dateText
    ensures ArchivePath(WorkingDir(exportsDir, slug, dateText, isSlim)) == exportsDir + [Filenames.Filename(slug, dateText, isSlim)]
    ensures Filenames.Decode(Basename(ArchivePath(WorkingDir(exportsDir, slug, dateText, isSlim))))
      == Some(Filenames.Decoded(slug, dateText, isSlim))
  {
    var name := Filenames.Filename(slug, dateText, isSlim);
    var head := if isSlim then Filenames.SlimPrefix else "";
    assert name == head + slug + "_" + dateText + Filenames.ZipSuffix;
    assert '/' !in name;
    var root := WorkingDir(exportsDir, slug, dateText, isSlim);
    assert root[..|root| - 1] == exportsDir;
    assert StripSuffix(name, Filenames.ZipSuffix) + Filenames.ZipSuffix == name;
    Filenames.RoundTrip(slug, dateText, isSlim);
  }

  /** A date text holding `/` (a `d/m/Y` setting, say) cuts the name at its last `/`: the working directory
      and the archive are named after the text that follows it alone, and when that text holds no `_`
      the exports store cannot decode the archive's name. */
  lemma ArchiveCutAtSlash(exportsDir: Path, slug: string, before: string, after: string, isSlim: bool)
    requires '/' !in after && |after| > 0
    ensures WorkingDir(exportsDir, slug, before + "/" + after, isSlim) == exportsDir + [after]
    ensures ArchivePath(WorkingDir(exportsDir, slug, before + "/" + after, isSlim)) == exportsDir + [after + Filenames.ZipSuffix]
    ensures '_' !in after ==> Filenames.Decode(after + Filenames.ZipSuffix).None?
  {
    var head := if isSlim then Filenames.SlimPrefix else "";
    var name := Filenames.Filename(slug, before + "/" + after, isSlim);
    assert name == (head + slug + "_" + before) + ['/'] + (after + Filenames.ZipSuffix);
    assert '/' !in Filenames.ZipSuffix;
    LastPieceAfter(head + slug + "_" + before, '/', after + Filenames.ZipSuffix);
    Filenames.StripZip(after);
    var root := WorkingDir(exportsDir, slug, before + "/" + after, isSlim);
    assert root[..|root| - 1] == exportsDir;
    if '_' !in after {
      assert Count(after, '_') == 0;
    }
  }

  /** The archive never lies inside the working directory, so removing the directory keeps it. */
  lemma ArchiveOutsideRoot(root: Path)
    requires |root| > 0
    ensures !Under(root, ArchivePath(root))
  {
    var zip := ArchivePath(root);
    var n := |root|;
    assert |zip| == n && zip[..n] == zip;
    assert |zip[n - 1]| == |root[n - 1]| + |Filenames.ZipSuffix|;
  }

  /** Decimal digits of a list index, as PHP turns integer keys into JSON object keys. */
  function DecimalString(n: nat): (s: string)
    ensures |s| > 0 && forall i :: 0 <= i < |s| ==> '0' <= s[i] <= '9'
    ensures DigitsValue(s) == n
    decreases n
  {
    if n < 10 then [(n + '0' as int) as char]
    else
      var front := DecimalString(n / 10);
      var s := front + [(n % 10 + '0' as int) as char];
      assert s[..|s| - 1] == front;
      s
  }

  function IndexedFields(items: seq<Json>): map<string, Json> {
    map i | 0 <= i < |items| :: DecimalString(i) := items[i]
  }

  /** `$interface['APP_LOGO'] = $logo`: arrays gain the key (a list becomes an object with index keys),
      null and false become a one-key array, and other scalars throw. */
  function WithLogo(interface: Json, logo: string): (r: Result<Json>)
    ensures r.Ok? <==> !(interface.JBool? && interface.b) && !interface.JInt? && !interface.JStr?
    ensures r.Ok? ==> r.value.JObj? && LogoKey in r.value.fields && r.value.fields[LogoKey] == JStr(logo)
    ensures interface.JObj? ==> r == Ok(JObj(interface.fields[LogoKey := JStr(logo)]))
  {
    match interface
    case JObj(fields) => Ok(JObj(fields[LogoKey := JStr(logo)]))
    case JList(items) => Ok(JObj(IndexedFields(items)[LogoKey := JStr(logo)]))
    case JNull => Ok(JObj(map[LogoKey := JStr(logo)]))
    case JBool(b) => if b then Err(ScalarAsArray) else Ok(JObj(map[LogoKey := JStr(logo)]))
    case JInt(_) => Err(ScalarAsArray)
    case JStr(_) => Err(StringOffset)
  }

  /** The interface texts for a locale: its own setting when truthy, else the English one. */
  function InterfaceFor(config: Json, locale: string): Json {
    var own := Config.Walk(config, InterfacePath(locale), JNull);
    if own.Truthy() then own else Config.Walk(config, InterfacePath("en"), JNull)
  }

  /** The date format setting, with the default when it is not set. */
  function DateFormat(config: Json): Json {
    Config.Walk(config, DateFormatPath, JStr(DefaultFileDateFormat))
  }

  /** The working directories once a locale has started. */
  function LocaleDirs(root: Path, locale: string, isSlim: bool): Directories {
    var localeRoot := root + [locale];
    Directories(root, localeRoot, localeRoot + ["data"],
                if isSlim then [] else localeRoot + ["images"],
                if isSlim then [] else localeRoot + ["media"])
  }

  /** `json_encode($this->mainData)`: an empty PHP array is written as a list. */
  function ManifestJson(m: map<string, Json>): Json {
    if m == map[] then JList([]) else JObj(m)
  }

  /** `$mainData['content'][] = $item`. */
  function AppendContent(m: map<string, Json>, item: Json): (r: map<string, Json>)
    requires "content" in m ==> m["content"].JList?
    ensures r.Keys == m.Keys + {"content"}
    ensures r["content"].JList? && r["content"].items == (if "content" in m then m["content"].items else []) + [item]
    ensures forall k :: k in m && k != "content" ==> r[k] == m[k]
  {
    var before := if "content" in m then m["content"].items else [];
    m["content" := JList(before + [item])]
  }

  /** The manifest holds the content list of the adds since the locale started, and the package name
      exactly while the first locale of an export is under way. */
  predicate ManifestShape(m: map<string, Json>, added: nat, first: bool) {
    (m == map[] && added == 0 && !first)
    || ("content" in m && m["content"].JList? && |m["content"].items| == added && ("itemName" in m <==> first)
        && (added > 0 || first))
  }

  /** What `start` leaves on disk: the working directory, and the logo copied into it. */
  function StartLayout(entries: map<Path, Node>, root: Path, logo: Path): map<Path, Node>
    requires |root| > 0
  {
    var made := if root in entries then entries else WithDirs(entries, root);
    if logo != [] then Copied(made, logo, root + [Basename(logo)]) else made
  }

  /** `mkdir` (recursive or not) guarded by `file_exists`. */
  function MkdirsIfMissing(entries: map<Path, Node>, p: Path): map<Path, Node> {
    if p in entries then entries else WithDirs(entries, p)
  }

  function MkdirIfMissing(entries: map<Path, Node>, p: Path): (r: map<Path, Node>)
    requires |p| > 0
    ensures Touched(entries, r, p)
  {
    if p in entries then entries else MadeDir(entries, p)
  }

  /** Nothing lies below a path, except perhaps a directory at the path itself. */
  predicate Vacant(entries: map<Path, Node>, dir: Path) {
    forall q :: q in entries && Under(dir, q) ==> q == dir && entries[q] == Dir
  }

  /** The locale's directory, its `data` directory and `interface.json` in it. */
  function LocaleData(entries: map<Path, Node>, localeRoot: Path, interface: Json): map<Path, Node>
    requires |localeRoot| > 0
  {
    Put(MkdirIfMissing(MkdirsIfMissing(entries, localeRoot), localeRoot + ["data"]),
        localeRoot + ["data", "interface.json"], interface)
  }

  /** The `images` and `media` directories of a full export. */
  function LocaleMediaDirs(entries: map<Path, Node>, localeRoot: Path): map<Path, Node>
    requires |localeRoot| > 0
  {
    MkdirIfMissing(MkdirIfMissing(entries, localeRoot + ["images"]), localeRoot + ["media"])
  }

  /** What `startLocale` leaves on disk. */
  function LocaleLayout(entries: map<Path, Node>, localeRoot: Path, interface: Json, isSlim: bool): map<Path, Node>
    requires |localeRoot| > 0
  {
    var written := LocaleData(entries, localeRoot, interface);
    if isSlim then written else LocaleMediaDirs(written, localeRoot)
  }

  lemma LocaleDataConfined(entries: map<Path, Node>, localeRoot: Path, interface: Json)
    requires |localeRoot| > 0
    ensures Confined(entries, LocaleData(entries, localeRoot, interface), localeRoot)
  {
    var data := localeRoot + ["data"];
    var file := localeRoot + ["data", "interface.json"];
    var e1 := MkdirsIfMissing(entries, localeRoot);
    var e2 := MkdirIfMissing(e1, data);
    assert Under(localeRoot, data) && Under(localeRoot, file);
    WithDirsConfined(entries, localeRoot, localeRoot);
    TouchedConfined(e1, e2, data, localeRoot);
    TouchedConfined(e2, Put(e2, file, interface), file, localeRoot);
  }

  lemma LocaleMediaDirsConfined(entries: map<Path, Node>, localeRoot: Path)
    requires |localeRoot| > 0
    ensures Confined(entries, LocaleMediaDirs(entries, localeRoot), localeRoot)
  {
    var images := localeRoot + ["images"];
    var media := localeRoot + ["media"];
    var e1 := MkdirIfMissing(entries, images);
    assert Under(localeRoot, images) && Under(localeRoot, media);
    TouchedConfined(entries, e1, images, localeRoot);
    TouchedConfined(e1, MkdirIfMissing(e1, media), media, localeRoot);
  }

  /** Starting a locale changes nothing away from the locale's directory and its ancestors. */
  lemma LocaleLayoutConfined(entries: map<Path, Node>, localeRoot: Path, interface: Json, isSlim: bool)
    requires |localeRoot| > 0
    ensures Confined(entries, LocaleLayout(entries, localeRoot, interface, isSlim), localeRoot)
  {
    var written := LocaleData(entries, localeRoot, interface);
    LocaleDataConfined(entries, localeRoot, interface);
    if !isSlim {
      LocaleMediaDirsConfined(written, localeRoot);
      ConfinedTrans(entries, written, LocaleMediaDirs(written, localeRoot), localeRoot);
    }
  }

  /** `mkdir -p` of a vacant directory leaves it a directory with still nothing below it. */
  lemma MkdirsVacant(entries: map<Path, Node>, dir: Path)
    requires |dir| > 0 && Vacant(entries, dir)
    ensures IsDirIn(MkdirsIfMissing(entries, dir), dir) && Vacant(MkdirsIfMissing(entries, dir), dir)
  {
    var e := MkdirsIfMissing(entries, dir);
    forall q | q in e && Under(dir, q) ensures q == dir && e[q] == Dir {
      if q !in entries {
        assert Under(q, dir);
      }
    }
  }

  lemma VacantMissing(entries: map<Path, Node>, dir: Path, q: Path)
    requires Vacant(entries, dir) && Under(dir, q) && q != dir
    ensures q !in entries
  {
  }

  lemma LocaleDataWrites(made: map<Path, Node>, localeRoot: Path, interface: Json)
    requires |localeRoot| > 0 && IsDirIn(made, localeRoot)
    requires localeRoot + ["data"] !in made && localeRoot + ["data", "interface.json"] !in made
    ensures Put(MkdirIfMissing(made, localeRoot + ["data"]), localeRoot + ["data", "interface.json"], interface)
      == made[localeRoot + ["data"] := Dir][localeRoot + ["data", "interface.json"] := File(Data(interface))]
  {
    var data := localeRoot + ["data"];
    var file := localeRoot + ["data", "interface.json"];
    assert data[..|data| - 1] == localeRoot && file[..|file| - 1] == data;
    assert MkdirIfMissing(made, data) == made[data := Dir];
  }

  lemma LocaleMediaDirsWrites(entries: map<Path, Node>, localeRoot: Path)
    requires |localeRoot| > 0 && IsDirIn(entries, localeRoot)
    requires localeRoot + ["images"] !in entries && localeRoot + ["media"] !in entries
    ensures LocaleMediaDirs(entries, localeRoot) == entries[localeRoot + ["images"] := Dir][localeRoot + ["media"] := Dir]
  {
    var images := localeRoot + ["images"];
    var media := localeRoot + ["media"];
    assert images[..|images| - 1] == localeRoot && media[..|media| - 1] == localeRoot;
    assert MkdirIfMissing(entries, images) == entries[images := Dir];
  }

  /** Into a locale directory with nothing below it, `startLocale` writes `data/interface.json` and, unless
      the export is slim, makes `images` and `media`; a slim export makes neither. */
  lemma LocaleLayoutWrites(entries: map<Path, Node>, localeRoot: Path, interface: Json, isSlim: bool)
    requires |localeRoot| > 0 && Vacant(entries, localeRoot)
    ensures var r := LocaleLayout(entries, localeRoot, interface, isSlim);
      IsDirIn(r, localeRoot) && IsDirIn(r, localeRoot + ["data"])
      && localeRoot + ["data", "interface.json"] in r
      && r[localeRoot + ["data", "interface.json"]] == File(Data(interface))
      && (isSlim <==> localeRoot + ["images"] !in r)
      && (isSlim <==> localeRoot + ["media"] !in r)
  {
    var data := localeRoot + ["data"];
    var file := localeRoot + ["data", "interface.json"];
    var images := localeRoot + ["images"];
    var media := localeRoot + ["media"];
    var n := |localeRoot|;
    assert |data| == |images| == |media| == n + 1 && |file| == n + 2;
    assert data[n] == "data" && images[n] == "images" && media[n] == "media";
    assert Under(localeRoot, data) && Under(localeRoot, file) && Under(localeRoot, images) && Under(localeRoot, media);
    var made := MkdirsIfMissing(entries, localeRoot);
    MkdirsVacant(entries, localeRoot);
    VacantMissing(made, localeRoot, data);
    VacantMissing(made, localeRoot, file);
    VacantMissing(made, localeRoot, images);
    VacantMissing(made, localeRoot, media);
    LocaleDataWrites(made, localeRoot, interface);
    var written := LocaleData(entries, localeRoot, interface);
    if !isSlim {
      LocaleMediaDirsWrites(written, localeRoot);
    }
  }

  /** `'content/' . basename($siteLogoPath)`: where the interface finds the logo. */
  function LogoRef(siteLogoPath: Path): string {
    LogoDir + Basename(siteLogoPath)
  }

  /** The source of a copy: the local path, or the empty path (which names no file) once it is unset. */
  function Source(local: Option<Path>): Path {
    if local.Some? then local.value else []
  }

  /** What an export reads off an episode to copy its files. */
  datatype EpisodeFiles = EpisodeFiles(title: string, localImage: Path, image: string, localFilename: Path, filename: string)

  function FilesOf(e: Episode): EpisodeFiles
    reads e
  {
    EpisodeFiles(e.title, Source(e.localImage), e.image, Source(e.localFilename), e.filename)
  }

  /** The episodes' files, episode by episode. */
  function EpisodeFilesOf(episodes: seq<Episode>): (r: seq<EpisodeFiles>)
    reads episodes
    ensures |r| == |episodes| && forall i :: 0 <= i < |episodes| ==> r[i] == FilesOf(episodes[i])
  {
    if |episodes| == 0 then [] else [FilesOf(episodes[0])] + EpisodeFilesOf(episodes[1..])
  }

  /** The `copy` calls for one episode: its image into `images`, its media file into `media`. */
  function EpisodeCopy(e: EpisodeFiles, images: Path, media: Path): seq<(Path, Path)> {
    [(e.localImage, images + [e.image]), (e.localFilename, media + [e.filename])]
  }

  /** The `copy` calls for the episodes, episode by episode. */
  function EpisodeCopies(episodes: seq<EpisodeFiles>, images: Path, media: Path): (r: seq<(Path, Path)>)
    ensures |r| == 2 * |episodes|
  {
    if |episodes| == 0 then []
    else EpisodeCopies(episodes[..|episodes| - 1], images, media) + EpisodeCopy(episodes[|episodes| - 1], images, media)
  }

  /** The `k`th episode's copies sit at positions `2k` and `2k + 1`: image first, then media file. */
  lemma {:induction false} EpisodeCopiesIndexed(episodes: seq<EpisodeFiles>, images: Path, media: Path, k: nat)
    requires k < |episodes|
    ensures EpisodeCopies(episodes, images, media)[2 * k .. 2 * k + 2] == EpisodeCopy(episodes[k], images, media)
  {
    var n := |episodes|;
    var front := episodes[..n - 1];
    var r := EpisodeCopies(episodes, images, media);
    assert r == EpisodeCopies(front, images, media) + EpisodeCopy(episodes[n - 1], images, media);
    if k < n - 1 {
      EpisodeCopiesIndexed(front, images, media, k);
      assert r[2 * k .. 2 * k + 2] == EpisodeCopies(front, images, media)[2 * k .. 2 * k + 2];
    } else {
      assert r[2 * k .. 2 * k + 2] == r[|r| - 2..];
    }
  }

  /** One more episode adds its two copies to the run. */
  lemma EpisodeCopiesStep(episodes: seq<EpisodeFiles>, i: nat, images: Path, media: Path)
    requires i < |episodes|
    ensures EpisodeCopies(episodes[..i + 1], images, media)
      == EpisodeCopies(episodes[..i], images, media) + EpisodeCopy(episodes[i], images, media)
  {
    assert episodes[..i + 1][..i] == episodes[..i];
  }

  /** The entries after a run of `copy` calls, in order. */
  function CopyAll(entries: map<Path, Node>, pairs: seq<(Path, Path)>): map<Path, Node> {
    if |pairs| == 0 then entries
    else Copied(CopyAll(entries, pairs[..|pairs| - 1]), pairs[|pairs| - 1].0, pairs[|pairs| - 1].1)
  }

  /** Copies into a directory change nothing away from it and its ancestors. */
  lemma {:induction false} CopyAllConfined(entries: map<Path, Node>, pairs: seq<(Path, Path)>, dir: Path)
    requires forall k :: 0 <= k < |pairs| ==> Under(dir, pairs[k].1)
    ensures Confined(entries, CopyAll(entries, pairs), dir)
  {
    if |pairs| > 0 {
      var front := pairs[..|pairs| - 1];
      CopyAllConfined(entries, front, dir);
      var last := pairs[|pairs| - 1];
      TouchedConfined(CopyAll(entries, front), CopyAll(entries, pairs), last.1, dir);
      ConfinedTrans(entries, CopyAll(entries, front), CopyAll(entries, pairs), dir);
    }
  }

  /** A change confined to a directory is confined to every ancestor of it. */
  lemma ConfinedWiden(before: map<Path, Node>, after: map<Path, Node>, inner: Path, outer: Path)
    requires Confined(before, after, inner) && Under(outer, inner)
    ensures Confined(before, after, outer)
  {
    forall q | q in after && !Under(outer, q) && !Under(q, outer)
      ensures q in before && after[q] == before[q]
    {
      if Under(q, inner) {
        PrefixesComparable(q, outer, inner);
      }
    }
  }

  /** The `copy` calls `addCollection` makes in a full export: the collection image, then each episode's. */
  function MediaCopies(c: Collection, episodes: seq<EpisodeFiles>, images: Path, media: Path): (r: seq<(Path, Path)>)
    ensures |r| == 1 + 2 * |episodes| && r[0] == (c.localImage, images + [c.image])
    ensures r[1..] == EpisodeCopies(episodes, images, media)
  {
    [(c.localImage, images + [c.image])] + EpisodeCopies(episodes, images, media)
  }

  /** The same calls, read off the collection as it is. */
  function CollectionCopies(c: Collection, images: Path, media: Path): seq<(Path, Path)>
    reads c, c.episodes
  {
    MediaCopies(c, EpisodeFilesOf(c.episodes), images, media)
  }

  /** The `copy` calls `addSingle` makes in a full export. */
  function SingleCopies(s: Single, images: Path, media: Path): seq<(Path, Path)> {
    [(s.localImage, images + [s.image]), (s.localFilename, media + [s.filename])]
  }

  /** The disk work of `start`: the working directory, made when missing, and the logo copied into it. */
  method MakeWorkingDir(fs: FileSystem, root: Path, logo: Path)
    requires |root| > 0
    modifies fs
    ensures fs.entries == StartLayout(old(fs.entries), root, logo)
    ensures root in fs.entries && Confined(old(fs.entries), fs.entries, root)
    ensures fs.copies == old(fs.copies) + (if logo != [] then [(logo, root + [Basename(logo)])] else [])
  {
    ghost var before := fs.entries;
    if root !in fs.entries {
      fs.MakeDirs(root);
      WithDirsConfined(before, root, root);
    }
    if logo != [] {
      ghost var made := fs.entries;
      var dst := Disk.Join(root, Basename(logo));
      fs.Copy(logo, dst);
      assert Under(root, dst);
      TouchedConfined(made, fs.entries, dst, root);
    }
  }

  /** The locale's directory, its `data` directory and `interface.json`, as `startLocale` writes them. */
  method WriteLocaleData(fs: FileSystem, localeRoot: Path, interface: Json)
    requires |localeRoot| > 0
    modifies fs
    ensures fs.entries == LocaleData(old(fs.entries), localeRoot, interface)
    ensures fs.copies == old(fs.copies)
  {
    if localeRoot !in fs.entries {
      fs.MakeDirs(localeRoot);
    }
    var data := Disk.Join(localeRoot, "data");
    if data !in fs.entries {
      fs.MakeDir(data);
    }
    var file := Disk.Join(data, "interface.json");
    assert file == localeRoot + ["data", "interface.json"];
    fs.PutJson(file, interface);
  }

  /** The `images` and `media` directories of a full export, each made when missing. */
  method MakeMediaDirs(fs: FileSystem, localeRoot: Path)
    requires |localeRoot| > 0
    modifies fs
    ensures fs.entries == LocaleMediaDirs(old(fs.entries), localeRoot)
    ensures fs.copies == old(fs.copies)
  {
    var images := Disk.Join(localeRoot, "images");
    if images !in fs.entries {
      fs.MakeDir(images);
    }
    var media := Disk.Join(localeRoot, "media");
    if media !in fs.entries {
      fs.MakeDir(media);
    }
  }

  /** The disk work of `startLocale`, below the working directory. */
  method LayOutLocale(fs: FileSystem, root: Path, locale: string, interface: Json, isSlim: bool)
    requires |root| > 0 && root in fs.entries
    modifies fs
    ensures fs.entries == LocaleLayout(old(fs.entries), root + [locale], interface, isSlim)
    ensures root in fs.entries && Confined(old(fs.entries), fs.entries, root)
    ensures fs.copies == old(fs.copies)
  {
    ghost var before := fs.entries;
    var localeRoot := Disk.Join(root, locale);
    WriteLocaleData(fs, localeRoot, interface);
    if !isSlim {
      MakeMediaDirs(fs, localeRoot);
    }
    LocaleLayoutConfined(before, localeRoot, interface, isSlim);
    assert Under(root, localeRoot);
    ConfinedWiden(before, fs.entries, localeRoot, root);
  }

  /** Two more copies extend a run of copies. */
  lemma CopyAllPair(entries: map<Path, Node>, pairs: seq<(Path, Path)>, a: (Path, Path), b: (Path, Path))
    ensures CopyAll(entries, pairs + [a, b]) == Copied(Copied(CopyAll(entries, pairs), a.0, a.1), b.0, b.1)
  {
    assert (pairs + [a, b])[..|pairs| + 1] == pairs + [a];
    assert (pairs + [a])[..|pairs|] == pairs;
  }

  /** A run of copies followed by another is one run. */
  lemma {:induction false} CopyAllAppend(entries: map<Path, Node>, xs: seq<(Path, Path)>, ys: seq<(Path, Path)>)
    ensures CopyAll(entries, xs + ys) == CopyAll(CopyAll(entries, xs), ys)
  {
    if |ys| == 0 {
      assert xs + ys == xs;
    } else {
      var front := ys[..|ys| - 1];
      CopyAllAppend(entries, xs, front);
      assert (xs + ys)[..|xs + ys| - 1] == xs + front;
    }
  }

  /** What adding an item leaves on disk: its data file written, then its copies made in order. */
  function ItemLayout(entries: map<Path, Node>, dataFile: Path, data: Json, copies: seq<(Path, Path)>): map<Path, Node>
    requires |dataFile| > 0
  {
    CopyAll(Put(entries, dataFile, data), copies)
  }

  /** What `zipTree` leaves on disk: the archive next to the working directory when it was written. */
  function ZipLayout(entries: map<Path, Node>, root: Path, written: bool): map<Path, Node> {
    if written then entries[ArchivePath(root) := File(Disk.Archive(root))] else entries
  }

  /** A path as the absolute file name PHP prints. */
  function PathText(p: Path): string {
    "/" + Text.Join(p, "/")
  }

  /** The clean-up of `finish`: each provided locale's directory, then the working directory, removed
      recursively. Nothing outside the working directory is touched. */
  method RemoveWorkingDir(fs: FileSystem, root: Path, locales: seq<string>)
    modifies fs
    ensures root in old(fs.entries) ==> fs.entries == Without(old(fs.entries), root)
    ensures fs.entries.Keys <= old(fs.entries).Keys
    ensures forall q :: q in fs.entries ==> fs.entries[q] == old(fs.entries)[q]
    ensures forall q :: q in old(fs.entries) && !Under(root, q) ==> q in fs.entries
    ensures fs.copies == old(fs.copies)
  {
    for i := 0 to |locales|
      invariant fs.entries.Keys <= old(fs.entries).Keys
      invariant forall q :: q in fs.entries ==> fs.entries[q] == old(fs.entries)[q]
      invariant forall q :: q in old(fs.entries) && !Under(root, q) ==> q in fs.entries
      invariant root in old(fs.entries) ==> root in fs.entries
      invariant fs.copies == old(fs.copies)
    {
      var dir := Disk.Join(root, locales[i]);
      forall q | Under(dir, q)
        ensures Under(root, q)
      {
        UnderTrans(root, dir, q);
      }
      fs.RemoveDirectory(dir);
    }
    ghost var kept := fs.entries;
    fs.RemoveDirectory(root);
    if root in old(fs.entries) {
      assert fs.entries.Keys == Without(old(fs.entries), root).Keys;
    }
  }

  /** The records `finish` appends to the log: three progress records, then the archive's outcome (the
      counter goes up first when it exists), and the closing record. */
  function FinishRecords(counter: int, zipped: bool, zip: Path, now: int): seq<Logging.Entry> {
    var next := if zipped then counter + 1 else counter;
    [Logging.Entry(false, Some(counter), false, "Completing export!", now),
     Logging.Entry(false, Some(counter), false, "Creating languages file: languages.json", now),
     Logging.Entry(false, Some(counter), false, "Zipping up the archive.", now)]
    + [if zipped then Logging.Entry(false, Some(next), false, "Archive has been zipped up. Doing some clean up.", now)
       else Logging.Entry(false, Some(counter), true, "For some reason the zip was not created: " + PathText(zip), now)]
    + [Logging.Entry(false, Some(next), false, "Completed export.", now)]
  }

  /** `finish` reports an error exactly when the archive is missing, and ends with the counter raised
      exactly when it exists; no record of it marks a process as completed. */
  lemma FinishReports(before: seq<Logging.Entry>, counter: int, zipped: bool, zip: Path, now: int)
    ensures var after := before + FinishRecords(counter, zipped, zip, now);
      (Logging.ErrorLogged(before, after) <==> !zipped)
      && after[|after| - 1].counter == Some(if zipped then counter + 1 else counter)
      && forall i :: |before| <= i < |after| ==> !after[i].completed
  {
    var after := before + FinishRecords(counter, zipped, zip, now);
    if !zipped {
      assert after[|before| + 3].isError;
    }
  }

  /** A locale's directories lie in the working directory. */
  lemma LocaleDirsBelowRoot(root: Path, locale: string, isSlim: bool)
    ensures Under(root, LocaleDirs(root, locale, isSlim).exportData)
    ensures !isSlim ==> Under(root, LocaleDirs(root, locale, isSlim).exportImages)
    ensures !isSlim ==> Under(root, LocaleDirs(root, locale, isSlim).exportMedia)
  {
    var localeRoot := root + [locale];
    assert (localeRoot + ["data"])[..|root|] == root;
    assert (localeRoot + ["images"])[..|root|] == root;
    assert (localeRoot + ["media"])[..|root|] == root;
  }

  /** The steps of adding collections, one per collection, in order. */
  function CollectionSteps(cs: seq<Collection>): (r: seq<Step>)
    ensures |r| == |cs| && forall i :: 0 <= i < |cs| ==> r[i] == CollectionAdded(cs[i])
  {
    seq(|cs|, i requires 0 <= i < |cs| => CollectionAdded(cs[i]))
  }

  /** The steps of adding singles, one per single, in order. */
  function SingleSteps(ss: seq<Single>): (r: seq<Step>)
    ensures |r| == |ss| && forall i :: 0 <= i < |ss| ==> r[i] == SingleAdded(ss[i])
  {
    seq(|ss|, i requires 0 <= i < |ss| => SingleAdded(ss[i]))
  }

  lemma CollectionStepsStep(cs: seq<Collection>, i: nat)
    requires i < |cs|
    ensures CollectionSteps(cs[..i + 1]) == CollectionSteps(cs[..i]) + [CollectionAdded(cs[i])]
  {
  }

  lemma SingleStepsStep(ss: seq<Single>, i: nat)
    requires i < |ss|
    ensures SingleSteps(ss[..i + 1]) == SingleSteps(ss[..i]) + [SingleAdded(ss[i])]
  {
  }

  /** One locale of `export`: started, its language added, its collections and then its singles added,
      finished. */
  function LocaleSteps(locale: string, text: string, cs: seq<Collection>, ss: seq<Single>): seq<Step> {
    [LocaleStarted(locale), LanguageAdded(text)] + CollectionSteps(cs) + SingleSteps(ss) + [LocaleFinished]
  }

  /** The locale loop of `export` over the supported languages, in order, skipping a locale the
      package has no content for. */
  function VisitSteps(langs: seq<LanguageSetting>, package: Package): seq<Step>
    reads package
  {
    if |langs| == 0 then []
    else
      var l := langs[|langs| - 1];
      VisitSteps(langs[..|langs| - 1], package)
      + if package.HasContentForLocale(l.boltLocaleCode)
        then LocaleSteps(l.boltLocaleCode, l.text, package.CollectionsByLocale(l.boltLocaleCode), package.SinglesByLocale(l.boltLocaleCode))
        else []
  }

  /** The calls of a whole `export`. */
  function ExportSteps(name: string, slug: string, isSlim: bool, langs: seq<LanguageSetting>, package: Package): seq<Step>
    reads package
  {
    [Started(name, slug, isSlim)] + VisitSteps(langs, package) + [Finished]
  }

  /** `startLocale` stops the export for this language: its interface texts cannot take the logo. */
  predicate InterfaceFails(config: Json, lang: LanguageSetting, logo: Path) {
    WithLogo(InterfaceFor(config, lang.boltLocaleCode), LogoRef(logo)).Err?
  }

  /** Some language the package has content for stops the export. */
  predicate VisitFails(config: Json, langs: seq<LanguageSetting>, package: Package, logo: Path)
    reads package
  {
    exists i :: 0 <= i < |langs| && package.HasContentForLocale(langs[i].boltLocaleCode) && InterfaceFails(config, langs[i], logo)
  }

  /** Only the loop's own steps occur inside it: no `start` and no `finish`. */
  lemma {:induction false} VisitStepsInside(langs: seq<LanguageSetting>, package: Package)
    ensures forall x :: x in VisitSteps(langs, package) ==> !x.Started? && !x.Finished?
  {
    if |langs| > 0 {
      var l := langs[|langs| - 1];
      VisitStepsInside(langs[..|langs| - 1], package);
      if package.HasContentForLocale(l.boltLocaleCode) {
        LocaleStepsInside(l.boltLocaleCode, l.text, package.CollectionsByLocale(l.boltLocaleCode), package.SinglesByLocale(l.boltLocaleCode));
      }
    }
  }

  lemma LocaleStepsInside(locale: string, text: string, cs: seq<Collection>, ss: seq<Single>)
    ensures forall x :: x in LocaleSteps(locale, text, cs, ss) ==> !x.Started? && !x.Finished?
  {
    var steps := LocaleSteps(locale, text, cs, ss);
    forall x | x in steps
      ensures !x.Started? && !x.Finished?
    {
      var k :| 0 <= k < |steps| && steps[k] == x;
      if 2 <= k < 2 + |cs| {
        assert x == CollectionSteps(cs)[k - 2];
      } else if 2 + |cs| <= k < 2 + |cs| + |ss| {
        assert x == SingleSteps(ss)[k - 2 - |cs|];
      }
    }
  }

  /** A locale is started in the loop exactly when a supported language has it and the package has
      content for it. */
  lemma {:induction false} VisitStepsLocales(langs: seq<LanguageSetting>, package: Package, locale: string)
    ensures LocaleStarted(locale) in VisitSteps(langs, package)
      <==> package.HasContentForLocale(locale) && exists i :: 0 <= i < |langs| && langs[i].boltLocaleCode == locale
  {
    if |langs| > 0 {
      var n := |langs|;
      var front := langs[..n - 1];
      VisitStepsLocales(front, package, locale);
      var l := langs[n - 1];
      if package.HasContentForLocale(l.boltLocaleCode) {
        var ls := LocaleSteps(l.boltLocaleCode, l.text, package.CollectionsByLocale(l.boltLocaleCode), package.SinglesByLocale(l.boltLocaleCode));
        assert ls[0] == LocaleStarted(l.boltLocaleCode);
        assert LocaleStarted(locale) in ls <==> locale == l.boltLocaleCode;
      }
      if exists i :: 0 <= i < n && langs[i].boltLocaleCode == locale {
        var i :| 0 <= i < n && langs[i].boltLocaleCode == locale;
        if i < n - 1 {
          assert front[i].boltLocaleCode == locale;
        }
      }
      if exists i :: 0 <= i < n - 1 && front[i].boltLocaleCode == locale {
        var i :| 0 <= i < n - 1 && front[i].boltLocaleCode == locale;
        assert langs[i].boltLocaleCode == locale;
      }
    }
  }

  lemma LocaleStepsJoin(before: seq<Step>, locale: string, text: string, cs: seq<Collection>, ss: seq<Single>)
    ensures before + [LocaleStarted(locale)] + [LanguageAdded(text)] + CollectionSteps(cs) + SingleSteps(ss) + [LocaleFinished]
      == before + LocaleSteps(locale, text, cs, ss)
  {
  }

  lemma VisitStepsStep(langs: seq<LanguageSetting>, i: nat, package: Package)
    requires i < |langs|
    ensures VisitSteps(langs[..i + 1], package) == VisitSteps(langs[..i], package)
      + if package.HasContentForLocale(langs[i].boltLocaleCode)
        then LocaleSteps(langs[i].boltLocaleCode, langs[i].text, package.CollectionsByLocale(langs[i].boltLocaleCode), package.SinglesByLocale(langs[i].boltLocaleCode))
        else []
  {
    assert langs[..i + 1][..i] == langs[..i];
  }

  lemma VisitFailsStep(config: Json, langs: seq<LanguageSetting>, i: nat, package: Package, logo: Path)
    requires i < |langs|
    ensures VisitFails(config, langs[..i + 1], package, logo)
      <==> VisitFails(config, langs[..i], package, logo)
           || (package.HasContentForLocale(langs[i].boltLocaleCode) && InterfaceFails(config, langs[i], logo))
  {
    var front, grown := langs[..i], langs[..i + 1];
    if VisitFails(config, grown, package, logo) {
      var j :| 0 <= j < i + 1 && package.HasContentForLocale(grown[j].boltLocaleCode) && InterfaceFails(config, grown[j], logo);
      if j == i {
        assert grown[j] == langs[i];
      } else {
        assert front[j] == grown[j];
      }
    }
    if VisitFails(config, front, package, logo) {
      var j :| 0 <= j < i && package.HasContentForLocale(front[j].boltLocaleCode) && InterfaceFails(config, front[j], logo);
      assert grown[j] == front[j];
    }
    if package.HasContentForLocale(langs[i].boltLocaleCode) && InterfaceFails(config, langs[i], logo) {
      assert grown[i] == langs[i];
    }
  }

  /** A failing language in a prefix fails the whole list. */
  lemma VisitFailsPrefix(config: Json, langs: seq<LanguageSetting>, k: nat, package: Package, logo: Path)
    requires k <= |langs| && VisitFails(config, langs[..k], package, logo)
    ensures VisitFails(config, langs, package, logo)
  {
    var j :| 0 <= j < k && package.HasContentForLocale(langs[..k][j].boltLocaleCode) && InterfaceFails(config, langs[..k][j], logo);
    assert langs[j] == langs[..k][j];
  }

  /** What an export leaves on disk: nothing in the working directory, everything that was outside it
      kept, nothing changed outside it but the archive (and the directory's ancestors `mkdir` made),
      and the archive present exactly when it was written or was there before. */
  predicate ExportLeft(before: map<Path, Node>, after: map<Path, Node>, root: Path, written: bool) {
    (forall q :: q in after ==> !Under(root, q))
    && (forall q :: q in before && !Under(root, q) ==> q in after)
    && (forall q :: q in after && !Under(q, root) && q != ArchivePath(root) ==> q in before && after[q] == before[q])
    && (ArchivePath(root) in after <==> written || ArchivePath(root) in before)
  }

  /** `finish` after work confined to the working directory leaves the disk as `ExportLeft` says. */
  lemma ExportLeaves(before: map<Path, Node>, mid: map<Path, Node>, root: Path, languages: Json, written: bool)
    requires |root| > 0 && root in mid && Confined(before, mid, root)
    ensures ExportLeft(before, Without(ZipLayout(Put(mid, root + ["languages.json"], languages), root, written), root), root, written)
  {
    var file := root + ["languages.json"];
    var put := Put(mid, file, languages);
    assert file[..|root|] == root;
    TouchedConfined(mid, put, file, root);
    ConfinedTrans(before, mid, put, root);
    var zip := ArchivePath(root);
    ArchiveOutsideRoot(root);
    assert |zip| == |root| && zip != root by {
      assert |zip[|root| - 1]| == |root[|root| - 1]| + |Filenames.ZipSuffix|;
    }
    assert !Under(zip, root);
  }

  lemma ExportStepsJoin(before: seq<Step>, name: string, slug: string, isSlim: bool, langs: seq<LanguageSetting>, package: Package)
    ensures before + [Started(name, slug, isSlim)] + VisitSteps(langs, package) + [Finished]
      == before + ExportSteps(name, slug, isSlim, langs, package)
  {
    AppendAssoc(before, [Started(name, slug, isSlim)], VisitSteps(langs, package));
    AppendAssoc(before, [Started(name, slug, isSlim)] + VisitSteps(langs, package), [Finished]);
  }

  /** Work confined to the working directory neither makes nor removes the archive beside it. */
  lemma ArchiveKept(before: map<Path, Node>, after: map<Path, Node>, root: Path)
    requires |root| > 0 && Confined(before, after, root)
    ensures ArchivePath(root) in after <==> ArchivePath(root) in before
  {
    var zip := ArchivePath(root);
    ArchiveOutsideRoot(root);
    assert |zip| == |root| && zip != root by {
      assert |zip[|root| - 1]| == |root[|root| - 1]| + |Filenames.ZipSuffix|;
    }
    assert !Under(zip, root);
  }

  /** Work confined to the working directory before the end of an export does not change what it leaves. */
  lemma ExportLeftAfterStart(before: map<Path, Node>, started: map<Path, Node>, after: map<Path, Node>, root: Path, written: bool)
    requires |root| > 0 && Confined(before, started, root) && ExportLeft(started, after, root, written)
    ensures ExportLeft(before, after, root, written)
  {
    var zip := ArchivePath(root);
    ArchiveOutsideRoot(root);
    assert |zip| == |root| && zip != root by {
      assert |zip[|root| - 1]| == |root[|root| - 1]| + |Filenames.ZipSuffix|;
    }
    assert !Under(zip, root);
  }

  /** An export's calls begin with `start`, which records whether the export is slim, end with `finish`,
      and neither occurs anywhere else. */
  lemma ExportStepsShape(langs: seq<LanguageSetting>, package: Package, isSlim: bool)
    ensures var r := ExportSteps(package.name, package.slug, isSlim, langs, package);
      r[0] == Started(package.name, package.slug, isSlim) && r[|r| - 1] == Finished
      && (forall i :: 0 < i < |r| ==> !r[i].Started?)
      && (forall i :: 0 <= i < |r| - 1 ==> r[i] != Finished)
  {
    var v := VisitSteps(langs, package);
    VisitStepsInside(langs, package);
    var r := ExportSteps(package.name, package.slug, isSlim, langs, package);
    forall i | 0 < i < |r| - 1
      ensures r[i] == v[i - 1]
    {
    }
  }

  /** The exporter; one instance may run several exports, and keeps its provided locales between them. */
  class PackageExporter {
    const fs: FileSystem
    const logger: Logging.FileLogger
    const settings: Config.Settings
    const exportsDir: Path
    /** The canonical site logo, or the empty path when none is configured or it does not exist. */
    const siteLogoPath: Path
    const supportedLanguages: seq<LanguageSetting>
    /** `date($format)` at the moment of the export. */
    const formatDate: string -> string
    /** The clock reading every log record is stamped with. */
    const now: int

    var isSlim: bool
    var currentLocale: string
    var dirs: Directories
    var mainData: map<string, Json>
    var languageData: seq<Language>
    var providedLocales: seq<string>

    /** The calls made so far, the items added since the last `finishLocale`, the locales finished
        since the last `start`, and whether `start` ever ran. */
    ghost var steps: seq<Step>
    ghost var added: nat
    ghost var localesFinished: nat
    ghost var started: bool
    /** The disk as `zipTree` saw it in the last `finish`. */
    ghost var archived: map<Path, Node>
    /** For each export that reached `finish`, in order, whether its archive was on disk once `zipTree` returned. */
    ghost var archiveOutcomes: seq<bool>

    ghost predicate Valid()
      reads this`providedLocales, this`languageData, this`mainData, this`added, this`started, this`localesFinished
    {
      Distinct(providedLocales)
      && DistinctTexts(languageData)
      && ManifestShape(mainData, added, started && localesFinished == 0)
    }

    /** The working directories are those of the current locale. */
    predicate InLocale()
      reads this
    {
      |dirs.exportRoot| > 0 && dirs == LocaleDirs(dirs.exportRoot, currentLocale, isSlim)
    }

    /** The data directory lies in the working directory. */
    predicate DataDirBelowRoot()
      reads this
    {
      Under(dirs.exportRoot, dirs.exportData)
    }

    /** The media directories lie in the working directory. */
    predicate MediaDirsBelowRoot()
      reads this
    {
      Under(dirs.exportRoot, dirs.exportImages) && Under(dirs.exportRoot, dirs.exportMedia)
    }

    constructor (fs: FileSystem, logger: Logging.FileLogger, settings: Config.Settings, exportsDir: Path,
                 siteLogoPath: Path, supportedLanguages: seq<LanguageSetting>, formatDate: string -> string, now: int)
      ensures this.fs == fs && this.logger == logger && this.settings == settings && this.exportsDir == exportsDir
      ensures this.siteLogoPath == siteLogoPath && this.supportedLanguages == supportedLanguages
      ensures this.formatDate == formatDate && this.now == now
      ensures !isSlim && currentLocale == "en" && dirs == Directories([], [], [], [], [])
      ensures mainData == map[] && languageData == [] && providedLocales == []
      ensures steps == [] && archiveOutcomes == [] && Valid()
    {
      this.fs := fs;
      this.logger := logger;
      this.settings := settings;
      this.exportsDir := exportsDir;
      this.siteLogoPath := siteLogoPath;
      this.supportedLanguages := supportedLanguages;
      this.formatDate := formatDate;
      this.now := now;
      isSlim := false;
      currentLocale := "en";
      dirs := Directories([], [], [], [], []);
      mainData := map[];
      languageData := [];
      providedLocales := [];
      steps := [];
      added := 0;
      localesFinished := 0;
      started := false;
      archived := map[];
      archiveOutcomes := [];
    }

    /** `log($message)`: an ordinary record stamped with the current counter. */
    method Log(message: string)
      modifies logger
      ensures logger.data == old(logger.data) + [Logging.Entry(false, Some(logger.counter), false, message, now)]
      ensures logger.counter == old(logger.counter)
      ensures Logging.Progressed(old(logger.data), logger.data, logger.counter)
    {
      logger.Log(message, now);
    }

    /** The state `start` begins an export with. */
    method Reset(packageName: string, packageSlug: string)
      requires Valid()
      modifies this
      ensures Valid() && started && localesFinished == 0 && added == 0
      ensures mainData == map["itemName" := JStr(packageName), "content" := JList([])] && languageData == []
      ensures dirs == old(dirs) && isSlim == old(isSlim) && currentLocale == old(currentLocale)
      ensures providedLocales == old(providedLocales) && archived == old(archived) && archiveOutcomes == old(archiveOutcomes)
      ensures steps == old(steps) + [Started(packageName, packageSlug, isSlim)]
    {
      mainData := map["itemName" := JStr(packageName), "content" := JList([])];
      languageData := [];
      steps := steps + [Started(packageName, packageSlug, isSlim)];
      started, localesFinished, added := true, 0, 0;
    }

    /** The working directory of `start`: named after the archive, made when missing, with the logo copied in. */
    method MakeRoot(packageSlug: string) returns (r: Outcome)
      modifies this, fs
      ensures archiveOutcomes == old(archiveOutcomes)
      ensures r.Fail? <==> !DateFormat(settings.config).JStr?
      ensures r.Fail? ==> r == Fail(FilenameTypeError(DateFormat(settings.config))) && fs.entries == old(fs.entries) && dirs == old(dirs)
      ensures r.Pass? ==> dirs == old(dirs).(exportRoot := WorkingDir(exportsDir, packageSlug, formatDate(DateFormat(settings.config).s), isSlim))
      ensures r.Pass? ==> fs.entries == StartLayout(old(fs.entries), dirs.exportRoot, siteLogoPath)
      ensures r.Pass? ==> dirs.exportRoot in fs.entries && Confined(old(fs.entries), fs.entries, dirs.exportRoot)
      ensures fs.copies == old(fs.copies)
        + (if r.Pass? && siteLogoPath != [] then [(siteLogoPath, dirs.exportRoot + [Basename(siteLogoPath)])] else [])
      ensures mainData == old(mainData) && languageData == old(languageData) && providedLocales == old(providedLocales)
      ensures isSlim == old(isSlim) && currentLocale == old(currentLocale) && archived == old(archived)
      ensures steps == old(steps) && added == old(added) && localesFinished == old(localesFinished) && started == old(started)
    {
      var format := Config.Walk(settings.config, DateFormatPath, JStr(DefaultFileDateFormat));
      if !format.JStr? {
        return Fail(FilenameTypeError(format));
      }
      var root := WorkingDir(exportsDir, packageSlug, formatDate(format.s), isSlim);
      dirs := dirs.(exportRoot := root);
      MakeWorkingDir(fs, root, siteLogoPath);
      r := Pass;
    }

    /** `start`: resets the manifest and the languages, then makes the working directory and copies
        the logo into it. A date format that is not a string stops the export with a `TypeError`. */
    method Start(packageName: string, packageSlug: string) returns (r: Outcome)
      requires Valid()
      modifies this, fs, logger
      ensures Valid() && started && localesFinished == 0 && added == 0
      ensures r.Fail? <==> !DateFormat(settings.config).JStr?
      ensures r.Fail? ==> r == Fail(FilenameTypeError(DateFormat(settings.config))) && fs.entries == old(fs.entries) && dirs == old(dirs)
      ensures mainData == map["itemName" := JStr(packageName), "content" := JList([])] && languageData == []
      ensures r.Pass? ==> dirs == old(dirs).(exportRoot := WorkingDir(exportsDir, packageSlug, formatDate(DateFormat(settings.config).s), isSlim))
      ensures r.Pass? ==> fs.entries == StartLayout(old(fs.entries), dirs.exportRoot, siteLogoPath)
      ensures r.Pass? ==> dirs.exportRoot in fs.entries && Confined(old(fs.entries), fs.entries, dirs.exportRoot)
      ensures fs.copies == old(fs.copies)
        + (if r.Pass? && siteLogoPath != [] then [(siteLogoPath, dirs.exportRoot + [Basename(siteLogoPath)])] else [])
      ensures isSlim == old(isSlim) && currentLocale == old(currentLocale) && providedLocales == old(providedLocales)
      ensures Logging.Progressed(old(logger.data), logger.data, logger.counter) && logger.counter == old(logger.counter)
      ensures archiveOutcomes == old(archiveOutcomes)
      ensures steps == old(steps) + [Started(packageName, packageSlug, isSlim)]
    {
      Log("Export started!");
      Reset(packageName, packageSlug);
      r := MakeRoot(packageSlug);
      if r.Fail? {
        return;
      }
      ghost var logged := logger.data;
      Log("Setup complete.");
      Logging.ProgressedTrans(old(logger.data), logged, logger.data, logger.counter);
    }

    /** The bookkeeping of `startLocale`: the current locale, the provided locales and the directories. */
    method EnterLocale(locale: string, interface: Json) returns (r: Outcome)
      requires Valid() && |dirs.exportRoot| > 0
      modifies this
      ensures archiveOutcomes == old(archiveOutcomes)
      ensures Valid() && currentLocale == locale && dirs.exportRoot == old(dirs.exportRoot)
      ensures r.Fail? <==> WithLogo(interface, LogoRef(siteLogoPath)).Err?
      ensures r.Fail? ==> r == Fail(WithLogo(interface, LogoRef(siteLogoPath)).message)
      ensures r.Fail? ==> providedLocales == old(providedLocales)
      ensures r.Pass? ==> providedLocales == AddUnique(old(providedLocales), locale) && InLocale()
      ensures r.Pass? ==> dirs.localeRoot == dirs.exportRoot + [locale]
      ensures mainData == old(mainData) && languageData == old(languageData) && isSlim == old(isSlim)
      ensures added == old(added) && localesFinished == old(localesFinished) && started == old(started)
      ensures archived == old(archived)
      ensures steps == old(steps) + [LocaleStarted(locale)]
    {
      currentLocale := locale;
      steps := steps + [LocaleStarted(locale)];
      var withLogo := WithLogo(interface, LogoRef(siteLogoPath));
      if withLogo.Err? {
        return Fail(withLogo.message);
      }
      providedLocales := AddUnique(providedLocales, locale);
      dirs := LocaleDirs(dirs.exportRoot, locale, isSlim);
      r := Pass;
    }

    /** `startLocale`: records the locale, adds the logo reference to the interface texts and lays out
        the locale's directories. Interface texts that are a string, a number or `true` stop the export. */
    method StartLocale(locale: string, interface: Json) returns (r: Outcome)
      requires Valid() && |dirs.exportRoot| > 0 && dirs.exportRoot in fs.entries
      modifies this, fs, logger
      ensures archiveOutcomes == old(archiveOutcomes)
      ensures Valid() && currentLocale == locale && dirs.exportRoot == old(dirs.exportRoot)
      ensures r.Fail? <==> WithLogo(interface, LogoRef(siteLogoPath)).Err?
      ensures r.Fail? ==> r == Fail(WithLogo(interface, LogoRef(siteLogoPath)).message)
      ensures r.Fail? ==> fs.entries == old(fs.entries) && providedLocales == old(providedLocales)
      ensures r.Pass? ==> providedLocales == AddUnique(old(providedLocales), locale) && InLocale()
      ensures r.Pass? ==> fs.entries == LocaleLayout(old(fs.entries), dirs.localeRoot, WithLogo(interface, LogoRef(siteLogoPath)).value, isSlim)
      ensures dirs.exportRoot in fs.entries && Confined(old(fs.entries), fs.entries, dirs.exportRoot)
      ensures fs.copies == old(fs.copies)
      ensures mainData == old(mainData) && languageData == old(languageData) && isSlim == old(isSlim)
      ensures added == old(added) && localesFinished == old(localesFinished) && started == old(started)
      ensures Logging.Progressed(old(logger.data), logger.data, logger.counter) && logger.counter == old(logger.counter)
      ensures steps == old(steps) + [LocaleStarted(locale)]
    {
      Log("Start Locale: " + locale);
      r := EnterLocale(locale, interface);
      if r.Fail? {
        return;
      }
      LayOutLocale(fs, dirs.exportRoot, locale, WithLogo(interface, LogoRef(siteLogoPath)).value, isSlim);
      ghost var logged := logger.data;
      Log("Locale set up.");
      Logging.ProgressedTrans(old(logger.data), logged, logger.data, logger.counter);
    }

    /** `addLanguage`: a language is listed once, by its text. */
    method AddLanguage(language: Language)
      requires Valid()
      modifies this
      ensures archiveOutcomes == old(archiveOutcomes)
      ensures Valid() && languageData == AddByText(old(languageData), language)
      ensures mainData == old(mainData) && providedLocales == old(providedLocales) && dirs == old(dirs)
      ensures isSlim == old(isSlim) && currentLocale == old(currentLocale)
      ensures added == old(added) && localesFinished == old(localesFinished) && started == old(started)
      ensures steps == old(steps) + [LanguageAdded(language.text)]
    {
      steps := steps + [LanguageAdded(language.text)];
      var exists_ := false;
      for i := 0 to |languageData|
        invariant exists_ <==> exists j :: 0 <= j < i && languageData[j].text == language.text
      {
        if languageData[i].text == language.text {
          exists_ := true;
        }
      }
      if exists_ {
        return;
      }
      languageData := languageData + [language];
    }

    /** A data file of the current locale: logged, then written into its `data` directory. */
    method WriteData(name: string, data: Json)
      requires DataDirBelowRoot()
      modifies fs, logger
      ensures fs.entries == Put(old(fs.entries), dirs.exportData + [name], data)
      ensures Confined(old(fs.entries), fs.entries, dirs.exportRoot) && fs.copies == old(fs.copies)
      ensures Logging.Progressed(old(logger.data), logger.data, logger.counter) && logger.counter == old(logger.counter)
    {
      Log("Creating data file: " + name);
      var path := Disk.Join(dirs.exportData, name);
      fs.PutJson(path, data);
      UnderChild(dirs.exportRoot, dirs.exportData, name);
      TouchedConfined(old(fs.entries), fs.entries, path, dirs.exportRoot);
    }

    /** An item's entry appended to the manifest's content list. */
    method RecordItem(item: Json, step: Step)
      requires Valid()
      modifies this
      ensures archiveOutcomes == old(archiveOutcomes)
      ensures Valid() && mainData == AppendContent(old(mainData), item) && added == old(added) + 1
      ensures dirs == old(dirs) && isSlim == old(isSlim) && currentLocale == old(currentLocale)
      ensures languageData == old(languageData) && providedLocales == old(providedLocales)
      ensures localesFinished == old(localesFinished) && started == old(started) && archived == old(archived)
      ensures steps == old(steps) + [step]
    {
      mainData := AppendContent(mainData, item);
      added := added + 1;
      steps := steps + [step];
    }

    /** What every item begins with: its heading logged, its data file written and its entry added to
        the manifest. */
    method BeginItem(heading: string, name: string, data: Json, entry: Json, step: Step)
      requires Valid() && InLocale()
      modifies this, fs, logger
      ensures archiveOutcomes == old(archiveOutcomes)
      ensures Valid() && InLocale() && dirs == old(dirs) && isSlim == old(isSlim) && currentLocale == old(currentLocale)
      ensures mainData == AppendContent(old(mainData), entry) && added == old(added) + 1
      ensures languageData == old(languageData) && providedLocales == old(providedLocales)
      ensures localesFinished == old(localesFinished) && started == old(started)
      ensures fs.entries == Put(old(fs.entries), dirs.exportData + [name], data) && fs.copies == old(fs.copies)
      ensures Confined(old(fs.entries), fs.entries, dirs.exportRoot)
      ensures Logging.Progressed(old(logger.data), logger.data, logger.counter) && logger.counter == old(logger.counter)
      ensures steps == old(steps) + [step]
    {
      LocaleDirsBelowRoot(dirs.exportRoot, currentLocale, isSlim);
      Log(heading);
      ghost var logged := logger.data;
      WriteData(name, data);
      Logging.ProgressedTrans(old(logger.data), logged, logger.data, logger.counter);
      RecordItem(entry, step);
    }

    /** Two files copied into the current locale, an image and a media file, each logged first. */
    method CopyFiles(heading: string, localImage: Path, image: string, localFilename: Path, filename: string)
      requires MediaDirsBelowRoot()
      modifies fs, logger
      ensures fs.entries == Copied(Copied(old(fs.entries), localImage, dirs.exportImages + [image]), localFilename, dirs.exportMedia + [filename])
      ensures fs.copies == old(fs.copies) + [(localImage, dirs.exportImages + [image]), (localFilename, dirs.exportMedia + [filename])]
      ensures Confined(old(fs.entries), fs.entries, dirs.exportRoot)
      ensures Logging.Progressed(old(logger.data), logger.data, logger.counter) && logger.counter == old(logger.counter)
    {
      Log(heading);
      ghost var logged := logger.data;
      Log("Copying file: " + image);
      Logging.ProgressedTrans(old(logger.data), logged, logger.data, logger.counter);
      var imageDst := Disk.Join(dirs.exportImages, image);
      fs.Copy(localImage, imageDst);
      UnderChild(dirs.exportRoot, dirs.exportImages, image);
      TouchedConfined(old(fs.entries), fs.entries, imageDst, dirs.exportRoot);
      logged := logger.data;
      Log("Copying file: " + filename);
      Logging.ProgressedTrans(old(logger.data), logged, logger.data, logger.counter);
      ghost var copied := fs.entries;
      var mediaDst := Disk.Join(dirs.exportMedia, filename);
      fs.Copy(localFilename, mediaDst);
      UnderChild(dirs.exportRoot, dirs.exportMedia, filename);
      TouchedConfined(copied, fs.entries, mediaDst, dirs.exportRoot);
      ConfinedTrans(old(fs.entries), copied, fs.entries, dirs.exportRoot);
    }

    /** The episodes' files of a full export, copied episode by episode. */
    method CopyEpisodes(episodes: seq<EpisodeFiles>)
      requires MediaDirsBelowRoot()
      modifies fs, logger
      ensures fs.entries == CopyAll(old(fs.entries), EpisodeCopies(episodes, dirs.exportImages, dirs.exportMedia))
      ensures fs.copies == old(fs.copies) + EpisodeCopies(episodes, dirs.exportImages, dirs.exportMedia)
      ensures Confined(old(fs.entries), fs.entries, dirs.exportRoot)
      ensures Logging.Progressed(old(logger.data), logger.data, logger.counter) && logger.counter == old(logger.counter)
    {
      ghost var done: seq<(Path, Path)> := [];
      for i := 0 to |episodes|
        invariant done == EpisodeCopies(episodes[..i], dirs.exportImages, dirs.exportMedia)
        invariant fs.entries == CopyAll(old(fs.entries), done) && fs.copies == old(fs.copies) + done
        invariant Confined(old(fs.entries), fs.entries, dirs.exportRoot)
        invariant Logging.Progressed(old(logger.data), logger.data, logger.counter) && logger.counter == old(logger.counter)
      {
        var e := episodes[i];
        ghost var before, logBefore := fs.entries, logger.data;
        CopyFiles("Adding a new episode: " + e.title, e.localImage, e.image, e.localFilename, e.filename);
        ConfinedTrans(old(fs.entries), before, fs.entries, dirs.exportRoot);
        Logging.ProgressedTrans(old(logger.data), logBefore, logger.data, logger.counter);
        ghost var pair := EpisodeCopy(e, dirs.exportImages, dirs.exportMedia);
        CopyAllPair(old(fs.entries), done, pair[0], pair[1]);
        EpisodeCopiesStep(episodes, i, dirs.exportImages, dirs.exportMedia);
        AppendAssoc(old(fs.copies), done, pair);
        done := done + pair;
      }
      assert episodes[..|episodes|] == episodes;
    }

    /** The media of a full export's collection: its image, then each episode's image and media file. */
    method CopyCollectionMedia(c: Collection, episodes: seq<EpisodeFiles>)
      requires MediaDirsBelowRoot()
      modifies fs, logger
      ensures fs.entries == CopyAll(old(fs.entries), MediaCopies(c, episodes, dirs.exportImages, dirs.exportMedia))
      ensures fs.copies == old(fs.copies) + MediaCopies(c, episodes, dirs.exportImages, dirs.exportMedia)
      ensures Confined(old(fs.entries), fs.entries, dirs.exportRoot)
      ensures Logging.Progressed(old(logger.data), logger.data, logger.counter) && logger.counter == old(logger.counter)
    {
      Log("Adding media files to package.");
      ghost var logged := logger.data;
      Log("Copying file: " + c.image);
      Logging.ProgressedTrans(old(logger.data), logged, logger.data, logger.counter);
      var imageDst := Disk.Join(dirs.exportImages, c.image);
      fs.Copy(c.localImage, imageDst);
      UnderChild(dirs.exportRoot, dirs.exportImages, c.image);
      TouchedConfined(old(fs.entries), fs.entries, imageDst, dirs.exportRoot);
      ghost var first := fs.entries;
      logged := logger.data;
      CopyEpisodes(episodes);
      ConfinedTrans(old(fs.entries), first, fs.entries, dirs.exportRoot);
      Logging.ProgressedTrans(old(logger.data), logged, logger.data, logger.counter);
      CopyAllAppend(old(fs.entries), [(c.localImage, imageDst)], EpisodeCopies(episodes, dirs.exportImages, dirs.exportMedia));
      AppendAssoc(old(fs.copies), [(c.localImage, imageDst)], EpisodeCopies(episodes, dirs.exportImages, dirs.exportMedia));
      assert [(c.localImage, imageDst)][..0] == [];
    }

    /** The work of `addCollection` on what was read off the collection when the call began: its data
        file and manifest entry, and its episodes' files. */
    method AddCollectionRead(c: Collection, data: Json, entry: Json, episodes: seq<EpisodeFiles>)
      requires Valid() && InLocale()
      modifies this, fs, logger
      ensures archiveOutcomes == old(archiveOutcomes)
      ensures Valid() && InLocale() && dirs == old(dirs) && isSlim == old(isSlim) && currentLocale == old(currentLocale)
      ensures mainData == AppendContent(old(mainData), entry) && added == old(added) + 1
      ensures languageData == old(languageData) && providedLocales == old(providedLocales)
      ensures localesFinished == old(localesFinished) && started == old(started)
      ensures fs.entries == ItemLayout(old(fs.entries), dirs.exportData + [c.slug + ".json"], data,
                                       if isSlim then [] else MediaCopies(c, episodes, dirs.exportImages, dirs.exportMedia))
      ensures fs.copies == old(fs.copies) + (if isSlim then [] else MediaCopies(c, episodes, dirs.exportImages, dirs.exportMedia))
      ensures Confined(old(fs.entries), fs.entries, dirs.exportRoot)
      ensures Logging.Progressed(old(logger.data), logger.data, logger.counter) && logger.counter == old(logger.counter)
      ensures steps == old(steps) + [CollectionAdded(c)]
    {
      LocaleDirsBelowRoot(dirs.exportRoot, currentLocale, isSlim);
      BeginItem("Adding a new collection: " + c.title, c.slug + ".json", data, entry, CollectionAdded(c));
      ghost var logged := logger.data;
      if !isSlim {
        ghost var written := fs.entries;
        CopyCollectionMedia(c, episodes);
        ConfinedTrans(old(fs.entries), written, fs.entries, dirs.exportRoot);
        Logging.ProgressedTrans(old(logger.data), logged, logger.data, logger.counter);
      }
      logged := logger.data;
      Log("Collection added!");
      Logging.ProgressedTrans(old(logger.data), logged, logger.data, logger.counter);
    }

    /** `addCollection`: the collection's data file, its entry in the manifest and, in a full export,
        its image and every episode's image and media file copied in. */
    method AddCollection(c: Collection)
      requires Valid() && InLocale()
      modifies this, fs, logger
      ensures archiveOutcomes == old(archiveOutcomes)
      ensures Valid() && InLocale() && dirs == old(dirs) && isSlim == old(isSlim) && currentLocale == old(currentLocale)
      ensures mainData == AppendContent(old(mainData), JObj(old(c.Projection(true, isSlim)))) && added == old(added) + 1
      ensures languageData == old(languageData) && providedLocales == old(providedLocales)
      ensures localesFinished == old(localesFinished) && started == old(started)
      ensures fs.entries == ItemLayout(old(fs.entries), dirs.exportData + [c.slug + ".json"], JObj(old(c.Projection(false, isSlim))),
                                       if isSlim then [] else old(CollectionCopies(c, dirs.exportImages, dirs.exportMedia)))
      ensures fs.copies == old(fs.copies) + (if isSlim then [] else old(CollectionCopies(c, dirs.exportImages, dirs.exportMedia)))
      ensures Confined(old(fs.entries), fs.entries, dirs.exportRoot)
      ensures Logging.Progressed(old(logger.data), logger.data, logger.counter) && logger.counter == old(logger.counter)
      ensures steps == old(steps) + [CollectionAdded(c)]
    {
      var data := c.Projection(false, isSlim);
      var entry := c.Projection(true, isSlim);
      var episodes := EpisodeFilesOf(c.episodes);
      AddCollectionRead(c, JObj(data), JObj(entry), episodes);
    }

    /** The work of `addSingle` on the single's array as it was when the call began. */
    method AddSingleRead(s: Single, data: Json)
      requires Valid() && InLocale()
      modifies this, fs, logger
      ensures archiveOutcomes == old(archiveOutcomes)
      ensures Valid() && InLocale() && dirs == old(dirs) && isSlim == old(isSlim) && currentLocale == old(currentLocale)
      ensures mainData == AppendContent(old(mainData), data) && added == old(added) + 1
      ensures languageData == old(languageData) && providedLocales == old(providedLocales)
      ensures localesFinished == old(localesFinished) && started == old(started)
      ensures fs.entries == ItemLayout(old(fs.entries), dirs.exportData + [s.slug + ".json"], data,
                                       if isSlim then [] else SingleCopies(s, dirs.exportImages, dirs.exportMedia))
      ensures fs.copies == old(fs.copies) + (if isSlim then [] else SingleCopies(s, dirs.exportImages, dirs.exportMedia))
      ensures Confined(old(fs.entries), fs.entries, dirs.exportRoot)
      ensures Logging.Progressed(old(logger.data), logger.data, logger.counter) && logger.counter == old(logger.counter)
      ensures steps == old(steps) + [SingleAdded(s)]
    {
      LocaleDirsBelowRoot(dirs.exportRoot, currentLocale, isSlim);
      BeginItem("Adding a new single: " + s.title, s.slug + ".json", data, data, SingleAdded(s));
      ghost var written, logged := fs.entries, logger.data;
      if !isSlim {
        CopyFiles("Adding media files to package.", s.localImage, s.image, s.localFilename, s.filename);
        ConfinedTrans(old(fs.entries), written, fs.entries, dirs.exportRoot);
        Logging.ProgressedTrans(old(logger.data), logged, logger.data, logger.counter);
        ghost var pairs := SingleCopies(s, dirs.exportImages, dirs.exportMedia);
        CopyAllPair(written, [], pairs[0], pairs[1]);
        assert [] + [pairs[0], pairs[1]] == pairs;
      }
      logged := logger.data;
      Log("Single added!");
      Logging.ProgressedTrans(old(logger.data), logged, logger.data, logger.counter);
    }

    /** `addSingle`: the single's data file, its entry in the manifest and, in a full export, its image
        and media file copied in. */
    method AddSingle(s: Single)
      requires Valid() && InLocale()
      modifies this, fs, logger
      ensures archiveOutcomes == old(archiveOutcomes)
      ensures Valid() && InLocale() && dirs == old(dirs) && isSlim == old(isSlim) && currentLocale == old(currentLocale)
      ensures mainData == AppendContent(old(mainData), JObj(old(s.AsArray(isSlim)))) && added == old(added) + 1
      ensures languageData == old(languageData) && providedLocales == old(providedLocales)
      ensures localesFinished == old(localesFinished) && started == old(started)
      ensures fs.entries == ItemLayout(old(fs.entries), dirs.exportData + [s.slug + ".json"], JObj(old(s.AsArray(isSlim))),
                                       if isSlim then [] else SingleCopies(s, dirs.exportImages, dirs.exportMedia))
      ensures fs.copies == old(fs.copies) + (if isSlim then [] else SingleCopies(s, dirs.exportImages, dirs.exportMedia))
      ensures Confined(old(fs.entries), fs.entries, dirs.exportRoot)
      ensures Logging.Progressed(old(logger.data), logger.data, logger.counter) && logger.counter == old(logger.counter)
      ensures steps == old(steps) + [SingleAdded(s)]
    {
      var data := s.AsArray(isSlim);
      AddSingleRead(s, JObj(data));
    }

    /** The collections of a locale, added in order. */
    method AddCollections(cs: seq<Collection>)
      requires Valid() && InLocale()
      modifies this, fs, logger
      ensures archiveOutcomes == old(archiveOutcomes)
      ensures Valid() && InLocale() && dirs == old(dirs) && isSlim == old(isSlim) && currentLocale == old(currentLocale)
      ensures added == old(added) + |cs| && localesFinished == old(localesFinished) && started == old(started)
      ensures languageData == old(languageData) && providedLocales == old(providedLocales)
      ensures Confined(old(fs.entries), fs.entries, dirs.exportRoot)
      ensures Logging.Progressed(old(logger.data), logger.data, logger.counter) && logger.counter == old(logger.counter)
      ensures steps == old(steps) + CollectionSteps(cs)
    {
      for i := 0 to |cs|
        invariant Valid() && InLocale() && dirs == old(dirs) && isSlim == old(isSlim) && currentLocale == old(currentLocale)
        invariant added == old(added) + i && localesFinished == old(localesFinished) && started == old(started)
        invariant languageData == old(languageData) && providedLocales == old(providedLocales)
        invariant archiveOutcomes == old(archiveOutcomes)
        invariant Confined(old(fs.entries), fs.entries, dirs.exportRoot)
        invariant Logging.Progressed(old(logger.data), logger.data, logger.counter) && logger.counter == old(logger.counter)
        invariant steps == old(steps) + CollectionSteps(cs[..i])
      {
        ghost var before, logged := fs.entries, logger.data;
        AddCollection(cs[i]);
        ConfinedTrans(old(fs.entries), before, fs.entries, dirs.exportRoot);
        Logging.ProgressedTrans(old(logger.data), logged, logger.data, logger.counter);
        CollectionStepsStep(cs, i);
        AppendAssoc(old(steps), CollectionSteps(cs[..i]), [CollectionAdded(cs[i])]);
      }
      assert cs[..|cs|] == cs;
    }

    /** The singles of a locale, added in order. */
    method AddSingles(ss: seq<Single>)
      requires Valid() && InLocale()
      modifies this, fs, logger
      ensures archiveOutcomes == old(archiveOutcomes)
      ensures Valid() && InLocale() && dirs == old(dirs) && isSlim == old(isSlim) && currentLocale == old(currentLocale)
      ensures added == old(added) + |ss| && localesFinished == old(localesFinished) && started == old(started)
      ensures languageData == old(languageData) && providedLocales == old(providedLocales)
      ensures Confined(old(fs.entries), fs.entries, dirs.exportRoot)
      ensures Logging.Progressed(old(logger.data), logger.data, logger.counter) && logger.counter == old(logger.counter)
      ensures steps == old(steps) + SingleSteps(ss)
    {
      for i := 0 to |ss|
        invariant Valid() && InLocale() && dirs == old(dirs) && isSlim == old(isSlim) && currentLocale == old(currentLocale)
        invariant added == old(added) + i && localesFinished == old(localesFinished) && started == old(started)
        invariant languageData == old(languageData) && providedLocales == old(providedLocales)
        invariant archiveOutcomes == old(archiveOutcomes)
        invariant Confined(old(fs.entries), fs.entries, dirs.exportRoot)
        invariant Logging.Progressed(old(logger.data), logger.data, logger.counter) && logger.counter == old(logger.counter)
        invariant steps == old(steps) + SingleSteps(ss[..i])
      {
        ghost var before, logged := fs.entries, logger.data;
        AddSingle(ss[i]);
        ConfinedTrans(old(fs.entries), before, fs.entries, dirs.exportRoot);
        Logging.ProgressedTrans(old(logger.data), logged, logger.data, logger.counter);
        SingleStepsStep(ss, i);
        AppendAssoc(old(steps), SingleSteps(ss[..i]), [SingleAdded(ss[i])]);
      }
      assert ss[..|ss|] == ss;
    }

    /** One pass of `export`'s locale loop, for a language the package has content for: the locale
        started with its interface texts (or those of `en` when it has none), its language added, its
        collections and then its singles added, the locale finished. */
    method ExportLocale(lang: LanguageSetting, cs: seq<Collection>, ss: seq<Single>) returns (r: Outcome)
      requires Valid() && |dirs.exportRoot| > 0 && dirs.exportRoot in fs.entries
      modifies this, fs, logger
      ensures archiveOutcomes == old(archiveOutcomes)
      ensures Valid() && dirs.exportRoot == old(dirs.exportRoot) && dirs.exportRoot in fs.entries
      ensures isSlim == old(isSlim) && started == old(started)
      ensures r.Fail? <==> InterfaceFails(settings.config, lang, siteLogoPath)
      ensures r.Fail? ==> steps == old(steps) + [LocaleStarted(lang.boltLocaleCode)]
      ensures r.Pass? ==> steps == old(steps) + LocaleSteps(lang.boltLocaleCode, lang.text, cs, ss)
      ensures r.Pass? ==> languageData == AddByText(old(languageData), Language(lang.codes, lang.text, lang.default))
      ensures r.Pass? ==> providedLocales == AddUnique(old(providedLocales), lang.boltLocaleCode)
      ensures Confined(old(fs.entries), fs.entries, dirs.exportRoot)
      ensures Logging.Progressed(old(logger.data), logger.data, logger.counter) && logger.counter == old(logger.counter)
    {
      var interface := InterfaceFor(settings.config, lang.boltLocaleCode);
      r := StartLocale(lang.boltLocaleCode, interface);
      if r.Fail? {
        return;
      }
      ghost var e1, l1 := fs.entries, logger.data;
      FillLocale(Language(lang.codes, lang.text, lang.default), cs, ss);
      ConfinedTrans(old(fs.entries), e1, fs.entries, dirs.exportRoot);
      Logging.ProgressedTrans(old(logger.data), l1, logger.data, logger.counter);
      LocaleStepsJoin(old(steps), lang.boltLocaleCode, lang.text, cs, ss);
    }

    /** The body of a started locale: its language added, its collections and then its singles added,
        the locale finished. */
    method FillLocale(language: Language, cs: seq<Collection>, ss: seq<Single>)
      requires Valid() && InLocale()
      modifies this, fs, logger
      ensures archiveOutcomes == old(archiveOutcomes)
      ensures Valid() && dirs.exportRoot == old(dirs.exportRoot) && isSlim == old(isSlim) && started == old(started)
      ensures steps == old(steps) + [LanguageAdded(language.text)] + CollectionSteps(cs) + SingleSteps(ss) + [LocaleFinished]
      ensures languageData == AddByText(old(languageData), language) && providedLocales == old(providedLocales)
      ensures Confined(old(fs.entries), fs.entries, dirs.exportRoot)
      ensures Logging.Progressed(old(logger.data), logger.data, logger.counter) && logger.counter == old(logger.counter)
    {
      AddLanguage(language);
      AddCollections(cs);
      ghost var e2, l2 := fs.entries, logger.data;
      AddSingles(ss);
      ConfinedTrans(old(fs.entries), e2, fs.entries, dirs.exportRoot);
      Logging.ProgressedTrans(old(logger.data), l2, logger.data, logger.counter);
      ghost var e3, l3 := fs.entries, logger.data;
      FinishLocale();
      ConfinedTrans(old(fs.entries), e3, fs.entries, dirs.exportRoot);
      Logging.ProgressedTrans(old(logger.data), l3, logger.data, logger.counter);
    }

    /** The locale loop of `export`: the supported languages in order, skipping those the package has
        no content for; the first whose interface texts cannot take the logo stops the export. */
    method VisitLocales(package: Package) returns (r: Outcome)
      requires Valid() && |dirs.exportRoot| > 0 && dirs.exportRoot in fs.entries
      modifies this, fs, logger
      ensures archiveOutcomes == old(archiveOutcomes)
      ensures Valid() && dirs.exportRoot == old(dirs.exportRoot) && dirs.exportRoot in fs.entries
      ensures isSlim == old(isSlim)
      ensures r.Fail? <==> VisitFails(settings.config, supportedLanguages, package, siteLogoPath)
      ensures r.Pass? ==> steps == old(steps) + VisitSteps(supportedLanguages, package)
      ensures Confined(old(fs.entries), fs.entries, dirs.exportRoot)
      ensures Logging.Progressed(old(logger.data), logger.data, logger.counter) && logger.counter == old(logger.counter)
    {
      for i := 0 to |supportedLanguages|
        invariant Valid() && dirs.exportRoot == old(dirs.exportRoot) && dirs.exportRoot in fs.entries
        invariant isSlim == old(isSlim) && archiveOutcomes == old(archiveOutcomes)
        invariant !VisitFails(settings.config, supportedLanguages[..i], package, siteLogoPath)
        invariant steps == old(steps) + VisitSteps(supportedLanguages[..i], package)
        invariant Confined(old(fs.entries), fs.entries, dirs.exportRoot)
        invariant Logging.Progressed(old(logger.data), logger.data, logger.counter) && logger.counter == old(logger.counter)
      {
        var lang := supportedLanguages[i];
        VisitStepsStep(supportedLanguages, i, package);
        VisitFailsStep(settings.config, supportedLanguages, i, package, siteLogoPath);
        if !package.HasContentForLocale(lang.boltLocaleCode) {
          continue;
        }
        var cs := package.CollectionsByLocale(lang.boltLocaleCode);
        var ss := package.SinglesByLocale(lang.boltLocaleCode);
        ghost var before, logged, done := fs.entries, logger.data, steps;
        r := ExportLocale(lang, cs, ss);
        if r.Fail? {
          VisitFailsStep(settings.config, supportedLanguages, i, package, siteLogoPath);
          assert supportedLanguages[..i + 1][i] == lang;
          VisitFailsPrefix(settings.config, supportedLanguages, i + 1, package, siteLogoPath);
          return;
        }
        ConfinedTrans(old(fs.entries), before, fs.entries, dirs.exportRoot);
        Logging.ProgressedTrans(old(logger.data), logged, logger.data, logger.counter);
        AppendAssoc(old(steps), VisitSteps(supportedLanguages[..i], package), LocaleSteps(lang.boltLocaleCode, lang.text, cs, ss));
      }
      assert supportedLanguages[..|supportedLanguages|] == supportedLanguages;
      r := Pass;
    }

    /** `finish` seen from the working directory it removes: only the archive is left behind, an error
        is logged exactly when the archive is missing, and the counter rises exactly when it exists. */
    method FinishExport(zipWritten: bool)
      requires Valid() && |dirs.exportRoot| > 0 && dirs.exportRoot in fs.entries
      modifies this`archived, this`steps, this`archiveOutcomes, fs, logger
      ensures Valid()
      ensures archiveOutcomes == old(archiveOutcomes) + [zipWritten || ArchivePath(dirs.exportRoot) in old(fs.entries)]
      ensures steps == old(steps) + [Finished]
      ensures ExportLeft(old(fs.entries), fs.entries, dirs.exportRoot, zipWritten)
      ensures old(logger.data) <= logger.data
      ensures Logging.ErrorLogged(old(logger.data), logger.data) <==> ArchivePath(dirs.exportRoot) !in fs.entries
      ensures logger.counter == old(logger.counter) + (if ArchivePath(dirs.exportRoot) in fs.entries then 1 else 0)
      ensures logger.ReadBack() == Some(logger.data)
    {
      ghost var e, l, c := fs.entries, logger.data, logger.counter;
      var zipped := Finish(zipWritten);
      ExportLeaves(e, e, dirs.exportRoot, LanguagesJson(languageData), zipWritten);
      FinishReports(l, c, zipped, ArchivePath(dirs.exportRoot), now);
    }

    /** `finish` as written, seen from the working directory: a missing archive throws before the
        clean-up; otherwise the export ends as `FinishExport` says. */
    method FinishExportAsWritten(zipWritten: bool) returns (r: Outcome)
      requires Valid() && |dirs.exportRoot| > 0 && dirs.exportRoot in fs.entries
      modifies this`archived, this`steps, this`archiveOutcomes, fs, logger
      ensures Valid()
      ensures archiveOutcomes == old(archiveOutcomes) + [zipWritten || ArchivePath(dirs.exportRoot) in old(fs.entries)]
      ensures r.Fail? <==> !zipWritten && ArchivePath(dirs.exportRoot) !in old(fs.entries)
      ensures r.Fail? ==> r == Fail(UndefinedLogError) && steps == old(steps)
      ensures r.Pass? ==> steps == old(steps) + [Finished]
      ensures r.Pass? ==> ExportLeft(old(fs.entries), fs.entries, dirs.exportRoot, zipWritten)
      ensures r.Pass? ==> old(logger.data) <= logger.data && !Logging.ErrorLogged(old(logger.data), logger.data)
      ensures r.Pass? ==> ArchivePath(dirs.exportRoot) in fs.entries && logger.counter == old(logger.counter) + 1
      ensures r.Pass? ==> logger.ReadBack() == Some(logger.data)
    {
      ghost var e, l, c := fs.entries, logger.data, logger.counter;
      r := FinishAsWritten(zipWritten);
      if r.Pass? {
        ExportLeaves(e, e, dirs.exportRoot, LanguagesJson(languageData), zipWritten);
        FinishReports(l, c, true, ArchivePath(dirs.exportRoot), now);
      }
    }

    /** The rest of `export` once `start` has made the working directory: the locale loop, then `finish`,
        as written when `asWritten` holds and as evidently intended otherwise. `before` and `logged` are
        the disk and the log before `start`, whose work stayed inside the working directory and logged
        only progress. */
    method Run(package: Package, zipWritten: bool, asWritten: bool, ghost before: map<Path, Node>, ghost logged: seq<Logging.Entry>)
      returns (r: Outcome)
      requires Valid() && |dirs.exportRoot| > 0 && dirs.exportRoot in fs.entries
      requires Confined(before, fs.entries, dirs.exportRoot)
      requires Logging.Progressed(logged, logger.data, logger.counter)
      modifies this, fs, logger
      ensures Valid() && isSlim == old(isSlim) && dirs.exportRoot == old(dirs.exportRoot)
      ensures r.Fail? <==> VisitFails(settings.config, supportedLanguages, package, siteLogoPath)
                           || (asWritten && !zipWritten && ArchivePath(dirs.exportRoot) !in before)
      ensures r.Fail? && !VisitFails(settings.config, supportedLanguages, package, siteLogoPath) ==> r == Fail(UndefinedLogError)
      ensures archiveOutcomes == old(archiveOutcomes)
        + (if VisitFails(settings.config, supportedLanguages, package, siteLogoPath) then []
           else [zipWritten || ArchivePath(dirs.exportRoot) in before])
      ensures r.Pass? ==> steps == old(steps) + VisitSteps(supportedLanguages, package) + [Finished]
      ensures r.Pass? ==> ExportLeft(before, fs.entries, dirs.exportRoot, zipWritten)
      ensures r.Pass? ==> logged <= logger.data
      ensures r.Pass? ==> (Logging.ErrorLogged(logged, logger.data) <==> ArchivePath(dirs.exportRoot) !in fs.entries)
      ensures r.Pass? ==> logger.counter == old(logger.counter) + (if ArchivePath(dirs.exportRoot) in fs.entries then 1 else 0)
      ensures r.Pass? ==> logger.ReadBack() == Some(logger.data)
    {
      ArchiveKept(before, fs.entries, dirs.exportRoot);
      r := VisitLocales(package);
      if r.Fail? {
        return;
      }
      ghost var e, l := fs.entries, logger.data;
      ConfinedTrans(before, old(fs.entries), e, dirs.exportRoot);
      Logging.ProgressedTrans(logged, old(logger.data), l, logger.counter);
      ArchiveKept(before, e, dirs.exportRoot);
      if asWritten {
        r := FinishExportAsWritten(zipWritten);
        if r.Fail? {
          return;
        }
      } else {
        FinishExport(zipWritten);
      }
      ExportLeftAfterStart(before, e, fs.entries, dirs.exportRoot, zipWritten);
      Logging.ErrorAfterProgress(logged, l, logger.data, old(logger.counter));
    }

    /** `export`: `start`, the locale loop, then `finish`, as written when `asWritten` holds and as
        evidently intended otherwise; `zipWritten` says whether the archive writer produces this
        export's archive. The export fails exactly when the date format is not a string, some language
        with content has interface texts that cannot take the logo, or, as written, the archive is
        neither produced nor already there. A finished export leaves only the archive behind, logs an
        error exactly when the archive is missing, and raises the counter exactly when it exists. */
    method Export(package: Package, slim: bool, zipWritten: bool, asWritten: bool) returns (r: Outcome)
      requires Valid()
      modifies this, fs, logger
      ensures Valid() && isSlim == slim
      ensures r.Fail? <==> !DateFormat(settings.config).JStr? || VisitFails(settings.config, supportedLanguages, package, siteLogoPath)
                           || (asWritten && !zipWritten
                               && ArchivePath(WorkingDir(exportsDir, package.slug, formatDate(DateFormat(settings.config).s), slim)) !in old(fs.entries))
      ensures r.Fail? && DateFormat(settings.config).JStr? && !VisitFails(settings.config, supportedLanguages, package, siteLogoPath)
              ==> r == Fail(UndefinedLogError)
      ensures archiveOutcomes == old(archiveOutcomes)
        + (if !DateFormat(settings.config).JStr? || VisitFails(settings.config, supportedLanguages, package, siteLogoPath) then []
           else [zipWritten || ArchivePath(WorkingDir(exportsDir, package.slug, formatDate(DateFormat(settings.config).s), slim)) in old(fs.entries)])
      ensures r.Pass? ==> steps == old(steps) + ExportSteps(package.name, package.slug, slim, supportedLanguages, package)
      ensures r.Pass? ==> dirs.exportRoot == WorkingDir(exportsDir, package.slug, formatDate(DateFormat(settings.config).s), slim)
      ensures r.Pass? ==> ExportLeft(old(fs.entries), fs.entries, dirs.exportRoot, zipWritten)
      ensures r.Pass? ==> (Logging.ErrorLogged(old(logger.data), logger.data) <==> ArchivePath(dirs.exportRoot) !in fs.entries)
      ensures r.Pass? ==> logger.counter == old(logger.counter) + (if ArchivePath(dirs.exportRoot) in fs.entries then 1 else 0)
      ensures r.Pass? ==> logger.ReadBack() == Some(logger.data)
    {
      isSlim := slim;
      r := Start(package.name, package.slug);
      if r.Fail? {
        return;
      }
      r := Run(package, zipWritten, asWritten, old(fs.entries), old(logger.data));
      if r.Fail? {
        return;
      }
      ExportStepsJoin(old(steps), package.name, package.slug, slim, supportedLanguages, package);
    }

    /** The bookkeeping of `finishLocale`: the next locale's manifest starts empty. */
    method CloseManifest()
      requires Valid()
      modifies this
      ensures archiveOutcomes == old(archiveOutcomes)
      ensures Valid() && mainData == map[] && added == 0 && localesFinished == old(localesFinished) + 1
      ensures started == old(started) && dirs == old(dirs) && isSlim == old(isSlim) && currentLocale == old(currentLocale)
      ensures languageData == old(languageData) && providedLocales == old(providedLocales) && archived == old(archived)
      ensures steps == old(steps) + [LocaleFinished]
    {
      mainData := map[];
      added, localesFinished := 0, localesFinished + 1;
      steps := steps + [LocaleFinished];
    }

    /** `finishLocale`: writes the manifest `main.json` and starts the next locale's manifest empty.
        The manifest lists one entry per item added in the locale, names the package only in the
        export's first locale, and is `[]` for a later locale with nothing added. */
    method FinishLocale()
      requires Valid() && InLocale()
      modifies this, fs, logger
      ensures archiveOutcomes == old(archiveOutcomes)
      ensures Valid() && InLocale() && dirs == old(dirs)
      ensures fs.entries == Put(old(fs.entries), dirs.exportData + ["main.json"], ManifestJson(old(mainData)))
      ensures Confined(old(fs.entries), fs.entries, dirs.exportRoot) && fs.copies == old(fs.copies)
      ensures old(added) > 0 || old(started && localesFinished == 0) ==>
        ManifestJson(old(mainData)).JObj? && "content" in ManifestJson(old(mainData)).fields
        && ManifestJson(old(mainData)).fields["content"].JList?
        && |ManifestJson(old(mainData)).fields["content"].items| == old(added)
      ensures ManifestJson(old(mainData)).JObj? ==>
        ("itemName" in ManifestJson(old(mainData)).fields <==> old(started && localesFinished == 0))
      ensures old(added) == 0 && !old(started && localesFinished == 0) ==> ManifestJson(old(mainData)) == JList([])
      ensures mainData == map[] && added == 0 && localesFinished == old(localesFinished) + 1 && started == old(started)
      ensures languageData == old(languageData) && providedLocales == old(providedLocales)
      ensures isSlim == old(isSlim) && currentLocale == old(currentLocale)
      ensures Logging.Progressed(old(logger.data), logger.data, logger.counter) && logger.counter == old(logger.counter)
      ensures steps == old(steps) + [LocaleFinished]
    {
      LocaleDirsBelowRoot(dirs.exportRoot, currentLocale, isSlim);
      Log("Completing the current locale: " + currentLocale);
      ghost var logged := logger.data;
      WriteData("main.json", ManifestJson(mainData));
      Logging.ProgressedTrans(old(logger.data), logged, logger.data, logger.counter);
      CloseManifest();
      logged := logger.data;
      Log("Locale completed.");
      Logging.ProgressedTrans(old(logger.data), logged, logger.data, logger.counter);
    }

    /** The first half of `finish`: `languages.json` in the working directory, then the archive.
        A stale archive of the same name counts as made. */
    method BuildArchive(zipWritten: bool) returns (zipped: bool)
      requires |dirs.exportRoot| > 0
      modifies this`archived, this`archiveOutcomes, fs, logger
      ensures archiveOutcomes == old(archiveOutcomes) + [zipped]
      ensures archived == Put(old(fs.entries), dirs.exportRoot + ["languages.json"], LanguagesJson(languageData))
      ensures fs.entries == ZipLayout(archived, dirs.exportRoot, zipWritten)
      ensures zipped <==> zipWritten || ArchivePath(dirs.exportRoot) in old(fs.entries)
      ensures fs.copies == old(fs.copies) && logger.counter == old(logger.counter)
      ensures logger.data == old(logger.data) + FinishRecords(logger.counter, zipped, ArchivePath(dirs.exportRoot), now)[..3]
    {
      Log("Completing export!");
      Log("Creating languages file: languages.json");
      var languagesFile := Disk.Join(dirs.exportRoot, "languages.json");
      fs.PutJson(languagesFile, LanguagesJson(languageData));
      Log("Zipping up the archive.");
      archived := fs.entries;
      var zip := ArchivePath(dirs.exportRoot);
      assert |languagesFile| != |zip|;
      fs.ZipTree(dirs.exportRoot, zip, zipWritten);
      zipped := zip in fs.entries;
      archiveOutcomes := archiveOutcomes + [zipped];
    }


    /** The archive's outcome logged: the counter raised and progress logged when it exists, an error
        logged when it does not. */
    method ReportArchive(zipped: bool)
      modifies logger
      ensures logger.data == old(logger.data) + FinishRecords(old(logger.counter), zipped, ArchivePath(dirs.exportRoot), now)[3..4]
      ensures logger.counter == old(logger.counter) + (if zipped then 1 else 0)
    {
      if zipped {
        logger.IncreaseCounter();
        Log("Archive has been zipped up. Doing some clean up.");
      } else {
        logger.LogError("For some reason the zip was not created: " + PathText(ArchivePath(dirs.exportRoot)), now);
      }
    }

    /** The end of `finish`: each provided locale's directory and then the working directory removed, and
        the export logged as completed. The archive, which lies outside, is kept. */
    method CleanUp()
      requires |dirs.exportRoot| > 0
      modifies this`steps, fs, logger
      ensures dirs.exportRoot in old(fs.entries) ==> fs.entries == Without(old(fs.entries), dirs.exportRoot)
      ensures fs.entries.Keys <= old(fs.entries).Keys
      ensures ArchivePath(dirs.exportRoot) in fs.entries <==> ArchivePath(dirs.exportRoot) in old(fs.entries)
      ensures fs.copies == old(fs.copies)
      ensures logger.data == old(logger.data) + [Logging.Entry(false, Some(logger.counter), false, "Completed export.", now)]
      ensures logger.counter == old(logger.counter) && logger.ReadBack() == Some(logger.data)
      ensures steps == old(steps) + [Finished]
    {
      RemoveWorkingDir(fs, dirs.exportRoot, providedLocales);
      ArchiveOutsideRoot(dirs.exportRoot);
      logger.Log("Completed export.", now);
      steps := steps + [Finished];
    }

    /** The rest of `finish` once the archive's fate is known: its outcome logged, then the clean-up. */
    method Conclude(zipped: bool)
      requires |dirs.exportRoot| > 0
      modifies this`steps, fs, logger
      ensures logger.data == old(logger.data) + FinishRecords(old(logger.counter), zipped, ArchivePath(dirs.exportRoot), now)[3..]
      ensures logger.counter == old(logger.counter) + (if zipped then 1 else 0) && logger.ReadBack() == Some(logger.data)
      ensures dirs.exportRoot in old(fs.entries) ==> fs.entries == Without(old(fs.entries), dirs.exportRoot)
      ensures ArchivePath(dirs.exportRoot) in fs.entries <==> ArchivePath(dirs.exportRoot) in old(fs.entries)
      ensures fs.copies == old(fs.copies) && steps == old(steps) + [Finished]
    {
      ghost var records := FinishRecords(old(logger.counter), zipped, ArchivePath(dirs.exportRoot), now);
      ReportArchive(zipped);
      CleanUp();
      assert records[3..] == records[3..4] + [records[4]];
      AppendAssoc(old(logger.data), records[3..4], [records[4]]);
    }

    /** `finish` as evidently intended, with the missing archive logged as an error: `languages.json`
        written, the archive made, its outcome logged, the working directory removed. The archive
        exists afterwards exactly when it was written or was already there. */
    method Finish(zipWritten: bool) returns (zipped: bool)
      requires |dirs.exportRoot| > 0
      modifies this`archived, this`steps, this`archiveOutcomes, fs, logger
      ensures archiveOutcomes == old(archiveOutcomes) + [zipped]
      ensures archived == Put(old(fs.entries), dirs.exportRoot + ["languages.json"], LanguagesJson(languageData))
      ensures zipped <==> zipWritten || ArchivePath(dirs.exportRoot) in old(fs.entries)
      ensures zipped <==> ArchivePath(dirs.exportRoot) in fs.entries
      ensures dirs.exportRoot in old(fs.entries) ==> fs.entries == Without(ZipLayout(archived, dirs.exportRoot, zipWritten), dirs.exportRoot)
      ensures fs.copies == old(fs.copies)
      ensures logger.data == old(logger.data) + FinishRecords(old(logger.counter), zipped, ArchivePath(dirs.exportRoot), now)
      ensures logger.counter == old(logger.counter) + (if zipped then 1 else 0)
      ensures logger.ReadBack() == Some(logger.data)
      ensures steps == old(steps) + [Finished]
    {
      zipped := BuildArchive(zipWritten);
      ghost var records := FinishRecords(old(logger.counter), zipped, ArchivePath(dirs.exportRoot), now);
      assert dirs.exportRoot in old(fs.entries) ==> dirs.exportRoot in fs.entries;
      Conclude(zipped);
      assert records == records[..3] + records[3..];
      AppendAssoc(old(logger.data), records[..3], records[3..]);
    }

    /** `finish` as written: the branch for a missing archive calls `logError`, a method the class does
        not have, so PHP stops the export there with an `Error`, before the clean-up and without logging
        anything about the archive; the working directory stays on disk. */
    method FinishAsWritten(zipWritten: bool) returns (r: Outcome)
      requires |dirs.exportRoot| > 0
      modifies this`archived, this`steps, this`archiveOutcomes, fs, logger
      ensures archiveOutcomes == old(archiveOutcomes) + [zipWritten || ArchivePath(dirs.exportRoot) in old(fs.entries)]
      ensures r.Fail? <==> !zipWritten && ArchivePath(dirs.exportRoot) !in old(fs.entries)
      ensures r.Fail? ==> r == Fail(UndefinedLogError) && fs.entries == archived && steps == old(steps)
      ensures r.Fail? ==> logger.data == old(logger.data) + FinishRecords(old(logger.counter), false, ArchivePath(dirs.exportRoot), now)[..3]
      ensures r.Pass? ==> logger.data == old(logger.data) + FinishRecords(old(logger.counter), true, ArchivePath(dirs.exportRoot), now)
      ensures r.Pass? ==> dirs.exportRoot in old(fs.entries) ==> fs.entries == Without(ZipLayout(archived, dirs.exportRoot, zipWritten), dirs.exportRoot)
      ensures r.Pass? ==> ArchivePath(dirs.exportRoot) in fs.entries && steps == old(steps) + [Finished]
      ensures r.Pass? ==> logger.counter == old(logger.counter) + 1 && logger.ReadBack() == Some(logger.data)
      ensures archived == Put(old(fs.entries), dirs.exportRoot + ["languages.json"], LanguagesJson(languageData))
      ensures fs.copies == old(fs.copies)
    {
      var zipped := BuildArchive(zipWritten);
      if !zipped {
        return Fail(UndefinedLogError);
      }
      ghost var records := FinishRecords(old(logger.counter), zipped, ArchivePath(dirs.exportRoot), now);
      assert dirs.exportRoot in old(fs.entries) ==> dirs.exportRoot in fs.entries;
      Conclude(zipped);
      assert records == records[..3] + records[3..];
      AppendAssoc(old(logger.data), records[..3], records[3..]);
      r := Pass;
    }
  }

  /** `exporter/supported_languages`, or the English default when the setting is absent. */
  function SupportedLanguages(config: Json): Option<seq<LanguageSetting>> {
    DecodeLanguages(Config.Walk(config, LanguagesPath, DefaultLanguagesJson))
  }

  /** Without an `exporter` section, the exporter supports English alone. */
  lemma NoSettingMeansEnglish(config: Json)
    requires config.JObj? && "exporter" !in config.fields
    ensures SupportedLanguages(config) == Some([LanguageSetting("en", JList([JStr("en-US"), JStr("en")]), "English", true)])
  {
    assert Config.Walk(config, LanguagesPath, DefaultLanguagesJson) == DefaultLanguagesJson by {
      assert Config.Index(config, "exporter") == None;
      assert Config.Index(DefaultLanguagesJson, "supported_languages") == None by {
        assert !Config.IntegerKey("supported_languages") by {
          assert !('0' <= "supported_languages"[0] <= '9');
        }
      }
    }
    DefaultLanguages();
  }

  /** The constructor: it refuses an exports directory that does not exist, and otherwise keeps the
      site logo when its configured path names an existing file, and the supported languages. */
  method NewPackageExporter(fs: FileSystem, logger: Logging.FileLogger, settings: Config.Settings, publicPath: Path,
                            exportsDir: Path, formatDate: string -> string, now: int) returns (r: Result<PackageExporter>)
    ensures exportsDir !in fs.entries ==> r == Err(ExportsDirMissing)
    ensures exportsDir in fs.entries ==> (r.Err? <==> SupportedLanguages(settings.config).None?)
    ensures exportsDir in fs.entries && r.Err? ==> r == Err(MalformedLanguages)
    ensures r.Err? ==> r.message in {ExportsDirMissing, MalformedLanguages}
    ensures r.Ok? ==> fresh(r.value) && r.value.Valid() && r.value.steps == [] && r.value.archiveOutcomes == [] && r.value.providedLocales == []
    ensures r.Ok? ==> r.value.fs == fs && r.value.logger == logger && r.value.settings == settings && r.value.exportsDir == exportsDir
    ensures r.Ok? ==> r.value.siteLogoPath == SiteLogo(fs.entries, publicPath, settings.config)
    ensures r.Ok? ==> Some(r.value.supportedLanguages) == SupportedLanguages(settings.config)
    ensures r.Ok? ==> r.value.siteLogoPath == [] || r.value.siteLogoPath in fs.entries
  {
    if exportsDir !in fs.entries {
      return Err(ExportsDirMissing);
    }
    var languages := SupportedLanguages(settings.config);
    if languages.None? {
      return Err(MalformedLanguages);
    }
    var exporter := new PackageExporter(fs, logger, settings, exportsDir, SiteLogo(fs.entries, publicPath, settings.config),
                                        languages.value, formatDate, now);
    r := Ok(exporter);
  }
}
