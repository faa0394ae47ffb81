/** The pack metadata of `DataManager` (`packInfo`) and the texts generated from it: the
    `.config` file, the response file for UnrealPak, the manifest record and the rewrite of the
    response file after the pack structure is exported. */
module PackMeta {
  import opened Wrappers
  import opened Seqs
  import opened Text

  /** `packAssetTypes` starts as a set; `setPackInfo` can replace it by a list. */
  datatype AssetTypes = AsSet(types: set<string>) | AsList(items: seq<string>)

  /** `packInfo`. The fields that start as `''` are never set to `None`. */
  datatype PackInfo = PackInfo(
    name: Option<string>,
    cleanName: Option<string>,
    version: Option<string>,
    desc: string,
    category: Option<string>,
    tags: string,
    assetsPath: Option<string>,
    thumbPath: string,
    scrShotPath: string,
    outputPath: Option<string>,
    assetTypes: AssetTypes)

  function InitialInfo(): PackInfo {
    PackInfo(None, None, None, "", None, "", None, "", "", None, AsSet({}))
  }

  /** The keys of `packInfo`, in dict order. */
  datatype InfoKey =
    | PackNameKey | PackCleanNameKey | PackVersionKey | PackDescKey | PackCategoryKey | PackTagsKey
    | PackAssetsPathKey | PackThumbPathKey | PackScrShotPathKey | PackOutputPathKey | PackAssetTypesKey

  /** Position of a key in dict order. */
  function KeyIndex(k: InfoKey): nat {
    match k
    case PackNameKey => 0
    case PackCleanNameKey => 1
    case PackVersionKey => 2
    case PackDescKey => 3
    case PackCategoryKey => 4
    case PackTagsKey => 5
    case PackAssetsPathKey => 6
    case PackThumbPathKey => 7
    case PackScrShotPathKey => 8
    case PackOutputPathKey => 9
    case PackAssetTypesKey => 10
  }

  /** Reference definition: the value stored under `k` is `None`. */
  predicate IsUnset(info: PackInfo, k: InfoKey) {
    match k
    case PackNameKey => info.name.None?
    case PackCleanNameKey => info.cleanName.None?
    case PackVersionKey => info.version.None?
    case PackCategoryKey => info.category.None?
    case PackAssetsPathKey => info.assetsPath.None?
    case PackOutputPathKey => info.outputPath.None?
    case _ => false
  }

  /** Every key, in dict order. */
  const AllKeys: seq<InfoKey> :=
    [PackNameKey, PackCleanNameKey, PackVersionKey, PackDescKey, PackCategoryKey, PackTagsKey,
     PackAssetsPathKey, PackThumbPathKey, PackScrShotPathKey, PackOutputPathKey, PackAssetTypesKey]

  predicate InDictOrder(keys: seq<InfoKey>) {
    forall i, j :: 0 <= i < j < |keys| ==> KeyIndex(keys[i]) < KeyIndex(keys[j])
  }

  lemma AllKeysComplete(k: InfoKey)
    ensures k in AllKeys && InDictOrder(AllKeys)
  {
    assert AllKeys[KeyIndex(k)] == k;
    assert forall i :: 0 <= i < |AllKeys| ==> KeyIndex(AllKeys[i]) == i;
  }

  /** The comprehension over the dict items: the keys among `keys` whose value is `None`. */
  function UnsetAmong(keys: seq<InfoKey>, info: PackInfo): (r: seq<InfoKey>)
    ensures forall k :: k in r <==> k in keys && IsUnset(info, k)
    ensures InDictOrder(keys) ==> InDictOrder(r)
    decreases |keys|
  {
    if keys == [] then []
    else
      var rest := UnsetAmong(keys[1..], info);
      if IsUnset(info, keys[0]) then
        OrderedCons(keys, rest);
        [keys[0]] + rest
      else
        OrderedTail(keys);
        rest
  }

  /** The tail of a list in dict order is in dict order. */
  lemma OrderedTail(keys: seq<InfoKey>)
    requires keys != []
    ensures InDictOrder(keys) ==> InDictOrder(keys[1..])
  {
    if InDictOrder(keys) {
      forall i, j | 0 <= i < j < |keys[1..]|
        ensures KeyIndex(keys[1..][i]) < KeyIndex(keys[1..][j])
      {
        assert keys[1..][i] == keys[i + 1] && keys[1..][j] == keys[j + 1];
      }
    }
  }

  /** The head of a list in dict order, put before a list in dict order drawn from its tail,
      gives a list in dict order. */
  lemma OrderedCons(keys: seq<InfoKey>, rest: seq<InfoKey>)
    requires keys != [] && forall x :: x in rest ==> x in keys[1..]
    requires InDictOrder(keys[1..]) ==> InDictOrder(rest)
    ensures InDictOrder(keys) ==> InDictOrder([keys[0]] + rest)
  {
    if InDictOrder(keys) {
      OrderedTail(keys);
      var r := [keys[0]] + rest;
      forall i, j | 0 <= i < j < |r|
        ensures KeyIndex(r[i]) < KeyIndex(r[j])
      {
        assert r[j] == rest[j - 1] && r[j] in keys[1..];
        var m :| 0 <= m < |keys[1..]| && keys[1..][m] == r[j];
        assert keys[m + 1] == r[j];
        if i > 0 {
          assert r[i] == rest[i - 1];
        }
      }
    }
  }

  /** `getMissingPackInfo`: `None` when no value is `None`, else the keys with a `None`
      value, in dict order. */
  function MissingPackInfo(info: PackInfo): (r: Option<seq<InfoKey>>)
    ensures r.None? <==> forall k :: !IsUnset(info, k)
    ensures r.Some? ==> |r.value| >= 1 && forall k :: k in r.value <==> IsUnset(info, k)
    ensures r.Some? ==> InDictOrder(r.value)
  {
    var missing := UnsetAmong(AllKeys, info);
    AllKeysComplete(PackNameKey);
    assert forall k :: IsUnset(info, k) ==> k in missing by {
      forall k | IsUnset(info, k)
        ensures k in missing
      {
        AllKeysComplete(k);
      }
    }
    if missing == [] then None
    else
      assert missing[0] in missing && IsUnset(info, missing[0]);
      Some(missing)
  }

  /** The arguments of `setPackInfo`; `None` stands for an argument not passed. */
  datatype InfoArgs = InfoArgs(
    name: Option<string>, version: Option<string>, desc: Option<string>, category: Option<string>,
    tags: Option<string>, assetTypes: Option<seq<string>>, assetsPath: Option<string>,
    thumbPath: Option<string>, scrShotPath: Option<string>, outputPath: Option<string>)

  /** Python truthiness of an optional string: given and not empty. */
  predicate Truthy(s: Option<string>) {
    s.Some? && s.value != ""
  }

  /** A required text field: replaced by a non-empty argument, otherwise kept. */
  function KeepUnlessGiven(arg: Option<string>, current: Option<string>): (r: Option<string>)
    ensures current.Some? ==> r.Some?
    ensures Truthy(arg) ==> r == arg
    ensures !Truthy(arg) ==> r == current
    ensures r != current ==> r == arg && r.Some?
  {
    if Truthy(arg) then arg else current
  }

  /** A required path: a non-empty argument is stored if the path exists and clears the field
      if it does not; an empty or missing argument keeps the field. */
  function CheckedPath(arg: Option<string>, current: Option<string>, pathExists: string -> bool): (r: Option<string>)
    ensures Truthy(arg) ==> (r.Some? <==> pathExists(arg.value))
    ensures Truthy(arg) && pathExists(arg.value) ==> r == arg
    ensures !Truthy(arg) ==> r == current
    ensures r.Some? ==> r == current || (r == arg && pathExists(r.value))
  {
    if Truthy(arg) then (if pathExists(arg.value) then arg else None) else current
  }

  /** An optional image path: any given argument, even `''`, is stored if the path exists and
      resets the field to `''` if it does not. */
  function CheckedImage(arg: Option<string>, current: string, pathExists: string -> bool): (r: string)
    ensures arg.None? ==> r == current
    ensures arg.Some? && !pathExists(arg.value) ==> r == ""
    ensures arg.Some? && pathExists(arg.value) ==> r == arg.value
    ensures r != current ==> (arg == Some(r) && pathExists(r)) || r == ""
  {
    if arg.Some? then (if pathExists(arg.value) then arg.value else "") else current
  }

  /** `setPackInfo`. `pathExists` and `sanitize` stand for `os.path.exists` and
      `pathvalidate.sanitize_filename` (with `_` as replacement). The display name is kept
      only when given and non-empty, and the clean name, derived from it with spaces turned
      into underscores, is set exactly when the name is. */
  function SetInfo(info: PackInfo, a: InfoArgs, pathExists: string -> bool, sanitize: string -> string): (r: PackInfo)
    ensures r.name.Some? <==> Truthy(a.name)
    ensures r.name.Some? <==> r.cleanName.Some?
    ensures r.name.Some? ==> r.name == a.name && r.cleanName.value == sanitize(ReplaceChar(a.name.value, ' ', '_'))
    ensures r.assetTypes != info.assetTypes ==> a.assetTypes.Some? && r.assetTypes == AsList(a.assetTypes.value)
  {
    PackInfo(
      if Truthy(a.name) then a.name else None,
      if Truthy(a.name) then Some(sanitize(ReplaceChar(a.name.value, ' ', '_'))) else None,
      KeepUnlessGiven(a.version, info.version),
      a.desc.GetOr(info.desc),
      KeepUnlessGiven(a.category, info.category),
      a.tags.GetOr(info.tags),
      CheckedPath(a.assetsPath, info.assetsPath, pathExists),
      CheckedImage(a.thumbPath, info.thumbPath, pathExists),
      CheckedImage(a.scrShotPath, info.scrShotPath, pathExists),
      CheckedPath(a.outputPath, info.outputPath, pathExists),
      if a.assetTypes.Some? && a.assetTypes.value != [] then AsList(a.assetTypes.value) else info.assetTypes)
  }

  /** A call with no arguments clears the name and clean name and leaves the rest alone. */
  lemma SetInfoNoArgs(info: PackInfo, pathExists: string -> bool, sanitize: string -> string)
    ensures var r := SetInfo(info, InfoArgs(None, None, None, None, None, None, None, None, None, None), pathExists, sanitize);
            r == info.(name := None, cleanName := None) &&
            MissingPackInfo(r).Some? && PackNameKey in MissingPackInfo(r).value
  {
  }

  const AssetSuffix := ".uasset"

  /** How `InferAssetTypes` treats one filename. */
  datatype Classification = NotAnAsset | Known(assetType: string) | Unknown

  /** A `.uasset` file is typed by the upper-cased prefix up to and including its first `_`,
      looked up in the asset-type table; a file without `_` or with an unknown prefix is
      untyped. */
  function Classify(filename: string, table: map<string, string>): (r: Classification)
    ensures r.NotAnAsset? <==> !EndsWith(filename, AssetSuffix)
    ensures r.Known? ==>
              EndsWith(filename, AssetSuffix) && Find(filename, '_') >= 0 &&
              Upper(filename[..Find(filename, '_') + 1]) in table &&
              table[Upper(filename[..Find(filename, '_') + 1])] == r.assetType
    ensures r.Unknown? <==>
              EndsWith(filename, AssetSuffix) &&
              (Find(filename, '_') == -1 || Upper(filename[..Find(filename, '_') + 1]) !in table)
  {
    if !EndsWith(filename, AssetSuffix) then NotAnAsset
    else
      var prefixEnd := Find(filename, '_') + 1;
      if prefixEnd >= 1 then
        var prefix := Upper(filename)[..prefixEnd];
        assert prefix == Upper(filename[..prefixEnd]);
        if prefix in table then Known(table[prefix]) else Unknown
      else Unknown
  }

  /** The asset types a scan over `files` adds, file by file. */
  function KnownTypes(files: seq<string>, table: map<string, string>): set<string>
    decreases |files|
  {
    if files == [] then {}
    else
      KnownTypes(files[..|files| - 1], table) +
      match Classify(files[|files| - 1], table)
      case Known(t) => {t}
      case _ => {}
  }

  /** `packAssetTypes` after types are added to it: a set grows, a list (which has no `add`)
      is left as it is. */
  function AddTypes(t: AssetTypes, found: set<string>): AssetTypes {
    match t
    case AsSet(known) => AsSet(known + found)
    case AsList(_) => t
  }

  /** The `.uasset` files a scan over `files` could not type, in scan order. */
  function UnknownFiles(files: seq<string>, table: map<string, string>): seq<string> {
    Filter(files, f => Classify(f, table).Unknown?)
  }

  /** A scan sorts the files into three kinds: the types of the typed assets are exactly the
      types it adds, the untyped assets are exactly the files it reports, and every other
      file is ignored. */
  lemma {:induction false} InferPartition(files: seq<string>, table: map<string, string>)
    ensures forall f :: f in files && Classify(f, table).Known? ==> Classify(f, table).assetType in KnownTypes(files, table)
    ensures forall t :: t in KnownTypes(files, table) ==> exists f :: f in files && Classify(f, table) == Known(t)
    ensures forall f :: f in UnknownFiles(files, table) <==> f in files && EndsWith(f, AssetSuffix) && !Classify(f, table).Known?
    decreases |files|
  {
    var keep := f => Classify(f, table).Unknown?;
    forall f | f in files && keep(f)
      ensures f in UnknownFiles(files, table)
    {
      FilterComplete(files, keep, f);
    }
    if files != [] {
      var init, last := files[..|files| - 1], files[|files| - 1];
      InferPartition(init, table);
      assert files == init + [last];
    }
  }

  /** Python's `str()` of an optional string inside an f-string. */
  function PyStr(s: Option<string>): string {
    match s
    case Some(t) => t
    case None => "None"
  }

  const ConfigHeader := "[AdditionalFilesToAdd]"
  const FilesPrefix := "+Files=Samples/"
  const FilesSuffix := "/Content/*.*"

  /** `_generateConfigData`: a header line and a line adding the pack's `Content` folder
      under `Samples`. */
  function ConfigText(cleanName: Option<string>): string {
    Join([ConfigHeader, FilesPrefix + PyStr(cleanName) + FilesSuffix], "\n")
  }

  /** Reads the pack folder name back from a config text. */
  function ConfigPackName(text: string): Option<string> {
    var lines := SplitOn(text, '\n');
    if |lines| == 2 && lines[0] == ConfigHeader && |lines[1]| >= |FilesPrefix| + |FilesSuffix|
       && StartsWith(lines[1], FilesPrefix) && EndsWith(lines[1], FilesSuffix)
    then Some(lines[1][|FilesPrefix|..|lines[1]| - |FilesSuffix|])
    else None
  }

  /** The config text has two lines and names the pack folder it was made for (`None` when the
      clean name is unset, as Python prints it). */
  lemma ConfigRoundTrip(cleanName: Option<string>)
    requires '\n' !in PyStr(cleanName)
    ensures ConfigPackName(ConfigText(cleanName)) == Some(PyStr(cleanName))
  {
    var line := FilesPrefix + PyStr(cleanName) + FilesSuffix;
    ConfigLinesUnbroken(PyStr(cleanName));
    SplitJoin([ConfigHeader, line], '\n');
    assert line[..|FilesPrefix|] == FilesPrefix;
    assert line[|line| - |FilesSuffix|..] == FilesSuffix;
    assert line[|FilesPrefix|..|line| - |FilesSuffix|] == PyStr(cleanName);
  }

  /** Neither line of the config text holds a newline of its own. */
  lemma ConfigLinesUnbroken(name: string)
    requires '\n' !in name
    ensures '\n' !in ConfigHeader && '\n' !in FilesPrefix + name + FilesSuffix
  {
    assert forall i :: 0 <= i < |ConfigHeader| ==> ConfigHeader[i] != '\n';
    assert forall i :: 0 <= i < |FilesPrefix| ==> FilesPrefix[i] != '\n';
    assert forall i :: 0 <= i < |FilesSuffix| ==> FilesSuffix[i] != '\n';
    var line := FilesPrefix + name + FilesSuffix;
    forall i | 0 <= i < |line|
      ensures line[i] != '\n'
    {
      if i < |FilesPrefix| {
        assert line[i] == FilesPrefix[i];
      } else if i < |FilesPrefix| + |name| {
        assert line[i] == name[i - |FilesPrefix|];
      } else {
        assert line[i] == FilesSuffix[i - |FilesPrefix| - |name|];
      }
    }
  }

  /** `_generateResponseData`: the config directory and the thumbnail directory, each with a
      trailing backslash marking a directory, then the manifest file, all three relative to
      the directory above UnrealPak. */
  function ResponseText(configDir: string, thumbDir: string, manifestPath: string, start: string,
                        relpath: (string, string) -> string): string {
    Join([relpath(configDir, start) + "\\", relpath(thumbDir, start) + "\\", relpath(manifestPath, start)], "\n")
  }

  /** Splitting the response text on newlines gives its three lines back; the first two end in
      a backslash. */
  lemma ResponseLines(configDir: string, thumbDir: string, manifestPath: string, start: string,
                      relpath: (string, string) -> string)
    requires '\n' !in relpath(configDir, start) && '\n' !in relpath(thumbDir, start)
    requires '\n' !in relpath(manifestPath, start)
    ensures var lines := SplitOn(ResponseText(configDir, thumbDir, manifestPath, start, relpath), '\n');
            |lines| == 3 &&
            lines[0] == relpath(configDir, start) + "\\" && EndsWith(lines[0], "\\") &&
            lines[1] == relpath(thumbDir, start) + "\\" && EndsWith(lines[1], "\\") &&
            lines[2] == relpath(manifestPath, start)
  {
    var a := relpath(configDir, start) + "\\";
    var b := relpath(thumbDir, start) + "\\";
    assert '\n' !in a && '\n' !in b;
    SplitJoin([a, b, relpath(manifestPath, start)], '\n');
  }

  /** `updateExportedResponseFile`: every occurrence of the old directory replaced by the new. */
  function RewriteResponse(text: string, oldDir: string, newDir: string): string {
    ReplaceAll(text, oldDir, newDir)
  }

  /** The rewrite of a response text acts on each of its three lines separately, and leaves a
      text that does not mention the old directory as it is. */
  lemma RewriteResponseLines(a: string, b: string, c: string, oldDir: string, newDir: string)
    requires oldDir != [] && '\n' !in oldDir
    ensures RewriteResponse(Join([a, b, c], "\n"), oldDir, newDir)
         == Join([RewriteResponse(a, oldDir, newDir), RewriteResponse(b, oldDir, newDir),
                  RewriteResponse(c, oldDir, newDir)], "\n")
    ensures !Contains(Join([a, b, c], "\n"), oldDir) ==>
              RewriteResponse(Join([a, b, c], "\n"), oldDir, newDir) == Join([a, b, c], "\n")
  {
    var lines := [a, b, c];
    ReplaceAllLinewise(lines, oldDir, newDir);
    var mapped := seq(|lines|, i requires 0 <= i < |lines| => ReplaceAll(lines[i], oldDir, newDir));
    assert mapped == [ReplaceAll(a, oldDir, newDir), ReplaceAll(b, oldDir, newDir), ReplaceAll(c, oldDir, newDir)];
    if !Contains(Join(lines, "\n"), oldDir) {
      ReplaceAllAbsent(Join(lines, "\n"), oldDir, newDir);
    }
  }

  /** A localised text entry of the manifest; the language is always `en`. */
  datatype LocalizedText = LocalizedText(language: string, text: Option<string>)

  const Language := "en"

  /** `manifestData`, the record `json.dump` writes as the pack's manifest. */
  datatype Manifest = Manifest(
    version: Option<string>,
    name: seq<LocalizedText>,
    description: seq<LocalizedText>,
    assetTypes: seq<LocalizedText>,
    searchTags: seq<LocalizedText>,
    classTypes: string,
    category: Option<string>,
    thumbnail: string,
    screenshots: seq<string>)

  /** The order `', '.join` visits the asset types in: the list's own order, or the set's
      iteration order, which Python does not fix and is given here as `order`. */
  ghost predicate IsOrderOf(order: seq<string>, types: AssetTypes) {
    match types
    case AsList(items) => order == items
    case AsSet(s) => NoDuplicates(order) && forall x :: x in order <==> x in s
  }

  /** `_generateManifestData`, for the thumbnail and screenshot names the staging resolved. */
  function MakeManifest(info: PackInfo, order: seq<string>, thumbnail: string, screenshot: string): Manifest {
    Manifest(
      info.version,
      [LocalizedText(Language, info.name)],
      [LocalizedText(Language, Some(info.desc))],
      [LocalizedText(Language, Some(Join(order, ", ")))],
      [LocalizedText(Language, Some(info.tags))],
      "",
      info.category,
      thumbnail,
      [screenshot])
  }

  /** The manifest has one English entry per text field; its asset types entry names every
      asset type of the pack (whether a set or a list), and it carries the pack's name,
      category, thumbnail and single screenshot. */
  lemma ManifestContents(info: PackInfo, order: seq<string>, thumbnail: string, screenshot: string)
    requires IsOrderOf(order, info.assetTypes)
    ensures var m := MakeManifest(info, order, thumbnail, screenshot);
            |m.assetTypes| == 1 && m.assetTypes[0].language == Language && m.assetTypes[0].text.Some? &&
            (forall x :: InTypes(x, info.assetTypes) ==> Contains(m.assetTypes[0].text.value, x)) &&
            m.name == [LocalizedText(Language, info.name)] && m.category == info.category &&
            m.thumbnail == thumbnail && m.screenshots == [screenshot]
  {
    forall x | InTypes(x, info.assetTypes)
      ensures Contains(Join(order, ", "), x)
    {
      var i :| 0 <= i < |order| && order[i] == x;
      JoinContains(order, ", ", i);
    }
  }

  /** `x` is one of the asset types. */
  predicate InTypes(x: string, types: AssetTypes) {
    match types
    case AsSet(s) => x in s
    case AsList(items) => x in items
  }

  lemma {:induction false} OccursAfter(a: string, b: string, target: string, i: int)
    requires OccursAt(b, target, i)
    ensures OccursAt(a + b, target, |a| + i)
  {
    assert (a + b)[|a| + i..|a| + i + |target|] == b[i..i + |target|];
  }

  /** Every part of a joined text occurs in it. */
  lemma {:induction false} JoinContains(parts: seq<string>, sep: string, i: int)
    requires 0 <= i < |parts|
    ensures Contains(Join(parts, sep), parts[i])
    decreases |parts|
  {
    var j := Join(parts, sep);
    if |parts| == 1 {
      assert OccursAt(j, parts[0], 0);
    } else if i == 0 {
      assert j[..|parts[0]|] == parts[0];
      assert OccursAt(j, parts[0], 0);
    } else {
      JoinContains(parts[1..], sep, i - 1);
      var k :| 0 <= k <= |Join(parts[1..], sep)| && OccursAt(Join(parts[1..], sep), parts[i], k);
      OccursAfter(parts[0] + sep, Join(parts[1..], sep), parts[i], k);
      assert OccursAt(j, parts[i], |parts[0] + sep| + k);
    }
  }
}
