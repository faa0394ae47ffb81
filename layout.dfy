/** The staging layout of `generatePackFileStruct`: the JSON pack layout as a tree, the
    registry of `(directory, pattern)` pairs its walk records, the check that the eight fixed
    keys were found, and the conversion of patterns into names. */
module Layout {
  import opened Wrappers
  import opened Seqs
  import Paths
  import opened Patterns

  /** A value of the JSON layout: an object becomes a folder, a string a filename pattern;
      `null` and every other JSON value are neither. */
  datatype Node = Folder(entries: seq<Entry>) | Pattern(text: string) | Null | Scalar

  /** One key/value pair of a JSON object, in file order. */
  datatype Entry = Entry(name: string, value: Node)

  /** A registry value: the directory and either the pattern (after the walk) or the name
      (after the conversion). */
  datatype Location = Location(dir: string, name: string)

  /** `tmpFilePaths`: a Python dict, so its keys are kept in insertion order; an update of an
      existing key keeps that key's place. */
  datatype Registry = Registry(keys: seq<string>, at: map<string, Option<Location>>) {
    ghost predicate Valid() {
      NoDuplicates(keys) && forall k :: k in at <==> k in keys
    }
  }

  /** `pathDict[k] = v`. */
  function Put(r: Registry, k: string, v: Location): (r': Registry)
    requires r.Valid()
    ensures r'.Valid()
    ensures r'.at == r.at[k := Some(v)]
    ensures r.keys <= r'.keys
  {
    if k in r.at then Registry(r.keys, r.at[k := Some(v)])
    else Registry(r.keys + [k], r.at[k := Some(v)])
  }

  const ConfigFile := "configFile"
  const ThumbnailFile := "thumbnailFile"
  const ScreenshotFile := "screenshotFile"
  const ManifestFile := "manifestFile"
  const UpackFile := "upackFile"
  const AssetFolder := "assetFolder"
  const ResponseFile := "responseFile"
  const PackingCmdFile := "packingCmdFile"

  /** The eight keys every layout must define, in the order the registry is seeded with them. */
  const FixedKeys: seq<string> :=
    [ConfigFile, ThumbnailFile, ScreenshotFile, ManifestFile, UpackFile, AssetFolder, ResponseFile, PackingCmdFile]

  /** A key list that starts with the fixed keys holds each of them. */
  lemma FixedKeysIn(keys: seq<string>)
    requires FixedKeys <= keys
    ensures ConfigFile in keys && ThumbnailFile in keys && ScreenshotFile in keys && ManifestFile in keys
    ensures UpackFile in keys && AssetFolder in keys && ResponseFile in keys && PackingCmdFile in keys
  {
    assert keys[0] == ConfigFile && keys[1] == ThumbnailFile && keys[2] == ScreenshotFile && keys[3] == ManifestFile;
    assert keys[4] == UpackFile && keys[5] == AssetFolder && keys[6] == ResponseFile && keys[7] == PackingCmdFile;
  }

  /** `key` holds a location in `at`. */
  predicate IsSet(at: map<string, Option<Location>>, key: string) {
    key in at && at[key].Some?
  }

  /** Each of the eight fixed keys holds a location. */
  predicate FixedSet(at: map<string, Option<Location>>) {
    IsSet(at, ConfigFile) && IsSet(at, ThumbnailFile) && IsSet(at, ScreenshotFile) && IsSet(at, ManifestFile) &&
    IsSet(at, UpackFile) && IsSet(at, AssetFolder) && IsSet(at, ResponseFile) && IsSet(at, PackingCmdFile)
  }

  /** The registry before the walk: every fixed key present and unset. */
  function InitialRegistry(): (r: Registry)
    ensures r.Valid()
    ensures r.keys == FixedKeys
    ensures forall k :: k in r.at ==> r.at[k] == None
  {
    Registry(FixedKeys, map k | k in FixedKeys :: None)
  }

  /** `_recursiveCreateDir`: visits the entries in order; an object is a directory (named after
      its key, under `base`) walked in turn, a string records `(base, pattern)` under its key. */
  function Walk(reg: Registry, entries: seq<Entry>, base: string): (r: Registry)
    requires reg.Valid()
    ensures r.Valid()
    ensures reg.keys <= r.keys
    decreases entries
  {
    if entries == [] then reg
    else
      var before := Walk(reg, entries[..|entries| - 1], base);
      var e := entries[|entries| - 1];
      match e.value
      case Folder(children) => Walk(before, children, Paths.Join(base, e.name))
      case Pattern(p) => Put(before, e.name, Location(base, p))
      case _ => before
  }

  /** The directories the walk creates. */
  function Dirs(entries: seq<Entry>, base: string): set<string>
    decreases entries
  {
    if entries == [] then {}
    else
      var e := entries[|entries| - 1];
      Dirs(entries[..|entries| - 1], base) +
      match e.value
      case Folder(children) => {Paths.Join(base, e.name)} + Dirs(children, Paths.Join(base, e.name))
      case _ => {}
  }

  /** Reference definition: the location of the string-valued entry named `k` that comes last
      in document order, searched from the end. */
  function LastLocation(entries: seq<Entry>, base: string, k: string): Option<Location>
    decreases entries
  {
    if entries == [] then None
    else
      var e := entries[|entries| - 1];
      var earlier := LastLocation(entries[..|entries| - 1], base, k);
      match e.value
      case Folder(children) =>
        var inner := LastLocation(children, Paths.Join(base, e.name), k);
        if inner.Some? then inner else earlier
      case Pattern(p) => if e.name == k then Some(Location(base, p)) else earlier
      case _ => earlier
  }

  /** The walk records exactly the last string-valued entry of each name, overwriting what
      an earlier entry of that name recorded, and leaves every other key as it was. */
  lemma {:induction false} WalkRecordsLast(reg: Registry, entries: seq<Entry>, base: string, k: string)
    requires reg.Valid()
    ensures k in Walk(reg, entries, base).at <==> k in reg.at || LastLocation(entries, base, k).Some?
    ensures LastLocation(entries, base, k).Some? ==>
              Walk(reg, entries, base).at[k] == LastLocation(entries, base, k)
    ensures LastLocation(entries, base, k).None? && k in reg.at ==>
              Walk(reg, entries, base).at[k] == reg.at[k]
    decreases entries
  {
    if entries != [] {
      var init := entries[..|entries| - 1];
      var e := entries[|entries| - 1];
      WalkRecordsLast(reg, init, base, k);
      var before := Walk(reg, init, base);
      match e.value
      case Folder(children) =>
        WalkRecordsLast(before, children, Paths.Join(base, e.name), k);
      case Pattern(p) =>
      case Null =>
      case Scalar =>
    }
  }

  /** The first key, in registry order, whose value is still unset. */
  function FirstMissing(keys: seq<string>, at: map<string, Option<Location>>): (r: Option<string>)
    requires forall k :: k in keys ==> k in at
    ensures r.None? <==> forall i :: 0 <= i < |keys| ==> at[keys[i]].Some?
    ensures r.Some? ==> r.value in keys && at[r.value].None?
    decreases |keys|
  {
    if keys == [] then None
    else if at[keys[0]].None? then Some(keys[0])
    else FirstMissing(keys[1..], at)
  }

  /** The layout check fails exactly when one of the fixed keys has no string-valued entry
      anywhere in the layout, and the key it reports is such a key. */
  lemma MissingFixedKey(entries: seq<Entry>, base: string)
    ensures var reg := Walk(InitialRegistry(), entries, base);
            var m := FirstMissing(reg.keys, reg.at);
            (m.None? <==> forall i :: 0 <= i < |FixedKeys| ==> LastLocation(entries, base, FixedKeys[i]).Some?) &&
            (m.Some? ==> m.value in FixedKeys && LastLocation(entries, base, m.value).None?)
  {
    var init := InitialRegistry();
    var reg := Walk(init, entries, base);
    forall k | k in reg.at
      ensures reg.at[k].None? <==> k in FixedKeys && LastLocation(entries, base, k).None?
    {
      WalkRecordsLast(init, entries, base, k);
    }
    var m := FirstMissing(reg.keys, reg.at);
    if forall i :: 0 <= i < |FixedKeys| ==> LastLocation(entries, base, FixedKeys[i]).Some? {
      forall i | 0 <= i < |reg.keys|
        ensures reg.at[reg.keys[i]].Some?
      {
        var k := reg.keys[i];
        if k in FixedKeys {
          var j :| 0 <= j < |FixedKeys| && FixedKeys[j] == k;
          assert LastLocation(entries, base, FixedKeys[j]).Some?;
        }
      }
    } else {
      var j :| 0 <= j < |FixedKeys| && LastLocation(entries, base, FixedKeys[j]).None?;
      var k := FixedKeys[j];
      WalkRecordsLast(init, entries, base, k);
      assert k in init.keys;
      var i :| 0 <= i < |reg.keys| && reg.keys[i] == k;
      assert reg.at[reg.keys[i]].None?;
    }
  }

  /** `obj[key]`, for a key the object holds: a JSON object with a repeated key keeps the last
      value. */
  function Lookup(entries: seq<Entry>, key: string): Option<Node>
    decreases |entries|
  {
    if entries == [] then None
    else if entries[|entries| - 1].name == key then Some(entries[|entries| - 1].value)
    else Lookup(entries[..|entries| - 1], key)
  }

  /** Python's `None` for JSON `null`. */
  function NonNull(n: Node): Option<Node> {
    if n.Null? then None else Some(n)
  }

  /** `_recursiveSearch(obj, key)`: the object's own value for `key` if it has one (even when
      that value is `null`), else the first non-`null` find in its object-valued entries, in
      order. */
  function Search(entries: seq<Entry>, key: string): Option<Node>
    decreases entries, 1
  {
    match Lookup(entries, key)
    case Some(v) => NonNull(v)
    case None => SearchChildren(entries, key)
  }

  function SearchChildren(items: seq<Entry>, key: string): Option<Node>
    decreases items, 0
  {
    if items == [] then None
    else
      match items[0].value
      case Folder(children) =>
        var found := Search(children, key);
        if found.Some? then found else SearchChildren(items[1..], key)
      case _ => SearchChildren(items[1..], key)
  }

  /** Every value stored under `key` at any depth. */
  function Stored(entries: seq<Entry>, key: string): set<Node>
    decreases entries
  {
    if entries == [] then {}
    else
      (if entries[0].name == key then {entries[0].value} else {}) +
      (match entries[0].value
       case Folder(children) => Stored(children, key)
       case _ => {}) +
      Stored(entries[1..], key)
  }

  lemma {:induction false} LookupStored(entries: seq<Entry>, key: string)
    ensures Lookup(entries, key).Some? ==> Lookup(entries, key).value in Stored(entries, key)
    ensures Lookup(entries, key).None? ==> forall i :: 0 <= i < |entries| ==> entries[i].name != key
    decreases |entries|
  {
    if entries != [] {
      var init := entries[..|entries| - 1];
      LookupStored(init, key);
      StoredAppend(init, [entries[|entries| - 1]], key);
      assert entries == init + [entries[|entries| - 1]];
    }
  }

  lemma {:induction false} StoredAppend(a: seq<Entry>, b: seq<Entry>, key: string)
    ensures Stored(a + b, key) == Stored(a, key) + Stored(b, key)
    decreases |a|
  {
    if a != [] {
      StoredAppend(a[1..], b, key);
      assert (a + b)[1..] == a[1..] + b;
    } else {
      assert a + b == b;
    }
  }

  /** A value the search finds is a non-`null` value stored under that key. */
  lemma {:induction false} SearchSound(entries: seq<Entry>, key: string)
    ensures Search(entries, key).Some? ==>
              Search(entries, key).value in Stored(entries, key) && !Search(entries, key).value.Null?
    decreases entries, 1
  {
    LookupStored(entries, key);
    if Lookup(entries, key).None? {
      SearchChildrenSound(entries, key);
    }
  }

  lemma {:induction false} SearchChildrenSound(items: seq<Entry>, key: string)
    ensures SearchChildren(items, key).Some? ==>
              SearchChildren(items, key).value in Stored(items, key) && !SearchChildren(items, key).value.Null?
    decreases items, 0
  {
    if items != [] {
      SearchChildrenSound(items[1..], key);
      match items[0].value
      case Folder(children) =>
        SearchSound(children, key);
      case Pattern(_) =>
      case Null =>
      case Scalar =>
    }
  }

  /** In a layout with no `null` under `key`, the search finds something exactly when some
      entry at some depth carries that key. */
  lemma {:induction false} SearchComplete(entries: seq<Entry>, key: string)
    requires Null !in Stored(entries, key)
    ensures Search(entries, key).None? <==> Stored(entries, key) == {}
    decreases entries, 1
  {
    SearchSound(entries, key);
    LookupStored(entries, key);
    if Lookup(entries, key).None? {
      SearchChildrenComplete(entries, key);
    }
  }

  lemma {:induction false} SearchChildrenComplete(items: seq<Entry>, key: string)
    requires Null !in Stored(items, key)
    requires forall i :: 0 <= i < |items| ==> items[i].name != key
    ensures SearchChildren(items, key).None? <==> Stored(items, key) == {}
    decreases items, 0
  {
    SearchChildrenSound(items, key);
    if items != [] {
      assert items[0].name != key;
      SearchChildrenComplete(items[1..], key);
      match items[0].value
      case Folder(children) =>
        SearchComplete(children, key);
      case Pattern(_) =>
      case Null =>
      case Scalar =>
    }
  }

  /** Why a name cannot be produced: no pattern to format, or `str.format` raised. */
  datatype NameError = NoPattern(key: string) | BadFormat(key: string, error: FormatError)

  /** The stem and extension of a source file, `('', '')` when there is none. */
  function SourceParts(source: Option<string>, abspath: string -> string): (string, string) {
    match source
    case None => ("", "")
    case Some(path) => Paths.SplitExt(Paths.Basename(abspath(path)))
  }

  /** `getFilenameFromPattern`: the pattern (searched for in the layout when not given) with
      `{PACKNAME}` replaced by the clean pack name and `{BASENAME}`/`{EXT}` by the stem and
      extension of the source file's basename, each `''` when absent. */
  function FilenameFromPattern(layout: seq<Entry>, cleanName: Option<string>, key: string,
                               pattern: Option<string>, source: Option<string>,
                               abspath: string -> string): Result<string, NameError>
  {
    var p :=
      if pattern.Some? then pattern
      else match Search(layout, key)
           case Some(Pattern(t)) => Some(t)
           case _ => None;
    if p.None? then Failure(NoPattern(key))
    else
      var parts := SourceParts(source, abspath);
      match Format(p.value, Values(cleanName.GetOr(""), parts.0, parts.1))
      case Success(name) => Success(name)
      case Failure(e) => Failure(BadFormat(key, e))
  }

  /** A rendered pattern gives its intended text, with the source's stem and extension (which
      together make up the source's basename) in place of `{BASENAME}` and `{EXT}`. */
  lemma FilenameFromRendered(layout: seq<Entry>, cleanName: Option<string>, key: string,
                             ps: seq<Piece>, source: Option<string>, abspath: string -> string)
    ensures var parts := SourceParts(source, abspath);
            FilenameFromPattern(layout, cleanName, key, Some(Render(ps)), source, abspath)
              == Success(Expand(ps, Values(cleanName.GetOr(""), parts.0, parts.1))) &&
            (source.Some? ==> parts.0 + parts.1 == Paths.Basename(abspath(source.value))) &&
            (source.None? ==> parts.0 == "" && parts.1 == "")
  {
    var parts := SourceParts(source, abspath);
    FormatRender(ps, Values(cleanName.GetOr(""), parts.0, parts.1));
    if source.Some? {
      Paths.SplitExtParts(Paths.Basename(abspath(source.value)));
    }
  }

  /** A search for a pattern finds it in a nested object when nothing above holds the key. */
  lemma FilenameSearched(layout: seq<Entry>, cleanName: Option<string>, key: string,
                         source: Option<string>, abspath: string -> string)
    requires Null !in Stored(layout, key)
    ensures Stored(layout, key) == {} ==>
              FilenameFromPattern(layout, cleanName, key, None, source, abspath) == Failure(NoPattern(key))
    ensures FilenameFromPattern(layout, cleanName, key, None, source, abspath).Success? ==>
              exists t :: Pattern(t) in Stored(layout, key)
  {
    SearchComplete(layout, key);
    SearchSound(layout, key);
  }

  /** What the conversion needs besides the registry: the layout, the clean pack name, the
      source paths from the pack info, and the host's `abspath` and `normpath`. */
  datatype Staging = Staging(layout: seq<Entry>, cleanName: Option<string>, assetsPath: Option<string>,
                             thumbPath: string, scrShotPath: string,
                             abspath: string -> string, normpath: string -> string)

  /** One step of the conversion loop: `assetFolder` becomes a directory (joined and
      normalised) with an empty name; an image key whose source is not given gets the name
      `''`; every other key gets its pattern formatted without a source file. */
  function Resolve(key: string, loc: Location, s: Staging): Result<Location, NameError> {
    if key == AssetFolder then
      var n :- FilenameFromPattern(s.layout, s.cleanName, key, Some(loc.name), s.assetsPath, s.abspath);
      Success(Location(s.normpath(Paths.Join(loc.dir, n)), ""))
    else if key == ThumbnailFile then
      if s.thumbPath != "" then
        var n :- FilenameFromPattern(s.layout, s.cleanName, key, Some(loc.name), Some(s.thumbPath), s.abspath);
        Success(Location(loc.dir, n))
      else Success(Location(loc.dir, ""))
    else if key == ScreenshotFile then
      if s.scrShotPath != "" then
        var n :- FilenameFromPattern(s.layout, s.cleanName, key, Some(loc.name), Some(s.scrShotPath), s.abspath);
        Success(Location(loc.dir, n))
      else Success(Location(loc.dir, ""))
    else
      var n :- FilenameFromPattern(s.layout, s.cleanName, key, Some(loc.name), None, s.abspath);
      Success(Location(loc.dir, n))
  }

  /** Where the conversion loop stopped: the registry values so far and the error, if any. */
  datatype Resolution = Resolution(at: map<string, Option<Location>>, error: Option<NameError>)

  /** The conversion loop over `keys`, in order, stopping at the first error. */
  function ResolveKeys(keys: seq<string>, at: map<string, Option<Location>>, s: Staging): (r: Resolution)
    requires forall k :: k in keys ==> k in at && at[k].Some?
    ensures r.at.Keys == at.Keys
    ensures forall k :: k in at && at[k].Some? ==> r.at[k].Some?
    decreases |keys|
  {
    if keys == [] then Resolution(at, None)
    else
      var prev := ResolveKeys(keys[..|keys| - 1], at, s);
      var k := keys[|keys| - 1];
      if prev.error.Some? then prev
      else
        match Resolve(k, prev.at[k].value, s)
        case Success(l) => Resolution(prev.at[k := Some(l)], None)
        case Failure(e) => Resolution(prev.at, Some(e))
  }

  /** One more key of the conversion loop. */
  lemma ResolveKeysStep(keys: seq<string>, at: map<string, Option<Location>>, s: Staging, i: int)
    requires forall k :: k in keys ==> k in at && at[k].Some?
    requires 0 <= i < |keys|
    ensures var prev := ResolveKeys(keys[..i], at, s);
            var k := keys[i];
            ResolveKeys(keys[..i + 1], at, s) ==
              if prev.error.Some? then prev
              else match Resolve(k, prev.at[k].value, s)
                   case Success(l) => Resolution(prev.at[k := Some(l)], None)
                   case Failure(e) => Resolution(prev.at, Some(e))
  {
    assert keys[..i + 1][..i] == keys[..i];
  }

  /** Once a prefix of the conversion has failed, the rest of the keys change nothing. */
  lemma {:induction false} ResolveKeysStops(keys: seq<string>, at: map<string, Option<Location>>, s: Staging, j: int)
    requires forall k :: k in keys ==> k in at && at[k].Some?
    requires 0 <= j <= |keys| && ResolveKeys(keys[..j], at, s).error.Some?
    ensures ResolveKeys(keys, at, s) == ResolveKeys(keys[..j], at, s)
    decreases |keys|
  {
    if j < |keys| {
      var init := keys[..|keys| - 1];
      assert init[..j] == keys[..j];
      ResolveKeysStops(init, at, s, j);
    } else {
      assert keys[..j] == keys;
    }
  }

  /** A conversion that completes gives each key the result of its own step on its recorded
      pattern, and a failed one reports the error of a step on one of the keys. */
  lemma {:induction false} ResolveKeysAt(keys: seq<string>, at: map<string, Option<Location>>, s: Staging)
    requires forall k :: k in keys ==> k in at && at[k].Some?
    requires NoDuplicates(keys)
    ensures var r := ResolveKeys(keys, at, s);
            (r.error.None? ==> forall k :: k in keys ==> Resolve(k, at[k].value, s) == Success(r.at[k].value)) &&
            (r.error.Some? ==> exists k :: k in keys && Resolve(k, at[k].value, s) == Failure(r.error.value)) &&
            (forall k :: k in at && k !in keys ==> r.at[k] == at[k])
    decreases |keys|
  {
    if keys != [] {
      var init := keys[..|keys| - 1];
      var k := keys[|keys| - 1];
      assert forall j :: j in init ==> j in keys;
      assert NoDuplicates(init);
      ResolveKeysAt(init, at, s);
      assert k !in init;
      assert keys == init + [k];
    }
  }

  /** After a conversion that completes, `assetFolder` names a directory with an empty file
      name, and an image key without a source image keeps its directory with the name `''`. */
  lemma StagedSpecialKeys(keys: seq<string>, at: map<string, Option<Location>>, s: Staging)
    requires forall k :: k in keys ==> k in at && at[k].Some?
    requires NoDuplicates(keys)
    requires ResolveKeys(keys, at, s).error.None?
    ensures var r := ResolveKeys(keys, at, s).at;
            (AssetFolder in keys ==> r[AssetFolder].value.name == "") &&
            (ThumbnailFile in keys && s.thumbPath == "" ==>
               r[ThumbnailFile].value == Location(at[ThumbnailFile].value.dir, "")) &&
            (ScreenshotFile in keys && s.scrShotPath == "" ==>
               r[ScreenshotFile].value == Location(at[ScreenshotFile].value.dir, ""))
  {
    ResolveKeysAt(keys, at, s);
  }
}
