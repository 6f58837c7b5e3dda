/**
 * The logic of json_plist_mobileconfig/converter.py: choosing the input
 * decoder from the file extension, building the mobileconfig profile around
 * a decoded plist payload, and deriving output file names.
 *
 * The foreign codecs (`json`, `plistlib`) are not modelled; they are the
 * fields of a `Codecs` value, and each returns None where the library would
 * raise.
 */
module Converter {
  import opened Wrappers
  import opened PosixPath
  import opened Values

  /** The exceptions the converter's steps can raise, by origin. */
  datatype Error =
    | OpenFailed              // open() of the input file raised
    | ValueError(message: string)
    | DecodeFailed            // json.load / plistlib.load / plistlib.loads raised
    | EncodeFailed            // plistlib.dumps / json.dumps raised
    | DirectoryFailed         // os.makedirs of the output directory raised
    | WriteFailed             // open() or write() of an output file raised

  /** The library codecs the converter calls, left abstract. */
  datatype Codecs = Codecs(
    jsonLoad: Bytes -> Option<Value>,         // json.load
    plistLoad: Bytes -> Option<Value>,        // plistlib.load and plistlib.loads
    plistDumpsXml: Value -> Option<Bytes>,    // plistlib.dumps(fmt=FMT_XML)
    plistDumpsBinary: Value -> Option<Bytes>, // plistlib.dumps(fmt=FMT_BINARY)
    jsonDumps: Value -> Option<string>)       // json.dumps(indent=4)

  const UnsupportedMessage: string := "Unsupported file type. Please provide a JSON or plist file."

  // ---------------------------------------------------------------------
  // Input dispatch (read_input_file)
  // ---------------------------------------------------------------------

  datatype Format = Json | Plist

  /** The decoder `read_input_file` picks from the extension `splitext` gives, compared exactly. */
  function InputFormat(inputFile: Path): (r: Result<Format, Error>)
    ensures r == Ok(Json) <==> SplitExt(inputFile).1 == ".json"
    ensures r == Ok(Plist) <==> SplitExt(inputFile).1 == ".plist"
    ensures r.Err? ==> r.error == ValueError(UnsupportedMessage)
  {
    var extension := SplitExt(inputFile).1;
    if extension == ".json" then Ok(Json)
    else if extension == ".plist" then Ok(Plist)
    else Err(ValueError(UnsupportedMessage))
  }

  /**
   * `read_input_file`: the file is opened first, so a file that cannot be
   * opened fails that way whatever its extension; then the contents go to
   * the decoder of its format.  `contents` is None when open() raises.
   */
  function ReadInputFile(codecs: Codecs, inputFile: Path, contents: Option<Bytes>): (r: Result<Value, Error>)
    ensures contents.None? ==> r == Err(OpenFailed)
    ensures contents.Some? && InputFormat(inputFile).Err? ==> r == Err(ValueError(UnsupportedMessage))
    ensures r.Ok? ==> contents.Some? && InputFormat(inputFile).Ok?
    ensures r.Ok? && InputFormat(inputFile) == Ok(Json) ==> codecs.jsonLoad(contents.value) == Some(r.value)
    ensures r.Ok? && InputFormat(inputFile) == Ok(Plist) ==> codecs.plistLoad(contents.value) == Some(r.value)
    ensures r.Err? && contents.Some? && InputFormat(inputFile).Ok? ==> r == Err(DecodeFailed)
    ensures contents.Some? && InputFormat(inputFile) == Ok(Json) && codecs.jsonLoad(contents.value).Some? ==>
      r == Ok(codecs.jsonLoad(contents.value).value)
    ensures contents.Some? && InputFormat(inputFile) == Ok(Plist) && codecs.plistLoad(contents.value).Some? ==>
      r == Ok(codecs.plistLoad(contents.value).value)
  {
    if contents.None? then Err(OpenFailed)
    else match InputFormat(inputFile)
      case Err(e) => Err(e)
      case Ok(Json) => Decoded(codecs.jsonLoad(contents.value))
      case Ok(Plist) => Decoded(codecs.plistLoad(contents.value))
  }

  function Decoded(v: Option<Value>): Result<Value, Error> {
    match v
    case Some(x) => Ok(x)
    case None => Err(DecodeFailed)
  }

  /**
   * Exactly the paths whose basename ends in ".json" after at least one
   * character other than '.' are read as JSON: a name such as ".json" is a
   * hidden file without an extension.
   */
  lemma ReadsJsonExactly(inputFile: Path)
    ensures InputFormat(inputFile) == Ok(Json) <==>
      var name := Basename(inputFile);
      EndsWith(name, ".json") && !AllDots(name[..|name| - 5])
  {
    SplitExtIs(inputFile, ".json");
  }

  /** The same for ".plist". */
  lemma ReadsPlistExactly(inputFile: Path)
    ensures InputFormat(inputFile) == Ok(Plist) <==>
      var name := Basename(inputFile);
      EndsWith(name, ".plist") && !AllDots(name[..|name| - 6])
  {
    SplitExtIs(inputFile, ".plist");
  }

  /** Only the two lower-case suffixes are ever accepted: ".JSON" or ".txt" is refused. */
  lemma AcceptedSuffixes(inputFile: Path)
    ensures InputFormat(inputFile).Ok? ==> EndsWith(inputFile, ".json") || EndsWith(inputFile, ".plist")
  {
    var r := SplitExt(inputFile);
    if InputFormat(inputFile).Ok? {
      assert r.1 == ".json" || r.1 == ".plist";
      assert inputFile[|r.0|..] == r.1;
    }
  }

  /** A file whose name has no '.' at all is refused. */
  lemma NoExtensionRefused(inputFile: Path)
    requires ExtSep !in Basename(inputFile)
    ensures InputFormat(inputFile) == Err(ValueError(UnsupportedMessage))
  {
    NoDotNoExtension(inputFile);
    assert SplitExt(inputFile).1 == [];
  }

  /** Upper-case extensions are not recognised. */
  lemma DispatchIsCaseSensitive(inputFile: Path)
    requires EndsWith(inputFile, ".JSON") || EndsWith(inputFile, ".PLIST")
    ensures InputFormat(inputFile) == Err(ValueError(UnsupportedMessage))
  {
    AcceptedSuffixes(inputFile);
    if EndsWith(inputFile, ".JSON") { EndsWithLast(inputFile, ".JSON"); }
    if EndsWith(inputFile, ".PLIST") { EndsWithLast(inputFile, ".PLIST"); }
    if EndsWith(inputFile, ".json") { EndsWithLast(inputFile, ".json"); }
    if EndsWith(inputFile, ".plist") { EndsWithLast(inputFile, ".plist"); }
  }

  // ---------------------------------------------------------------------
  // The mobileconfig profile (create_mobileconfig)
  // ---------------------------------------------------------------------

  const PayloadType: string := "com.apple.ManagedClient.preferences"
  const PreferenceDomain: string := "com.apple.applicationaccess"

  /** The metadata arguments of `create_mobileconfig`, in its parameter order. */
  datatype ProfileFields = ProfileFields(
    uuid: string,
    removalDisallowed: bool,
    identifier: string,
    payloadVersion: int,
    payloadDisplayName: string)

  /** Subscripts from the profile to its one payload dictionary. */
  const PayloadPath: seq<Step> := [Key("PayloadContent"), Index(0)]

  /** Subscripts from the profile to the list of forced preference entries. */
  const ForcedPath: seq<Step> := PayloadPath + [Key("PayloadContent"), Key(PreferenceDomain), Key("Forced")]

  /** Subscripts from the profile to the embedded settings. */
  const SettingsPath: seq<Step> := ForcedPath + [Index(0), Key("mcx_preference_settings"), Key("CustomSettings")]

  /** The dictionary `create_mobileconfig` builds around the decoded payload `settings`. */
  function Profile(settings: Value, f: ProfileFields): Value {
    Dict(map[
      "PayloadContent" := List([
        Dict(map[
          "PayloadDisplayName" := Str(f.payloadDisplayName),
          "PayloadIdentifier" := Str(f.identifier),
          "PayloadType" := Str(PayloadType),
          "PayloadUUID" := Str(f.uuid),
          "PayloadVersion" := Int(f.payloadVersion),
          "PayloadRemovalDisallowed" := Bool(f.removalDisallowed),
          "PayloadContent" := Dict(map[
            PreferenceDomain := Dict(map[
              "Forced" := List([
                Dict(map[
                  "mcx_preference_settings" := Dict(map[
                    "CustomSettings" := settings
                  ])
                ])
              ])
            ])
          ])
        ])
      ])
    ])
  }

  /**
   * Reads the metadata and the settings back out of a profile by the same
   * subscripts a consumer of the profile would use; None when a subscript
   * fails or a field has the wrong type.
   */
  function ReadProfile(v: Value): Option<(Value, ProfileFields)> {
    var name := At(v, PayloadPath + [Key("PayloadDisplayName")]);
    var identifier := At(v, PayloadPath + [Key("PayloadIdentifier")]);
    var uuid := At(v, PayloadPath + [Key("PayloadUUID")]);
    var version := At(v, PayloadPath + [Key("PayloadVersion")]);
    var removal := At(v, PayloadPath + [Key("PayloadRemovalDisallowed")]);
    var settings := At(v, SettingsPath);
    if name.Some? && name.value.Str? && identifier.Some? && identifier.value.Str?
      && uuid.Some? && uuid.value.Str? && version.Some? && version.value.Int?
      && removal.Some? && removal.value.Bool? && settings.Some?
    then
      Some((settings.value, ProfileFields(uuid.value.s, removal.value.b, identifier.value.s,
                                          version.value.i, name.value.s)))
    else None
  }

  /** The profile's top level holds the single key "PayloadContent": a list of exactly one dictionary. */
  lemma ProfileTopLevel(settings: Value, f: ProfileFields)
    ensures var p := Profile(settings, f);
      && p.Dict? && p.entries.Keys == {"PayloadContent"}
      && p.entries["PayloadContent"].List?
      && |p.entries["PayloadContent"].items| == 1
      && p.entries["PayloadContent"].items[0].Dict?
  {
  }

  /**
   * The one payload dictionary holds exactly seven keys: the five metadata
   * arguments unchanged, the fixed payload type, and the preference content.
   */
  lemma PayloadFields(settings: Value, f: ProfileFields)
    ensures At(Profile(settings, f), PayloadPath).Some?
    ensures var payload := At(Profile(settings, f), PayloadPath).value;
      && payload.Dict?
      && payload.entries.Keys == {"PayloadDisplayName", "PayloadIdentifier", "PayloadType", "PayloadUUID",
                                  "PayloadVersion", "PayloadRemovalDisallowed", "PayloadContent"}
      && payload.entries["PayloadDisplayName"] == Str(f.payloadDisplayName)
      && payload.entries["PayloadIdentifier"] == Str(f.identifier)
      && payload.entries["PayloadType"] == Str(PayloadType)
      && payload.entries["PayloadUUID"] == Str(f.uuid)
      && payload.entries["PayloadVersion"] == Int(f.payloadVersion)
      && payload.entries["PayloadRemovalDisallowed"] == Bool(f.removalDisallowed)
  {
    var p := Profile(settings, f);
    assert At(p, PayloadPath) == Some(p.entries["PayloadContent"].items[0]);
  }

  /**
   * Under the payload's content, the preference domain holds a "Forced"
   * list of exactly one entry, whose only key is "mcx_preference_settings",
   * whose only key in turn is "CustomSettings", holding the settings.
   */
  lemma ForcedIsOneEntry(settings: Value, f: ProfileFields)
    ensures At(Profile(settings, f), ForcedPath) ==
      Some(List([Dict(map["mcx_preference_settings" := Dict(map["CustomSettings" := settings])])]))
  {
    var p := Profile(settings, f);
    var payload := p.entries["PayloadContent"].items[0];
    var content := payload.entries["PayloadContent"];
    var domain := content.entries[PreferenceDomain];
    var forced := domain.entries["Forced"];
    var steps := [Key("PayloadContent"), Key(PreferenceDomain), Key("Forced")];
    AtAppend(p, PayloadPath, steps);
    assert At(p, PayloadPath) == Some(payload);
    assert At(payload, steps) == At(content, steps[1..]);
    assert At(content, steps[1..]) == At(domain, [Key("Forced")]) by {
      assert steps[1..][1..] == [Key("Forced")];
    }
    assert At(domain, [Key("Forced")]) == At(forced, []);
  }

  /** The decoded payload is reachable at the one fixed subscript chain. */
  lemma SettingsAtFixedPath(settings: Value, f: ProfileFields)
    ensures At(Profile(settings, f), SettingsPath) == Some(settings)
  {
    var p := Profile(settings, f);
    ForcedIsOneEntry(settings, f);
    var forced := At(p, ForcedPath).value;
    var entry := forced.items[0];
    var mcx := entry.entries["mcx_preference_settings"];
    var steps := [Index(0), Key("mcx_preference_settings"), Key("CustomSettings")];
    AtAppend(p, ForcedPath, steps);
    assert At(forced, steps) == At(entry, steps[1..]);
    assert At(entry, steps[1..]) == At(mcx, [Key("CustomSettings")]) by {
      assert steps[1..][1..] == [Key("CustomSettings")];
    }
    assert At(mcx, [Key("CustomSettings")]) == At(settings, []);
  }

  /** Reading a built profile gives back the settings and every metadata argument. */
  lemma ReadProfileOfProfile(settings: Value, f: ProfileFields)
    ensures ReadProfile(Profile(settings, f)) == Some((settings, f))
  {
    var p := Profile(settings, f);
    var payload := At(p, PayloadPath).value;
    PayloadFields(settings, f);
    SettingsAtFixedPath(settings, f);
    forall k | k in payload.entries.Keys
      ensures At(p, PayloadPath + [Key(k)]) == Some(payload.entries[k])
    {
      AtAppend(p, PayloadPath, [Key(k)]);
    }
  }

  /** Different arguments always build different profiles. */
  lemma ProfileInjective(s1: Value, f1: ProfileFields, s2: Value, f2: ProfileFields)
    requires Profile(s1, f1) == Profile(s2, f2)
    ensures s1 == s2 && f1 == f2
  {
    ReadProfileOfProfile(s1, f1);
    ReadProfileOfProfile(s2, f2);
  }

  /**
   * `create_mobileconfig`: decode the plist bytes, build the profile around
   * them and serialise it as a binary plist.  Fails where the decoder or the
   * encoder raises.
   */
  function CreateMobileconfig(codecs: Codecs, plistData: Bytes, uuid: string, removalDisallowed: bool,
                              identifier: string, payloadVersion: int, payloadDisplayName: string)
    : (r: Result<Bytes, Error>)
    ensures codecs.plistLoad(plistData).None? ==> r == Err(DecodeFailed)
    ensures codecs.plistLoad(plistData).Some? ==>
      var settings := codecs.plistLoad(plistData).value;
      var profile := Profile(settings, ProfileFields(uuid, removalDisallowed, identifier, payloadVersion, payloadDisplayName));
      && (r.Ok? <==> codecs.plistDumpsBinary(profile).Some?)
      && (r.Ok? ==> codecs.plistDumpsBinary(profile) == Some(r.value))
      && (r.Err? ==> r == Err(EncodeFailed))
  {
    match codecs.plistLoad(plistData)
    case None => Err(DecodeFailed)
    case Some(settings) =>
      var f := ProfileFields(uuid, removalDisallowed, identifier, payloadVersion, payloadDisplayName);
      match codecs.plistDumpsBinary(Profile(settings, f))
      case None => Err(EncodeFailed)
      case Some(bytes) => Ok(bytes)
  }

  // ---------------------------------------------------------------------
  // Output file names (determine_output_filename)
  // ---------------------------------------------------------------------

  /** The input's basename without its last extension. */
  function Stem(inputFile: Path): (r: Path)
    ensures Sep !in r
    ensures r == SplitExt(Basename(inputFile)).0
  {
    SplitExtOfBasename(inputFile);
    BasenameSpec(SplitExt(inputFile).0);
    Basename(SplitExt(inputFile).0)
  }

  /** `determine_output_filename`: the stem plus the new extension, joined onto the output directory. */
  function OutputFilename(inputFile: Path, extension: string, outputDir: Path): Path
  {
    Join(outputDir, Stem(inputFile) + extension)
  }

  /** Only the last extension is dropped: the stem and that extension make up the whole basename. */
  lemma StemDropsOnlyLastExtension(inputFile: Path)
    ensures Stem(inputFile) + SplitExt(inputFile).1 == Basename(inputFile)
    ensures ExtSep !in Basename(inputFile) ==> Stem(inputFile) == Basename(inputFile)
  {
    SplitExtOfBasename(inputFile);
    if ExtSep !in Basename(inputFile) {
      NoDotNoExtension(Basename(inputFile));
    }
  }

  /**
   * For an extension that is not itself an absolute path, the output name is
   * the output directory (with one '/' added when needed), the stem and the
   * extension; its basename is the stem and the extension, so no directory
   * of the input survives.
   */
  lemma OutputFilenameLayout(inputFile: Path, extension: string, outputDir: Path)
    requires !IsAbs(extension)
    ensures OutputFilename(inputFile, extension, outputDir) == DirPrefix(outputDir) + (Stem(inputFile) + extension)
    ensures Sep !in extension ==> Basename(OutputFilename(inputFile, extension, outputDir)) == Stem(inputFile) + extension
  {
    JoinName(outputDir, Stem(inputFile), extension);
  }

  /** Whatever the extension, the output name ends with it. */
  lemma OutputFilenameEndsWithExtension(inputFile: Path, extension: string, outputDir: Path)
    ensures EndsWith(OutputFilename(inputFile, extension, outputDir), extension)
  {
    var name := Stem(inputFile) + extension;
    JoinSpec(outputDir, name);
    EndsWithAppend(Stem(inputFile), extension);
    EndsWithTrans(Join(outputDir, name), name, extension);
  }

  /** Joining a separator-free name and a relative extension onto a directory. */
  lemma JoinName(outputDir: Path, stem: Path, extension: string)
    requires Sep !in stem && !IsAbs(extension)
    ensures Join(outputDir, stem + extension) == DirPrefix(outputDir) + (stem + extension)
    ensures Sep !in extension ==> Basename(Join(outputDir, stem + extension)) == stem + extension
  {
    var name := stem + extension;
    assert !IsAbs(name) by {
      if stem != [] { assert name[0] == stem[0]; }
    }
    if Sep !in extension {
      assert Sep !in name;
      BasenameOfJoin(outputDir, name);
      BasenameOfSepFree(name);
    }
  }

  /**
   * Example: the stem of "a/b/test.json" is "test", so by
   * OutputFilenameLayout its ".plist" output in "out" is "out/test.plist".
   */
  lemma StemExample()
    ensures Stem("a/b/test.json") == "test"
  {
    var name := "test.json";
    assert Basename("a/b/test.json") == name by { RFindUnique("a/b/test.json", Sep, 3); }
    assert SplitExt(name).0 == "test" by {
      assert RFind(name, Sep) == -1 by { RFindUnique(name, Sep, -1); }
      assert RFind(name, ExtSep) == 4 by { RFindUnique(name, ExtSep, 4); }
      assert name[0..4] == "test";
      assert !AllDots("test") by { assert "test"[0] != ExtSep; }
    }
  }

  /**
   * A file `stem + ext` in directory `dir` (written without a trailing '/'),
   * converted into that same directory, lands beside its input with the new
   * extension in place of the old.
   */
  lemma OutputFilenameInSameDirectory(dir: Path, stem: Path, ext: string, newExt: string)
    requires dir != [] && dir[|dir| - 1] != Sep
    requires Sep !in stem && !AllDots(stem)
    requires |ext| > 0 && ext[0] == ExtSep && Sep !in ext && ExtSep !in ext[1..]
    requires !IsAbs(newExt)
    ensures OutputFilename(dir + [Sep] + (stem + ext), newExt, dir) == dir + [Sep] + (stem + newExt)
  {
    var name := stem + ext;
    var input := dir + [Sep] + name;
    assert DirPrefix(dir) == dir + [Sep];
    assert Sep !in name;
    assert Basename(input) == name by {
      BasenameAfterDirectory(DirPrefix(dir), name);
      BasenameOfSepFree(name);
    }
    assert SplitExt(name).1 == ext by {
      BasenameOfSepFree(name);
      assert name[|name| - |ext|..] == ext;
      assert name[..|name| - |ext|] == stem;
      SplitExtIs(name, ext);
    }
    assert SplitExt(name).0 == stem by {
      assert SplitExt(name).0 + ext == stem + ext;
    }
    OutputFilenameLayout(input, newExt, dir);
  }

  /**
   * The library test's case: "test_data.json" in a directory, converted to
   * ".plist" into that directory, gives "test_data.plist" there.
   */
  lemma OutputFilenameOfTestData(dir: Path)
    requires dir != [] && dir[|dir| - 1] != Sep
    ensures OutputFilename(dir + [Sep] + ("test_data" + ".json"), ".plist", dir) == dir + [Sep] + ("test_data" + ".plist")
  {
    assert !AllDots("test_data") by { assert "test_data"[0] != ExtSep; }
    assert ".json"[1..] == "json";
    OutputFilenameInSameDirectory(dir, "test_data", ".json", ".plist");
  }

  /** Example: of two extensions only the last is dropped. */
  lemma StemKeepsInnerExtension()
    ensures Stem("a/b/x.tar.json") == "x.tar"
  {
    var name := "x.tar.json";
    assert Basename("a/b/x.tar.json") == name by { RFindUnique("a/b/x.tar.json", Sep, 3); }
    assert SplitExt(name).0 == "x.tar" by {
      assert RFind(name, Sep) == -1 by { RFindUnique(name, Sep, -1); }
      assert RFind(name, ExtSep) == 5 by { RFindUnique(name, ExtSep, 5); }
      assert name[0..5] == "x.tar";
      assert !AllDots("x.tar") by { assert "x.tar"[0] != ExtSep; }
    }
  }
}
