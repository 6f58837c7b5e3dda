# json-plist-mobileconfig in Dafny

This project models `json_plist_mobileconfig/converter.py`, a small command-line
converter. It reads a JSON or property-list (plist) file and can write the same
data out again in up to three forms:

- an XML plist;
- pretty-printed JSON;
- an Apple configuration profile (`.mobileconfig`), a binary plist that embeds
  the data as custom managed preferences.

The model is pure: datatypes, functions and lemmas. It has five modules, one per
concern of the source:

- `Wrappers`: `Option` and `Result`.
- `PosixPath`: the three `os.path` operations the converter relies on, with
  their POSIX semantics:
  - `splitext`: the last '.' of the last component starts the extension,
    unless only dots precede it there;
  - `basename`;
  - `join`.
- `Values`: the in-memory values the codecs exchange (dictionaries, lists,
  strings, integers, booleans), and `At` for a chain of subscripts such as
  `d["PayloadContent"][0]`.
- `Converter`:
  - `read_input_file`: the decoder chosen by the exact extension, and its
    error cases;
  - `create_mobileconfig`: the profile dictionary built around the decoded
    plist;
  - `determine_output_filename`.
- `Cli`: the body of `main` once the arguments are parsed.
  - The run is a trace of events. Each file written is reported as `Wrote`,
    which also stands for its success message.
  - The exception that ends the run is reported once, as `Failed`.

The `json` and `plistlib` codecs are not modelled. They are the function fields
of a `Codecs` value, and each returns `None` where the library would raise.
The file system is also a set of parameters:

- the input file's bytes, `None` when `open` raises;
- whether the output directory exists or can be created;
- which output paths can be written.

Facts about the code that the lemmas make explicit:

- `read_input_file` opens the file before it looks at the extension. A missing
  file therefore reports the open error even when its extension is
  unsupported.
- A name made of dots and an extension only (`.json`, `..plist`) has no
  extension for `splitext`. Such an input is refused as unsupported.
- The profile always uses the preference domain `com.apple.applicationaccess`
  and wraps the data in `mcx_preference_settings` / `CustomSettings`. Its
  payload dictionary holds exactly seven keys.
- The mobileconfig output encodes the data as an XML plist again and decodes
  that inside `create_mobileconfig`. When the codec round-trips, the profile
  holds the input data unchanged.

## Model

| member | source | states |
|---|---|---|
| PosixPath.SplitExt | json_plist_mobileconfig/converter.py:9 | `os.path.splitext`: root and extension, which together give back the path; characterised by `SplitExtIs` and `SplitExtShape` |
| PosixPath.Basename | json_plist_mobileconfig/converter.py:65 | `os.path.basename`: everything after the last '/'; characterised by `BasenameSpec` |
| PosixPath.Join | json_plist_mobileconfig/converter.py:66 | `os.path.join` of two paths; characterised by `JoinSpec` |
| PosixPath.RFindSpec | json_plist_mobileconfig/converter.py:9 | the index `rfind` returns is k exactly when k is the last occurrence (or -1 when there is none) |
| PosixPath.SplitExtShape | json_plist_mobileconfig/converter.py:9 | the extension from `splitext` is empty, or a '.' followed by neither '.' nor '/' |
| PosixPath.SplitExtIs | json_plist_mobileconfig/converter.py:9 | `splitext` yields a given extension e exactly when the basename ends with e and what precedes e in it is not dots only |
| PosixPath.NoDotNoExtension | json_plist_mobileconfig/converter.py:65 | a basename without '.' has an empty extension and the whole path as root |
| PosixPath.BasenameSpec | json_plist_mobileconfig/converter.py:65 | the basename holds no '/', is a suffix of the path, and is preceded by '/' when shorter than the path |
| PosixPath.SplitExtOfBasename | json_plist_mobileconfig/converter.py:65 | `splitext` depends on the last component only: equal extensions, and basename of the root equals root of the basename |
| PosixPath.JoinSpec | json_plist_mobileconfig/converter.py:66 | `join(a, b)` ends with b; it is b when b is absolute, and otherwise a, then one '/' unless a is empty or ends in '/', then b |
| PosixPath.BasenameOfJoin | json_plist_mobileconfig/converter.py:66 | `join` never changes the basename of its second argument |
| Converter.InputFormat | json_plist_mobileconfig/converter.py:9-16 | JSON exactly for extension ".json", plist exactly for ".plist", otherwise the ValueError with the source's message |
| Converter.ReadInputFile | json_plist_mobileconfig/converter.py:7-16 | an open failure comes first; then an unsupported extension gives the ValueError; for a supported extension the result is exactly the chosen decoder's value, and its failure is reported |
| Converter.Decoded | json_plist_mobileconfig/converter.py:12-14 | a decoder's outcome: its value, or the failure it raised; its meaning is stated by `ReadInputFile`'s contract |
| Converter.ReadsJsonExactly | json_plist_mobileconfig/converter.py:9-12 | the JSON decoder is chosen exactly when the basename ends with ".json" after a part that is not dots only |
| Converter.ReadsPlistExactly | json_plist_mobileconfig/converter.py:9-14 | the plist decoder is chosen exactly when the basename ends with ".plist" after a part that is not dots only |
| Converter.AcceptedSuffixes | json_plist_mobileconfig/converter.py:9-16 | every accepted input path ends with ".json" or ".plist" |
| Converter.NoExtensionRefused | json_plist_mobileconfig/converter.py:15-16 | an input whose basename has no '.' is refused with the unsupported-type ValueError |
| Converter.DispatchIsCaseSensitive | json_plist_mobileconfig/converter.py:11-16 | inputs ending in ".JSON" or ".PLIST" are refused: the extension comparison is exact |
| Converter.Profile | json_plist_mobileconfig/converter.py:28-50 | the dictionary `create_mobileconfig` builds; its shape is stated by `ProfileTopLevel`, `PayloadFields`, `ForcedIsOneEntry` and `SettingsAtFixedPath` |
| Converter.ProfileTopLevel | json_plist_mobileconfig/converter.py:28-30 | the profile's only top-level key is "PayloadContent", a list of exactly one dictionary |
| Converter.PayloadFields | json_plist_mobileconfig/converter.py:30-37 | the payload holds exactly seven keys: the five metadata arguments unchanged, the fixed payload type, and the content |
| Converter.ForcedIsOneEntry | json_plist_mobileconfig/converter.py:37-47 | under the fixed preference domain, "Forced" is a one-entry list whose entry holds only "mcx_preference_settings", which holds only "CustomSettings" |
| Converter.SettingsAtFixedPath | json_plist_mobileconfig/converter.py:37-45 | the decoded settings sit at the fixed subscript chain, unchanged |
| Converter.ReadProfileOfProfile | json_plist_mobileconfig/converter.py:26-50 | reading a built profile back gives the settings and every metadata argument |
| Converter.ProfileInjective | json_plist_mobileconfig/converter.py:26-50 | different arguments always build different profiles |
| Converter.CreateMobileconfig | json_plist_mobileconfig/converter.py:26-51 | a decode failure is reported; otherwise the result is the binary encoding of the profile around the decoded data, or an encoder failure |
| Converter.Stem | json_plist_mobileconfig/converter.py:65 | the base name holds no '/' and is the root of the input's basename |
| Converter.StemDropsOnlyLastExtension | json_plist_mobileconfig/converter.py:65 | the base name followed by the input's extension is the input's basename; with no '.' in the basename it is the basename |
| Converter.OutputFilename | json_plist_mobileconfig/converter.py:63-66 | `determine_output_filename`; stated by `OutputFilenameLayout` and `OutputFilenameEndsWithExtension` |
| Converter.OutputFilenameLayout | json_plist_mobileconfig/converter.py:63-66 | the output path is the directory, one '/' if needed, then base name plus extension, which is then its basename |
| Converter.OutputFilenameEndsWithExtension | json_plist_mobileconfig/converter.py:63-66 | whatever the extension, the output name ends with it |
| Converter.OutputFilenameInSameDirectory | json_plist_mobileconfig/converter.py:63-66 | an input stem + ext in a directory, converted into that same directory, gives stem + the new extension beside it |
| Converter.OutputFilenameOfTestData | json_plist_mobileconfig/tests/test_library.py:57-61 | the library test's case: "test_data.json" in a directory, with ".plist" into that directory, gives "test_data.plist" there |
| Converter.JoinName | json_plist_mobileconfig/converter.py:66 | joining a directory with a '/'-free name and a relative extension gives the directory part followed by the name |
| Converter.StemExample | json_plist_mobileconfig/converter.py:65 | a sample path: the base name of "a/b/test.json" is "test" |
| Converter.StemKeepsInnerExtension | json_plist_mobileconfig/converter.py:65 | only the last extension is dropped: "a/b/x.tar.json" gives "x.tar" |
| Cli.OutputPlan | json_plist_mobileconfig/converter.py:97-116 | the plan holds each kind exactly when its flag is set, in the order plist, JSON, mobileconfig, never twice; outputs after the first that raises are not tried |
| Cli.Convert | json_plist_mobileconfig/converter.py:98-113 | the data for one output: XML plist (line 98), JSON text (line 105), or the mobileconfig made from a fresh XML plist (lines 112-113) |
| Cli.Attempt | json_plist_mobileconfig/converter.py:97-116 | one output block of `main`: convert, name, write; characterised by `AttemptSpec` |
| Cli.AttemptSpec | json_plist_mobileconfig/converter.py:97-116 | an output is written exactly when its data can be made and its path written, at its output path with that data; otherwise the error that stopped it |
| Cli.Emit | json_plist_mobileconfig/converter.py:96-119 | the output blocks in plan order, stopping at the first exception; characterised by `EmitFollowsPlan` |
| Cli.Outputs | json_plist_mobileconfig/converter.py:96-116 | the outputs phase of a run for the requested plan; stated by `OutputsFollowPlan`, `OutputsInOrder` and `OutputsComplete` |
| Cli.Run | json_plist_mobileconfig/converter.py:84-119 | `main` after parsing: help, read, directory, outputs; stated by the `Run...`, `...WritesNothing` and `EmptyInputShowsHelp` lemmas |
| Cli.EmitFollowsPlan | json_plist_mobileconfig/converter.py:88-119 | event i is the attempt at the i-th planned output, every event but the last is a write, and a short trace ends in a failure |
| Cli.OutputsFollowPlan | json_plist_mobileconfig/converter.py:96-119 | only the last event can fail; the i-th write is the i-th planned kind, at its output path, with its conversion's data |
| Cli.OutputsInOrder | json_plist_mobileconfig/converter.py:96-116 | every file written was requested, and writes come in strictly increasing plan order |
| Cli.OutputsComplete | json_plist_mobileconfig/converter.py:96-116 | when every requested output can be made and written, all are written, in order, with their data |
| Cli.ReadInputRunsOutputs | json_plist_mobileconfig/converter.py:88-116 | once the input is read and the directory is ready, the run is the outputs phase |
| Cli.UnreadableInputWritesNothing | json_plist_mobileconfig/converter.py:88-90 | a read error (open, unsupported type, decode) ends the run as its only event, before any output |
| Cli.MissingDirectoryWritesNothing | json_plist_mobileconfig/converter.py:92-94 | a directory that cannot be created ends the run before any output |
| Cli.EmptyInputShowsHelp | json_plist_mobileconfig/converter.py:84-86 | the help text is shown exactly when the input path is empty |
| Cli.RunFailsAtMostOnce | json_plist_mobileconfig/converter.py:88-119 | every run reports at most one failure, as its last event |
| Cli.NothingRequestedWritesNothing | json_plist_mobileconfig/converter.py:96-116 | without output flags the plan is empty and nothing is written |
| Cli.OutputPathLayout | json_plist_mobileconfig/converter.py:99-114 | every output path is the output directory part, the input's stem and the kind's extension, and its basename is stem plus extension |
| Cli.DistinctOutputPaths | json_plist_mobileconfig/converter.py:99-114 | the three kinds of output always go to three different paths |
| Cli.MobileconfigEmbedsInput | json_plist_mobileconfig/converter.py:111-113 | when the XML plist of the data decodes back to it, the mobileconfig is the binary encoding of the profile around the data, or an encoder failure |

## Left out

- File I/O is modelled as parameters of the run: the input's bytes, a directory-ready flag and a writable-path predicate. Partial writes are not modelled.
- `json` and `plistlib` are left abstract as fields of `Codecs`. Their byte formats and the text of their exceptions are not modelled.
- `convert_to_plist` and `convert_to_json` are single codec calls, modelled as `Codecs.plistDumpsXml` and `Codecs.jsonDumps` inside `Cli.Convert`.
- `write_to_file` and `write_json_to_file` are modelled only as the `Wrote` event and the writable-path predicate.
- argparse is not modelled: parsing, `--version`, `--help`, and the defaults of `--output-dir`, `--identifier`, `--payload-version` and `--payload-display-name`. `Cli.Args` holds the parsed values.
- `uuid4()` (randomness) is not modelled: the UUID is a field of `Cli.Args`.
- `print` output and the text of the caught exception are not modelled. Only the events remain, and the exit status (always 0) is not modelled.
- The `os.path.exists` / `os.makedirs` pair is one flag. A race between the two is not modelled.
- Floats, `None`, bytes, dates and other plist values are not in `Values.Value`. Codecs that cannot represent a value report that as a failure.
- Dictionary key order is not modelled: dictionaries are maps. Only the serialised bytes would show the order.
- The tests call `create_mobileconfig` with a seventh `domain` argument and run the CLI with `--domain`. The code has neither: it has six parameters and a fixed `com.apple.applicationaccess` domain. The model follows the code.
