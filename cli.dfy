/**
 * The body of `main` in json_plist_mobileconfig/converter.py after argument
 * parsing: read the input once, make sure the output directory exists, then
 * try the requested outputs in the fixed order plist, JSON, mobileconfig.
 * The first exception ends the run, skipping the outputs after it, and is
 * reported once.
 *
 * The run is modelled as the trace of what it does: one `Wrote` event per
 * file written (with its success message), and at most one `Failed` event
 * for the exception the top-level handler catches.  The file system is a
 * parameter: the input file's contents (None when open() raises), whether
 * the output directory exists or can be created, and which output paths can
 * be written.
 */
module Cli {
  import opened Wrappers
  import opened PosixPath
  import opened Values
  import opened Converter

  /** The three kinds of output, in the order `main` handles them. */
  datatype Kind = PlistOutput | JsonOutput | MobileconfigOutput

  function Rank(k: Kind): nat {
    match k
    case PlistOutput => 0
    case JsonOutput => 1
    case MobileconfigOutput => 2
  }

  /** The extension `main` passes to `determine_output_filename` for each kind. */
  function Extension(k: Kind): string {
    match k
    case PlistOutput => ".plist"
    case JsonOutput => ".json"
    case MobileconfigOutput => ".mobileconfig"
  }

  /** The parsed command line (argparse itself, and its defaults, are not modelled). */
  datatype Args = Args(
    inputFile: Path,
    outputDir: Path,
    plist: bool,
    json: bool,
    mobileconfig: bool,
    uuid: string,
    removalDisallowed: bool,
    identifier: string,
    payloadVersion: int,
    payloadDisplayName: string)

  predicate Requested(args: Args, k: Kind) {
    match k
    case PlistOutput => args.plist
    case JsonOutput => args.json
    case MobileconfigOutput => args.mobileconfig
  }

  /**
   * The outputs `main` tries in turn until one raises: each requested kind
   * once, in the fixed order.
   */
  function OutputPlan(args: Args): (plan: seq<Kind>)
    ensures forall k :: k in plan <==> Requested(args, k)
    ensures forall i, j :: 0 <= i < j < |plan| ==> Rank(plan[i]) < Rank(plan[j])
  {
    (if args.plist then [PlistOutput] else [])
    + (if args.json then [JsonOutput] else [])
    + (if args.mobileconfig then [MobileconfigOutput] else [])
  }

  /** What is written: raw bytes (write_to_file) or text (write_json_to_file). */
  datatype Content = Binary(bytes: Bytes) | Text(text: string)

  /** The metadata `main` hands to `create_mobileconfig`. */
  function Fields(args: Args): ProfileFields {
    ProfileFields(args.uuid, args.removalDisallowed, args.identifier, args.payloadVersion, args.payloadDisplayName)
  }

  /**
   * The data for one output.  The mobileconfig encodes the input as an XML
   * plist afresh and hands those bytes to `create_mobileconfig`, whether or
   * not a plist output was also made.
   */
  function Convert(codecs: Codecs, args: Args, data: Value, k: Kind): Result<Content, Error>
  {
    match k
    case PlistOutput =>
      (match codecs.plistDumpsXml(data)
       case None => Err(EncodeFailed)
       case Some(b) => Ok(Binary(b)))
    case JsonOutput =>
      (match codecs.jsonDumps(data)
       case None => Err(EncodeFailed)
       case Some(t) => Ok(Text(t)))
    case MobileconfigOutput =>
      (match codecs.plistDumpsXml(data)
       case None => Err(EncodeFailed)
       case Some(plistData) =>
         match CreateMobileconfig(codecs, plistData, args.uuid, args.removalDisallowed,
                                  args.identifier, args.payloadVersion, args.payloadDisplayName)
         case Err(e) => Err(e)
         case Ok(b) => Ok(Binary(b)))
  }

  /** The file system as the run sees it. */
  datatype Env = Env(input: Option<Bytes>, outputDirReady: bool, writable: Path -> bool)

  datatype Event = Wrote(kind: Kind, path: Path, content: Content) | Failed(error: Error)

  /** `ShowedHelp` when the input path is empty; otherwise the trace of the run. */
  datatype Outcome = ShowedHelp | Ran(events: seq<Event>)

  /** Where `main` writes an output of kind `k`. */
  function OutputPath(args: Args, k: Kind): Path {
    OutputFilename(args.inputFile, Extension(k), args.outputDir)
  }

  /**
   * The output block of `main` for kind `k`: make the data, then write it to
   * the output path; an exception here ends the run with that error.
   */
  function Attempt(codecs: Codecs, args: Args, env: Env, data: Value, k: Kind): Event {
    match Convert(codecs, args, data, k)
    case Err(e) => Failed(e)
    case Ok(content) =>
      var path := OutputPath(args, k);
      if env.writable(path) then Wrote(k, path, content) else Failed(WriteFailed)
  }

  /** An attempt writes exactly when the data could be made and the path written. */
  lemma AttemptSpec(codecs: Codecs, args: Args, env: Env, data: Value, k: Kind)
    ensures var e := Attempt(codecs, args, env, data, k);
      && (e.Wrote? <==> Convert(codecs, args, data, k).Ok? && env.writable(OutputPath(args, k)))
      && (e.Wrote? ==> e.kind == k && e.path == OutputPath(args, k) && Convert(codecs, args, data, k) == Ok(e.content))
      && (e.Failed? && Convert(codecs, args, data, k).Err? ==> e.error == Convert(codecs, args, data, k).error)
      && (e.Failed? && Convert(codecs, args, data, k).Ok? ==> e.error == WriteFailed)
  {
  }

  /**
   * Event `i` of a trace over `plan` is the attempt at `plan[i]`; every event
   * but the last is a write; and a trace shorter than the plan ends in the
   * failure that stopped it.
   */
  ghost predicate FollowsPlan(attempt: Kind -> Event, plan: seq<Kind>, events: seq<Event>) {
    && |events| <= |plan|
    && (forall i :: 0 <= i < |events| ==> events[i] == attempt(plan[i]))
    && (forall i :: 0 <= i < |events| - 1 ==> events[i].Wrote?)
    && (|events| < |plan| ==> events != [] && events[|events| - 1].Failed?)
  }

  /** The planned outputs one after the other, stopping at the first that raises. */
  function Emit(attempt: Kind -> Event, plan: seq<Kind>): (events: seq<Event>)
    ensures |events| <= |plan|
    ensures plan != [] ==> events != []
    decreases |plan|
  {
    if plan == [] then []
    else if attempt(plan[0]).Failed? then [attempt(plan[0])]
    else [attempt(plan[0])] + Emit(attempt, plan[1..])
  }

  /** Emitting a plan yields a trace that follows it. */
  lemma {:induction false} EmitFollowsPlan(attempt: Kind -> Event, plan: seq<Kind>)
    ensures FollowsPlan(attempt, plan, Emit(attempt, plan))
    decreases |plan|
  {
    if plan != [] && attempt(plan[0]).Wrote? {
      EmitFollowsPlan(attempt, plan[1..]);
      var rest := Emit(attempt, plan[1..]);
      var events := Emit(attempt, plan);
      assert events == [attempt(plan[0])] + rest;
      assert forall i :: 1 <= i < |events| ==> events[i] == rest[i - 1] && plan[i] == plan[1..][i - 1];
    }
  }

  /** The requested outputs of a run whose input was read as `data`. */
  function Outputs(codecs: Codecs, args: Args, env: Env, data: Value): seq<Event> {
    Emit(k => Attempt(codecs, args, env, data, k), OutputPlan(args))
  }

  /**
   * `main` after parsing: help for an empty input path; otherwise read the
   * input (an exception here ends the run before any output), create the
   * output directory, and emit the requested outputs.
   */
  function Run(codecs: Codecs, args: Args, env: Env): Outcome {
    if args.inputFile == [] then ShowedHelp
    else match ReadInputFile(codecs, args.inputFile, env.input)
      case Err(e) => Ran([Failed(e)])
      case Ok(data) =>
        if !env.outputDirReady then Ran([Failed(DirectoryFailed)])
        else Ran(Outputs(codecs, args, env, data))
  }

  // ---------------------------------------------------------------------
  // Properties of a run
  // ---------------------------------------------------------------------

  /**
   * Only the last output event can be a failure; the `i`-th write is the
   * `i`-th planned output, at the path `determine_output_filename` gives for
   * its extension and with the data its conversion made; and a trace shorter
   * than the plan ends in the failure that stopped it.
   */
  lemma OutputsFollowPlan(codecs: Codecs, args: Args, env: Env, data: Value)
    ensures var events := Outputs(codecs, args, env, data);
      var plan := OutputPlan(args);
      && |events| <= |plan|
      && (forall i :: 0 <= i < |events| && events[i].Failed? ==> i == |events| - 1)
      && (forall i :: 0 <= i < |events| && events[i].Wrote? ==>
            && events[i].kind == plan[i]
            && events[i].path == OutputPath(args, plan[i])
            && Convert(codecs, args, data, plan[i]) == Ok(events[i].content))
      && (|events| < |plan| ==> events[|events| - 1].Failed?)
  {
    var attempt := k => Attempt(codecs, args, env, data, k);
    var plan := OutputPlan(args);
    EmitFollowsPlan(attempt, plan);
    var events := Emit(attempt, plan);
    forall i | 0 <= i < |events| && events[i].Wrote?
      ensures events[i].kind == plan[i] && events[i].path == OutputPath(args, plan[i])
      ensures Convert(codecs, args, data, plan[i]) == Ok(events[i].content)
    {
      AttemptSpec(codecs, args, env, data, plan[i]);
    }
  }

  /** The files written are requested ones, each kind at most once and in the order plist, JSON, mobileconfig. */
  lemma OutputsInOrder(codecs: Codecs, args: Args, env: Env, data: Value)
    ensures var events := Outputs(codecs, args, env, data);
      && (forall i :: 0 <= i < |events| && events[i].Wrote? ==> Requested(args, events[i].kind))
      && (forall i, j :: 0 <= i < j < |events| && events[i].Wrote? && events[j].Wrote? ==>
            Rank(events[i].kind) < Rank(events[j].kind))
  {
    OutputsFollowPlan(codecs, args, env, data);
    var events := Outputs(codecs, args, env, data);
    var plan := OutputPlan(args);
    assert forall i :: 0 <= i < |events| && events[i].Wrote? ==> events[i].kind == plan[i] && plan[i] in plan;
  }

  /**
   * When every requested output can be made and written, all of them are
   * written, in plan order, with the data each conversion produced.
   */
  lemma OutputsComplete(codecs: Codecs, args: Args, env: Env, data: Value)
    requires forall k :: Requested(args, k) ==>
      Convert(codecs, args, data, k).Ok? && env.writable(OutputPath(args, k))
    ensures var events := Outputs(codecs, args, env, data);
      var plan := OutputPlan(args);
      && |events| == |plan|
      && forall i :: 0 <= i < |events| ==>
           events[i] == Wrote(plan[i], OutputPath(args, plan[i]), Convert(codecs, args, data, plan[i]).value)
  {
    var attempt := k => Attempt(codecs, args, env, data, k);
    var plan := OutputPlan(args);
    EmitFollowsPlan(attempt, plan);
    var events := Emit(attempt, plan);
    forall i | 0 <= i < |events|
      ensures events[i] == Wrote(plan[i], OutputPath(args, plan[i]), Convert(codecs, args, data, plan[i]).value)
    {
      AttemptSpec(codecs, args, env, data, plan[i]);
    }
  }

  /** A run whose input is read and whose directory is ready goes on to the outputs. */
  lemma ReadInputRunsOutputs(codecs: Codecs, args: Args, env: Env, data: Value)
    requires args.inputFile != []
    requires ReadInputFile(codecs, args.inputFile, env.input) == Ok(data)
    requires env.outputDirReady
    ensures Run(codecs, args, env) == Ran(Outputs(codecs, args, env, data))
  {
  }

  /**
   * An input that cannot be opened, has an unsupported extension or does not
   * decode ends the run with that error before any output is attempted.
   */
  lemma UnreadableInputWritesNothing(codecs: Codecs, args: Args, env: Env)
    requires args.inputFile != []
    requires ReadInputFile(codecs, args.inputFile, env.input).Err?
    ensures Run(codecs, args, env) == Ran([Failed(ReadInputFile(codecs, args.inputFile, env.input).error)])
    ensures env.input.None? ==> Run(codecs, args, env) == Ran([Failed(OpenFailed)])
    ensures env.input.Some? && InputFormat(args.inputFile).Err? ==>
      Run(codecs, args, env) == Ran([Failed(ValueError(UnsupportedMessage))])
  {
  }

  /** An output directory that cannot be created ends the run before any output. */
  lemma MissingDirectoryWritesNothing(codecs: Codecs, args: Args, env: Env)
    requires args.inputFile != []
    requires ReadInputFile(codecs, args.inputFile, env.input).Ok?
    requires !env.outputDirReady
    ensures Run(codecs, args, env) == Ran([Failed(DirectoryFailed)])
  {
  }

  /** An empty input path only shows the help text. */
  lemma EmptyInputShowsHelp(codecs: Codecs, args: Args, env: Env)
    ensures Run(codecs, args, env) == ShowedHelp <==> args.inputFile == []
  {
  }

  /** Whatever happens, a run reports at most one failure, as its last event. */
  lemma RunFailsAtMostOnce(codecs: Codecs, args: Args, env: Env)
    ensures Run(codecs, args, env).Ran? ==>
      var events := Run(codecs, args, env).events;
      forall i :: 0 <= i < |events| && events[i].Failed? ==> i == |events| - 1
  {
    if args.inputFile != [] {
      var read := ReadInputFile(codecs, args.inputFile, env.input);
      if read.Ok? && env.outputDirReady {
        ReadInputRunsOutputs(codecs, args, env, read.value);
        OutputsFollowPlan(codecs, args, env, read.value);
      }
    }
  }

  /** With no output flag nothing is written. */
  lemma NothingRequestedWritesNothing(codecs: Codecs, args: Args, env: Env, data: Value)
    requires !args.plist && !args.json && !args.mobileconfig
    ensures OutputPlan(args) == []
    ensures Outputs(codecs, args, env, data) == []
  {
  }

  /**
   * The three output paths share the output directory and the input's stem,
   * and differ only in the extension, which ends the basename.
   */
  lemma OutputPathLayout(args: Args, k: Kind)
    ensures OutputPath(args, k) == DirPrefix(args.outputDir) + (Stem(args.inputFile) + Extension(k))
    ensures Basename(OutputPath(args, k)) == Stem(args.inputFile) + Extension(k)
  {
    OutputFilenameLayout(args.inputFile, Extension(k), args.outputDir);
  }

  /** Different kinds of output go to different files. */
  lemma DistinctOutputPaths(args: Args, k1: Kind, k2: Kind)
    requires k1 != k2
    ensures OutputPath(args, k1) != OutputPath(args, k2)
  {
    OutputFilenameLayout(args.inputFile, Extension(k1), args.outputDir);
    OutputFilenameLayout(args.inputFile, Extension(k2), args.outputDir);
    assert |Extension(k1)| != |Extension(k2)|;
  }

  /**
   * The mobileconfig output is the binary encoding of the profile built
   * around the input data, when the XML plist encoding of that data decodes
   * back to it.
   */
  lemma MobileconfigEmbedsInput(codecs: Codecs, args: Args, data: Value, xml: Bytes)
    requires codecs.plistDumpsXml(data) == Some(xml)
    requires codecs.plistLoad(xml) == Some(data)
    ensures codecs.plistDumpsBinary(Profile(data, Fields(args))).Some? ==>
      Convert(codecs, args, data, MobileconfigOutput) == Ok(Binary(codecs.plistDumpsBinary(Profile(data, Fields(args))).value))
    ensures codecs.plistDumpsBinary(Profile(data, Fields(args))).None? ==>
      Convert(codecs, args, data, MobileconfigOutput) == Err(EncodeFailed)
  {
  }
}
