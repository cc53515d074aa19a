/**
 * The command-line checks of src/cli_streams.cpp: which option groups a
 * program enables (`cli_options`), which options the user gave (the parsed
 * `variables_map`), whether that combination is accepted, and the input
 * resolution a configuration ends up with.
 */
module CliStreams {
  import opened Octets
  import opened Wrappers
  import AvUtils

  /** `cli_options`: the option groups a program offers. */
  datatype CliOptions = CliOptions(
    enableRtmInput: bool,
    enableFileInput: bool,
    enableCameraInput: bool,
    enableGenericInputOptions: bool,
    enableGenericOutputOptions: bool,
    enableRtmOutput: bool,
    enableFileOutput: bool,
    enableFileBatchMode: bool,
    enableUrlInput: bool,
    enablePoolMode: bool)

  /**
   * A parsed `variables_map`: each option present, with its text (empty for
   * a flag). Options with a default value ("port", "input-resolution",
   * "output-resolution", "keep-proportions", "reserved-index-space") are
   * present whenever their group is enabled.
   */
  type VariablesMap = map<Octets, Octets>

  /** `vm.count(name)`: 1 if the option is present, 0 otherwise. */
  function Count(vm: VariablesMap, name: Octets): (n: nat)
    ensures n <= 1 && (n == 1 <==> name in vm)
  {
    if name in vm then 1 else 0
  }

  /** The reasons `validate` prints before returning false, and the exception of a missing value. */
  datatype Rejection =
    | OnlyOneSource | NoSource
    | MissingEndpoint | MissingAppkey | MissingInputChannel | MissingOutputChannel | MissingPort
    | ExclusiveFiles
    | OnlyOneOutput | NoOutput | RtmInputAndOutput
    | BadInputResolution | BadOutputResolution
    | MissingValue

  datatype Validation = Accepted | Rejected(reason: Rejection)

  /** `check_rtm_args_provided`: any RTM connection option or channel given. */
  predicate RtmArgsProvided(vm: VariablesMap)
  {
    Count(vm, "endpoint") > 0 || Count(vm, "appkey") > 0 ||
    Count(vm, "input-channel") > 0 || Count(vm, "output-channel") > 0
  }

  /** `check_file_input_args_provided`. */
  predicate FileInputArgsProvided(vm: VariablesMap)
  {
    Count(vm, "input-video-file") > 0 || Count(vm, "input-replay-file") > 0
  }

  /** `check_camera_input_args_provided`. */
  predicate CameraInputArgsProvided(vm: VariablesMap)
  {
    Count(vm, "input-camera") > 0
  }

  /** `check_file_output_args_provided`. */
  predicate FileOutputArgsProvided(vm: VariablesMap)
  {
    Count(vm, "output-video-file") > 0
  }

  /** `check_pool_mode_args_provided`. */
  predicate PoolModeArgsProvided(vm: VariablesMap)
  {
    Count(vm, "pool") > 0
  }

  /**
   * `validate_rtm_args`: endpoint, then appkey, then the input channel (or
   * a pool) when RTM input is enabled, then the output channel when RTM
   * output is enabled, then the port; the first one missing is the reason.
   */
  function ValidateRtmArgs(opts: CliOptions, vm: VariablesMap): (v: Validation)
    ensures v == Accepted <==>
      "endpoint" in vm && "appkey" in vm && "port" in vm &&
      (opts.enableRtmInput ==> "input-channel" in vm || "pool" in vm) &&
      (opts.enableRtmOutput ==> "output-channel" in vm)
    ensures v.Rejected? ==> v.reason in {MissingEndpoint, MissingAppkey, MissingInputChannel, MissingOutputChannel, MissingPort}
  {
    if Count(vm, "endpoint") == 0 then Rejected(MissingEndpoint)
    else if Count(vm, "appkey") == 0 then Rejected(MissingAppkey)
    else if opts.enableRtmInput && Count(vm, "input-channel") == 0 && Count(vm, "pool") == 0 then Rejected(MissingInputChannel)
    else if opts.enableRtmOutput && Count(vm, "output-channel") == 0 then Rejected(MissingOutputChannel)
    else if Count(vm, "port") == 0 then Rejected(MissingPort)
    else Accepted
  }

  /**
   * `validate_input_file_args` as written: it rejects only when the replay
   * file is counted more than 9 times, which a `variables_map` never does.
   */
  function ValidateInputFileArgsAsWritten(vm: VariablesMap): (v: Validation)
    ensures v.Rejected? ==> v.reason == ExclusiveFiles && "input-video-file" in vm && "input-replay-file" in vm
  {
    if Count(vm, "input-video-file") > 0 && Count(vm, "input-replay-file") > 9 then Rejected(ExclusiveFiles)
    else Accepted
  }

  /** As written, the check accepts every map, both files given included. */
  lemma InputFileArgsNeverRejectedAsWritten(vm: VariablesMap)
    ensures ValidateInputFileArgsAsWritten(vm) == Accepted
    ensures ValidateInputFileArgsAsWritten(map["input-video-file" := "a.mkv", "input-replay-file" := "b.txt"]) == Accepted
  {
  }

  /** `validate_input_file_args` as its message intends: the video file and the replay file exclude each other. */
  function ValidateInputFileArgs(vm: VariablesMap): (v: Validation)
    ensures v.Rejected? ==> v.reason == ExclusiveFiles
  {
    if Count(vm, "input-video-file") > 0 && Count(vm, "input-replay-file") > 0 then Rejected(ExclusiveFiles)
    else Accepted
  }

  /** The intended check rejects exactly the maps giving both files. */
  lemma InputFileArgsExclusive(vm: VariablesMap)
    ensures ValidateInputFileArgs(vm).Rejected? <==> "input-video-file" in vm && "input-replay-file" in vm
  {
  }

  /** Which input sources the user gave, among those enabled. */
  function SourceCount(opts: CliOptions, vm: VariablesMap): (n: nat)
    ensures n <= 3
  {
    (if opts.enableRtmInput && RtmArgsProvided(vm) then 1 else 0) +
    (if opts.enableFileInput && FileInputArgsProvided(vm) then 1 else 0) +
    (if opts.enableCameraInput && CameraInputArgsProvided(vm) then 1 else 0)
  }

  /**
   * `configuration::validate`, checks in the source's order; the first that
   * fails is the reason. A resolution is accepted when it is "original" or
   * when FFmpeg parses it, FFmpeg's answer being the parameter `avParsed`.
   */
  function Validate(opts: CliOptions, vm: VariablesMap, avParsed: Octets -> Option<(int, int)>): (v: Validation)
    ensures SourceCount(opts, vm) > 1 ==> v == Rejected(OnlyOneSource)
    ensures v.Accepted? && opts.enableFileInput && FileInputArgsProvided(vm) ==>
      !("input-video-file" in vm && "input-replay-file" in vm)
    ensures v.Accepted? && opts.enableGenericOutputOptions ==>
      "output-resolution" in vm && ResolutionParses(vm["output-resolution"], avParsed)
  {
    var inRtm := opts.enableRtmInput && RtmArgsProvided(vm);
    var inFile := opts.enableFileInput && FileInputArgsProvided(vm);
    var inCamera := opts.enableCameraInput && CameraInputArgsProvided(vm);
    var outRtm := opts.enableRtmOutput && RtmArgsProvided(vm);
    var outFile := opts.enableFileOutput && FileOutputArgsProvided(vm);
    var pool := opts.enablePoolMode && PoolModeArgsProvided(vm);
    if SourceCount(opts, vm) > 1 then Rejected(OnlyOneSource)
    else if (opts.enableRtmInput || opts.enableFileInput || opts.enableCameraInput || opts.enableUrlInput) &&
      !inRtm && !inFile && !inCamera && !opts.enableUrlInput then Rejected(NoSource)
    else if inRtm && ValidateRtmArgs(opts, vm).Rejected? then ValidateRtmArgs(opts, vm)
    else if inFile && ValidateInputFileArgs(vm).Rejected? then ValidateInputFileArgs(vm)
    else if outRtm && outFile then Rejected(OnlyOneOutput)
    else if !pool && (opts.enableRtmOutput || opts.enableFileOutput) && !outRtm && !outFile then Rejected(NoOutput)
    else if inRtm && outRtm then Rejected(RtmInputAndOutput)
    else if outRtm && ValidateRtmArgs(opts, vm).Rejected? then ValidateRtmArgs(opts, vm)
    else if opts.enableGenericInputOptions && "input-resolution" !in vm then Rejected(MissingValue)
    else if opts.enableGenericInputOptions && !ResolutionParses(vm["input-resolution"], avParsed) then Rejected(BadInputResolution)
    else if opts.enableGenericOutputOptions && "output-resolution" !in vm then Rejected(MissingValue)
    else if opts.enableGenericOutputOptions && !ResolutionParses(vm["output-resolution"], avParsed) then Rejected(BadOutputResolution)
    else Accepted
  }

  /** `parse_image_size(s).ok()`. */
  predicate ResolutionParses(s: Octets, avParsed: Octets -> Option<(int, int)>)
  {
    AvUtils.ParseImageSize(s, avParsed(s)).Value?
  }

  /** Giving more than one input source among RTM, file and camera is rejected. */
  lemma MoreThanOneSource(opts: CliOptions, vm: VariablesMap, avParsed: Octets -> Option<(int, int)>)
    requires SourceCount(opts, vm) > 1
    ensures Validate(opts, vm, avParsed) == Rejected(OnlyOneSource)
  {
  }

  /**
   * With input groups enabled, no source given and URL input not offered,
   * the map is rejected; with URL input offered, a missing source is
   * allowed.
   */
  lemma NoSourceGiven(opts: CliOptions, vm: VariablesMap, avParsed: Octets -> Option<(int, int)>)
    requires opts.enableRtmInput || opts.enableFileInput || opts.enableCameraInput
    requires SourceCount(opts, vm) == 0
    ensures Validate(opts, vm, avParsed) == Rejected(NoSource) <==> !opts.enableUrlInput
  {
  }

  /**
   * Any accepted map has at most one source, a complete RTM connection for
   * the RTM side in use, at most one output, an output unless in pool mode,
   * not RTM on both sides, the two input files not both, and resolutions
   * that parse.
   */
  lemma AcceptedMeans(opts: CliOptions, vm: VariablesMap, avParsed: Octets -> Option<(int, int)>)
    requires Validate(opts, vm, avParsed) == Accepted
    ensures SourceCount(opts, vm) <= 1
    ensures (opts.enableRtmInput || opts.enableRtmOutput) && RtmArgsProvided(vm) ==>
      "endpoint" in vm && "appkey" in vm && "port" in vm
    ensures opts.enableRtmInput && RtmArgsProvided(vm) ==> "input-channel" in vm || "pool" in vm
    ensures !(opts.enableRtmOutput && RtmArgsProvided(vm) && opts.enableFileOutput && FileOutputArgsProvided(vm))
    ensures !(opts.enableRtmInput && opts.enableRtmOutput && RtmArgsProvided(vm))
    ensures opts.enableFileInput ==> !("input-video-file" in vm && "input-replay-file" in vm)
    ensures !(opts.enablePoolMode && PoolModeArgsProvided(vm)) && (opts.enableRtmOutput || opts.enableFileOutput) ==>
      (opts.enableRtmOutput && RtmArgsProvided(vm)) || (opts.enableFileOutput && FileOutputArgsProvided(vm))
    ensures opts.enableGenericInputOptions ==> "input-resolution" in vm && ResolutionParses(vm["input-resolution"], avParsed)
    ensures opts.enableGenericOutputOptions ==> "output-resolution" in vm && ResolutionParses(vm["output-resolution"], avParsed)
  {
  }

  /** RTM output together with file output is rejected, once the inputs pass. */
  lemma RtmAndFileOutput(opts: CliOptions, vm: VariablesMap, avParsed: Octets -> Option<(int, int)>)
    requires opts.enableRtmOutput && opts.enableFileOutput && RtmArgsProvided(vm) && FileOutputArgsProvided(vm)
    ensures Validate(opts, vm, avParsed).Rejected?
  {
  }

  /** RTM input together with RTM output is rejected: the same RTM options make both count as given. */
  lemma RtmInputAndRtmOutput(opts: CliOptions, vm: VariablesMap, avParsed: Octets -> Option<(int, int)>)
    requires opts.enableRtmInput && opts.enableRtmOutput && RtmArgsProvided(vm)
    ensures Validate(opts, vm, avParsed).Rejected?
  {
  }

  /**
   * The resolution of `input_video_config` built from options:
   * "input-resolution" if present, else "output-resolution", else
   * "original".
   */
  function InputResolution(vm: VariablesMap): (r: Octets)
    ensures "input-resolution" in vm ==> r == vm["input-resolution"]
    ensures "input-resolution" !in vm && "output-resolution" in vm ==> r == vm["output-resolution"]
    ensures "input-resolution" !in vm && "output-resolution" !in vm ==> r == "original"
  {
    if Count(vm, "input-resolution") > 0 then vm["input-resolution"]
    else if Count(vm, "output-resolution") > 0 then vm["output-resolution"]
    else "original"
  }

  /**
   * An accepted configuration whose input resolution comes from a checked
   * option (the input group is enabled, or only the output group is and no
   * input resolution is given) has a resolution that parses.
   */
  lemma AcceptedResolutionParses(opts: CliOptions, vm: VariablesMap, avParsed: Octets -> Option<(int, int)>)
    requires Validate(opts, vm, avParsed) == Accepted
    requires opts.enableGenericInputOptions || (opts.enableGenericOutputOptions && "input-resolution" !in vm)
    ensures ResolutionParses(InputResolution(vm), avParsed)
  {
    AcceptedMeans(opts, vm, avParsed);
  }
}
