/**
 * The client object of curl.go: the preset and the user's header and flag
 * stores, the executable's name and whether it has been checked, the
 * options that set them, and Request, which checks the executable, builds
 * the argument list, runs the tool and classifies what it wrote.
 */
module Curl {
  import opened Wrappers
  import opened Seqs
  import opened Bytes
  import opened Numeric
  import opened Errors
  import opened Responses
  import H = HeaderStore
  import F = FlagStore

  /** The options New and Set apply: Header, Flag, Preset and Binary */
  datatype CurlOption =
    | HeaderOption(key: string, value: string)
    | FlagOption(name: string, setting: F.FlagValue)
    | PresetOption(headers: seq<H.HeaderSetting>, flags: seq<F.FlagSetting>)  // the stores a preset function builds
    | BinaryOption(fileName: string)

  /** The state of a client: both presets' stores, the user's stores, the executable, the checked mark */
  datatype Config = Config(
    presetHeaders: H.Table, presetFlags: map<string, F.FlagValue>,
    headers: H.Table, flags: map<string, F.FlagValue>,
    binary: string, isValid: bool)

  /** The flags every client starts with: include and silent, both true */
  const DefaultFlags: seq<F.FlagSetting> := [F.Flag("include", F.Bool(true)), F.Flag("silent", F.Bool(true))]

  /** The state before any option: empty default preset, empty headers, the default flags, no executable */
  function Initial(): Config
  {
    Config(H.Empty, map[], H.Empty, F.AssignAll(map[], DefaultFlags), "", false)
  }

  /** One option applied */
  function ApplyOption(c: Config, o: CurlOption): Config
  {
    match o
    case HeaderOption(k, v) => c.(headers := H.Upsert(c.headers, k, v))
    case FlagOption(name, v) => c.(flags := c.flags[name := v])
    case PresetOption(hs, fs) => c.(presetHeaders := H.Apply(H.Empty, hs), presetFlags := F.AssignAll(map[], fs))
    case BinaryOption(fileName) => c.(binary := fileName, isValid := false)
  }

  /** The options applied left to right (written from the last one back) */
  function ApplyAll(c: Config, options: seq<CurlOption>): Config
    decreases |options|
  {
    if options == [] then c else ApplyOption(ApplyAll(c, options[..|options| - 1]), options[|options| - 1])
  }

  /** New(options...): the options applied to the initial state, then "curl" when no executable was named */
  function NewConfig(options: seq<CurlOption>): Config
  {
    var c := ApplyAll(Initial(), options);
    if c.binary == "" then c.(binary := "curl") else c
  }

  /** Applying options never checks the executable: only Validate sets the mark. */
  lemma {:induction false} ApplyAllKeepsUnchecked(c: Config, options: seq<CurlOption>)
    requires !c.isValid
    ensures !ApplyAll(c, options).isValid
    decreases |options|
  {
    if options != [] {
      ApplyAllKeepsUnchecked(c, options[..|options| - 1]);
    }
  }

  /** Options that name no executable leave it as it was. */
  lemma {:induction false} ApplyAllKeepsBinary(c: Config, options: seq<CurlOption>)
    requires forall i :: 0 <= i < |options| ==> !options[i].BinaryOption?
    ensures ApplyAll(c, options).binary == c.binary
    decreases |options|
  {
    if options != [] {
      ApplyAllKeepsBinary(c, options[..|options| - 1]);
    }
  }

  /** Options that set no flag leave the flags as they were. */
  lemma {:induction false} ApplyAllKeepsFlags(c: Config, options: seq<CurlOption>)
    requires forall i :: 0 <= i < |options| ==> !options[i].FlagOption?
    ensures ApplyAll(c, options).flags == c.flags
    decreases |options|
  {
    if options != [] {
      ApplyAllKeepsFlags(c, options[..|options| - 1]);
    }
  }

  /**
   * A new client is unchecked and always has an executable: "curl" unless
   * an option named one; without flag options its flags are exactly
   * include and silent, both true.
   */
  lemma NewDefaults(options: seq<CurlOption>)
    ensures !NewConfig(options).isValid && NewConfig(options).binary != ""
    ensures (forall i :: 0 <= i < |options| ==> !options[i].BinaryOption?) ==> NewConfig(options).binary == "curl"
    ensures (forall i :: 0 <= i < |options| ==> !options[i].FlagOption?) ==>
      NewConfig(options).flags == map["include" := F.Bool(true), "silent" := F.Bool(true)]
  {
    ApplyAllKeepsUnchecked(Initial(), options);
    if forall i :: 0 <= i < |options| ==> !options[i].BinaryOption? {
      ApplyAllKeepsBinary(Initial(), options);
    }
    if forall i :: 0 <= i < |options| ==> !options[i].FlagOption? {
      ApplyAllKeepsFlags(Initial(), options);
      DefaultFlagsAre();
    }
  }

  lemma DefaultFlagsAre()
    ensures F.AssignAll(map[], DefaultFlags) == map["include" := F.Bool(true), "silent" := F.Bool(true)]
  {
    assert DefaultFlags[..1] == [F.Flag("include", F.Bool(true))];
    assert DefaultFlags[..1][..0] == [];
  }

  /** Binary(name) sets the executable, clears the checked mark and changes nothing else. */
  lemma BinaryClearsValid(c: Config, fileName: string)
    ensures var d := ApplyOption(c, BinaryOption(fileName));
      d.binary == fileName && !d.isValid &&
      d.headers == c.headers && d.flags == c.flags &&
      d.presetHeaders == c.presetHeaders && d.presetFlags == c.presetFlags
  {
  }

  /**
   * What looking for the executable finds: it exists under its name (or
   * os.Stat fails for a reason other than its absence), the search path
   * resolves it to a full path, or the search fails with a cause.
   */
  datatype Resolution = Present | Resolved(path: string) | Unresolved(cause: string)

  /** Validate: the state after the check and the error it returns */
  function Validation(c: Config, res: Resolution): (Config, Option<Error>)
  {
    match res
    case Present => (c.(isValid := true), None)
    case Resolved(path) => (c.(binary := path, isValid := true), None)
    case Unresolved(cause) => (c.(isValid := false), Some(LookupError(cause)))
  }

  /**
   * The check succeeds exactly when the executable is found, succeeding
   * sets the mark, and only a search-path hit renames the executable; the
   * stores are never touched.
   */
  lemma ValidationIff(c: Config, res: Resolution)
    ensures var (d, err) := Validation(c, res);
      (err == None <==> !res.Unresolved?) && (err == None <==> d.isValid) &&
      (res.Unresolved? ==> err == Some(LookupError(res.cause)) && Message(err.value) == res.cause) &&
      (d.binary == if res.Resolved? then res.path else c.binary) &&
      d.headers == c.headers && d.flags == c.flags && d.presetHeaders == c.presetHeaders && d.presetFlags == c.presetFlags
  {
  }

  /**
   * What running the tool gives: an exit status other than 0 (an
   * *exec.ExitError; a zero exit is Finished, so Exited(0) stands for no
   * run Go can report), a failure to run it, or its stdout.
   */
  datatype Run = Exited(code: int64) | NotRun(cause: string, stderr: string) | Finished(stdout: Bytes)

  /** A run turned into Request's result */
  function Outcome(run: Run, canon: Bytes -> Bytes, statusText: int64 -> string): Result<Response, Error>
  {
    match run
    case Exited(code) => Fail(CurlError(code))
    case NotRun(cause, stderr) => Fail(ExecError(cause, stderr))
    case Finished(stdout) => Classify(stdout, canon, statusText)
  }

  /**
   * A failed exit is the typed tool error carrying the exit code, which its
   * message gives back; a failure to run is the plain error naming its
   * cause and the tool's stderr; only a finished run is classified.
   */
  lemma OutcomeKinds(run: Run, canon: Bytes -> Bytes, statusText: int64 -> string)
    ensures run.Exited? ==> var r := Outcome(run, canon, statusText);
      r.Fail? && IsCurlError(r.error) && r.error.exitCode == run.code &&
      CodeInMessage(Message(r.error)) == Some(run.code)
    ensures run.NotRun? ==> var r := Outcome(run, canon, statusText);
      r.Fail? && !IsCurlError(r.error) && !IsHttpError(r.error) &&
      Message(r.error) == "unexpected error executing curl: " + run.cause + ". stderr: " + run.stderr
    ensures run.Finished? ==> Outcome(run, canon, statusText) == Classify(run.stdout, canon, statusText)
  {
    if run.Exited? {
      ExitCodeInMessage(run.code);
    }
  }

  /**
   * The argument list: preset headers, the user's headers, preset flags,
   * the user's flags, then the URL.
   */
  function Argv(presetOrder: seq<H.Entry>, userOrder: seq<H.Entry>,
                presetFlagOrder: seq<F.Entry>, flagOrder: seq<F.Entry>, url: string): seq<string>
  {
    H.HeaderArgs(presetOrder) + H.HeaderArgs(userOrder) + (F.FlagArgs(presetFlagOrder) + F.FlagArgs(flagOrder)) + [url]
  }

  /**
   * The list opens with the preset's "-H" pairs in the given order, follows
   * with the user's pairs in theirs, then the flags, and ends with the URL.
   */
  lemma ArgvShape(presetOrder: seq<H.Entry>, userOrder: seq<H.Entry>, presetFlagOrder: seq<F.Entry>, flagOrder: seq<F.Entry>, url: string)
    ensures var argv := Argv(presetOrder, userOrder, presetFlagOrder, flagOrder, url);
      var p, u := 2 * |presetOrder|, 2 * |userOrder|;
      |argv| == p + u + |F.FlagArgs(presetFlagOrder)| + |F.FlagArgs(flagOrder)| + 1 &&
      argv[|argv| - 1] == url &&
      argv[..p] == H.HeaderArgs(presetOrder) &&
      argv[p..p + u] == H.HeaderArgs(userOrder) &&
      argv[p + u..|argv| - 1] == F.FlagArgs(presetFlagOrder) + F.FlagArgs(flagOrder)
  {
    H.HeaderArgsLength(presetOrder);
    H.HeaderArgsLength(userOrder);
    ConcatParts(H.HeaderArgs(presetOrder), H.HeaderArgs(userOrder), F.FlagArgs(presetFlagOrder) + F.FlagArgs(flagOrder), url);
  }

  /** curl.Curl */
  class Client {
    var headers: H.Headers
    var flags: F.Flags
    var presetHeaders: H.Headers
    var presetFlags: F.Flags
    var binary: string
    var isValid: bool

    /** Both header stores keep their invariant, and the user's stores are not the preset's. */
    ghost predicate Valid()
      reads this, headers, presetHeaders
    {
      headers.Valid() && presetHeaders.Valid() && headers != presetHeaders && flags != presetFlags
    }

    function Contents(): Config
      reads this, headers, flags, presetHeaders, presetFlags
    {
      Config(presetHeaders.Contents(), presetFlags.m, headers.Contents(), flags.m, binary, isValid)
    }

    /** New(options...) */
    constructor (options: seq<CurlOption>)
      ensures Valid() && fresh(headers) && fresh(flags)
      ensures Contents() == NewConfig(options)
    {
      presetHeaders := new H.Headers([]);
      presetFlags := new F.Flags([]);
      headers := new H.Headers([]);
      flags := new F.Flags(DefaultFlags);
      binary := "";
      isValid := false;
      new;
      Set(options);
      if binary == "" {
        binary := "curl";
      }
    }

    /** Set(options...): each option applied in turn */
    method Set(options: seq<CurlOption>)
      requires Valid()
      modifies this, headers, flags
      ensures Valid()
      ensures headers == old(headers) && flags == old(flags)
      ensures Contents() == ApplyAll(old(Contents()), options)
    {
      for i := 0 to |options|
        invariant Valid()
        invariant headers == old(headers) && flags == old(flags)
        invariant Contents() == ApplyAll(old(Contents()), options[..i])
      {
        assert options[..i + 1][..i] == options[..i];
        Apply(options[i]);
      }
      assert options[..|options|] == options;
    }

    /** o(curl) for one option */
    method Apply(o: CurlOption)
      requires Valid()
      modifies this, headers, flags
      ensures Valid()
      ensures headers == old(headers) && flags == old(flags)
      ensures Contents() == ApplyOption(old(Contents()), o)
    {
      match o
      case HeaderOption(k, v) => SetHeader(k, v);
      case FlagOption(name, v) => SetFlag(name, v);
      case PresetOption(hs, fs) =>
        presetHeaders := new H.Headers(hs);
        presetFlags := new F.Flags(fs);
      case BinaryOption(fileName) =>
        binary := fileName;
        isValid := false;
    }

    /** SetHeader and the option Header: the user's header store gets k = v. */
    method SetHeader(k: string, v: string)
      requires Valid()
      modifies headers
      ensures Valid()
      ensures Contents() == old(Contents()).(headers := H.Upsert(old(headers.Contents()), k, v))
    {
      headers.Set(k, v);
    }

    /** SetFlag and the option Flag: the user's flag store gets name = v. */
    method SetFlag(name: string, v: F.FlagValue)
      requires Valid()
      modifies flags
      ensures Valid()
      ensures Contents() == old(Contents()).(flags := old(flags.m)[name := v])
    {
      flags.Set(name, v);
    }

    /** Validate, with resolve standing for os.Stat and exec.LookPath on the executable's name */
    method Validate(resolve: string -> Resolution) returns (err: Option<Error>)
      requires Valid()
      modifies this
      ensures headers == old(headers) && flags == old(flags)
      ensures presetHeaders == old(presetHeaders) && presetFlags == old(presetFlags)
      ensures Valid() && unchanged(headers, flags, presetHeaders, presetFlags)
      ensures (Contents(), err) == Validation(old(Contents()), resolve(old(binary)))
    {
      isValid := false;
      match resolve(binary) {
        case Unresolved(cause) =>
          return Some(LookupError(cause));
        case Resolved(fullPath) =>
          binary := fullPath;
        case Present =>
      }
      isValid := true;
      return None;
    }

    /**
     * Request(url): the executable checked when it is not yet, the argument
     * list built, the tool run (tool stands for exec.Command and Run) and
     * the run classified. The argument list is returned beside the result;
     * the orders are the enumerations the two shuffled stores gave.
     */
    method Request(url: string, resolve: string -> Resolution, tool: (string, seq<string>) -> Run,
                   canon: Bytes -> Bytes, statusText: int64 -> string)
      returns (r: Result<Response, Error>, args: seq<string>,
               ghost userOrder: seq<H.Entry>, ghost presetFlagOrder: seq<F.Entry>, ghost flagOrder: seq<F.Entry>)
      requires Valid()
      modifies this
      ensures headers == old(headers) && flags == old(flags)
      ensures presetHeaders == old(presetHeaders) && presetFlags == old(presetFlags)
      ensures Valid() && unchanged(headers, flags, presetHeaders, presetFlags)
      ensures !old(isValid) && resolve(old(binary)).Unresolved? ==>
        r == Fail(LookupError(resolve(old(binary)).cause)) && args == [] && Contents() == old(Contents()).(isValid := false)
      ensures old(isValid) ==> Contents() == old(Contents())
      ensures !old(isValid) ==> Contents() == Validation(old(Contents()), resolve(old(binary))).0
      ensures old(isValid) || !resolve(old(binary)).Unresolved? ==>
        Enumerates(userOrder, headers.m.Items) &&
        Enumerates(presetFlagOrder, presetFlags.m.Items) && Enumerates(flagOrder, flags.m.Items) &&
        args == Argv(H.Entries(presetHeaders.Contents()), userOrder, presetFlagOrder, flagOrder, url) &&
        r == Outcome(tool(binary, args), canon, statusText)
    {
      if !isValid {
        var err := Validate(resolve);
        if err.Some? {
          return Fail(err.value), [], [], [], [];
        }
      }
      args, userOrder, presetFlagOrder, flagOrder := Arguments(url);
      r := Finish(tool(binary, args), canon, statusText);
    }

    /** The argument list Request builds: the four stores' arguments and the URL */
    method Arguments(url: string)
      returns (args: seq<string>, ghost userOrder: seq<H.Entry>, ghost presetFlagOrder: seq<F.Entry>, ghost flagOrder: seq<F.Entry>)
      requires Valid()
      ensures Enumerates(userOrder, headers.m.Items)
      ensures Enumerates(presetFlagOrder, presetFlags.m.Items) && Enumerates(flagOrder, flags.m.Items)
      ensures args == Argv(H.Entries(presetHeaders.Contents()), userOrder, presetFlagOrder, flagOrder, url)
      ensures |args| >= 1 && args[|args| - 1] == url
    {
      var presetArgs, presetOrder := presetHeaders.Generate(false);
      var userArgs, presetFlagArgs, flagArgs;
      userArgs, userOrder := headers.Generate(true);
      presetFlagArgs, presetFlagOrder := presetFlags.Generate();
      flagArgs, flagOrder := flags.Generate();
      args := presetArgs + userArgs + (presetFlagArgs + flagArgs) + [url];
    }

    /**
     * The end of Request: the run's error, or its stdout classified. The
     * imperative form of Outcome; OutcomeKinds carries its properties.
     */
    method Finish(run: Run, canon: Bytes -> Bytes, statusText: int64 -> string) returns (r: Result<Response, Error>)
      ensures r == Outcome(run, canon, statusText)
    {
      match run {
        case Exited(code) =>
          r := Fail(CurlError(code));
        case NotRun(cause, stderr) =>
          r := Fail(ExecError(cause, stderr));
        case Finished(stdout) =>
          r := Respond(stdout, canon, statusText);
      }
    }
  }
}
