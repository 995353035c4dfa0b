/**
 * The command-line parser (melo/cli/argparser.go). Its effects are calls of
 * the two global callbacks HelpFunction and BuildFunction and of the local
 * `usage` printer; the model records them, in order, as a trace of Calls.
 * Printing is left out.
 */
module ArgParser {
  import opened GoStrings

  const DefaultOutputPath := "build"
  const BuildFlag := "build"
  const HelpFlag := "help"
  const OutputFlag := "output"
  /** fmt.Sprintf("--%s", OutputFlag): the only option `build` accepts. */
  const OutputOption := "--" + OutputFlag

  /** One call of HelpFunction, BuildFunction or `usage`. */
  datatype Call = HelpCall | BuildCall(inputPath: string, outputPath: string) | UsageCall

  /** What parseBuildArguments leaves: the output path, and whether it called `usage`. */
  datatype BuildOptions = BuildOptions(outputPath: string, usageCalled: bool)

  /**
   * The loop of parseBuildArguments from output path `outputPath`: each
   * `--output <path>` pair sets the path; a bad option or a missing path
   * calls `usage` and stops with the path found so far.
   */
  function ParsedBuildOptions(arguments: seq<string>, outputPath: string): BuildOptions
    decreases |arguments|
  {
    if |arguments| == 0 then BuildOptions(outputPath, false)
    else if arguments[0] == OutputOption then
      if |arguments| < 2 then BuildOptions(outputPath, true)
      else ParsedBuildOptions(arguments[2..], arguments[1])
    else BuildOptions(outputPath, true)
  }

  /** The calls ParseArguments makes, in order. */
  function CallsOf(arguments: seq<string>): seq<Call>
  {
    if |arguments| < 1 then [HelpCall]
    else
      var command, rest := arguments[0], arguments[1..];
      if command == BuildFlag then
        if |rest| < 1 then [UsageCall]
        else
          var options := ParsedBuildOptions(rest[1..], DefaultOutputPath);
          (if options.usageCalled then [UsageCall] else []) + [BuildCall(rest[0], options.outputPath)]
      else [HelpCall]
  }

  /** parseBuildArguments; `usage` is the trace of its calls of the printer. */
  method ParseBuildArguments(arguments: seq<string>) returns (outputPath: string, usage: seq<Call>)
    ensures outputPath == ParsedBuildOptions(arguments, DefaultOutputPath).outputPath
    ensures usage == if ParsedBuildOptions(arguments, DefaultOutputPath).usageCalled then [UsageCall] else []
  {
    outputPath, usage := DefaultOutputPath, [];
    var rest := arguments;
    while |rest| > 0
      invariant ParsedBuildOptions(rest, outputPath) == ParsedBuildOptions(arguments, DefaultOutputPath)
      decreases |rest|
    {
      var usedArguments := 0;
      if rest[0] == OutputOption {
        if |rest| < 2 {
          usage := [UsageCall];
          return;
        }
        outputPath := rest[1];
        usedArguments := 2;
      } else {
        usage := [UsageCall];
        return;
      }
      rest := rest[usedArguments..];
    }
  }

  /** ParseArguments, returning the trace of the calls it makes. */
  method ParseArguments(arguments: seq<string>) returns (calls: seq<Call>)
    ensures calls == CallsOf(arguments)
  {
    if |arguments| < 1 {
      return [HelpCall];
    }
    var command, rest := arguments[0], arguments[1..];
    if command == BuildFlag {
      if |rest| < 1 {
        return [UsageCall];
      }
      var inputPath, options := rest[0], rest[1..];
      var outputPath, usage := ParseBuildArguments(options);
      calls := usage + [BuildCall(inputPath, outputPath)];
    } else if command == HelpFlag {
      calls := [HelpCall];
    } else {
      calls := [HelpCall];
    }
  }

  // ---------------------------------------------------------------------------
  // What the parser does
  // ---------------------------------------------------------------------------

  /** How often HelpFunction is called. */
  function HelpCount(calls: seq<Call>): nat
    decreases |calls|
  {
    if |calls| == 0 then 0 else HelpCount(calls[..|calls| - 1]) + (if Last(calls).HelpCall? then 1 else 0)
  }

  /** How often BuildFunction is called. */
  function BuildCount(calls: seq<Call>): nat
    decreases |calls|
  {
    if |calls| == 0 then 0 else BuildCount(calls[..|calls| - 1]) + (if Last(calls).BuildCall? then 1 else 0)
  }

  /**
   * No arguments, "help" with anything after it, or an unknown command:
   * HelpFunction runs exactly once and BuildFunction never.
   */
  lemma {:induction false} HelpOnceOffBuild(arguments: seq<string>)
    requires |arguments| == 0 || arguments[0] != BuildFlag
    ensures CallsOf(arguments) == [HelpCall]
    ensures HelpCount(CallsOf(arguments)) == 1 && BuildCount(CallsOf(arguments)) == 0
  {
    assert [HelpCall][..0] == [];
  }

  /** "build" alone calls only `usage`. */
  lemma {:induction false} BuildWithoutInput()
    ensures CallsOf([BuildFlag]) == [UsageCall]
  {
    assert [BuildFlag][1..] == [];
  }

  /**
   * "build <in> ...": the token after "build" is the input path whatever it
   * looks like; BuildFunction runs exactly once, last, HelpFunction never,
   * and `usage` at most once before it.
   */
  lemma {:induction false} BuildRunsOnce(inputPath: string, options: seq<string>)
    ensures var calls := CallsOf([BuildFlag, inputPath] + options);
      var parsed := ParsedBuildOptions(options, DefaultOutputPath);
      calls == (if parsed.usageCalled then [UsageCall] else []) + [BuildCall(inputPath, parsed.outputPath)]
      && HelpCount(calls) == 0 && BuildCount(calls) == 1
  {
    var arguments := [BuildFlag, inputPath] + options;
    assert arguments[0] == BuildFlag && arguments[1..][0] == inputPath && arguments[1..][1..] == options;
    var parsed := ParsedBuildOptions(options, DefaultOutputPath);
    var calls := CallsOf(arguments);
    var build := BuildCall(inputPath, parsed.outputPath);
    if parsed.usageCalled {
      assert calls == [UsageCall, build];
      assert calls[..1] == [UsageCall] && calls[..1][..0] == [];
      assert HelpCount([UsageCall]) == 0 && BuildCount([UsageCall]) == 0;
    } else {
      assert calls == [build];
      assert calls[..0] == [];
    }
  }

  /** Options made only of `--output <path>` pairs. */
  predicate OutputPairs(options: seq<string>)
  {
    |options| % 2 == 0 && forall i :: 0 <= i < |options| && i % 2 == 0 ==> options[i] == OutputOption
  }

  /** Repeated `--output`: the last path wins and `usage` is never called. */
  lemma {:induction false} LastOutputWins(options: seq<string>, outputPath: string)
    requires OutputPairs(options)
    ensures ParsedBuildOptions(options, outputPath)
      == BuildOptions(if |options| == 0 then outputPath else options[|options| - 1], false)
    decreases |options|
  {
    if |options| > 0 {
      var rest := options[2..];
      assert forall i :: 0 <= i < |rest| && i % 2 == 0 ==> rest[i] == options[i + 2];
      LastOutputWins(rest, options[1]);
    }
  }

  /**
   * The first bad option (anything but `--output`, or `--output` with no
   * path after it) stops parsing with `usage`, keeping the last path given
   * before it or the starting one.
   */
  lemma {:induction false} StopsAtFirstBadOption(options: seq<string>, k: nat, outputPath: string)
    requires k < |options| && OutputPairs(options[..k])
    requires options[k] != OutputOption || k == |options| - 1
    ensures ParsedBuildOptions(options, outputPath) == BuildOptions(if k == 0 then outputPath else options[k - 1], true)
    decreases k
  {
    if k > 0 {
      var rest := options[2..];
      assert options[..k][0] == options[0];
      assert forall i :: 0 <= i < k - 2 && i % 2 == 0 ==> rest[..k - 2][i] == options[..k][i + 2];
      StopsAtFirstBadOption(rest, k - 2, options[1]);
    }
  }

  /** The cases of the parser's own tests. */
  lemma {:induction false} TestScenarios()
    ensures CallsOf([BuildFlag, ".", OutputOption, "output"]) == [BuildCall(".", "output")]
    ensures CallsOf([BuildFlag, "."]) == [BuildCall(".", DefaultOutputPath)]
    ensures CallsOf([HelpFlag]) == [HelpCall]
  {
    BuildRunsOnce(".", [OutputOption, "output"]);
    LastOutputWins([OutputOption, "output"], DefaultOutputPath);
    assert [BuildFlag, "."] == [BuildFlag, "."] + [];
    BuildRunsOnce(".", []);
    assert HelpFlag != BuildFlag;
    HelpOnceOffBuild([HelpFlag]);
  }
}
