/** The `cg` program (src/main.rs): refuse a disabled command, run it,
    record its output, choose a summary, and exit with the command's own
    code. The clock, the output directory's record, the recent-commands
    lookup and the language model are the environment's answers. */
module Cli {
  import opened Prelude
  import opened Text
  import opened Executor
  import opened Configuration
  import opened Output

  // ----------------------------------------------------------------------
  // Recent commands for the prompt

  /** The commands handed to the prompt: `None` unless the context window
      is switched on and the lookup found something, otherwise each found
      command with its exit code, in the order found. `lookup` is what the
      recent-commands query answers; `T` is the time it reports, unused. */
  function RecentForPrompt<T>(config: Config, lookup: seq<(string, i32, T)>): (r: Option<seq<(string, i32)>>)
    ensures r.Some? <==> config.commandContextMinutes > 0 && lookup != []
    ensures r.Some? ==>
      |r.value| == |lookup| && forall i :: 0 <= i < |lookup| ==> r.value[i] == (lookup[i].0, lookup[i].1)
  {
    if config.commandContextMinutes > 0 then
      if lookup == [] then None
      else Some(seq(|lookup|, i requires 0 <= i < |lookup| => (lookup[i].0, lookup[i].1)))
    else None
  }

  /** The prompt's recent-commands block is empty exactly when the window
      is off or nothing was found; the lookup's answer matters only when
      the window is on. */
  lemma RecentBlockOnlyWhenEnabled<T>(config: Config, lookup: seq<(string, i32, T)>, other: seq<(string, i32, T)>)
    ensures RecentCommandsText(RecentForPrompt(config, lookup)) == []
      <==> config.commandContextMinutes == 0 || lookup == []
    ensures config.commandContextMinutes == 0 ==> RecentForPrompt(config, lookup) == RecentForPrompt(config, other)
  {
  }

  // ----------------------------------------------------------------------
  // Choosing the summary

  /** What is handed to the language-model client: the provider's configured
      base URL (the client drops trailing `/` characters and appends
      `/v1/chat/completions` itself), the model and the prompt. */
  datatype LlmRequest = LlmRequest(url: string, model: string, prompt: string)

  /** The summary shown, and the request made to produce it, if any. */
  datatype Decision = Decision(summary: string, request: Option<LlmRequest>)

  /** `split_whitespace().count() as u32`: the count wraps at 2^32. */
  function OutputWordCount(text: string): (n: u32)
    ensures WordCount(text) < U32_MODULUS ==> n == WordCount(text)
  {
    WordCount(text) % U32_MODULUS
  }

  /** Whether the output goes to the language model: it is not blank and
      has more words, after trimming, than the command's threshold. */
  predicate NeedsSummary(config: Config, commandStr: string, result: ExecutionResult) {
    !IsBlank(result.combinedOutput)
    && OutputWordCount(Trim(result.combinedOutput)) > GetOutputLengthThreshold(config, commandStr)
  }

  /** The prompt built for a command's output: the untrimmed output and the
      command's own summary length. */
  function SummaryRequest(config: Config, commandStr: string, result: ExecutionResult,
                          recent: Option<seq<(string, i32)>>): (q: LlmRequest)
    ensures q.url == config.provider.url && q.model == config.provider.model
  {
    LlmRequest(config.provider.url, config.provider.model,
      FormatPrompt(config, commandStr, result.exitCode, result.combinedOutput,
                   GetSummaryWords(config, commandStr), recent))
  }

  /** The summary for blank output. */
  function NoOutputSummary(result: ExecutionResult, duration: string): string {
    if result.IsSuccess() then
      "Command completed successfully in " + duration + " seconds with no output."
    else
      "Command failed after " + duration + " seconds with exit code "
      + IntToString(result.exitCode) + " and no output."
  }

  /** The summary for output short enough to pass on as it is. */
  function RawOutputSummary(commandStr: string, result: ExecutionResult, duration: string,
                            threshold: u32): string
  {
    commandStr + " " + StatusWord(result.exitCode) + " after " + duration
    + " seconds (output shorter than " + NatToString(threshold) + " words; returning raw output):\n\n"
    + Trim(result.combinedOutput)
  }

  /** The number of lines kept at each end when the model fails. */
  const FALLBACK_LINES: nat := 20

  /** The summary when the language model gave no answer: the head and
      tail of the output, 20 lines each. */
  function FallbackSummary(commandStr: string, result: ExecutionResult, duration: string): string {
    commandStr + " " + StatusWord(result.exitCode) + " after " + duration + " seconds. Output:\n\n"
    + FormatFallbackOutput(result.combinedOutput, FALLBACK_LINES)
  }

  /** The summary expression: blank output, short output passed on raw, or
      long output sent to the language model, whose answer `reply` is used
      verbatim and replaced by the truncated output when there is none.
      `duration` is the run time already formatted with one decimal. */
  function DecideSummary(config: Config, commandStr: string, result: ExecutionResult, duration: string,
                         recent: Option<seq<(string, i32)>>, reply: Option<string>): (d: Decision)
    ensures d.request.Some? <==> NeedsSummary(config, commandStr, result)
    ensures d.request.Some? ==> d.request.value == SummaryRequest(config, commandStr, result, recent)
  {
    if Trim(result.combinedOutput) == [] then
      Decision(NoOutputSummary(result, duration), None)
    else
      var threshold := GetOutputLengthThreshold(config, commandStr);
      if OutputWordCount(Trim(result.combinedOutput)) <= threshold then
        Decision(RawOutputSummary(commandStr, result, duration, threshold), None)
      else
        var request := SummaryRequest(config, commandStr, result, recent);
        match reply
        case Some(text) => Decision(text, Some(request))
        case None => Decision(FallbackSummary(commandStr, result, duration), Some(request))
  }

  /** Without a request the model's answer is never looked at. */
  lemma ReplyIgnoredWithoutRequest(config: Config, commandStr: string, result: ExecutionResult, duration: string,
                                   recent: Option<seq<(string, i32)>>, reply1: Option<string>, reply2: Option<string>)
    requires !NeedsSummary(config, commandStr, result)
    ensures DecideSummary(config, commandStr, result, duration, recent, reply1)
      == DecideSummary(config, commandStr, result, duration, recent, reply2)
  {
  }

  /** Neither the recent commands nor the prompt matter unless a request is made. */
  lemma RecentUnusedWithoutRequest(config: Config, commandStr: string, result: ExecutionResult, duration: string,
                                   recent1: Option<seq<(string, i32)>>, recent2: Option<seq<(string, i32)>>,
                                   reply: Option<string>)
    requires !NeedsSummary(config, commandStr, result)
    ensures DecideSummary(config, commandStr, result, duration, recent1, reply)
      == DecideSummary(config, commandStr, result, duration, recent2, reply)
  {
  }

  /** Blank output: the summary reports success or the exit code, with the
      run time, and nothing is sent. */
  lemma BlankOutputSummary(config: Config, commandStr: string, result: ExecutionResult, duration: string,
                           recent: Option<seq<(string, i32)>>, reply: Option<string>)
    requires IsBlank(result.combinedOutput)
    ensures var d := DecideSummary(config, commandStr, result, duration, recent, reply);
      d.request.None?
      && (result.exitCode == 0 ==>
            d.summary == "Command completed successfully in " + duration + " seconds with no output.")
      && (result.exitCode != 0 ==>
            d.summary == "Command failed after " + duration + " seconds with exit code "
                         + IntToString(result.exitCode) + " and no output.")
  {
  }

  /** Short output: the summary names the command, its status, the run time
      and the threshold, and ends with the whole trimmed output after a
      blank line; nothing is sent. */
  lemma ShortOutputSummary(config: Config, commandStr: string, result: ExecutionResult, duration: string,
                           recent: Option<seq<(string, i32)>>, reply: Option<string>)
    requires !IsBlank(result.combinedOutput)
    requires OutputWordCount(Trim(result.combinedOutput)) <= GetOutputLengthThreshold(config, commandStr)
    ensures var d := DecideSummary(config, commandStr, result, duration, recent, reply);
      var text := Trim(result.combinedOutput);
      var preamble := commandStr + " " + StatusWord(result.exitCode) + " after " + duration
        + " seconds (output shorter than " + NatToString(GetOutputLengthThreshold(config, commandStr))
        + " words; returning raw output):\n\n";
      d.request.None? && d.summary == preamble + text
      && |d.summary| >= |text| && d.summary[|d.summary| - |text|..] == text
  {
    var d := DecideSummary(config, commandStr, result, duration, recent, reply);
    var text := Trim(result.combinedOutput);
    var preamble := commandStr + " " + StatusWord(result.exitCode) + " after " + duration
      + " seconds (output shorter than " + NatToString(GetOutputLengthThreshold(config, commandStr))
      + " words; returning raw output):\n\n";
    assert d.summary == preamble + text;
    assert (preamble + text)[|preamble|..] == text;
  }

  /** Long output: exactly one request, with the prompt built from the
      untrimmed output and the command's summary length; the answer is the
      summary verbatim. */
  lemma LongOutputAnswered(config: Config, commandStr: string, result: ExecutionResult, duration: string,
                           recent: Option<seq<(string, i32)>>, text: string)
    requires NeedsSummary(config, commandStr, result)
    ensures var d := DecideSummary(config, commandStr, result, duration, recent, Some(text));
      d.summary == text
      && d.request == Some(LlmRequest(config.provider.url, config.provider.model,
           FormatPrompt(config, commandStr, result.exitCode, result.combinedOutput,
                        GetSummaryWords(config, commandStr), recent)))
  {
  }

  /** Long output the model did not summarize: the command, its status and
      the run time, then the output cut to its first and last 20 lines;
      output of at most 40 lines follows whole. */
  lemma LongOutputFallback(config: Config, commandStr: string, result: ExecutionResult, duration: string,
                           recent: Option<seq<(string, i32)>>)
    requires NeedsSummary(config, commandStr, result)
    ensures var d := DecideSummary(config, commandStr, result, duration, recent, None);
      var preamble := commandStr + " " + StatusWord(result.exitCode) + " after " + duration + " seconds. Output:\n\n";
      d.request.Some?
      && d.summary == preamble + FormatFallbackOutput(result.combinedOutput, FALLBACK_LINES)
      && (|Lines(result.combinedOutput)| <= 2 * FALLBACK_LINES ==> d.summary == preamble + result.combinedOutput)
  {
    if |Lines(result.combinedOutput)| <= 2 * FALLBACK_LINES {
      FallbackKeepsShortOutput(result.combinedOutput, FALLBACK_LINES);
    }
  }

  /** Every summary that reports a status says `succeeded` exactly for exit code 0. */
  lemma StatusFollowsExitCode(commandStr: string, result: ExecutionResult, duration: string, threshold: u32)
    ensures var head := commandStr + " " + StatusWord(result.exitCode) + " after ";
      StartsWith(RawOutputSummary(commandStr, result, duration, threshold), head)
      && StartsWith(FallbackSummary(commandStr, result, duration), head)
    ensures StatusWord(result.exitCode) == (if result.IsSuccess() then "succeeded" else "failed")
  {
    var head := commandStr + " " + StatusWord(result.exitCode) + " after ";
    var raw := RawOutputSummary(commandStr, result, duration, threshold);
    var fallback := FallbackSummary(commandStr, result, duration);
    assert raw[..|head|] == head;
    assert fallback[..|head|] == head;
  }

  // ----------------------------------------------------------------------
  // The whole run

  /** What the environment answers during one run: the shell's outcome
      (`None` when it cannot be started), the clock, whether the output
      record could be written, the formatted run time, the recent-commands
      lookup, the model's answer, and whether the summary could be added to
      the record. */
  datatype Environment<T> = Environment(
    spawn: Option<ProcessOutput>,
    now: Timestamp,
    recordWritten: bool,
    duration: string,
    recentLookup: seq<(string, i32, T)>,
    reply: Option<string>,
    summaryStored: bool)

  /** How a run ends: the process exit code, whether the shell was asked to run the command,
      and the record's file name and the summary when it got that far. */
  datatype Invocation = Invocation(exitCode: i32, attempted: bool, filename: Option<string>, decision: Option<Decision>)

  /** The exit code of every run that stops early. */
  const EARLY_EXIT: i32 := 1

  /** `main` after the configuration is loaded: `args` are the words of the
      command, joined by single spaces. */
  function Run<T>(config: Config, args: seq<string>, env: Environment<T>): (inv: Invocation)
    requires env.now.Valid()
    ensures IsCommandDisabled(config, Join(args, " ")) ==> !inv.attempted
    ensures inv.decision.Some? ==> inv.filename.Some?
  {
    var commandStr := Join(args, " ");
    if IsCommandDisabled(config, commandStr) then
      Invocation(EARLY_EXIT, false, None, None)
    else
      match ExecuteCommandString(commandStr, env.spawn)
      case Failure(_) => Invocation(EARLY_EXIT, !IsBlank(commandStr), None, None)
      case Success(result) => AfterExecution(config, commandStr, result, env)
  }

  /** The rest of `main` once the command has run: write the record, then
      summarize. A failed summary update is only a warning. */
  function AfterExecution<T>(config: Config, commandStr: string, result: ExecutionResult,
                             env: Environment<T>): (inv: Invocation)
    requires env.now.Valid()
    ensures inv.attempted
    ensures inv.decision.Some? <==> env.recordWritten
    ensures inv.decision.Some? ==> inv.exitCode == result.exitCode
    ensures inv.decision.None? ==> inv.exitCode == EARLY_EXIT
  {
    if !env.recordWritten then
      Invocation(EARLY_EXIT, true, None, None)
    else
      var recent := RecentForPrompt(config, env.recentLookup);
      var decision := DecideSummary(config, commandStr, result, env.duration, recent, env.reply);
      Invocation(result.exitCode, true, Some(GenerateOutputFilename(commandStr, env.now)), Some(decision))
  }

  /** A disabled command is never run and the program exits with 1,
      whatever the environment would have answered. */
  lemma DisabledCommandRefused<T>(config: Config, args: seq<string>, env: Environment<T>, other: Environment<T>)
    requires env.now.Valid() && other.now.Valid()
    requires IsCommandDisabled(config, Join(args, " "))
    ensures Run(config, args, env) == Run(config, args, other)
    ensures Run(config, args, env) == Invocation(1, false, None, None)
  {
  }

  /** A run that gets as far as summarizing exits with the wrapped
      command's own code, whether or not the summary could be stored and
      whatever the model answered; such a run happens exactly when the
      command is allowed, not blank, started, and its record written. */
  lemma ExitCodePassedThrough<T>(config: Config, args: seq<string>, env: Environment<T>)
    requires env.now.Valid()
    ensures var inv := Run(config, args, env);
      var commandStr := Join(args, " ");
      inv.decision.Some? <==>
        !IsCommandDisabled(config, commandStr) && !IsBlank(commandStr) && env.spawn.Some? && env.recordWritten
    ensures var inv := Run(config, args, env);
      inv.decision.Some? ==>
        inv.exitCode == FromOutput(env.spawn.value).exitCode
        && inv.filename == Some(GenerateOutputFilename(Join(args, " "), env.now))
        && Run(config, args, env.(summaryStored := !env.summaryStored)) == inv
  {
  }

  /** Every other run exits with 1: a disabled or blank command, a shell
      that cannot be started, or a record that cannot be written. */
  lemma EarlyExits<T>(config: Config, args: seq<string>, env: Environment<T>)
    requires env.now.Valid()
    ensures var inv := Run(config, args, env);
      inv.decision.None? ==> inv.exitCode == 1
    ensures var inv := Run(config, args, env);
      inv.attempted <==> !IsCommandDisabled(config, Join(args, " ")) && !IsBlank(Join(args, " "))
  {
  }
}
