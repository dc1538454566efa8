/** Running a command and collecting what it printed (src/executor.rs).
    Spawning the process is outside the model: the process's raw outcome,
    or the failure to start it, is an input. */
module Executor {
  import opened Prelude
  import opened Text

  /** What the operating system reports about a finished process, its
      streams already decoded to text. `statusCode` is `None` when the
      process was ended by a signal. */
  datatype ProcessOutput = ProcessOutput(stdout: string, stderr: string, statusCode: Option<i32>)

  /** The exit code, both streams, and the text handed to the summarizer. */
  datatype ExecutionResult = ExecutionResult(exitCode: i32, stdout: string, stderr: string, combinedOutput: string)
  {
    /** `is_success`: a zero exit code. */
    predicate IsSuccess() {
      exitCode == 0
    }
  }

  /** The process could not be started, or the command text was blank. */
  datatype ExecutorError = EmptyCommand | SpawnFailed

  /** The exit code used when the process reports none. */
  const NO_STATUS_CODE: i32 := -1

  /** `ExecutionResult::from_output`. */
  function FromOutput(output: ProcessOutput): (r: ExecutionResult)
    ensures r.stdout == output.stdout && r.stderr == output.stderr
    ensures output.stderr == [] ==> r.combinedOutput == output.stdout
    ensures output.stderr != [] ==> r.combinedOutput == output.stdout + "\n" + output.stderr
    ensures output.statusCode.Some? ==> r.exitCode == output.statusCode.value
    ensures output.statusCode.None? ==> r.exitCode == NO_STATUS_CODE
  {
    var combined := if output.stderr == [] then output.stdout else output.stdout + "\n" + output.stderr;
    var code := match output.statusCode
      case Some(c) => c
      case None => NO_STATUS_CODE;
    ExecutionResult(code, output.stdout, output.stderr, combined)
  }

  /** A result counts as a success exactly when the process exited normally with status 0;
      a process ended by a signal is a failure. */
  lemma SuccessIffZeroStatus(output: ProcessOutput)
    ensures FromOutput(output).IsSuccess() <==> output.statusCode == Some(0)
  {
  }

  /** The combined text starts with standard output, and holds standard
      error after a newline whenever there is any. */
  lemma CombinedOutputShape(output: ProcessOutput)
    ensures var c := FromOutput(output).combinedOutput;
      |c| >= |output.stdout| && c[..|output.stdout|] == output.stdout
      && (c == output.stdout <==> output.stderr == [])
  {
    var c := FromOutput(output).combinedOutput;
    if output.stderr != [] {
      assert c[..|output.stdout|] == output.stdout;
      assert |c| > |output.stdout|;
    }
  }

  /** `execute_command`: run `command` with `args` directly. `spawn` is
      what starting the process gave: its output, or `None` when it could
      not be started. */
  function ExecuteCommand(command: string, args: seq<string>, spawn: Option<ProcessOutput>): (r: Result<ExecutionResult, ExecutorError>)
    ensures spawn.None? <==> r == Failure(SpawnFailed)
    ensures spawn.Some? ==> r == Success(FromOutput(spawn.value))
  {
    match spawn
    case None => Failure(SpawnFailed)
    case Some(output) => Success(FromOutput(output))
  }

  /** `execute_command_string`: run `commandStr` through the shell
      (`sh -c`), after refusing a command that is empty once trimmed.
      `spawn` is what starting the shell would give. */
  function ExecuteCommandString(commandStr: string, spawn: Option<ProcessOutput>): (r: Result<ExecutionResult, ExecutorError>)
    ensures r == Failure(EmptyCommand) <==> IsBlank(commandStr)
    ensures !IsBlank(commandStr) && spawn.None? ==> r == Failure(SpawnFailed)
    ensures !IsBlank(commandStr) && spawn.Some? ==> r == Success(FromOutput(spawn.value))
  {
    if Trim(commandStr) == [] then Failure(EmptyCommand)
    else ExecuteCommand("sh", ["-c", commandStr], spawn)
  }

  /** A blank command is refused whatever the shell would have done. */
  lemma BlankCommandNeverRuns(commandStr: string, spawn1: Option<ProcessOutput>, spawn2: Option<ProcessOutput>)
    requires IsBlank(commandStr)
    ensures ExecuteCommandString(commandStr, spawn1) == ExecuteCommandString(commandStr, spawn2)
    ensures ExecuteCommandString(commandStr, spawn1).Failure?
  {
  }

  /** A command string fails exactly when it is blank or the shell cannot be started. */
  lemma FailuresExplained(commandStr: string, spawn: Option<ProcessOutput>)
    ensures ExecuteCommandString(commandStr, spawn).Failure? <==> IsBlank(commandStr) || spawn.None?
  {
  }
}
