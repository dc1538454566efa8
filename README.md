# ctx_guard in Dafny

`cg` (the ctx_guard crate) wraps a shell command for an AI agent. It runs the
command, writes its output to a file under `/tmp/ctx_guard`, and prints a short
summary instead of the whole output. The summary is one of three things:

- a fixed sentence, when the output is blank;
- the trimmed output itself, when it has no more words than the command's threshold;
- a language model's answer to a prompt built from a template, with the head and
  tail of the output as the fallback when the model gives no answer.

The process then exits with the wrapped command's own exit code.

This project models the deterministic core of that program and proves what it
promises:

- `prelude.dfy` (`Prelude`): `Option`, `Result`, and Rust's `u32`/`i32` ranges.
- `text.dfy` (`Text`): the Rust string operations the core relies on, written
  out with their edge cases:
  - `trim` with Unicode White_Space, and the count of `split_whitespace`;
  - `lines`, which splits on `\n`, drops one `\r` before a `\n`, and gives no
    empty last line after a final newline;
  - `join`, and `contains`;
  - `replace`: left to right, non-overlapping, and an empty pattern inserts the
    replacement around every character;
  - integer `to_string`, and chrono's zero padding.
- `executor.dfy` (`Executor`, src/executor.rs): how a process's streams become
  the combined output, the `-1` exit code when there is no status, `is_success`,
  and the refusal of a blank command before anything is spawned.
- `output.dfy` (`Output`, src/output.rs) covers three things:
  - the output file name: the 12-character slug mapping, the 50-character cut
    and the timestamp suffix;
  - `format_fallback_output`;
  - `ensure_output_dir`/`write_output_file` as a class `OutputStore`, which has
    a directory flag and a map from path to content that its methods update.
- `config.dfy` (`Configuration`, src/config.rs) covers:
  - the default settings and the default prompt, whose text is reproduced
    exactly;
  - the per-command override lookups;
  - `format_prompt`: five `replace` calls one after another, each on the
    previous one's result.
- `cli.dfy` (`Cli`, src/main.rs) covers:
  - which recent commands reach the prompt;
  - the three-way summary decision;
  - the exit code of a whole run.

Everything is a pure function except `OutputStore`, because only the output
directory changes state in place. The environment's answers are parameters:
the clock, whether the shell could start and what it printed, whether the
record was written, the formatted duration, the recent-commands lookup, the
model's reply, and whether the summary could be stored.

Each placeholder is built as `Placeholder(name)` = `${name}`. The prompt
results are proved for any template of six literal pieces around the five
placeholders (`FillableTemplate`). They are then proved for the default prompt,
which is such a template.

## Model

| member | source | states |
|---|---|---|
| Executor.FromOutput | src/executor.rs:18-33 | both streams are kept unchanged. The combined output is stdout when stderr is empty, and stdout + `\n` + stderr otherwise. The exit code is the status code, or -1 when there is none |
| Executor.SuccessIffZeroStatus | src/executor.rs:35-37 | a result is a success exactly when the process reported status 0; a process with no status is a failure |
| Executor.ExecutionResult.IsSuccess | src/executor.rs:35-37 | `is_success`: `SuccessIffZeroStatus` proves it holds exactly for exit code 0, so a result without a status (-1) is a failure |
| Executor.CombinedOutputShape | src/executor.rs:21-25 | the combined output starts with stdout, and it equals stdout exactly when stderr is empty |
| Executor.ExecuteCommand | src/executor.rs:40-46 | a process that cannot be started gives a spawn error; otherwise the result is `from_output` of what it printed |
| Executor.ExecuteCommandString | src/executor.rs:48-69 | the empty-command error is returned exactly for a blank command. Otherwise a spawn error is returned when the shell cannot start, and `from_output` of the shell's output when it can |
| Executor.BlankCommandNeverRuns | src/executor.rs:49-53 | a blank command fails, and the result does not depend on what the shell would have done |
| Executor.FailuresExplained | src/executor.rs:48-68 | running a command string fails exactly when it is blank or the shell cannot be started |
| Output.MappedCommand | src/output.rs:24-36 | the twelve `replace` calls in the source's order. `MappedCommandIsPerChar` proves the result has the command's length and maps each character on its own |
| Output.Slug | src/output.rs:24-39 | the mapped command cut to its first 50 characters. `SlugIsMappedPrefix` gives its length and characters, and `SlugIsSafe` shows no forbidden character is left |
| Output.MappedCommandIsPerChar | src/output.rs:24-36 | the chain of twelve `replace` calls keeps the length and maps each character on its own: a forbidden character becomes `_` and every other character is kept |
| Output.SlugIsMappedPrefix | src/output.rs:24-39 | the slug has min(50, length of command) characters, and each one is the mapped character of the command at that position |
| Output.SlugIsSafe | src/output.rs:24-39 | the slug holds none of space, `/`, `\`, `\|`, `&`, `;`, `>`, `<`, `*`, `?`, `"`, `'` |
| Output.FormatTimestamp | src/output.rs:23 | `%Y%m%d_%H%M%S` is 15 characters: 8 digits, `_`, then 6 digits |
| Output.ParseFormatTimestamp | src/output.rs:23 | the formatted timestamp reads back as the same date and time |
| Output.GenerateOutputFilename | src/output.rs:22-42 | the slug, `_`, the timestamp and `.txt`. `FilenameLayout` gives the layout and the 70-character bound, `FilenameTimestamp` reads the time back, and `FilenameIsSafe` keeps forbidden characters out |
| Output.FilenameLayout | src/output.rs:37-41 | the name is the slug, then `_`, the timestamp and `.txt`. It is at most 70 characters, and the 20-character suffix is never cut, because the slug is cut before the suffix is appended |
| Output.FilenameTimestamp | src/output.rs:23-41 | the time can be read back from the 15 characters before `.txt` |
| Output.FilenameIsSafe | src/output.rs:22-42 | no forbidden character appears anywhere in the file name |
| Output.NpxJestFilename | src/output.rs:75-79 | `npx jest` gives a name that starts with `npx_jest_` |
| Output.FormatFallbackOutput | src/output.rs:51-67 | splits the output into lines and keeps it whole or cuts it. `FallbackKeepsShortOutput` covers output of at most 2·max lines, and `FallbackLayout` and `FallbackLines` cover longer output |
| Output.TruncateLines | src/output.rs:58-66 | for max ≥ 1 (the program passes 20): the first max lines, the omitted-lines marker and the last max lines. `FallbackLayout` proves they are joined with a blank line on each side of the marker, and that the omitted count is the number of lines not kept |
| Output.FallbackKeepsShortOutput | src/output.rs:54-56 | output with at most 2·max lines comes back unchanged, including any trailing newline |
| Output.FallbackLayout | src/output.rs:58-66 | for max ≥ 1 (the program passes 20), longer output is the first max lines, a blank line, the marker, a blank line, and the last max lines, all joined by `\n`. The omitted count k is at least 1, and max + k + max is the number of lines |
| Output.FallbackLines | src/output.rs:51-66 | split into lines again, the cut text is the kept lines with `""`, the marker and `""` between them, so every kept line survives whole |
| Output.SixtyLinesOmitted | src/output.rs:108-118 | with 100 lines and 20 kept at each end, the marker reads `... (60 lines omitted) ...` |
| Output.GeneratedNameStaysInDirectory | src/output.rs:44-46 | joining a generated name to the output directory gives `/tmp/ctx_guard/<name>`: the name never replaces the directory |
| Output.OutputStore.EnsureOutputDir | src/output.rs:14-20 | the directory exists afterwards unless it was missing and could not be created, which is the only error. No file changes, and after an error there are no files, because none exist outside the directory |
| Output.OutputStore.WriteOutputFile | src/output.rs:44-49 | on success the directory exists, the returned path is the output directory joined with the name, that entry holds exactly the content, and no other entry changes. If the directory cannot be made or the file cannot be opened, no file changes. If the write fails after the open, that entry holds the prefix of the content that was written (possibly empty, because the open truncates), and no other entry changes |
| Output.WrittenPart | src/output.rs:47 | the part of the content that reaches the file is a prefix of it, and it is all of it when the write completes |
| Configuration.DefaultsForEveryCommand | src/config.rs:99-149 | without overrides every command gets 100 summary words and a threshold of 100, and no command is disabled. Clean-up is 5 days and the recent-commands window is 0 minutes |
| Configuration.DefaultConfig | src/config.rs:134-150 | `Config::default`. `DefaultsForEveryCommand` states what it gives every command: 100 words, threshold 100, not disabled, 5 clean-up days and a 0-minute window |
| Configuration.DefaultProvider | src/config.rs:34-45 | `ProviderConfig::default`: the default settings around `DefaultPrompt()`. `DefaultProviderSettings` states those settings |
| Configuration.DefaultProviderSettings | src/config.rs:34-105 | the default provider is `lmstudio` at `http://127.0.0.1:1234` with model `local-model`. It uses the prompt it is given, and 100 words for both the summary length and the threshold |
| Configuration.GetSummaryWords | src/config.rs:175-184 | a `summary_words` override gives its own value; a `Disabled` entry or a missing entry gives the provider's value |
| Configuration.GetOutputLengthThreshold | src/config.rs:189-194 | the threshold is the larger of the configured threshold and the command's summary length: never below either, and equal to one of them |
| Configuration.IsCommandDisabled | src/config.rs:196-203 | a command is disabled exactly when its entry is `Disabled(false)`; `true` or a missing entry is not |
| Configuration.LookupsAreLocal | src/config.rs:176-197 | adding an entry for another command changes none of the three lookups for this one |
| Configuration.OverrideRaisesThreshold | src/config.rs:357-381 | a provider with 50 words and threshold 75, and a 200-word override for `npx jest`: that command gets 200 words and threshold 200, and other commands get 50 and 75 |
| Configuration.StatusWord | src/config.rs:212 | the word is `succeeded` exactly for exit code 0, and `failed` otherwise |
| Configuration.RecentCommandsText | src/config.rs:206-220 | the block is empty exactly when there is no list or the list is empty |
| Configuration.RecentEntries | src/config.rs:210-215 | one `- <cmd>, <status>` entry per command, in order |
| Configuration.RecentCommandsLines | src/config.rs:216 | read back line by line, the block is `recently run commands:`, one entry line per command in order, and an empty line |
| Configuration.FormatPrompt | src/config.rs:205-228 | the recent-commands block, then five `replace` calls in turn. `FormatPromptReplacesInOrder` gives that order, `TemplatePromptFilled` the result for a template, and `PromptWithoutPlaceholders` and `SubstitutionIsSequential` the edge cases |
| Configuration.PromptWithoutPlaceholders | src/config.rs:222-227 | a prompt with no `${` is sent unchanged |
| Configuration.SubstitutionIsSequential | src/config.rs:222-227 | the substitutions run in turn: with the prompt `${command}` and the command `${output}`, the prompt sent is the output |
| Configuration.FormatPromptReplacesInOrder | src/config.rs:222-227 | `format_prompt` replaces the placeholders one after another, in the order recent commands, command, exit code, output, summary words |
| Configuration.PlaceholdersAreDistinct | src/config.rs:223-227 | each of the five placeholders starts with `${` and holds no separator, and none contains a placeholder replaced before it |
| Configuration.ReplaceInterleave | src/config.rs:222-227 | replacing a placeholder in a template rewrites only the values and leaves the literal pieces alone |
| Configuration.FillTemplate | src/config.rs:222-227 | substituting the remaining placeholders in order, into a partly filled template whose values hold no `${`, gives the template with every value in its place |
| Configuration.TemplatePromptFilled | src/config.rs:205-228 | for any six-piece template, when the command, output and recent block hold no `${`, the prompt sent is the template with the recent block, command, exit code, output and summary length in their places, and no `${` is left |
| Configuration.TemplatePromptMentions | src/config.rs:205-228 | for such a template, the prompt sent contains each of the five values and none of the five placeholders |
| Configuration.DefaultPrompt | src/config.rs:59-97 | the default prompt's text. `PromptWithIsFillable` shows it is six literal pieces around the five placeholders, `DefaultGuidelinesShape` gives the shape of the guidelines, and `DefaultPromptHasPlaceholders` shows every placeholder appears |
| Configuration.PromptWithIsFillable | src/config.rs:59-97 | the default prompt's text is six literal pieces around the five placeholders, in substitution order |
| Configuration.DefaultGuidelinesShape | src/config.rs:70-96 | the default guidelines hold no `$` and start with a space |
| Configuration.DefaultPromptHasPlaceholders | src/config.rs:244-255 | the default prompt contains each of the five placeholders |
| Configuration.DefaultPromptFilled | src/config.rs:268-281 | with the default prompt, the prompt sent is written out: the introduction, recent block, command label, command, exit-code label, exit code, output label, output, summary label and summary length, then the guidelines. No `${` is left |
| Configuration.PromptWithMentions | src/config.rs:268-298 | with the default prompt's text, the prompt sent contains the recent block, the command, the exit code, the output and the summary length, and none of the placeholders |
| Cli.RecentForPrompt | src/main.rs:80-89 | recent commands are passed exactly when the window is on and the lookup found something. They are then the (command, exit code) pairs in lookup order |
| Cli.RecentBlockOnlyWhenEnabled | src/main.rs:80-89 | the prompt's recent block is empty exactly when the window is off or nothing was found. With the window off, the lookup's answer does not matter |
| Cli.OutputWordCount | src/main.rs:101 | the word count wraps at 2^32 and is the true count below that |
| Cli.NeedsSummary | src/main.rs:93-103 | the output is not blank and, once trimmed, has more words than the threshold. `DecideSummary`'s contract says a request is made exactly then |
| Cli.DecideSummary | src/main.rs:93-143 | a request is made exactly when the output is not blank and its trimmed word count exceeds the threshold. That request carries the provider's URL and model and the prompt built from the untrimmed output |
| Cli.ReplyIgnoredWithoutRequest | src/main.rs:93-117 | when no request is made, the model's reply does not affect the decision |
| Cli.RecentUnusedWithoutRequest | src/main.rs:93-117 | when no request is made, the recent commands do not affect the decision |
| Cli.NoOutputSummary | src/main.rs:93-98 | the blank-output sentence. `BlankOutputSummary` spells out both wordings |
| Cli.RawOutputSummary | src/main.rs:100-116 | the short-output summary. `ShortOutputSummary` spells it out, and `StatusFollowsExitCode` gives its status word |
| Cli.FallbackSummary | src/main.rs:126-140 | the summary when the model gives no answer. `LongOutputFallback` spells it out, and `StatusFollowsExitCode` gives its status word |
| Cli.BlankOutputSummary | src/main.rs:93-98 | blank output gives `Command completed successfully in D seconds with no output.` for exit code 0, and `Command failed after D seconds with exit code E and no output.` otherwise. No request is made |
| Cli.ShortOutputSummary | src/main.rs:100-116 | short output gives `<cmd> <status> after D seconds (output shorter than T words; returning raw output):` and a blank line, ending with the whole trimmed output. No request is made |
| Cli.LongOutputAnswered | src/main.rs:117-125 | long output makes one request whose prompt is `format_prompt` over the untrimmed output with the command's summary length; the reply is the summary verbatim |
| Cli.LongOutputFallback | src/main.rs:126-140 | with no reply, the summary is `<cmd> <status> after D seconds. Output:` and a blank line, followed by the fallback truncation at 20 lines; output of at most 40 lines follows whole |
| Cli.StatusFollowsExitCode | src/main.rs:104-108 | both summaries that report a status start with `<cmd> <status> after`, and the status is `succeeded` exactly for a successful result |
| Cli.Run | src/main.rs:24-163 | a disabled command is never attempted, and a summary is produced only together with a file name. `DisabledCommandRefused`, `ExitCodePassedThrough` and `EarlyExits` give the exit code of every run |
| Cli.AfterExecution | src/main.rs:57-163 | once the command has run, the program exits with the command's exit code when the record was written, and otherwise exits with 1 without summarizing |
| Cli.DisabledCommandRefused | src/main.rs:41-44 | a disabled command is never run and the program exits with 1, whatever the environment would have answered |
| Cli.ExitCodePassedThrough | src/main.rs:147-163 | the program reaches the summary exactly when the command is allowed, not blank, started, and its record written. It then exits with the wrapped command's own code and names the record with the generated file name. A failed summary update changes nothing |
| Cli.EarlyExits | src/main.rs:41-72 | every other run exits with 1. The shell is asked to run the command exactly when it is allowed and not blank |
| Text.Trim | src/main.rs:93 | `trim` is empty exactly for blank text, and otherwise starts and ends with non-whitespace. `TrimIsInnerSlice` shows it is a slice of the input with only whitespace around it |
| Text.TrimStart | src/main.rs:93 | `trim_start` gives a suffix of the input whose dropped prefix is blank, and it does not start with whitespace |
| Text.TrimEnd | src/main.rs:93 | `trim_end` gives a prefix of the input whose dropped suffix is blank, and it does not end with whitespace |
| Text.TrimIsInnerSlice | src/main.rs:93-100 | the trimmed text is a contiguous slice of the input, with a blank run before it and a blank run after it |
| Text.Words | src/main.rs:101 | every word of `split_whitespace` is non-empty and holds no whitespace. `WordsOfJoin` shows the words are the maximal runs, and `NoWordsIffBlank` and `WordsOfTrim` relate them to the text |
| Text.WordsOfTrim | src/main.rs:100-101 | trimming never changes the words, so the count over the trimmed output is the count over the whole output |
| Text.WordsOfJoin | src/main.rs:101 | words joined by the same non-empty blank separator between each pair split back into exactly those words, in order |
| Text.NoWordsIffBlank | src/main.rs:100-101 | text has no whitespace-separated words exactly when it is blank |
| Text.Lines | src/output.rs:52 | `lines` is empty exactly for empty text. `LinesCrLf` and `LinesFinalNewline` give its line endings, and `LinesOfJoin`, `LinesOfTerminatedJoin` and `JoinOfLines` pair it with `Join` |
| Text.LinesCrLf | src/output.rs:52 | `\r\n` ends a line just as `\n` does, and the `\r` is dropped from the line |
| Text.LinesFinalNewline | src/output.rs:52 | a final `\n` adds no empty line after a text that does not already end in `\n` or `\r` |
| Text.LinesOfTerminatedJoin | src/output.rs:52 | lines without `\n` or a final `\r`, joined with `\n` and closed by one more `\n`, come back from `lines`, so the closing `\n` adds no empty line |
| Text.Join | src/output.rs:63-65 | `join` with a separator. `LinesOfJoin` and `JoinOfLines` show it undoes `lines` and is undone by it |
| Text.LinesOfJoin | src/output.rs:52-65 | lines without `\n`, none but the last ending in `\r` and the last one not empty, come back from `lines` after joining with `\n` |
| Text.JoinOfLines | src/output.rs:52-55 | joining with `\n` the lines of a text that has no `\r` and does not end in a newline gives back the text |
| Text.ReplaceCharIsMap | src/output.rs:24-36 | replacing a one-character pattern by a one-character string maps each character on its own |
| Text.Replace | src/config.rs:222-227 | `replace`, left to right and without overlaps. `ReplaceCharIsMap`, `ReplaceAbsent` and `ReplaceWhole` state what it does |
| Text.ReplaceAbsent | src/config.rs:222-227 | a text without the pattern is left as it is |
| Text.ReplaceWhole | src/config.rs:222-227 | a text that is exactly the pattern becomes exactly the replacement |
| Text.NatToStringValue | src/config.rs:227 | the decimal text of a number reads back as that number |
| Text.NatToString | src/config.rs:227 | `u32::to_string` is non-empty and all digits, with a leading `0` only for 0. `NatToStringValue` reads it back |
| Text.IntToString | src/config.rs:225 | `i32::to_string` is digits after an optional `-`, and the `-` is there exactly for a negative number. `IntToStringValue` gives its value |
| Text.IntToStringValue | src/config.rs:225 | the text reads back as the number: the digits alone when it is not negative, and the digits after the `-` give its magnitude otherwise |
| Text.PadDigitsValue | src/output.rs:23 | a zero-padded field of a number that fits in the width reads back as the number |
| Text.PadDigits | src/output.rs:23 | a field of exactly the given width, all digits. `PadDigitsValue` reads it back when the number fits |

## Left out

- Configuration loading is not modelled: reading and creating `~/.ctx_guard/config.toml`, the home directory, and TOML/serde decoding of overrides (src/config.rs:153-173, 231-237). This is file I/O and a foreign library. `Run` takes the configuration as loaded, and the fallback to defaults after a load error (src/main.rs:29-35) is not modelled.
- Process spawning is not modelled: `sh -c`, the Windows `cmd /C` branch, and `from_utf8_lossy` decoding. This is operating-system I/O. The shell's outcome is a parameter, and its streams are already text.
- The language-model client (src/llm.rs) is not part of this model. Its reply, or the lack of one, is a parameter, and the decision records the request sent.
- Durations and their `{:.1}` formatting (src/main.rs:47-55) are left out, because they involve clocks and floating point. The formatted duration is an opaque string.
- `Local::now()` is left out, because it is a clock. The time is a `Timestamp` parameter. Years past 9999 are excluded, because chrono prints them with a sign.
- Four helpers called from src/main.rs:5-147 are not part of this model:
  - `cleanup_old_files`;
  - `get_recent_commands`;
  - the three-argument `write_output_file` with `CommandMetadata`;
  - `update_output_file_summary`.

  Their definitions are not in the source files modelled. Their outcomes are parameters: the lookup's answer, and whether the record or summary could be written. Their bodies are not invented.
- Argument parsing, printing and the `DEBUG` block (src/main.rs:10-26, 151-160) are left out apart from the exit code. These are I/O. `args` are joined with single spaces.
- Races between concurrent runs on the output directory are left out. This is a concurrency concern.
- The evaluation scripts, script.py, the failing fixture, and tests/integration_test.rs are left out. They are external harnesses.
- Configuration.DefaultPromptFilled: stated only when the command, output and recent-commands text hold no `${`. Because the substitutions run in turn, a value holding a later placeholder is rewritten; `SubstitutionIsSequential` shows it.
- Configuration.TemplatePromptFilled: the same restriction; its partner lemmas about containment carry it too.
- Configuration.PromptWithMentions: the same restriction, stated for the default text with any guidelines of its shape; `DefaultGuidelinesShape` shows that the default guidelines have it.
- Configuration.RecentCommandsLines: stated only for commands without `\n`. A command holding a line break would add lines.
- Output.FallbackLines: stated only for output without `\r` whose last line is not empty. `lines` drops a `\r` and a final empty line, so such output does not split back into the same lines.

## Behaviour worth knowing

The model keeps these details of the code:

- Fallback preamble. When the model gives no answer, the summary starts with `<cmd> <status> after D seconds. Output:`. This preamble is not the one used for short output (src/main.rs:104-108, 134).
- Short output. Output at or under the threshold is returned trimmed, not byte for byte (src/main.rs:100, 115).
- Combined output. Whenever stderr is non-empty, the combined text is stdout + `\n` + stderr, even when stdout is empty (src/executor.rs:21-25).
- Exit code. The wrapped command's exit code is passed through only when the record is written. The program exits with 1 in four cases: the command is disabled, the shell cannot start, the command is blank, or the record cannot be written (src/main.rs:41-72).
- Disabled commands. A disabled command is refused, not run, and nothing is recorded for it (src/main.rs:41-44).
