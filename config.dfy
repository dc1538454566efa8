/** Per-command configuration and the summarization prompt
    (src/config.rs): the default settings, the per-command override
    lookups, and `format_prompt`'s placeholder substitution. */
module Configuration {
  import opened Prelude
  import opened Text

  // ----------------------------------------------------------------------
  // Settings

  /** A per-command entry: `command = false` / `command = true`, or a
      summary length of its own. */
  datatype CommandOverride = Disabled(flag: bool) | SummaryWords(summaryWords: u32)

  /** The `[provider]` table. `kind` is the TOML key `type`. */
  datatype ProviderConfig = ProviderConfig(
    kind: string,
    url: string,
    model: string,
    prompt: string,
    summaryWords: u32,
    outputLengthThreshold: u32)

  datatype Config = Config(
    provider: ProviderConfig,
    commands: map<string, CommandOverride>,
    cleanUpDays: u32,
    commandContextMinutes: u32)

  const DEFAULT_PROVIDER_TYPE: string := "lmstudio"
  const DEFAULT_PROVIDER_URL: string := "http://127.0.0.1:1234"
  const DEFAULT_MODEL: string := "local-model"
  const DEFAULT_SUMMARY_WORDS: u32 := 100
  /** The threshold defaults to the summary length. */
  const DEFAULT_OUTPUT_LENGTH_THRESHOLD: u32 := DEFAULT_SUMMARY_WORDS
  const DEFAULT_CLEAN_UP_DAYS: u32 := 5
  /** Recent commands are left out of the prompt unless this is set. */
  const DEFAULT_COMMAND_CONTEXT_MINUTES: u32 := 0

  /** `ProviderConfig::default`. */
  function DefaultProvider(): ProviderConfig {
    DefaultProviderWith(DefaultPrompt())
  }

  /** The default provider settings around a given prompt, so that facts
      about the settings need not unfold the default prompt's text. */
  function DefaultProviderWith(prompt: string): ProviderConfig {
    ProviderConfig(DEFAULT_PROVIDER_TYPE, DEFAULT_PROVIDER_URL, DEFAULT_MODEL, prompt,
                   DEFAULT_SUMMARY_WORDS, DEFAULT_OUTPUT_LENGTH_THRESHOLD)
  }

  /** `Config::default`: the default provider and no per-command entries. */
  function DefaultConfig(): Config {
    Config(DefaultProvider(), map[], DEFAULT_CLEAN_UP_DAYS, DEFAULT_COMMAND_CONTEXT_MINUTES)
  }

  /** Without overrides every command gets the default summary length,
      which is also its threshold, and no command is disabled. */
  lemma DefaultsForEveryCommand(command: string)
    ensures GetSummaryWords(DefaultConfig(), command) == 100
    ensures GetOutputLengthThreshold(DefaultConfig(), command) == 100
    ensures !IsCommandDisabled(DefaultConfig(), command)
    ensures DefaultConfig().cleanUpDays == 5 && DefaultConfig().commandContextMinutes == 0
  {
  }

  /** The default provider talks to LM Studio on the local machine, with a
      summary length of 100 words that is also its threshold. */
  lemma DefaultProviderSettings(prompt: string)
    ensures var p := DefaultProviderWith(prompt);
      p.kind == "lmstudio" && p.url == "http://127.0.0.1:1234" && p.model == "local-model"
      && p.prompt == prompt && p.summaryWords == 100 && p.outputLengthThreshold == 100
  {
  }

  // ----------------------------------------------------------------------
  // Override lookups

  /** `get_summary_words`: the override's own length when the command
      has one, the provider's otherwise (a `Disabled` entry included). */
  function GetSummaryWords(config: Config, command: string): (n: u32)
    ensures (command in config.commands && config.commands[command].SummaryWords?)
      ==> n == config.commands[command].summaryWords
    ensures !(command in config.commands && config.commands[command].SummaryWords?)
      ==> n == config.provider.summaryWords
  {
    if command in config.commands then
      match config.commands[command]
      case Disabled(_) => config.provider.summaryWords
      case SummaryWords(n) => n
    else config.provider.summaryWords
  }

  /** `get_output_length_threshold`: the larger of the configured
      threshold and the command's summary length. */
  function GetOutputLengthThreshold(config: Config, command: string): (t: u32)
    ensures t >= config.provider.outputLengthThreshold && t >= GetSummaryWords(config, command)
    ensures t == config.provider.outputLengthThreshold || t == GetSummaryWords(config, command)
  {
    var summaryWords := GetSummaryWords(config, command);
    if config.provider.outputLengthThreshold >= summaryWords then config.provider.outputLengthThreshold
    else summaryWords
  }

  /** `is_command_disabled`: only an entry `command = false` disables. */
  function IsCommandDisabled(config: Config, command: string): (disabled: bool)
    ensures disabled <==> command in config.commands && config.commands[command] == Disabled(false)
  {
    command in config.commands && config.commands[command].Disabled? && !config.commands[command].flag
  }

  /** The lookups for a command see only that command's own entry: an
      entry added for another command changes none of them. */
  lemma LookupsAreLocal(config: Config, command: string, other: string, entry: CommandOverride)
    requires other != command
    ensures var updated := config.(commands := config.commands[other := entry]);
      GetSummaryWords(updated, command) == GetSummaryWords(config, command)
      && GetOutputLengthThreshold(updated, command) == GetOutputLengthThreshold(config, command)
      && IsCommandDisabled(updated, command) == IsCommandDisabled(config, command)
  {
  }

  /** An override of 200 words for `npx jest` on a provider with 50 words
      and a threshold of 75: that command gets 200 words and a threshold
      of 200, any other command 50 and 75. */
  lemma OverrideRaisesThreshold(config: Config, other: string)
    requires config.provider.summaryWords == 50 && config.provider.outputLengthThreshold == 75
    requires config.commands == map["npx jest" := SummaryWords(200)]
    requires other != "npx jest"
    ensures GetSummaryWords(config, "npx jest") == 200
    ensures GetOutputLengthThreshold(config, "npx jest") == 200
    ensures GetSummaryWords(config, other) == 50 && GetOutputLengthThreshold(config, other) == 75
  {
  }

  // ----------------------------------------------------------------------
  // Recent commands

  /** The outcome word for an exit code. */
  function StatusWord(exitCode: i32): (w: string)
    ensures w == "succeeded" <==> exitCode == 0
    ensures w == "succeeded" || w == "failed"
  {
    if exitCode == 0 then "succeeded" else "failed"
  }

  /** One entry of the recent-commands list. */
  function RecentEntry(entry: (string, i32)): string {
    "- " + entry.0 + ", " + StatusWord(entry.1)
  }

  const RECENT_COMMANDS_HEADER: string := "recently run commands:"

  /** The block that replaces `${recent_commands}`: empty when there is no
      list or the list is empty, otherwise a header line, one line per
      command in order, and a blank line. */
  function RecentCommandsText(recent: Option<seq<(string, i32)>>): (text: string)
    ensures text == [] <==> recent.None? || recent.value == []
  {
    match recent
    case None => ""
    case Some(commands) =>
      if commands == [] then ""
      else
        RECENT_COMMANDS_HEADER + "\n" + Join(RecentEntries(commands), "\n") + "\n\n"
  }

  /** One entry per recent command, in order. */
  function RecentEntries(commands: seq<(string, i32)>): (entries: seq<string>)
    ensures |entries| == |commands|
    ensures forall i :: 0 <= i < |commands| ==> entries[i] == RecentEntry(commands[i])
  {
    seq(|commands|, i requires 0 <= i < |commands| => RecentEntry(commands[i]))
  }

  /** Read back line by line, the block is the header, one `- command,
      status` line per entry in order, and a blank line, provided no
      command holds a line break. */
  lemma RecentCommandsLines(commands: seq<(string, i32)>)
    requires commands != []
    requires forall i :: 0 <= i < |commands| ==> '\n' !in commands[i].0
    ensures Lines(RecentCommandsText(Some(commands)))
      == [RECENT_COMMANDS_HEADER] + RecentEntries(commands) + [""]
  {
    var entries := RecentEntries(commands);
    forall j | 0 <= j < |entries|
      ensures '\n' !in entries[j] && entries[j][|entries[j]| - 1] != '\r'
    {
      EntryHasNoBreak(commands[j]);
    }
    assert '\n' !in RECENT_COMMANDS_HEADER && RECENT_COMMANDS_HEADER[|RECENT_COMMANDS_HEADER| - 1] == ':';
    RecentBlockLines(RECENT_COMMANDS_HEADER, entries);
  }

  /** A header line, lines, and a blank line, read back. */
  lemma RecentBlockLines(header: string, entries: seq<string>)
    requires entries != []
    requires '\n' !in header && header != [] && header[|header| - 1] != '\r'
    requires forall j :: 0 <= j < |entries| ==> '\n' !in entries[j]
    requires forall j :: 0 <= j < |entries| ==> entries[j] != [] && entries[j][|entries[j]| - 1] != '\r'
    ensures Lines(header + "\n" + Join(entries, "\n") + "\n\n") == [header] + entries + [""]
  {
    var all := [header] + entries + [""];
    forall j | 0 <= j < |all|
      ensures '\n' !in all[j] && (all[j] == [] || all[j][|all[j]| - 1] != '\r')
    {
      if 1 <= j <= |entries| {
        assert all[j] == entries[j - 1];
      }
    }
    BlockIsTerminatedJoin(header, entries);
    LinesOfTerminatedJoin(all);
  }

  lemma BlockIsTerminatedJoin(header: string, entries: seq<string>)
    requires entries != []
    ensures header + "\n" + Join(entries, "\n") + "\n\n" == Join([header] + entries + [""], "\n") + "\n"
  {
    JoinCons(header, entries + [""], "\n");
    JoinAppend(entries, [""], "\n");
    assert [header] + (entries + [""]) == [header] + entries + [""];
    assert Join([""], "\n") == "";
  }

  lemma EntryHasNoBreak(entry: (string, i32))
    requires '\n' !in entry.0
    ensures '\n' !in RecentEntry(entry)
    ensures RecentEntry(entry) != [] && RecentEntry(entry)[|RecentEntry(entry)| - 1] != '\r'
  {
    var w := StatusWord(entry.1);
    assert RecentEntry(entry)[|RecentEntry(entry)| - 1] == w[|w| - 1];
  }

  // ----------------------------------------------------------------------
  // Prompt templating

  /** `${name}`, the form of every placeholder in a prompt template. */
  function Placeholder(name: string): (p: string)
    ensures |p| == |name| + 3 && p[0] == '$' && p[1] == '{' && p[|p| - 1] == '}'
  {
    "${" + name + "}"
  }

  /** A placeholder name: not empty, and without `$`, `}` or separators. */
  predicate IsPlaceholderName(name: string) {
    name != [] && '$' !in name && '}' !in name && ' ' !in name && '\n' !in name
  }

  const RECENT_COMMANDS_PLACEHOLDER: string := Placeholder("recent_commands")
  const COMMAND_PLACEHOLDER: string := Placeholder("command")
  const EXIT_CODE_PLACEHOLDER: string := Placeholder("exit_code")
  const OUTPUT_PLACEHOLDER: string := Placeholder("output")
  const SUMMARY_WORDS_PLACEHOLDER: string := Placeholder("summary_words")

  /** `format_prompt`: builds the recent-commands block, then replaces
      every occurrence of each placeholder in turn, each replacement
      working on the text the previous one produced. */
  function FormatPrompt(config: Config, command: string, exitCode: i32, output: string,
                        summaryWords: u32, recent: Option<seq<(string, i32)>>): string
  {
    var recentText := RecentCommandsText(recent);
    Replace(Replace(Replace(Replace(Replace(config.provider.prompt,
      RECENT_COMMANDS_PLACEHOLDER, recentText),
      COMMAND_PLACEHOLDER, command),
      EXIT_CODE_PLACEHOLDER, IntToString(exitCode)),
      OUTPUT_PLACEHOLDER, output),
      SUMMARY_WORDS_PLACEHOLDER, NatToString(summaryWords))
  }

  /** A prompt without any `${` is sent as it is. */
  lemma PromptWithoutPlaceholders(config: Config, command: string, exitCode: i32, output: string,
                                  summaryWords: u32, recent: Option<seq<(string, i32)>>)
    requires !Contains(config.provider.prompt, "${")
    ensures FormatPrompt(config, command, exitCode, output, summaryWords, recent) == config.provider.prompt
  {
    var p := config.provider.prompt;
    NoPlaceholderLeft(p);
    ReplaceAbsent(p, RECENT_COMMANDS_PLACEHOLDER, RecentCommandsText(recent));
    ReplaceAbsent(p, COMMAND_PLACEHOLDER, command);
    ReplaceAbsent(p, EXIT_CODE_PLACEHOLDER, IntToString(exitCode));
    ReplaceAbsent(p, OUTPUT_PLACEHOLDER, output);
    ReplaceAbsent(p, SUMMARY_WORDS_PLACEHOLDER, NatToString(summaryWords));
  }

  /** A text without `${` holds none of the five placeholders. */
  lemma NoPlaceholderLeft(s: string)
    requires !Contains(s, "${")
    ensures !Contains(s, RECENT_COMMANDS_PLACEHOLDER) && !Contains(s, COMMAND_PLACEHOLDER)
    ensures !Contains(s, EXIT_CODE_PLACEHOLDER) && !Contains(s, OUTPUT_PLACEHOLDER)
    ensures !Contains(s, SUMMARY_WORDS_PLACEHOLDER)
  {
    NotContainsExtension(s, "${", RECENT_COMMANDS_PLACEHOLDER);
    NotContainsExtension(s, "${", COMMAND_PLACEHOLDER);
    NotContainsExtension(s, "${", EXIT_CODE_PLACEHOLDER);
    NotContainsExtension(s, "${", OUTPUT_PLACEHOLDER);
    NotContainsExtension(s, "${", SUMMARY_WORDS_PLACEHOLDER);
  }

  /** The substitutions run one after another, not at once: a command
      that itself reads `${output}` is replaced by the output in turn. */
  lemma SubstitutionIsSequential(config: Config, output: string)
    requires config.provider.prompt == COMMAND_PLACEHOLDER
    requires !Contains(output, "${")
    ensures FormatPrompt(config, OUTPUT_PLACEHOLDER, 0, output, 0, None) == output
  {
    ReplaceShort(COMMAND_PLACEHOLDER, RECENT_COMMANDS_PLACEHOLDER, "");
    ReplaceWhole(COMMAND_PLACEHOLDER, OUTPUT_PLACEHOLDER);
    ReplaceShort(OUTPUT_PLACEHOLDER, EXIT_CODE_PLACEHOLDER, "0");
    ReplaceWhole(OUTPUT_PLACEHOLDER, output);
    NoPlaceholderLeft(output);
    ReplaceAbsent(output, SUMMARY_WORDS_PLACEHOLDER, "0");
  }

  // ----------------------------------------------------------------------
  // Templates: literal text between placeholders

  /** `ls[0] + vs[0] + ls[1] + ... + vs[n-1] + ls[n]`. */
  function Interleave(ls: seq<string>, vs: seq<string>): string
    requires |ls| == |vs| + 1
    decreases |vs|
  {
    if vs == [] then ls[0] else ls[0] + vs[0] + Interleave(ls[1..], vs[1..])
  }

  predicate IsSeparator(c: char) {
    c == ' ' || c == '\n'
  }

  /** Literal pieces without `$`, each one ending before a placeholder in
      a space or newline and each one starting after a placeholder with
      one, so no occurrence of a placeholder spans two pieces. */
  predicate IsTemplateText(ls: seq<string>) {
    ls != []
    && (forall i :: 0 <= i < |ls| ==> '$' !in ls[i])
    && (forall i :: 0 <= i < |ls| - 1 ==> ls[i] != [] && IsSeparator(ls[i][|ls[i]| - 1]))
    && (forall i :: 1 <= i < |ls| ==> ls[i] != [] && IsSeparator(ls[i][0]))
  }

  /** A placeholder-like pattern: it starts with `$` and holds no separator. */
  predicate IsPlaceholder(pat: string) {
    pat != [] && pat[0] == '$' && ' ' !in pat && '\n' !in pat
  }

  function ReplaceEach(vs: seq<string>, pat: string, rep: string): (r: seq<string>)
    ensures |r| == |vs| && forall i :: 0 <= i < |vs| ==> r[i] == Replace(vs[i], pat, rep)
  {
    seq(|vs|, i requires 0 <= i < |vs| => Replace(vs[i], pat, rep))
  }

  lemma TemplateTail(ls: seq<string>)
    requires IsTemplateText(ls) && |ls| > 1
    ensures IsTemplateText(ls[1..])
  {
    var t := ls[1..];
    forall i | 0 <= i < |t| - 1
      ensures t[i] != [] && IsSeparator(t[i][|t[i]| - 1])
    {
      assert t[i] == ls[i + 1];
    }
  }

  /** A template with more than one piece starts with its first piece. */
  lemma InterleaveStart(ls: seq<string>, vs: seq<string>)
    requires |ls| == |vs| + 1 && ls[0] != []
    ensures Interleave(ls, vs) != [] && Interleave(ls, vs)[0] == ls[0][0]
  {
  }

  /** Replacing a placeholder in a template replaces it inside each
      substituted value and leaves the literal pieces alone. */
  lemma {:induction false} ReplaceInterleave(ls: seq<string>, vs: seq<string>, pat: string, rep: string)
    requires |ls| == |vs| + 1 && IsTemplateText(ls) && IsPlaceholder(pat)
    ensures Replace(Interleave(ls, vs), pat, rep) == Interleave(ls, ReplaceEach(vs, pat, rep))
    decreases |vs|
  {
    FirstCharAbsent(ls[0], pat);
    ReplaceAbsent(ls[0], pat, rep);
    if vs != [] {
      var rest := Interleave(ls[1..], vs[1..]);
      TemplateTail(ls);
      InterleaveStart(ls[1..], vs[1..]);
      assert ls[1..][0] == ls[1];
      ReplaceAppend(ls[0] + vs[0], rest, pat, rep);
      ReplaceAppend(ls[0], vs[0], pat, rep);
      ReplaceInterleave(ls[1..], vs[1..], pat, rep);
      var r := ReplaceEach(vs, pat, rep);
      assert r[1..] == ReplaceEach(vs[1..], pat, rep);
    }
  }

  /** A template whose values hold no `${` holds no `${` either. */
  lemma {:induction false} InterleaveHasNoDollarBrace(ls: seq<string>, vs: seq<string>)
    requires |ls| == |vs| + 1 && IsTemplateText(ls)
    requires forall i :: 0 <= i < |vs| ==> !Contains(vs[i], "${")
    ensures !Contains(Interleave(ls, vs), "${")
    decreases |vs|
  {
    FirstCharAbsent(ls[0], "${");
    if vs != [] {
      var rest := Interleave(ls[1..], vs[1..]);
      TemplateTail(ls);
      InterleaveStart(ls[1..], vs[1..]);
      assert ls[1..][0] == ls[1];
      InterleaveHasNoDollarBrace(ls[1..], vs[1..]);
      NotContainsAppend(ls[0], vs[0], "${");
      assert ls[0] + vs[0] != [];
      NotContainsAppend(ls[0] + vs[0], rest, "${");
    }
  }

  /** A template of six pieces written out. */
  lemma InterleaveSix(ls: seq<string>, vs: seq<string>)
    requires |ls| == 6 && |vs| == 5
    ensures Interleave(ls, vs)
      == ls[0] + vs[0] + (ls[1] + vs[1] + (ls[2] + vs[2] + (ls[3] + vs[3] + (ls[4] + vs[4] + ls[5]))))
  {
    var l1, v1 := ls[1..], vs[1..];
    var l2, v2 := l1[1..], v1[1..];
    var l3, v3 := l2[1..], v2[1..];
    var l4, v4 := l3[1..], v3[1..];
    var l5, v5 := l4[1..], v4[1..];
    assert l5[0] == ls[5] && v5 == [];
    assert Interleave(l4, v4) == ls[4] + vs[4] + ls[5];
    assert Interleave(l3, v3) == ls[3] + vs[3] + Interleave(l4, v4);
    assert Interleave(l2, v2) == ls[2] + vs[2] + Interleave(l3, v3);
    assert Interleave(l1, v1) == ls[1] + vs[1] + Interleave(l2, v2);
  }

  // ----------------------------------------------------------------------
  // The default prompt

  /** The default prompt's opening paragraph, up to the recent-commands block. */
  function PromptIntro(): (s: string)
    ensures '$' !in s
    ensures s != [] && s[|s| - 1] == '\n'
  {
    "You are a"
    + " command output"
    + " analyzer that"
    + " provides"
    + " concise,"
    + " actionable"
    + " summaries for"
    + " AI agents.\n\n"
  }

  /** The default prompt's text between the recent-commands block and the command. */
  function PromptCommandLabel(): (s: string)
    ensures '$' !in s
    ensures s != [] && s[0] == '\n' && s[|s| - 1] == ' '
  {
    "\n\nCommand"
    + " executed: "
  }

  /** The default prompt's text between the command and the exit code. */
  function PromptExitCodeLabel(): (s: string)
    ensures '$' !in s
    ensures s != [] && s[0] == '\n' && s[|s| - 1] == ' '
  {
    "\nExit code: "
  }

  /** The default prompt's text between the exit code and the output. */
  function PromptOutputLabel(): (s: string)
    ensures '$' !in s
    ensures s != [] && s[0] == '\n' && s[|s| - 1] == '\n'
  {
    "\nOutput:\n\n"
  }

  /** The default prompt's text between the output and the summary length. */
  function PromptSummaryLabel(): (s: string)
    ensures '$' !in s
    ensures s != [] && s[0] == '\n' && s[|s| - 1] == ' '
  {
    "\n\nGenerate a"
    + " summary in "
  }

  function GuidelinesOpeningLine0(): (s: string)
    ensures '$' !in s
    ensures s != [] && s[0] == ' '
  {
    " words or less"
    + " following these"
    + " guidelines:\n"
  }

  function GuidelinesOpeningLine1(): (s: string)
    ensures '$' !in s
  {
    "\n"
  }

  function GuidelinesOpening(): (s: string)
    ensures '$' !in s
    ensures s != [] && s[0] == ' '
  {
    GuidelinesOpeningLine0() + GuidelinesOpeningLine1()
  }

  function GuidelinesPrioritizeLine0(): (s: string)
    ensures '$' !in s
  {
    "1. PRIORITIZE"
    + " ACTIONABLE"
    + " INFORMATION:\n"
  }

  function GuidelinesPrioritizeLine1(): (s: string)
    ensures '$' !in s
  {
    "   - If the"
    + " command failed,"
    + " identify the"
    + " root cause and"
    + " suggest"
    + " specific fixes\n"
  }

  function GuidelinesPrioritizeLine2(): (s: string)
    ensures '$' !in s
  {
    "   - Include"
    + " relevant file"
    + " paths, line"
    + " numbers, or"
    + " error codes"
    + " when available\n"
  }

  function GuidelinesPrioritizeLine3(): (s: string)
    ensures '$' !in s
  {
    "   - Highlight"
    + " what needs"
    + " attention vs."
    + " what succeeded\n"
  }

  function GuidelinesPrioritizeLine4(): (s: string)
    ensures '$' !in s
  {
    "\n"
  }

  function GuidelinesPrioritize(): (s: string)
    ensures '$' !in s
  {
    GuidelinesPrioritizeLine0() + GuidelinesPrioritizeLine1() + GuidelinesPrioritizeLine2() + GuidelinesPrioritizeLine3() + GuidelinesPrioritizeLine4()
  }

  function GuidelinesStructureLine0(): (s: string)
    ensures '$' !in s
  {
    "2. STRUCTURE FOR"
    + " CLARITY:\n"
  }

  function GuidelinesStructureLine1(): (s: string)
    ensures '$' !in s
  {
    "   - Start with"
    + " the outcome"
    + " (success/failure)"
    + " and key metrics"
    + " if relevant\n"
  }

  function GuidelinesStructureLine2(): (s: string)
    ensures '$' !in s
  {
    "   - Focus on"
    + " errors,"
    + " warnings, or"
    + " unexpected"
    + " behavior first\n"
  }

  function GuidelinesStructureLine3(): (s: string)
    ensures '$' !in s
  {
    "   - Mention"
    + " important"
    + " details like"
    + " test results,"
    + " build status,"
    + " or data counts\n"
  }

  function GuidelinesStructureLine4(): (s: string)
    ensures '$' !in s
  {
    "\n"
  }

  function GuidelinesStructure(): (s: string)
    ensures '$' !in s
  {
    GuidelinesStructureLine0() + GuidelinesStructureLine1() + GuidelinesStructureLine2() + GuidelinesStructureLine3() + GuidelinesStructureLine4()
  }

  function GuidelinesSpecificLine0(): (s: string)
    ensures '$' !in s
  {
    "3. BE SPECIFIC:\n"
  }

  function GuidelinesSpecificLine1(): (s: string)
    ensures '$' !in s
  {
    "   - Use exact"
    + " error messages,"
    + " file names, or"
    + " identifiers"
    + " when critical\n"
  }

  function GuidelinesSpecificLine2(): (s: string)
    ensures '$' !in s
  {
    "   - Avoid vague"
    + " statements like"
    + " \"something went"
    + " wrong\"\n"
  }

  function GuidelinesSpecificLine3(): (s: string)
    ensures '$' !in s
  {
    "   - Include"
    + " numbers,"
    + " percentages, or"
    + " counts when"
    + " they provide"
    + " context\n"
  }

  function GuidelinesSpecificLine4(): (s: string)
    ensures '$' !in s
  {
    "\n"
  }

  function GuidelinesSpecific(): (s: string)
    ensures '$' !in s
  {
    GuidelinesSpecificLine0() + GuidelinesSpecificLine1() + GuidelinesSpecificLine2() + GuidelinesSpecificLine3() + GuidelinesSpecificLine4()
  }

  function GuidelinesFormatLine0(): (s: string)
    ensures '$' !in s
  {
    "4. FORMAT FOR"
    + " TERMINAL:\n"
  }

  function GuidelinesFormatLine1(): (s: string)
    ensures '$' !in s
  {
    "   - Use plain"
    + " text only (no"
    + " markdown, no"
    + " special"
    + " formatting)\n"
  }

  function GuidelinesFormatLine2(): (s: string)
    ensures '$' !in s
  {
    "   - Keep it"
    + " scannable with"
    + " clear, short"
    + " sentences\n"
  }

  function GuidelinesFormatLine3(): (s: string)
    ensures '$' !in s
  {
    "   - If the"
    + " output is very"
    + " long, focus on"
    + " the most"
    + " important"
    + " parts\n"
  }

  function GuidelinesFormatLine4(): (s: string)
    ensures '$' !in s
  {
    "\n"
  }

  function GuidelinesFormat(): (s: string)
    ensures '$' !in s
  {
    GuidelinesFormatLine0() + GuidelinesFormatLine1() + GuidelinesFormatLine2() + GuidelinesFormatLine3() + GuidelinesFormatLine4()
  }

  function GuidelinesNextStepsLine0(): (s: string)
    ensures '$' !in s
  {
    "5. NEXT STEPS:\n"
  }

  function GuidelinesNextStepsLine1(): (s: string)
    ensures '$' !in s
  {
    "   - If errors"
    + " exist, suggest"
    + " concrete"
    + " actions to"
    + " resolve them\n"
  }

  function GuidelinesNextStepsLine2(): (s: string)
    ensures '$' !in s
  {
    "   - If"
    + " successful,"
    + " note any"
    + " important"
    + " results or"
    + " follow-up"
    + " actions needed\n"
  }

  function GuidelinesNextStepsLine3(): (s: string)
    ensures '$' !in s
  {
    "\n"
  }

  function GuidelinesNextSteps(): (s: string)
    ensures '$' !in s
  {
    GuidelinesNextStepsLine0() + GuidelinesNextStepsLine1() + GuidelinesNextStepsLine2() + GuidelinesNextStepsLine3()
  }

  function GuidelinesRememberLine0(): (s: string)
    ensures '$' !in s
  {
    "Remember: This"
    + " summary will"
    + " help an AI"
    + " agent decide"
    + " whether to"
    + " investigate the"
    + " full output"
    + " file or proceed"
    + " with the next"
    + " task."
  }

  function GuidelinesRemember(): (s: string)
    ensures '$' !in s
  {
    GuidelinesRememberLine0()
  }

  /** The default prompt's text after the summary length: the
      guidelines, paragraph by paragraph. */
  function Guidelines(): (s: string)
    ensures '$' !in s
    ensures StartsWithSeparator(s)
  {
    FirstOfAppend(GuidelinesOpening(), GuidelinesBody());
    GuidelinesOpening() + GuidelinesBody()
  }

  /** Kept apart so that verifying `Guidelines` does not unfold its text. */
  lemma FirstOfAppend(a: string, b: string)
    requires a != []
    ensures a + b != [] && (a + b)[0] == a[0]
  {
  }

  predicate StartsWithSeparator(s: string) {
    s != [] && IsSeparator(s[0])
  }

  /** The guidelines after their opening sentence. */
  function GuidelinesBody(): (s: string)
    ensures '$' !in s
  {
    GuidelinesPrioritize() + GuidelinesStructure() + GuidelinesRules()
  }

  /** The guidelines from the specific-details paragraph on. */
  function GuidelinesRules(): (s: string)
    ensures '$' !in s
  {
    GuidelinesSpecific() + GuidelinesFormat() + GuidelinesClosing()
  }

  /** The guidelines' last two paragraphs. */
  function GuidelinesClosing(): (s: string)
    ensures '$' !in s
  {
    GuidelinesNextSteps() + GuidelinesRemember()
  }

  /** The literal pieces of the default prompt, in order, ending with the
      given guidelines. */
  function DefaultPromptPieces(guidelines: string): seq<string> {
    [PromptIntro(), PromptCommandLabel(), PromptExitCodeLabel(), PromptOutputLabel(),
     PromptSummaryLabel(), guidelines]
  }

  const PLACEHOLDERS: seq<string> := [RECENT_COMMANDS_PLACEHOLDER, COMMAND_PLACEHOLDER,
    EXIT_CODE_PLACEHOLDER, OUTPUT_PLACEHOLDER, SUMMARY_WORDS_PLACEHOLDER]

  /** `default_prompt`. */
  function DefaultPrompt(): string {
    PromptWith(Guidelines())
  }

  /** The default prompt's text, with the given guidelines at its end. */
  function PromptWith(guidelines: string): string {
    PromptIntro() + RECENT_COMMANDS_PLACEHOLDER
    + PromptCommandLabel() + COMMAND_PLACEHOLDER
    + PromptExitCodeLabel() + EXIT_CODE_PLACEHOLDER
    + PromptOutputLabel() + OUTPUT_PLACEHOLDER
    + PromptSummaryLabel() + SUMMARY_WORDS_PLACEHOLDER
    + guidelines
  }

  /** What the default prompt's guidelines must satisfy for the results
      below: no `$`, and a separator first. */
  predicate GuidelinesShape(guidelines: string) {
    '$' !in guidelines && StartsWithSeparator(guidelines)
  }

  lemma DefaultGuidelinesShape()
    ensures GuidelinesShape(Guidelines())
  {
  }

  /** A prompt that is six literal pieces with the five placeholders
      between them, in the order `format_prompt` substitutes them. */
  predicate FillableTemplate(prompt: string, ls: seq<string>) {
    |ls| == 6 && IsTemplateText(ls) && prompt == Interleave(ls, PLACEHOLDERS)
  }

  /** The default prompt is such a template, whatever guidelines end it. */
  lemma PromptWithIsFillable(g: string)
    requires GuidelinesShape(g)
    ensures FillableTemplate(PromptWith(g), DefaultPromptPieces(g))
  {
    PiecesAreTemplate(g);
    SixPieceLayout(PromptIntro(), PromptCommandLabel(), PromptExitCodeLabel(),
      PromptOutputLabel(), PromptSummaryLabel(), g, RECENT_COMMANDS_PLACEHOLDER,
      COMMAND_PLACEHOLDER, EXIT_CODE_PLACEHOLDER, OUTPUT_PLACEHOLDER, SUMMARY_WORDS_PLACEHOLDER);
  }

  /** The default prompt's pieces form a template whatever guidelines end it,
      as long as those hold no `$` and start with a separator. */
  lemma PiecesAreTemplate(g: string)
    requires GuidelinesShape(g)
    ensures IsTemplateText(DefaultPromptPieces(g))
  {
    var l0, l1, l2 := PromptIntro(), PromptCommandLabel(), PromptExitCodeLabel();
    var l3, l4 := PromptOutputLabel(), PromptSummaryLabel();
    SixPieceTemplate(l0, l1, l2, l3, l4, g);
  }

  /** A six-piece template filled in, written out from left to right. */
  lemma SixPieceLayout(l0: string, l1: string, l2: string, l3: string, l4: string, l5: string,
                       v0: string, v1: string, v2: string, v3: string, v4: string)
    ensures Interleave([l0, l1, l2, l3, l4, l5], [v0, v1, v2, v3, v4])
      == l0 + v0 + l1 + v1 + l2 + v2 + l3 + v3 + l4 + v4 + l5
  {
    InterleaveSix([l0, l1, l2, l3, l4, l5], [v0, v1, v2, v3, v4]);
  }

  lemma SixPieceTemplate(l0: string, l1: string, l2: string, l3: string, l4: string, l5: string)
    requires '$' !in l0 && '$' !in l1 && '$' !in l2 && '$' !in l3 && '$' !in l4 && '$' !in l5
    requires l0 != [] && IsSeparator(l0[|l0| - 1])
    requires l1 != [] && IsSeparator(l1[0]) && IsSeparator(l1[|l1| - 1])
    requires l2 != [] && IsSeparator(l2[0]) && IsSeparator(l2[|l2| - 1])
    requires l3 != [] && IsSeparator(l3[0]) && IsSeparator(l3[|l3| - 1])
    requires l4 != [] && IsSeparator(l4[0]) && IsSeparator(l4[|l4| - 1])
    requires l5 != [] && IsSeparator(l5[0])
    ensures IsTemplateText([l0, l1, l2, l3, l4, l5])
  {
  }

  /** A fillable template holds each placeholder. */
  lemma TemplateHasPlaceholders(prompt: string, ls: seq<string>)
    requires FillableTemplate(prompt, ls)
    ensures forall i :: 0 <= i < |PLACEHOLDERS| ==> Contains(prompt, PLACEHOLDERS[i])
  {
    TemplateHoldsValues(ls, PLACEHOLDERS);
  }

  /** The default prompt holds each placeholder the substitution fills in. */
  lemma DefaultPromptHasPlaceholders()
    ensures forall i :: 0 <= i < |PLACEHOLDERS| ==> Contains(DefaultPrompt(), PLACEHOLDERS[i])
  {
    DefaultGuidelinesShape();
    PromptWithHasPlaceholders(Guidelines());
  }

  lemma PromptWithHasPlaceholders(g: string)
    requires GuidelinesShape(g)
    ensures forall i :: 0 <= i < |PLACEHOLDERS| ==> Contains(PromptWith(g), PLACEHOLDERS[i])
  {
    PromptWithIsFillable(g);
    TemplateHasPlaceholders(PromptWith(g), DefaultPromptPieces(g));
  }

  /** A six-piece template filled with five values contains each of them. */
  lemma TemplateHoldsValues(ls: seq<string>, vs: seq<string>)
    requires |ls| == 6 && |vs| == 5
    ensures forall i :: 0 <= i < 5 ==> Contains(Interleave(ls, vs), vs[i])
  {
    InterleaveSix(ls, vs);
    InterleaveContainsValues(ls[0], ls[1], ls[2], ls[3], ls[4], ls[5], vs[0], vs[1], vs[2], vs[3], vs[4]);
  }

  /** A filled-in template of six pieces contains each value it was filled with. */
  lemma InterleaveContainsValues(l0: string, l1: string, l2: string, l3: string, l4: string, l5: string,
                                 v0: string, v1: string, v2: string, v3: string, v4: string)
    ensures var t := l0 + v0 + (l1 + v1 + (l2 + v2 + (l3 + v3 + (l4 + v4 + l5))));
      Contains(t, v0) && Contains(t, v1) && Contains(t, v2) && Contains(t, v3) && Contains(t, v4)
  {
    var t4 := l4 + v4 + l5;
    var t3 := l3 + v3 + t4;
    var t2 := l2 + v2 + t3;
    var t1 := l1 + v1 + t2;
    var t := l0 + v0 + t1;
    ContainsMiddle(l4, v4, l5);
    ContainsInSuffix(l3 + v3, t4, v4);
    ContainsInSuffix(l2 + v2, t3, v4);
    ContainsInSuffix(l1 + v1, t2, v4);
    ContainsInSuffix(l0 + v0, t1, v4);
    ContainsMiddle(l3, v3, t4);
    ContainsInSuffix(l2 + v2, t3, v3);
    ContainsInSuffix(l1 + v1, t2, v3);
    ContainsInSuffix(l0 + v0, t1, v3);
    ContainsMiddle(l2, v2, t3);
    ContainsInSuffix(l1 + v1, t2, v2);
    ContainsInSuffix(l0 + v0, t1, v2);
    ContainsMiddle(l1, v1, t2);
    ContainsInSuffix(l0 + v0, t1, v1);
    ContainsMiddle(l0, v0, t1);
  }

  /** Five placeholders, each a `${` pattern without separators, none
      holding one substituted before it. */
  predicate DistinctPlaceholders(ps: seq<string>) {
    |ps| == 5
    && (forall i :: 0 <= i < 5 ==> IsPlaceholder(ps[i]) && StartsWith(ps[i], "${"))
    && (forall i, j :: 0 <= i < j < 5 ==> !Contains(ps[j], ps[i]))
  }

  /** A placeholder has the shape the template pieces rely on. */
  lemma PlaceholderShape(name: string)
    requires IsPlaceholderName(name)
    ensures IsPlaceholder(Placeholder(name)) && StartsWith(Placeholder(name), "${")
  {
    var p := Placeholder(name);
    assert p[..2] == "${";
    assert forall k | 2 <= k < |p| - 1 :: p[k] == name[k - 2];
  }

  /** Placeholders whose names start differently do not contain one another. */
  lemma PlaceholderNotInOther(a: string, b: string)
    requires IsPlaceholderName(a) && IsPlaceholderName(b) && a[0] != b[0]
    ensures !Contains(Placeholder(a), Placeholder(b))
  {
    var p, q := Placeholder(a), Placeholder(b);
    if |q| > |p| {
      LongerNotContained(p, q);
    } else {
      assert p[2] == a[0] && q[2] == b[0];
      assert p[..|q|][2] != q[2];
      assert p[1..] == "{" + a + "}";
      FirstCharAbsent(p[1..], q);
    }
  }

  /** The source's five placeholders are distinct in this sense. */
  lemma PlaceholdersAreDistinct()
    ensures DistinctPlaceholders(PLACEHOLDERS)
  {
    var r, c, e, o, w := "recent_commands", "command", "exit_code", "output", "summary_words";
    assert IsPlaceholderName(r) && IsPlaceholderName(c) && IsPlaceholderName(e);
    assert IsPlaceholderName(o) && IsPlaceholderName(w);
    PlaceholderShape(r);
    PlaceholderShape(c);
    PlaceholderShape(e);
    PlaceholderShape(o);
    PlaceholderShape(w);
    PlaceholderNotInOther(c, r);
    PlaceholderNotInOther(e, r);
    PlaceholderNotInOther(o, r);
    PlaceholderNotInOther(w, r);
    PlaceholderNotInOther(e, c);
    PlaceholderNotInOther(o, c);
    PlaceholderNotInOther(w, c);
    PlaceholderNotInOther(o, e);
    PlaceholderNotInOther(w, e);
    PlaceholderNotInOther(w, o);
    DistinctFive(Placeholder(r), Placeholder(c), Placeholder(e), Placeholder(o), Placeholder(w));
  }

  lemma DistinctFive(r: string, c: string, e: string, o: string, w: string)
    requires IsPlaceholder(r) && StartsWith(r, "${") && IsPlaceholder(c) && StartsWith(c, "${")
    requires IsPlaceholder(e) && StartsWith(e, "${") && IsPlaceholder(o) && StartsWith(o, "${")
    requires IsPlaceholder(w) && StartsWith(w, "${")
    requires !Contains(c, r) && !Contains(e, r) && !Contains(o, r) && !Contains(w, r)
    requires !Contains(e, c) && !Contains(o, c) && !Contains(w, c)
    requires !Contains(o, e) && !Contains(w, e) && !Contains(w, o)
    ensures DistinctPlaceholders([r, c, e, o, w])
  {
  }

  /** The values after the first `k` placeholders have been substituted. */
  function FilledUpTo(ps: seq<string>, vs: seq<string>, k: nat): (us: seq<string>)
    requires |ps| == |vs| && k <= |ps|
    ensures |us| == |ps|
    ensures forall i :: 0 <= i < |us| ==> us[i] == if i < k then vs[i] else ps[i]
  {
    vs[..k] + ps[k..]
  }

  /** Substituting the `k`-th placeholder fills its place and no other. */
  lemma FillStep(ps: seq<string>, vs: seq<string>, k: nat)
    requires DistinctPlaceholders(ps) && |vs| == 5 && k < 5
    requires forall i :: 0 <= i < 5 ==> !Contains(vs[i], "${")
    ensures ReplaceEach(FilledUpTo(ps, vs, k), ps[k], vs[k]) == FilledUpTo(ps, vs, k + 1)
  {
    var us := FilledUpTo(ps, vs, k);
    forall i | 0 <= i < 5
      ensures Replace(us[i], ps[k], vs[k]) == FilledUpTo(ps, vs, k + 1)[i]
    {
      if i < k {
        NotContainsExtension(vs[i], "${", ps[k]);
        ReplaceAbsent(vs[i], ps[k], vs[k]);
      } else if i == k {
        ReplaceWhole(ps[k], vs[k]);
      } else {
        ReplaceAbsent(ps[i], ps[k], vs[k]);
      }
    }
  }

  /** Substituting `vs[k]` for `ps[k]`, then each later value for its
      placeholder, in order. */
  function ReplaceFrom(s: string, ps: seq<string>, vs: seq<string>, k: nat): string
    requires |ps| == |vs| && k <= |ps|
    decreases |ps| - k
  {
    if k == |ps| then s else ReplaceFrom(Replace(s, ps[k], vs[k]), ps, vs, k + 1)
  }

  /** Filling a six-piece template, one placeholder after another, with
      values that hold no `${` puts each value in its placeholder's place. */
  lemma {:induction false} FillTemplate(ls: seq<string>, ps: seq<string>, vs: seq<string>, k: nat)
    requires |ls| == 6 && IsTemplateText(ls) && DistinctPlaceholders(ps) && |vs| == 5 && k <= 5
    requires forall i :: 0 <= i < 5 ==> !Contains(vs[i], "${")
    ensures ReplaceFrom(Interleave(ls, FilledUpTo(ps, vs, k)), ps, vs, k) == Interleave(ls, vs)
    decreases 5 - k
  {
    if k == 5 {
      assert FilledUpTo(ps, vs, 5) == vs;
    } else {
      FillOne(ls, ps, vs, k);
      FillTemplate(ls, ps, vs, k + 1);
    }
  }

  /** `format_prompt`'s chain of substitutions, read as ReplaceFrom. */
  lemma FormatPromptReplacesInOrder(config: Config, command: string, exitCode: i32, output: string,
                                    summaryWords: u32, recent: Option<seq<(string, i32)>>)
    ensures FormatPrompt(config, command, exitCode, output, summaryWords, recent)
      == ReplaceFrom(config.provider.prompt, PLACEHOLDERS,
                     PromptValues(command, exitCode, output, summaryWords, recent), 0)
  {
    var vs := PromptValues(command, exitCode, output, summaryWords, recent);
    var s0 := config.provider.prompt;
    var s1 := Replace(s0, RECENT_COMMANDS_PLACEHOLDER, vs[0]);
    var s2 := Replace(s1, COMMAND_PLACEHOLDER, vs[1]);
    var s3 := Replace(s2, EXIT_CODE_PLACEHOLDER, vs[2]);
    var s4 := Replace(s3, OUTPUT_PLACEHOLDER, vs[3]);
    var s5 := Replace(s4, SUMMARY_WORDS_PLACEHOLDER, vs[4]);
    assert ReplaceFrom(s5, PLACEHOLDERS, vs, 5) == s5;
    assert ReplaceFrom(s4, PLACEHOLDERS, vs, 4) == s5;
    assert ReplaceFrom(s3, PLACEHOLDERS, vs, 3) == s5;
    assert ReplaceFrom(s2, PLACEHOLDERS, vs, 2) == s5;
    assert ReplaceFrom(s1, PLACEHOLDERS, vs, 1) == s5;
  }

  /** One placeholder substituted in a partly filled template. */
  lemma FillOne(ls: seq<string>, ps: seq<string>, vs: seq<string>, k: nat)
    requires |ls| == 6 && IsTemplateText(ls) && DistinctPlaceholders(ps) && |vs| == 5 && k < 5
    requires forall i :: 0 <= i < 5 ==> !Contains(vs[i], "${")
    ensures Replace(Interleave(ls, FilledUpTo(ps, vs, k)), ps[k], vs[k])
      == Interleave(ls, FilledUpTo(ps, vs, k + 1))
  {
    ReplaceInterleave(ls, FilledUpTo(ps, vs, k), ps[k], vs[k]);
    FillStep(ps, vs, k);
  }

  lemma NumbersHaveNoDollar(i: int, n: nat)
    ensures !Contains(IntToString(i), "${") && !Contains(NatToString(n), "${")
  {
    FirstCharAbsent(IntToString(i), "${");
    FirstCharAbsent(NatToString(n), "${");
  }

  /** The five values `format_prompt` substitutes, in order. */
  function PromptValues(command: string, exitCode: i32, output: string, summaryWords: u32,
                        recent: Option<seq<(string, i32)>>): seq<string>
  {
    [RecentCommandsText(recent), command, IntToString(exitCode), output, NatToString(summaryWords)]
  }

  /** For any prompt that is a fillable template, and a command, output and
      recent-commands block that hold no `${`, the prompt sent is the
      template with the values in their places, and it holds no `${` at all. */
  lemma TemplatePromptFilled(config: Config, ls: seq<string>, command: string, exitCode: i32,
                             output: string, summaryWords: u32, recent: Option<seq<(string, i32)>>)
    requires FillableTemplate(config.provider.prompt, ls)
    requires !Contains(command, "${") && !Contains(output, "${")
    requires !Contains(RecentCommandsText(recent), "${")
    ensures var p := FormatPrompt(config, command, exitCode, output, summaryWords, recent);
      p == Interleave(ls, PromptValues(command, exitCode, output, summaryWords, recent))
      && !Contains(p, "${")
  {
    var vs := PromptValues(command, exitCode, output, summaryWords, recent);
    NumbersHaveNoDollar(exitCode, summaryWords);
    FormatPromptReplacesInOrder(config, command, exitCode, output, summaryWords, recent);
    FillValues(config.provider.prompt, ls, vs);
  }

  /** Substituting the five placeholders in order into a fillable template. */
  lemma FillValues(prompt: string, ls: seq<string>, vs: seq<string>)
    requires FillableTemplate(prompt, ls) && |vs| == 5
    requires forall i :: 0 <= i < 5 ==> !Contains(vs[i], "${")
    ensures ReplaceFrom(prompt, PLACEHOLDERS, vs, 0) == Interleave(ls, vs)
    ensures !Contains(Interleave(ls, vs), "${")
  {
    PlaceholdersAreDistinct();
    assert FilledUpTo(PLACEHOLDERS, vs, 0) == PLACEHOLDERS;
    FillTemplate(ls, PLACEHOLDERS, vs, 0);
    InterleaveHasNoDollarBrace(ls, vs);
  }

  /** With the default prompt, and a command, output and recent-commands
      block that hold no `${`, the prompt sent is the default text with the
      block, the command, the exit code, the output and the summary length
      in their places, and no `${` is left in it. */
  lemma DefaultPromptFilled(config: Config, command: string, exitCode: i32, output: string,
                            summaryWords: u32, recent: Option<seq<(string, i32)>>)
    requires config.provider.prompt == DefaultPrompt()
    requires !Contains(command, "${") && !Contains(output, "${")
    requires !Contains(RecentCommandsText(recent), "${")
    ensures var p := FormatPrompt(config, command, exitCode, output, summaryWords, recent);
      p == PromptIntro() + RecentCommandsText(recent)
        + PromptCommandLabel() + command
        + PromptExitCodeLabel() + IntToString(exitCode)
        + PromptOutputLabel() + output
        + PromptSummaryLabel() + NatToString(summaryWords)
        + Guidelines()
      && !Contains(p, "${")
  {
    DefaultGuidelinesShape();
    PromptWithFilled(config, Guidelines(), command, exitCode, output, summaryWords, recent);
  }

  lemma PromptWithFilled(config: Config, g: string, command: string, exitCode: i32, output: string,
                         summaryWords: u32, recent: Option<seq<(string, i32)>>)
    requires config.provider.prompt == PromptWith(g) && GuidelinesShape(g)
    requires !Contains(command, "${") && !Contains(output, "${")
    requires !Contains(RecentCommandsText(recent), "${")
    ensures var p := FormatPrompt(config, command, exitCode, output, summaryWords, recent);
      p == PromptIntro() + RecentCommandsText(recent)
        + PromptCommandLabel() + command
        + PromptExitCodeLabel() + IntToString(exitCode)
        + PromptOutputLabel() + output
        + PromptSummaryLabel() + NatToString(summaryWords)
        + g
      && !Contains(p, "${")
  {
    PromptWithIsFillable(g);
    TemplatePromptFilled(config, DefaultPromptPieces(g), command, exitCode, output,
      summaryWords, recent);
    SixPieceLayout(PromptIntro(), PromptCommandLabel(), PromptExitCodeLabel(),
      PromptOutputLabel(), PromptSummaryLabel(), g, RecentCommandsText(recent),
      command, IntToString(exitCode), output, NatToString(summaryWords));
  }

  /** The prompt built from a fillable template names the recent commands,
      the command, its exit code, its output and the summary length, and no
      placeholder is left in it. */
  lemma TemplatePromptMentions(config: Config, ls: seq<string>, command: string, exitCode: i32,
                               output: string, summaryWords: u32, recent: Option<seq<(string, i32)>>)
    requires FillableTemplate(config.provider.prompt, ls)
    requires !Contains(command, "${") && !Contains(output, "${")
    requires !Contains(RecentCommandsText(recent), "${")
    ensures var p := FormatPrompt(config, command, exitCode, output, summaryWords, recent);
      var vs := PromptValues(command, exitCode, output, summaryWords, recent);
      (forall i :: 0 <= i < |vs| ==> Contains(p, vs[i]))
      && (forall i :: 0 <= i < |PLACEHOLDERS| ==> !Contains(p, PLACEHOLDERS[i]))
  {
    var p := FormatPrompt(config, command, exitCode, output, summaryWords, recent);
    TemplatePromptFilled(config, ls, command, exitCode, output, summaryWords, recent);
    TemplateHoldsValues(ls, PromptValues(command, exitCode, output, summaryWords, recent));
    NoPlaceholderLeft(p);
  }

  lemma PromptWithMentions(config: Config, g: string, command: string, exitCode: i32, output: string,
                           summaryWords: u32, recent: Option<seq<(string, i32)>>)
    requires config.provider.prompt == PromptWith(g) && GuidelinesShape(g)
    requires !Contains(command, "${") && !Contains(output, "${")
    requires !Contains(RecentCommandsText(recent), "${")
    ensures var p := FormatPrompt(config, command, exitCode, output, summaryWords, recent);
      var vs := PromptValues(command, exitCode, output, summaryWords, recent);
      (forall i :: 0 <= i < |vs| ==> Contains(p, vs[i]))
      && (forall i :: 0 <= i < |PLACEHOLDERS| ==> !Contains(p, PLACEHOLDERS[i]))
  {
    PromptWithIsFillable(g);
    TemplatePromptMentions(config, DefaultPromptPieces(g), command, exitCode, output,
      summaryWords, recent);
  }
}
