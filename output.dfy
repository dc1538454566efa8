/** Naming the output file, truncating output when no summary is
    available, and writing the file into the output directory
    (src/output.rs). */
module Output {
  import opened Prelude
  import opened Text

  // ----------------------------------------------------------------------
  // File names

  /** The slug keeps at most this many characters of the mapped command. */
  const MAX_SLUG_LENGTH: nat := 50

  /** The characters the file name may not carry: space, `/`, `\\`, `|`,
      `&`, `;`, `>`, `<`, `*`, `?`, `"` and `'`. */
  predicate IsForbidden(c: char) {
    c == ' ' || c == '/' || c == '\\' || c == '|' || c == '&' || c == ';'
    || c == '>' || c == '<' || c == '*' || c == '?' || c == '"' || c == '\''
  }

  /** What one character of the command becomes in the slug. */
  function SlugChar(c: char): char {
    if IsForbidden(c) then '_' else c
  }

  /** The chain of `.replace(c, "_")` calls, in the source's order. */
  function MappedCommand(command: string): string {
    Replace(Replace(Replace(Replace(Replace(Replace(Replace(Replace(Replace(Replace(Replace(Replace(
      command, " ", "_"), "/", "_"), "\\", "_"), "|", "_"), "&", "_"), ";", "_"),
      ">", "_"), "<", "_"), "*", "_"), "?", "_"), "\"", "_"), "'", "_")
  }

  /** The replace chain maps each character on its own: since `_` is not
      replaced, a later step never undoes an earlier one. */
  lemma MappedCommandIsPerChar(command: string)
    ensures |MappedCommand(command)| == |command|
    ensures forall k :: 0 <= k < |command| ==> MappedCommand(command)[k] == SlugChar(command[k])
  {
    var s0 := command;
    var s1 := Replace(s0, " ", "_");
    ReplaceCharIsMap(s0, ' ', '_');
    var s2 := Replace(s1, "/", "_");
    ReplaceCharIsMap(s1, '/', '_');
    var s3 := Replace(s2, "\\", "_");
    ReplaceCharIsMap(s2, '\\', '_');
    var s4 := Replace(s3, "|", "_");
    ReplaceCharIsMap(s3, '|', '_');
    var s5 := Replace(s4, "&", "_");
    ReplaceCharIsMap(s4, '&', '_');
    var s6 := Replace(s5, ";", "_");
    ReplaceCharIsMap(s5, ';', '_');
    var s7 := Replace(s6, ">", "_");
    ReplaceCharIsMap(s6, '>', '_');
    var s8 := Replace(s7, "<", "_");
    ReplaceCharIsMap(s7, '<', '_');
    var s9 := Replace(s8, "*", "_");
    ReplaceCharIsMap(s8, '*', '_');
    var s10 := Replace(s9, "?", "_");
    ReplaceCharIsMap(s9, '?', '_');
    var s11 := Replace(s10, "\"", "_");
    ReplaceCharIsMap(s10, '"', '_');
    var s12 := Replace(s11, "'", "_");
    ReplaceCharIsMap(s11, '\'', '_');
    assert s12 == MappedCommand(command);
  }

  /** `.chars().take(50).collect()` over the mapped command. */
  function Slug(command: string): string {
    var m := MappedCommand(command);
    if |m| <= MAX_SLUG_LENGTH then m else m[..MAX_SLUG_LENGTH]
  }

  /** The slug is the first min(50, |command|) characters of the command,
      each mapped on its own: a forbidden character becomes `_`, any other
      character stays. */
  lemma SlugIsMappedPrefix(command: string)
    ensures var slug := Slug(command);
      |slug| == (if |command| <= MAX_SLUG_LENGTH then |command| else MAX_SLUG_LENGTH)
      && forall k :: 0 <= k < |slug| ==> slug[k] == SlugChar(command[k])
  {
    MappedCommandIsPerChar(command);
  }

  /** No character of `s` is one of the forbidden ones. */
  predicate IsSafeText(s: string) {
    forall k :: 0 <= k < |s| ==> !IsForbidden(s[k])
  }

  lemma SafeAppend(a: string, b: string)
    requires IsSafeText(a) && IsSafeText(b)
    ensures IsSafeText(a + b)
  {
    forall k | 0 <= k < |a + b|
      ensures !IsForbidden((a + b)[k])
    {
      if k < |a| {
        assert (a + b)[k] == a[k];
      } else {
        assert (a + b)[k] == b[k - |a|];
      }
    }
  }

  lemma DigitsAreSafe(s: string)
    requires AllDigits(s)
    ensures IsSafeText(s)
  {
    forall k | 0 <= k < |s|
      ensures !IsForbidden(s[k])
    {
      assert IsDigit(s[k]);
    }
  }

  /** The slug carries none of the forbidden characters. */
  lemma SlugIsSafe(command: string)
    ensures IsSafeText(Slug(command))
  {
    var slug := Slug(command);
    SlugIsMappedPrefix(command);
    forall k | 0 <= k < |slug|
      ensures !IsForbidden(slug[k])
    {
      assert slug[k] == SlugChar(command[k]);
    }
  }

  /** The local time that names the file; the clock itself is outside the model. */
  datatype Timestamp = Timestamp(year: nat, month: nat, day: nat, hour: nat, minute: nat, second: nat)
  {
    /** A time the local clock can report; chrono prints years past 9999
        with a sign, which is outside the model. */
    predicate Valid() {
      year <= 9999 && 1 <= month <= 12 && 1 <= day <= 31
      && hour <= 23 && minute <= 59 && second <= 60
    }
  }

  /** `%Y%m%d_%H%M%S`. */
  function FormatTimestamp(t: Timestamp): (s: string)
    requires t.Valid()
    ensures |s| == 15 && s[8] == '_'
    ensures AllDigits(s[..8]) && AllDigits(s[9..])
  {
    var date := PadDigits(t.year, 4) + PadDigits(t.month, 2) + PadDigits(t.day, 2);
    var time := PadDigits(t.hour, 2) + PadDigits(t.minute, 2) + PadDigits(t.second, 2);
    assert (date + "_" + time)[..8] == date && (date + "_" + time)[9..] == time;
    assert AllDigits(date) && AllDigits(time);
    date + "_" + time
  }

  /** Reads a formatted timestamp back. */
  function ParseTimestamp(s: string): Timestamp
    requires |s| == 15 && AllDigits(s[..8]) && AllDigits(s[9..])
  {
    Timestamp(DigitsValue(s[..4]), DigitsValue(s[4..6]), DigitsValue(s[6..8]),
              DigitsValue(s[9..11]), DigitsValue(s[11..13]), DigitsValue(s[13..15]))
  }

  /** The timestamp in a file name determines the time exactly. */
  lemma ParseFormatTimestamp(t: Timestamp)
    requires t.Valid()
    ensures ParseTimestamp(FormatTimestamp(t)) == t
  {
    var s := FormatTimestamp(t);
    assert s[..4] == PadDigits(t.year, 4);
    assert s[4..6] == PadDigits(t.month, 2);
    assert s[6..8] == PadDigits(t.day, 2);
    assert s[9..11] == PadDigits(t.hour, 2);
    assert s[11..13] == PadDigits(t.minute, 2);
    assert s[13..15] == PadDigits(t.second, 2);
    PadDigitsValue(t.year, 4);
    PadDigitsValue(t.month, 2);
    PadDigitsValue(t.day, 2);
    PadDigitsValue(t.hour, 2);
    PadDigitsValue(t.minute, 2);
    PadDigitsValue(t.second, 2);
  }

  /** `generate_output_filename`, with the local time passed in. */
  function GenerateOutputFilename(command: string, now: Timestamp): string
    requires now.Valid()
  {
    Slug(command) + "_" + FormatTimestamp(now) + ".txt"
  }

  /** The name is the slug, then `_`, the 15-character timestamp and
      `.txt`; the suffix is never cut, however long the command. */
  lemma FilenameLayout(command: string, now: Timestamp)
    requires now.Valid()
    ensures var name := GenerateOutputFilename(command, now);
      var n := |name|;
      n == |Slug(command)| + 20 && n <= MAX_SLUG_LENGTH + 20
      && name[..n - 20] == Slug(command)
      && name[n - 20] == '_'
      && name[n - 19..n - 4] == FormatTimestamp(now)
      && name[n - 4..] == ".txt"
  {
    SlugIsMappedPrefix(command);
    SuffixLayout(Slug(command), FormatTimestamp(now));
  }

  lemma SuffixLayout(slug: string, stamp: string)
    requires |stamp| == 15
    ensures var name := slug + "_" + stamp + ".txt";
      var n := |name|;
      n == |slug| + 20 && name[..n - 20] == slug && name[n - 20] == '_'
      && name[n - 19..n - 4] == stamp && name[n - 4..] == ".txt"
  {
  }

  /** The time can be read back from the file name. */
  lemma FilenameTimestamp(command: string, now: Timestamp)
    requires now.Valid()
    ensures var name := GenerateOutputFilename(command, now);
      var stamp := name[|name| - 19..|name| - 4];
      |stamp| == 15 && AllDigits(stamp[..8]) && AllDigits(stamp[9..]) && ParseTimestamp(stamp) == now
  {
    FilenameLayout(command, now);
    ParseFormatTimestamp(now);
  }

  /** No forbidden character appears anywhere in the file name, so it
      names one file directly inside the output directory. */
  lemma FilenameIsSafe(command: string, now: Timestamp)
    requires now.Valid()
    ensures IsSafeText(GenerateOutputFilename(command, now))
  {
    SlugIsSafe(command);
    StampIsSafe(now);
    SuffixIsSafe(Slug(command), FormatTimestamp(now));
  }

  lemma StampIsSafe(now: Timestamp)
    requires now.Valid()
    ensures IsSafeText(FormatTimestamp(now))
  {
    var stamp := FormatTimestamp(now);
    DigitsAreSafe(stamp[..8]);
    DigitsAreSafe(stamp[9..]);
    SafeAppend(stamp[..8], "_");
    SafeAppend(stamp[..8] + "_", stamp[9..]);
    assert stamp == stamp[..8] + "_" + stamp[9..];
  }

  lemma SuffixIsSafe(slug: string, stamp: string)
    requires IsSafeText(slug) && IsSafeText(stamp)
    ensures IsSafeText(slug + "_" + stamp + ".txt")
  {
    SafeAppend(slug, "_");
    SafeAppend(slug + "_", stamp);
    SafeAppend(slug + "_" + stamp, ".txt");
  }

  /** The slug of `"npx jest"` is `npx_jest`. */
  lemma NpxJestSlug(command: string)
    requires command == "npx jest"
    ensures Slug(command) == "npx_jest"
  {
    SlugIsMappedPrefix(command);
  }

  /** `"npx jest"` gives a name that starts with `npx_jest_`. */
  lemma NpxJestFilename(command: string, now: Timestamp)
    requires command == "npx jest" && now.Valid()
    ensures GenerateOutputFilename(command, now)[..9] == "npx_jest_"
  {
    NpxJestSlug(command);
    PrefixOfSuffixed("npx_jest", FormatTimestamp(now) + ".txt");
    assert GenerateOutputFilename(command, now) == "npx_jest" + "_" + (FormatTimestamp(now) + ".txt");
  }

  lemma PrefixOfSuffixed(a: string, b: string)
    ensures (a + "_" + b)[..|a| + 1] == a + "_"
  {
  }

  // ----------------------------------------------------------------------
  // Fallback truncation

  /** The line that stands for the lines left out. */
  function OmittedMarker(count: nat): string {
    "... (" + NatToString(count) + " lines omitted) ..."
  }

  lemma MarkerHasNoBreak(count: nat)
    ensures '\n' !in OmittedMarker(count) && '\r' !in OmittedMarker(count)
  {
    var d := NatToString(count);
    forall k | 0 <= k < |d|
      ensures d[k] != '\n' && d[k] != '\r'
    {
      assert IsDigit(d[k]);
    }
  }

  /** `format_fallback_output`: the whole output when it has at most
      `2 * maxLines` lines; otherwise the first and last `maxLines` lines
      around a marker that counts the lines in between. */
  function FormatFallbackOutput(output: string, maxLines: nat): string {
    TruncateLines(output, Lines(output), maxLines)
  }

  /** The body of `format_fallback_output` once `lines` holds the lines of `output`. */
  function TruncateLines(output: string, lines: seq<string>, maxLines: nat): string {
    if |lines| <= 2 * maxLines then output
    else
      Join(lines[..maxLines], "\n") + "\n\n" + OmittedMarker(|lines| - 2 * maxLines) + "\n\n"
      + Join(lines[|lines| - maxLines..], "\n")
  }

  /** Output of at most `2 * maxLines` lines comes back unchanged, trailing newline included. */
  lemma FallbackKeepsShortOutput(output: string, maxLines: nat)
    requires |Lines(output)| <= 2 * maxLines
    ensures FormatFallbackOutput(output, maxLines) == output
  {
  }

  /** Longer output keeps `maxLines` lines at each end, each line whole,
      and the marker counts the rest: at least one line, and kept plus
      omitted lines make up every line. */
  lemma FallbackLayout(output: string, maxLines: nat)
    requires |Lines(output)| > 2 * maxLines && maxLines >= 1
    ensures var lines := Lines(output);
      var n := |lines|;
      var k := n - 2 * maxLines;
      k >= 1 && maxLines + k + maxLines == n
      && FormatFallbackOutput(output, maxLines)
         == Join(lines[..maxLines] + ["", OmittedMarker(k), ""] + lines[n - maxLines..], "\n")
  {
    TruncatedLayout(output, Lines(output), maxLines);
  }

  lemma TruncatedLayout(output: string, lines: seq<string>, m: nat)
    requires |lines| > 2 * m && m >= 1
    ensures TruncateLines(output, lines, m)
         == Join(lines[..m] + ["", OmittedMarker(|lines| - 2 * m), ""] + lines[|lines| - m..], "\n")
  {
    JoinAroundMarker(lines[..m], OmittedMarker(|lines| - 2 * m), lines[|lines| - m..]);
  }

  lemma JoinAroundMarker(head: seq<string>, m: string, tail: seq<string>)
    requires head != [] && tail != []
    ensures Join(head + ["", m, ""] + tail, "\n")
      == Join(head, "\n") + "\n\n" + m + "\n\n" + Join(tail, "\n")
  {
    var mid := ["", m, ""];
    JoinAppend(head, mid, "\n");
    JoinAppend(head + mid, tail, "\n");
    JoinMarker(m);
  }

  lemma JoinMarker(m: string)
    ensures Join(["", m, ""], "\n") == "\n" + m + "\n"
  {
    var last: seq<string> := [""];
    assert Join(last, "\n") == "";
    assert [m, ""][1..] == last;
    assert Join([m, ""], "\n") == m + "\n" + "";
    assert ["", m, ""][1..] == [m, ""];
    assert Join(["", m, ""], "\n") == "" + "\n" + (m + "\n" + "");
  }

  /** Splitting the truncated text into lines again gives the kept lines
      with the three marker lines between them, when the output has no
      carriage return and its last line is not empty. */
  lemma FallbackLines(output: string, maxLines: nat)
    requires |Lines(output)| > 2 * maxLines && maxLines >= 1
    requires '\r' !in output
    requires Lines(output)[|Lines(output)| - 1] != []
    ensures var lines := Lines(output);
      var n := |lines|;
      Lines(FormatFallbackOutput(output, maxLines))
        == lines[..maxLines] + ["", OmittedMarker(n - 2 * maxLines), ""] + lines[n - maxLines..]
  {
    LinesHaveNoCarriageReturn(output);
    LinesHaveNoNewline(output);
    LinesOfTruncated(output, Lines(output), maxLines);
  }

  lemma LinesOfTruncated(output: string, lines: seq<string>, maxLines: nat)
    requires |lines| > 2 * maxLines && maxLines >= 1
    requires BreakFree(lines)
    requires lines[|lines| - 1] != []
    ensures var n := |lines|;
      Lines(TruncateLines(output, lines, maxLines))
        == lines[..maxLines] + ["", OmittedMarker(n - 2 * maxLines), ""] + lines[n - maxLines..]
  {
    var n := |lines|;
    TruncatedLayout(output, lines, maxLines);
    MarkerHasNoBreak(n - 2 * maxLines);
    SplitKeptLines(lines, maxLines, OmittedMarker(n - 2 * maxLines));
  }

  /** No line holds a line break of either kind. */
  predicate BreakFree(ls: seq<string>) {
    forall j :: 0 <= j < |ls| ==> '\n' !in ls[j] && '\r' !in ls[j]
  }

  lemma BreakFreeAppend(a: seq<string>, b: seq<string>)
    requires BreakFree(a) && BreakFree(b)
    ensures BreakFree(a + b)
  {
    forall j | 0 <= j < |a + b|
      ensures '\n' !in (a + b)[j] && '\r' !in (a + b)[j]
    {
      if j < |a| {
        assert (a + b)[j] == a[j];
      } else {
        assert (a + b)[j] == b[j - |a|];
      }
    }
  }

  lemma BreakFreeSlice(a: seq<string>, i: nat, j: nat)
    requires BreakFree(a) && i <= j <= |a|
    ensures BreakFree(a[i..j])
  {
    forall k | 0 <= k < j - i
      ensures '\n' !in a[i..j][k] && '\r' !in a[i..j][k]
    {
      assert a[i..j][k] == a[i + k];
    }
  }

  lemma SplitKeptLines(lines: seq<string>, m: nat, marker: string)
    requires 1 <= m && 2 * m < |lines|
    requires BreakFree(lines)
    requires lines[|lines| - 1] != []
    requires '\n' !in marker && '\r' !in marker
    ensures var all := lines[..m] + ["", marker, ""] + lines[|lines| - m..];
      Lines(Join(all, "\n")) == all
  {
    var n := |lines|;
    var head, mid, tail := lines[..m], ["", marker, ""], lines[n - m..];
    BreakFreeSlice(lines, 0, m);
    BreakFreeSlice(lines, n - m, n);
    assert lines[0..m] == head && lines[n - m..n] == tail;
    assert BreakFree(mid);
    BreakFreeAppend(head, mid);
    BreakFreeAppend(head + mid, tail);
    assert (head + mid + tail)[|head + mid + tail| - 1] == lines[n - 1];
    LinesOfBreakFreeJoin(head + mid + tail);
  }

  lemma LinesOfBreakFreeJoin(all: seq<string>)
    requires BreakFree(all) && all != [] && all[|all| - 1] != []
    ensures Lines(Join(all, "\n")) == all
  {
    LinesOfJoin(all);
  }

  lemma {:induction false} LinesHaveNoCarriageReturn(s: string)
    requires '\r' !in s
    ensures forall j :: 0 <= j < |Lines(s)| ==> '\r' !in Lines(s)[j]
    decreases |s|
  {
    if s != [] {
      var i := IndexOf(s, '\n');
      if i < |s| {
        LinesStep(s, i);
        assert '\r' !in s[..i] && '\r' !in s[i + 1..];
        LinesHaveNoCarriageReturn(s[i + 1..]);
      } else {
        LinesWithoutNewline(s);
      }
    }
  }

  /** With 100 lines and 20 kept at each end the marker reads `60 lines omitted`. */
  lemma SixtyLinesOmitted(output: string)
    requires |Lines(output)| == 100
    ensures var r := FormatFallbackOutput(output, 20);
      var lines := Lines(output);
      r == Join(lines[..20], "\n") + "\n\n" + OmittedMarker(60) + "\n\n" + Join(lines[80..], "\n")
      && OmittedMarker(60) == "... (" + "60" + " lines omitted) ..."
  {
    assert NatToString(60) == "60";
  }

  // ----------------------------------------------------------------------
  // The output directory

  const OUTPUT_DIR: string := "/tmp/ctx_guard"

  /** `Path::join`: an absolute name replaces the directory. */
  function JoinPath(dir: string, name: string): string {
    if name != [] && name[0] == '/' then name else dir + "/" + name
  }

  /** A generated file name lands directly inside the output directory. */
  lemma GeneratedNameStaysInDirectory(command: string, now: Timestamp)
    requires now.Valid()
    ensures JoinPath(OUTPUT_DIR, GenerateOutputFilename(command, now))
      == OUTPUT_DIR + "/" + GenerateOutputFilename(command, now)
  {
    FilenameIsSafe(command, now);
    FilenameLayout(command, now);
    assert IsForbidden('/');
  }

  /** Creating the directory or writing the file failed. */
  datatype OutputError = DirectoryError

  /** What the operating system does with `fs::write`, which opens the file
      with `File::create` (creating it, or truncating it to empty) and then
      writes the whole content: the open fails and nothing changes; the
      write fails after the first `kept` characters reached the file; or
      the whole content is written. */
  datatype WriteOutcome = OpenFails | WriteFailsAfter(kept: nat) | Written

  /** The characters of `content` that reach the file for an outcome. */
  function WrittenPart(content: string, outcome: WriteOutcome): (part: string)
    requires !outcome.OpenFails?
    ensures part <= content
    ensures outcome.Written? ==> part == content
  {
    match outcome
    case WriteFailsAfter(kept) => if kept <= |content| then content[..kept] else content
    case Written => content
  }

  /** The file system as far as the output directory is concerned: whether
      the directory exists and the content of each file, by path. */
  class OutputStore {
    var dirExists: bool
    var files: map<string, string>

    /** Files exist only inside an existing directory. */
    predicate Valid()
      reads this
    {
      !dirExists ==> files == map[]
    }

    constructor(present: bool, initial: map<string, string>)
      requires !present ==> initial == map[]
      ensures Valid() && dirExists == present && files == initial
    {
      dirExists := present;
      files := initial;
    }

    /** `ensure_output_dir`: creates the directory when it is missing.
        `createSucceeds` is whether the operating system lets it be created. */
    method EnsureOutputDir(createSucceeds: bool) returns (r: Result<string, OutputError>)
      requires Valid()
      modifies this
      ensures Valid() && files == old(files)
      ensures old(dirExists) ==> dirExists && r == Success(OUTPUT_DIR)
      ensures !old(dirExists) && createSucceeds ==> dirExists && r == Success(OUTPUT_DIR)
      ensures !old(dirExists) && !createSucceeds ==> !dirExists && r == Failure(DirectoryError)
      ensures r.Failure? ==> files == map[]
    {
      if !dirExists {
        if !createSucceeds {
          return Failure(DirectoryError);
        }
        dirExists := true;
      }
      return Success(OUTPUT_DIR);
    }

    /** `write_output_file`: makes sure the directory exists, then writes
        `content` to the named file in it. `createSucceeds` and `write` are
        the operating system's answers. */
    method WriteOutputFile(filename: string, content: string, createSucceeds: bool, write: WriteOutcome)
      returns (r: Result<string, OutputError>)
      requires Valid()
      modifies this
      ensures Valid()
      ensures dirExists == (old(dirExists) || createSucceeds)
      ensures r.Success? <==> dirExists && write.Written?
      ensures r.Success? ==>
        r.value == JoinPath(OUTPUT_DIR, filename) && files == old(files)[JoinPath(OUTPUT_DIR, filename) := content]
      ensures !dirExists || write.OpenFails? ==> files == old(files)
      ensures dirExists && write.WriteFailsAfter? ==>
        files == old(files)[JoinPath(OUTPUT_DIR, filename) := WrittenPart(content, write)]
      ensures r.Failure? ==> r == Failure(DirectoryError)
    {
      var dir := EnsureOutputDir(createSucceeds);
      if dir.Failure? {
        return Failure(dir.error);
      }
      var path := JoinPath(dir.value, filename);
      if write.OpenFails? {
        return Failure(DirectoryError);
      }
      files := files[path := WrittenPart(content, write)];
      if !write.Written? {
        return Failure(DirectoryError);
      }
      return Success(path);
    }
  }
}
