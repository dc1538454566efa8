/** The pieces of Rust's standard string library that the core relies on,
    written out over `seq<char>`: `char::is_whitespace`, `str::trim`,
    `str::split_whitespace`, `str::lines`, `[&str]::join`, `str::contains`,
    `str::replace` and the decimal `to_string` of integers. */
module Text {

  // ----------------------------------------------------------------------
  // Whitespace, trim, split_whitespace

  /** The Unicode White_Space property, which `char::is_whitespace` tests. */
  predicate IsWhitespace(c: char) {
    ('\t' <= c <= '\r') || c == ' ' || c == '\U{0085}' || c == '\U{00A0}' || c == '\U{1680}'
    || ('\U{2000}' <= c <= '\U{200A}') || c == '\U{2028}' || c == '\U{2029}'
    || c == '\U{202F}' || c == '\U{205F}' || c == '\U{3000}'
  }

  predicate IsBlank(s: string) {
    forall k :: 0 <= k < |s| ==> IsWhitespace(s[k])
  }

  /** `str::trim_start`: drops the leading whitespace and nothing else. */
  function TrimStart(s: string): (r: string)
    ensures |r| <= |s| && r == s[|s| - |r|..]
    ensures IsBlank(s[..|s| - |r|])
    ensures r != [] ==> !IsWhitespace(r[0])
  {
    if s != [] && IsWhitespace(s[0]) then TrimStart(s[1..]) else s
  }

  /** `str::trim_end`: drops the trailing whitespace and nothing else. */
  function TrimEnd(s: string): (r: string)
    ensures |r| <= |s| && r == s[..|r|]
    ensures IsBlank(s[|r|..])
    ensures r != [] ==> !IsWhitespace(r[|r| - 1])
  {
    if s != [] && IsWhitespace(s[|s| - 1]) then
      var r := TrimEnd(s[..|s| - 1]);
      assert s[|r|..] == s[..|s| - 1][|r|..] + [s[|s| - 1]];
      r
    else s
  }

  /** `str::trim`. The result is empty exactly when the input is blank. */
  function Trim(s: string): (r: string)
    ensures |r| <= |s|
    ensures r == [] <==> IsBlank(s)
    ensures r != [] ==> !IsWhitespace(r[0]) && !IsWhitespace(r[|r| - 1])
  {
    var t := TrimStart(s);
    assert s == s[..|s| - |t|] + t;
    var r := TrimEnd(t);
    assert t == r + t[|r|..];
    r
  }

  /** `trim` keeps a contiguous slice of its input and drops only a blank
      run in front of it and a blank run after it. */
  lemma TrimIsInnerSlice(s: string)
    ensures exists i :: 0 <= i <= |s| - |Trim(s)| && Trim(s) == s[i..i + |Trim(s)|]
                        && IsBlank(s[..i]) && IsBlank(s[i + |Trim(s)|..])
  {
    var t := TrimStart(s);
    var i := |s| - |t|;
    var r := TrimEnd(t);
    assert t == s[i..];
    assert r == s[i..i + |r|];
    assert s[i + |r|..] == t[|r|..];
  }

  /** The length of the run of non-whitespace characters that starts `s`. */
  function WordLength(s: string): (n: nat)
    ensures n <= |s|
    ensures forall k :: 0 <= k < n ==> !IsWhitespace(s[k])
    ensures n < |s| ==> IsWhitespace(s[n])
  {
    if s == [] || IsWhitespace(s[0]) then 0 else 1 + WordLength(s[1..])
  }

  /** A non-empty run of non-whitespace characters. */
  predicate IsWord(w: string) {
    w != [] && forall k :: 0 <= k < |w| ==> !IsWhitespace(w[k])
  }

  /** `str::split_whitespace`: the maximal runs of non-whitespace characters, in order. */
  function Words(s: string): (ws: seq<string>)
    ensures forall j :: 0 <= j < |ws| ==> ws[j] != [] && !IsWhitespace(ws[j][0])
    ensures forall j :: 0 <= j < |ws| ==> IsWord(ws[j])
    decreases |s|
  {
    var t := TrimStart(s);
    if t == [] then []
    else
      var n := WordLength(t);
      var rest := Words(t[n..]);
      FirstWord(t, n, rest);
      [t[..n]] + rest
  }

  /** The run that starts a trimmed text, put in front of further words. */
  lemma FirstWord(t: string, n: nat, rest: seq<string>)
    requires t != [] && !IsWhitespace(t[0]) && n == WordLength(t)
    requires forall j :: 0 <= j < |rest| ==> IsWord(rest[j])
    ensures var ws := [t[..n]] + rest;
      forall j :: 0 <= j < |ws| ==> IsWord(ws[j]) && !IsWhitespace(ws[j][0])
  {
    var w := t[..n];
    assert IsWord(w) by {
      forall k | 0 <= k < |w| ensures !IsWhitespace(w[k]) {
        assert w[k] == t[k];
      }
    }
    var ws := [w] + rest;
    forall j | 0 <= j < |ws| ensures IsWord(ws[j]) && !IsWhitespace(ws[j][0]) {
      if j > 0 {
        assert ws[j] == rest[j - 1];
      }
    }
  }

  /** A text has no words exactly when it is blank. */
  lemma NoWordsIffBlank(s: string)
    ensures Words(s) == [] <==> IsBlank(s)
  {
    var t := TrimStart(s);
    if t == [] {
      assert s == s[..|s| - |t|];
    } else {
      assert s[|s| - |t|] == t[0];
    }
  }

  /** `split_whitespace().count()`. */
  function WordCount(s: string): nat {
    |Words(s)|
  }

  lemma TrimStartOfTrimmed(s: string)
    requires s == [] || !IsWhitespace(s[0])
    ensures TrimStart(s) == s
  {
  }

  lemma {:induction false} TrimStartAppend(s: string, w: string)
    requires TrimStart(s) != []
    ensures TrimStart(s + w) == TrimStart(s) + w
    decreases |s|
  {
    if IsWhitespace(s[0]) {
      assert (s + w)[1..] == s[1..] + w;
      TrimStartAppend(s[1..], w);
    }
  }

  lemma WordLengthAppendBlank(s: string, w: string)
    requires IsBlank(w)
    ensures WordLength(s + w) == WordLength(s)
  {
    var n := WordLength(s);
    if n == |s| {
      if w != [] {
        assert (s + w)[n] == w[0];
      }
      assert (s + w)[..n] == s;
      WordLengthFromBounds(s + w, n);
    } else {
      assert (s + w)[..n] == s[..n];
      assert (s + w)[n] == s[n];
      WordLengthFromBounds(s + w, n);
    }
  }

  lemma {:induction false} WordLengthFromBounds(s: string, n: nat)
    requires n <= |s|
    requires forall k :: 0 <= k < n ==> !IsWhitespace(s[k])
    requires n < |s| ==> IsWhitespace(s[n])
    ensures WordLength(s) == n
    decreases n
  {
    if n > 0 {
      WordLengthFromBounds(s[1..], n - 1);
    }
  }

  /** Appending whitespace never adds a word. */
  lemma {:induction false} WordsAppendBlank(s: string, w: string)
    requires IsBlank(w)
    ensures Words(s + w) == Words(s)
    decreases |s|
  {
    var t := TrimStart(s);
    if t == [] {
      BlankAppend(s[..|s| - |t|], w);
      assert s == s[..|s| - |t|];
      NoWordsIffBlank(s + w);
    } else {
      var n := WordLength(t);
      TrimStartAppend(s, w);
      WordLengthAppendBlank(t, w);
      WordsStep(s, t, n);
      WordsStep(s + w, t + w, n);
      WordsAppendBlank(t[n..], w);
      WordSplitAppend(t, w, n);
    }
  }

  /** Whitespace in front of a text is skipped by `trim_start`. */
  lemma {:induction false} TrimStartPrependBlank(b: string, s: string)
    requires IsBlank(b)
    ensures TrimStart(b + s) == TrimStart(s)
    decreases |b|
  {
    if b != [] {
      assert (b + s)[0] == b[0] && IsWhitespace(b[0]);
      assert (b + s)[1..] == b[1..] + s;
      assert IsBlank(b[1..]) by {
        forall k | 0 <= k < |b[1..]| ensures IsWhitespace(b[1..][k]) {
          assert b[1..][k] == b[k + 1];
        }
      }
      TrimStartPrependBlank(b[1..], s);
    } else {
      assert b + s == s;
    }
  }

  /** Whitespace in front of a text adds no word. */
  lemma WordsPrependBlank(b: string, s: string)
    requires IsBlank(b)
    ensures Words(b + s) == Words(s)
  {
    TrimStartPrependBlank(b, s);
  }

  /** Words joined by any non-empty run of whitespace split back into the
      same words: `split_whitespace` finds exactly the maximal runs. */
  lemma {:induction false} WordsOfJoin(ws: seq<string>, sep: string)
    requires sep != [] && IsBlank(sep)
    requires forall j :: 0 <= j < |ws| ==> IsWord(ws[j])
    ensures Words(Join(ws, sep)) == ws
    decreases |ws|
  {
    if |ws| == 1 {
      WordsOfWord(ws[0]);
    } else if |ws| > 1 {
      assert forall j :: 0 <= j < |ws[1..]| ==> ws[1..][j] == ws[j + 1];
      WordsOfJoin(ws[1..], sep);
      WordsOfJoinStep(ws, sep);
    }
  }

  lemma WordsOfJoinStep(ws: seq<string>, sep: string)
    requires |ws| > 1 && sep != [] && IsBlank(sep) && IsWord(ws[0])
    requires Words(Join(ws[1..], sep)) == ws[1..]
    ensures Words(Join(ws, sep)) == ws
  {
    var w, tail := ws[0], ws[1..];
    var rest := Join(tail, sep);
    var s := Join(ws, sep);
    assert s == w + sep + rest;
    WordsOfSeparated(w, sep, rest, s);
    HeadTail(ws);
  }

  /** Kept apart: proved next to the facts about `Words`, this equality
      of sequences of strings is costly. */
  lemma HeadTail<T>(xs: seq<T>)
    requires xs != []
    ensures [xs[0]] + xs[1..] == xs
  {
  }

  /** A single word is its own only word. */
  lemma WordsOfWord(w: string)
    requires IsWord(w)
    ensures Words(w) == [w]
  {
    WordLengthFromBounds(w, |w|);
    assert w[..|w|] == w && w[|w|..] == [];
    WordsStep(w, w, |w|);
  }

  /** A word followed by whitespace is the first word. */
  lemma WordsOfSeparated(w: string, sep: string, rest: string, s: string)
    requires IsWord(w) && sep != [] && IsBlank(sep) && s == w + sep + rest
    ensures Words(s) == [w] + Words(rest)
  {
    var tail := sep + rest;
    assert s == w + tail;
    assert forall k :: 0 <= k < |w| ==> s[k] == w[k];
    assert s[|w|] == sep[0] && s[..|w|] == w && s[|w|..] == tail;
    WordLengthFromBounds(s, |w|);
    TrimStartOfTrimmed(s);
    WordsStep(s, s, |w|);
    WordsPrependBlank(sep, rest);
  }

  lemma BlankAppend(a: string, b: string)
    requires IsBlank(a) && IsBlank(b)
    ensures IsBlank(a + b)
  {
    assert forall k :: 0 <= k < |a + b| ==> (a + b)[k] == if k < |a| then a[k] else b[k - |a|];
  }

  /** One step of `split_whitespace`: the first word, then the words of the rest. */
  lemma WordsStep(s: string, t: string, n: nat)
    requires t == TrimStart(s) && t != [] && n == WordLength(t)
    ensures Words(s) == [t[..n]] + Words(t[n..])
  {
  }

  lemma WordSplitAppend(t: string, w: string, n: nat)
    requires n <= |t|
    ensures (t + w)[..n] == t[..n] && (t + w)[n..] == t[n..] + w
  {
  }

  /** Trimming never changes the words, so the source's count over the
      trimmed output is the count over the output itself. */
  lemma WordsOfTrim(s: string)
    ensures Words(Trim(s)) == Words(s)
  {
    var t := TrimStart(s);
    var r := TrimEnd(t);
    assert Words(Trim(s)) == Words(t) by {
      assert t == r + t[|r|..];
      WordsAppendBlank(r, t[|r|..]);
    }
    assert Words(t) == Words(s) by {
      TrimStartOfTrimmed(t);
    }
  }

  // ----------------------------------------------------------------------
  // Lines and join

  /** The first index of `c` in `s`, or `|s|` when there is none. */
  function IndexOf(s: string, c: char): (i: nat)
    ensures i <= |s|
  {
    if s == [] || s[0] == c then 0 else 1 + IndexOf(s[1..], c)
  }

  /** IndexOf finds the first occurrence, and only a missing character gives `|s|`. */
  lemma {:induction false} IndexOfIsFirst(s: string, c: char)
    ensures var i := IndexOf(s, c);
      (i < |s| ==> s[i] == c) && forall k :: 0 <= k < i ==> s[k] != c
    decreases |s|
  {
    if s != [] && s[0] != c {
      IndexOfIsFirst(s[1..], c);
    }
  }

  function StripCarriageReturn(line: string): string {
    if line != [] && line[|line| - 1] == '\r' then line[..|line| - 1] else line
  }

  /** `str::lines`: split at each `\n`, dropping one `\r` just before it; an
      input ending in `\n` has no empty line after it, and `""` has no lines. */
  function Lines(s: string): (ls: seq<string>)
    ensures s != [] <==> ls != []
    decreases |s|
  {
    if s == [] then []
    else
      var i := IndexOf(s, '\n');
      if i == |s| then [s]
      else [StripCarriageReturn(s[..i])] + Lines(s[i + 1..])
  }

  /** No line holds a `\n`. */
  lemma {:induction false} LinesHaveNoNewline(s: string)
    ensures forall j :: 0 <= j < |Lines(s)| ==> '\n' !in Lines(s)[j]
    decreases |s|
  {
    if s != [] {
      var i := IndexOf(s, '\n');
      IndexOfIsFirst(s, '\n');
      if i == |s| {
        LinesWithoutNewline(s);
      } else {
        LinesStep(s, i);
        assert '\n' !in s[..i];
        LinesHaveNoNewline(s[i + 1..]);
      }
    }
  }

  /** `parts.join(sep)`. */
  function Join(parts: seq<string>, sep: string): string {
    if |parts| == 0 then []
    else if |parts| == 1 then parts[0]
    else parts[0] + sep + Join(parts[1..], sep)
  }

  lemma {:induction false} JoinAppend(a: seq<string>, b: seq<string>, sep: string)
    requires a != [] && b != []
    ensures Join(a + b, sep) == Join(a, sep) + sep + Join(b, sep)
    decreases |a|
  {
    if |a| > 1 {
      assert (a + b)[1..] == a[1..] + b;
      JoinAppend(a[1..], b, sep);
    } else {
      assert (a + b)[1..] == b;
    }
  }

  /** Joining the lines of a text without `\r` and without a final `\n`
      gives the text back. */
  lemma {:induction false} JoinOfLines(s: string)
    requires '\r' !in s
    requires s == [] || s[|s| - 1] != '\n'
    ensures Join(Lines(s), "\n") == s
    decreases |s|
  {
    if s != [] {
      var i := IndexOf(s, '\n');
      if i == |s| {
        LinesWithoutNewline(s);
      } else {
        var x, rest := s[..i], s[i + 1..];
        IndexOfIsFirst(s, '\n');
        SplitAt(s, i);
        assert '\r' !in x && '\r' !in rest;
        assert x == [] || x[|x| - 1] != '\r';
        LinesStep(s, i);
        JoinOfLines(rest);
        JoinCons(x, Lines(rest), "\n");
      }
    }
  }

  lemma SplitAt(s: string, i: nat)
    requires i < |s| && s[|s| - 1] != s[i]
    ensures s == s[..i] + [s[i]] + s[i + 1..] && s[i + 1..] != []
  {
  }

  lemma LinesWithoutNewline(s: string)
    requires s != [] && IndexOf(s, '\n') == |s|
    ensures Lines(s) == [s]
  {
  }

  /** One step of `str::lines`: the text up to the first `\n`, then the lines after it. */
  lemma LinesStep(s: string, i: nat)
    requires i == IndexOf(s, '\n') && i < |s|
    ensures Lines(s) == [StripCarriageReturn(s[..i])] + Lines(s[i + 1..])
  {
  }

  lemma JoinCons(x: string, ls: seq<string>, sep: string)
    requires ls != []
    ensures Join([x] + ls, sep) == x + sep + Join(ls, sep)
  {
    assert ([x] + ls)[1..] == ls;
  }

  /** Splitting a join of lines gives the lines back, when no line holds a
      `\n`, no line but the last ends in `\r`, and the last line is not empty. */
  lemma {:induction false} LinesOfJoin(ls: seq<string>)
    requires forall j :: 0 <= j < |ls| ==> '\n' !in ls[j]
    requires forall j :: 0 <= j < |ls| - 1 ==> ls[j] == [] || ls[j][|ls[j]| - 1] != '\r'
    requires ls == [] || ls[|ls| - 1] != []
    ensures Lines(Join(ls, "\n")) == ls
    decreases |ls|
  {
    if |ls| == 1 {
      NoIndexOf(ls[0], '\n');
      LinesWithoutNewline(ls[0]);
    } else if |ls| > 1 {
      var x, tail := ls[0], ls[1..];
      assert forall j :: 0 <= j < |tail| ==> tail[j] == ls[j + 1];
      LinesOfJoin(tail);
      var rest := Join(tail, "\n");
      assert Join(ls, "\n") == x + "\n" + rest;
      TerminatedLine(x, rest);
      HeadTail(ls);
    }
  }

  /** Splitting a join of lines that is closed by a `\n` gives the lines
      back, when no line holds a `\n` or ends in `\r`; the last line may
      be empty. */
  lemma {:induction false} LinesOfTerminatedJoin(ls: seq<string>)
    requires ls != []
    requires forall j :: 0 <= j < |ls| ==> '\n' !in ls[j]
    requires forall j :: 0 <= j < |ls| ==> ls[j] == [] || ls[j][|ls[j]| - 1] != '\r'
    ensures Lines(Join(ls, "\n") + "\n") == ls
    decreases |ls|
  {
    var x := ls[0];
    if |ls| == 1 {
      TerminatedLine(x, []);
      assert x + "\n" + [] == Join(ls, "\n") + "\n";
    } else {
      var tail := ls[1..];
      JoinCons(x, tail, "\n");
      assert ls == [x] + tail;
      assert forall j :: 0 <= j < |tail| ==> tail[j] == ls[j + 1];
      LinesOfTerminatedJoin(tail);
      var rest := Join(tail, "\n") + "\n";
      TerminatedLine(x, rest);
      assert x + "\n" + rest == Join(ls, "\n") + "\n";
    }
  }

  /** A line without a line break, closed by `\n`, is read back whole. */
  lemma TerminatedLine(x: string, rest: string)
    requires '\n' !in x
    requires x == [] || x[|x| - 1] != '\r'
    ensures Lines(x + "\n" + rest) == [x] + Lines(rest)
  {
    var nl := "\n" + rest;
    var s := x + nl;
    assert s == x + "\n" + rest;
    NoIndexOf(x, '\n');
    IndexOfAfter(x, nl, '\n');
    assert nl[0] == '\n' && IndexOf(nl, '\n') == 0;
    assert s[..|x|] == x && s[|x| + 1..] == rest;
    LinesStep(s, |x|);
  }

  /** `\r\n` ends a line just as `\n` does, and the `\r` is dropped. */
  lemma LinesCrLf(x: string, rest: string)
    requires '\n' !in x
    ensures Lines(x + "\r\n" + rest) == [x] + Lines(rest)
  {
    var a, nl := x + "\r", "\n" + rest;
    var s := a + nl;
    assert s == x + "\r\n" + rest;
    NoIndexOf(a, '\n');
    IndexOfAfter(a, nl, '\n');
    assert nl[0] == '\n' && IndexOf(nl, '\n') == 0;
    assert s[..|a|] == a && s[|a| + 1..] == rest;
    assert a[..|a| - 1] == x;
    LinesStep(s, |a|);
  }

  /** A final `\n` adds no empty line, when the text does not already end
      a line there. */
  lemma {:induction false} LinesFinalNewline(s: string)
    requires s != [] && s[|s| - 1] != '\n' && s[|s| - 1] != '\r'
    ensures Lines(s + "\n") == Lines(s)
    decreases |s|
  {
    var t := s + "\n";
    var i := IndexOf(s, '\n');
    if i == |s| {
      assert Lines(t) == [StripCarriageReturn(s)] + Lines([]) by {
        IndexOfIsFirst(s, '\n');
        IndexOfAfter(s, "\n", '\n');
        assert t[..|s|] == s && t[|s| + 1..] == [];
        LinesStep(t, |s|);
      }
    } else {
      assert s[i] == '\n' by {
        IndexOfIsFirst(s, '\n');
      }
      var line, after := StripCarriageReturn(s[..i]), s[i + 1..];
      assert Lines(t) == [line] + Lines(after + "\n") by {
        IndexOfFound(s, "\n", '\n');
        assert t[..i] == s[..i] && t[i + 1..] == after + "\n";
        LinesStep(t, i);
      }
      assert Lines(s) == [line] + Lines(after) by {
        LinesStep(s, i);
      }
      assert after != [] && after[|after| - 1] == s[|s| - 1];
      LinesFinalNewline(after);
    }
  }

  /** A character found in `a` is found at the same place in `a + b`. */
  lemma {:induction false} IndexOfFound(a: string, b: string, c: char)
    requires IndexOf(a, c) < |a|
    ensures IndexOf(a + b, c) == IndexOf(a, c)
    decreases |a|
  {
    if a[0] != c {
      assert (a + b)[1..] == a[1..] + b;
      IndexOfFound(a[1..], b, c);
    }
  }

  lemma NoIndexOf(s: string, c: char)
    requires c !in s
    ensures IndexOf(s, c) == |s|
  {
  }

  lemma {:induction false} IndexOfAfter(a: string, b: string, c: char)
    requires c !in a
    ensures IndexOf(a + b, c) == |a| + IndexOf(b, c)
    decreases |a|
  {
    if a != [] {
      assert (a + b)[0] == a[0] != c;
      assert (a + b)[1..] == a[1..] + b;
      assert c !in a[1..];
      IndexOfAfter(a[1..], b, c);
    } else {
      assert a + b == b;
    }
  }

  // ----------------------------------------------------------------------
  // contains and replace

  predicate StartsWith(s: string, p: string) {
    |p| <= |s| && s[..|p|] == p
  }

  /** `str::contains` for a string pattern. */
  predicate Contains(s: string, p: string)
    decreases |s|
  {
    StartsWith(s, p) || (s != [] && Contains(s[1..], p))
  }

  /** `str::replace(pat, rep)`: every occurrence of `pat`, found left to right
      without overlap, becomes `rep`; an empty `pat` matches before every
      character and at the end. */
  function Replace(s: string, pat: string, rep: string): string
    decreases |s|
  {
    if pat == [] then
      if s == [] then rep else rep + [s[0]] + Replace(s[1..], pat, rep)
    else if |s| < |pat| then s
    else if s[..|pat|] == pat then rep + Replace(s[|pat|..], pat, rep)
    else [s[0]] + Replace(s[1..], pat, rep)
  }

  /** A text without the pattern is left as it is. */
  lemma {:induction false} ReplaceAbsent(s: string, pat: string, rep: string)
    requires pat != [] && !Contains(s, pat)
    ensures Replace(s, pat, rep) == s
    decreases |s|
  {
    if |s| >= |pat| {
      ReplaceAbsent(s[1..], pat, rep);
      assert s == [s[0]] + s[1..];
    }
  }

  /** A text that is exactly the pattern becomes exactly the replacement. */
  lemma ReplaceWhole(pat: string, rep: string)
    requires pat != []
    ensures Replace(pat, pat, rep) == rep
  {
    assert pat[..|pat|] == pat && pat[|pat|..] == [];
  }

  /** Replacing a pattern by itself changes nothing. */
  lemma {:induction false} ReplaceBySelf(s: string, pat: string)
    ensures Replace(s, pat, pat) == s
    decreases |s|
  {
    if pat == [] {
      if s != [] {
        ReplaceBySelf(s[1..], pat);
      }
    } else if |s| >= |pat| {
      if s[..|pat|] == pat {
        ReplaceBySelf(s[|pat|..], pat);
        assert s == s[..|pat|] + s[|pat|..];
      } else {
        ReplaceBySelf(s[1..], pat);
      }
    }
  }

  /** No occurrence of `pat` in `a + b` overlaps the seam: the character on
      one side of it cannot be part of `pat`. */
  predicate SafeSeam(a: string, b: string, pat: string) {
    (a != [] && a[|a| - 1] !in pat) || (b != [] && b[0] !in pat)
  }

  /** Replacing in a concatenation replaces in each part, when no
      occurrence crosses the seam. */
  lemma {:induction false} ReplaceAppend(a: string, b: string, pat: string, rep: string)
    requires pat != []
    requires SafeSeam(a, b, pat)
    ensures Replace(a + b, pat, rep) == Replace(a, pat, rep) + Replace(b, pat, rep)
    decreases |a|, 2
  {
    var s := a + b;
    if a == [] {
      assert s == b;
    } else if |s| < |pat| {
      ReplaceShort(a, pat, rep);
      ReplaceShort(b, pat, rep);
      ReplaceShort(s, pat, rep);
    } else if s[..|pat|] == pat {
      ReplaceAppendAtMatch(a, b, pat, rep);
    } else {
      ReplaceAppendAtMismatch(a, b, pat, rep);
    }
  }

  lemma {:induction false} ReplaceAppendAtMatch(a: string, b: string, pat: string, rep: string)
    requires pat != [] && a != [] && SafeSeam(a, b, pat)
    requires |pat| <= |a + b| && (a + b)[..|pat|] == pat
    ensures Replace(a + b, pat, rep) == Replace(a, pat, rep) + Replace(b, pat, rep)
    decreases |a|, 1
  {
    SeamBlocksMatch(a, b, pat);
    assert a[..|pat|] == pat;
    ReplaceAppendTail(a, b, pat, rep, |pat|);
    ReplaceAtMatch(a, pat, rep);
    ReplaceAtMatch(a + b, pat, rep);
  }

  lemma {:induction false} ReplaceAppendAtMismatch(a: string, b: string, pat: string, rep: string)
    requires pat != [] && a != [] && SafeSeam(a, b, pat)
    requires |pat| <= |a + b| && (a + b)[..|pat|] != pat
    ensures Replace(a + b, pat, rep) == Replace(a, pat, rep) + Replace(b, pat, rep)
    decreases |a|, 1
  {
    ReplaceAppendTail(a, b, pat, rep, 1);
    ReplaceAtMismatch(a + b, pat, rep);
    assert (a + b)[0] == a[0];
    if |a| >= |pat| {
      assert a[..|pat|] == (a + b)[..|pat|];
      ReplaceAtMismatch(a, pat, rep);
    } else {
      ReplaceShort(a, pat, rep);
      ReplaceShort(a[1..], pat, rep);
      ConsTail(a, Replace(b, pat, rep));
    }
  }

  lemma ConsTail(a: string, r: string)
    requires a != []
    ensures [a[0]] + (a[1..] + r) == a + r
  {
    assert a == [a[0]] + a[1..];
  }

  lemma ReplaceShort(s: string, pat: string, rep: string)
    requires pat != [] && |s| < |pat|
    ensures Replace(s, pat, rep) == s
  {
  }

  lemma ReplaceAtMatch(s: string, pat: string, rep: string)
    requires pat != [] && |pat| <= |s| && s[..|pat|] == pat
    ensures Replace(s, pat, rep) == rep + Replace(s[|pat|..], pat, rep)
  {
  }

  lemma ReplaceAtMismatch(s: string, pat: string, rep: string)
    requires pat != [] && |pat| <= |s| && s[..|pat|] != pat
    ensures Replace(s, pat, rep) == [s[0]] + Replace(s[1..], pat, rep)
  {
  }

  /** The step of ReplaceAppend that moves on past the first `k` characters of `a`. */
  lemma {:induction false} ReplaceAppendTail(a: string, b: string, pat: string, rep: string, k: nat)
    requires pat != [] && 1 <= k <= |a|
    requires SafeSeam(a, b, pat)
    ensures Replace((a + b)[k..], pat, rep) == Replace(a[k..], pat, rep) + Replace(b, pat, rep)
    decreases |a|, 0
  {
    assert (a + b)[k..] == a[k..] + b;
    if a[k..] != [] {
      assert a[k..][|a[k..]| - 1] == a[|a| - 1];
      ReplaceAppend(a[k..], b, pat, rep);
    } else {
      assert (a + b)[k..] == b;
    }
  }

  /** Under a safe seam an occurrence at the start of `a + b` lies inside `a`. */
  lemma SeamBlocksMatch(a: string, b: string, pat: string)
    requires a != [] && SafeSeam(a, b, pat)
    requires |pat| <= |a + b| && (a + b)[..|pat|] == pat
    ensures |pat| <= |a|
  {
    if |pat| > |a| {
      SeamChars(a, b, pat);
      assert false;
    }
  }

  lemma SeamChars(a: string, b: string, pat: string)
    requires a != [] && |a| < |pat| <= |a + b| && (a + b)[..|pat|] == pat
    ensures a[|a| - 1] in pat && b[0] in pat
  {
    assert pat[|a| - 1] == (a + b)[|a| - 1] == a[|a| - 1];
    assert pat[|a|] == (a + b)[|a|] == b[0];
  }

  /** A pattern longer than the text is not in it. */
  lemma {:induction false} LongerNotContained(s: string, p: string)
    requires |p| > |s|
    ensures !Contains(s, p)
    decreases |s|
  {
    if s != [] {
      LongerNotContained(s[1..], p);
    }
  }

  /** A text contains itself. */
  lemma ContainsSelf(p: string)
    ensures Contains(p, p)
  {
    assert p[..|p|] == p;
  }

  /** What the end of a text contains, the whole text contains. */
  lemma {:induction false} ContainsInSuffix(a: string, y: string, p: string)
    requires Contains(y, p)
    ensures Contains(a + y, p)
    decreases |a|
  {
    if a == [] {
      assert a + y == y;
    } else {
      assert (a + y)[1..] == a[1..] + y;
      ContainsInSuffix(a[1..], y, p);
    }
  }

  /** What the start of a text contains, the whole text contains. */
  lemma {:induction false} ContainsInPrefix(y: string, z: string, p: string)
    requires Contains(y, p)
    ensures Contains(y + z, p)
    decreases |y|
  {
    if StartsWith(y, p) {
      assert (y + z)[..|p|] == y[..|p|];
    } else {
      assert (y + z)[1..] == y[1..] + z;
      ContainsInPrefix(y[1..], z, p);
    }
  }

  /** A text contains each of its middle parts. */
  lemma ContainsMiddle(a: string, p: string, z: string)
    ensures Contains(a + p + z, p)
  {
    ContainsSelf(p);
    ContainsInPrefix(p, z, p);
    ContainsInSuffix(a, p + z, p);
    assert a + p + z == a + (p + z);
  }

  /** A string whose characters avoid the first character of `pat` does not contain it. */
  lemma {:induction false} FirstCharAbsent(s: string, pat: string)
    requires pat != [] && pat[0] !in s
    ensures !Contains(s, pat)
    decreases |s|
  {
    if s != [] {
      FirstCharAbsent(s[1..], pat);
    }
  }

  /** A text that does not contain `p` does not contain anything that starts with `p`. */
  lemma {:induction false} NotContainsExtension(s: string, p: string, q: string)
    requires !Contains(s, p)
    requires StartsWith(q, p)
    ensures !Contains(s, q)
    decreases |s|
  {
    if s != [] {
      NotContainsExtension(s[1..], p, q);
    }
  }

  /** A two-character pattern found in neither part, and not formed across
      the seam, is not found in the concatenation. */
  lemma {:induction false} NotContainsAppend(a: string, b: string, p: string)
    requires |p| == 2
    requires !Contains(a, p) && !Contains(b, p)
    requires !(a != [] && b != [] && a[|a| - 1] == p[0] && b[0] == p[1])
    ensures !Contains(a + b, p)
    decreases |a|
  {
    if a == [] {
      assert a + b == b;
    } else {
      var s := a + b;
      assert s[1..] == a[1..] + b;
      if a[1..] != [] {
        assert a[1..][|a[1..]| - 1] == a[|a| - 1];
      }
      NotContainsAppend(a[1..], b, p);
    }
  }

  /** `s` with every `c` turned into `d`, character by character. */
  function MapChar(s: string, c: char, d: char): (r: string)
    ensures |r| == |s|
    ensures forall k :: 0 <= k < |s| ==> r[k] == if s[k] == c then d else s[k]
  {
    seq(|s|, k requires 0 <= k < |s| => if s[k] == c then d else s[k])
  }

  /** Replacing a one-character pattern by one character is a per-character map. */
  lemma {:induction false} ReplaceCharIsMap(s: string, c: char, d: char)
    ensures Replace(s, [c], [d]) == MapChar(s, c, d)
    decreases |s|
  {
    if s != [] {
      ReplaceCharIsMap(s[1..], c, d);
      assert s[..1] == [s[0]];
      assert s[1..] == s[|[c]|..];
    }
  }

  // ----------------------------------------------------------------------
  // Decimal digits

  predicate IsDigit(c: char) {
    '0' <= c <= '9'
  }

  predicate AllDigits(s: string) {
    forall k :: 0 <= k < |s| ==> IsDigit(s[k])
  }

  function DigitChar(d: nat): (c: char)
    requires d < 10
    ensures IsDigit(c)
  {
    (48 + d) as char
  }

  /** The number a string of decimal digits denotes. */
  function DigitsValue(s: string): nat
    requires AllDigits(s)
  {
    if s == [] then 0 else DigitsValue(s[..|s| - 1]) * 10 + (s[|s| - 1] as int - 48)
  }

  function Pow10(n: nat): (p: nat)
    ensures p >= 1
  {
    if n == 0 then 1 else 10 * Pow10(n - 1)
  }

  /** `u32::to_string` / `usize::to_string`: decimal, no leading zeros. */
  function NatToString(n: nat): (s: string)
    ensures s != [] && AllDigits(s)
    ensures s[0] == '0' ==> n == 0 && |s| == 1
    decreases n
  {
    if n < 10 then [DigitChar(n)] else NatToString(n / 10) + [DigitChar(n % 10)]
  }

  /** `i32::to_string`: a minus sign before the digits of a negative number. */
  function IntToString(i: int): (s: string)
    ensures s != []
    ensures forall k :: 0 <= k < |s| ==> IsDigit(s[k]) || (k == 0 && s[k] == '-')
    ensures s[0] == '-' <==> i < 0
  {
    if i < 0 then "-" + NatToString(-i) else NatToString(i)
  }

  /** The decimal digits of `n` read back give `n`. */
  lemma {:induction false} NatToStringValue(n: nat)
    ensures DigitsValue(NatToString(n)) == n
    decreases n
  {
    var s := NatToString(n);
    if n >= 10 {
      NatToStringValue(n / 10);
      assert s[..|s| - 1] == NatToString(n / 10);
    }
  }

  /** The text of an `i32` reads back as its value: the digits alone for
      a number that is not negative, and after the `-` otherwise. */
  lemma IntToStringValue(i: int)
    ensures i >= 0 ==> AllDigits(IntToString(i)) && DigitsValue(IntToString(i)) == i
    ensures i < 0 ==> AllDigits(IntToString(i)[1..]) && DigitsValue(IntToString(i)[1..]) == -i
  {
    if i < 0 {
      assert IntToString(i)[1..] == NatToString(-i);
      NatToStringValue(-i);
    } else {
      NatToStringValue(i);
    }
  }

  /** Exactly `width` digits: the last `width` decimal digits of `n`,
      zero-padded on the left (chrono's `%Y`, `%m`, `%d`, `%H`, `%M`, `%S`). */
  function PadDigits(n: nat, width: nat): (s: string)
    ensures |s| == width && AllDigits(s)
  {
    if width == 0 then [] else PadDigits(n / 10, width - 1) + [DigitChar(n % 10)]
  }

  lemma {:induction false} PadDigitsValue(n: nat, width: nat)
    requires n < Pow10(width)
    ensures DigitsValue(PadDigits(n, width)) == n
    decreases width
  {
    if width > 0 {
      var s := PadDigits(n, width);
      PadDigitsValue(n / 10, width - 1);
      assert s[..|s| - 1] == PadDigits(n / 10, width - 1);
    }
  }
}
