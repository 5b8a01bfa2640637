/** The selection and truncation of earlier project files that may be shown to
    the model as context for a step: the files whose name or directory the
    step text mentions (or else the most recent ones), each cut to a bounded
    number of lines. */
module ContextFilter {
  import opened Wrappers
  import opened Text

  predicate IsSep(c: char) { c == '/' }

  /** `os.path.basename(p)` on POSIX: everything after the last `/`. */
  function Basename(p: string): (r: string)
    ensures '/' !in r
    ensures |r| <= |p| && r == p[|p| - |r|..]
    ensures |r| < |p| ==> p[|p| - |r| - 1] == '/'
  {
    p[RFind(p, '/') + 1..]
  }

  /** `os.path.dirname(p)` on POSIX: everything up to the last `/`, with the
      trailing slashes removed unless nothing but slashes is left. */
  function Dirname(p: string): (r: string)
    ensures |r| <= |p| && r == p[..|r|]
    ensures '/' !in p ==> r == []
  {
    var head := p[..RFind(p, '/') + 1];
    if head != [] && exists i :: 0 <= i < |head| && head[i] != '/' then RStrip(head, IsSep) else head
  }

  /** The test that puts a path among the relevant files: its lower-cased
      basename or its lower-cased directory occurs in the lower-cased step. */
  predicate Mentioned(path: string, stepLower: string) {
    Contains(stepLower, Lower(Basename(path))) || Contains(stepLower, Lower(Dirname(path)))
  }

  /** A path without a directory part is mentioned by every step, because the
      empty directory name occurs in every text. */
  lemma NoDirectoryAlwaysMentioned(path: string, stepLower: string)
    requires '/' !in path
    ensures Mentioned(path, stepLower)
  {
    assert Lower(Dirname(path)) == [];
    EmptyIsContained(stepLower);
  }

  /** The entries (path, code) whose path is mentioned, in dictionary order. */
  function Chosen(entries: seq<(string, string)>, stepLower: string): seq<(string, string)>
    decreases |entries|
  {
    if entries == [] then []
    else
      var last := entries[|entries| - 1];
      Chosen(entries[..|entries| - 1], stepLower) + (if Mentioned(last.0, stepLower) then [last] else [])
  }

  /** An entry is chosen exactly when it is in the dictionary and mentioned. */
  lemma {:induction false} ChosenIff(entries: seq<(string, string)>, stepLower: string, e: (string, string))
    ensures e in Chosen(entries, stepLower) <==> e in entries && Mentioned(e.0, stepLower)
    decreases |entries|
  {
    if entries != [] {
      var init := entries[..|entries| - 1];
      ChosenIff(init, stepLower, e);
      assert entries == init + [entries[|entries| - 1]];
    }
  }

  /** `keys[-n:]` for `n >= 0`: the last `n` keys, or all of them when `n` is
      zero or at least their number. */
  function LastN<T>(s: seq<T>, n: nat): (r: seq<T>)
    ensures n == 0 || n >= |s| ==> r == s
    ensures 0 < n <= |s| ==> |r| == n
    ensures |r| <= |s| && r == s[|s| - |r|..]
  {
    if n == 0 || n >= |s| then s else s[|s| - n..]
  }

  /** The entries shown to the model: the mentioned ones or, when none is,
      the last `maxFiles` of the dictionary. */
  function Selected(entries: seq<(string, string)>, stepLower: string, maxFiles: nat): seq<(string, string)> {
    var c := Chosen(entries, stepLower);
    if c == [] then LastN(entries, maxFiles) else c
  }

  /** Python's line boundaries for `str.splitlines`. */
  predicate IsLineBreak(c: char) {
    c == '\n' || c == '\r' || c == '\U{b}' || c == '\U{c}' || c == '\U{1c}' || c == '\U{1d}' ||
    c == '\U{1e}' || c == '\U{85}' || c == '\U{2028}' || c == '\U{2029}'
  }

  /** The index of the first line boundary, or `|s|`. */
  function LineEnd(s: string): (k: nat)
    ensures k <= |s| && (k < |s| ==> IsLineBreak(s[k]))
    ensures forall j :: 0 <= j < k ==> !IsLineBreak(s[j])
  {
    if s == [] || IsLineBreak(s[0]) then 0 else 1 + LineEnd(s[1..])
  }

  /** `s.splitlines()`: the lines without their boundaries (`\r\n` counts as
      one), and no empty line after a final boundary. */
  function SplitLines(s: string): (lines: seq<string>)
    ensures lines == [] <==> s == []
    ensures forall i, j :: 0 <= i < |lines| && 0 <= j < |lines[i]| ==> !IsLineBreak(lines[i][j])
    decreases |s|
  {
    if s == [] then []
    else
      var k := LineEnd(s);
      if k == |s| then [s]
      else
        var next := if s[k] == '\r' && k + 1 < |s| && s[k + 1] == '\n' then k + 2 else k + 1;
        [s[..k]] + SplitLines(s[next..])
  }

  const TruncationMarker: string := "\n... [FILE_TRUNCATED] ...\n"

  /** `lines[-(m // 2 rounded up):]`, which is all lines when `m` is zero. */
  function TailLines(lines: seq<string>, m: nat): seq<string>
    requires m <= |lines|
  {
    var n := m - m / 2;
    if n == 0 then lines else lines[|lines| - n..]
  }

  /** A file of more than `maxLines` lines becomes its first half and its last
      half joined with newlines around the truncation marker; a shorter file is
      kept as it is. */
  function Reduce(code: string, maxLines: nat): (r: string)
    ensures |SplitLines(code)| <= maxLines ==> r == code
  {
    var lines := SplitLines(code);
    if |lines| <= maxLines then code
    else Join(lines[..maxLines / 2], "\n") + TruncationMarker + Join(TailLines(lines, maxLines), "\n")
  }

  /** A long file keeps exactly `maxLines` of its lines: the first
      `maxLines / 2` and the last `maxLines - maxLines / 2`. */
  lemma ReduceKeepsMaxLines(code: string, maxLines: nat)
    requires 0 < maxLines < |SplitLines(code)|
    ensures var lines := SplitLines(code);
      exists head, tail ::
        |head| + |tail| == maxLines && |head| == maxLines / 2 &&
        head == lines[..|head|] && tail == lines[|lines| - |tail|..] &&
        Reduce(code, maxLines) == Join(head, "\n") + TruncationMarker + Join(tail, "\n")
  {
    var lines := SplitLines(code);
    var head := lines[..maxLines / 2];
    var tail := TailLines(lines, maxLines);
    assert |tail| == maxLines - maxLines / 2;
    assert head == lines[..|head|];
    assert tail == lines[|lines| - |tail|..];
    assert Reduce(code, maxLines) == Join(head, "\n") + TruncationMarker + Join(tail, "\n");
  }

  /** With a limit of zero, `lines[:0]` is empty but `lines[-0:]` is every
      line, so a non-empty file is kept whole after the truncation marker. */
  lemma ReduceZeroKeepsAll(code: string)
    requires code != []
    ensures Reduce(code, 0) == TruncationMarker + Join(SplitLines(code), "\n")
  {
    var lines := SplitLines(code);
    assert lines[..0] == [];
  }

  function Section(entry: (string, string), maxLines: nat): string {
    "// FILE: " + entry.0 + "\n" + Reduce(entry.1, maxLines)
  }

  /** One section per entry, in order. */
  function Sections(entries: seq<(string, string)>, maxLines: nat): (r: seq<string>)
    ensures |r| == |entries|
    decreases |entries|
  {
    if entries == [] then []
    else Sections(entries[..|entries| - 1], maxLines) + [Section(entries[|entries| - 1], maxLines)]
  }

  /** `_filter_relevant_context` as a value: nothing for an empty dictionary,
      otherwise the sections of the selected files separated by blank lines. */
  function FilteredContext(stepText: string, entries: seq<(string, string)>, maxFiles: nat, maxLines: nat): Option<string> {
    if entries == [] then None
    else Some(Join(Sections(Selected(entries, Lower(stepText), maxFiles), maxLines), "\n\n"))
  }

  /** The context is absent exactly for an empty dictionary; otherwise at least
      one file is shown. */
  lemma ContextPresentIffFiles(stepText: string, entries: seq<(string, string)>, maxFiles: nat, maxLines: nat)
    ensures FilteredContext(stepText, entries, maxFiles, maxLines).None? <==> entries == []
    ensures entries != [] ==> Selected(entries, Lower(stepText), maxFiles) != []
  {
  }

  /** When no path is mentioned, the last `maxFiles` entries are shown (all
      of them when `maxFiles` is zero). */
  lemma FallbackToLatest(entries: seq<(string, string)>, stepLower: string, maxFiles: nat)
    requires forall e :: e in entries ==> !Mentioned(e.0, stepLower)
    ensures Selected(entries, stepLower, maxFiles) == LastN(entries, maxFiles)
  {
    if Chosen(entries, stepLower) != [] {
      var e := Chosen(entries, stepLower)[0];
      ChosenIff(entries, stepLower, e);
    }
  }

  /** `_filter_relevant_context`. The dictionary is given as its items in
      insertion order. */
  method FilterRelevantContext(stepText: string, entries: seq<(string, string)>, maxFiles: nat, maxLines: nat)
    returns (r: Option<string>)
    ensures r == FilteredContext(stepText, entries, maxFiles, maxLines)
  {
    if entries == [] {
      return None;
    }
    var stepLower := Lower(stepText);
    var relevant := CollectMentioned(entries, stepLower);
    if relevant == [] {
      relevant := LastN(entries, maxFiles);
    }
    var parts := ReduceAll(relevant, maxLines);
    r := Some(Join(parts, "\n\n"));
  }

  /** The first loop: the mentioned entries, in dictionary order. */
  method CollectMentioned(entries: seq<(string, string)>, stepLower: string) returns (relevant: seq<(string, string)>)
    ensures relevant == Chosen(entries, stepLower)
  {
    relevant := [];
    var i := 0;
    while i < |entries|
      invariant 0 <= i <= |entries|
      invariant relevant == Chosen(entries[..i], stepLower)
    {
      if Mentioned(entries[i].0, stepLower) {
        relevant := relevant + [entries[i]];
      }
      assert entries[..i + 1][..i] == entries[..i];
      i := i + 1;
    }
    assert entries[..i] == entries;
  }

  /** The second loop: one section per selected entry. */
  method ReduceAll(relevant: seq<(string, string)>, maxLines: nat) returns (parts: seq<string>)
    ensures parts == Sections(relevant, maxLines)
  {
    parts := [];
    var j := 0;
    while j < |relevant|
      invariant 0 <= j <= |relevant|
      invariant parts == Sections(relevant[..j], maxLines)
    {
      parts := parts + [Section(relevant[j], maxLines)];
      assert relevant[..j + 1][..j] == relevant[..j];
      j := j + 1;
    }
    assert relevant[..j] == relevant;
  }
}
