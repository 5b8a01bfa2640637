/** The response normaliser of the code-generation service: fence stripping,
    the repair of quoted spans, and the cheap viability check used by the
    retry loop. */
module Normalizer {
  import opened Wrappers
  import opened Text
  import opened Json

  // ---------------------------------------------------------------------------
  // Fence stripping
  // ---------------------------------------------------------------------------

  predicate IsNewline(c: char) { c == '\n' }

  /** Removes a surrounding Markdown fence (keeping the text from the first `{`
      on) and a leading `json` language tag. */
  function StripCodeFences(s: string): (r: string)
    ensures s == [] ==> r == []
  {
    if s == [] then s
    else
      var u := Unfenced(s);
      if StartsWith(Lower(u), "json") then DropTag(u) else u
  }

  /** The normalised text never begins or ends with whitespace. */
  lemma StripCodeFencesTrimmed(s: string)
    ensures var r := StripCodeFences(s); r != [] ==> !IsSpace(r[0]) && !IsSpace(r[|r| - 1])
  {
    if s != [] {
      var u := Unfenced(s);
      if StartsWith(Lower(u), "json") {
        var r := DropTag(u);
      }
    }
  }

  /** The text after `s.strip()` and, when it opens with three backticks,
      after the fence has been removed. */
  function Unfenced(s: string): (r: string)
    ensures r != [] ==> !IsSpace(r[0]) && !IsSpace(r[|r| - 1])
  {
    var t := Strip(s);
    if StartsWith(t, "```") then Unfence(t) else t
  }

  /** `u[4:].lstrip("\n").lstrip()`. */
  function DropTag(u: string): (r: string)
    requires |u| >= 4
    ensures |r| <= |u| - 4 && (r != [] ==> r[|r| - 1] == u[|u| - 1])
    ensures r != [] ==> !IsSpace(r[0])
  {
    LStrip(LStrip(u[4..], IsNewline), IsSpace)
  }

  /** The fenced branch: drop the opening backticks, everything before the
      first `{` (when there is one), the closing backticks and whitespace. */
  function Unfence(t: string): (r: string)
    ensures r != [] ==> !IsSpace(r[0]) && !IsSpace(r[|r| - 1])
  {
    var a := LStrip(t, IsBacktick);
    var fb := Find(a, '{');
    var b := if fb != -1 then a[fb..] else a;
    Strip(RStrip(b, IsBacktick))
  }

  /** The prefix `lstrip` drops is exactly the first `n` characters when
      they all satisfy `drop` and the next one does not. */
  lemma LeadingCountIs(s: string, n: nat, drop: char -> bool)
    requires n <= |s| && (forall i :: 0 <= i < n ==> drop(s[i])) && (n < |s| ==> !drop(s[n]))
    ensures LStrip(s, drop) == s[n..]
  {
  }

  lemma {:induction false} RStripSkips(s: string, n: nat, drop: char -> bool)
    requires n <= |s| && forall i :: |s| - n <= i < |s| ==> drop(s[i])
    ensures RStrip(s, drop) == RStrip(s[..|s| - n], drop)
    decreases n
  {
    if n > 0 {
      RStripSkips(s[..|s| - 1], n - 1, drop);
      assert s[..|s| - 1][..|s| - 1 - (n - 1)] == s[..|s| - n];
    }
  }

  /** `s.strip()` leaves a text alone whose ends are not whitespace. */
  lemma StripTrimmed(s: string)
    requires s != [] && !IsSpace(s[0]) && !IsSpace(s[|s| - 1])
    ensures Strip(s) == s
  {
    assert LStrip(s, IsSpace) == s;
    assert RStrip(s, IsSpace) == s;
  }

  /** Wrapping a payload in a ```json fence and stripping it gives the payload
      back, for a payload that starts with `{` and ends in neither a backtick
      nor whitespace. */
  lemma FencedPayloadRoundTrip(p: string)
    requires |p| > 0 && p[0] == '{'
    requires !IsBacktick(p[|p| - 1]) && !IsSpace(p[|p| - 1])
    ensures StripCodeFences("```json\n" + p + "\n```") == p
  {
    UnfencedWrapped(p);
    NotTagged(p);
  }

  lemma UnfencedWrapped(p: string)
    requires |p| > 0 && p[0] == '{'
    requires !IsBacktick(p[|p| - 1]) && !IsSpace(p[|p| - 1])
    ensures Unfenced("```json\n" + p + "\n```") == p
  {
    var w := "```json\n" + p + "\n```";
    StripTrimmed(w);
    assert StartsWith(w, "```") by { assert w[..3] == "```"; }
    UnfenceWrapped(p);
  }

  lemma UnfenceWrapped(p: string)
    requires |p| > 0 && p[0] == '{'
    requires !IsBacktick(p[|p| - 1]) && !IsSpace(p[|p| - 1])
    ensures Unfence("```json\n" + p + "\n```") == p
  {
    var w := "```json\n" + p + "\n```";
    var a := "json\n" + p + "\n```";
    OpeningBackticks(p);
    BraceAfterTag(p);
    assert a[5..] == p + "\n```";
    ClosingBackticks(p);
    PayloadNewline(p);
  }

  lemma OpeningBackticks(p: string)
    ensures LStrip("```json\n" + p + "\n```", IsBacktick) == "json\n" + p + "\n```"
  {
    var w := "```json\n" + p + "\n```";
    var a := "json\n" + p + "\n```";
    assert IsBacktick(w[0]) && IsBacktick(w[1]) && IsBacktick(w[2]) && !IsBacktick(w[3]);
    LeadingCountIs(w, 3, IsBacktick);
    assert w[3..] == a;
  }

  lemma BraceAfterTag(p: string)
    requires |p| > 0 && p[0] == '{'
    ensures Find("json\n" + p + "\n```", '{') == 5
  {
    var a := "json\n" + p + "\n```";
    assert a[5] == '{';
    assert forall j :: 0 <= j < 5 ==> a[j] != '{';
  }

  lemma ClosingBackticks(p: string)
    requires |p| > 0 && !IsBacktick(p[|p| - 1])
    ensures RStrip(p + "\n```", IsBacktick) == p + "\n"
  {
    var b := p + "\n```";
    RStripSkips(b, 3, IsBacktick);
    assert b[..|b| - 3] == p + "\n";
  }

  lemma PayloadNewline(p: string)
    requires |p| > 0 && !IsSpace(p[0]) && !IsSpace(p[|p| - 1])
    ensures Strip(p + "\n") == p
  {
    var q := p + "\n";
    assert LStrip(q, IsSpace) == q;
    RStripSkips(q, 1, IsSpace);
    assert q[..|q| - 1] == p;
    assert RStrip(p, IsSpace) == p;
  }

  /** A bare payload that starts with `{` and carries no surrounding
      whitespace is returned unchanged, so a fenced and an unfenced payload
      normalise to the same text. */
  lemma BarePayloadUnchanged(p: string)
    requires |p| > 0 && p[0] == '{' && !IsSpace(p[|p| - 1])
    ensures StripCodeFences(p) == p
  {
    UnfencedBare(p);
    NotTagged(p);
  }

  lemma UnfencedBare(p: string)
    requires |p| > 0 && p[0] == '{' && !IsSpace(p[|p| - 1])
    ensures Unfenced(p) == p
  {
    StripTrimmed(p);
    NotFenced(p);
  }

  lemma NotFenced(p: string)
    requires |p| > 0 && p[0] == '{'
    ensures !StartsWith(p, "```")
  {
    assert p[0] != "```"[0];
  }

  /** A text that starts with `{` carries no `json` tag. */
  lemma NotTagged(p: string)
    requires |p| > 0 && p[0] == '{'
    ensures !StartsWith(Lower(p), "json")
  {
    var l := Lower(p);
    assert l[0] == '{';
    assert "json"[0] == 'j';
  }

  // ---------------------------------------------------------------------------
  // Quoted-span repair
  // ---------------------------------------------------------------------------

  /** A `"` at `k` that closes a span: the regex `".*?(?<!\\)"` accepts it. */
  predicate ClosesAt(t: string, k: int) {
    1 <= k < |t| && t[k] == '"' && t[k - 1] != '\\'
  }

  /** The characters after a backslash that make it a valid escape for the
      repair (note that `u` is not among them). */
  predicate IsEscapeLetter(c: char) {
    c == 'b' || c == 't' || c == 'n' || c == 'f' || c == 'r' || c == '"' || c == '\\' || c == '/'
  }

  /** The first closing quote at or after `j`. */
  function Closer(t: string, j: nat): (r: Option<nat>)
    requires 1 <= j <= |t|
    ensures r.Some? ==> j <= r.value < |t| && ClosesAt(t, r.value)
    ensures r.Some? ==> forall k :: j <= k < r.value ==> !ClosesAt(t, k)
    ensures r.None? ==> forall k :: j <= k < |t| ==> !ClosesAt(t, k)
    decreases |t| - j
  {
    if j == |t| then None
    else if ClosesAt(t, j) then Some(j)
    else Closer(t, j + 1)
  }

  /** A stretch of the NUL-free text: left alone, or a quoted span that the
      regex matched. */
  datatype Segment = Plain(text: string) | Quoted(text: string)

  /** The segments of `t[i..]`, as `re.sub` finds the leftmost-shortest matches
      of `".*?(?<!\\)"` from position `i`. Once a `"` has no closing quote no
      later `"` has one either, so the rest is plain. */
  function Split(t: string, i: nat): seq<Segment>
    requires i <= |t|
    decreases |t| - i
  {
    if i == |t| then []
    else if t[i] != '"' then [Plain([t[i]])] + Split(t, i + 1)
    else match Closer(t, i + 1)
      case None => [Plain(t[i..])]
      case Some(j) => [Quoted(t[i..j + 1])] + Split(t, j + 1)
  }

  /** The replacement for the character at `k` of a matched span: a backslash
      that is neither preceded by a backslash nor followed by an escape letter
      is doubled; raw newline, carriage return and tab become `\n`, `\r`, `\t`. */
  function EscapeAt(q: string, k: nat): string
    requires k < |q|
  {
    var c := q[k];
    if c == '\\' && (k == 0 || q[k - 1] != '\\') && (k + 1 == |q| || !IsEscapeLetter(q[k + 1])) then "\\\\"
    else if c == '\n' then "\\n"
    else if c == '\r' then "\\r"
    else if c == '\t' then "\\t"
    else [c]
  }

  function EscapeFrom(q: string, k: nat): string
    requires k <= |q|
    decreases |q| - k
  {
    if k == |q| then [] else EscapeAt(q, k) + EscapeFrom(q, k + 1)
  }

  /** `escape_in_string` applied to one matched span. */
  function EscapeSpan(q: string): string {
    EscapeFrom(q, 0)
  }

  function JoinSegments(segs: seq<Segment>): string {
    if segs == [] then [] else segs[0].text + JoinSegments(segs[1..])
  }

  function Render(segs: seq<Segment>): string {
    if segs == [] then []
    else (match segs[0] case Plain(x) => x case Quoted(x) => EscapeSpan(x)) + Render(segs[1..])
  }

  /** `_sanitize_json_string`: drop every NUL, then repair each quoted span;
      text outside the spans is copied as it is. */
  function SanitizeJsonString(s: string): string {
    if s == [] then s else Render(Split(Remove(s, '\0'), 0))
  }

  /** The segments cover the text exactly, in order. */
  lemma {:induction false} SplitCovers(t: string, i: nat)
    requires i <= |t|
    ensures JoinSegments(Split(t, i)) == t[i..]
    decreases |t| - i
  {
    if i < |t| {
      var j := if t[i] != '"' then i else Closer(t, i + 1).GetOr(|t|);
      if j < |t| {
        SplitCovers(t, j + 1);
        FirstSegmentCovers(t, i, j);
      } else {
        UnmatchedTailCovers(t, i);
      }
    }
  }

  /** A `"` with no closing quote makes the rest one plain segment. */
  lemma UnmatchedTailCovers(t: string, i: nat)
    requires i < |t| && t[i] == '"' && Closer(t, i + 1).None?
    ensures JoinSegments(Split(t, i)) == t[i..]
  {
    assert Split(t, i) == [Plain(t[i..])];
    JoinCons(Plain(t[i..]), []);
    assert [Plain(t[i..])] + [] == [Plain(t[i..])];
  }

  /** The first segment of `t[i..]` ends at `j`, and the rest is covered. */
  lemma FirstSegmentCovers(t: string, i: nat, j: nat)
    requires i <= j < |t| && j == (if t[i] != '"' then i else Closer(t, i + 1).GetOr(|t|))
    requires JoinSegments(Split(t, j + 1)) == t[j + 1..]
    ensures JoinSegments(Split(t, i)) == t[i..]
  {
    if t[i] != '"' {
      assert t[i..j + 1] == [t[i]];
      JoinCons(Plain([t[i]]), Split(t, i + 1));
    } else {
      JoinCons(Quoted(t[i..j + 1]), Split(t, j + 1));
    }
    SliceAt(t, i, j + 1);
  }

  lemma SliceAt(t: string, i: nat, j: nat)
    requires i <= j <= |t|
    ensures t[i..] == t[i..j] + t[j..]
  {
  }

  lemma JoinCons(a: Segment, rest: seq<Segment>)
    ensures JoinSegments([a] + rest) == a.text + JoinSegments(rest)
  {
    assert ([a] + rest)[1..] == rest;
  }

  /** A quoted segment is exactly one string literal as the regex sees it: it
      opens and closes with `"`, the closing quote is not preceded by a
      backslash, and no earlier quote inside it could have closed it. */
  predicate IsSpan(x: string) {
    |x| >= 2 && x[0] == '"' && ClosesAt(x, |x| - 1) &&
    forall k :: 1 <= k < |x| - 1 ==> !ClosesAt(x, k)
  }

  /** A plain segment is a single character other than `"`, or an
      unterminated tail that starts with `"` and has no closing quote. */
  predicate IsPlain(x: string) {
    (|x| == 1 && x[0] != '"') ||
    (|x| >= 1 && x[0] == '"' && forall k :: 1 <= k < |x| ==> !ClosesAt(x, k))
  }

  predicate WellFormed(seg: Segment) {
    match seg
    case Plain(x) => IsPlain(x)
    case Quoted(x) => IsSpan(x)
  }

  predicate AllWellFormed(segs: seq<Segment>) {
    forall n :: 0 <= n < |segs| ==> WellFormed(segs[n])
  }

  /** Every segment is a plain character, a matched span, or the unmatched tail. */
  lemma {:induction false} SplitWellFormed(t: string, i: nat)
    requires i <= |t|
    ensures AllWellFormed(Split(t, i))
    decreases |t| - i
  {
    if i < |t| {
      var segs := Split(t, i);
      FirstWellFormed(t, i);
      var j := if t[i] != '"' then i else Closer(t, i + 1).GetOr(|t|);
      if j < |t| {
        SplitWellFormed(t, j + 1);
        assert segs[1..] == Split(t, j + 1);
      } else {
        assert segs[1..] == [];
      }
      ConsWellFormed(segs);
    }
  }

  lemma ConsWellFormed(segs: seq<Segment>)
    requires segs != [] && WellFormed(segs[0]) && AllWellFormed(segs[1..])
    ensures AllWellFormed(segs)
  {
    forall n | 1 <= n < |segs| ensures WellFormed(segs[n]) {
      assert segs[n] == segs[1..][n - 1];
    }
  }

  /** The first segment of `t[i..]` is well formed. */
  lemma FirstWellFormed(t: string, i: nat)
    requires i < |t|
    ensures Split(t, i) != [] && WellFormed(Split(t, i)[0])
  {
    if t[i] == '"' {
      match Closer(t, i + 1)
      case None =>
        var x := t[i..];
        forall k | 1 <= k < |x| ensures !ClosesAt(x, k) {
          assert !ClosesAt(t, i + k);
        }
      case Some(j) =>
        var x := t[i..j + 1];
        assert ClosesAt(t, j);
        forall k | 1 <= k < |x| - 1 ensures !ClosesAt(x, k) {
          assert !ClosesAt(t, i + k);
        }
    }
  }

  /** Without any `"` there is nothing to repair: the text is one plain
      character after another. */
  lemma {:induction false} NoQuoteRendersVerbatim(t: string, i: nat)
    requires i <= |t| && '"' !in t
    ensures Render(Split(t, i)) == t[i..]
    decreases |t| - i
  {
    if i < |t| {
      NoQuoteRendersVerbatim(t, i + 1);
      assert t[i..] == [t[i]] + t[i + 1..];
    }
  }

  /** A text with no `"` only loses its NUL characters. */
  lemma SanitizeWithoutQuotes(s: string)
    requires '"' !in s
    ensures SanitizeJsonString(s) == Remove(s, '\0')
  {
    if s != [] {
      RemoveKeeps(s, '\0', '"');
      NoQuoteRendersVerbatim(Remove(s, '\0'), 0);
    }
  }

  lemma {:induction false} RemoveKeeps(s: string, c: char, d: char)
    requires d !in s
    ensures d !in Remove(s, c)
  {
    if s != [] {
      RemoveKeeps(s[1..], c, d);
    }
  }

  lemma {:induction false} EscapeFromKeepsOut(q: string, k: nat, c: char)
    requires k <= |q| && c !in q && c != '\\' && c != 'n' && c != 'r' && c != 't'
    ensures c !in EscapeFrom(q, k)
    decreases |q| - k
  {
    if k < |q| {
      EscapeFromKeepsOut(q, k + 1, c);
    }
  }

  lemma {:induction false} EscapeFromNoRawControl(q: string, k: nat)
    requires k <= |q|
    ensures '\n' !in EscapeFrom(q, k) && '\r' !in EscapeFrom(q, k) && '\t' !in EscapeFrom(q, k)
    decreases |q| - k
  {
    if k < |q| {
      EscapeFromNoRawControl(q, k + 1);
      EscapeAtNoRawControl(q, k);
      assert EscapeFrom(q, k) == EscapeAt(q, k) + EscapeFrom(q, k + 1);
    }
  }

  /** The replacement for one character holds no raw newline, carriage
      return or tab. */
  lemma EscapeAtNoRawControl(q: string, k: nat)
    requires k < |q|
    ensures '\n' !in EscapeAt(q, k) && '\r' !in EscapeAt(q, k) && '\t' !in EscapeAt(q, k)
  {
  }

  /** Inside a repaired span no raw newline, carriage return or tab is left. */
  lemma SpanHasNoRawControl(q: string)
    ensures '\n' !in EscapeSpan(q) && '\r' !in EscapeSpan(q) && '\t' !in EscapeSpan(q)
  {
    EscapeFromNoRawControl(q, 0);
  }

  lemma {:induction false} RenderKeepsOut(segs: seq<Segment>, c: char)
    requires forall n :: 0 <= n < |segs| ==> c !in segs[n].text
    requires c != '\\' && c != 'n' && c != 'r' && c != 't'
    ensures c !in Render(segs)
  {
    if segs != [] {
      RenderKeepsOut(segs[1..], c);
      if segs[0].Quoted? {
        EscapeFromKeepsOut(segs[0].text, 0, c);
      }
    }
  }

  lemma {:induction false} SegmentsInside(t: string, i: nat, c: char)
    requires i <= |t| && c !in t
    ensures forall n :: 0 <= n < |Split(t, i)| ==> c !in Split(t, i)[n].text
    decreases |t| - i
  {
    if i < |t| {
      if t[i] != '"' {
        SegmentsInside(t, i + 1, c);
      } else {
        match Closer(t, i + 1)
        case None =>
        case Some(j) => SegmentsInside(t, j + 1, c);
      }
    }
  }

  /** Sanitising removes every NUL character. */
  lemma SanitizeRemovesNul(s: string)
    ensures '\0' !in SanitizeJsonString(s)
  {
    if s != [] {
      var t := Remove(s, '\0');
      SegmentsInside(t, 0, '\0');
      RenderKeepsOut(Split(t, 0), '\0');
    }
  }

  // ---------------------------------------------------------------------------
  // What a repaired span means to a JSON decoder
  // ---------------------------------------------------------------------------

  /** The characters a strict JSON decoder refuses raw inside a string. */
  predicate IsControl(c: char) { c < ' ' }

  /** The meaning of the escape `\e`, for the escapes other than `\u`. */
  function Unescape(e: char): Option<char> {
    if e == 'n' then Some('\n') else if e == 'r' then Some('\r') else if e == 't' then Some('\t')
    else if e == 'b' then Some('\U{8}') else if e == 'f' then Some('\U{c}')
    else if e == '"' || e == '\\' || e == '/' then Some(e)
    else None
  }

  /** The decoded content of the text between a string literal's quotes, as
      `json.loads` (strict) reads it; `\u` escapes are outside this model. */
  function DecodeBody(b: string): Option<string>
    decreases |b|
  {
    if b == [] then Some([])
    else if b[0] == '\\' then
      if |b| < 2 then None
      else match (Unescape(b[1]), DecodeBody(b[2..]))
        case (Some(c), Some(rest)) => Some([c] + rest)
        case _ => None
    else if b[0] == '"' || IsControl(b[0]) then None
    else match DecodeBody(b[1..])
      case Some(rest) => Some([b[0]] + rest)
      case None => None
  }

  /** The raw content a model typically emits inside a string: no quote, no
      control character other than newline, carriage return and tab, and every
      backslash followed by a character that does not start an escape. */
  predicate RepairableBody(x: string) {
    (forall k :: 0 <= k < |x| ==> x[k] != '"') &&
    (forall k :: 0 <= k < |x| ==> IsControl(x[k]) ==> x[k] == '\n' || x[k] == '\r' || x[k] == '\t') &&
    (forall k :: 0 <= k < |x| ==> EscapeIntended(x, k))
  }

  /** A backslash at `k` is followed by a character that does not start an escape. */
  predicate EscapeIntended(x: string, k: nat)
    requires k < |x|
  {
    x[k] == '\\' ==> k + 1 < |x| && !IsEscapeLetter(x[k + 1])
  }

  /** Such content with a raw newline is not a valid JSON string body. */
  lemma {:induction false} RawNewlineIsInvalid(x: string, k: nat)
    requires k < |x| && x[k] == '\n' && RepairableBody(x)
    ensures DecodeBody(x) == None
    decreases |x|
  {
    if k > 0 {
      if x[0] == '\\' {
        assert EscapeIntended(x, 0);
        assert Unescape(x[1]) == None;
      } else {
        RepairableTail(x);
        RawNewlineIsInvalid(x[1..], k - 1);
      }
    }
  }

  lemma RepairableTail(x: string)
    requires |x| > 0 && RepairableBody(x)
    ensures RepairableBody(x[1..])
  {
    var y := x[1..];
    forall k | 0 <= k < |y| ensures EscapeIntended(y, k) {
      assert EscapeIntended(x, k + 1);
    }
  }

  /** The repaired tail of the span `"x"` from `x[k]` on ends with the closing
      quote, and what precedes it decodes to `x[k..]`. */
  lemma {:induction false} RepairedTailDecodes(x: string, k: nat)
    requires RepairableBody(x) && k <= |x|
    ensures TailDecodes(x, k)
    decreases |x| - k
  {
    if k == |x| {
      var q := "\"" + x + "\"";
      assert q[k + 1] == '"';
      assert EscapeFrom(q, k + 2) == [];
      assert EscapeAt(q, k + 1) == "\"";
      assert x[k..] == [];
    } else {
      RepairedTailDecodes(x, k + 1);
      TailStep(x, k);
    }
  }

  /** From `x[k]` on, the repaired span `"x"` is the closing quote preceded by
      text that decodes to `x[k..]`. */
  predicate TailDecodes(x: string, k: nat)
    requires k <= |x|
  {
    var e := EscapeFrom("\"" + x + "\"", k + 1);
    |e| >= 1 && e[|e| - 1] == '"' && DecodeBody(e[..|e| - 1]) == Some(x[k..])
  }

  lemma TailStep(x: string, k: nat)
    requires RepairableBody(x) && k < |x| && TailDecodes(x, k + 1)
    ensures TailDecodes(x, k)
  {
    var q := "\"" + x + "\"";
    var e := EscapeFrom(q, k + 1);
    var r := EscapeFrom(q, k + 2);
    var tok := EscapeAt(q, k + 1);
    assert e == tok + r;
    assert e[..|e| - 1] == tok + r[..|r| - 1];
    var c := x[k];
    assert q[k + 1] == c;
    if c == '\\' {
      BackslashToken(x, k);
      assert (tok + r[..|r| - 1])[2..] == r[..|r| - 1];
    } else {
      TokenDecodes(c, tok, r[..|r| - 1]);
    }
    assert x[k..] == [c] + x[k + 1..];
  }

  /** A stray backslash of such content is doubled by the repair. */
  lemma BackslashToken(x: string, k: nat)
    requires RepairableBody(x) && k < |x| && x[k] == '\\'
    ensures EscapeAt("\"" + x + "\"", k + 1) == "\\\\"
  {
    var q := "\"" + x + "\"";
    assert EscapeIntended(x, k);
    assert k == 0 || x[k - 1] != '\\' by {
      if k > 0 { assert EscapeIntended(x, k - 1); }
    }
    assert q[k] != '\\' by { if k > 0 { assert q[k] == x[k - 1]; } }
    assert q[k + 2] == x[k + 1];
  }

  /** The repair makes such content a valid JSON string that decodes to the
      content itself: a raw newline survives as a newline, a stray backslash
      as a backslash. The span `"x"` is also exactly what the regex matches. */
  lemma RepairedSpanDecodes(x: string)
    requires RepairableBody(x)
    ensures IsSpan("\"" + x + "\"")
    ensures var e := EscapeSpan("\"" + x + "\"");
      |e| >= 2 && e[0] == '"' && e[|e| - 1] == '"' && DecodeBody(e[1..|e| - 1]) == Some(x)
  {
    var q := "\"" + x + "\"";
    RepairedTailDecodes(x, 0);
    assert TailDecodes(x, 0);
    var t := EscapeFrom(q, 1);
    assert EscapeSpan(q) == "\"" + t;
    var e := EscapeSpan(q);
    assert e[1..] == t;
    assert e[1..|e| - 1] == t[..|t| - 1];
    assert x[0..] == x;
    assert ClosesAt(q, |q| - 1) by {
      if |x| > 0 {
        assert q[|q| - 2] == x[|x| - 1];
        assert EscapeIntended(x, |x| - 1);
      } else {
        assert q[0] == '"';
      }
    }
    forall k | 1 <= k < |q| - 1 ensures !ClosesAt(q, k) {
      assert q[k] == x[k - 1];
    }
  }

  lemma TokenDecodes(c: char, tok: string, rest: string)
    requires c != '\\' && c != '"' && (IsControl(c) ==> c == '\n' || c == '\r' || c == '\t')
    requires tok == (if c == '\n' then "\\n" else if c == '\r' then "\\r" else if c == '\t' then "\\t" else [c])
    ensures DecodeBody(tok + rest) == (match DecodeBody(rest) case Some(r) => Some([c] + r) case None => None)
  {
    if c == '\n' || c == '\r' || c == '\t' {
      assert (tok + rest)[2..] == rest;
    } else {
      assert (tok + rest)[1..] == rest;
    }
  }

  // ---------------------------------------------------------------------------
  // The retry loop's viability check
  // ---------------------------------------------------------------------------

  /** The object `json.loads` makes of a normalised response, if it makes an
      object of it. */
  function QuickObject(s: string, parse: string -> Option<Json>): Option<map<string, Json>> {
    match parse(SanitizeJsonString(StripCodeFences(s)))
    case Some(JObj(fields)) => Some(fields)
    case _ => None
  }

  /** `_try_quick_json_ok`: never raises; true when the normalised response
      decodes to an object whose `files` is a non-empty list or any truthy
      value that is not a list. */
  function QuickJsonOk(s: string, parse: string -> Option<Json>): (ok: bool)
    ensures ok <==> QuickObject(s, parse).Some? && Truthy(Get(QuickObject(s, parse).value, "files", JArr([])))
  {
    var q := QuickObject(s, parse);
    q.Some? && FilesTruthy(Get(q.value, "files", JArr([])))
  }

  /** The check on `files`: a list must be non-empty, anything else truthy;
      together that is Python truthiness. */
  function FilesTruthy(files: Json): (ok: bool)
    ensures ok <==> Truthy(files)
  {
    if Truthy(files) && !files.JArr? then true
    else files.JArr? && files.items != []
  }
}
