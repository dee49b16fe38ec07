/**
 * The builder's two field substitutions,
 *   script.replace(/^version=.*$/m, "version=" + version)
 *   script.replace(/^updateUrl=".*"$/m, "updateUrl=\"" + url + "\"")
 * With the `m` flag and without the `g` flag, `^` and `$` match at the ends
 * of lines, `.` matches anything but a line terminator, and only the first
 * match is replaced. A match therefore always covers one whole line, and the
 * call rewrites the first line of the text that the pattern matches in full.
 */
module LineFields {
  import opened TextSearch

  /** The characters that end a line for `^`, `$` and `.` in a JavaScript regular expression. */
  predicate IsLineTerminator(c: char) {
    c == '\n' || c == '\r' || c == '\U{2028}' || c == '\U{2029}'
  }

  predicate NoTerminators(s: string) {
    forall i :: 0 <= i < |s| ==> !IsLineTerminator(s[i])
  }

  /** The index of the first line terminator of `s`, or `|s|` when there is none. */
  function LineEnd(s: string): (e: nat)
    ensures e <= |s|
  {
    LineEndFrom(s, 0)
  }

  /** The index of the first line terminator of `s` at or after `i`, or `|s|` when there is none. */
  function LineEndFrom(s: string, i: nat): (e: nat)
    requires i <= |s|
    decreases |s| - i
    ensures i <= e <= |s|
  {
    if i == |s| || IsLineTerminator(s[i]) then i else LineEndFrom(s, i + 1)
  }

  lemma {:induction false} LineEndFromSpec(s: string, i: nat)
    requires i <= |s|
    decreases |s| - i
    ensures forall j :: i <= j < LineEndFrom(s, i) ==> !IsLineTerminator(s[j])
    ensures LineEndFrom(s, i) < |s| ==> IsLineTerminator(s[LineEndFrom(s, i)])
  {
    if i < |s| && !IsLineTerminator(s[i]) {
      LineEndFromSpec(s, i + 1);
    }
  }

  /** `LineEnd(s)` is the index of the first line terminator: none comes before it, and one is there unless it is `|s|`. */
  lemma {:induction false} LineEndSpec(s: string)
    ensures forall i :: 0 <= i < LineEnd(s) ==> !IsLineTerminator(s[i])
    ensures LineEnd(s) < |s| ==> IsLineTerminator(s[LineEnd(s)])
  {
    LineEndFromSpec(s, 0);
  }

  lemma {:induction false} LineEndFromUnique(s: string, i: nat, e: nat)
    requires i <= e <= |s|
    requires forall j :: i <= j < e ==> !IsLineTerminator(s[j])
    requires e < |s| ==> IsLineTerminator(s[e])
    decreases e - i
    ensures LineEndFrom(s, i) == e
  {
    if i < e {
      LineEndFromUnique(s, i + 1, e);
    }
  }

  /** The first line of `s`, without its terminator. */
  function FirstLine(s: string): string
  {
    s[..LineEnd(s)]
  }

  /** The two regular expressions the builder substitutes with. */
  datatype Pattern =
    | VersionAssignment   // /^version=.*$/m
    | UrlAssignment       // /^updateUrl=".*"$/m

  const VersionKey: string := "version="
  const UrlKey: string := "updateUrl=\""

  /** The pattern matches the whole of a line that holds no terminator. */
  predicate Matches(pat: Pattern, line: string) {
    match pat
    case VersionAssignment => VersionKey <= line
    case UrlAssignment => |line| > |UrlKey| && UrlKey <= line && line[|line| - 1] == '"'
  }

  /** The value a matching line assigns, without the quotes of a URL. */
  function ValueOf(pat: Pattern, line: string): string
    requires Matches(pat, line)
  {
    match pat
    case VersionAssignment => line[|VersionKey|..]
    case UrlAssignment => line[|UrlKey|..|line| - 1]
  }

  /** The line the builder writes for a value: one the pattern matches and that reads back as the value. */
  function Assignment(pat: Pattern, value: string): (line: string)
    ensures Matches(pat, line) && ValueOf(pat, line) == value
    ensures NoTerminators(value) ==> NoTerminators(line)
  {
    match pat
    case VersionAssignment => VersionKey + value
    case UrlAssignment => UrlKey + value + "\""
  }

  /** No line is matched by both patterns. */
  lemma {:induction false} PatternsExclusive(line: string)
    ensures !(Matches(VersionAssignment, line) && Matches(UrlAssignment, line))
  {
    if Matches(VersionAssignment, line) {
      assert line[0] == VersionKey[0] == 'v';
    }
  }

  // ---------------------------------------------------------------------------
  // The regular expression's search: it tries every index of the text in turn
  // and stops at the first one where the pattern matches.

  /** The index is at the start of a line: `^` matches there under the `m` flag. */
  predicate IsLineStart(s: string, p: nat)
    requires p <= |s|
  {
    p == 0 || IsLineTerminator(s[p - 1])
  }

  /**
   * The regular expression matches `s` at index `p`: `^` holds there and the
   * pattern matches the line that starts there, up to the next terminator,
   * where `$` holds. `.*` cannot cross that terminator, so the match is always
   * that whole line.
   */
  predicate MatchesAt(s: string, pat: Pattern, p: nat) {
    p <= |s| && IsLineStart(s, p) && Matches(pat, FirstLine(s[p..]))
  }

  /** `p` is where the search stops: the least index at which the regular expression matches. */
  predicate FirstMatchAt(s: string, pat: Pattern, p: nat) {
    MatchesAt(s, pat, p) && forall q: nat :: q < p ==> !MatchesAt(s, pat, q)
  }

  /** The search from index `from` on. */
  function FirstMatchFrom(s: string, pat: Pattern, from: nat): (r: Option<nat>)
    decreases |s| + 1 - from
    ensures r.Some? ==> from <= r.value && MatchesAt(s, pat, r.value)
    ensures r.Some? ==> forall q: nat :: from <= q < r.value ==> !MatchesAt(s, pat, q)
    ensures r.None? ==> forall q: nat :: from <= q ==> !MatchesAt(s, pat, q)
  {
    if from > |s| then None
    else if MatchesAt(s, pat, from) then Some(from)
    else FirstMatchFrom(s, pat, from + 1)
  }

  /** Where the regular expression matches `s` first, if anywhere. */
  function FirstMatch(s: string, pat: Pattern): (r: Option<nat>)
    ensures r.Some? ==> FirstMatchAt(s, pat, r.value)
    ensures r.None? ==> forall q: nat :: !MatchesAt(s, pat, q)
  {
    FirstMatchFrom(s, pat, 0)
  }

  /** The least matching index is the one the search reports. */
  lemma {:induction false} FirstMatchIs(s: string, pat: Pattern, p: nat)
    requires FirstMatchAt(s, pat, p)
    ensures FirstMatch(s, pat) == Some(p)
  {
    if FirstMatch(s, pat).Some? {
      var v := FirstMatch(s, pat).value;
      assert !(v < p) && !(p < v);
    }
  }

  /** `(/pattern/m).test(s)`: the pattern matches some line of `s`. */
  predicate HasLine(s: string, pat: Pattern) {
    FirstMatch(s, pat).Some?
  }

  /** `s.replace(/pattern/m, replacement)`: the first line the pattern matches becomes `replacement`. */
  function ReplaceFirstLine(s: string, pat: Pattern, replacement: string): string {
    ReplaceMatch(s, FirstMatch(s, pat), replacement)
  }

  /** The text with the line starting at the match replaced, or the text itself when there is no match. */
  function ReplaceMatch(s: string, m: Option<nat>, replacement: string): string
    requires m.Some? ==> m.value <= |s|
  {
    match m
    case Some(p) => ReplaceLine(s, p, replacement)
    case None => s
  }

  /** The line starting at `p` replaced, its terminator kept. */
  function ReplaceLine(s: string, p: nat, replacement: string): string
    requires p <= |s|
  {
    s[..p] + replacement + s[p + LineEnd(s[p..])..]
  }

  /** The raw text assigned by the first line the pattern matches (no shell quoting or expansion applied). */
  function FieldValue(s: string, pat: Pattern): (r: Option<string>)
    ensures r.Some? <==> HasLine(s, pat)
  {
    ValueAt(s, pat, FirstMatch(s, pat))
  }

  /** The value assigned by the line at the match, if there is one. */
  function ValueAt(s: string, pat: Pattern, m: Option<nat>): Option<string>
    requires m.Some? ==> MatchesAt(s, pat, m.value)
  {
    match m
    case Some(p) => Some(ValueOf(pat, FirstLine(s[p..])))
    case None => None
  }

  // ---------------------------------------------------------------------------
  // A text is either one line, or a line, a terminator and the rest of the text.
  // The lemmas below unfold the definitions over these two forms.

  /** `LineEnd(s)` is the one index that the three properties of its contract describe. */
  lemma {:induction false} LineEndUnique(s: string, e: nat)
    requires e <= |s|
    requires forall i :: 0 <= i < e ==> !IsLineTerminator(s[i])
    requires e < |s| ==> IsLineTerminator(s[e])
    ensures LineEnd(s) == e
  {
    LineEndFromUnique(s, 0, e);
  }

  /** A text with a line terminator is its first line, that terminator, and the rest. */
  lemma {:induction false} SplitFirstLine(s: string)
    requires LineEnd(s) < |s|
    ensures NoTerminators(s[..LineEnd(s)]) && IsLineTerminator(s[LineEnd(s)])
    ensures s == s[..LineEnd(s)] + [s[LineEnd(s)]] + s[LineEnd(s) + 1..]
  {
    LineEndSpec(s);
  }

  /** A text without a line terminator is a single line. */
  lemma {:induction false} SingleLine(s: string)
    requires LineEnd(s) == |s|
    ensures NoTerminators(s) && s[..LineEnd(s)] == s
  {
    LineEndSpec(s);
  }

  lemma {:induction false} ConsLineEnd(line: string, t: char, rest: string)
    requires NoTerminators(line) && IsLineTerminator(t)
    ensures var s := line + [t] + rest;
      LineEnd(s) == |line| && s[..|line|] == line && s[|line|..] == [t] + rest && s[|line| + 1..] == rest
  {
    var s := line + [t] + rest;
    LineEndUnique(s, |line|);
    assert s[..|line|] == line;
    assert s[|line|..] == [t] + rest;
    assert s[|line| + 1..] == rest;
  }

  /** In a single line the search can only match at its start. */
  lemma {:induction false} MatchesAtSingle(line: string, pat: Pattern, p: nat)
    requires NoTerminators(line)
    ensures MatchesAt(line, pat, p) <==> p == 0 && Matches(pat, line)
  {
    LineEndUnique(line, |line|);
    assert line[0..] == line && line[..|line|] == line;
  }

  /** Inside the first line `^` cannot match; past it the search sees the rest of the text. */
  lemma {:induction false} MatchesAtCons(line: string, t: char, rest: string, pat: Pattern, p: nat)
    requires NoTerminators(line) && IsLineTerminator(t)
    ensures MatchesAt(line + [t] + rest, pat, 0) <==> Matches(pat, line)
    ensures 0 < p <= |line| ==> !MatchesAt(line + [t] + rest, pat, p)
    ensures p > |line| ==> (MatchesAt(line + [t] + rest, pat, p) <==> MatchesAt(rest, pat, p - |line| - 1))
  {
    var s := line + [t] + rest;
    ConsLineEnd(line, t, rest);
    assert s[0..] == s;
    if 0 < p <= |line| {
      assert s[p - 1] == line[p - 1];
    }
    if |line| < p <= |s| {
      var p' := p - |line| - 1;
      assert s[p..] == rest[p'..];
      if p' > 0 {
        assert s[p - 1] == rest[p' - 1];
      }
    }
  }

  lemma {:induction false} FirstMatchSingle(line: string, pat: Pattern)
    requires NoTerminators(line)
    ensures FirstMatch(line, pat) == if Matches(pat, line) then Some(0) else None
  {
    forall q: nat ensures MatchesAt(line, pat, q) <==> q == 0 && Matches(pat, line) {
      MatchesAtSingle(line, pat, q);
    }
    if Matches(pat, line) {
      FirstMatchIs(line, pat, 0);
    }
  }

  /** The search over a text of several lines: the first line, else the rest, shifted past the first line. */
  lemma {:induction false} FirstMatchCons(line: string, t: char, rest: string, pat: Pattern)
    requires NoTerminators(line) && IsLineTerminator(t)
    ensures FirstMatch(line + [t] + rest, pat) ==
      if Matches(pat, line) then Some(0)
      else match FirstMatch(rest, pat) case Some(j) => Some(|line| + 1 + j) case None => None
  {
    var s := line + [t] + rest;
    MatchesAtCons(line, t, rest, pat, 0);
    forall q: nat | 0 < q ensures MatchesAt(s, pat, q) <==> q > |line| && MatchesAt(rest, pat, q - |line| - 1) {
      MatchesAtCons(line, t, rest, pat, q);
    }
    if Matches(pat, line) {
      FirstMatchIs(s, pat, 0);
    } else if FirstMatch(rest, pat).Some? {
      var j := FirstMatch(rest, pat).value;
      assert MatchesAt(s, pat, |line| + 1 + j);
      FirstMatchIs(s, pat, |line| + 1 + j);
    }
  }

  /** The definitions on a text of several lines: first the first line, then the rest. */
  lemma {:induction false} HasLineCons(line: string, t: char, rest: string, pat: Pattern)
    requires NoTerminators(line) && IsLineTerminator(t)
    ensures HasLine(line + [t] + rest, pat) <==> Matches(pat, line) || HasLine(rest, pat)
  {
    FirstMatchCons(line, t, rest, pat);
  }

  lemma {:induction false} FieldValueCons(line: string, t: char, rest: string, pat: Pattern)
    requires NoTerminators(line) && IsLineTerminator(t)
    ensures FieldValue(line + [t] + rest, pat)
      == if Matches(pat, line) then Some(ValueOf(pat, line)) else FieldValue(rest, pat)
  {
    FirstMatchCons(line, t, rest, pat);
    if Matches(pat, line) {
      FieldValueFirst(line, t, rest, pat);
    } else if FirstMatch(rest, pat).Some? {
      assert line + [t] + rest == (line + [t]) + rest;
      FieldValueLater(line + [t], rest, pat, FirstMatch(rest, pat).value);
    }
  }

  lemma {:induction false} FieldValueFirst(line: string, t: char, rest: string, pat: Pattern)
    requires NoTerminators(line) && IsLineTerminator(t)
    requires FirstMatch(line + [t] + rest, pat) == Some(0) && Matches(pat, line)
    ensures FieldValue(line + [t] + rest, pat) == Some(ValueOf(pat, line))
  {
    var s := line + [t] + rest;
    ConsLineEnd(line, t, rest);
    assert s[0..] == s;
  }

  /** When the search stops in `y` and, shifted, in `x + y`, the field of `x + y` is that of `y`. */
  lemma {:induction false} FieldValueLater(x: string, y: string, pat: Pattern, j: nat)
    requires FirstMatch(y, pat) == Some(j)
    requires FirstMatch(x + y, pat) == Some(|x| + j)
    ensures FieldValue(x + y, pat) == FieldValue(y, pat)
  {
    ValueAtShift(x, y, pat, j);
  }

  lemma {:induction false} ValueAtShift(x: string, y: string, pat: Pattern, j: nat)
    requires MatchesAt(y, pat, j) && MatchesAt(x + y, pat, |x| + j)
    ensures ValueAt(x + y, pat, Some(|x| + j)) == ValueAt(y, pat, Some(j))
  {
    assert (x + y)[|x| + j..] == y[j..];
  }

  lemma {:induction false} ReplaceCons(line: string, t: char, rest: string, pat: Pattern, replacement: string)
    requires NoTerminators(line) && IsLineTerminator(t)
    ensures ReplaceFirstLine(line + [t] + rest, pat, replacement)
      == if Matches(pat, line) then replacement + [t] + rest
         else line + [t] + ReplaceFirstLine(rest, pat, replacement)
  {
    FirstMatchCons(line, t, rest, pat);
    if Matches(pat, line) {
      ReplaceConsFirst(line, t, rest, pat, replacement);
    } else if FirstMatch(rest, pat).Some? {
      assert line + [t] + rest == (line + [t]) + rest;
      ReplaceLater(line + [t], rest, pat, replacement, FirstMatch(rest, pat).value);
    }
  }

  lemma {:induction false} ReplaceConsFirst(line: string, t: char, rest: string, pat: Pattern, replacement: string)
    requires NoTerminators(line) && IsLineTerminator(t)
    requires FirstMatch(line + [t] + rest, pat) == Some(0)
    ensures ReplaceFirstLine(line + [t] + rest, pat, replacement) == replacement + [t] + rest
  {
    ConsLineEnd(line, t, rest);
    ReplaceAtStart(line + [t] + rest, pat, replacement);
    assert replacement + ([t] + rest) == replacement + [t] + rest;
  }

  /** When the search stops in `y` and, shifted, in `x + y`, the substitution in `x + y` keeps `x`. */
  lemma {:induction false} ReplaceLater(x: string, y: string, pat: Pattern, replacement: string, j: nat)
    requires FirstMatch(y, pat) == Some(j)
    requires FirstMatch(x + y, pat) == Some(|x| + j)
    ensures ReplaceFirstLine(x + y, pat, replacement) == x + ReplaceFirstLine(y, pat, replacement)
  {
    ReplaceMatchShift(x, y, j, replacement);
  }

  lemma {:induction false} ReplaceMatchShift(x: string, y: string, j: nat, replacement: string)
    requires j <= |y|
    ensures ReplaceMatch(x + y, Some(|x| + j), replacement) == x + ReplaceMatch(y, Some(j), replacement)
  {
    ReplaceLineShift(x, y, j, replacement);
  }

  lemma {:induction false} ReplaceLineShift(x: string, y: string, j: nat, replacement: string)
    requires j <= |y|
    ensures ReplaceLine(x + y, |x| + j, replacement) == x + ReplaceLine(y, j, replacement)
  {
    assert (x + y)[|x| + j..] == y[j..];
    ReplaceShift(x, y, j, LineEnd(y[j..]), replacement);
  }

  lemma {:induction false} ReplaceAtStart(s: string, pat: Pattern, replacement: string)
    requires FirstMatch(s, pat) == Some(0)
    ensures ReplaceFirstLine(s, pat, replacement) == replacement + s[LineEnd(s)..]
  {
    assert s[0..] == s;
    assert s[..0] + replacement == replacement;
  }

  /** A piece replaced in `y` is the same piece replaced in `x + y`, at an index shifted by `|x|`. */
  lemma {:induction false} ReplaceShift(x: string, y: string, p': nat, n: nat, r: string)
    requires p' + n <= |y|
    ensures var s, p := x + y, |x| + p';
      s[p..] == y[p'..] && s[..p] + r + s[p + n..] == x + (y[..p'] + r + y[p' + n..])
  {
    var s, p := x + y, |x| + p';
    assert s[p..] == y[p'..];
    assert s[..p] == x + y[..p'];
    assert s[p + n..] == y[p' + n..];
    ConcatAssoc(x, y[..p'], r, y[p' + n..]);
  }

  lemma {:induction false} AppendAssoc(x: string, y: string, z: string)
    ensures x + y + z == x + (y + z)
  {
  }

  lemma {:induction false} ConcatAssoc(a: string, b: string, c: string, d: string)
    ensures a + (b + c + d) == (a + b) + c + d
  {
  }

  /** The definitions on a text of one line. */
  lemma {:induction false} HasLineSingle(line: string, pat: Pattern)
    requires NoTerminators(line)
    ensures HasLine(line, pat) <==> Matches(pat, line)
  {
    FirstMatchSingle(line, pat);
  }

  lemma {:induction false} FieldValueSingle(line: string, pat: Pattern)
    requires NoTerminators(line)
    ensures FieldValue(line, pat) == if Matches(pat, line) then Some(ValueOf(pat, line)) else None
  {
    FirstMatchSingle(line, pat);
    LineEndUnique(line, |line|);
    assert line[0..] == line && line[..|line|] == line;
  }

  lemma {:induction false} ReplaceSingle(line: string, pat: Pattern, replacement: string)
    requires NoTerminators(line)
    ensures ReplaceFirstLine(line, pat, replacement) == if Matches(pat, line) then replacement else line
  {
    FirstMatchSingle(line, pat);
    LineEndUnique(line, |line|);
    assert line[0..] == line && line[..0] == [];
    assert replacement + line[|line|..] == replacement;
  }

  /** A non-empty text whose last line is ended has a first line terminator. */
  lemma {:induction false} EndsLineSplit(s: string)
    requires EndsLine(s) && s != []
    ensures LineEnd(s) < |s|
  {
    LineEndSpec(s);
  }

  /** A text ending in a line terminator, or empty: text appended to it starts on a fresh line. */
  predicate EndsLine(s: string) {
    s == [] || IsLineTerminator(s[|s| - 1])
  }

  /** A text of several lines ends its last line when the rest of it does. */
  lemma {:induction false} EndsLineCons(x: string, t: char, rest: string)
    requires IsLineTerminator(t)
    ensures EndsLine(x + [t] + rest) <==> EndsLine(rest)
  {
    var s := x + [t] + rest;
    if rest != [] {
      assert s[|s| - 1] == rest[|rest| - 1];
    } else {
      assert s[|s| - 1] == t;
    }
  }

  lemma {:induction false} TerminatorNotIn(c: char, k: string)
    requires IsLineTerminator(c) && NoTerminators(k)
    ensures c !in k
  {
  }

  // ---------------------------------------------------------------------------
  // What a substitution does to the fields of the text.

  /**
   * The substitution replaces one whole line: the first line that the
   * pattern matches, from a line start up to its terminator (or the end of
   * the text), which it keeps. The text before that line and from the
   * terminator on are kept as they were.
   */
  lemma {:induction false} ReplacedLine(s: string, pat: Pattern, replacement: string)
    requires HasLine(s, pat)
    ensures var p := FirstMatch(s, pat).value;
      var e := p + LineEnd(s[p..]);
      e <= |s| && IsLineStart(s, p) && (e < |s| ==> IsLineTerminator(s[e])) &&
      NoTerminators(s[p..e]) && Matches(pat, s[p..e]) &&
      (forall q: nat :: q < p ==> !MatchesAt(s, pat, q)) &&
      ReplaceFirstLine(s, pat, replacement) == s[..p] + replacement + s[e..]
  {
    var p := FirstMatch(s, pat).value;
    var t := s[p..];
    LineEndSpec(t);
    var e := p + LineEnd(t);
    assert FirstLine(t) == s[p..e];
    assert t[LineEnd(t)..] == s[e..];
    forall i | 0 <= i < e - p ensures !IsLineTerminator(s[p..e][i]) {
      assert s[p..e][i] == t[i];
    }
  }

  /** When no line matches, the substitution leaves the text as it is. */
  lemma {:induction false} ReplaceWithoutLine(s: string, pat: Pattern, replacement: string)
    requires !HasLine(s, pat)
    ensures ReplaceFirstLine(s, pat, replacement) == s
  {
  }

  /** After the substitution the field reads back as the substituted value. */
  lemma {:induction false} FieldRoundTrip(s: string, pat: Pattern, value: string)
    requires HasLine(s, pat) && NoTerminators(value)
    decreases |s|
    ensures FieldValue(ReplaceFirstLine(s, pat, Assignment(pat, value)), pat) == Some(value)
  {
    var line := Assignment(pat, value);
    if LineEnd(s) == |s| {
      SingleLine(s);
      HasLineSingle(s, pat);
      ReplaceSingle(s, pat, line);
      FieldValueSingle(line, pat);
    } else {
      SplitFirstLine(s);
      var first, t, rest := s[..LineEnd(s)], s[LineEnd(s)], s[LineEnd(s) + 1..];
      HasLineCons(first, t, rest, pat);
      ReplaceCons(first, t, rest, pat, line);
      if Matches(pat, first) {
        FieldValueCons(line, t, rest, pat);
      } else {
        FieldRoundTrip(rest, pat, value);
        FieldValueCons(first, t, ReplaceFirstLine(rest, pat, line), pat);
      }
    }
  }

  /** Substituting a second time with the same value changes nothing. */
  lemma {:induction false} ReplaceIdempotent(s: string, pat: Pattern, value: string)
    requires NoTerminators(value)
    decreases |s|
    ensures var line := Assignment(pat, value);
      ReplaceFirstLine(ReplaceFirstLine(s, pat, line), pat, line) == ReplaceFirstLine(s, pat, line)
  {
    var line := Assignment(pat, value);
    if LineEnd(s) == |s| {
      SingleLine(s);
      ReplaceSingle(s, pat, line);
      ReplaceSingle(line, pat, line);
    } else {
      SplitFirstLine(s);
      var first, t, rest := s[..LineEnd(s)], s[LineEnd(s)], s[LineEnd(s) + 1..];
      ReplaceCons(first, t, rest, pat, line);
      if Matches(pat, first) {
        ReplaceCons(line, t, rest, pat, line);
      } else {
        ReplaceIdempotent(rest, pat, value);
        ReplaceCons(first, t, ReplaceFirstLine(rest, pat, line), pat, line);
      }
    }
  }

  /** Substituting one field leaves the value of the other field as it was. */
  lemma {:induction false} ReplaceKeepsOtherField(s: string, pat: Pattern, other: Pattern, value: string)
    requires pat != other && NoTerminators(value)
    decreases |s|
    ensures FieldValue(ReplaceFirstLine(s, pat, Assignment(pat, value)), other) == FieldValue(s, other)
  {
    var line := Assignment(pat, value);
    PatternsExclusive(line);
    if LineEnd(s) == |s| {
      SingleLine(s);
      PatternsExclusive(s);
      ReplaceSingle(s, pat, line);
      FieldValueSingle(s, other);
      FieldValueSingle(line, other);
    } else {
      SplitFirstLine(s);
      var first, t, rest := s[..LineEnd(s)], s[LineEnd(s)], s[LineEnd(s) + 1..];
      PatternsExclusive(first);
      ReplaceCons(first, t, rest, pat, line);
      FieldValueCons(first, t, rest, other);
      if Matches(pat, first) {
        FieldValueCons(line, t, rest, other);
      } else {
        ReplaceKeepsOtherField(rest, pat, other, value);
        FieldValueCons(first, t, ReplaceFirstLine(rest, pat, line), other);
      }
    }
  }

  /** The fields of a text whose lines all end are found before anything appended to it. */
  lemma {:induction false} FieldValueAppend(a: string, b: string, pat: Pattern)
    requires EndsLine(a)
    decreases |a|
    ensures FieldValue(a + b, pat) == if HasLine(a, pat) then FieldValue(a, pat) else FieldValue(b, pat)
  {
    if a == [] {
      assert a + b == b;
      HasLineSingle(a, pat);
    } else {
      EndsLineSplit(a);
      SplitFirstLine(a);
      var first, t, rest := a[..LineEnd(a)], a[LineEnd(a)], a[LineEnd(a) + 1..];
      EndsLineCons(first, t, rest);
      HasLineCons(first, t, rest, pat);
      FieldValueCons(first, t, rest, pat);
      AppendAssoc(first + [t], rest, b);
      FieldValueCons(first, t, rest + b, pat);
      FieldValueAppend(rest, b, pat);
    }
  }

  lemma {:induction false} HasLineNonEmpty(s: string, pat: Pattern)
    requires HasLine(s, pat)
    ensures s != []
  {
  }

  /** A substitution whose line lies in `a` leaves the text appended to `a` untouched. */
  lemma {:induction false} ReplaceFirstLineAppend(a: string, b: string, pat: Pattern, replacement: string)
    requires EndsLine(a) && HasLine(a, pat)
    decreases |a|
    ensures ReplaceFirstLine(a + b, pat, replacement) == ReplaceFirstLine(a, pat, replacement) + b
  {
    HasLineNonEmpty(a, pat);
    EndsLineSplit(a);
    SplitFirstLine(a);
    var first, t, rest := a[..LineEnd(a)], a[LineEnd(a)], a[LineEnd(a) + 1..];
    EndsLineCons(first, t, rest);
    HasLineCons(first, t, rest, pat);
    ReplaceCons(first, t, rest, pat, replacement);
    AppendAssoc(first + [t], rest, b);
    ReplaceCons(first, t, rest + b, pat, replacement);
    if Matches(pat, first) {
      AppendAssoc(replacement + [t], rest, b);
    } else {
      ReplaceFirstLineAppend(rest, b, pat, replacement);
      AppendAssoc(first + [t], ReplaceFirstLine(rest, pat, replacement), b);
    }
  }

  /** A substitution keeps a text's last line ended. */
  lemma {:induction false} ReplaceKeepsEndsLine(s: string, pat: Pattern, replacement: string)
    requires EndsLine(s)
    decreases |s|
    ensures EndsLine(ReplaceFirstLine(s, pat, replacement))
  {
    if s == [] {
      ReplaceSingle(s, pat, replacement);
    } else {
      EndsLineSplit(s);
      SplitFirstLine(s);
      var first, t, rest := s[..LineEnd(s)], s[LineEnd(s)], s[LineEnd(s) + 1..];
      EndsLineCons(first, t, rest);
      ReplaceCons(first, t, rest, pat, replacement);
      if Matches(pat, first) {
        EndsLineCons(replacement, t, rest);
      } else {
        ReplaceKeepsEndsLine(rest, pat, replacement);
        EndsLineCons(first, t, ReplaceFirstLine(rest, pat, replacement));
      }
    }
  }

  /**
   * A substitution brings in no occurrence of a single-line text `k` that
   * neither the original text nor the replacement line holds.
   */
  lemma {:induction false} ReplaceIntroducesNoOccurrence(s: string, pat: Pattern, replacement: string, k: string)
    requires NoTerminators(k) && !Contains(s, k) && !Contains(replacement, k)
    decreases |s|
    ensures !Contains(ReplaceFirstLine(s, pat, replacement), k)
  {
    if LineEnd(s) == |s| {
      SingleLine(s);
      ReplaceSingle(s, pat, replacement);
    } else {
      SplitFirstLine(s);
      var first, t, rest := s[..LineEnd(s)], s[LineEnd(s)], s[LineEnd(s) + 1..];
      ReplaceCons(first, t, rest, pat, replacement);
      TerminatorNotIn(t, k);
      NotContainsParts(first, t, rest, k);
      if Matches(pat, first) {
        NotContainsConcat(replacement, [t] + rest, k);
        assert replacement + ([t] + rest) == replacement + [t] + rest;
      } else {
        ReplaceIntroducesNoOccurrence(rest, pat, replacement, k);
        NotContainsConcat(first + [t], ReplaceFirstLine(rest, pat, replacement), k);
      }
    }
  }

  lemma {:induction false} NotContainsParts(x: string, t: char, rest: string, k: string)
    requires !Contains(x + [t] + rest, k)
    ensures !Contains(x + [t], k) && !Contains([t] + rest, k) && !Contains(rest, k)
  {
    var s, e := x + [t] + rest, |x|;
    assert s[e..|s|] == [t] + rest && s[0..e + 1] == x + [t] && s[e + 1..|s|] == rest;
    ContainsSlice(s, k, e, |s|);
    ContainsSlice(s, k, 0, e + 1);
    ContainsSlice(s, k, e + 1, |s|);
  }
}
