/**
 * The marker splice of the builder: the template text before the first BEGIN
 * marker, the marker, a line terminator, the payload, a line terminator and
 * the template text from the first END marker on.
 */
module MarkerSplice {
  import opened TextSearch
  import opened LineFields

  /** The part the two marker literals share, written in pieces so that their characters can be checked one piece at a time. */
  const MarkerTail: string := " - selfupdate" + "-script embed" + "ded content"

  /** `startKey`: "  ## BEGIN - selfupdate-script embedded content". */
  const BeginMarker: string := "  ## BEGIN" + MarkerTail

  /** `stopKey`: "  ## END - selfupdate-script embedded content". */
  const EndMarker: string := "  ## END" + MarkerTail

  /**
   * The wrapper script, as the builder computes it:
   * `script.substring(0, start) + startKey + "\n" + embed + "\n" + script.substring(stop)`
   * with `start` and `stop` the results of `indexOf` (-1 for a missing marker).
   */
  function Splice(template: string, payload: string): string {
    var start, stop := JsIndexOf(template, BeginMarker), JsIndexOf(template, EndMarker);
    JsSubstring(template, 0, start) + BeginMarker + "\n" + payload + "\n" + JsSubstring(template, stop, |template|)
  }

  /** The splice for any two marker lines, written as its three parts: the head up to and with the BEGIN marker, the payload and the tail. */
  function SpliceBetween(begin: string, end: string, template: string, payload: string): string {
    Assemble(Before(begin, template) + begin, payload, From(end, template))
  }

  function Assemble(head: string, payload: string, tail: string): string {
    head + "\n" + payload + "\n" + tail
  }

  /** The text before the first BEGIN marker, or nothing when it is missing (`substring(0, -1)`). */
  function Before(begin: string, template: string): string {
    match IndexOf(template, begin)
    case Some(b) => template[..b]
    case None => []
  }

  /** The text from the first END marker on, or the whole template when it is missing (`substring(-1)`). */
  function From(end: string, template: string): string {
    match IndexOf(template, end)
    case Some(e) => template[e..]
    case None => template
  }

  /** A template as the builder expects it: both markers occur, and the BEGIN marker ends before the END marker starts. */
  predicate MarkersInOrder(template: string) {
    InOrder(BeginMarker, EndMarker, template)
  }

  predicate InOrder(begin: string, end: string, template: string) {
    IndexOf(template, begin).Some? && IndexOf(template, end).Some? &&
    IndexOf(template, begin).value + |begin| <= IndexOf(template, end).value
  }

  /**
   * The payload a wrapper script carries: the text after the line of the
   * first BEGIN marker and before the line of the first END marker.
   */
  function Embedded(script: string): (r: Option<string>)
    ensures r.Some? ==> MarkersInOrder(script)
  {
    EmbeddedBetween(BeginMarker, EndMarker, script)
  }

  function EmbeddedBetween(begin: string, end: string, script: string): (r: Option<string>)
    ensures r.Some? ==> InOrder(begin, end, script)
  {
    match (IndexOf(script, begin), IndexOf(script, end))
    case (Some(b), Some(e)) =>
      var from := b + |begin|;
      if from + 2 <= e && script[from] == '\n' && script[e - 1] == '\n' then Some(script[from + 1..e - 1]) else None
    case _ => None
  }

  // ---------------------------------------------------------------------------
  // The marker literals.

  lemma {:induction false} NoTerminatorsConcat(x: string, y: string)
    requires NoTerminators(x) && NoTerminators(y)
    ensures NoTerminators(x + y)
  {
    assert forall i :: 0 <= i < |x + y| ==> (x + y)[i] == if i < |x| then x[i] else y[i - |x|];
  }

  lemma {:induction false} TailIsLine()
    ensures NoTerminators(MarkerTail)
  {
    assert NoTerminators(" - selfupdate");
    assert NoTerminators("-script embed");
    assert NoTerminators("ded content");
    NoTerminatorsConcat(" - selfupdate", "-script embed");
    NoTerminatorsConcat(" - selfupdate" + "-script embed", "ded content");
  }

  /** Each marker fits on one line. */
  lemma {:induction false} MarkersAreLines()
    ensures NoTerminators(BeginMarker) && NoTerminators(EndMarker)
    ensures |BeginMarker| == 47 && |EndMarker| == 45
  {
    TailIsLine();
    assert NoTerminators("  ## BEGIN");
    assert NoTerminators("  ## END");
    NoTerminatorsConcat("  ## BEGIN", MarkerTail);
    NoTerminatorsConcat("  ## END", MarkerTail);
  }

  // ---------------------------------------------------------------------------
  // What the splice produces.

  /**
   * The wrapper is the template text before the BEGIN marker, the marker, a
   * line terminator, the payload, a line terminator and the template text from
   * the END marker on; what lay between the markers is gone. A missing BEGIN
   * marker leaves nothing before it, a missing END marker the whole template
   * after it.
   */
  lemma {:induction false} SpliceShape(template: string, payload: string)
    ensures Splice(template, payload) == SpliceBetween(BeginMarker, EndMarker, template, payload)
    ensures Splice(template, payload)
      == Before(BeginMarker, template) + BeginMarker + "\n" + payload + "\n" + From(EndMarker, template)
  {
    BeforeIsSubstring(BeginMarker, template);
    FromIsSubstring(EndMarker, template);
  }

  lemma {:induction false} BeforeIsSubstring(begin: string, template: string)
    ensures Before(begin, template) == JsSubstring(template, 0, JsIndexOf(template, begin))
  {
    if IndexOf(template, begin).None? {
      assert JsSubstring(template, 0, -1) == template[0..0];
    }
  }

  lemma {:induction false} FromIsSubstring(end: string, template: string)
    ensures From(end, template) == JsSubstring(template, JsIndexOf(template, end), |template|)
  {
    if IndexOf(template, end).None? {
      assert JsSubstring(template, -1, |template|) == template[0..|template|] == template;
    }
  }

  /**
   * Where the parts lie in the wrapper of a template with its markers in
   * order: the template up to the BEGIN marker, the marker, a line terminator,
   * the payload verbatim, one line terminator and the template from the END
   * marker on.
   */
  lemma {:induction false} SpliceLayout(template: string, payload: string)
    requires MarkersInOrder(template)
    ensures var r, b, e := Splice(template, payload), IndexOf(template, BeginMarker).value, IndexOf(template, EndMarker).value;
      var from := b + |BeginMarker|;
      var stop := from + 1 + |payload| + 1;
      stop <= |r| && r[..b] == template[..b] && r[b..from] == BeginMarker && r[from] == '\n' &&
      r[from + 1..stop - 1] == payload && r[stop - 1] == '\n' && r[stop..] == template[e..]
  {
    SpliceShape(template, payload);
    LayoutBetween(BeginMarker, EndMarker, template, payload);
  }

  lemma {:induction false} LayoutBetween(begin: string, end: string, template: string, payload: string)
    requires InOrder(begin, end, template)
    ensures var r, b, e := SpliceBetween(begin, end, template, payload), IndexOf(template, begin).value, IndexOf(template, end).value;
      var from := b + |begin|;
      var stop := from + 1 + |payload| + 1;
      stop <= |r| && r[..b] == template[..b] && r[b..from] == begin && r[from] == '\n' &&
      r[from + 1..stop - 1] == payload && r[stop - 1] == '\n' && r[stop..] == template[e..]
  {
    HeadLayout(Before(begin, template), begin, payload, From(end, template));
  }

  lemma {:induction false} HeadLayout(pre: string, begin: string, payload: string, tail: string)
    ensures var r, from := Assemble(pre + begin, payload, tail), |pre| + |begin|;
      var stop := from + 1 + |payload| + 1;
      stop <= |r| && r[..|pre|] == pre && r[|pre|..from] == begin && r[from] == '\n' &&
      r[from + 1..stop - 1] == payload && r[stop - 1] == '\n' && r[stop..] == tail
  {
    var r := Assemble(pre + begin, payload, tail);
    AssembleLayout(pre + begin, payload, tail);
    SplitAt(pre, begin);
    assert r[..|pre|] == (pre + begin)[..|pre|];
    assert r[|pre|..|pre| + |begin|] == (pre + begin)[|pre|..];
  }

  /** The parts of a text put together as the splice puts them can be cut out again. */
  lemma {:induction false} AssembleLayout(head: string, payload: string, tail: string)
    ensures var r, n := Assemble(head, payload, tail), |head| + 1 + |payload| + 1;
      n <= |r| && r[..|head|] == head && r[|head|] == '\n' && r[|head| + 1..n - 1] == payload &&
      r[n - 1] == '\n' && r[n..] == tail
  {
    var r, n := Assemble(head, payload, tail), |head| + 1 + |payload| + 1;
    var front := head + "\n" + payload + "\n";
    assert r[n..] == tail && r[..n] == front by { SplitAt(front, tail); }
    assert r[..|head|] == head;
    assert r[|head| + 1..n - 1] == payload;
  }

  lemma {:induction false} SplitAt(x: string, y: string)
    ensures (x + y)[..|x|] == x && (x + y)[|x|..] == y
  {
  }

  /** The text up to the end of an occurrence is the text before it and the occurrence. */
  lemma {:induction false} PrefixWithOccurrence(s: string, k: string, i: nat)
    requires OccursAt(s, k, i)
    ensures s[..i] + k == s[..i + |k|]
  {
  }

  lemma {:induction false} AppendAssoc4(a: string, b: string, c: string, d: string, e: string)
    ensures a + b + c + d + e == a + (b + c + d + e)
  {
  }

  /** The head of the splice holds the first BEGIN marker at its end and no END marker. */
  lemma {:induction false} HeadFacts(begin: string, end: string, template: string)
    requires InOrder(begin, end, template) && |end| > 1
    ensures var pre := Before(begin, template);
      IndexOf(pre + begin, begin) == Some(|pre|) && !Contains(pre + begin, end)
  {
    HeadEndsWithBegin(begin, template);
    HeadWithoutEnd(begin, end, template);
  }

  lemma {:induction false} HeadEndsWithBegin(begin: string, template: string)
    requires IndexOf(template, begin).Some?
    ensures var pre := Before(begin, template);
      IndexOf(pre + begin, begin) == Some(|pre|)
  {
    var b := IndexOf(template, begin).value;
    PrefixWithOccurrence(template, begin, b);
    IndexOfInPrefix(template, begin, b + |begin|);
  }

  lemma {:induction false} HeadWithoutEnd(begin: string, end: string, template: string)
    requires InOrder(begin, end, template) && |end| > 1
    ensures !Contains(Before(begin, template) + begin, end)
  {
    var b := IndexOf(template, begin).value;
    PrefixWithOccurrence(template, begin, b);
    NoOccurrenceBefore(template, end, b + |begin|);
  }

  /** The tail of the splice starts with its first END marker. */
  lemma {:induction false} TailFacts(end: string, template: string)
    requires IndexOf(template, end).Some?
    ensures IndexOf(From(end, template), end) == Some(0)
  {
    IndexOfInSuffix(template, end, IndexOf(template, end).value);
  }

  /** Where the markers of an assembled text lie: the BEGIN marker where it was in the head, the END marker right after the payload's line terminator. */
  lemma {:induction false} AssembledMarkers(pre: string, begin: string, end: string, payload: string, tail: string)
    requires IndexOf(pre + begin, begin) == Some(|pre|) && !Contains(pre + begin, end)
    requires !Contains(payload, end) && IndexOf(tail, end) == Some(0)
    requires '\n' !in end && |end| > 1
    ensures var r := Assemble(pre + begin, payload, tail);
      IndexOf(r, begin) == Some(|pre|) && IndexOf(r, end) == Some(|pre| + |begin| + 1 + |payload| + 1)
  {
    var head := pre + begin;
    AppendAssoc4(head, "\n", payload, "\n", tail);
    IndexOfPrefixExtension(head, "\n" + payload + "\n" + tail, begin);
    NotContainsConcat(head, "\n", end);
    NotContainsConcat(head + "\n", payload, end);
    NotContainsConcat(head + "\n" + payload, "\n", end);
    IndexOfAfterPrefix(head + "\n" + payload + "\n", tail, end);
  }

  /** The payload read back from a script whose markers and line terminators lie where the splice puts them. */
  lemma {:induction false} EmbeddedAt(begin: string, end: string, script: string, b: nat, payload: string)
    requires IndexOf(script, begin) == Some(b)
    requires IndexOf(script, end) == Some(b + |begin| + 1 + |payload| + 1)
    requires script[b + |begin|] == '\n' && script[b + |begin| + 1 + |payload|] == '\n'
    requires script[b + |begin| + 1..b + |begin| + 1 + |payload|] == payload
    ensures EmbeddedBetween(begin, end, script) == Some(payload)
    ensures InOrder(begin, end, script)
  {
  }

  lemma {:induction false} AssembledRoundTrip(pre: string, begin: string, end: string, payload: string, tail: string)
    requires IndexOf(pre + begin, begin) == Some(|pre|) && !Contains(pre + begin, end)
    requires !Contains(payload, end) && IndexOf(tail, end) == Some(0)
    requires '\n' !in end && |end| > 1
    ensures EmbeddedBetween(begin, end, Assemble(pre + begin, payload, tail)) == Some(payload)
    ensures InOrder(begin, end, Assemble(pre + begin, payload, tail))
  {
    AssembledMarkers(pre, begin, end, payload, tail);
    AssembleLayout(pre + begin, payload, tail);
    EmbeddedAt(begin, end, Assemble(pre + begin, payload, tail), |pre|, payload);
  }

  /** Splicing into an assembled text keeps its head and tail. */
  lemma {:induction false} AssembledParts(pre: string, begin: string, end: string, payload: string, tail: string)
    requires IndexOf(pre + begin, begin) == Some(|pre|) && !Contains(pre + begin, end)
    requires !Contains(payload, end) && IndexOf(tail, end) == Some(0)
    requires '\n' !in end && |end| > 1
    ensures var r := Assemble(pre + begin, payload, tail);
      Before(begin, r) == pre && From(end, r) == tail
  {
    var r := Assemble(pre + begin, payload, tail);
    AssembledMarkers(pre, begin, end, payload, tail);
    AssembleLayout(pre + begin, payload, tail);
    assert r[..|pre|] == (pre + begin)[..|pre|];
  }

  /** The payload can be read back from the wrapper, which is again a template with its markers in order. */
  lemma {:induction false} EmbeddedRoundTrip(template: string, payload: string)
    requires MarkersInOrder(template) && !Contains(payload, EndMarker)
    ensures Embedded(Splice(template, payload)) == Some(payload)
    ensures MarkersInOrder(Splice(template, payload))
  {
    MarkersAreLines();
    TerminatorNotIn('\n', EndMarker);
    SpliceShape(template, payload);
    RoundTripBetween(BeginMarker, EndMarker, template, payload);
  }

  lemma {:induction false} RoundTripBetween(begin: string, end: string, template: string, payload: string)
    requires InOrder(begin, end, template) && !Contains(payload, end)
    requires '\n' !in end && |end| > 1
    ensures EmbeddedBetween(begin, end, SpliceBetween(begin, end, template, payload)) == Some(payload)
    ensures InOrder(begin, end, SpliceBetween(begin, end, template, payload))
  {
    HeadFacts(begin, end, template);
    TailFacts(end, template);
    AssembledRoundTrip(Before(begin, template), begin, end, payload, From(end, template));
  }

  /** Building from a wrapper replaces its payload: only the latest payload remains, the rest of the template as it was. */
  lemma {:induction false} SpliceReplacesPayload(template: string, old_payload: string, payload: string)
    requires MarkersInOrder(template) && !Contains(old_payload, EndMarker)
    ensures Splice(Splice(template, old_payload), payload) == Splice(template, payload)
  {
    MarkersAreLines();
    TerminatorNotIn('\n', EndMarker);
    SpliceShape(template, old_payload);
    SpliceShape(Splice(template, old_payload), payload);
    SpliceShape(template, payload);
    ReplacesBetween(BeginMarker, EndMarker, template, old_payload, payload);
  }

  lemma {:induction false} ReplacesBetween(begin: string, end: string, template: string, old_payload: string, payload: string)
    requires InOrder(begin, end, template) && !Contains(old_payload, end)
    requires '\n' !in end && |end| > 1
    ensures SpliceBetween(begin, end, SpliceBetween(begin, end, template, old_payload), payload)
      == SpliceBetween(begin, end, template, payload)
  {
    HeadFacts(begin, end, template);
    TailFacts(end, template);
    AssembledParts(Before(begin, template), begin, end, old_payload, From(end, template));
  }

  // ---------------------------------------------------------------------------
  // Text in front of the markers.

  /**
   * Text in front of a template that holds both markers, and holds neither
   * itself, is kept in front of the wrapper: the splice happens in the
   * template alone.
   */
  lemma {:induction false} SpliceAfterPrefix(prefix: string, template: string, payload: string)
    requires IndexOf(template, BeginMarker).Some? && IndexOf(template, EndMarker).Some?
    requires !Contains(prefix, BeginMarker) && !Contains(prefix, EndMarker)
    requires prefix != [] ==> IsLineTerminator(prefix[|prefix| - 1])
    ensures Splice(prefix + template, payload) == prefix + Splice(template, payload)
  {
    MarkersAreLines();
    if prefix != [] {
      TerminatorNotIn(prefix[|prefix| - 1], BeginMarker);
      TerminatorNotIn(prefix[|prefix| - 1], EndMarker);
    }
    SpliceShape(prefix + template, payload);
    SpliceShape(template, payload);
    BetweenAfterPrefix(BeginMarker, EndMarker, prefix, template, payload);
  }

  lemma {:induction false} BetweenAfterPrefix(begin: string, end: string, prefix: string, template: string, payload: string)
    requires IndexOf(template, begin).Some? && IndexOf(template, end).Some?
    requires !Contains(prefix, begin) && !Contains(prefix, end)
    requires prefix != [] ==> prefix[|prefix| - 1] !in begin && prefix[|prefix| - 1] !in end
    ensures SpliceBetween(begin, end, prefix + template, payload) == prefix + SpliceBetween(begin, end, template, payload)
  {
    BeforeAfterPrefix(begin, prefix, template);
    FromAfterPrefix(end, prefix, template);
    AssemblePrefix(prefix, Before(begin, template) + begin, payload, From(end, template));
  }

  lemma {:induction false} BeforeAfterPrefix(begin: string, prefix: string, template: string)
    requires IndexOf(template, begin).Some? && !Contains(prefix, begin)
    requires prefix != [] ==> prefix[|prefix| - 1] !in begin
    ensures Before(begin, prefix + template) + begin == prefix + (Before(begin, template) + begin)
  {
    var b := IndexOf(template, begin).value;
    IndexOfAfterPrefix(prefix, template, begin);
    PrefixSlice(prefix, template, b);
  }

  lemma {:induction false} FromAfterPrefix(end: string, prefix: string, template: string)
    requires IndexOf(template, end).Some? && !Contains(prefix, end)
    requires prefix != [] ==> prefix[|prefix| - 1] !in end
    ensures From(end, prefix + template) == From(end, template)
  {
    var e := IndexOf(template, end).value;
    IndexOfAfterPrefix(prefix, template, end);
    assert (prefix + template)[|prefix| + e..] == template[e..];
  }

  lemma {:induction false} PrefixSlice(x: string, y: string, n: nat)
    requires n <= |y|
    ensures (x + y)[..|x| + n] == x + y[..n]
  {
  }

  lemma {:induction false} AssemblePrefix(prefix: string, head: string, payload: string, tail: string)
    ensures Assemble(prefix + head, payload, tail) == prefix + Assemble(head, payload, tail)
  {
  }

  /** Such text in front of a template keeps its markers in order. */
  lemma {:induction false} InOrderAfterPrefix(prefix: string, template: string)
    requires MarkersInOrder(template)
    requires !Contains(prefix, BeginMarker) && !Contains(prefix, EndMarker)
    requires prefix != [] ==> IsLineTerminator(prefix[|prefix| - 1])
    ensures MarkersInOrder(prefix + template)
  {
    MarkersAreLines();
    if prefix != [] {
      TerminatorNotIn(prefix[|prefix| - 1], BeginMarker);
      TerminatorNotIn(prefix[|prefix| - 1], EndMarker);
    }
    IndexOfAfterPrefix(prefix, template, BeginMarker);
    IndexOfAfterPrefix(prefix, template, EndMarker);
  }
}
