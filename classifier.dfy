/**
 * The response side of `analyze_post_with_groq`: the chat-completion reply is
 * reduced to (classification, explanation, confidence).
 */
module Classifier {
  import opened Wrappers
  import opened Text

  /** CONFIDENCE_THRESHOLD. */
  const ConfidenceThreshold: real := 0.80

  /** The `(classification, explanation, confidence)` triple. */
  datatype Analysis = Analysis(classification: Option<string>, explanation: Option<string>, confidence: real)

  /** `(None, None, 0.0)`, returned on every failure. */
  const Unclassified: Analysis := Analysis(None, None, 0.0)

  /** What the chat-completion request delivered: a failure (status other than 200,
      a transport exception, or a body without `choices[0].message.content`), or
      the message content. */
  datatype GroqReply = GroqFailed | GroqContent(content: string)

  /** A parse either fails as a whole or yields both texts with confidence 1.0. */
  predicate WellFormed(a: Analysis) {
    a == Unclassified || (a.classification.Some? && a.explanation.Some? && a.confidence == 1.0)
  }

  /** `line.split(":", 1)[-1].strip()`: the stripped text after the first colon,
      or the whole line stripped when it has none. */
  function FieldValue(line: string): (r: string)
    ensures Trimmed(r)
    ensures ':' !in line ==> r == Strip(line)
    ensures ':' in line ==> r == Strip(AfterFirst(line, ':')) && |r| < |line|
  {
    Strip(AfterFirst(line, ':'))
  }

  /** Every line with a colon is `key:rest` with a colon-free key, and its field
      value is `rest` stripped, whatever further colons `rest` holds. */
  lemma FieldAfterColon(key: string, rest: string)
    requires ':' !in key
    ensures FieldValue(key + [':'] + rest) == Strip(rest)
  {
    AfterColon(key, rest);
  }

  /** Lines 326-333: the stripped content is cut at `\n`, blank lines are dropped and
      the rest stripped; with fewer than two left the parse fails, otherwise the
      classification is the lower-cased field value of the first line and the
      explanation the field value of the second. */
  function ParseResponse(content: string): (a: Analysis)
    ensures WellFormed(a)
    ensures a.classification.Some? ==> Trimmed(a.classification.value)
    ensures a.classification.Some? ==> forall i :: 0 <= i < |a.classification.value| ==> !IsUpper(a.classification.value[i])
    ensures a.explanation.Some? ==> Trimmed(a.explanation.value)
    ensures a.classification.None? <==> |NonBlankLines(Strip(content), {'\n'})| < 2
  {
    var lines := NonBlankLines(Strip(content), {'\n'});
    if |lines| < 2 then Unclassified
    else Analysis(Some(Lower(FieldValue(lines[0]))), Some(FieldValue(lines[1])), 1.0)
  }

  /** The whole of `analyze_post_with_groq` once the request is an oracle. */
  function AnalyzePost(reply: GroqReply): (a: Analysis)
    ensures WellFormed(a)
    ensures reply.GroqFailed? ==> a == Unclassified
  {
    match reply
    case GroqFailed => Unclassified
    case GroqContent(content) => ParseResponse(content)
  }

  /** `classification is not None and conf >= CONFIDENCE_THRESHOLD`. */
  predicate Accepted(a: Analysis) {
    a.classification.Some? && a.confidence >= ConfidenceThreshold
  }

  /** A reply without a line break never classifies. */
  lemma {:induction false} SingleLineRejected(content: string)
    requires '\n' !in content
    ensures ParseResponse(content) == Unclassified
  {
    var s := Strip(content);
    assert '\n' !in s;
    SplitNoSeparator(s, {'\n'});
    assert |KeepNonBlank([s])| <= 1;
  }

  /** When the first two pieces are non-blank they are the first two kept lines. */
  lemma KeepFirstTwo(pieces: seq<string>)
    requires |pieces| >= 2 && !Blank(pieces[0]) && !Blank(pieces[1])
    ensures |KeepNonBlank(pieces)| >= 2
    ensures KeepNonBlank(pieces)[0] == Strip(pieces[0]) && KeepNonBlank(pieces)[1] == Strip(pieces[1])
  {
    assert pieces[1..][1..] == pieces[2..];
  }

  /** The first two pieces of the `\n`-split of two separator-free lines followed by `tail`. */
  lemma SplitTwoLines(line1: string, line2: string, tail: string)
    requires '\n' !in line1 && '\n' !in line2
    requires tail == [] || tail[0] == '\n'
    ensures |SplitOn(line1 + "\n" + line2 + tail, {'\n'})| >= 2
    ensures SplitOn(line1 + "\n" + line2 + tail, {'\n'})[0] == line1
    ensures SplitOn(line1 + "\n" + line2 + tail, {'\n'})[1] == line2
  {
    assert line1 + "\n" + line2 + tail == line1 + ['\n'] + (line2 + tail);
    SplitAtSeparator(line1, '\n', line2 + tail, {'\n'});
    if tail == [] {
      assert line2 + tail == line2;
      SplitNoSeparator(line2, {'\n'});
    } else {
      assert line2 + tail == line2 + ['\n'] + tail[1..];
      SplitAtSeparator(line2, '\n', tail[1..], {'\n'});
    }
  }

  /** Stripping the whole reply first changes nothing: the parse reads the first
      two non-blank lines of the reply as it is, and fails when there are fewer. */
  lemma FirstTwoLines(content: string)
    ensures var lines := NonBlankLines(content, {'\n'});
      ParseResponse(content) ==
        if |lines| < 2 then Unclassified
        else Analysis(Some(Lower(FieldValue(lines[0]))), Some(FieldValue(lines[1])), 1.0)
  {
    StripKeepsLines(content, {'\n'});
  }

  /** Blank lines and whitespace in front of the reply are ignored. */
  lemma LeadingBlankIgnored(blank: string, content: string)
    requires Blank(blank)
    ensures ParseResponse(blank + content) == ParseResponse(content)
  {
    BlankPrefixKeepsLines(blank, content, {'\n'});
    FirstTwoLines(blank + content);
    FirstTwoLines(content);
  }

  /** Two non-blank lines followed by anything after a line break are read on their
      own: whatever follows them is ignored, and each classification or explanation
      is read after the first `:` of its stripped line. */
  lemma TwoLinesRead(line1: string, line2: string, tail: string)
    requires '\n' !in line1 && '\n' !in line2
    requires !Blank(line1) && !Blank(line2)
    requires tail == [] || tail[0] == '\n'
    ensures ParseResponse(line1 + "\n" + line2 + tail) ==
      Analysis(Some(Lower(FieldValue(Strip(line1)))), Some(FieldValue(Strip(line2))), 1.0)
  {
    LinesOfTwoLines(line1, line2, tail);
    FirstTwoLines(line1 + "\n" + line2 + tail);
  }

  lemma LinesOfTwoLines(line1: string, line2: string, tail: string)
    requires '\n' !in line1 && '\n' !in line2
    requires !Blank(line1) && !Blank(line2)
    requires tail == [] || tail[0] == '\n'
    ensures |NonBlankLines(line1 + "\n" + line2 + tail, {'\n'})| >= 2
    ensures NonBlankLines(line1 + "\n" + line2 + tail, {'\n'})[0] == Strip(line1)
    ensures NonBlankLines(line1 + "\n" + line2 + tail, {'\n'})[1] == Strip(line2)
  {
    SplitTwoLines(line1, line2, tail);
    KeepFirstTwo(SplitOn(line1 + "\n" + line2 + tail, {'\n'}));
  }

  /** `p:q` read after its first colon is `q` whenever `p` has no colon. */
  lemma AfterColon(p: string, q: string)
    requires ':' !in p
    ensures AfterFirst(p + [':'] + q, ':') == q
  {
    var s := p + [':'] + q;
    assert s[|p|] == ':';
    assert s[..|p|] == p;
  }

  lemma StripLeadingSpace(value: string)
    requires value != [] && Trimmed(value)
    ensures Strip(" " + value) == value
  {
    assert (" " + value)[1..] == value;
    assert TrimLeft(" " + value) == value;
  }

  /** A line prefix `Key: ` whose key has no colon, starts with a visible character
      and has no line break. */
  predicate KeyPrefix(prefix: string) {
    |prefix| >= 3 && prefix[|prefix| - 2..] == ": " && !IsSpace(prefix[0]) &&
    ':' !in prefix[..|prefix| - 2] && '\n' !in prefix
  }

  /** Facts about a `Key: value` line. */
  lemma LabelledLine(prefix: string, value: string)
    requires KeyPrefix(prefix)
    requires value != [] && Trimmed(value) && '\n' !in value
    ensures '\n' !in prefix + value
    ensures !Blank(prefix + value) && Trimmed(prefix + value)
  {
    var line := prefix + value;
    assert line[0] == prefix[0];
    assert line[|line| - 1] == value[|value| - 1];
  }

  /** Two `Key: value` lines are read back as their values, the first lower-cased. */
  lemma ReadBackTwoLines(prefix1: string, value1: string, prefix2: string, value2: string)
    requires KeyPrefix(prefix1) && KeyPrefix(prefix2)
    requires value1 != [] && Trimmed(value1) && '\n' !in value1
    requires value2 != [] && Trimmed(value2) && '\n' !in value2
    ensures ParseResponse(prefix1 + value1 + "\n" + prefix2 + value2) ==
      Analysis(Some(Lower(value1)), Some(value2), 1.0)
  {
    var line1 := prefix1 + value1;
    var line2 := prefix2 + value2;
    LabelledLine(prefix1, value1);
    LabelledLine(prefix2, value2);
    TwoLinesRead(line1, line2, []);
    ReadBack(prefix1, value1);
    ReadBack(prefix2, value2);
    assert line1 + "\n" + line2 + [] == line1 + "\n" + line2;
    Assoc(line1 + "\n", prefix2, value2);
  }

  /** The two-line answer the system prompt asks the model for (lines 279-281). */
  function FormatReply(classification: string, explanation: string): string {
    "Classification: " + classification + "\n" + "Explanation: " + explanation
  }

  /** A reply in exactly the requested two-line format is read back as what was written. */
  lemma ParseRoundTrip(classification: string, explanation: string)
    requires classification != [] && Trimmed(classification) && '\n' !in classification
    requires forall i :: 0 <= i < |classification| ==> !IsUpper(classification[i])
    requires explanation != [] && Trimmed(explanation) && '\n' !in explanation
    ensures ParseResponse(FormatReply(classification, explanation)) ==
      Analysis(Some(classification), Some(explanation), 1.0)
  {
    ReadBackTwoLines("Classification: ", classification, "Explanation: ", explanation);
    LowerOfLowerCase(classification);
  }

  lemma ReadBack(prefix: string, value: string)
    requires KeyPrefix(prefix)
    requires value != [] && Trimmed(value) && '\n' !in value
    ensures FieldValue(Strip(prefix + value)) == value
  {
    LabelledLine(prefix, value);
    StripTrimmed(prefix + value);
    var key := prefix[..|prefix| - 2];
    assert prefix + value == key + [':'] + (" " + value);
    AfterColon(key, " " + value);
    StripLeadingSpace(value);
  }

  lemma StripTrimmed(s: string)
    requires Trimmed(s)
    ensures Strip(s) == s
  {
  }
}
