/**
 The email draft document: a header block, a separator line, and a body whose tail may be a quoted message.  A reply
 is merged into a draft by replacing what stands before the quote.  An absent value counts as the empty string.
 */
module EmailDraft {
  import opened Options
  import opened Text

  const SEPARATOR := "\n---\n"

  const QUOTE_MARKERS := ["---------- Previous message ----------", "-----Original Message-----",
                          "----- Original Message -----"]

  // ---------------------------------------------------------------- finding the quote

  predicate MarkerAt(markers: seq<string>, s: string, i: int) {
    exists k :: 0 <= k < |markers| && At(s, markers[k], i)
  }

  predicate HasMarker(markers: seq<string>, s: string) {
    exists i :: 0 <= i < |s| && MarkerAt(markers, s, i)
  }

  /** The least index at which any marker stands, from `i` on. */
  function FirstQuoteFrom(markers: seq<string>, s: string, i: nat): (r: Option<nat>)
    requires i <= |s|
    ensures r.Some? ==> i <= r.value < |s| && MarkerAt(markers, s, r.value)
                        && forall j :: i <= j < r.value ==> !MarkerAt(markers, s, j)
    ensures r.None? ==> forall j :: i <= j < |s| ==> !MarkerAt(markers, s, j)
    decreases |s| - i
  {
    if i == |s| then None
    else if MarkerAt(markers, s, i) then Some(i)
    else FirstQuoteFrom(markers, s, i + 1)
  }

  function FirstQuote(markers: seq<string>, s: string): Option<nat> {
    FirstQuoteFrom(markers, s, 0)
  }

  /** Every marker begins and ends with a dash and holds no line break. */
  predicate Dashed(markers: seq<string>) {
    forall k :: 0 <= k < |markers| ==> DashedLine(markers[k])
  }

  predicate DashedLine(m: string) {
    m != "" && m[0] == '-' && m[|m| - 1] == '-' && '\n' !in m
  }

  lemma QuoteMarkersDashed()
    ensures Dashed(QUOTE_MARKERS)
  {
    assert DashedLine(QUOTE_MARKERS[0]) && DashedLine(QUOTE_MARKERS[1]) && DashedLine(QUOTE_MARKERS[2]);
  }

  /** The loop over the markers, keeping the least index found. */
  method FindQuote(markers: seq<string>, body: string) returns (r: Option<nat>)
    requires Dashed(markers)
    ensures r == FirstQuote(markers, body)
  {
    r := None;
    for k := 0 to |markers|
      invariant r.Some? ==> r.value < |body| && exists m :: 0 <= m < k && At(body, markers[m], r.value)
      invariant forall m, j :: 0 <= m < k && 0 <= j < |body| && At(body, markers[m], j) ==>
                  r.Some? && r.value <= j
    {
      var idx := Find(body, markers[k]);
      if idx.Some? {
        assert DashedLine(markers[k]);
        if r.None? || idx.value < r.value { r := idx; }
      }
    }
    if r.Some? { assert MarkerAt(markers, body, r.value); }
  }

  // ---------------------------------------------------------------- merging

  function Quote(markers: seq<string>, body: string): string {
    var q := FirstQuote(markers, body);
    if q.Some? then Strip(body[q.value..]) else ""
  }

  function MergedBody(reply: string, quote: string): string {
    if quote == "" then Strip(reply)
    else if Strip(reply) == "" then quote
    else Strip(reply) + "\n\n" + quote
  }

  function MergeWith(markers: seq<string>, content: string, reply: string): string {
    var k := Find(content, SEPARATOR);
    if k.None? then reply
    else content[..k.value] + SEPARATOR + MergedBody(reply, Quote(markers, content[k.value + |SEPARATOR|..]))
  }

  function Merge(content: string, reply: string): string {
    MergeWith(QUOTE_MARKERS, content, reply)
  }

  method MergeReplyBody(content: string, reply: string) returns (r: string)
    ensures r == Merge(content, reply)
  {
    QuoteMarkersDashed();
    var k := Find(content, SEPARATOR);
    if k.None? { return reply; }
    var head, body := content[..k.value], content[k.value + |SEPARATOR|..];
    var quoteIndex := FindQuote(QUOTE_MARKERS, body);
    var quote := if quoteIndex.Some? then Strip(body[quoteIndex.value..]) else "";
    var merged := Strip(reply);
    if quote != "" {
      merged := if merged != "" then merged + "\n\n" + quote else quote;
    }
    return head + SEPARATOR + merged;
  }

  // ---------------------------------------------------------------- what the merge preserves

  /** The first separator of a document stays the first when the text after it changes. */
  lemma SeparatorStays(head: string, body: string, body': string)
    requires Find(head + SEPARATOR + body, SEPARATOR) == Some(|head|)
    ensures Find(head + SEPARATOR + body', SEPARATOR) == Some(|head|)
  {
    var s, s' := head + SEPARATOR + body, head + SEPARATOR + body';
    assert s'[|head|..|head| + |SEPARATOR|] == SEPARATOR;
    forall i | 0 <= i < |head| ensures !At(s', SEPARATOR, i) {
      assert !At(s, SEPARATOR, i);
      assert s[i..i + |SEPARATOR|] == (head + SEPARATOR)[i..i + |SEPARATOR|] == s'[i..i + |SEPARATOR|];
    }
    FindIs(s', SEPARATOR, |head|);
  }

  lemma MarkerShape(markers: seq<string>, s: string, i: int) returns (m: string)
    requires Dashed(markers) && MarkerAt(markers, s, i)
    ensures At(s, m, i) && DashedLine(m) && s[i] == '-' && s[i + |m| - 1] == '-'
    ensures forall t, j :: At(t, m, j) ==> MarkerAt(markers, t, j)
  {
    var k :| 0 <= k < |markers| && At(s, markers[k], i);
    m := markers[k];
    assert DashedLine(m);
    assert s[i] == s[i..i + |m|][0] && s[i + |m| - 1] == s[i..i + |m|][|m| - 1];
  }

  /** A marker inside a longer string, seen from either. */
  lemma Shifted(a: string, s: string, b: string, i: int, m: string)
    requires 0 <= i && i + |m| <= |s|
    ensures At(a + s + b, m, |a| + i) <==> At(s, m, i)
  {
    assert (a + s + b)[|a| + i..|a| + i + |m|] == s[i..i + |m|];
  }

  /** Stripping cuts space off, and a marker starts and ends with a dash. */
  lemma StripLosesNoMarker(markers: seq<string>, s: string)
    requires Dashed(markers) && HasMarker(markers, s)
    ensures HasMarker(markers, Strip(s))
  {
    var i, j := StripIsSlice(s);
    var p :| 0 <= p < |s| && MarkerAt(markers, s, p);
    var m := MarkerShape(markers, s, p);
    assert s == s[..i] + s[i..j] + s[j..];
    Shifted(s[..i], s[i..j], s[j..], p - i, m);
    assert MarkerAt(markers, Strip(s), p - i);
  }

  lemma StripAddsNoMarker(markers: seq<string>, s: string)
    requires Dashed(markers) && HasMarker(markers, Strip(s))
    ensures HasMarker(markers, s)
  {
    var i, j := StripIsSlice(s);
    var p :| 0 <= p < |Strip(s)| && MarkerAt(markers, Strip(s), p);
    var m := MarkerShape(markers, Strip(s), p);
    assert s == s[..i] + s[i..j] + s[j..];
    Shifted(s[..i], s[i..j], s[j..], p, m);
    assert MarkerAt(markers, s, i + p);
  }

  /** Stripping never touches a marker. */
  lemma StripKeepsMarkers(markers: seq<string>, s: string)
    requires Dashed(markers)
    ensures HasMarker(markers, Strip(s)) <==> HasMarker(markers, s)
  {
    if HasMarker(markers, s) {
      StripLosesNoMarker(markers, s);
    } else if HasMarker(markers, Strip(s)) {
      StripAddsNoMarker(markers, s);
    }
  }

  /** A non-empty quote is tight and begins with a marker. */
  lemma QuoteShape(markers: seq<string>, body: string)
    requires Dashed(markers)
    ensures Quote(markers, body) == "" <==> !HasMarker(markers, body)
    ensures Quote(markers, body) != "" ==> Tight(Quote(markers, body)) && MarkerAt(markers, Quote(markers, body), 0)
  {
    var q := FirstQuote(markers, body);
    if q.Some? {
      var tail := body[q.value..];
      var m := MarkerShape(markers, body, q.value);
      assert tail[..|m|] == m;
      var i, j := StripIsSlice(tail);
      assert tail[0] == '-' && tail[|m| - 1] == '-';
      assert i == 0 && |m| <= j;
      assert Strip(tail)[0..|m|] == m;
      assert At(Strip(tail), m, 0);
    }
  }

  /** No marker reaches over the blank line between a text and what follows it. */
  lemma MarkerBeforeBreak(markers: seq<string>, text: string, rest: string, i: nat)
    requires Dashed(markers) && i < |text| + 2
    ensures MarkerAt(markers, text + "\n\n" + rest, i) <==> MarkerAt(markers, text, i)
  {
    var merged := text + "\n\n" + rest;
    assert merged == "" + text + ("\n\n" + rest);
    if MarkerAt(markers, merged, i) {
      var m := MarkerShape(markers, merged, i);
      forall q | i <= q < i + |m| ensures merged[q] != '\n' {
        assert merged[q] == merged[i..i + |m|][q - i];
      }
      assert merged[|text|] == '\n' && merged[|text| + 1] == '\n';
      Shifted("", text, "\n\n" + rest, i, m);
    }
    if MarkerAt(markers, text, i) {
      var m := MarkerShape(markers, text, i);
      Shifted("", text, "\n\n" + rest, i, m);
    }
  }

  /** In text followed by a blank line and a quote, the first marker is the text's, or else the quote's. */
  lemma FirstQuoteOfMerged(markers: seq<string>, text: string, quote: string)
    requires Dashed(markers) && MarkerAt(markers, quote, 0)
    ensures FirstQuote(markers, text + "\n\n" + quote)
            == if HasMarker(markers, text) then FirstQuote(markers, text) else Some(|text| + 2)
  {
    var merged := text + "\n\n" + quote;
    forall i | 0 <= i < |text| + 2 ensures MarkerAt(markers, merged, i) <==> MarkerAt(markers, text, i) {
      MarkerBeforeBreak(markers, text, quote, i);
    }
    var m := MarkerShape(markers, quote, 0);
    Shifted(text + "\n\n", quote, "", 0, m);
    assert text + "\n\n" + quote + "" == merged;
    assert MarkerAt(markers, merged, |text| + 2);
  }

  /** The quote of a text followed by a blank line and a quote is that quote ... */
  lemma QuoteOfPlain(markers: seq<string>, text: string, quote: string)
    requires Dashed(markers) && MarkerAt(markers, quote, 0) && Tight(quote) && !HasMarker(markers, text)
    ensures Quote(markers, text + "\n\n" + quote) == quote
  {
    var merged := text + "\n\n" + quote;
    FirstQuoteOfMerged(markers, text, quote);
    assert merged[|text| + 2..] == quote;
    StripTight(quote);
  }

  lemma TailEnds(text: string, gap: string, quote: string, q: nat)
    requires q < |text| && quote != ""
    ensures var tail := (text + gap + quote)[q..];
            |tail| > |quote| && tail[0] == text[q] && tail[|tail| - 1] == quote[|quote| - 1]
  {
  }

  /** ... or a longer one, when the text has a marker. */
  lemma QuoteOfMarked(markers: seq<string>, text: string, quote: string)
    requires Dashed(markers) && MarkerAt(markers, quote, 0) && Tight(quote) && quote != "" && HasMarker(markers, text)
    ensures |Quote(markers, text + "\n\n" + quote)| > |quote|
  {
    FirstQuoteOfMerged(markers, text, quote);
    var q := FirstQuote(markers, text).value;
    var m := MarkerShape(markers, text, q);
    TailEnds(text, "\n\n", quote, q);
    StripTight((text + "\n\n" + quote)[q..]);
  }

  /** The quote found again after a merge: the same one, unless the reply brought a marker of its own. */
  lemma QuoteAfterMerge(markers: seq<string>, reply: string, quote: string)
    requires Dashed(markers) && (quote == "" || (Tight(quote) && MarkerAt(markers, quote, 0)))
    ensures !HasMarker(markers, reply) ==> Quote(markers, MergedBody(reply, quote)) == quote
    ensures HasMarker(markers, reply) ==> |Quote(markers, MergedBody(reply, quote))| > |quote|
  {
    var text := Strip(reply);
    StripKeepsMarkers(markers, reply);
    if quote == "" {
      QuoteShape(markers, text);
    } else if text == "" {
      StripTight(quote);
    } else if HasMarker(markers, text) {
      QuoteOfMarked(markers, text, quote);
    } else {
      QuoteOfPlain(markers, text, quote);
    }
  }

  lemma MergePreservesWith(markers: seq<string>, content: string, reply: string)
    requires Dashed(markers) && Contains(content, SEPARATOR)
    ensures var k, merged := Find(content, SEPARATOR), MergeWith(markers, content, reply);
            && k.Some? && Find(merged, SEPARATOR) == k && merged[..k.value] == content[..k.value]
            && merged[k.value + |SEPARATOR|..] == MergedBody(reply, Quote(markers, content[k.value + |SEPARATOR|..]))
  {
    var k := Find(content, SEPARATOR).value;
    var head, body := content[..k], content[k + |SEPARATOR|..];
    assert content == head + SEPARATOR + body;
    var merged := MergedBody(reply, Quote(markers, body));
    SeparatorStays(head, body, merged);
    assert (head + SEPARATOR + merged)[k + |SEPARATOR|..] == merged;
  }

  lemma LastWriterWinsWith(markers: seq<string>, content: string, first: string, second: string)
    requires Dashed(markers) && Contains(content, SEPARATOR)
    ensures MergeWith(markers, MergeWith(markers, content, first), second) == MergeWith(markers, content, second)
            <==> !HasMarker(markers, first)
  {
    var k := Find(content, SEPARATOR).value;
    var quote := Quote(markers, content[k + |SEPARATOR|..]);
    MergePreservesWith(markers, content, first);
    QuoteShape(markers, content[k + |SEPARATOR|..]);
    QuoteAfterMerge(markers, first, quote);
    var quote' := Quote(markers, MergedBody(first, quote));
    assert MergeWith(markers, MergeWith(markers, content, first), second)
        == content[..k] + SEPARATOR + MergedBody(second, quote');
    assert |MergedBody(second, quote')| == |MergedBody(second, quote)| ==> |quote'| == |quote|;
  }

  /** What counts as the beginning of a quoted message. */
  lemma MarkersAre(s: string, i: int)
    ensures MarkerAt(QUOTE_MARKERS, s, i) <==>
            || At(s, "---------- Previous message ----------", i)
            || At(s, "-----Original Message-----", i)
            || At(s, "----- Original Message -----", i)
  {
    assert QUOTE_MARKERS[0] == "---------- Previous message ----------";
    assert QUOTE_MARKERS[1] == "-----Original Message-----" && QUOTE_MARKERS[2] == "----- Original Message -----";
  }

  lemma StrippedTail(body: string, i: nat) returns (end: nat)
    requires i < |body| && !IsSpace(body[i])
    ensures i <= end <= |body| && Strip(body[i..]) == body[i..end]
    ensures forall j :: end <= j < |body| ==> IsSpace(body[j])
  {
    var tail := body[i..];
    var a, b := StripIsSlice(tail);
    assert tail[0] == body[i];
    assert a == 0;
    end := i + b;
    assert tail[0..b] == body[i..end];
    forall j | end <= j < |body| ensures IsSpace(body[j]) {
      assert body[j] == tail[j - i];
    }
  }

  /** The quote of a body begins at its first marker and ends where only space follows; without a marker there is none. */
  lemma QuoteIs(markers: seq<string>, body: string) returns (start: nat, end: nat)
    requires Dashed(markers)
    ensures start <= end <= |body| && Quote(markers, body) == body[start..end]
    ensures !HasMarker(markers, body) ==> start == end
    ensures HasMarker(markers, body) ==>
              && MarkerAt(markers, body, start) && (forall j :: 0 <= j < start ==> !MarkerAt(markers, body, j))
              && forall j :: end <= j < |body| ==> IsSpace(body[j])
  {
    start, end := 0, 0;
    if HasMarker(markers, body) {
      start := FirstQuote(markers, body).value;
      var m := MarkerShape(markers, body, start);
      end := StrippedTail(body, start);
    }
  }

  /**
   A merge keeps the header block and puts the stripped reply after it, and the quote of the old body at the end, with a
   blank line between the two when there are both.  A document without a separator is replaced by the reply.
   */
  lemma MergeIs(content: string, reply: string)
    ensures !Contains(content, SEPARATOR) ==> Merge(content, reply) == reply
    ensures Contains(content, SEPARATOR) ==>
              var k, merged := Find(content, SEPARATOR), Merge(content, reply);
              && k.Some? && content[..k.value] + SEPARATOR <= merged
              && var body, text := merged[k.value + |SEPARATOR|..], Strip(reply);
                 var quote := Quote(QUOTE_MARKERS, content[k.value + |SEPARATOR|..]);
                 && text <= body && |body| == |text| + |quote| + (if text != "" && quote != "" then 2 else 0)
                 && body[|body| - |quote|..] == quote
                 && (text != "" && quote != "" ==> body[|text|] == '\n' && body[|text| + 1] == '\n')
  {
    if Contains(content, SEPARATOR) {
      var k := Find(content, SEPARATOR).value;
      var quote := Quote(QUOTE_MARKERS, content[k + |SEPARATOR|..]);
      var body := MergedBody(reply, quote);
      assert Merge(content, reply) == content[..k] + SEPARATOR + body;
      assert Merge(content, reply)[k + |SEPARATOR|..] == body;
    }
  }

  /** A merge keeps the header block, and the quoted chain unless the reply brought a marker of its own. */
  lemma MergePreserves(content: string, reply: string)
    requires Contains(content, SEPARATOR)
    ensures var k, merged := Find(content, SEPARATOR), Merge(content, reply);
            && k.Some? && Find(merged, SEPARATOR) == k && merged[..k.value] == content[..k.value]
            && (!HasMarker(QUOTE_MARKERS, reply) ==>
                  Quote(QUOTE_MARKERS, merged[k.value + |SEPARATOR|..])
                  == Quote(QUOTE_MARKERS, content[k.value + |SEPARATOR|..]))
  {
    QuoteMarkersDashed();
    var body := content[Find(content, SEPARATOR).value + |SEPARATOR|..];
    MergePreservesWith(QUOTE_MARKERS, content, reply);
    QuoteShape(QUOTE_MARKERS, body);
    QuoteAfterMerge(QUOTE_MARKERS, reply, Quote(QUOTE_MARKERS, body));
  }

  /**
   Merging is last-writer-wins: a second reply leaves no trace of the first, exactly when the first held no quote
   marker.
   */
  lemma LastWriterWinsIff(content: string, first: string, second: string)
    requires Contains(content, SEPARATOR)
    ensures Merge(Merge(content, first), second) == Merge(content, second) <==> !HasMarker(QUOTE_MARKERS, first)
  {
    QuoteMarkersDashed();
    LastWriterWinsWith(QUOTE_MARKERS, content, first, second);
  }

  // ---------------------------------------------------------------- building a draft

  datatype Draft = Draft(to: string, subject: string, cc: string, bcc: string, inReplyTo: string,
                         references: string, sourceUid: string, sourceFolder: string)

  datatype Key = To | Cc | Bcc | Subject | InReplyTo | References | SourceUid | SourceFolder

  function KeyText(k: Key): string {
    match k
    case To => "To"
    case Cc => "Cc"
    case Bcc => "Bcc"
    case Subject => "Subject"
    case InReplyTo => "In-Reply-To"
    case References => "References"
    case SourceUid => "X-Source-UID"
    case SourceFolder => "X-Source-Folder"
  }

  datatype HeaderField = HeaderField(key: string, value: string)

  function Field(k: Key, value: string): HeaderField {
    HeaderField(KeyText(k), value)
  }

  function When(k: Key, value: string): seq<HeaderField> {
    if value == "" then [] else [Field(k, value)]
  }

  /** The fields a draft shows: recipient and subject always, the others when they are set. */
  function Fields(d: Draft): seq<HeaderField> {
    [Field(To, d.to)] + When(Cc, d.cc) + When(Bcc, d.bcc) + [Field(Subject, d.subject)]
    + When(InReplyTo, d.inReplyTo) + When(References, d.references)
    + When(SourceUid, d.sourceUid) + When(SourceFolder, d.sourceFolder)
  }

  function Line(f: HeaderField): string {
    f.key + ": " + f.value
  }

  function Lines(fields: seq<HeaderField>): (r: seq<string>)
    ensures |r| == |fields| && forall i :: 0 <= i < |r| ==> r[i] == Line(fields[i])
  {
    seq(|fields|, i requires 0 <= i < |fields| => Line(fields[i]))
  }

  /** `header_lines.append(f"{key}: {value}")` when the value is set, which the required fields skip asking. */
  method AppendLine(lines: seq<string>, ghost fields: seq<HeaderField>, k: Key, value: string, always: bool)
    returns (r: seq<string>)
    requires lines == Lines(fields)
    ensures r == Lines(fields + if always then [Field(k, value)] else When(k, value))
  {
    if !always && value == "" {
      assert fields + [] == fields;
      return lines;
    }
    r := lines + [KeyText(k) + ": " + value];
  }

  method BuildDocument(d: Draft, body: string) returns (r: string)
    ensures r == Join(Lines(Fields(d)), "\n") + SEPARATOR + body
  {
    var lines := [KeyText(To) + ": " + d.to];
    ghost var f := [Field(To, d.to)];
    lines := AppendLine(lines, f, Cc, d.cc, false);
    f := f + When(Cc, d.cc);
    lines := AppendLine(lines, f, Bcc, d.bcc, false);
    f := f + When(Bcc, d.bcc);
    lines := AppendLine(lines, f, Subject, d.subject, true);
    f := f + [Field(Subject, d.subject)];
    lines := AppendLine(lines, f, InReplyTo, d.inReplyTo, false);
    f := f + When(InReplyTo, d.inReplyTo);
    lines := AppendLine(lines, f, References, d.references, false);
    f := f + When(References, d.references);
    lines := AppendLine(lines, f, SourceUid, d.sourceUid, false);
    f := f + When(SourceUid, d.sourceUid);
    lines := AppendLine(lines, f, SourceFolder, d.sourceFolder, false);
    f := f + When(SourceFolder, d.sourceFolder);
    assert f == Fields(d);
    return Join(lines, "\n") + SEPARATOR + body;
  }

  lemma {:induction false} JoinAppended(lines: seq<string>, line: string, sep: string)
    requires lines != []
    ensures Join(lines + [line], sep) == Join(lines, sep) + sep + line
  {
    if |lines| > 1 {
      assert (lines + [line])[1..] == lines[1..] + [line];
      JoinAppended(lines[1..], line, sep);
    } else {
      assert (lines + [line])[1..] == [line];
    }
  }

  /** A header line on a line of its own, or nothing. */
  function Shown(header: string, value: string): string {
    if value == "" then "" else "\n" + header + ": " + value
  }

  lemma LinesAppended(fields: seq<HeaderField>, f: HeaderField)
    ensures Lines(fields + [f]) == Lines(fields) + [Line(f)]
  {
  }

  lemma HeadGrowsByLine(fields: seq<HeaderField>, k: Key, value: string)
    requires fields != []
    ensures Join(Lines(fields + [Field(k, value)]), "\n") == Join(Lines(fields), "\n") + "\n" + KeyText(k) + ": " + value
  {
    LinesAppended(fields, Field(k, value));
    JoinAppended(Lines(fields), Line(Field(k, value)), "\n");
  }

  lemma ShownAppended(s: string, header: string, value: string)
    requires value != ""
    ensures s + Shown(header, value) == s + "\n" + header + ": " + value
  {
  }

  lemma HeadGrows(fields: seq<HeaderField>, k: Key, value: string)
    requires fields != []
    ensures Join(Lines(fields + When(k, value)), "\n") == Join(Lines(fields), "\n") + Shown(KeyText(k), value)
  {
    if value == "" {
      assert fields + When(k, value) == fields;
    } else {
      HeadGrowsByLine(fields, k, value);
      ShownAppended(Join(Lines(fields), "\n"), KeyText(k), value);
    }
  }

  lemma HeadUpToBcc(d: Draft) returns (fields: seq<HeaderField>)
    ensures fields == [Field(To, d.to)] + When(Cc, d.cc) + When(Bcc, d.bcc) && fields != []
    ensures Join(Lines(fields), "\n") == "To: " + d.to + Shown("Cc", d.cc) + Shown("Bcc", d.bcc)
  {
    fields := [Field(To, d.to)];
    assert Lines(fields) == [Line(Field(To, d.to))];
    assert Line(Field(To, d.to)) == "To: " + d.to;
    HeadGrows(fields, Cc, d.cc);
    fields := fields + When(Cc, d.cc);
    HeadGrows(fields, Bcc, d.bcc);
    fields := fields + When(Bcc, d.bcc);
  }

  lemma HeadUpToSubject(d: Draft) returns (fields: seq<HeaderField>)
    ensures fields == [Field(To, d.to)] + When(Cc, d.cc) + When(Bcc, d.bcc) + [Field(Subject, d.subject)]
    ensures Join(Lines(fields), "\n") == "To: " + d.to + Shown("Cc", d.cc) + Shown("Bcc", d.bcc) + "\n" + "Subject" + ": " + d.subject
  {
    fields := HeadUpToBcc(d);
    HeadGrowsByLine(fields, Subject, d.subject);
    fields := fields + [Field(Subject, d.subject)];
  }

  /** The header block as a reader sees it, line by line: which header carries which value, and in which order. */
  lemma HeadIs(d: Draft)
    ensures Join(Lines(Fields(d)), "\n")
            == "To: " + d.to + Shown("Cc", d.cc) + Shown("Bcc", d.bcc) + "\n" + "Subject" + ": " + d.subject
               + Shown("In-Reply-To", d.inReplyTo) + Shown("References", d.references)
               + Shown("X-Source-UID", d.sourceUid) + Shown("X-Source-Folder", d.sourceFolder)
  {
    var fields := HeadUpToSubject(d);
    HeadGrows(fields, InReplyTo, d.inReplyTo);
    fields := fields + When(InReplyTo, d.inReplyTo);
    HeadGrows(fields, References, d.references);
    fields := fields + When(References, d.references);
    HeadGrows(fields, SourceUid, d.sourceUid);
    fields := fields + When(SourceUid, d.sourceUid);
    HeadGrows(fields, SourceFolder, d.sourceFolder);
    assert Fields(d) == fields + When(SourceFolder, d.sourceFolder);
  }

  // ---------------------------------------------------------------- reading it back

  /** Splits a header line at its first ": ". */
  function ParseLine(line: string): HeaderField {
    var k := Find(line, ": ");
    if k.None? then HeaderField(line, "") else HeaderField(line[..k.value], line[k.value + 2..])
  }

  function ParseLines(lines: seq<string>): (r: seq<HeaderField>)
    ensures |r| == |lines| && forall i :: 0 <= i < |r| ==> r[i] == ParseLine(lines[i])
  {
    seq(|lines|, i requires 0 <= i < |lines| => ParseLine(lines[i]))
  }

  predicate PlainKey(key: string) {
    key != "" && key[0] != '-' && ':' !in key && '\n' !in key
  }

  predicate PlainFields(fields: seq<HeaderField>) {
    forall f :: f in fields ==> PlainKey(f.key) && '\n' !in f.value
  }

  predicate NoLineBreaks(d: Draft) {
    && '\n' !in d.to && '\n' !in d.subject && '\n' !in d.cc && '\n' !in d.bcc && '\n' !in d.inReplyTo
    && '\n' !in d.references && '\n' !in d.sourceUid && '\n' !in d.sourceFolder
  }

  lemma KeyPlain(k: Key)
    ensures PlainKey(KeyText(k))
  {
    match k
    case To =>
    case Cc =>
    case Bcc =>
    case Subject =>
    case InReplyTo =>
    case References =>
    case SourceUid =>
    case SourceFolder =>
  }

  lemma FieldPlain(k: Key, value: string)
    requires '\n' !in value
    ensures PlainFields([Field(k, value)]) && PlainFields(When(k, value))
  {
    KeyPlain(k);
    assert Field(k, value).key == KeyText(k);
  }

  lemma PlainAppend(a: seq<HeaderField>, b: seq<HeaderField>)
    requires PlainFields(a) && PlainFields(b)
    ensures PlainFields(a + b)
  {
  }

  lemma FieldsPlain(d: Draft)
    requires NoLineBreaks(d)
    ensures PlainFields(Fields(d)) && Fields(d) != []
  {
    FieldPlain(To, d.to); FieldPlain(Cc, d.cc); FieldPlain(Bcc, d.bcc); FieldPlain(Subject, d.subject);
    FieldPlain(InReplyTo, d.inReplyTo); FieldPlain(References, d.references);
    FieldPlain(SourceUid, d.sourceUid); FieldPlain(SourceFolder, d.sourceFolder);
    var f := [Field(To, d.to)];
    PlainAppend(f, When(Cc, d.cc)); f := f + When(Cc, d.cc);
    PlainAppend(f, When(Bcc, d.bcc)); f := f + When(Bcc, d.bcc);
    PlainAppend(f, [Field(Subject, d.subject)]); f := f + [Field(Subject, d.subject)];
    PlainAppend(f, When(InReplyTo, d.inReplyTo)); f := f + When(InReplyTo, d.inReplyTo);
    PlainAppend(f, When(References, d.references)); f := f + When(References, d.references);
    PlainAppend(f, When(SourceUid, d.sourceUid)); f := f + When(SourceUid, d.sourceUid);
    PlainAppend(f, When(SourceFolder, d.sourceFolder));
  }

  lemma ParseLineOfLine(f: HeaderField)
    requires PlainKey(f.key)
    ensures ParseLine(Line(f)) == f
  {
    var line := Line(f);
    assert line[|f.key|..|f.key| + 2] == ": ";
    forall i | 0 <= i < |f.key| ensures !At(line, ": ", i) {
      assert line[i] == f.key[i];
      assert line[i..i + 2][0] == line[i];
    }
    FindIs(line, ": ", |f.key|);
  }

  /** In lines that start with anything but a dash, a line break is followed by no dash. */
  lemma {:induction false} NoDashAfterBreak(lines: seq<string>, i: nat)
    requires forall l :: l in lines ==> l != "" && l[0] != '-' && '\n' !in l
    requires i < |Join(lines, "\n")| && Join(lines, "\n")[i] == '\n'
    ensures i + 1 < |Join(lines, "\n")| && Join(lines, "\n")[i + 1] != '-'
  {
    if lines != [] {
      forall j | 0 <= j < |lines[0]| ensures lines[0][j] != '\n' {
        assert lines[0] in lines && lines[0][j] in lines[0];
      }
      if |lines| > 1 {
        var rest := Join(lines[1..], "\n");
        assert lines[1] in lines && rest != "" && rest[0] == lines[1][0];
        if i > |lines[0]| {
          assert Join(lines, "\n")[i] == rest[i - |lines[0]| - 1];
          assert forall l :: l in lines[1..] ==> l in lines;
          NoDashAfterBreak(lines[1..], i - |lines[0]| - 1);
        }
      }
    }
  }

  /** Splitting a built document at its first separator recovers the body, and reading the header block every field. */
  predicate Recovers(d: Draft, body: string) {
    var doc := Join(Lines(Fields(d)), "\n") + SEPARATOR + body;
    var k := Find(doc, SEPARATOR);
    && k.Some? && doc[k.value + |SEPARATOR|..] == body
    && ParseLines(Split(doc[..k.value], '\n')) == Fields(d)
  }

  /** The first separator of a document is the one after the header block exactly when no header line is its text. */
  lemma SeparatorAfterHeadIff(head: string, body: string)
    ensures Find(head + SEPARATOR + body, SEPARATOR) == Some(|head|) <==> !Contains(head + "\n", SEPARATOR)
  {
    var doc := head + SEPARATOR + body;
    assert doc[|head|..|head| + |SEPARATOR|] == SEPARATOR;
    assert doc[|head|] == '\n' && forall j :: |head| < j < |head| + 4 ==> doc[j] == '-';
    forall i | 0 <= i < |head| ensures At(doc, SEPARATOR, i) <==> At(head + "\n", SEPARATOR, i) {
      if i + |SEPARATOR| <= |head| + 1 {
        assert doc[i..i + |SEPARATOR|] == (head + "\n")[i..i + |SEPARATOR|];
      } else {
        assert doc[i..i + |SEPARATOR|][4] == doc[i + 4] == '-';
      }
    }
    if !Contains(head + "\n", SEPARATOR) {
      FindIs(doc, SEPARATOR, |head|);
    }
  }

  lemma HeadHasNoSeparator(lines: seq<string>)
    requires forall l :: l in lines ==> l != "" && l[0] != '-' && '\n' !in l
    ensures !Contains(Join(lines, "\n") + "\n", SEPARATOR)
  {
    var head := Join(lines, "\n");
    forall i | 0 <= i <= |head| + 1 ensures !At(head + "\n", SEPARATOR, i) {
      if At(head + "\n", SEPARATOR, i) {
        assert (head + "\n")[i..i + |SEPARATOR|][0] == '\n' && (head + "\n")[i..i + |SEPARATOR|][1] == '-';
        NoDashAfterBreak(lines, i);
      }
    }
  }

  lemma FieldLinesPlain(d: Draft)
    requires NoLineBreaks(d)
    ensures forall l :: l in Lines(Fields(d)) ==> l != "" && l[0] != '-' && '\n' !in l
  {
    var lines := Lines(Fields(d));
    FieldsPlain(d);
    forall l | l in lines ensures l != "" && l[0] != '-' && '\n' !in l {
      var i :| 0 <= i < |lines| && lines[i] == l;
      assert Fields(d)[i] in Fields(d);
    }
  }

  lemma SplitRecoversDraft(d: Draft, body: string)
    requires NoLineBreaks(d)
    ensures Recovers(d, body)
  {
    var lines := Lines(Fields(d));
    var head := Join(lines, "\n");
    FieldsPlain(d);
    FieldLinesPlain(d);
    HeadHasNoSeparator(lines);
    SeparatorAfterHeadIff(head, body);
    assert (head + SEPARATOR + body)[..|head|] == head;
    SplitJoin(lines, '\n');
    forall i | 0 <= i < |lines| ensures ParseLine(lines[i]) == Fields(d)[i] {
      assert Fields(d)[i] in Fields(d);
      ParseLineOfLine(Fields(d)[i]);
    }
  }

  /** A value that some field shows, and that therefore stands in some line. */
  lemma ShownInLine(d: Draft, f: HeaderField)
    requires f in Fields(d)
    ensures Line(f) in Lines(Fields(d)) && forall c :: c in f.value ==> c in Line(f)
  {
    var i :| 0 <= i < |Fields(d)| && Fields(d)[i] == f;
    assert Lines(Fields(d))[i] == Line(f);
    forall c | c in f.value ensures c in Line(f) {
      var j :| 0 <= j < |f.value| && f.value[j] == c;
      assert Line(f)[|f.key| + 2 + j] == c;
    }
  }

  lemma FieldsShow(d: Draft, k: Key, value: string)
    requires forall f :: f in Fields(d) ==> '\n' !in f.value
    requires forall f :: f in When(k, value) ==> f in Fields(d)
    ensures '\n' !in value
  {
    if value != "" {
      assert Field(k, value) in When(k, value);
      assert Field(k, value).value == value;
    }
  }

  lemma PlainFieldsOfDraft(d: Draft)
    requires forall f :: f in Fields(d) ==> '\n' !in f.value
    ensures NoLineBreaks(d)
  {
    var fields := Fields(d);
    assert fields[0] == Field(To, d.to) && Field(To, d.to).value == d.to;
    assert Field(Subject, d.subject) in fields && Field(Subject, d.subject).value == d.subject;
    FieldsShow(d, Cc, d.cc);
    FieldsShow(d, Bcc, d.bcc);
    FieldsShow(d, InReplyTo, d.inReplyTo);
    FieldsShow(d, References, d.references);
    FieldsShow(d, SourceUid, d.sourceUid);
    FieldsShow(d, SourceFolder, d.sourceFolder);
  }

  lemma RecoveredHasNoLineBreaks(d: Draft, body: string)
    requires Recovers(d, body)
    ensures NoLineBreaks(d)
  {
    var lines := Lines(Fields(d));
    var head := Join(lines, "\n");
    var doc := head + SEPARATOR + body;
    var k := Find(doc, SEPARATOR).value;
    assert |doc[k + |SEPARATOR|..]| == |body|;
    assert doc[..k] == head;
    assert |Split(head, '\n')| == |lines|;
    JoinedSplitsIff(lines, '\n');
    forall f | f in Fields(d) ensures '\n' !in f.value {
      ShownInLine(d, f);
    }
    PlainFieldsOfDraft(d);
  }

  /** A built document is recovered in full exactly when no header value holds a line break. */
  lemma RecoversIff(d: Draft, body: string)
    ensures Recovers(d, body) <==> NoLineBreaks(d)
  {
    if NoLineBreaks(d) {
      SplitRecoversDraft(d, body);
    }
    if Recovers(d, body) {
      RecoveredHasNoLineBreaks(d, body);
    }
  }

  /**
   The body alone is recovered exactly when the header block, closed by a line break, holds no separator: a header
   value may hold line breaks as long as none of its lines is the separator's.
   */
  lemma BodyRecoveredIff(d: Draft, body: string)
    ensures var head := Join(Lines(Fields(d)), "\n");
            var k := Find(head + SEPARATOR + body, SEPARATOR);
            k.Some? && ((head + SEPARATOR + body)[k.value + |SEPARATOR|..] == body <==> !Contains(head + "\n", SEPARATOR))
  {
    var head := Join(Lines(Fields(d)), "\n");
    var doc := head + SEPARATOR + body;
    SeparatorAfterHeadIff(head, body);
    assert doc[|head|..|head| + |SEPARATOR|] == SEPARATOR;
    assert At(doc, SEPARATOR, |head|) && Contains(doc, SEPARATOR);
    assert doc[|head| + |SEPARATOR|..] == body;
    var k := Find(doc, SEPARATOR).value;
    assert |doc[k + |SEPARATOR|..]| == |body| ==> k == |head|;
  }

  /** A recipient with a line break can move the separator: the first one is then inside the header block. */
  lemma LineBreakMovesSeparator(d: Draft, body: string)
    requires d.to == "a\n---\nb"
    ensures var head := Join(Lines(Fields(d)), "\n");
            var k := Find(head + SEPARATOR + body, SEPARATOR);
            k.Some? && k.value < |head|
  {
    var lines := Lines(Fields(d));
    var head := Join(lines, "\n");
    assert lines[0] == Line(Field(To, d.to));
    assert lines[0] == "To: " + d.to;
    assert lines[0][5..5 + |SEPARATOR|] == SEPARATOR;
    assert lines[0] <= head;
    assert (head + SEPARATOR + body)[5..5 + |SEPARATOR|] == lines[0][5..5 + |SEPARATOR|];
    assert At(head + SEPARATOR + body, SEPARATOR, 5);
    assert Contains(head + SEPARATOR + body, SEPARATOR);
  }
}
