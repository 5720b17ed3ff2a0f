/** `convert_doccano_to_spacy`: every line of a Doccano export becomes a
    document whose `label` triplets `[start, end, label]` are trimmed of
    surrounding whitespace, clamped to the text and aligned to tokens, with
    counters for documents, entities, skipped spans, bad lines and empty
    documents. The tokenizer's `char_span` is a parameter. */
module ConvertData {
  import opened Wrappers
  import opened Strings

  /** An entry of a record's `label` list: a list or tuple of three items,
      or anything else. */
  datatype Entry = Triplet(start: int, end: int, lbl: string) | Malformed

  /** A line of the input: not valid JSON, or an object with its `text`
      (default "") and its `label` list (default []). */
  datatype Line = BadJson | Record(text: string, labels: seq<Entry>)

  datatype Span = Span(start: int, end: int, lbl: string)

  datatype Doc = Doc(text: string, spans: seq<Span>)

  /** `doc.char_span(start, end, alignment_mode="contract")`: the offsets of
      the span shrunk to whole tokens, or None when no token fits. */
  type CharSpan = (string, int, int) -> Option<(int, int)>

  // ---------------------------------------------------------------------------
  // Trimming a triplet's offsets

  /** Python's `text[k]`: a negative position counts from the end. */
  function At(text: string, k: int): char
    requires -|text| <= k < |text|
  {
    if k < 0 then text[|text| + k] else text[k]
  }

  /** `text[k]` is in range and is whitespace. */
  predicate SpaceAt(text: string, k: int) {
    -|text| <= k < |text| && IsPySpace(At(text, k))
  }

  /** Where the first trimming loop stops, or None when it reads `text[s]`
      out of range and raises `IndexError`. */
  function SkipLeading(text: string, s: int, e: int): Option<int>
    decreases e - s
  {
    if s < e && s < |text| then
      if s < -|text| then None
      else if IsPySpace(At(text, s)) then SkipLeading(text, s + 1, e)
      else Some(s)
    else Some(s)
  }

  /** Where the second trimming loop stops, or None when it raises. */
  function SkipTrailing(text: string, s: int, e: int): Option<int>
    decreases e - s
  {
    if e > s && e - 1 < |text| then
      if e - 1 < -|text| then None
      else if IsPySpace(At(text, e - 1)) then SkipTrailing(text, s, e - 1)
      else Some(e)
    else Some(e)
  }

  /** Both trimming loops: the new offsets, or None when one of them raises. */
  function Trim(text: string, start: int, end: int): Option<(int, int)> {
    match SkipLeading(text, start, end)
    case None => None
    case Some(s) =>
      match SkipTrailing(text, s, end)
      case None => None
      case Some(e) => Some((s, e))
  }

  /** The two `while` loops of the triplet loop, as written: `start` moves
      right past whitespace, then `end` moves left past whitespace. */
  method TrimSpan(text: string, start: int, end: int) returns (r: Option<(int, int)>)
    ensures r == Trim(text, start, end)
  {
    var s := start;
    while s < end && s < |text|
      invariant SkipLeading(text, s, end) == SkipLeading(text, start, end)
      decreases end - s
    {
      if s < -|text| {
        return None;
      }
      if !IsPySpace(At(text, s)) {
        break;
      }
      s := s + 1;
    }
    var e := end;
    while e > s && e - 1 < |text|
      invariant SkipTrailing(text, s, e) == SkipTrailing(text, s, end)
      decreases e - s
    {
      if e - 1 < -|text| {
        return None;
      }
      if !IsPySpace(At(text, e - 1)) {
        break;
      }
      e := e - 1;
    }
    r := Some((s, e));
  }

  /** The first loop raises only when it is entered at a position before the
      start of the text; otherwise it moves `start` forward, not past `end`,
      over whitespace only, and stops at a non-whitespace character. */
  lemma {:induction false} SkipLeadingShape(text: string, s: int, e: int)
    ensures SkipLeading(text, s, e).None? <==> s < e && s < -|text|
    ensures SkipLeading(text, s, e).Some? ==>
      var s' := SkipLeading(text, s, e).value;
      s <= s' && (s <= e ==> s' <= e) &&
      (forall k :: s <= k < s' ==> SpaceAt(text, k)) &&
      (s' < e && s' < |text| ==> -|text| <= s' && !IsPySpace(At(text, s')))
    decreases e - s
  {
    if s < e && s < |text| && -|text| <= s && IsPySpace(At(text, s)) {
      SkipLeadingShape(text, s + 1, e);
      assert SkipLeading(text, s, e) == SkipLeading(text, s + 1, e);
    }
  }

  /** The second loop never raises once `start` is inside the text, and it
      moves `end` back, not past `start`, over whitespace only. */
  lemma {:induction false} SkipTrailingShape(text: string, s: int, e: int)
    requires -|text| <= s
    ensures SkipTrailing(text, s, e).Some?
    ensures var e' := SkipTrailing(text, s, e).value;
      e' <= e && (s <= e ==> s <= e') &&
      (forall k :: e' <= k < e ==> SpaceAt(text, k)) &&
      (e' > s && e' - 1 < |text| ==> !IsPySpace(At(text, e' - 1)))
    decreases e - s
  {
    if e > s && e - 1 < |text| && IsPySpace(At(text, e - 1)) {
      SkipTrailingShape(text, s, e - 1);
    }
  }

  /** The loops raise `IndexError` exactly when `start` lies before the
      start of the text and below `end`; otherwise they never make
      `start > end` and only step over whitespace. */
  lemma TrimShape(text: string, start: int, end: int)
    ensures Trim(text, start, end).None? <==> start < end && start < -|text|
    ensures Trim(text, start, end).Some? ==>
      var (s, e) := Trim(text, start, end).value;
      start <= s && e <= end && (start <= end ==> s <= e) &&
      (forall k :: start <= k < s ==> SpaceAt(text, k)) &&
      (forall k :: e <= k < end ==> SpaceAt(text, k))
  {
    SkipLeadingShape(text, start, end);
    if SkipLeading(text, start, end).Some? {
      var s := SkipLeading(text, start, end).value;
      if start < end {
        SkipTrailingShape(text, s, end);
      } else {
        assert s == start;
      }
    }
  }

  /** `max(0, min(x, n))`. */
  function Clamp(x: int, n: nat): (r: nat)
    ensures r <= n
    ensures 0 <= x <= n ==> r == x
  {
    if x < 0 then 0 else if x > n then n else x
  }

  /** With offsets inside the text, a span that survives the loops and the
      clamp starts and ends with a non-whitespace character. */
  lemma TrimmedEndsInText(text: string, start: int, end: int)
    requires 0 <= start && end <= |text|
    ensures Trim(text, start, end).Some?
    ensures var (s, e) := Trim(text, start, end).value;
      Clamp(s, |text|) < Clamp(e, |text|) ==>
        0 <= s < e <= |text| && !IsPySpace(text[s]) && !IsPySpace(text[e - 1])
  {
    TrimShape(text, start, end);
    SkipLeadingShape(text, start, end);
    var s := SkipLeading(text, start, end).value;
    if s < end {
      SkipTrailingShape(text, s, end);
      var e := SkipTrailing(text, s, end).value;
      if s < e {
        assert At(text, e - 1) == text[e - 1];
      }
    }
  }

  /** Clamping after the loops leaves trailing whitespace in when `end`
      lies past the text: the second loop never looks at it. */
  lemma TrailingSpaceKept()
    ensures Trim("ab ", 0, 5) == Some((0, 5))
    ensures Clamp(0, 3) < Clamp(5, 3) && IsPySpace("ab "[Clamp(5, 3) - 1])
  {
    assert At("ab ", 0) == 'a';
    assert SkipLeading("ab ", 0, 5) == Some(0);
  }

  /** The triplet's offsets clamped first and then trimmed: whitespace is
      removed at both ends whatever the offsets. */
  function TrimClamped(text: string, start: int, end: int): (r: (int, int))
    ensures 0 <= r.0 && r.1 <= |text|
    ensures r.0 < r.1 ==> !IsPySpace(text[r.0]) && !IsPySpace(text[r.1 - 1])
  {
    var t := Trim(text, Clamp(start, |text|), Clamp(end, |text|));
    TrimmedEndsInText(text, Clamp(start, |text|), Clamp(end, |text|));
    TrimShape(text, Clamp(start, |text|), Clamp(end, |text|));
    t.value
  }

  // ---------------------------------------------------------------------------
  // One document

  /** The `IndexError` a trimming loop raises; nothing catches it, so the
      script stops there and writes nothing. */
  datatype Abort = IndexError

  /** The trimming loops raise on this entry (see `TrimShape`). */
  predicate Raises(text: string, entry: Entry) {
    entry.Triplet? && entry.start < entry.end && entry.start < -|text|
  }

  /** Some entry of the list raises. */
  predicate AnyRaises(text: string, labels: seq<Entry>) {
    exists j :: 0 <= j < |labels| && Raises(text, labels[j])
  }

  /** What one `label` entry does, as written: the loops trim the raw
      offsets, then the results are clamped. `Err` is the `IndexError` of the
      loops; `Ok(None)` counts the entry in `skipped_spans` (bad format, empty
      after clamping, or not aligned); `Ok(Some(span))` keeps the span
      `char_span` aligned, under the entry's label. */
  function SpanOf(text: string, entry: Entry, charSpan: CharSpan): (r: Result<Option<Span>, Abort>)
    ensures r.Err? <==> Raises(text, entry)
    ensures r.Ok? && r.value.Some? ==> entry.Triplet? && r.value.value.lbl == entry.lbl
  {
    match entry
    case Malformed => Ok(None)
    case Triplet(start, end, lbl) =>
      TrimShape(text, start, end);
      match Trim(text, start, end)
      case None => Err(IndexError)
      case Some((s0, e0)) =>
        var (s, e) := (Clamp(s0, |text|), Clamp(e0, |text|));
        if s >= e then Ok(None)
        else match charSpan(text, s, e)
          case None => Ok(None)
          case Some((a, b)) => Ok(Some(Span(a, b, lbl)))
  }

  /** One `label` entry with its offsets clamped before trimming (see
      `TrimClamped`): it never raises, and the range handed to `char_span`
      starts and ends with a non-whitespace character of the text. */
  function FixedSpanOf(text: string, entry: Entry, charSpan: CharSpan): (r: Option<Span>)
    ensures r.Some? ==> entry.Triplet? && r.value.lbl == entry.lbl
    ensures r.Some? ==>
      exists s, e :: 0 <= s < e <= |text| && !IsPySpace(text[s]) && !IsPySpace(text[e - 1]) &&
        charSpan(text, s, e) == Some((r.value.start, r.value.end))
  {
    match entry
    case Malformed => None
    case Triplet(start, end, lbl) =>
      var (s, e) := TrimClamped(text, start, end);
      if s >= e then None
      else match charSpan(text, s, e)
        case None => None
        case Some((a, b)) => Some(Span(a, b, lbl))
  }

  /** For offsets inside the text both orders agree: the loops do not raise
      and the clamp after them changes nothing. */
  lemma SpanOfAgrees(text: string, entry: Entry, charSpan: CharSpan)
    requires entry.Triplet? ==> 0 <= entry.start && entry.end <= |text|
    ensures SpanOf(text, entry, charSpan) == Ok(FixedSpanOf(text, entry, charSpan))
  {
    if entry.Triplet? {
      TrimShape(text, entry.start, entry.end);
    }
  }

  /** The identity alignment: every range is already whole tokens. */
  const Whole: CharSpan := (t: string, s: int, e: int) => Some((s, e))

  /** On "ab " with offsets 0..5 the source hands `char_span` the range 0..3,
      trailing space included; clamping first hands it 0..2. */
  lemma SpanOfKeepsSpace()
    ensures SpanOf("ab ", Triplet(0, 5, "X"), Whole) == Ok(Some(Span(0, 3, "X")))
    ensures FixedSpanOf("ab ", Triplet(0, 5, "X"), Whole) == Some(Span(0, 2, "X"))
  {
    TrailingSpaceKept();
    var t := Trim("ab ", 0, 3);
    assert At("ab ", 0) == 'a' && At("ab ", 2) == ' ' && At("ab ", 1) == 'b';
    assert SkipLeading("ab ", 0, 3) == Some(0);
    assert SkipTrailing("ab ", 0, 2) == Some(2);
    assert SkipTrailing("ab ", 0, 3) == Some(2);
  }

  /** On "ab" with offsets -5..1 the first loop reads `text[-5]` and raises;
      clamping first keeps "a". */
  lemma SpanOfRaises()
    ensures SpanOf("ab", Triplet(-5, 1, "X"), Whole) == Err(IndexError)
    ensures FixedSpanOf("ab", Triplet(-5, 1, "X"), Whole) == Some(Span(0, 1, "X"))
  {
    assert At("ab", 0) == 'a';
    assert SkipLeading("ab", 0, 1) == Some(0);
    assert SkipTrailing("ab", 0, 1) == Some(1);
  }

  /** The triplet loop of one document, as written: the spans it keeps, in
      entry order, and the number of entries it skips, or the `IndexError`
      of the first entry that raises. */
  function DocSpans(text: string, labels: seq<Entry>, charSpan: CharSpan): (r: Result<(seq<Span>, nat), Abort>)
    ensures r.Err? <==> AnyRaises(text, labels)
    ensures r.Ok? ==> |r.value.0| + r.value.1 == |labels|
    decreases |labels|
  {
    if labels == [] then Ok(([], 0))
    else
      var n := |labels| - 1;
      assert forall j :: 0 <= j < n ==> labels[..n][j] == labels[j];
      match DocSpans(text, labels[..n], charSpan)
      case Err(x) => Err(x)
      case Ok((spans, skipped)) =>
        match SpanOf(text, labels[n], charSpan)
        case Err(x) => Err(x)
        case Ok(None) => Ok((spans, skipped + 1))
        case Ok(Some(sp)) => Ok((spans + [sp], skipped))
  }

  /** The triplet loop with the clamp moved before the trimming loops. */
  function FixedDocSpans(text: string, labels: seq<Entry>, charSpan: CharSpan): (r: (seq<Span>, nat))
    ensures |r.0| + r.1 == |labels|
    decreases |labels|
  {
    if labels == [] then ([], 0)
    else
      var (spans, skipped) := FixedDocSpans(text, labels[..|labels| - 1], charSpan);
      match FixedSpanOf(text, labels[|labels| - 1], charSpan)
      case None => (spans, skipped + 1)
      case Some(sp) => (spans + [sp], skipped)
  }

  /** Every entry's offsets lie inside the text. */
  predicate InText(text: string, labels: seq<Entry>) {
    forall j :: 0 <= j < |labels| && labels[j].Triplet? ==> 0 <= labels[j].start && labels[j].end <= |text|
  }

  /** With every entry's offsets inside the text, the document loop as
      written and the corrected one agree. */
  lemma {:induction false} DocSpansAgree(text: string, labels: seq<Entry>, charSpan: CharSpan)
    requires InText(text, labels)
    ensures DocSpans(text, labels, charSpan) == Ok(FixedDocSpans(text, labels, charSpan))
    decreases |labels|
  {
    if labels != [] {
      var n := |labels| - 1;
      assert InText(text, labels[..n]) by {
        forall j | 0 <= j < n ensures labels[..n][j] == labels[j] {}
      }
      DocSpansAgree(text, labels[..n], charSpan);
      SpanOfAgrees(text, labels[n], charSpan);
    }
  }

  lemma DocSpansStep(text: string, labels: seq<Entry>, i: nat, charSpan: CharSpan)
    requires i < |labels|
    ensures DocSpans(text, labels[..i + 1], charSpan) ==
      match DocSpans(text, labels[..i], charSpan)
      case Err(x) => Err(x)
      case Ok((spans, skipped)) =>
        match SpanOf(text, labels[i], charSpan)
        case Err(x) => Err(x)
        case Ok(None) => Ok((spans, skipped + 1))
        case Ok(Some(sp)) => Ok((spans + [sp], skipped))
  {
    assert labels[..i + 1][..i] == labels[..i];
  }

  /** One pass of the triplet loop, as written: the trimming loops on the raw
      offsets, then the clamp, the emptiness test and `char_span`. */
  method ConvertEntry(text: string, entry: Entry, charSpan: CharSpan) returns (r: Result<Option<Span>, Abort>)
    ensures r == SpanOf(text, entry, charSpan)
  {
    if entry.Malformed? {
      return Ok(None);
    }
    var t := TrimSpan(text, entry.start, entry.end);
    if t.None? {
      return Err(IndexError);
    }
    var start := Clamp(t.value.0, |text|);
    var end := Clamp(t.value.1, |text|);
    if start >= end {
      return Ok(None);
    }
    var aligned := charSpan(text, start, end);
    if aligned.None? {
      return Ok(None);
    }
    r := Ok(Some(Span(aligned.value.0, aligned.value.1, entry.lbl)));
  }

  /** The triplet loop of one document; an `IndexError` leaves it at once. */
  method ConvertDoc(text: string, labels: seq<Entry>, charSpan: CharSpan) returns (r: Result<(seq<Span>, nat), Abort>)
    ensures r == DocSpans(text, labels, charSpan)
  {
    var spans: seq<Span>, skipped: nat := [], 0;
    for i := 0 to |labels|
      invariant DocSpans(text, labels[..i], charSpan) == Ok((spans, skipped))
    {
      DocSpansStep(text, labels, i, charSpan);
      var span := ConvertEntry(text, labels[i], charSpan);
      if span.Err? {
        DocSpansAbort(text, labels, i + 1, charSpan);
        return Err(span.error);
      }
      if span.value.None? {
        skipped := skipped + 1;
      } else {
        spans := spans + [span.value.value];
      }
    }
    assert labels[..|labels|] == labels;
    r := Ok((spans, skipped));
  }

  /** An `IndexError` in a prefix of the entries is the loop's outcome. */
  lemma DocSpansAbort(text: string, labels: seq<Entry>, i: nat, charSpan: CharSpan)
    requires i <= |labels| && DocSpans(text, labels[..i], charSpan).Err?
    ensures DocSpans(text, labels, charSpan) == Err(IndexError)
  {
    var j :| 0 <= j < i && Raises(text, labels[..i][j]);
    assert labels[..i][j] == labels[j];
    assert AnyRaises(text, labels);
    assert DocSpans(text, labels, charSpan).error.IndexError?;
  }

  // ---------------------------------------------------------------------------
  // The whole file

  datatype Report = Report(docs: seq<Doc>, totalDocs: nat, totalEntities: nat, skippedSpans: nat,
                           badJsonLines: nat, emptyDocs: nat, labelCounter: multiset<string>)

  predicate Blank(text: string) {
    Strip(text) == ""
  }

  /** A record whose text is not blank and whose entries raise: the line
      that stops the script. */
  predicate AbortsLine(l: Line) {
    l.Record? && !Blank(l.text) && AnyRaises(l.text, l.labels)
  }

  /** No line of `ls` stops the script. */
  predicate NoAbort(ls: seq<Line>) {
    forall k :: 0 <= k < |ls| ==> !AbortsLine(ls[k])
  }

  lemma NoAbortSnoc(ls: seq<Line>, l: Line)
    requires NoAbort(ls) && !AbortsLine(l)
    ensures NoAbort(ls + [l])
  {
  }

  /** The documents written, one per record with non-blank text, in line
      order (a record that raises adds none). */
  function KeptDocs(lines: seq<Line>, charSpan: CharSpan): seq<Doc>
    decreases |lines|
  {
    if lines == [] then []
    else
      var docs := KeptDocs(lines[..|lines| - 1], charSpan);
      match lines[|lines| - 1]
      case BadJson => docs
      case Record(text, labels) =>
        if Blank(text) then docs
        else match DocSpans(text, labels, charSpan)
          case Err(_) => docs
          case Ok((spans, _)) => docs + [Doc(text, spans)]
  }

  function CountBadJson(lines: seq<Line>): nat
    decreases |lines|
  {
    if lines == [] then 0
    else CountBadJson(lines[..|lines| - 1]) + if lines[|lines| - 1].BadJson? then 1 else 0
  }

  function CountBlank(lines: seq<Line>): nat
    decreases |lines|
  {
    if lines == [] then 0
    else
      var last := lines[|lines| - 1];
      CountBlank(lines[..|lines| - 1]) + if last.Record? && Blank(last.text) then 1 else 0
  }

  /** The `label` entries of the documents that are kept. */
  function CountEntries(lines: seq<Line>): nat
    decreases |lines|
  {
    if lines == [] then 0
    else
      var last := lines[|lines| - 1];
      CountEntries(lines[..|lines| - 1]) + if last.Record? && !Blank(last.text) then |last.labels| else 0
  }

  function LabelsOf(spans: seq<Span>): multiset<string>
    decreases |spans|
  {
    if spans == [] then multiset{}
    else LabelsOf(spans[..|spans| - 1]) + multiset{spans[|spans| - 1].lbl}
  }

  /** Every span label over all documents, counted with multiplicity. */
  function AllLabels(docs: seq<Doc>): multiset<string>
    decreases |docs|
  {
    if docs == [] then multiset{}
    else AllLabels(docs[..|docs| - 1]) + LabelsOf(docs[|docs| - 1].spans)
  }

  function CountEmpty(docs: seq<Doc>): nat
    decreases |docs|
  {
    if docs == [] then 0
    else CountEmpty(docs[..|docs| - 1]) + if docs[|docs| - 1].spans == [] then 1 else 0
  }

  /** The counters agree with the lines read so far. */
  ghost predicate Counted(lines: seq<Line>, charSpan: CharSpan, r: Report) {
    r.docs == KeptDocs(lines, charSpan) &&
    r.totalDocs == |r.docs| &&
    r.badJsonLines == CountBadJson(lines) &&
    r.totalDocs + r.badJsonLines + CountBlank(lines) == |lines| &&
    r.labelCounter == AllLabels(r.docs) &&
    r.totalEntities == |r.labelCounter| &&
    r.totalEntities + r.skippedSpans == CountEntries(lines) &&
    r.emptyDocs == CountEmpty(r.docs)
  }

  lemma BadLineStep(pre: seq<Line>, charSpan: CharSpan, r: Report)
    requires Counted(pre, charSpan, r)
    ensures Counted(pre + [BadJson], charSpan, r.(badJsonLines := r.badJsonLines + 1))
  {
    assert (pre + [BadJson])[..|pre|] == pre;
  }

  lemma BlankLineStep(pre: seq<Line>, text: string, labels: seq<Entry>, charSpan: CharSpan, r: Report)
    requires Counted(pre, charSpan, r) && Blank(text)
    ensures Counted(pre + [Record(text, labels)], charSpan, r)
  {
    assert (pre + [Record(text, labels)])[..|pre|] == pre;
  }

  lemma DocLineStep(pre: seq<Line>, text: string, labels: seq<Entry>, charSpan: CharSpan, r: Report,
                    spans: seq<Span>, skipped: nat)
    requires Counted(pre, charSpan, r) && !Blank(text)
    requires DocSpans(text, labels, charSpan) == Ok((spans, skipped))
    ensures Counted(pre + [Record(text, labels)], charSpan,
      Report(r.docs + [Doc(text, spans)], r.totalDocs + 1, r.totalEntities + |spans|,
             r.skippedSpans + skipped, r.badJsonLines, r.emptyDocs + if spans == [] then 1 else 0,
             r.labelCounter + LabelsOf(spans)))
  {
    LineStep(pre, Record(text, labels), charSpan);
    DocStep(r.docs, Doc(text, spans));
    LabelsOfSize(spans);
  }

  /** How the line functions grow by one kept document. */
  lemma LineStep(pre: seq<Line>, l: Line, charSpan: CharSpan)
    requires l.Record? && !Blank(l.text) && DocSpans(l.text, l.labels, charSpan).Ok?
    ensures KeptDocs(pre + [l], charSpan) ==
      KeptDocs(pre, charSpan) + [Doc(l.text, DocSpans(l.text, l.labels, charSpan).value.0)]
    ensures CountBadJson(pre + [l]) == CountBadJson(pre)
    ensures CountBlank(pre + [l]) == CountBlank(pre)
    ensures CountEntries(pre + [l]) == CountEntries(pre) + |l.labels|
  {
    assert (pre + [l])[..|pre|] == pre;
  }

  /** How the document functions grow by one document. */
  lemma DocStep(docs: seq<Doc>, d: Doc)
    ensures AllLabels(docs + [d]) == AllLabels(docs) + LabelsOf(d.spans)
    ensures CountEmpty(docs + [d]) == CountEmpty(docs) + if d.spans == [] then 1 else 0
  {
    assert (docs + [d])[..|docs|] == docs;
  }

  lemma {:induction false} LabelsOfSize(spans: seq<Span>)
    ensures |LabelsOf(spans)| == |spans|
    decreases |spans|
  {
    if spans != [] {
      LabelsOfSize(spans[..|spans| - 1]);
    }
  }

  /** `label_counter[s.label_] += 1` for every span of a document. */
  method CountLabels(counter: multiset<string>, spans: seq<Span>) returns (c: multiset<string>)
    ensures c == counter + LabelsOf(spans)
    ensures |c| == |counter| + |spans|
  {
    c := counter;
    for k := 0 to |spans|
      invariant c == counter + LabelsOf(spans[..k])
      invariant |c| == |counter| + k
    {
      assert spans[..k + 1][..k] == spans[..k];
      c := c[spans[k].lbl := c[spans[k].lbl] + 1];
    }
    assert spans[..|spans|] == spans;
  }

  /** One round of the line loop: a bad JSON line bumps `bad_json_lines`, a
      blank record is passed over, and any other record adds its document
      and spans to the counters, or stops the script with `IndexError`. */
  method ConvertLine(ghost read: seq<Line>, l: Line, charSpan: CharSpan, acc: Report) returns (res: Result<Report, Abort>)
    requires Counted(read, charSpan, acc)
    ensures res.Err? <==> AbortsLine(l)
    ensures res.Ok? ==> Counted(read + [l], charSpan, res.value)
  {
    match l {
      case BadJson =>
        BadLineStep(read, charSpan, acc);
        return Ok(acc.(badJsonLines := acc.badJsonLines + 1));
      case Record(text, labels) =>
        if Blank(text) {
          BlankLineStep(read, text, labels, charSpan, acc);
          return Ok(acc);
        }
        var d := ConvertDoc(text, labels, charSpan);
        if d.Err? {
          return Err(d.error);
        }
        var (spans, skipped) := d.value;
        var labelCounter, totalEntities, emptyDocs := acc.labelCounter, acc.totalEntities, acc.emptyDocs;
        if spans != [] {
          labelCounter := CountLabels(labelCounter, spans);
          totalEntities := totalEntities + |spans|;
        } else {
          emptyDocs := emptyDocs + 1;
          assert labelCounter == acc.labelCounter + LabelsOf(spans);
        }
        DocLineStep(read, text, labels, charSpan, acc, spans, skipped);
        return Ok(Report(acc.docs + [Doc(text, spans)], acc.totalDocs + 1, totalEntities,
                         acc.skippedSpans + skipped, acc.badJsonLines, emptyDocs, labelCounter));
    }
  }

  /** The line loop of `convert_doccano_to_spacy`. It stops with
      `IndexError` exactly when some non-blank record has an entry the
      trimming loops cannot read. Otherwise every line is a bad JSON line, a
      blank record or a document; `total_entities` is the size of
      `label_counter`; every entry of a kept document is an entity or a
      skipped span; `empty_docs` counts the documents without spans. */
  method Convert(lines: seq<Line>, charSpan: CharSpan) returns (r: Result<Report, Abort>)
    ensures r.Err? <==> exists i :: 0 <= i < |lines| && AbortsLine(lines[i])
    ensures r.Ok? ==> r.value.docs == KeptDocs(lines, charSpan)
    ensures r.Ok? ==> r.value.totalDocs == |r.value.docs|
    ensures r.Ok? ==> r.value.badJsonLines == CountBadJson(lines)
    ensures r.Ok? ==> r.value.totalDocs + r.value.badJsonLines + CountBlank(lines) == |lines|
    ensures r.Ok? ==> r.value.labelCounter == AllLabels(r.value.docs)
    ensures r.Ok? ==> r.value.totalEntities == |r.value.labelCounter|
    ensures r.Ok? ==> r.value.totalEntities + r.value.skippedSpans == CountEntries(lines)
    ensures r.Ok? ==> r.value.emptyDocs == CountEmpty(r.value.docs)
  {
    var acc := Report([], 0, 0, 0, 0, 0, multiset{});
    ghost var read: seq<Line> := [];
    for i := 0 to |lines|
      invariant read == lines[..i]
      invariant NoAbort(read)
      invariant Counted(read, charSpan, acc)
    {
      assert lines[..i + 1] == read + [lines[i]];
      var res := ConvertLine(read, lines[i], charSpan, acc);
      if res.Err? {
        return Err(res.error);
      }
      acc := res.value;
      NoAbortSnoc(read, lines[i]);
      read := read + [lines[i]];
    }
    assert read == lines;
    r := Ok(acc);
  }
}
