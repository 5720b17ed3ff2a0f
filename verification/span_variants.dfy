/** The three ways the repository resolves labelled spans into one value per
    field, run on the same inputs: the API server's `ner` route, the web
    page's fold over raw spans, and the batch `line_to_fields`. They part
    ways on length ties, on low scores and on the case of labels. */
module SpanVariants {
  import opened Wrappers
  import opened Strings
  import Sequences
  import BackendNer
  import PromptToImage
  import JsonlToFields

  // Two PERSON spans of equal length in "Hue Hoa", the second scored higher.

  const TieSpans: seq<BackendNer.Span> :=
    [BackendNer.Span("Hue", "PERSON", 0, 3, Some(0.4)), BackendNer.Span("Hoa", "PERSON", 4, 7, Some(0.9))]

  lemma LowerPerson()
    ensures Lower("PERSON") == "person"
  {
  }

  lemma PersonLabel(sp: BackendNer.Span)
    requires sp.lbl == "PERSON"
    ensures BackendNer.NormLabel(sp) == "person"
  {
    StripNoop("PERSON", Py);
    LowerPerson();
  }

  /** Both spans pass the filter, so "person" is the only label. */
  lemma TieLabels()
    ensures BackendNer.Labels(TieSpans, 0.3) == {"person"}
  {
    PersonLabel(TieSpans[0]);
    PersonLabel(TieSpans[1]);
    assert BackendNer.Accepted(TieSpans[0], 0.3) && BackendNer.Accepted(TieSpans[1], 0.3);
  }

  /** Both spans land in the bucket of "person", in order. */
  lemma TieBuckets()
    ensures BackendNer.Bucket(TieSpans, 0.3, "person") == TieSpans
  {
    var s1, s2 := TieSpans[0], TieSpans[1];
    PersonLabel(s1);
    PersonLabel(s2);
    assert BackendNer.Accepted(s1, 0.3) && BackendNer.Accepted(s2, 0.3);
    assert TieSpans[..1] == [s1];
    assert BackendNer.Bucket([s1], 0.3, "person") == [s1];
  }

  /** The server breaks the length tie by score and answers "Hoa". */
  lemma ServerTie(out: BackendNer.NerOut)
    requires BackendNer.IsBestAnswer(out, TieSpans, 0.3)
    ensures out.fields.Keys == out.scores.Keys == {"person"}
    ensures out.fields["person"] == "Hoa" && out.scores["person"] == Some(0.9)
  {
    TieLabels();
    TieBuckets();
    assert BackendNer.BestPick(TieSpans, out.fields["person"], out.scores["person"]);
    var k :| BackendNer.FirstMax(TieSpans, k) && out.fields["person"] == TieSpans[k].text && out.scores["person"] == TieSpans[k].score;
    assert BackendNer.KeyLess(TieSpans[0], TieSpans[1]);
    assert k == 1;
  }

  /** The web page keeps the first span: a later one must be strictly longer. */
  lemma PageTie()
    ensures var (fields, scores) := PromptToImage.FoldAsWritten([PromptToImage.RawSpan("PERSON", "Hue", Some(0.4)), PromptToImage.RawSpan("PERSON", "Hoa", Some(0.9))]);
      fields.Keys == scores.Keys == {"person"} && fields["person"] == "Hue" && scores["person"] == 0.4
  {
    var a := PromptToImage.RawSpan("PERSON", "Hue", Some(0.4));
    var b := PromptToImage.RawSpan("PERSON", "Hoa", Some(0.9));
    LowerPerson();
    assert [a, b][..1] == [a];
    assert PromptToImage.FoldAsWritten([a]) == (map["person" := "Hue"], map["person" := 0.4]);
    assert !PromptToImage.Replaces(map["person" := "Hue"], "person", "Hoa");
  }

  const TieTriples: seq<JsonlToFields.Triple> := [JsonlToFields.Triple(0, 3, "PERSON"), JsonlToFields.Triple(4, 7, "PERSON")]

  /** Both triples feed the field "person", in order. */
  lemma TieSlices()
    ensures JsonlToFields.Observed(TieTriples) == {"person"}
    ensures JsonlToFields.SpansFor("Hue Hoa", TieTriples, "person") == ["Hue", "Hoa"]
  {
    assert TieTriples[..1] == [TieTriples[0]];
    assert JsonlToFields.FieldOf(TieTriples[0]) == Some("person") == JsonlToFields.FieldOf(TieTriples[1]);
    assert PySlice("Hue Hoa", 0, 3) == "Hue Hoa"[0..3] == "Hue";
    assert PySlice("Hue Hoa", 4, 7) == "Hue Hoa"[4..7] == "Hoa";
    assert JsonlToFields.SpansFor("Hue Hoa", TieTriples[..1], "person") == ["Hue"];
  }

  /** `line_to_fields` keeps the first of the longest slices. */
  lemma BatchTie()
    ensures var out := JsonlToFields.LineToFieldsSpec("Hue Hoa", TieTriples);
      out.Keys == {"person"} && out["person"] == "Hue"
  {
    TieSlices();
    assert "person" !in JsonlToFields.Multi;
    assert Sequences.LongestIndex(["Hue", "Hoa"]) == 0;
  }

  // One span "Hue" with the lower-case label "person" and score 0.1, under
  // an acceptance threshold of 0.3.

  /** The server drops the low-scored span, so the answer is empty. */
  lemma ServerLowScore(out: BackendNer.NerOut)
    requires BackendNer.IsBestAnswer(out, [BackendNer.Span("Hue", "person", 0, 3, Some(0.1))], 0.3)
    ensures out.fields == map[] && out.scores == map[]
  {
    var sp := BackendNer.Span("Hue", "person", 0, 3, Some(0.1));
    assert !BackendNer.Accepted([sp][0], 0.3);
    assert BackendNer.Labels([sp], 0.3) == {};
  }

  /** The web page applies no threshold and keeps the span and its score. */
  lemma PageLowScore()
    ensures var (fields, scores) := PromptToImage.FoldAsWritten([PromptToImage.RawSpan("person", "Hue", Some(0.1))]);
      fields.Keys == scores.Keys == {"person"} && fields["person"] == "Hue" && scores["person"] == 0.1
  {
    assert Lower("person") == "person";
  }

  /** `line_to_fields` matches labels case-sensitively and ignores "person". */
  lemma BatchLowerCaseLabel()
    ensures JsonlToFields.LineToFieldsSpec("Hue", [JsonlToFields.Triple(0, 3, "person")]) == map[]
  {
    assert JsonlToFields.FieldOf([JsonlToFields.Triple(0, 3, "person")][0]) == None;
    assert JsonlToFields.Observed([JsonlToFields.Triple(0, 3, "person")]) == {};
  }
}
