/** What the span categorizer returns for one text: the spans of the `sc`
    group and, when the group carries them, their scores. The model itself
    is a parameter of the scripts that use it. */
module SpanCat {
  import opened Wrappers

  /** A predicted span: character offsets into the text it was run on, and
      its label. */
  datatype Predicted = Predicted(startChar: int, endChar: int, lbl: string)

  /** `doc.spans.get("sc", [])` and its `attrs["scores"]`, if present. */
  datatype Prediction = Prediction(spans: seq<Predicted>, scores: Option<seq<real>>)

  const AcceptanceThreshold: real := 0.5

  /** The scores, or `[1.0] * len(spans)` when the group has none. */
  function Scores(p: Prediction): (r: seq<real>)
    ensures p.scores.None? ==> |r| == |p.spans| && forall k :: 0 <= k < |r| ==> r[k] == 1.0
  {
    match p.scores
    case Some(s) => s
    case None => seq(|p.spans|, _ => 1.0)
  }

  /** `zip(spans, scores)`: pairs by position, as many as the shorter list. */
  function Zip(spans: seq<Predicted>, scores: seq<real>): (r: seq<(Predicted, real)>)
    ensures |r| == if |spans| <= |scores| then |spans| else |scores|
    ensures forall k :: 0 <= k < |r| ==> r[k] == (spans[k], scores[k])
    decreases |spans|
  {
    if spans == [] || scores == [] then []
    else [(spans[0], scores[0])] + Zip(spans[1..], scores[1..])
  }

  function Pairs(p: Prediction): seq<(Predicted, real)> {
    Zip(p.spans, Scores(p))
  }

  /** Without scores every span is paired with 1.0. */
  lemma DefaultPairs(p: Prediction)
    requires p.scores.None?
    ensures |Pairs(p)| == |p.spans|
    ensures forall k :: 0 <= k < |p.spans| ==> Pairs(p)[k] == (p.spans[k], 1.0)
  {
  }
}

/** `prelabel4jsonl.py`: predicted spans scoring at least the threshold are
    appended to each record's existing labels, unless already present. */
module PrelabelJsonl {
  import opened Wrappers
  import opened Strings
  import opened SpanCat

  /** An entry of `label`: a `[start, end, label]` triple, or any other list,
      which no predicted triple equals. */
  datatype Label = Label(start: int, end: int, lbl: string) | OtherLabel(raw: string)

  function AsLabel(p: Predicted): Label {
    Label(p.startChar, p.endChar, p.lbl)
  }

  /** The labels after the merge loop: each pair in turn, its triple
      appended when the score reaches the threshold and the triple is not
      yet among the labels. The existing labels stay in front. */
  function Merge(labels: seq<Label>, pairs: seq<(Predicted, real)>): (out: seq<Label>)
    ensures labels <= out
    decreases |pairs|
  {
    if pairs == [] then labels
    else
      var out := Merge(labels, pairs[..|pairs| - 1]);
      var (span, score) := pairs[|pairs| - 1];
      if score >= AcceptanceThreshold && AsLabel(span) !in out then out + [AsLabel(span)] else out
  }

  lemma MergeStep(labels: seq<Label>, pairs: seq<(Predicted, real)>, i: nat)
    requires i < |pairs|
    ensures Merge(labels, pairs[..i + 1]) ==
      var out := Merge(labels, pairs[..i]);
      if pairs[i].1 >= AcceptanceThreshold && AsLabel(pairs[i].0) !in out then out + [AsLabel(pairs[i].0)] else out
  {
    assert pairs[..i + 1][..i] == pairs[..i];
  }

  /** The top-level loop over `zip(spans, scores)`; `existing` is kept equal
      to the set of the labels. */
  method MergePredictions(labels0: seq<Label>, pairs: seq<(Predicted, real)>)
    returns (labels: seq<Label>, existing: set<Label>)
    ensures labels == Merge(labels0, pairs)
    ensures existing == set l | l in labels
  {
    labels := labels0;
    existing := set l | l in labels0;
    for i := 0 to |pairs|
      invariant labels == Merge(labels0, pairs[..i])
      invariant existing == set l | l in labels
    {
      MergeStep(labels0, pairs, i);
      var (span, score) := pairs[i];
      var newLabel := AsLabel(span);
      if score >= AcceptanceThreshold && newLabel !in existing {
        labels := labels + [newLabel];
        existing := existing + {newLabel};
      }
    }
    assert pairs[..|pairs|] == pairs;
  }

  /** A triple ends up among the labels exactly when it was there before or
      some pair carries it with a score reaching the threshold. */
  lemma {:induction false} MergeMembers(labels: seq<Label>, pairs: seq<(Predicted, real)>, l: Label)
    ensures l in Merge(labels, pairs) <==>
      l in labels || exists k :: 0 <= k < |pairs| && pairs[k].1 >= AcceptanceThreshold && AsLabel(pairs[k].0) == l
    decreases |pairs|
  {
    if pairs != [] {
      var pre := pairs[..|pairs| - 1];
      MergeMembers(labels, pre, l);
      if exists k :: 0 <= k < |pre| && pre[k].1 >= AcceptanceThreshold && AsLabel(pre[k].0) == l {
        var k :| 0 <= k < |pre| && pre[k].1 >= AcceptanceThreshold && AsLabel(pre[k].0) == l;
        assert pairs[k] == pre[k];
      }
      if k :| 0 <= k < |pairs| && pairs[k].1 >= AcceptanceThreshold && AsLabel(pairs[k].0) == l {
        if k < |pre| {
          assert pre[k] == pairs[k];
        }
      }
    }
  }

  /** The merge appends only triples that were not yet present, each once. */
  lemma {:induction false} MergeNoDuplicates(labels: seq<Label>, pairs: seq<(Predicted, real)>)
    ensures forall i :: |labels| <= i < |Merge(labels, pairs)| ==> Merge(labels, pairs)[i] !in labels
    ensures forall i, j :: |labels| <= i < j < |Merge(labels, pairs)| ==> Merge(labels, pairs)[i] != Merge(labels, pairs)[j]
    decreases |pairs|
  {
    if pairs != [] {
      var pre := pairs[..|pairs| - 1];
      MergeNoDuplicates(labels, pre);
      var before := Merge(labels, pre);
      var out := Merge(labels, pairs);
      if out != before {
        var x := out[|out| - 1];
        assert out == before + [x] && x !in before;
        forall i | |labels| <= i < |out|
          ensures out[i] !in labels
        {
          if i < |before| {
            assert out[i] == before[i];
          } else {
            forall j | 0 <= j < |labels|
              ensures labels[j] != x
            {
              assert before[j] == labels[j];
            }
          }
        }
        forall i, j | |labels| <= i < j < |out|
          ensures out[i] != out[j]
        {
          assert out[i] == before[i];
          if j < |before| {
            assert out[j] == before[j];
          }
        }
      }
    }
  }

  /** Without scores, every predicted triple ends up among the labels. */
  lemma DefaultScoresAcceptAll(labels: seq<Label>, p: Prediction)
    requires p.scores.None?
    ensures forall k :: 0 <= k < |p.spans| ==> AsLabel(p.spans[k]) in Merge(labels, Pairs(p))
  {
    DefaultPairs(p);
    forall k | 0 <= k < |p.spans|
      ensures AsLabel(p.spans[k]) in Merge(labels, Pairs(p))
    {
      assert Pairs(p)[k].1 >= AcceptanceThreshold;
      MergeMembers(labels, Pairs(p), AsLabel(p.spans[k]));
    }
  }

  // ---------------------------------------------------------------------------
  // The file loop

  /** A JSON object of the input: its `text` and `label` keys, if present,
      and everything else, which passes through untouched. */
  datatype Obj = Obj(text: Option<string>, labels: Option<seq<Label>>, rest: string)

  datatype JsonLine = BadJson | Object(obj: Obj)

  function LabelsOf(obj: Obj): seq<Label> {
    match obj.labels
    case Some(l) => l
    case None => []
  }

  function TextOf(obj: Obj): string {
    match obj.text
    case Some(t) => t
    case None => ""
  }

  /** One object of the output. The text is stripped before it is given to
      the model, and the predicted offsets are relative to that stripped
      text; the object keeps its original text. */
  function PrelabelObj(obj: Obj, nlp: string -> Prediction): (r: Obj)
    ensures r.text == obj.text && r.rest == obj.rest
    ensures r.labels.Some? && LabelsOf(obj) <= r.labels.value
    ensures Strip(TextOf(obj)) == "" ==> r.labels == Some(LabelsOf(obj))
  {
    var text := Strip(TextOf(obj));
    if text == "" then obj.(labels := Some(LabelsOf(obj)))
    else obj.(labels := Some(Merge(LabelsOf(obj), Pairs(nlp(text)))))
  }

  /** The objects of the lines that parse, in order. */
  function Objects(lines: seq<JsonLine>): seq<Obj>
    decreases |lines|
  {
    if lines == [] then []
    else Objects(lines[..|lines| - 1]) + match lines[|lines| - 1] { case BadJson => [] case Object(o) => [o] }
  }

  lemma ObjectsStep(read: seq<JsonLine>, l: JsonLine)
    ensures Objects(read + [l]) == Objects(read) + match l { case BadJson => [] case Object(o) => [o] }
  {
    assert (read + [l])[..|read|] == read;
  }

  /** The line loop: invalid lines are dropped, every object yields one
      output object, in input order. */
  method Prelabel(lines: seq<JsonLine>, nlp: string -> Prediction) returns (output: seq<Obj>)
    ensures |output| == |Objects(lines)|
    ensures forall k :: 0 <= k < |output| ==> output[k] == PrelabelObj(Objects(lines)[k], nlp)
  {
    output := [];
    ghost var read: seq<JsonLine> := [];
    for i := 0 to |lines|
      invariant read == lines[..i]
      invariant |output| == |Objects(read)|
      invariant forall k :: 0 <= k < |output| ==> output[k] == PrelabelObj(Objects(read)[k], nlp)
    {
      ObjectsStep(read, lines[i]);
      assert lines[..i + 1] == read + [lines[i]];
      if lines[i].Object? {
        var obj := lines[i].obj;
        var text := Strip(TextOf(obj));
        if text == "" {
          output := output + [obj.(labels := Some(LabelsOf(obj)))];
        } else {
          var p := nlp(text);
          var labels, existing := MergePredictions(LabelsOf(obj), Zip(p.spans, Scores(p)));
          output := output + [obj.(labels := Some(labels))];
        }
      }
      read := read + [lines[i]];
    }
    assert read == lines;
  }
}

/** `prelabel4txt.py`: every non-blank line of every `.txt` file becomes a
    record of its stripped text and the predicted spans that reach the
    threshold. */
module PrelabelTxt {
  import opened Strings
  import opened SpanCat

  /** `filename.replace('final_', '').replace('.txt', '.jsonl')`. */
  function OutName(filename: string): string {
    ReplaceAll(ReplaceAll(filename, "final_", ""), ".txt", ".jsonl")
  }

  /** For a plain base name the output name drops the `final_` prefix and
      swaps the extension. */
  lemma OutNameOfTxt(base: string)
    requires '_' !in base && '.' !in base
    ensures OutName("final_" + base + ".txt") == base + ".jsonl"
    ensures OutName(base + ".txt") == base + ".jsonl"
  {
    var t := base + ".txt";
    assert '_' !in t;
    ReplaceAbsent(t, "final_", "", '_');
    var f := "final_" + t;
    assert "final_" + base + ".txt" == f;
    assert "final_" <= f && f[6..] == t;
    assert ReplaceAll(f, "final_", "") == t;
    ReplaceSkipsPrefix(base, ".txt", ".txt", ".jsonl");
    assert ReplaceAll(".txt", ".txt", ".jsonl") == ".jsonl" by {
      assert ".txt"[4..] == [];
    }
  }

  predicate IsTxtName(name: string) {
    EndsWith(Lower(name), ".txt")
  }

  /** The directory entries whose lowercased name ends in `.txt`, in listing
      order. */
  function TxtFiles(names: seq<string>): (r: seq<string>)
    ensures forall n :: n in r <==> n in names && IsTxtName(n)
    ensures |r| <= |names|
  {
    if names == [] then []
    else (if IsTxtName(names[0]) then [names[0]] else []) + TxtFiles(names[1..])
  }

  /** A record of the output: the stripped line and its kept triples. */
  datatype Record = Record(text: string, labels: seq<Predicted>)

  /** The triples of the pairs whose score reaches the threshold, in span
      order. */
  function Confident(pairs: seq<(Predicted, real)>): (r: seq<Predicted>)
    ensures |r| <= |pairs|
    decreases |pairs|
  {
    if pairs == [] then []
    else
      Confident(pairs[..|pairs| - 1]) +
        if pairs[|pairs| - 1].1 >= AcceptanceThreshold then [pairs[|pairs| - 1].0] else []
  }

  /** A triple is kept exactly when some pair carries it with a score
      reaching the threshold. */
  lemma {:induction false} ConfidentMembers(pairs: seq<(Predicted, real)>, x: Predicted)
    ensures x in Confident(pairs) <==>
      exists k :: 0 <= k < |pairs| && pairs[k].0 == x && pairs[k].1 >= AcceptanceThreshold
    decreases |pairs|
  {
    if pairs != [] {
      var pre := pairs[..|pairs| - 1];
      ConfidentMembers(pre, x);
      if k :| 0 <= k < |pre| && pre[k].0 == x && pre[k].1 >= AcceptanceThreshold {
        assert pairs[k] == pre[k];
      }
      if k :| 0 <= k < |pairs| && pairs[k].0 == x && pairs[k].1 >= AcceptanceThreshold {
        if k < |pre| {
          assert pre[k] == pairs[k];
        }
      }
    }
  }

  /** Pairs that all reach the threshold are all kept, in order. */
  lemma {:induction false} ConfidentAll(pairs: seq<(Predicted, real)>)
    requires forall k :: 0 <= k < |pairs| ==> pairs[k].1 >= AcceptanceThreshold
    ensures Confident(pairs) == seq(|pairs|, k requires 0 <= k < |pairs| => pairs[k].0)
    decreases |pairs|
  {
    if pairs != [] {
      ConfidentAll(pairs[..|pairs| - 1]);
    }
  }

  /** Without scores every predicted span is kept. */
  lemma DefaultKeepsAll(p: Prediction)
    requires p.scores.None?
    ensures Confident(Pairs(p)) == seq(|p.spans|, k requires 0 <= k < |p.spans| => p.spans[k])
  {
    DefaultPairs(p);
    ConfidentAll(Pairs(p));
  }

  /** The inner loop over `zip(spans, scores)`. */
  method KeepConfident(pairs: seq<(Predicted, real)>) returns (labels: seq<Predicted>)
    ensures labels == Confident(pairs)
  {
    labels := [];
    for i := 0 to |pairs|
      invariant labels == Confident(pairs[..i])
    {
      assert pairs[..i + 1][..i] == pairs[..i];
      var (span, score) := pairs[i];
      if score >= AcceptanceThreshold {
        labels := labels + [span];
      }
    }
    assert pairs[..|pairs|] == pairs;
  }

  /** The records of a file: one per non-blank line, in line order. */
  function Records(lines: seq<string>, nlp: string -> Prediction): (r: seq<Record>)
    ensures forall k :: 0 <= k < |r| ==> r[k].text != ""
    decreases |lines|
  {
    if lines == [] then []
    else
      var text := Strip(lines[|lines| - 1]);
      Records(lines[..|lines| - 1], nlp) + if text == "" then [] else [Record(text, Confident(Pairs(nlp(text))))]
  }

  function CountNonBlank(lines: seq<string>): nat
    decreases |lines|
  {
    if lines == [] then 0
    else CountNonBlank(lines[..|lines| - 1]) + if Strip(lines[|lines| - 1]) == "" then 0 else 1
  }

  /** Blank lines produce nothing and every other line exactly one record. */
  lemma {:induction false} RecordsCount(lines: seq<string>, nlp: string -> Prediction)
    ensures |Records(lines, nlp)| == CountNonBlank(lines)
    decreases |lines|
  {
    if lines != [] {
      RecordsCount(lines[..|lines| - 1], nlp);
    }
  }

  /** The line loop of one file. */
  method PrelabelFile(lines: seq<string>, nlp: string -> Prediction) returns (output: seq<Record>)
    ensures output == Records(lines, nlp)
  {
    output := [];
    for i := 0 to |lines|
      invariant output == Records(lines[..i], nlp)
    {
      assert lines[..i + 1][..i] == lines[..i];
      var text := Strip(lines[i]);
      if text != "" {
        var p := nlp(text);
        var labels := KeepConfident(Zip(p.spans, Scores(p)));
        output := output + [Record(text, labels)];
      }
    }
    assert lines[..|lines|] == lines;
  }
}
