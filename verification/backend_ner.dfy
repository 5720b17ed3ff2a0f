/** The `/ner` route of the API server: runs the span-categoriser over the
    text (its output is an input here) and keeps, per normalised label, the
    best accepted span. */
module BackendNer {
  import opened Wrappers
  import opened Strings

  /** A predicted span. `score` is `None` when the span carries no score
      attribute. */
  datatype Span = Span(text: string, lbl: string, start: int, end: int, score: Option<real>)

  /** The label as the route compares it: stripped and lower-cased. */
  function NormLabel(sp: Span): string {
    Lower(Strip(sp.lbl))
  }

  /** A span survives the filter unless its label is blank or it has a score
      below the threshold; spans without a score always survive. */
  predicate Accepted(sp: Span, threshold: real) {
    NormLabel(sp) != "" && !(sp.score.Some? && sp.score.value < threshold)
  }

  /** The accepted spans with label `l`, in model order. */
  function Bucket(spans: seq<Span>, threshold: real, l: string): seq<Span>
    decreases |spans|
  {
    if spans == [] then []
    else
      var last := spans[|spans| - 1];
      Bucket(spans[..|spans| - 1], threshold, l)
        + (if Accepted(last, threshold) && NormLabel(last) == l then [last] else [])
  }

  /** The labels that have at least one accepted span. */
  function Labels(spans: seq<Span>, threshold: real): set<string> {
    set i | 0 <= i < |spans| && Accepted(spans[i], threshold) :: NormLabel(spans[i])
  }

  /** The sort key `(end - start, score or 0.0)`. */
  function ScoreOr0(sp: Span): real {
    sp.score.GetOr(0.0)
  }

  /** `a` sorts strictly before `b` in a descending sort on the key:
      lexicographic order on (length, score). */
  predicate KeyLess(a: Span, b: Span) {
    var la, lb := a.end - a.start, b.end - b.start;
    la < lb || (la == lb && ScoreOr0(a) < ScoreOr0(b))
  }

  /** `arr[i]` is the first element of `arr` after a stable descending sort:
      no key is greater, and every earlier element has a smaller key. */
  ghost predicate FirstMax(arr: seq<Span>, i: int) {
    0 <= i < |arr| &&
    (forall j :: 0 <= j < |arr| ==> !KeyLess(arr[i], arr[j])) &&
    (forall j :: 0 <= j < i ==> KeyLess(arr[j], arr[i]))
  }

  /** `arr.sort(key=..., reverse=True); arr[0]`: the scan that finds the same
      element. */
  method PickBest(arr: seq<Span>) returns (best: nat)
    requires arr != []
    ensures FirstMax(arr, best)
  {
    best := 0;
    var j := 1;
    while j < |arr|
      invariant 1 <= j <= |arr| && best < j
      invariant forall k :: 0 <= k < j ==> !KeyLess(arr[best], arr[k])
      invariant forall k :: 0 <= k < best ==> KeyLess(arr[k], arr[best])
    {
      if KeyLess(arr[best], arr[j]) {
        best := j;
      }
      j := j + 1;
    }
  }

  /** The route's JSON answer: best text and its score per label. */
  datatype NerOut = NerOut(fields: map<string, string>, scores: map<string, Option<real>>)

  datatype NerError = ModelNotLoaded   // HTTP 500 `spaCy_model_not_loaded`

  /** The answer for a loaded model, a non-blank text and the model's spans:
      for every label with accepted spans, the text and score of the first
      span with the greatest key. */
  ghost predicate IsBestAnswer(out: NerOut, spans: seq<Span>, threshold: real) {
    out.fields.Keys == Labels(spans, threshold) &&
    out.scores.Keys == Labels(spans, threshold) &&
    forall l :: l in out.fields ==> BestPick(Bucket(spans, threshold, l), out.fields[l], out.scores[l])
  }

  /** `ner`. `loaded` says whether the model loaded at start-up; `spans` is
      what the model finds in `text`. */
  method Ner(loaded: bool, text: string, spans: seq<Span>, threshold: real) returns (r: Result<NerOut, NerError>)
    ensures !loaded ==> r == Err(ModelNotLoaded)
    ensures loaded && Strip(text) == "" ==> r == Ok(NerOut(map[], map[]))
    ensures loaded && Strip(text) != "" ==> r.Ok? && IsBestAnswer(r.value, spans, threshold)
  {
    if !loaded {
      return Err(ModelNotLoaded);
    }
    if Strip(text) == "" {
      return Ok(NerOut(map[], map[]));
    }
    var buckets := BuildBuckets(spans, threshold);
    var fields, scores := PickPerLabel(buckets);
    assert fields.Keys == Labels(spans, threshold);
    return Ok(NerOut(fields, scores));
  }

  /** The buckets hold, for every label with accepted spans among `spans`,
      exactly those spans in order. */
  ghost predicate BucketsOf(buckets: map<string, seq<Span>>, spans: seq<Span>, threshold: real) {
    buckets.Keys == Labels(spans, threshold) &&
    forall l :: l in buckets ==> buckets[l] == Bucket(spans, threshold, l)
  }

  /** `buckets[label].append(sp)` for an accepted span. */
  function AddSpan(buckets: map<string, seq<Span>>, sp: Span): map<string, seq<Span>> {
    var l := NormLabel(sp);
    buckets[l := (if l in buckets then buckets[l] else []) + [sp]]
  }

  lemma BucketsStep(buckets: map<string, seq<Span>>, spans: seq<Span>, sp: Span, threshold: real)
    requires BucketsOf(buckets, spans, threshold)
    ensures BucketsOf(if Accepted(sp, threshold) then AddSpan(buckets, sp) else buckets, spans + [sp], threshold)
  {
    var nb := if Accepted(sp, threshold) then AddSpan(buckets, sp) else buckets;
    BucketsStepKeys(buckets, spans, sp, threshold);
    forall k | k in nb
      ensures nb[k] == Bucket(spans + [sp], threshold, k)
    {
      BucketsStepValue(buckets, spans, sp, threshold, k);
    }
  }

  lemma BucketsStepKeys(buckets: map<string, seq<Span>>, spans: seq<Span>, sp: Span, threshold: real)
    requires buckets.Keys == Labels(spans, threshold)
    ensures (if Accepted(sp, threshold) then AddSpan(buckets, sp) else buckets).Keys == Labels(spans + [sp], threshold)
  {
    LabelsSnoc(spans, sp, threshold);
  }

  lemma BucketsStepValue(buckets: map<string, seq<Span>>, spans: seq<Span>, sp: Span, threshold: real, k: string)
    requires BucketsOf(buckets, spans, threshold)
    requires k in (if Accepted(sp, threshold) then AddSpan(buckets, sp) else buckets)
    ensures (if Accepted(sp, threshold) then AddSpan(buckets, sp) else buckets)[k] == Bucket(spans + [sp], threshold, k)
  {
    assert (spans + [sp])[..|spans|] == spans;
    if Accepted(sp, threshold) && k == NormLabel(sp) {
      BucketNonEmpty(spans, threshold, k);
    }
  }

  /** The first loop of `ner`: accepted spans appended to their label's
      bucket. */
  method BuildBuckets(spans: seq<Span>, threshold: real) returns (buckets: map<string, seq<Span>>)
    ensures BucketsOf(buckets, spans, threshold)
    ensures forall l :: l in buckets ==> buckets[l] != []
  {
    buckets := map[];
    var i := 0;
    while i < |spans|
      invariant 0 <= i <= |spans|
      invariant BucketsOf(buckets, spans[..i], threshold)
    {
      var sp := spans[i];
      BucketsStep(buckets, spans[..i], sp, threshold);
      assert spans[..i + 1] == spans[..i] + [sp];
      if Accepted(sp, threshold) {
        buckets := AddSpan(buckets, sp);
      }
      i := i + 1;
    }
    assert spans[..i] == spans;
    BucketNonEmptyAll(spans, threshold);
  }

  lemma BucketNonEmptyAll(spans: seq<Span>, threshold: real)
    ensures forall l :: l in Labels(spans, threshold) ==> Bucket(spans, threshold, l) != []
  {
    forall l | l in Labels(spans, threshold) {
      BucketNonEmpty(spans, threshold, l);
    }
  }

  /** `text` and `score` are those of the span a stable descending sort of
      `arr` puts first. */
  ghost predicate BestPick(arr: seq<Span>, text: string, score: Option<real>) {
    exists k :: FirstMax(arr, k) && text == arr[k].text && score == arr[k].score
  }

  /** The second loop of `ner`: per bucket, the text and score of the span
      a stable descending sort puts first. */
  method PickPerLabel(buckets: map<string, seq<Span>>) returns (fields: map<string, string>, scores: map<string, Option<real>>)
    requires forall l :: l in buckets ==> buckets[l] != []
    ensures fields.Keys == scores.Keys == buckets.Keys
    ensures forall l :: l in fields ==> BestPick(buckets[l], fields[l], scores[l])
  {
    fields, scores := map[], map[];
    var remaining := buckets.Keys;
    while remaining != {}
      invariant remaining <= buckets.Keys
      invariant fields.Keys == scores.Keys == buckets.Keys - remaining
      invariant forall l :: l in fields ==> BestPick(buckets[l], fields[l], scores[l])
      decreases |remaining|
    {
      var l :| l in remaining;
      var k := PickBest(buckets[l]);
      assert BestPick(buckets[l], buckets[l][k].text, buckets[l][k].score);
      fields := fields[l := buckets[l][k].text];
      scores := scores[l := buckets[l][k].score];
      remaining := remaining - {l};
    }
  }

  lemma LabelsSnoc(spans: seq<Span>, sp: Span, threshold: real)
    ensures Labels(spans + [sp], threshold)
         == Labels(spans, threshold) + (if Accepted(sp, threshold) then {NormLabel(sp)} else {})
  {
    var s := spans + [sp];
    assert forall i :: 0 <= i < |spans| ==> s[i] == spans[i];
    assert s[|spans|] == sp;
  }

  /** A label has a non-empty bucket exactly when some accepted span has it. */
  lemma {:induction false} BucketNonEmpty(spans: seq<Span>, threshold: real, l: string)
    ensures Bucket(spans, threshold, l) != [] <==> l in Labels(spans, threshold)
    decreases |spans|
  {
    if spans != [] {
      var p := spans[..|spans| - 1];
      BucketNonEmpty(p, threshold, l);
      assert p + [spans[|spans| - 1]] == spans;
      LabelsSnoc(p, spans[|spans| - 1], threshold);
    }
  }

  /** A span is in the bucket of label `l` exactly when it is one of the
      model's spans, has label `l` once normalised, and passes the filter:
      a blank label or a score below the threshold drops it, a missing score
      never does. */
  lemma {:induction false} BucketMembers(spans: seq<Span>, threshold: real, l: string, sp: Span)
    ensures sp in Bucket(spans, threshold, l) <==> sp in spans && Accepted(sp, threshold) && NormLabel(sp) == l
    decreases |spans|
  {
    if spans != [] {
      var p := spans[..|spans| - 1];
      var last := spans[|spans| - 1];
      assert spans == p + [last];
      BucketMembers(p, threshold, l, sp);
    }
  }
}
