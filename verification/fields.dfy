/** `line_to_fields`: turns the labelled spans of one text into a map from
    prompt field to value. Each span whose label is one of the thirteen known
    entity labels is put in its field's bucket, in input order; the
    multi-valued fields `artifact` and `flora_fauna` become their stripped
    texts, de-duplicated and joined with ", ", every other field its first
    longest raw span text. */
module JsonlToFields {
  import opened Wrappers
  import opened Strings
  import opened Sequences

  /** `LABEL2FIELD`: the upper-case entity labels and their fields. */
  const LabelToField: map<string, string> := map[
    "PERSON" := "person", "DYNASTY" := "dynasty", "TIME" := "time",
    "COSTUME" := "costume", "ARCHITECTURE" := "architecture",
    "ARTIFACT" := "artifact", "FLORA_FAUNA" := "flora_fauna",
    "EVENT" := "event", "ACTION" := "action", "CONCEPT" := "concept",
    "TITLE" := "title", "ORGANIZATION" := "organization",
    "LOCATION" := "location"]

  /** `MULTI`: the fields that keep every distinct value. */
  const Multi: set<string> := {"artifact", "flora_fauna"}

  /** One `[start, end, label]` label triple. */
  datatype Triple = Triple(start: int, end: int, lbl: string)

  /** The field a triple's label feeds, if any. */
  function FieldOf(t: Triple): Option<string> {
    if t.lbl in LabelToField then Some(LabelToField[t.lbl]) else None
  }

  /** The bucket of field `k`: `text[s:e]` of every triple feeding `k`, in
      input order. */
  function SpansFor(text: string, labels: seq<Triple>, k: string): (r: seq<string>)
    decreases |labels|
  {
    if labels == [] then []
    else
      var last := labels[|labels| - 1];
      SpansFor(text, labels[..|labels| - 1], k)
        + (if FieldOf(last) == Some(k) then [PySlice(text, last.start, last.end)] else [])
  }

  /** The fields that received at least one span. */
  function Observed(labels: seq<Triple>): set<string> {
    set i | 0 <= i < |labels| && FieldOf(labels[i]).Some? :: FieldOf(labels[i]).value
  }

  /** A bucket holds exactly the slices of the triples feeding its field. */
  lemma {:induction false} SpansForMembers(text: string, labels: seq<Triple>, k: string, v: string)
    ensures v in SpansFor(text, labels, k) <==>
      exists i :: 0 <= i < |labels| && FieldOf(labels[i]) == Some(k) &&
                  v == PySlice(text, labels[i].start, labels[i].end)
    decreases |labels|
  {
    if labels != [] {
      var p := labels[..|labels| - 1];
      SpansForMembers(text, p, k, v);
      assert forall i :: 0 <= i < |p| ==> p[i] == labels[i];
    }
  }

  /** A field has a non-empty bucket exactly when it was observed. */
  lemma {:induction false} SpansForNonEmpty(text: string, labels: seq<Triple>, k: string)
    ensures SpansFor(text, labels, k) != [] <==> k in Observed(labels)
    decreases |labels|
  {
    if labels != [] {
      var p := labels[..|labels| - 1];
      var last := labels[|labels| - 1];
      SpansForNonEmpty(text, p, k);
      assert forall i :: 0 <= i < |p| ==> p[i] == labels[i];
      assert Observed(labels) == Observed(p) + (if FieldOf(last).Some? then {FieldOf(last).value} else {});
    }
  }

  /** The value of field `k` from its non-empty bucket. */
  function Resolve(k: string, vals: seq<string>): string
    requires vals != []
  {
    if k in Multi then Join(Dedup(StripAll(vals)), ", ") else Longest(vals)
  }

  /** What `line_to_fields` returns. */
  function LineToFieldsSpec(text: string, labels: seq<Triple>): map<string, string> {
    map k | k in Observed(labels) :: (SpansForNonEmpty(text, labels, k); Resolve(k, SpansFor(text, labels, k)))
  }

  /** The buckets after the loop over `labels`. */
  function Buckets(text: string, labels: seq<Triple>): map<string, seq<string>> {
    map k | k in Observed(labels) :: SpansFor(text, labels, k)
  }

  /** One more triple appends its slice to its field's bucket, or changes
      nothing when its label is unknown. */
  lemma BucketsSnoc(text: string, labels: seq<Triple>, t: Triple)
    ensures Buckets(text, labels + [t]) ==
      if FieldOf(t).None? then Buckets(text, labels)
      else
        var k := FieldOf(t).value;
        var before := Buckets(text, labels);
        before[k := (if k in before then before[k] else []) + [PySlice(text, t.start, t.end)]]
  {
    var ls := labels + [t];
    assert ls[..|labels|] == labels && ls[|labels|] == t;
    assert Observed(ls) == Observed(labels) + (if FieldOf(t).Some? then {FieldOf(t).value} else {}) by {
      assert forall j :: 0 <= j < |labels| ==> ls[j] == labels[j];
    }
    var nb, ob := Buckets(text, ls), Buckets(text, labels);
    if FieldOf(t).None? {
      forall k | k in nb ensures nb[k] == ob[k] {
        assert SpansFor(text, ls, k) == SpansFor(text, labels, k);
      }
      assert nb == ob;
    } else {
      var f := FieldOf(t).value;
      var slice := PySlice(text, t.start, t.end);
      var want := ob[f := (if f in ob then ob[f] else []) + [slice]];
      SpansForNonEmpty(text, labels, f);
      forall k | k in nb ensures nb[k] == want[k] {
        assert SpansFor(text, ls, k) == SpansFor(text, labels, k) + (if f == k then [slice] else []);
      }
      assert nb.Keys == want.Keys;
      assert nb == want;
    }
  }

  /** `line_to_fields`: the bucket loop, then one value per bucket. */
  method LineToFields(text: string, labels: seq<Triple>) returns (out: map<string, string>)
    ensures out == LineToFieldsSpec(text, labels)
  {
    var fields: map<string, seq<string>> := map[];
    var i := 0;
    while i < |labels|
      invariant 0 <= i <= |labels|
      invariant fields == Buckets(text, labels[..i])
    {
      var t := labels[i];
      assert labels[..i + 1] == labels[..i] + [t];
      BucketsSnoc(text, labels[..i], t);
      if FieldOf(t).Some? {
        var field := FieldOf(t).value;
        var span := PySlice(text, t.start, t.end);
        var bucket := if field in fields then fields[field] else [];
        fields := fields[field := bucket + [span]];
      }
      i := i + 1;
    }
    assert labels[..i] == labels;
    out := map k | k in fields :: (SpansForNonEmpty(text, labels, k); Resolve(k, fields[k]));
  }

  /** Only the thirteen upper-case labels count: a triple with any other
      label, lower-case spellings included, changes nothing. */
  lemma UnknownLabelIgnored(text: string, labels: seq<Triple>, t: Triple)
    requires t.lbl !in LabelToField
    ensures LineToFieldsSpec(text, labels + [t]) == LineToFieldsSpec(text, labels)
  {
    var ls := labels + [t];
    assert ls[..|ls| - 1] == labels;
    assert forall k :: SpansFor(text, ls, k) == SpansFor(text, labels, k);
    assert Observed(ls) == Observed(labels) by {
      assert forall i :: 0 <= i < |labels| ==> ls[i] == labels[i];
    }
  }

  /** The output has a key for exactly the fields that received a span. */
  lemma KeysAreObservedFields(text: string, labels: seq<Triple>, k: string)
    ensures k in LineToFieldsSpec(text, labels) <==>
      exists i :: 0 <= i < |labels| && labels[i].lbl in LabelToField && LabelToField[labels[i].lbl] == k
  {
    if exists i :: 0 <= i < |labels| && labels[i].lbl in LabelToField && LabelToField[labels[i].lbl] == k {
      var i :| 0 <= i < |labels| && labels[i].lbl in LabelToField && LabelToField[labels[i].lbl] == k;
      assert FieldOf(labels[i]).value == k;
    }
  }

  /** A single-valued field is the first longest of its slices, and it is
      the slice of one of the triples that feed it. */
  lemma SingleFieldIsLongestSlice(text: string, labels: seq<Triple>, k: string)
    requires k in LineToFieldsSpec(text, labels) && k !in Multi
    ensures var vals := SpansFor(text, labels, k);
      var v := LineToFieldsSpec(text, labels)[k];
      (forall w :: w in vals ==> |w| <= |v|) &&
      (exists j :: 0 <= j < |vals| && vals[j] == v && forall j' :: 0 <= j' < j ==> |vals[j']| < |v|) &&
      (exists i :: 0 <= i < |labels| && FieldOf(labels[i]) == Some(k) &&
                   v == PySlice(text, labels[i].start, labels[i].end))
  {
    var vals := SpansFor(text, labels, k);
    SpansForNonEmpty(text, labels, k);
    var j := LongestIndex(vals);
    SpansForMembers(text, labels, k, vals[j]);
  }

  /** A multi-valued field is the ", "-join of the distinct stripped slices
      in order of first occurrence, each exactly once. */
  lemma MultiFieldIsDedupJoin(text: string, labels: seq<Triple>, k: string)
    requires k in LineToFieldsSpec(text, labels) && k in Multi
    ensures var items := Dedup(StripAll(SpansFor(text, labels, k)));
      LineToFieldsSpec(text, labels)[k] == Join(items, ", ") &&
      Distinct(items) &&
      (forall w :: w in items <==> exists v :: v in SpansFor(text, labels, k) && w == Strip(v))
  {
    var vals := SpansFor(text, labels, k);
    var stripped := StripAll(vals);
    forall w | w in Dedup(stripped)
      ensures exists v :: v in vals && w == Strip(v)
    {
      var i :| 0 <= i < |stripped| && stripped[i] == w;
      assert vals[i] in vals;
    }
    forall w | exists v :: v in vals && w == Strip(v)
      ensures w in Dedup(stripped)
    {
      var v :| v in vals && w == Strip(v);
      var i :| 0 <= i < |vals| && vals[i] == v;
      assert stripped[i] == w;
    }
  }
}
