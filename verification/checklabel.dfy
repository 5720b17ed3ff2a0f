/** `analyze_label_consistency`: reads a Doccano export, counts the labels,
    groups the labelled spans by their normalised text, and reports the
    texts that carry more than one label, with examples of the minority
    labels and the label pairs that get confused. Python dictionaries keep
    insertion order; each is modelled as a map with the sequence of its
    keys in insertion order. */
module CheckLabel {
  import opened Wrappers
  import opened Strings
  import opened Sequences

  datatype Triple = Triple(start: int, end: int, lbl: string)

  /** A line of the input: not valid JSON, or an object with its `text` and
      its `label` triples (default []). */
  datatype Line = BadJson | Data(text: string, labels: seq<Triple>)

  /** The `entity_info` record kept for every labelled span. */
  datatype Occ = Occ(lineNum: nat, original: string, sentence: string, start: int, end: int)

  /** One labelled span as the read loop sees it: its key, label and record. */
  datatype Mention = Mention(key: string, lbl: string, occ: Occ)

  /** `text[start:end].strip().lower()`. */
  function EntityKey(text: string, start: int, end: int): string {
    Lower(Strip(PySlice(text, start, end)))
  }

  function MentionOf(lineNum: nat, text: string, t: Triple): Mention {
    var original := PySlice(text, t.start, t.end);
    Mention(EntityKey(text, t.start, t.end), t.lbl, Occ(lineNum, original, text, t.start, t.end))
  }

  /** The spans of one line, in triple order. */
  function LineMentions(lineNum: nat, text: string, labels: seq<Triple>): (r: seq<Mention>)
    ensures |r| == |labels|
    decreases |labels|
  {
    if labels == [] then []
    else LineMentions(lineNum, text, labels[..|labels| - 1]) + [MentionOf(lineNum, text, labels[|labels| - 1])]
  }

  /** The spans of all lines, in reading order; line numbers start at 1. */
  function Mentions(lines: seq<Line>): seq<Mention>
    decreases |lines|
  {
    if lines == [] then []
    else
      Mentions(lines[..|lines| - 1]) +
        match lines[|lines| - 1] {
          case BadJson => []
          case Data(text, labels) => LineMentions(|lines|, text, labels)
        }
  }

  function Lbls(ms: seq<Mention>): (r: seq<string>)
    ensures |r| == |ms|
    decreases |ms|
  {
    if ms == [] then [] else Lbls(ms[..|ms| - 1]) + [ms[|ms| - 1].lbl]
  }

  function Keys(ms: seq<Mention>): seq<string>
    decreases |ms|
  {
    if ms == [] then [] else Keys(ms[..|ms| - 1]) + [ms[|ms| - 1].key]
  }

  /** The labels of the spans with key `k`, in reading order. */
  function LblsOf(ms: seq<Mention>, k: string): seq<string>
    decreases |ms|
  {
    if ms == [] then []
    else LblsOf(ms[..|ms| - 1], k) + if ms[|ms| - 1].key == k then [ms[|ms| - 1].lbl] else []
  }

  /** The records of the spans with key `k` and label `l`, in reading order. */
  function OccsOf(ms: seq<Mention>, k: string, l: string): seq<Occ>
    decreases |ms|
  {
    if ms == [] then []
    else
      var m := ms[|ms| - 1];
      OccsOf(ms[..|ms| - 1], k, l) + if m.key == k && m.lbl == l then [m.occ] else []
  }

  function Count<T(==)>(xs: seq<T>, x: T): nat
    decreases |xs|
  {
    if xs == [] then 0 else Count(xs[..|xs| - 1], x) + if xs[|xs| - 1] == x then 1 else 0
  }

  // ---------------------------------------------------------------------------
  // Insertion-ordered counters (`defaultdict(int)`)

  /** A counter, as its keys in first-insertion order and the map of counts,
      agrees with the items counted: the keys are the distinct items and
      each count is the number of times its item occurs. */
  ghost predicate Counts<T(!new)>(xs: seq<T>, order: seq<T>, counts: map<T, nat>) {
    order == Dedup(xs) &&
    (forall x :: x in counts <==> x in xs) &&
    (forall x :: x in counts ==> counts[x] == Count(xs, x))
  }

  /** `counter[x] += 1`: the key order, then the counts. */
  function BumpOrder<T(==)>(order: seq<T>, counts: map<T, nat>, x: T): seq<T> {
    if x in counts then order else order + [x]
  }

  function BumpCounts<T(==)>(counts: map<T, nat>, x: T): map<T, nat> {
    counts[x := (if x in counts then counts[x] else 0) + 1]
  }

  lemma CountSnoc<T>(xs: seq<T>, x: T)
    ensures forall y :: Count(xs + [x], y) == Count(xs, y) + if x == y then 1 else 0
  {
    assert (xs + [x])[..|xs|] == xs;
  }

  lemma {:induction false} CountAbsent<T>(xs: seq<T>, x: T)
    requires x !in xs
    ensures Count(xs, x) == 0
    decreases |xs|
  {
    if xs != [] {
      CountAbsent(xs[..|xs| - 1], x);
    }
  }

  /** Counting one more item keeps the counter in agreement. */
  lemma BumpStep<T(!new)>(xs: seq<T>, order: seq<T>, counts: map<T, nat>, x: T)
    requires Counts(xs, order, counts)
    ensures Counts(xs + [x], BumpOrder(order, counts, x), BumpCounts(counts, x))
  {
    CountSnoc(xs, x);
    DedupSnoc(xs, x);
    if x !in counts {
      CountAbsent(xs, x);
    }
  }

  // ---------------------------------------------------------------------------
  // The read loop

  /** The state the read loop builds: `total_entities`,
      `label_counts` and `entity_labels` (per key, the labels in insertion
      order and the list of records per label). */
  datatype Tally = Tally(totalEntities: nat,
                         labelOrder: seq<string>, labelCounts: map<string, nat>,
                         entityOrder: seq<string>, entityLabels: map<string, seq<string>>,
                         occurrences: map<(string, string), seq<Occ>>)

  /** `total_entities` and `label_counts` agree with the spans read so far:
      every count is the number of spans with that label. */
  ghost predicate LabelsTallied(ms: seq<Mention>, t: Tally) {
    t.totalEntities == |ms| && Counts(Lbls(ms), t.labelOrder, t.labelCounts)
  }

  /** The keys of `entity_labels` and, per key, its labels in first-use order. */
  ghost predicate EntitiesTallied(ms: seq<Mention>, t: Tally) {
    t.entityOrder == Dedup(Keys(ms)) &&
    (forall k :: k in t.entityLabels <==> k in Keys(ms)) &&
    (forall k :: k in t.entityLabels ==> t.entityLabels[k] == Dedup(LblsOf(ms, k)))
  }

  /** Every record list holds exactly the records of the spans with that key
      and label, in reading order. */
  ghost predicate OccsTallied(ms: seq<Mention>, t: Tally) {
    (forall k, l :: (k, l) in t.occurrences <==> l in LblsOf(ms, k)) &&
    (forall k, l :: (k, l) in t.occurrences ==> t.occurrences[(k, l)] == OccsOf(ms, k, l))
  }

  ghost predicate Tallied(ms: seq<Mention>, t: Tally) {
    LabelsTallied(ms, t) && EntitiesTallied(ms, t) && OccsTallied(ms, t)
  }

  const EmptyTally := Tally(0, [], map[], [], map[], map[])

  /** `label_counts[label_name] += 1`, `total_entities += 1` and
      `entity_labels[entity_text][label_name].append(entity_info)`. */
  function Record(t: Tally, m: Mention): Tally {
    var l, k := m.lbl, m.key;
    t.(totalEntities := t.totalEntities + 1,
       labelOrder := BumpOrder(t.labelOrder, t.labelCounts, l),
       labelCounts := BumpCounts(t.labelCounts, l),
       entityOrder := if k in t.entityLabels then t.entityOrder else t.entityOrder + [k],
       entityLabels := t.entityLabels[k :=
         if k !in t.entityLabels then [l]
         else if l in t.entityLabels[k] then t.entityLabels[k]
         else t.entityLabels[k] + [l]],
       occurrences := t.occurrences[(k, l) := (if (k, l) in t.occurrences then t.occurrences[(k, l)] else []) + [m.occ]])
  }

  lemma MentionSnoc(ms: seq<Mention>, m: Mention)
    ensures Lbls(ms + [m]) == Lbls(ms) + [m.lbl]
    ensures Keys(ms + [m]) == Keys(ms) + [m.key]
    ensures forall k :: LblsOf(ms + [m], k) == LblsOf(ms, k) + if m.key == k then [m.lbl] else []
    ensures forall k, l :: OccsOf(ms + [m], k, l) == OccsOf(ms, k, l) + if m.key == k && m.lbl == l then [m.occ] else []
  {
    assert (ms + [m])[..|ms|] == ms;
  }

  /** Recording one span keeps the tally in agreement with the spans. */
  lemma RecordStep(ms: seq<Mention>, t: Tally, m: Mention)
    requires Tallied(ms, t)
    ensures Tallied(ms + [m], Record(t, m))
  {
    MentionSnoc(ms, m);
    RecordLabels(ms, t, m);
    RecordEntities(ms, t, m);
    RecordOccs(ms, t, m);
  }

  lemma RecordLabels(ms: seq<Mention>, t: Tally, m: Mention)
    requires LabelsTallied(ms, t)
    requires Lbls(ms + [m]) == Lbls(ms) + [m.lbl]
    ensures LabelsTallied(ms + [m], Record(t, m))
  {
    BumpStep(Lbls(ms), t.labelOrder, t.labelCounts, m.lbl);
  }

  lemma RecordEntities(ms: seq<Mention>, t: Tally, m: Mention)
    requires EntitiesTallied(ms, t)
    requires Keys(ms + [m]) == Keys(ms) + [m.key]
    requires forall k :: LblsOf(ms + [m], k) == LblsOf(ms, k) + if m.key == k then [m.lbl] else []
    ensures EntitiesTallied(ms + [m], Record(t, m))
  {
    DedupSnoc(Keys(ms), m.key);
    var t' := Record(t, m);
    var ms' := ms + [m];
    forall k | k in t'.entityLabels
      ensures t'.entityLabels[k] == Dedup(LblsOf(ms', k))
    {
      if k != m.key {
        assert LblsOf(ms', k) == LblsOf(ms, k) + [];
        assert LblsOf(ms', k) == LblsOf(ms, k);
      } else if k in t.entityLabels {
        DedupSnoc(LblsOf(ms, k), m.lbl);
      } else {
        LblsOfAbsent(ms, k);
        assert LblsOf(ms', k) == [m.lbl];
        DedupSnoc<string>([], m.lbl);
        assert [] + [m.lbl] == [m.lbl];
      }
    }
  }

  lemma RecordOccs(ms: seq<Mention>, t: Tally, m: Mention)
    requires OccsTallied(ms, t)
    requires forall k :: LblsOf(ms + [m], k) == LblsOf(ms, k) + if m.key == k then [m.lbl] else []
    requires forall k, l :: OccsOf(ms + [m], k, l) == OccsOf(ms, k, l) + if m.key == k && m.lbl == l then [m.occ] else []
    ensures OccsTallied(ms + [m], Record(t, m))
  {
    if (m.key, m.lbl) !in t.occurrences {
      OccsAbsent(ms, m.key, m.lbl);
    }
  }

  /** A key no span has has no labels. */
  lemma {:induction false} LblsOfAbsent(ms: seq<Mention>, k: string)
    requires k !in Keys(ms)
    ensures LblsOf(ms, k) == []
    decreases |ms|
  {
    if ms != [] {
      LblsOfAbsent(ms[..|ms| - 1], k);
    }
  }

  /** A label a key never had has no records under it. */
  lemma {:induction false} OccsAbsent(ms: seq<Mention>, k: string, l: string)
    requires l !in LblsOf(ms, k)
    ensures OccsOf(ms, k, l) == []
    decreases |ms|
  {
    if ms != [] {
      OccsAbsent(ms[..|ms| - 1], k, l);
    }
  }

  /** The tally of a sequence of spans: each recorded in turn. */
  function TallyOf(ms: seq<Mention>): Tally
    decreases |ms|
  {
    if ms == [] then EmptyTally else Record(TallyOf(ms[..|ms| - 1]), ms[|ms| - 1])
  }

  /** The tally of the spans agrees with them: counts are per-label span
      counts, and each record list holds exactly the records of its key and
      label, in reading order. */
  lemma {:induction false} TallyOfTallied(ms: seq<Mention>)
    ensures Tallied(ms, TallyOf(ms))
    decreases |ms|
  {
    if ms != [] {
      var p := ms[..|ms| - 1];
      assert p + [ms[|ms| - 1]] == ms;
      TallyOfTallied(p);
      RecordStep(p, TallyOf(p), ms[|ms| - 1]);
    }
  }

  lemma {:induction false} TallyOfAppend(ms: seq<Mention>, ns: seq<Mention>, m: Mention)
    ensures TallyOf(ms + (ns + [m])) == Record(TallyOf(ms + ns), m)
  {
    assert ms + (ns + [m]) == (ms + ns) + [m];
    assert ((ms + ns) + [m])[..|ms + ns|] == ms + ns;
  }

  /** The triple loop of one line. */
  method TallyLine(t0: Tally, ghost ms: seq<Mention>, lineNum: nat, text: string, labels: seq<Triple>)
    returns (t: Tally)
    requires t0 == TallyOf(ms)
    ensures t == TallyOf(ms + LineMentions(lineNum, text, labels))
  {
    t := t0;
    assert labels[..0] == [] && ms + [] == ms;
    for i := 0 to |labels|
      invariant t == TallyOf(ms + LineMentions(lineNum, text, labels[..i]))
    {
      var m := MentionOf(lineNum, text, labels[i]);
      assert labels[..i + 1][..i] == labels[..i];
      TallyOfAppend(ms, LineMentions(lineNum, text, labels[..i]), m);
      t := Record(t, m);
    }
    assert labels[..|labels|] == labels;
  }

  /** Why the analysis stops before writing any report: the file is
      missing, or a line is not valid JSON (its 1-based number). */
  datatype Failure = FileNotFound | InvalidJson(lineNum: nat)

  /** The first `n` lines are valid JSON. */
  predicate AllValid(lines: seq<Line>, n: nat) {
    forall j :: 0 <= j < n && j < |lines| ==> lines[j].Data?
  }

  /** Index of the first line that is not valid JSON, if any. */
  function FirstBad(lines: seq<Line>): (r: Option<nat>)
    ensures r.Some? ==> r.value < |lines| && lines[r.value].BadJson?
    ensures r.Some? ==> AllValid(lines, r.value)
    ensures r.None? ==> AllValid(lines, |lines|)
    decreases |lines|
  {
    if lines == [] then None
    else if lines[0].BadJson? then Some(0)
    else match FirstBad(lines[1..]) {
      case None => None
      case Some(j) => Some(j + 1)
    }
  }

  lemma MentionsStep(lines: seq<Line>, i: nat)
    requires i < |lines| && lines[i].Data?
    ensures Mentions(lines[..i + 1]) == Mentions(lines[..i]) + LineMentions(i + 1, lines[i].text, lines[i].labels)
  {
    assert lines[..i + 1][..i] == lines[..i];
  }

  /** The line number the error message reports for an invalid line at
      index `i`, as written: `total_lines` was already incremented for that
      line, so `total_lines + 1` names the line after it. */
  function ReportedLineAsWritten(i: nat): nat {
    var totalLines := i + 1;
    totalLines + 1
  }

  /** The 1-based number of the first invalid line: the line the message
      means to name. */
  function BadLineNumber(lines: seq<Line>): (n: Option<nat>)
    ensures n.Some? ==> 1 <= n.value <= |lines| && lines[n.value - 1].BadJson? && AllValid(lines, n.value - 1)
    ensures n.None? ==> AllValid(lines, |lines|)
  {
    match FirstBad(lines)
    case None => None
    case Some(i) => Some(i + 1)
  }

  /** The first line of a file is invalid, yet the message names line 2. */
  lemma ReportedLineOffByOne()
    ensures BadLineNumber([BadJson]) == Some(1)
    ensures ReportedLineAsWritten(FirstBad([BadJson]).value) == 2
  {
  }

  /** The read loop. A missing file or an invalid line stops the analysis;
      otherwise every line is counted and every triple recorded. The error
      names the line after the invalid one (see `ReportedLineAsWritten`). */
  method ReadLines(file: Option<seq<Line>>) returns (r: Result<Tally, Failure>, totalLines: nat)
    ensures file.None? ==> r == Err(FileNotFound)
    ensures file.Some? && FirstBad(file.value).Some? ==>
      r == Err(InvalidJson(ReportedLineAsWritten(FirstBad(file.value).value))) &&
      r.error.lineNum == BadLineNumber(file.value).value + 1
    ensures file.Some? && FirstBad(file.value).None? ==>
      r == Ok(TallyOf(Mentions(file.value))) && totalLines == |file.value|
  {
    totalLines := 0;
    if file.None? {
      return Err(FileNotFound), totalLines;
    }
    var lines := file.value;
    var t := EmptyTally;
    ghost var ms: seq<Mention> := [];
    assert lines[..0] == [];
    for i := 0 to |lines|
      invariant totalLines == i
      invariant AllValid(lines, i)
      invariant ms == Mentions(lines[..i])
      invariant t == TallyOf(ms)
    {
      totalLines := totalLines + 1;
      if lines[i].BadJson? {
        FirstBadIs(lines, i);
        return Err(InvalidJson(totalLines + 1)), totalLines;
      }
      MentionsStep(lines, i);
      t := TallyLine(t, ms, i + 1, lines[i].text, lines[i].labels);
      ms := ms + LineMentions(i + 1, lines[i].text, lines[i].labels);
    }
    assert lines[..|lines|] == lines;
    NoBad(lines);
    r := Ok(t);
  }

  lemma {:induction false} NoBad(lines: seq<Line>)
    requires AllValid(lines, |lines|)
    ensures FirstBad(lines).None?
    decreases |lines|
  {
    if lines != [] {
      NoBad(lines[1..]);
    }
  }

  lemma {:induction false} FirstBadIs(lines: seq<Line>, i: nat)
    requires i < |lines| && lines[i].BadJson?
    requires AllValid(lines, i)
    ensures FirstBad(lines) == Some(i)
    decreases i
  {
    if i > 0 {
      FirstBadIs(lines[1..], i - 1);
    }
  }

  // ---------------------------------------------------------------------------
  // Totals

  /** The sum of the counts of `keys` in `xs`. */
  function SumCounts<T(==)>(keys: seq<T>, xs: seq<T>): nat
    decreases |keys|
  {
    if keys == [] then 0 else Count(xs, keys[0]) + SumCounts(keys[1..], xs)
  }

  lemma {:induction false} SumCountsSnoc<T>(keys: seq<T>, xs: seq<T>, x: T)
    requires Distinct(keys)
    ensures SumCounts(keys, xs + [x]) == SumCounts(keys, xs) + if x in keys then 1 else 0
    decreases |keys|
  {
    CountSnoc(xs, x);
    if keys != [] {
      SumCountsSnoc(keys[1..], xs, x);
      if x in keys[1..] {
        assert keys[0] != x;
      }
      if x in keys && x !in keys[1..] {
        assert keys[0] == x;
      }
    }
  }

  lemma {:induction false} SumCountsAppendAbsent<T>(keys: seq<T>, xs: seq<T>, x: T)
    requires x !in keys
    ensures SumCounts(keys + [x], xs) == SumCounts(keys, xs) + Count(xs, x)
    decreases |keys|
  {
    if keys != [] {
      assert (keys + [x])[1..] == keys[1..] + [x];
      SumCountsAppendAbsent(keys[1..], xs, x);
    }
  }

  /** Every span counts once under its label: the counts over the labels,
      in first-occurrence order, add up to the number of spans. */
  lemma {:induction false} SumOfCounts<T(!new)>(xs: seq<T>)
    ensures SumCounts(Dedup(xs), xs) == |xs|
    decreases |xs|
  {
    if xs != [] {
      var p, x := xs[..|xs| - 1], xs[|xs| - 1];
      assert xs == p + [x];
      SumOfCounts(p);
      SumCountsSnoc(Dedup(p), p, x);
      DedupSnoc(p, x);
      if x !in Dedup(p) {
        SumCountsAppendAbsent(Dedup(p), xs, x);
        CountSnoc(p, x);
        CountAbsent(p, x);
      }
    }
  }

  /** `total_entities` is the sum of `label_counts`. */
  lemma TotalIsSumOfCounts(ms: seq<Mention>, t: Tally)
    requires Tallied(ms, t)
    ensures t.totalEntities == SumCounts(t.labelOrder, Lbls(ms))
  {
    SumOfCounts(Lbls(ms));
  }

  // ---------------------------------------------------------------------------
  // Sorting: `sorted(items, key=..., reverse=True)` and
  // `list.sort(key=..., reverse=True)` are stable, largest key first. Each
  // item is paired with its key.

  ghost predicate SortedDesc<T>(s: seq<(T, nat)>) {
    forall i, j :: 0 <= i < j < |s| ==> s[i].1 >= s[j].1
  }

  /** The items with key `v`, in order. */
  function WithKey<T>(s: seq<(T, nat)>, v: nat): seq<(T, nat)>
    decreases |s|
  {
    if s == [] then [] else WithKey(s[..|s| - 1], v) + if s[|s| - 1].1 == v then [s[|s| - 1]] else []
  }

  /** Places `x` right after the last item whose key is at least its own. */
  function Insert<T>(x: (T, nat), s: seq<(T, nat)>): seq<(T, nat)>
    decreases |s|
  {
    if s == [] || s[|s| - 1].1 >= x.1 then s + [x]
    else Insert(x, s[..|s| - 1]) + [s[|s| - 1]]
  }

  /** Insertion sort, item by item in input order. */
  function SortDesc<T>(xs: seq<(T, nat)>): seq<(T, nat)>
    decreases |xs|
  {
    if xs == [] then [] else Insert(xs[|xs| - 1], SortDesc(xs[..|xs| - 1]))
  }

  lemma WithKeySnoc<T>(s: seq<(T, nat)>, y: (T, nat), v: nat)
    ensures WithKey(s + [y], v) == WithKey(s, v) + if y.1 == v then [y] else []
  {
    assert (s + [y])[..|s|] == s;
  }

  /** Every key of the items is at least `b`. */
  ghost predicate KeysAtLeast<T>(s: seq<(T, nat)>, b: nat) {
    forall i :: 0 <= i < |s| ==> s[i].1 >= b
  }

  lemma {:induction false} InsertAtLeast<T>(x: (T, nat), s: seq<(T, nat)>, b: nat)
    requires KeysAtLeast(s, b) && x.1 >= b
    ensures KeysAtLeast(Insert(x, s), b)
    decreases |s|
  {
    if s != [] && s[|s| - 1].1 < x.1 {
      InsertAtLeast(x, s[..|s| - 1], b);
    }
  }

  lemma {:induction false} InsertSorted<T>(x: (T, nat), s: seq<(T, nat)>)
    requires SortedDesc(s)
    ensures SortedDesc(Insert(x, s))
    decreases |s|
  {
    if s != [] && s[|s| - 1].1 < x.1 {
      var p, y := s[..|s| - 1], s[|s| - 1];
      InsertSorted(x, p);
      InsertAtLeast(x, p, y.1);
    }
  }

  lemma {:induction false} InsertPerm<T>(x: (T, nat), s: seq<(T, nat)>)
    ensures multiset(Insert(x, s)) == multiset(s) + multiset{x}
    decreases |s|
  {
    if s != [] && s[|s| - 1].1 < x.1 {
      var p, y := s[..|s| - 1], s[|s| - 1];
      assert s == p + [y];
      InsertPerm(x, p);
    }
  }

  lemma {:induction false} InsertStable<T>(x: (T, nat), s: seq<(T, nat)>, v: nat)
    requires SortedDesc(s)
    ensures WithKey(Insert(x, s), v) == WithKey(s, v) + if x.1 == v then [x] else []
    decreases |s|
  {
    if s == [] || s[|s| - 1].1 >= x.1 {
      WithKeySnoc(s, x, v);
    } else {
      var p, y := s[..|s| - 1], s[|s| - 1];
      assert s == p + [y];
      assert SortedDesc(p);
      InsertStable(x, p, v);
      WithKeySnoc(Insert(x, p), y, v);
      WithKeySnoc(p, y, v);
      assert Insert(x, s) == Insert(x, p) + [y];
      if x.1 == v {
        assert WithKey(Insert(x, s), v) == WithKey(p, v) + [x];
      } else {
        assert WithKey(Insert(x, s), v) == WithKey(p, v) + if y.1 == v then [y] else [];
      }
    }
  }

  /** The sort puts larger keys first, keeps every item, and keeps the items
      of equal key in their input order. */
  lemma {:induction false} SortDescSpec<T>(xs: seq<(T, nat)>)
    ensures SortedDesc(SortDesc(xs))
    ensures multiset(SortDesc(xs)) == multiset(xs)
    ensures forall v :: WithKey(SortDesc(xs), v) == WithKey(xs, v)
    decreases |xs|
  {
    if xs != [] {
      var p, x := xs[..|xs| - 1], xs[|xs| - 1];
      assert xs == p + [x];
      SortDescSpec(p);
      InsertSorted(x, SortDesc(p));
      InsertPerm(x, SortDesc(p));
      forall v
        ensures WithKey(SortDesc(xs), v) == WithKey(xs, v)
      {
        InsertStable(x, SortDesc(p), v);
        WithKeySnoc(p, x, v);
      }
    }
  }

  // ---------------------------------------------------------------------------
  // Section 1: the label distribution

  /** A counter's `items()`: each key in insertion order with its count. */
  function Items<T(==)>(order: seq<T>, counts: map<T, nat>): seq<(T, nat)> {
    seq(|order|, i requires 0 <= i < |order| => (order[i], if order[i] in counts then counts[order[i]] else 0))
  }

  /** The items of a counter that has counted `xs`: each distinct item, in
      first-occurrence order, with its number of occurrences. */
  function CounterItems<T(==,!new)>(xs: seq<T>): seq<(T, nat)> {
    var d := Dedup(xs);
    seq(|d|, i requires 0 <= i < |d| => (d[i], Count(xs, d[i])))
  }

  lemma ItemsOfCounts<T(!new)>(xs: seq<T>, order: seq<T>, counts: map<T, nat>)
    requires Counts(xs, order, counts)
    ensures Items(order, counts) == CounterItems(xs)
  {
    forall i | 0 <= i < |order|
      ensures order[i] in counts
    {
      assert order[i] in Dedup(xs);
    }
  }

  /** `sorted(label_counts.items(), key=count, reverse=True)`. */
  function Distribution(t: Tally): seq<(string, nat)> {
    SortDesc(Items(t.labelOrder, t.labelCounts))
  }

  lemma CounterItemsMembers<T(!new)>(xs: seq<T>)
    ensures |CounterItems(xs)| == |Dedup(xs)|
    ensures forall x, n :: (x, n) in CounterItems(xs) <==> x in xs && n == Count(xs, x)
  {
    var d := Dedup(xs);
    forall x, n | x in xs && n == Count(xs, x)
      ensures (x, n) in CounterItems(xs)
    {
      assert x in d;
      var i :| 0 <= i < |d| && d[i] == x;
      assert CounterItems(xs)[i] == (x, n);
    }
  }

  /** The distribution lists every label of the spans once, with its number
      of spans, most frequent first, labels of equal count in first-use
      order. */
  lemma DistributionSpec(ms: seq<Mention>)
    ensures SortedDesc(Distribution(TallyOf(ms)))
    ensures |Distribution(TallyOf(ms))| == |Dedup(Lbls(ms))|
    ensures forall l, n :: (l, n) in Distribution(TallyOf(ms)) <==> l in Lbls(ms) && n == Count(Lbls(ms), l)
    ensures forall v :: WithKey(Distribution(TallyOf(ms)), v) == WithKey(CounterItems(Lbls(ms)), v)
  {
    var t := TallyOf(ms);
    TallyOfTallied(ms);
    ItemsOfCounts(Lbls(ms), t.labelOrder, t.labelCounts);
    var items := CounterItems(Lbls(ms));
    SortDescSpec(items);
    CounterItemsMembers(Lbls(ms));
    assert |SortDesc(items)| == |multiset(SortDesc(items))| == |items|;
    forall l, n
      ensures (l, n) in SortDesc(items) <==> (l, n) in items
    {
      assert (l, n) in SortDesc(items) <==> (l, n) in multiset(SortDesc(items));
    }
  }

  // ---------------------------------------------------------------------------
  // Section 2: entities with more than one label

  /** The labels of key `k`, in insertion order. */
  function LabelsAt(t: Tally, k: string): seq<string> {
    if k in t.entityLabels then t.entityLabels[k] else []
  }

  /** The records of key `k` under label `l`. */
  function OccsAt(t: Tally, k: string, l: string): seq<Occ> {
    if (k, l) in t.occurrences then t.occurrences[(k, l)] else []
  }

  /** Each key of `keys` with more than one label, paired with its number of
      labels, in the order of `keys`. */
  function InconsistentItems(t: Tally, keys: seq<string>): seq<(string, nat)>
    decreases |keys|
  {
    if keys == [] then []
    else
      var k := keys[|keys| - 1];
      InconsistentItems(t, keys[..|keys| - 1]) + if |LabelsAt(t, k)| > 1 then [(k, |LabelsAt(t, k)|)] else []
  }

  lemma {:induction false} InconsistentItemsMembers(t: Tally, keys: seq<string>)
    ensures forall k, n :: (k, n) in InconsistentItems(t, keys) <==> k in keys && n == |LabelsAt(t, k)| && n > 1
    decreases |keys|
  {
    if keys != [] {
      var p := keys[..|keys| - 1];
      assert keys == p + [keys[|keys| - 1]];
      InconsistentItemsMembers(t, p);
    }
  }

  /** The loop that collects `inconsistent_entities`. */
  method CollectInconsistent(t: Tally) returns (items: seq<(string, nat)>)
    ensures items == InconsistentItems(t, t.entityOrder)
  {
    items := [];
    for i := 0 to |t.entityOrder|
      invariant items == InconsistentItems(t, t.entityOrder[..i])
    {
      var k := t.entityOrder[i];
      assert t.entityOrder[..i + 1][..i] == t.entityOrder[..i];
      if |LabelsAt(t, k)| > 1 {
        items := items + [(k, |LabelsAt(t, k)|)];
      }
    }
    assert t.entityOrder[..|t.entityOrder|] == t.entityOrder;
  }

  /** `inconsistent_entities` after its sort. */
  function Inconsistent(t: Tally): seq<(string, nat)> {
    SortDesc(InconsistentItems(t, t.entityOrder))
  }

  /** A normalised text is reported exactly when its spans carry more than
      one distinct label, and texts with more labels come first. */
  lemma InconsistentSpec(ms: seq<Mention>)
    ensures SortedDesc(Inconsistent(TallyOf(ms)))
    ensures forall k, n :: (k, n) in Inconsistent(TallyOf(ms)) <==>
      k in Keys(ms) && n == |Dedup(LblsOf(ms, k))| && n > 1
  {
    var t := TallyOf(ms);
    TallyOfTallied(ms);
    var items := InconsistentItems(t, t.entityOrder);
    SortDescSpec(items);
    InconsistentItemsMembers(t, t.entityOrder);
    forall k, n
      ensures (k, n) in SortDesc(items) <==> (k, n) in items
    {
      assert (k, n) in SortDesc(items) <==> (k, n) in multiset(SortDesc(items));
    }
  }

  // ---------------------------------------------------------------------------
  // One inconsistent entity

  /** `labels.items()` of one key: each label with its records. */
  function Groups(t: Tally, k: string): (gs: seq<(string, seq<Occ>)>) {
    var ls := LabelsAt(t, k);
    seq(|ls|, i requires 0 <= i < |ls| => (ls[i], OccsAt(t, k, ls[i])))
  }

  /** `max_count`: the largest number of records of a label (0 for none). */
  function MaxCount(gs: seq<(string, seq<Occ>)>): (m: nat)
    ensures forall i :: 0 <= i < |gs| ==> |gs[i].1| <= m
    ensures gs != [] ==> exists i :: 0 <= i < |gs| && |gs[i].1| == m
    decreases |gs|
  {
    if gs == [] then 0
    else
      var m := MaxCount(gs[..|gs| - 1]);
      if |gs[|gs| - 1].1| > m then |gs[|gs| - 1].1| else m
  }

  /** `minority_labels`: the groups with fewer records than `m`. */
  function Minority(gs: seq<(string, seq<Occ>)>, m: nat): seq<(string, seq<Occ>)>
    decreases |gs|
  {
    if gs == [] then []
    else Minority(gs[..|gs| - 1], m) + if |gs[|gs| - 1].1| < m then [gs[|gs| - 1]] else []
  }

  /** `main_labels`: the labels with exactly `m` records. */
  function MainLabels(gs: seq<(string, seq<Occ>)>, m: nat): seq<string>
    decreases |gs|
  {
    if gs == [] then []
    else MainLabels(gs[..|gs| - 1], m) + if |gs[|gs| - 1].1| == m then [gs[|gs| - 1].0] else []
  }

  /** With no label above `m`, every label is either a minority label or a
      main label, and the minority is empty exactly when all have `m`. */
  lemma {:induction false} PartitionSpec(gs: seq<(string, seq<Occ>)>, m: nat)
    requires forall i :: 0 <= i < |gs| ==> |gs[i].1| <= m
    ensures |Minority(gs, m)| + |MainLabels(gs, m)| == |gs|
    ensures forall g :: g in Minority(gs, m) <==> g in gs && |g.1| < m
    ensures Minority(gs, m) == [] <==> forall i :: 0 <= i < |gs| ==> |gs[i].1| == m
    decreases |gs|
  {
    if gs != [] {
      var p := gs[..|gs| - 1];
      assert gs == p + [gs[|gs| - 1]];
      PartitionSpec(p, m);
      if Minority(gs, m) == [] {
        forall i | 0 <= i < |gs|
          ensures |gs[i].1| == m
        {
          if i < |p| {
            assert p[i] == gs[i];
          }
        }
      }
    }
  }

  /** The main labels are exactly the labels with `m` records. */
  lemma {:induction false} MainLabelsSpec(gs: seq<(string, seq<Occ>)>, m: nat)
    ensures forall l :: l in MainLabels(gs, m) <==> HasCount(gs, l, m)
    decreases |gs|
  {
    if gs != [] {
      var p := gs[..|gs| - 1];
      MainLabelsSpec(p, m);
      forall l | l in MainLabels(gs, m)
        ensures HasCount(gs, l, m)
      {
        if l in MainLabels(p, m) {
          var i :| 0 <= i < |p| && p[i].0 == l && |p[i].1| == m;
          assert gs[i] == p[i];
        } else {
          assert gs[|gs| - 1].0 == l;
        }
      }
      forall l | HasCount(gs, l, m)
        ensures l in MainLabels(gs, m)
      {
        var i :| 0 <= i < |gs| && gs[i].0 == l && |gs[i].1| == m;
        if i < |p| {
          assert p[i] == gs[i];
        }
      }
    }
  }

  /** Some group has label `l` and `m` records. */
  ghost predicate HasCount(gs: seq<(string, seq<Occ>)>, l: string, m: nat) {
    exists i :: 0 <= i < |gs| && gs[i].0 == l && |gs[i].1| == m
  }

  datatype Example = Example(lineNum: nat, lbl: string, highlighted: string)

  /** `sentence.replace(original_text, f"**{original_text}**")`. */
  function Highlight(o: Occ): string {
    PyReplace(o.sentence, o.original, "**" + o.original + "**")
  }

  function GroupExamples(g: (string, seq<Occ>)): (r: seq<Example>) {
    seq(|g.1|, i requires 0 <= i < |g.1| => Example(g.1[i].lineNum, g.0, Highlight(g.1[i])))
  }

  /** Every record of the groups as an example line, group by group. */
  function Flatten(gs: seq<(string, seq<Occ>)>): seq<Example>
    decreases |gs|
  {
    if gs == [] then [] else Flatten(gs[..|gs| - 1]) + GroupExamples(gs[|gs| - 1])
  }

  /** `sum(len(occ) for occ in minority_labels.values())`. */
  function TotalOccs(gs: seq<(string, seq<Occ>)>): nat
    decreases |gs|
  {
    if gs == [] then 0 else TotalOccs(gs[..|gs| - 1]) + |gs[|gs| - 1].1|
  }

  lemma {:induction false} FlattenSize(gs: seq<(string, seq<Occ>)>)
    ensures |Flatten(gs)| == TotalOccs(gs)
    decreases |gs|
  {
    if gs != [] {
      FlattenSize(gs[..|gs| - 1]);
    }
  }

  lemma FlattenStep(gs: seq<(string, seq<Occ>)>, g: nat)
    requires g < |gs|
    ensures Flatten(gs[..g + 1]) == Flatten(gs[..g]) + GroupExamples(gs[g])
  {
    assert gs[..g + 1][..g] == gs[..g];
  }

  lemma {:induction false} FlattenPrefix(gs: seq<(string, seq<Occ>)>, g: nat)
    requires g <= |gs|
    ensures Flatten(gs[..g]) <= Flatten(gs)
    decreases |gs| - g
  {
    if g < |gs| {
      FlattenStep(gs, g);
      FlattenPrefix(gs, g + 1);
    } else {
      assert gs[..g] == gs;
    }
  }

  function Min(a: nat, b: nat): nat {
    if a < b then a else b
  }

  /** The first `n` items of `s`, or all of them. */
  function Take<T>(s: seq<T>, n: nat): seq<T> {
    s[..Min(n, |s|)]
  }

  /** The note after the examples: the number of minority records not shown,
      when there are any. */
  function More(gs: seq<(string, seq<Occ>)>, maxExamples: nat): Option<nat> {
    var total := TotalOccs(gs);
    if total > maxExamples then Some(total - maxExamples) else None
  }

  /** At most `maxExamples` records are shown, and every record not shown is
      counted in the note. */
  lemma MoreCountsRest(gs: seq<(string, seq<Occ>)>, maxExamples: nat)
    ensures |Take(Flatten(gs), maxExamples)| <= maxExamples
    ensures More(gs, maxExamples).Some? <==> |Take(Flatten(gs), maxExamples)| < TotalOccs(gs)
    ensures |Take(Flatten(gs), maxExamples)| + More(gs, maxExamples).GetOr(0) == TotalOccs(gs)
  {
    FlattenSize(gs);
  }

  /** The outer examples loop as written: the note is only considered at the
      start of a label group, once `example_count` has reached the cap. */
  function OuterAsWritten(gs: seq<(string, seq<Occ>)>, g: nat, count: nat, total: nat, maxExamples: nat): Option<nat>
    decreases |gs| - g
  {
    if g >= |gs| then None
    else if count >= maxExamples then (if total > count then Some(total - count) else None)
    else OuterAsWritten(gs, g + 1, count + Min(|gs[g].1|, maxExamples - count), total, maxExamples)
  }

  /** The note as written. */
  function MoreAsWritten(gs: seq<(string, seq<Occ>)>, maxExamples: nat): Option<nat> {
    OuterAsWritten(gs, 0, 0, TotalOccs(gs), maxExamples)
  }

  lemma TotalOccsStep(gs: seq<(string, seq<Occ>)>, g: nat)
    requires g < |gs|
    ensures TotalOccs(gs[..g + 1]) == TotalOccs(gs[..g]) + |gs[g].1|
  {
    assert gs[..g + 1][..g] == gs[..g];
  }

  lemma {:induction false} TotalOccsMono(gs: seq<(string, seq<Occ>)>, g: nat, h: nat)
    requires g <= h <= |gs|
    ensures TotalOccs(gs[..g]) <= TotalOccs(gs[..h])
    decreases h - g
  {
    if g < h {
      TotalOccsStep(gs, g);
      TotalOccsMono(gs, g + 1, h);
    }
  }

  /** From the start of group `g`, with as many examples shown as the cap
      allows, the outer loop writes the note exactly when the groups before
      the last one already reach the cap and some record is left over. */
  lemma {:induction false} OuterAsWrittenIs(gs: seq<(string, seq<Occ>)>, g: nat, count: nat, total: nat, maxExamples: nat)
    requires gs != [] && g <= |gs|
    requires count == Min(maxExamples, TotalOccs(gs[..g]))
    ensures OuterAsWritten(gs, g, count, total, maxExamples) ==
      if g < |gs| && TotalOccs(gs[..|gs| - 1]) >= maxExamples && total > maxExamples
      then Some(total - maxExamples) else None
    decreases |gs| - g
  {
    if g < |gs| {
      if count >= maxExamples {
        TotalOccsMono(gs, g, |gs| - 1);
      } else {
        TotalOccsStep(gs, g);
        OuterAsWrittenIs(gs, g + 1, count + Min(|gs[g].1|, maxExamples - count), total, maxExamples);
      }
    }
  }

  lemma TotalOccsNone(gs: seq<(string, seq<Occ>)>)
    ensures TotalOccs(gs[..0]) == 0
  {
    assert gs[..0] == [];
  }

  /** The note as written, in closed form: it appears exactly when the
      records of all minority labels but the last already reach the cap and
      some record is not shown, and then it counts the records not shown. */
  lemma {:induction false} MoreAsWrittenClosed(gs: seq<(string, seq<Occ>)>, maxExamples: nat)
    ensures MoreAsWritten(gs, maxExamples) ==
      if gs != [] && TotalOccs(gs[..|gs| - 1]) >= maxExamples && TotalOccs(gs) > maxExamples
      then Some(TotalOccs(gs) - maxExamples) else None
  {
    if gs != [] {
      TotalOccsNone(gs);
      var total := TotalOccs(gs);
      OuterAsWrittenIs(gs, 0, 0, total, maxExamples);
      assert MoreAsWritten(gs, maxExamples) == OuterAsWritten(gs, 0, 0, total, maxExamples);
    }
  }

  /** The note as written agrees with `More` when it appears; when the cap
      is reached only inside the last label, records go unshown without a
      note. */
  lemma {:induction false} MoreAsWrittenSpec(gs: seq<(string, seq<Occ>)>, maxExamples: nat)
    ensures MoreAsWritten(gs, maxExamples) ==
      if gs != [] && TotalOccs(gs[..|gs| - 1]) >= maxExamples && TotalOccs(gs) > maxExamples
      then Some(TotalOccs(gs) - maxExamples) else None
    ensures MoreAsWritten(gs, maxExamples).Some? ==> MoreAsWritten(gs, maxExamples) == More(gs, maxExamples)
    ensures MoreAsWritten(gs, maxExamples).None? && More(gs, maxExamples).Some? ==>
      gs != [] && TotalOccs(gs[..|gs| - 1]) < maxExamples
  {
    MoreAsWrittenClosed(gs, maxExamples);
    var m := MoreAsWritten(gs, maxExamples);
    if m.Some? {
      assert m == Some(TotalOccs(gs) - maxExamples);
    }
  }

  /** One minority label with six records and the default cap of five: five
      are shown, and as written the sixth goes unmentioned. */
  lemma RemainderNotReported()
    ensures var o := Occ(1, "x", "x", 0, 1);
            var gs := [("B", [o, o, o, o, o, o])];
            |Take(Flatten(gs), 5)| == 5 && TotalOccs(gs) == 6 &&
            MoreAsWritten(gs, 5) == None && More(gs, 5) == Some(1)
  {
    var o := Occ(1, "x", "x", 0, 1);
    var gs := [("B", [o, o, o, o, o, o])];
    assert gs[..0] == [];
    assert TotalOccs(gs) == 6;
    FlattenSize(gs);
  }

  /** The inner examples loop over the records of one label: one example
      line per record until `example_count` reaches the cap. */
  method ShowGroup(shown0: seq<Example>, exampleCount0: nat, lbl: string, occs: seq<Occ>, maxExamples: nat)
    returns (shown: seq<Example>, exampleCount: nat)
    requires exampleCount0 == |shown0| <= maxExamples
    ensures shown == shown0 + Take(GroupExamples((lbl, occs)), maxExamples - exampleCount0)
    ensures exampleCount == |shown|
  {
    shown, exampleCount := shown0, exampleCount0;
    var j := 0;
    while j < |occs|
      invariant 0 <= j <= |occs|
      invariant exampleCount == |shown| == |shown0| + j <= maxExamples
      invariant shown == shown0 + GroupExamples((lbl, occs))[..j]
    {
      if exampleCount >= maxExamples {
        break;
      }
      shown := shown + [Example(occs[j].lineNum, lbl, Highlight(occs[j]))];
      exampleCount := exampleCount + 1;
      j := j + 1;
    }
  }

  /** After one label group the examples shown are still the first ones of
      all minority records, as many as the cap allows. */
  lemma ShowStep(minority: seq<(string, seq<Occ>)>, g: nat, shown0: seq<Example>, shown: seq<Example>, maxExamples: nat)
    requires g < |minority|
    requires |Flatten(minority[..g])| <= |Flatten(minority)|
    requires |shown0| == Min(maxExamples, |Flatten(minority[..g])|) < maxExamples
    requires shown0 == Flatten(minority)[..|shown0|]
    requires shown == shown0 + Take(GroupExamples(minority[g]), maxExamples - |shown0|)
    ensures |Flatten(minority[..g + 1])| <= |Flatten(minority)|
    ensures |shown| == Min(maxExamples, |Flatten(minority[..g + 1])|)
    ensures shown == Flatten(minority)[..|shown|]
  {
    FlattenStep(minority, g);
    FlattenPrefix(minority, g + 1);
    var all, pre, grp := Flatten(minority), Flatten(minority[..g]), GroupExamples(minority[g]);
    assert pre + grp <= all;
    assert |shown0| == |pre|;
    assert shown0 == pre;
    var n := Min(maxExamples - |shown0|, |grp|);
    assert shown == pre + grp[..n];
    assert pre + grp[..n] == (pre + grp)[..|pre| + n];
  }

  /** The examples loop as written: minority records in label order, at
      most `maxExamples` of them. The note is decided at the head of a label
      group once the cap is reached, so it is the note of `MoreAsWritten`. */
  method ReviewExamples(minority: seq<(string, seq<Occ>)>, maxExamples: nat)
    returns (shown: seq<Example>, more: Option<nat>)
    ensures shown == Take(Flatten(minority), maxExamples)
    ensures more == MoreAsWritten(minority, maxExamples)
  {
    ghost var all := Flatten(minority);
    shown, more := [], None;
    var exampleCount := 0;
    var g := 0;
    assert minority[..0] == [];
    while g < |minority|
      invariant 0 <= g <= |minority|
      invariant exampleCount == |shown| <= maxExamples
      invariant |Flatten(minority[..g])| <= |all|
      invariant |shown| == Min(maxExamples, |Flatten(minority[..g])|)
      invariant shown == all[..|shown|]
      invariant OuterAsWritten(minority, g, exampleCount, TotalOccs(minority), maxExamples) ==
        MoreAsWritten(minority, maxExamples)
    {
      if exampleCount >= maxExamples {
        var remaining := TotalOccs(minority) - exampleCount;
        if remaining > 0 {
          more := Some(remaining);
        }
        return;
      }
      var (lbl, occs) := minority[g];
      ghost var shown0 := shown;
      shown, exampleCount := ShowGroup(shown, exampleCount, lbl, occs, maxExamples);
      ShowStep(minority, g, shown0, shown, maxExamples);
      g := g + 1;
    }
    assert minority[..|minority|] == minority;
  }

  /** What is printed under an entity when examples are on. */
  datatype Review =
    | Unreviewed
    | AllEqual
    | Unusual(examples: seq<Example>, more: Option<nat>, main: seq<string>, maxCount: nat)

  datatype EntityReport = EntityReport(entity: string, labelCounts: seq<(string, nat)>, review: Review)

  /** Each label with its number of records. */
  function GroupCounts(gs: seq<(string, seq<Occ>)>): seq<(string, nat)> {
    seq(|gs|, i requires 0 <= i < |gs| => (gs[i].0, |gs[i].1|))
  }

  function ReviewOf(gs: seq<(string, seq<Occ>)>, showExamples: bool, maxExamples: nat): Review {
    if !showExamples then Unreviewed
    else
      var m := MaxCount(gs);
      var minority := Minority(gs, m);
      if minority == [] then AllEqual
      else Unusual(Take(Flatten(minority), maxExamples), MoreAsWritten(minority, maxExamples), MainLabels(gs, m), m)
  }

  /** With examples on: "all equal" exactly when every label has as many
      records as the most frequent one; otherwise at most `maxExamples`
      minority records are shown, the note appears as `MoreAsWrittenSpec`
      says and then counts the records not shown, and the main labels are
      the most frequent ones, never none. */
  lemma ReviewSpec(gs: seq<(string, seq<Occ>)>, maxExamples: nat)
    requires gs != []
    ensures ReviewOf(gs, false, maxExamples) == Unreviewed
    ensures ReviewOf(gs, true, maxExamples).AllEqual? <==> forall i :: 0 <= i < |gs| ==> |gs[i].1| == MaxCount(gs)
    ensures var r := ReviewOf(gs, true, maxExamples);
      r.Unusual? ==>
        r.maxCount == MaxCount(gs) &&
        |r.examples| <= maxExamples &&
        r.main != [] &&
        (forall l :: l in r.main <==> HasCount(gs, l, r.maxCount)) &&
        (forall g :: g in Minority(gs, r.maxCount) <==> g in gs && |g.1| < r.maxCount)
    ensures var r := ReviewOf(gs, true, maxExamples);
      var mi := Minority(gs, MaxCount(gs));
      r.Unusual? ==>
        mi != [] &&
        r.more == (if TotalOccs(mi[..|mi| - 1]) >= maxExamples && TotalOccs(mi) > maxExamples
                   then Some(TotalOccs(mi) - maxExamples) else None) &&
        (r.more.Some? ==> |r.examples| + r.more.value == TotalOccs(mi))
  {
    ReviewNote(gs, maxExamples);
    var m := MaxCount(gs);
    PartitionSpec(gs, m);
    MainLabelsSpec(gs, m);
    MoreCountsRest(Minority(gs, m), maxExamples);
    var i :| 0 <= i < |gs| && |gs[i].1| == m;
    assert gs[i].0 in MainLabels(gs, m);
  }

  /** The note of an unusual review, as written (see `MoreAsWrittenSpec`). */
  lemma ReviewNote(gs: seq<(string, seq<Occ>)>, maxExamples: nat)
    ensures var r := ReviewOf(gs, true, maxExamples);
      var mi := Minority(gs, MaxCount(gs));
      r.Unusual? ==>
        mi != [] &&
        r.more == (if TotalOccs(mi[..|mi| - 1]) >= maxExamples && TotalOccs(mi) > maxExamples
                   then Some(TotalOccs(mi) - maxExamples) else None) &&
        (r.more.Some? ==> |r.examples| + r.more.value == TotalOccs(mi))
  {
    var mi := Minority(gs, MaxCount(gs));
    MoreCountsRest(mi, maxExamples);
    MoreAsWrittenSpec(mi, maxExamples);
  }

  function EntityReportOf(t: Tally, k: string, showExamples: bool, maxExamples: nat): EntityReport {
    var gs := Groups(t, k);
    EntityReport(k, GroupCounts(gs), ReviewOf(gs, showExamples, maxExamples))
  }

  /** The body of the loop over `inconsistent_entities`. */
  method ReviewEntity(t: Tally, k: string, showExamples: bool, maxExamples: nat) returns (rep: EntityReport)
    ensures rep == EntityReportOf(t, k, showExamples, maxExamples)
  {
    var gs := Groups(t, k);
    var review := Unreviewed;
    if showExamples {
      var m := MaxCount(gs);
      var minority := Minority(gs, m);
      if minority != [] {
        var shown, more := ReviewExamples(minority, maxExamples);
        review := Unusual(shown, more, MainLabels(gs, m), m);
      } else {
        review := AllEqual;
      }
    }
    rep := EntityReport(k, GroupCounts(gs), review);
  }

  function EntityReports(t: Tally, entities: seq<(string, nat)>, showExamples: bool, maxExamples: nat): seq<EntityReport> {
    seq(|entities|, i requires 0 <= i < |entities| => EntityReportOf(t, entities[i].0, showExamples, maxExamples))
  }

  /** The loop over `inconsistent_entities`: one report per entity, in order. */
  method ReportEntities(t: Tally, entities: seq<(string, nat)>, showExamples: bool, maxExamples: nat)
    returns (reports: seq<EntityReport>)
    ensures reports == EntityReports(t, entities, showExamples, maxExamples)
  {
    reports := [];
    for i := 0 to |entities|
      invariant |reports| == i
      invariant forall j :: 0 <= j < i ==> reports[j] == EntityReportOf(t, entities[j].0, showExamples, maxExamples)
    {
      var rep := ReviewEntity(t, entities[i].0, showExamples, maxExamples);
      reports := reports + [rep];
    }
    assert |reports| == |entities|;
  }

  // ---------------------------------------------------------------------------
  // Section 3: label pairs that get confused

  /** `tuple(sorted(label_names))` for two labels. */
  function SortedPair(a: string, b: string): (p: (string, string))
    ensures StrLe(p.0, p.1)
    ensures (p.0 == a && p.1 == b) || (p.0 == b && p.1 == a)
  {
    StrLeTotal(a, b);
    if StrLe(a, b) then (a, b) else (b, a)
  }

  /** The label pair of every entity with exactly two labels, in the order
      of `entities`. */
  function ConflictPairs(t: Tally, entities: seq<(string, nat)>): seq<(string, string)>
    decreases |entities|
  {
    if entities == [] then []
    else
      var ls := LabelsAt(t, entities[|entities| - 1].0);
      ConflictPairs(t, entities[..|entities| - 1]) + if |ls| == 2 then [SortedPair(ls[0], ls[1])] else []
  }

  /** The loop that fills `label_conflicts`. */
  method CountConflicts(t: Tally, entities: seq<(string, nat)>)
    returns (order: seq<(string, string)>, counts: map<(string, string), nat>)
    ensures Counts(ConflictPairs(t, entities), order, counts)
  {
    order, counts := [], map[];
    ghost var pairs: seq<(string, string)> := [];
    for i := 0 to |entities|
      invariant pairs == ConflictPairs(t, entities[..i])
      invariant Counts(pairs, order, counts)
    {
      assert entities[..i + 1][..i] == entities[..i];
      var labelNames := LabelsAt(t, entities[i].0);
      if |labelNames| == 2 {
        var pair := SortedPair(labelNames[0], labelNames[1]);
        BumpStep(pairs, order, counts, pair);
        order, counts := BumpOrder(order, counts, pair), BumpCounts(counts, pair);
        pairs := pairs + [pair];
      }
    }
    assert entities[..|entities|] == entities;
  }

  /** Entity `i` has exactly two labels and `p` is their sorted pair. */
  ghost predicate PairAt(t: Tally, entities: seq<(string, nat)>, i: int, p: (string, string)) {
    0 <= i < |entities| && |LabelsAt(t, entities[i].0)| == 2 &&
    p == SortedPair(LabelsAt(t, entities[i].0)[0], LabelsAt(t, entities[i].0)[1])
  }

  ghost predicate IsPairOf(t: Tally, entities: seq<(string, nat)>, p: (string, string)) {
    exists i :: PairAt(t, entities, i, p)
  }

  /** Only entities with exactly two labels are counted, once each, under
      their two labels in sorted order; so the counts add up to at most the
      number of inconsistent entities. */
  lemma ConflictSpec(t: Tally, entities: seq<(string, nat)>)
    ensures |ConflictPairs(t, entities)| <= |entities|
    ensures SumCounts(Dedup(ConflictPairs(t, entities)), ConflictPairs(t, entities)) == |ConflictPairs(t, entities)|
    ensures forall p :: p in ConflictPairs(t, entities) ==> StrLe(p.0, p.1)
    ensures forall p :: p in ConflictPairs(t, entities) ==> IsPairOf(t, entities, p)
  {
    SumOfCounts(ConflictPairs(t, entities));
    ConflictPairsOrigin(t, entities);
    forall p | p in ConflictPairs(t, entities)
      ensures StrLe(p.0, p.1)
    {
      var i :| PairAt(t, entities, i, p);
    }
  }

  /** Each pair comes from one entity with exactly two labels. */
  lemma {:induction false} ConflictPairsOrigin(t: Tally, entities: seq<(string, nat)>)
    ensures |ConflictPairs(t, entities)| <= |entities|
    ensures forall p :: p in ConflictPairs(t, entities) ==> IsPairOf(t, entities, p)
    decreases |entities|
  {
    if entities != [] {
      var es := entities[..|entities| - 1];
      ConflictPairsOrigin(t, es);
      forall p | p in ConflictPairs(t, entities)
        ensures IsPairOf(t, entities, p)
      {
        if p in ConflictPairs(t, es) {
          var i :| PairAt(t, es, i, p);
          assert entities[i] == es[i];
          assert PairAt(t, entities, i, p);
        } else {
          assert PairAt(t, entities, |entities| - 1, p);
        }
      }
    }
  }

  // ---------------------------------------------------------------------------
  // The whole analysis

  /** The outcome: a failure before any report, or the report. `conflicts`
      is `None` when no entity is inconsistent (the report ends after
      section 2) and otherwise the label pairs with their counts, most
      frequent first. */
  datatype Analysis =
    | Failed(why: Failure)
    | Report(totalLines: nat, totalEntities: nat, distribution: seq<(string, nat)>,
             entities: seq<EntityReport>, conflicts: Option<seq<((string, string), nat)>>)

  function ReportOf(t: Tally, totalLines: nat, showExamples: bool, maxExamples: nat): Analysis {
    var bad := Inconsistent(t);
    Report(totalLines, t.totalEntities, Distribution(t),
           EntityReports(t, bad, showExamples, maxExamples),
           if bad == [] then None else Some(SortDesc(CounterItems(ConflictPairs(t, bad)))))
  }

  /** `analyze_label_consistency`: read, then report. */
  method Analyze(file: Option<seq<Line>>, showExamples: bool, maxExamples: nat) returns (a: Analysis)
    ensures file.None? ==> a == Failed(FileNotFound)
    ensures file.Some? && FirstBad(file.value).Some? ==>
      a == Failed(InvalidJson(ReportedLineAsWritten(FirstBad(file.value).value)))
    ensures file.Some? && FirstBad(file.value).None? ==>
      a == ReportOf(TallyOf(Mentions(file.value)), |file.value|, showExamples, maxExamples)
  {
    var r, totalLines := ReadLines(file);
    if r.Err? {
      return Failed(r.error);
    }
    var t := r.value;
    var distribution := SortDesc(Items(t.labelOrder, t.labelCounts));
    var inconsistent := CollectInconsistent(t);
    if inconsistent == [] {
      return Report(totalLines, t.totalEntities, distribution, [], None);
    }
    inconsistent := SortDesc(inconsistent);
    var reports := ReportEntities(t, inconsistent, showExamples, maxExamples);
    var order, counts := CountConflicts(t, inconsistent);
    ItemsOfCounts(ConflictPairs(t, inconsistent), order, counts);
    a := Report(totalLines, t.totalEntities, distribution, reports, Some(SortDesc(Items(order, counts))));
  }
}
