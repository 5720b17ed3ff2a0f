/** The prompt-to-image page: its style templates and required fields, the
    placeholder scan, the required-field check, the prompt builder, the
    folding of raw NER spans into a field map, the normalisation of the
    image answer, and the guard in front of the image request. */
module PromptToImage {
  import opened Wrappers
  import opened Strings
  import opened Sequences
  import opened Placeholders
  import BatchImages

  // ---------------------------------------------------------------------------
  // Templates

  /** A template cut at its placeholders: literal text, or a `[name]`. */
  datatype Segment = Text(s: string) | Hole(name: string)

  /** The template text the segments spell out. */
  function Assemble(segs: seq<Segment>): string {
    if segs == [] then []
    else SegmentText(segs[0]) + Assemble(segs[1..])
  }

  function SegmentText(g: Segment): string {
    match g
    case Text(s) => s
    case Hole(n) => Bracket(n)
  }

  lemma {:induction false} AssembleAppend(a: seq<Segment>, b: seq<Segment>)
    ensures Assemble(a + b) == Assemble(a) + Assemble(b)
    decreases |a|
  {
    if a != [] {
      assert (a + b)[1..] == a[1..] + b;
      AssembleAppend(a[1..], b);
    } else {
      assert a + b == b;
    }
  }

  lemma AssembleSplit(segs: seq<Segment>, k: nat)
    requires k < |segs|
    ensures Assemble(segs) == Assemble(segs[..k]) + (SegmentText(segs[k]) + Assemble(segs[k + 1..]))
  {
    assert segs == segs[..k] + segs[k..];
    AssembleAppend(segs[..k], segs[k..]);
    assert segs[k..][1..] == segs[k + 1..];
  }

  lemma OccursBetween(a: string, b: string, c: string)
    ensures OccursAt(a + (b + c), b, |a|)
  {
    assert (a + (b + c))[|a|..|a| + |b|] == b;
  }

  /** The `k`-th segment, when it is a placeholder, occurs in the assembled
      text right after the segments before it. */
  lemma HoleOccurs(segs: seq<Segment>, k: nat)
    requires k < |segs| && segs[k].Hole?
    ensures OccursAt(Assemble(segs), Bracket(segs[k].name), |Assemble(segs[..k])|)
  {
    AssembleSplit(segs, k);
    OccursBetween(Assemble(segs[..k]), SegmentText(segs[k]), Assemble(segs[k + 1..]));
  }

  /** A placeholder segment with a well-formed name is found by the scan. */
  lemma HoleScanned(segs: seq<Segment>, k: nat)
    requires k < |segs| && segs[k].Hole? && IsName(segs[k].name)
    ensures segs[k].name in Scan(Assemble(segs))
  {
    HoleOccurs(segs, k);
    ScanComplete(Assemble(segs), segs[k].name, |Assemble(segs[..k])|);
  }

  const PortraitSegments: seq<Segment> := [
    Text("A historically accurate portrait of "), Hole("person"), Text(" from the "),
    Hole("dynasty"), Text(" dynasty ("), Hole("time"), Text(").\nAttire: "), Hole("costume"),
    Text(", accessories if any: "), Hole("artifact"), Text(". Title(s): "), Hole("title"),
    Text(". Organization: "), Hole("organization"), Text(". Setting hints: "), Hole("architecture"),
    Text(", "), Hole("location"), Text(", with symbolic flora/fauna: "), Hole("flora_fauna"),
    Text(".\nDepict key traits: "), Hole("concept"),
    Text(".\nStyle: Vietnamese feudal history, museum-grade realism, mid-shot, natural lighting.\nAvoid anachronisms. No modern objects.\n")]

  const BattleSegments: seq<Segment> := [
    Text("A realistic, historically grounded battle scene of "), Hole("event"), Text(" ("),
    Hole("time"), Text(") led by "), Hole("person"), Text(" ("), Hole("title"),
    Text(") belonging to "), Hole("organization"), Text(".\nArmor/garments: "), Hole("costume"),
    Text(". Battlefield: "), Hole("location"), Text(", with weapons/artifacts: "), Hole("artifact"),
    Text(", environment includes "), Hole("flora_fauna"), Text(".\nMain actions: "), Hole("action"),
    Text(".\nCinematic lighting, dynamic composition, Vietnamese feudal realism, no modern elements.\n")]

  const ArchitectureSegments: seq<Segment> := [
    Text("A detailed depiction of "), Hole("architecture"), Text(" from the "), Hole("dynasty"),
    Text(" dynasty ("), Hole("time"), Text(") in "), Hole("location"),
    Text(".\nInclude related artifacts: "), Hole("artifact"), Text(", cultural motifs, flora/fauna: "),
    Hole("flora_fauna"),
    Text(".\nEmphasize proportions, materials, roof curvature, ornament patterns.\nStyle: Vietnamese feudal history, documentary realism, no modern objects.\n")]

  /** The keys of `PROMPT_TEMPLATES`, which is also the type of `style`. */
  datatype Style = Portrait | Battle | Architecture

  function Segments(style: Style): seq<Segment> {
    match style
    case Portrait => PortraitSegments
    case Battle => BattleSegments
    case Architecture => ArchitectureSegments
  }

  /** `PROMPT_TEMPLATES[style]`. */
  function PromptTemplate(style: Style): string {
    Assemble(Segments(style))
  }

  /** `REQUIRED_FIELDS[style]`. */
  function RequiredFields(style: Style): seq<string> {
    match style
    case Portrait => ["person", "dynasty", "time", "costume"]
    case Battle => ["event", "time", "person", "title", "organization", "costume", "location", "action"]
    case Architecture => ["architecture", "dynasty", "time", "location"]
  }

  /** Where the `j`-th required field of a style sits among the segments. */
  function RequiredSegment(style: Style, j: nat): nat {
    match style
    case Battle => if j < 7 then 2 * j + 1 else 19
    case _ => 2 * j + 1
  }

  /** Every required field of a style is a placeholder of its template, so
      the form always shows an input for it. */
  lemma RequiredIsPlaceholder(style: Style, j: nat)
    requires j < |RequiredFields(style)|
    ensures RequiredFields(style)[j] in Scan(PromptTemplate(style))
  {
    RequiredIsName(style, j);
    RequiredIsHole(style, j);
    HoleScanned(Segments(style), RequiredSegment(style, j));
  }

  lemma RequiredIsName(style: Style, j: nat)
    requires j < |RequiredFields(style)|
    ensures IsName(RequiredFields(style)[j])
  {
    var n := RequiredFields(style)[j];
    if n in ["person", "dynasty", "time", "costume", "event"] {
      AreNames1(n);
    } else {
      AreNames2(n);
    }
  }

  lemma AreNames1(n: string)
    requires n in ["person", "dynasty", "time", "costume", "event"]
    ensures IsName(n)
  {
  }

  lemma AreNames2(n: string)
    requires n in ["title", "organization", "location", "action", "architecture"]
    ensures IsName(n)
  {
  }

  lemma RequiredIsHole(style: Style, j: nat)
    requires j < |RequiredFields(style)|
    ensures RequiredSegment(style, j) < |Segments(style)|
    ensures Segments(style)[RequiredSegment(style, j)] == Hole(RequiredFields(style)[j])
  {
    match style
    case Portrait => PortraitHoles(j);
    case Battle => BattleHoles(j);
    case Architecture => ArchitectureHoles(j);
  }

  lemma PortraitHoles(j: nat)
    requires j < 4
    ensures PortraitSegments[2 * j + 1] == Hole(RequiredFields(Portrait)[j])
  {
  }

  lemma BattleHoles(j: nat)
    requires j < 8
    ensures BattleSegments[if j < 7 then 2 * j + 1 else 19] == Hole(RequiredFields(Battle)[j])
  {
  }

  lemma ArchitectureHoles(j: nat)
    requires j < 4
    ensures ArchitectureSegments[2 * j + 1] == Hole(RequiredFields(Architecture)[j])
  {
  }

  // ---------------------------------------------------------------------------
  // `extractPlaceholders`

  /** `extractPlaceholders`: `PLACEHOLDER_REGEX.exec` walks the template left
      to right, and every name it matches is added to a `Set`, which
      `Array.from` reads back in insertion order. */
  method ExtractPlaceholders(template: string) returns (fields: seq<string>)
    ensures fields == Dedup(Scan(template))
  {
    fields := [];
    var i := 0;
    ExtractStart(template);
    while i < |template|
      invariant 0 <= i <= |template|
      invariant AddNew(fields, Scan(template[i..])) == Dedup(Scan(template))
      decreases |template| - i
    {
      var t := TokenAt(template[i..]);
      ghost var i0, fields0 := i, fields;
      if t.Some? {
        var m := t.value;
        if m !in fields {
          fields := fields + [m];
        }
        i := i + |m| + 2;
      } else {
        i := i + 1;
      }
      ExtractStep(template, i0, fields0, i, fields);
    }
    assert template[i..] == [] && Parse([]) == [];
  }

  /** Before the first match, the set is empty and the whole template is
      still to be scanned. */
  lemma ExtractStart(template: string)
    ensures AddNew([], Scan(template[0..])) == Dedup(Scan(template))
  {
    assert template[0..] == template;
    AddNewIsDedup([], Scan(template));
    assert Dedup<string>([]) == [] && [] + Scan(template) == Scan(template);
  }

  /** One match of `exec` added to the set, or one character skipped. */
  lemma ExtractStep(template: string, i: nat, fields: seq<string>, i': nat, fields': seq<string>)
    requires i < |template|
    requires var t := TokenAt(template[i..]);
      if t.Some? then
        i' == i + |t.value| + 2 && fields' == if t.value in fields then fields else fields + [t.value]
      else i' == i + 1 && fields' == fields
    ensures i' <= |template|
    ensures AddNew(fields', Scan(template[i'..])) == AddNew(fields, Scan(template[i..]))
  {
    var rest := template[i..];
    ScanStep(rest);
    assert rest[i' - i..] == template[i'..];
    var t := TokenAt(rest);
    if t.Some? {
      AddNewCons(fields, t.value, Scan(template[i'..]));
    }
  }

  lemma AddNewCons(acc: seq<string>, m: string, rest: seq<string>)
    ensures AddNew(acc, [m] + rest) == AddNew(if m in acc then acc else acc + [m], rest)
  {
    assert ([m] + rest)[1..] == rest;
  }

  /** `set.add` for every element of `rest` in turn, on a set read back in
      insertion order. */
  function AddNew(acc: seq<string>, rest: seq<string>): seq<string>
    decreases |rest|
  {
    if rest == [] then acc
    else AddNew(if rest[0] in acc then acc else acc + [rest[0]], rest[1..])
  }

  lemma {:induction false} AddNewIsDedup(p: seq<string>, rest: seq<string>)
    ensures AddNew(Dedup(p), rest) == Dedup(p + rest)
    decreases |rest|
  {
    if rest == [] {
      assert p + rest == p;
    } else {
      var q := p + [rest[0]];
      AddNewIsDedup(q, rest[1..]);
      assert q + rest[1..] == p + rest;
      DedupSnoc(p, rest[0]);
    }
  }

  /** The placeholders are distinct, are exactly the names `n` for which
      `[n]` occurs in the template, and come in order of first occurrence. */
  lemma PlaceholdersShape(template: string)
    ensures Distinct(Dedup(Scan(template)))
    ensures forall n :: n in Dedup(Scan(template)) <==> IsName(n) && exists k :: OccursAt(template, Bracket(n), k)
    ensures forall i, j :: 0 <= i < j < |Dedup(Scan(template))| ==>
      FirstIndex(Scan(template), Dedup(Scan(template))[i]) < FirstIndex(Scan(template), Dedup(Scan(template))[j])
  {
    ScanIffAll(template);
    forall i, j | 0 <= i < j < |Dedup(Scan(template))|
      ensures FirstIndex(Scan(template), Dedup(Scan(template))[i]) < FirstIndex(Scan(template), Dedup(Scan(template))[j])
    {
      DedupFirstOrder(Scan(template), i, j);
    }
  }

  // ---------------------------------------------------------------------------
  // `missingRequired`

  /** `!vals[k] || !vals[k].trim()`: absent, empty or only whitespace. */
  predicate Blank(vals: map<string, string>, k: string) {
    k !in vals || JsTrim(vals[k]) == ""
  }

  /** `REQUIRED_FIELDS[style].filter(...)`: the blank required fields. A
      field is reported exactly when it is required and blank; a value made
      only of whitespace is blank here, unlike in the batch renderer. */
  function MissingRequired(required: seq<string>, vals: map<string, string>): (r: seq<string>)
    ensures forall k :: k in r <==> k in required && Blank(vals, k)
  {
    if required == [] then []
    else
      var p := required[..|required| - 1];
      var k := required[|required| - 1];
      assert required == p + [k];
      MissingRequired(p, vals) + (if Blank(vals, k) then [k] else [])
  }

  /** The missing fields keep their declared order. */
  lemma {:induction false} MissingInOrder(required: seq<string>, vals: map<string, string>, i: nat, j: nat)
    requires Distinct(required)
    requires i < j < |MissingRequired(required, vals)|
    ensures FirstIndex(required, MissingRequired(required, vals)[i]) < FirstIndex(required, MissingRequired(required, vals)[j])
    decreases |required|
  {
    var p := required[..|required| - 1];
    var last := required[|required| - 1];
    var r := MissingRequired(required, vals);
    var rp := MissingRequired(p, vals);
    assert required == p + [last];
    assert Distinct(p);
    assert r[i] == rp[i] && r[i] in p;
    FirstIndexExtend(p, [last], r[i]);
    if j < |rp| {
      MissingInOrder(p, vals, i, j);
      FirstIndexExtend(p, [last], r[j]);
    } else {
      assert r[j] == last;
      assert FirstIndex(required, last) == |p|;
    }
  }

  // ---------------------------------------------------------------------------
  // `buildPromptFromValues`

  /** `(vals[f] || "").trim()`, or the placeholder itself when that is empty. */
  function Replacement(vals: map<string, string>, f: string): string {
    var v := JsTrim(if f in vals then vals[f] else "");
    if v != "" then v else Bracket(f)
  }

  /** The value each placeholder is replaced with. */
  function Replacements(vals: map<string, string>, order: seq<string>): map<string, string> {
    map f | f in order :: Replacement(vals, f)
  }

  function Language(vietnamese: bool): string {
    if vietnamese then "Language: Vietnamese." else "Language: English."
  }

  /** The prompt for a filled template: the notes line when the notes are
      not blank, the language line, all trimmed. */
  function FinishPrompt(body: string, notes: string, vietnamese: bool): string {
    var withNotes := if JsTrim(notes) != "" then body + "\nAdditional notes: " + JsTrim(notes) + "\n" else body;
    JsTrim(withNotes + "\n" + Language(vietnamese) + "\n")
  }

  /** The page's loop `out = out.replaceAll("[h]", value(h))` for every
      name in turn, with JavaScript's replacement patterns. */
  function JsReplaceSeq(s: string, order: seq<string>, F: map<string, string>): string
    decreases |order|
  {
    if order == [] then s
    else JsReplaceSeq(JsReplaceAll(s, Bracket(order[0]), Lookup(F, order[0])), order[1..], F)
  }

  /** One more round of the page's loop. */
  lemma {:induction false} JsReplaceSeqSnoc(s: string, order: seq<string>, h: string, F: map<string, string>)
    ensures JsReplaceSeq(s, order + [h], F) == JsReplaceAll(JsReplaceSeq(s, order, F), Bracket(h), Lookup(F, h))
    decreases |order|
  {
    if order != [] {
      assert (order + [h])[1..] == order[1..] + [h];
      JsReplaceSeqSnoc(JsReplaceAll(s, Bracket(order[0]), Lookup(F, order[0])), order[1..], h, F);
    }
  }

  /** When no value has a `$`, the page's loop is the literal loop of
      `ReplaceSeq`. */
  lemma {:induction false} JsReplaceSeqLiteral(s: string, order: seq<string>, F: map<string, string>)
    requires forall h :: h in order ==> '$' !in Lookup(F, h)
    ensures JsReplaceSeq(s, order, F) == ReplaceSeq(s, order, F)
    decreases |order|
  {
    if order != [] {
      JsReplaceLiteral(s, Bracket(order[0]), Lookup(F, order[0]));
      JsReplaceSeqLiteral(ReplaceAll(s, Bracket(order[0]), Lookup(F, order[0])), order[1..], F);
    }
  }

  /** A form value "$&" for `[person]` puts the token back: the page's
      prompt keeps "[person]" where a literal replacement would insert
      "$&". */
  lemma DollarValueKeepsToken()
    ensures JsReplaceSeq("[person]", ["person"], map["person" := "$&"]) == "[person]"
    ensures ReplaceSeq("[person]", ["person"], map["person" := "$&"]) == "$&"
  {
    var t := "[person]";
    assert Bracket("person") == t;
    assert Lookup(map["person" := "$&"], "person") == "$&";
    assert t[8..] == [];
    assert JsReplaceFrom(t, 8, t, "$&") == [];
    assert Expand("$&"[2..], t, [], []) == [];
    assert Expand("$&", t, t[..0], t[8..]) == t;
    assert JsReplaceAll(t, t, "$&") == t;
    assert ReplaceAll(t[8..], t, "$&") == [];
    assert ReplaceAll(t, t, "$&") == "$&";
  }

  /** `buildPromptFromValues`: `out.replaceAll` for every placeholder in
      turn, then the notes and language lines. */
  method BuildPromptFromValues(template: string, placeholders: seq<string>, vals: map<string, string>,
                               notes: string, vietnamese: bool) returns (p: string)
    ensures p == FinishPrompt(JsReplaceSeq(template, placeholders, Replacements(vals, placeholders)), notes, vietnamese)
  {
    var out := template;
    var i := 0;
    while i < |placeholders|
      invariant 0 <= i <= |placeholders|
      invariant out == JsReplaceSeq(template, placeholders[..i], Replacements(vals, placeholders))
    {
      var f := placeholders[i];
      var v := JsTrim(if f in vals then vals[f] else "");
      ReplaceNext(template, placeholders, vals, i);
      out := JsReplaceAll(out, Bracket(f), if v != "" then v else Bracket(f));
      i := i + 1;
    }
    assert placeholders[..i] == placeholders;
    if JsTrim(notes) != "" {
      out := out + "\nAdditional notes: " + JsTrim(notes) + "\n";
    }
    out := out + "\n" + Language(vietnamese) + "\n";
    p := JsTrim(out);
  }

  /** One round of the replacement loop. */
  lemma ReplaceNext(template: string, placeholders: seq<string>, vals: map<string, string>, i: nat)
    requires i < |placeholders|
    ensures JsReplaceSeq(template, placeholders[..i + 1], Replacements(vals, placeholders))
         == JsReplaceAll(JsReplaceSeq(template, placeholders[..i], Replacements(vals, placeholders)),
                         Bracket(placeholders[i]), Replacement(vals, placeholders[i]))
  {
    var F := Replacements(vals, placeholders);
    var h := placeholders[i];
    assert placeholders[..i + 1] == placeholders[..i] + [h];
    JsReplaceSeqSnoc(template, placeholders[..i], h, F);
    LookupReplacement(vals, placeholders, h);
  }

  lemma LookupReplacement(vals: map<string, string>, placeholders: seq<string>, h: string)
    requires h in placeholders
    ensures Lookup(Replacements(vals, placeholders), h) == Replacement(vals, h)
  {
  }

  /** The built prompt always ends with the language line the flag picks. */
  lemma PromptEndsWithLanguage(body: string, notes: string, vietnamese: bool)
    ensures EndsWith(FinishPrompt(body, notes, vietnamese), Language(vietnamese))
  {
    var w := Language(vietnamese);
    assert !IsSpace(w[0], Js) && !IsSpace(w[|w| - 1], Js);
    assert AllSpace("\n", Js);
    var withNotes := if JsTrim(notes) != "" then body + "\nAdditional notes: " + JsTrim(notes) + "\n" else body;
    StripEndsWith(withNotes + "\n", w, "\n", Js);
  }

  /** The placeholders that receive a value: those whose trimmed value is
      not blank (and is not the placeholder itself). */
  function Filled(vals: map<string, string>, placeholders: seq<string>): set<string> {
    Effective(placeholders, Replacements(vals, placeholders))
  }

  /** A placeholder token has no `$`. */
  lemma BracketNoDollar(n: string)
    requires IsName(n)
    ensures '$' !in Bracket(n)
  {
  }

  /** For a template whose every `[` opens a placeholder and values without
      `[` or `$`, the loop is the simultaneous substitution of the filled
      placeholders, whatever the order; the tokens left in the text are
      exactly those of the placeholders whose value is blank. */
  lemma BuildIsSubstitution(template: string, vals: map<string, string>, n: string)
    requires NoStrayBracket(template)
    requires forall f :: f in vals ==> '[' !in JsTrim(vals[f]) && '$' !in JsTrim(vals[f])
    ensures var ps := Dedup(Scan(template));
      JsReplaceSeq(template, ps, Replacements(vals, ps))
        == Flatten(Subst(Parse(template), Filled(vals, ps), Replacements(vals, ps)))
    ensures var ps := Dedup(Scan(template));
      n in Scan(JsReplaceSeq(template, ps, Replacements(vals, ps))) <==>
        n in Scan(template) && Blank(vals, n)
  {
    var ps := Dedup(Scan(template));
    var F := Replacements(vals, ps);
    ScanIffAll(template);
    assert SafeValues(ps, F);
    forall h | h in ps
      ensures '$' !in Lookup(F, h)
    {
      BracketNoDollar(h);
    }
    JsReplaceSeqLiteral(template, ps, F);
    ReplaceSeqOrderFree(template, ps, F);
    var H := Filled(vals, ps);
    assert forall h :: h in H ==> '[' !in Lookup(F, h);
    ScanAfterSubst(template, H, F, n);
    if n in Scan(template) {
      assert n in ps;
      if !Blank(vals, n) {
        assert Lookup(F, n) == JsTrim(vals[n]);
        assert Bracket(n)[0] == '[';
        assert n in H;
      }
    }
  }

  // ---------------------------------------------------------------------------
  // `callNERAPI`

  /** One element of `data.spans`: `String(sp.label || "")`,
      `String(sp.text || "")`, and the score when it is a number. */
  datatype RawSpan = RawSpan(lbl: string, text: string, score: Option<real>)

  /** `!fields[label] || text.length > fields[label].length`. */
  predicate Replaces(fields: map<string, string>, l: string, text: string) {
    l !in fields || fields[l] == "" || |text| > |fields[l]|
  }

  /** The fold as written: a span without a numeric score replaces the text
      but leaves the previous span's score in place. */
  function FoldAsWritten(spans: seq<RawSpan>): (map<string, string>, map<string, real>) {
    if spans == [] then (map[], map[])
    else
      var (fields, scores) := FoldAsWritten(spans[..|spans| - 1]);
      var sp := spans[|spans| - 1];
      var l := Lower(sp.lbl);
      if Replaces(fields, l, sp.text) then
        (fields[l := sp.text], if sp.score.Some? then scores[l := sp.score.value] else scores)
      else (fields, scores)
  }

  /** The fold as written keeps the texts of the corrected fold, and every
      score the corrected fold reports; the two agree outright when every
      span has a score. */
  lemma {:induction false} FoldAsWrittenAgrees(spans: seq<RawSpan>)
    ensures FoldAsWritten(spans).0 == Fold(spans).0
    ensures forall l :: l in Fold(spans).1 ==> l in FoldAsWritten(spans).1 && FoldAsWritten(spans).1[l] == Fold(spans).1[l]
    ensures (forall i :: 0 <= i < |spans| ==> spans[i].score.Some?) ==> FoldAsWritten(spans).1 == Fold(spans).1
    decreases |spans|
  {
    if spans != [] {
      var p := spans[..|spans| - 1];
      FoldAsWrittenAgrees(p);
      assert forall i :: 0 <= i < |p| ==> p[i] == spans[i];
    }
  }

  /** The span the fold keeps for each label. */
  function Chosen(spans: seq<RawSpan>): map<string, RawSpan> {
    if spans == [] then map[]
    else
      var c := Chosen(spans[..|spans| - 1]);
      var sp := spans[|spans| - 1];
      var l := Lower(sp.lbl);
      if Replaces(TextsOf(c), l, sp.text) then c[l := sp] else c
  }

  function TextsOf(c: map<string, RawSpan>): map<string, string> {
    map l | l in c :: c[l].text
  }

  /** The fold with the score kept in step with the text: a replacing span
      without a score removes the old one. */
  function Fold(spans: seq<RawSpan>): (map<string, string>, map<string, real>) {
    if spans == [] then (map[], map[])
    else
      var (fields, scores) := Fold(spans[..|spans| - 1]);
      var sp := spans[|spans| - 1];
      var l := Lower(sp.lbl);
      if Replaces(fields, l, sp.text) then
        (fields[l := sp.text], if sp.score.Some? then scores[l := sp.score.value] else scores - {l})
      else (fields, scores)
  }

  /** The corrected fold reports, per label, the text of the kept span and
      that same span's score, or no score when it has none. */
  lemma {:induction false} FoldIsChosen(spans: seq<RawSpan>)
    ensures Fold(spans).0 == TextsOf(Chosen(spans))
    ensures Fold(spans).1 == ScoresOf(Chosen(spans))
    decreases |spans|
  {
    if spans != [] {
      FoldIsChosen(spans[..|spans| - 1]);
      var c := Chosen(spans[..|spans| - 1]);
      var sp := spans[|spans| - 1];
      var l := Lower(sp.lbl);
      if Replaces(TextsOf(c), l, sp.text) {
        ChooseUpdates(c, l, sp);
      }
    }
  }

  /** The scores of the kept spans that have one. */
  function ScoresOf(c: map<string, RawSpan>): map<string, real> {
    map l | l in c && c[l].score.Some? :: c[l].score.value
  }

  lemma ChooseUpdates(c: map<string, RawSpan>, l: string, sp: RawSpan)
    ensures TextsOf(c[l := sp]) == TextsOf(c)[l := sp.text]
    ensures ScoresOf(c[l := sp]) == if sp.score.Some? then ScoresOf(c)[l := sp.score.value] else ScoresOf(c) - {l}
  {
  }

  /** The texts of the spans whose lower-cased label is `l`, in order. */
  function TextsFor(spans: seq<RawSpan>, l: string): seq<string> {
    if spans == [] then []
    else
      var sp := spans[|spans| - 1];
      TextsFor(spans[..|spans| - 1], l) + (if Lower(sp.lbl) == l then [sp.text] else [])
  }

  /** Every label seen gets an entry, and its text is the first longest text
      among that label's spans: the same choice as `max(..., key=len)` in
      the batch field resolver. A longer span needs a strictly longer text,
      so equal lengths keep the earlier span. */
  lemma {:induction false} FoldIsLongest(spans: seq<RawSpan>, l: string)
    ensures l in Fold(spans).0 <==> TextsFor(spans, l) != []
    ensures l in Fold(spans).0 ==> Fold(spans).0[l] == Longest(TextsFor(spans, l))
    decreases |spans|
  {
    if spans != [] {
      var p := spans[..|spans| - 1];
      var sp := spans[|spans| - 1];
      FoldIsLongest(p, l);
      var ts := TextsFor(p, l);
      var fields := Fold(p).0;
      if Lower(sp.lbl) != l {
        assert TextsFor(spans, l) == ts + [] == ts;
        assert Fold(spans).0 == if Replaces(fields, Lower(sp.lbl), sp.text) then fields[Lower(sp.lbl) := sp.text] else fields;
      } else if ts == [] {
        assert TextsFor(spans, l) == [sp.text];
        assert Fold(spans).0 == fields[l := sp.text];
      } else {
        LongestSnoc(ts, sp.text);
      }
    }
  }

  /** The fold's step for one label: a strictly longer text, or any text
      over an empty one, replaces the current longest. */
  lemma LongestSnoc(ts: seq<string>, x: string)
    requires ts != []
    ensures Longest(ts + [x]) == if Longest(ts) == "" || |x| > |Longest(ts)| then x else Longest(ts)
  {
    var all := ts + [x];
    assert all[..|all| - 1] == ts;
  }

  /** A label with two spans of lengths 1 and 2, where only the first has a
      score, ends with the second span's text and the first span's score. */
  lemma StaleScore()
    ensures var spans := [RawSpan("PERSON", "a", Some(0.9)), RawSpan("PERSON", "ab", None)];
      FoldAsWritten(spans) == (map["person" := "ab"], map["person" := 0.9]) &&
      Fold(spans) == (map["person" := "ab"], map[])
  {
    var s1 := RawSpan("PERSON", "a", Some(0.9));
    var s2 := RawSpan("PERSON", "ab", None);
    var spans := [s1, s2];
    assert Lower("PERSON") == "person";
    assert spans[..1] == [s1] && [s1][..0] == [];
    assert FoldAsWritten([s1][..0]) == (map[], map[]);
    assert [s1][|[s1]| - 1] == s1;
    var w1 := FoldAsWritten([s1]);
    assert w1 == (map[]["person" := "a"], map[]["person" := 0.9]);
    assert w1 == (map["person" := "a"], map["person" := 0.9]);
    assert Replaces(w1.0, "person", "ab");
    assert FoldAsWritten(spans) == (w1.0["person" := "ab"], w1.1);
    assert w1.0["person" := "ab"] == map["person" := "ab"];
    assert Fold([s1][..0]) == (map[], map[]);
    var f1 := Fold([s1]);
    assert f1 == (map[]["person" := "a"], map[]["person" := 0.9]);
    assert f1 == (map["person" := "a"], map["person" := 0.9]);
    assert Fold(spans) == (f1.0["person" := "ab"], f1.1 - {"person"});
    assert f1.0["person" := "ab"] == map["person" := "ab"];
    assert map["person" := 0.9] - {"person"} == map[];
  }

  /** What `/ner` sent back: a `fields` object (with `scores` or not), a
      `spans` array, or neither. */
  datatype NerReply =
    | FieldsReply(fields: map<string, string>, scores: Option<map<string, real>>)
    | SpansReply(spans: seq<RawSpan>)
    | EmptyReply

  /** The span loop of `callNERAPI`, as written: a replacing span sets the
      score only when it has one. Its texts are those of the corrected fold
      and its scores agree with it wherever that fold has one
      (`FoldAsWrittenAgrees`). */
  method FoldSpans(spans: seq<RawSpan>) returns (fields: map<string, string>, scores: map<string, real>)
    ensures (fields, scores) == FoldAsWritten(spans)
  {
    fields, scores := map[], map[];
    var i := 0;
    while i < |spans|
      invariant 0 <= i <= |spans|
      invariant (fields, scores) == FoldAsWritten(spans[..i])
    {
      var sp := spans[i];
      var l := Lower(sp.lbl);
      assert spans[..i + 1][..i] == spans[..i];
      if l !in fields || fields[l] == "" || |sp.text| > |fields[l]| {
        fields := fields[l := sp.text];
        if sp.score.Some? {
          scores := scores[l := sp.score.value];
        }
      }
      i := i + 1;
    }
    assert spans[..i] == spans;
  }

  /** `callNERAPI` after the HTTP call: the server's own field map, the
      folded spans, or nothing. */
  method CallNer(reply: NerReply) returns (fields: map<string, string>, scores: map<string, real>)
    ensures reply.FieldsReply? ==> fields == reply.fields && scores == reply.scores.GetOr(map[])
    ensures reply.SpansReply? ==> (fields, scores) == FoldAsWritten(reply.spans)
    ensures reply.EmptyReply? ==> fields == map[] && scores == map[]
  {
    match reply
    case FieldsReply(f, s) =>
      return f, s.GetOr(map[]);
    case SpansReply(spans) =>
      fields, scores := FoldSpans(spans);
    case EmptyReply =>
      return map[], map[];
  }

  // ---------------------------------------------------------------------------
  // `callImageAPI`

  /** The `/generate` answer fields the page reads; `images` is `None` when
      it is not an array. */
  datatype GenerateReply = GenerateReply(imageBase64: Option<string>, images: Option<seq<string>>,
                                         imageUrl: Option<string>, url: Option<string>)

  predicate Truthy(v: Option<string>) { v.Some? && v.value != "" }

  /** `data.image_base64 || (Array.isArray(data.images) ? data.images[0] : null)`. */
  function Base64Of(r: GenerateReply): Option<string> {
    if Truthy(r.imageBase64) then r.imageBase64
    else if r.images.Some? && r.images.value != [] then Some(r.images.value[0])
    else None
  }

  /** `data.image_url || data.url`. */
  function UrlOf(r: GenerateReply): Option<string> {
    if Truthy(r.imageUrl) then r.imageUrl else r.url
  }

  datatype NoImage = NoImage   // "Phản hồi /generate không có ảnh."

  /** What `callImageAPI` returns for an answer, or its error. */
  function ImageSource(r: GenerateReply): Result<string, NoImage> {
    var b64 := Base64Of(r);
    if Truthy(b64) then
      Ok(if StartsWith(b64.value, "data:image") then b64.value else "data:image/png;base64," + b64.value)
    else if Truthy(UrlOf(r)) then Ok(UrlOf(r).value)
    else Err(NoImage)
  }

  /** The base64 field wins over the `images` list and both over the URLs;
      a `data:image` value is passed through and any other is wrapped as
      PNG; with neither a picture nor a URL the call fails. */
  lemma ImageSourceCases(r: GenerateReply)
    ensures Truthy(r.imageBase64) && StartsWith(r.imageBase64.value, "data:image") ==>
      ImageSource(r) == Ok(r.imageBase64.value)
    ensures Truthy(r.imageBase64) && !StartsWith(r.imageBase64.value, "data:image") ==>
      ImageSource(r) == Ok("data:image/png;base64," + r.imageBase64.value)
    ensures !Truthy(r.imageBase64) && r.images.Some? && r.images.value != [] && r.images.value[0] != "" ==>
      ImageSource(r).Ok? && EndsWith(ImageSource(r).value, r.images.value[0])
    ensures ImageSource(r).Err? <==> !Truthy(Base64Of(r)) && !Truthy(UrlOf(r))
  {
    var b := Base64Of(r);
    if Truthy(b) && !StartsWith(b.value, "data:image") {
      var out := "data:image/png;base64," + b.value;
      assert out[|out| - |b.value|..] == b.value;
    }
  }

  /** A bare base64 payload without commas is wrapped into a data URI that
      the batch script's parser reads back as a base64 PNG with that
      payload. */
  lemma WrappedParses(r: GenerateReply)
    requires Truthy(Base64Of(r)) && ',' !in Base64Of(r).value && !StartsWith(Base64Of(r).value, "data:image")
    ensures BatchImages.ParseDataUri(ImageSource(r).value) == Ok(BatchImages.DataUri("image/png", true, Base64Of(r).value))
  {
    var b := Base64Of(r).value;
    assert ImageSource(r).value == "data:image/png;base64," + b;
    assert "data:" + "image/png" + ";base64," == "data:image/png;base64,";
    assert ',' !in "image/png" && ';' !in "image/png";
    BatchImages.ParseBase64Uri("image/png", b);
    assert "data:" + "image/png" + ";base64," + b == "data:image/png;base64," + b;
  }

  // ---------------------------------------------------------------------------
  // `handleGenerate`

  datatype Mode = Form | Manual

  datatype GenerateError =
    | Missing(fields: seq<string>)   // "Thiếu: ..." thrown before any request
    | NerFailed                      // `callNERAPI` threw
    | RequestFailed                  // `callImageAPI` threw on the HTTP call
    | NoPicture                      // the answer had no image

  /** The field map `callNERAPI` resolves to for a reply. */
  function NerFields(reply: NerReply): map<string, string> {
    match reply
    case FieldsReply(f, _) => f
    case SpansReply(spans) => FoldAsWritten(spans).0
    case EmptyReply => map[]
  }

  /** The values the prompt is built from: the form's in form mode; in
      manual mode the extracted fields, fetched from `/ner` when there are
      none yet. */
  method FieldValues(mode: Mode, values: map<string, string>, extracted: map<string, string>,
                     manualPrompt: string, ner: string -> Result<NerReply, ()>)
    returns (vals: Result<map<string, string>, GenerateError>)
    ensures mode == Form ==> vals == Ok(values)
    ensures mode == Manual && extracted != map[] ==> vals == Ok(extracted)
    ensures mode == Manual && extracted == map[] ==>
      vals == if ner(manualPrompt).Err? then Err(NerFailed) else Ok(NerFields(ner(manualPrompt).value))
  {
    if mode == Form || extracted != map[] {
      return Ok(if mode == Form then values else extracted);
    }
    var reply := ner(manualPrompt);
    if reply.Err? {
      return Err(NerFailed);
    }
    var fields, scores := CallNer(reply.value);
    return Ok(fields);
  }

  /** The field values `handleGenerate` works from: the form's values, the
      fields extracted earlier, or the fields `/ner` gives for the manual
      prompt. */
  function SourceValues(mode: Mode, values: map<string, string>, extracted: map<string, string>,
                        manualPrompt: string, ner: string -> Result<NerReply, ()>): Result<map<string, string>, GenerateError>
  {
    if mode == Form then Ok(values)
    else if extracted != map[] then Ok(extracted)
    else if ner(manualPrompt).Err? then Err(NerFailed)
    else Ok(NerFields(ner(manualPrompt).value))
  }

  /** The prompt `buildPromptFromValues` makes from a style's template. */
  function PromptFor(template: string, vals: map<string, string>, notes: string, vietnamese: bool): string {
    var ps := Dedup(Scan(template));
    FinishPrompt(JsReplaceSeq(template, ps, Replacements(vals, ps)), notes, vietnamese)
  }

  /** `buildPromptFromValues` with the placeholders of `template`. */
  method BuildPrompt(template: string, vals: map<string, string>, notes: string, vietnamese: bool) returns (p: string)
    ensures p == PromptFor(template, vals, notes, vietnamese)
    ensures EndsWith(p, Language(vietnamese))
  {
    var placeholders := ExtractPlaceholders(template);
    p := BuildPromptFromValues(template, placeholders, vals, notes, vietnamese);
    PromptEndsWithLanguage(JsReplaceSeq(template, placeholders, Replacements(vals, placeholders)), notes, vietnamese);
  }

  /** `callImageAPI` for a prompt. */
  method CallImage(prompt: string, image: string -> Result<GenerateReply, ()>) returns (r: Result<string, GenerateError>)
    ensures image(prompt).Err? ==> r == Err(RequestFailed)
    ensures image(prompt).Ok? ==>
      r == if ImageSource(image(prompt).value).Ok? then Ok(ImageSource(image(prompt).value).value) else Err(NoPicture)
  {
    var answer := image(prompt);
    if answer.Err? {
      return Err(RequestFailed);
    }
    var src := ImageSource(answer.value);
    if src.Err? {
      return Err(NoPicture);
    }
    return Ok(src.value);
  }

  /** `handleGenerate`. `template` is `PROMPT_TEMPLATES[style]` and
      `required` is `REQUIRED_FIELDS[style]` for the selected style; `ner`
      and `image` stand for the two HTTP calls; `sent` is the prompt posted
      to `/generate`, if any. No request is made while a required field is
      blank. */
  method HandleGenerate(template: string, required: seq<string>, mode: Mode, values: map<string, string>, extracted: map<string, string>,
                        manualPrompt: string, notes: string, vietnamese: bool,
                        ner: string -> Result<NerReply, ()>, image: string -> Result<GenerateReply, ()>)
    returns (r: Result<string, GenerateError>, sent: Option<string>)
    ensures mode == Form && MissingRequired(required, values) != [] ==>
      r == Err(Missing(MissingRequired(required, values))) && sent == None
    ensures mode == Manual && extracted != map[] && MissingRequired(required, extracted) != [] ==>
      r == Err(Missing(MissingRequired(required, extracted))) && sent == None
    ensures mode == Form && MissingRequired(required, values) == [] ==>
      sent == Some(PromptFor(template, values, notes, vietnamese))
    ensures r.Err? && (r.error.Missing? || r.error.NerFailed?) <==> sent == None
    ensures sent.Some? ==> EndsWith(sent.value, Language(vietnamese))
    ensures r.Ok? ==> sent.Some? && image(sent.value).Ok? && ImageSource(image(sent.value).value) == Ok(r.value)
    ensures var vs := SourceValues(mode, values, extracted, manualPrompt, ner);
      vs.Err? ==> r == Err(NerFailed) && sent == None
    ensures var vs := SourceValues(mode, values, extracted, manualPrompt, ner);
      vs.Ok? && MissingRequired(required, vs.value) != [] ==> r == Err(Missing(MissingRequired(required, vs.value))) && sent == None
    ensures var vs := SourceValues(mode, values, extracted, manualPrompt, ner);
      vs.Ok? && MissingRequired(required, vs.value) == [] ==>
        sent == Some(PromptFor(template, vs.value, notes, vietnamese)) &&
        (image(sent.value).Err? ==> r == Err(RequestFailed)) &&
        (image(sent.value).Ok? ==>
           r == if ImageSource(image(sent.value).value).Ok? then Ok(ImageSource(image(sent.value).value).value) else Err(NoPicture))
  {
    var vals := FieldValues(mode, values, extracted, manualPrompt, ner);
    if vals.Err? {
      return Err(NerFailed), None;
    }
    var miss := MissingRequired(required, vals.value);
    if miss != [] {
      return Err(Missing(miss)), None;
    }
    var prompt := BuildPrompt(template, vals.value, notes, vietnamese);
    r := CallImage(prompt, image);
    sent := Some(prompt);
  }
}
