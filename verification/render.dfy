/** The batch prompt renderer: fills a style's template with the fields of
    each input record, after checking the style's required fields, and adds
    an optional notes line and the language line. */
module RenderPrompts {
  import opened Wrappers
  import opened Strings
  import opened Sequences
  import opened Placeholders
  import JsonlToFields

  /** `extract_placeholders`: the distinct names of the template's tokens. */
  function ExtractPlaceholders(t: string): (r: set<string>)
    ensures forall n :: n in r <==> IsName(n) && exists k :: OccursAt(t, Bracket(n), k)
  {
    ScanIffAll(t);
    set n | n in Scan(t)
  }

  /** `SCHEMAS`: per style, its `required` list; `None` stands for a schema
      entry without that key. */
  type Schemas = map<string, Option<seq<string>>>

  function RequiredOf(schemas: Schemas, style: string): set<string> {
    if style in schemas && schemas[style].Some? then set h | h in schemas[style].value else {}
  }

  /** The required fields that are absent or empty. A value made only of
      whitespace is present. */
  function MissingFields(schemas: Schemas, style: string, fields: map<string, string>): set<string> {
    set h | h in RequiredOf(schemas, style) && Lookup(fields, h) == ""
  }

  datatype RenderError =
    | UnknownStyle                            // `TEMPLATES[style]` raises KeyError
    | MissingRequired(missing: set<string>)   // the ValueError listing them

  /** The notes line, present only when the notes are not blank. */
  function NotesLine(extra: string): string {
    if Strip(extra) != "" then "\nAdditional notes: " + Strip(extra) + "\n" else ""
  }

  const LanguageLine: string := "Language: Vietnamese."

  /** The filled template with the notes and language lines, stripped. */
  function Finish(body: string, extra: string): (r: string)
    ensures EndsWith(r, LanguageLine)
  {
    assert !IsSpace(LanguageLine[0], Py) && !IsSpace(LanguageLine[|LanguageLine| - 1], Py);
    assert AllSpace("\n", Py);
    StripEndsWith(body + NotesLine(extra) + "\n", LanguageLine, "\n", Py);
    Strip(body + NotesLine(extra) + "\n" + LanguageLine + "\n")
  }

  /** No field value brings a `[` of its own into the text. */
  ghost predicate BracketFreeValues(fields: map<string, string>) {
    forall h :: h in fields ==> '[' !in fields[h]
  }

  /** `render`. The placeholder set is walked in an unspecified order,
      returned as `order`; when the template has no stray `[` and no value
      contains one, the result is the simultaneous substitution of every
      placeholder, whatever that order was. */
  method Render(templates: map<string, string>, schemas: Schemas, style: string,
                fields: map<string, string>, extra: string)
    returns (r: Result<string, RenderError>, ghost order: seq<string>)
    ensures style !in templates ==> r == Err(UnknownStyle)
    ensures style in templates && MissingFields(schemas, style, fields) != {} ==>
      r == Err(MissingRequired(MissingFields(schemas, style, fields)))
    ensures style in templates && MissingFields(schemas, style, fields) == {} ==>
      r.Ok? && Distinct(order) &&
      (forall h :: h in order <==> h in ExtractPlaceholders(templates[style])) &&
      r.value == Finish(ReplaceSeq(templates[style], order, fields), extra)
    ensures style in templates && style !in schemas ==> r.Ok?
    ensures r.Ok? ==> EndsWith(r.value, LanguageLine)
    ensures r.Ok? && NoStrayBracket(templates[style]) && BracketFreeValues(fields) ==>
      r.value == Finish(Flatten(Subst(Parse(templates[style]), ExtractPlaceholders(templates[style]), fields)), extra)
  {
    order := [];
    if style !in templates {
      return Err(UnknownStyle), order;
    }
    var t := templates[style];
    var holes := ExtractPlaceholders(t);
    var missing := MissingFields(schemas, style, fields);
    if missing != {} {
      return Err(MissingRequired(missing)), order;
    }
    var temp := t;
    var remaining := holes;
    while remaining != {}
      invariant remaining <= holes
      invariant forall h :: h in order <==> h in holes && h !in remaining
      invariant Distinct(order)
      invariant temp == ReplaceSeq(t, order, fields)
      decreases |remaining|
    {
      var h :| h in remaining;
      temp := ReplaceAll(temp, Bracket(h), Lookup(fields, h));
      ReplaceSeqSnoc(t, order, h, fields);
      order := order + [h];
      remaining := remaining - {h};
    }
    r := Ok(Finish(temp, extra));
    if NoStrayBracket(t) && BracketFreeValues(fields) {
      OrderFree(t, order, fields);
    }
  }

  /** With no stray `[` and `[`-free values the loop result is the same for
      every enumeration of the placeholder set. */
  lemma OrderFree(t: string, order: seq<string>, fields: map<string, string>)
    requires NoStrayBracket(t) && BracketFreeValues(fields)
    requires forall h :: h in order <==> h in ExtractPlaceholders(t)
    ensures ReplaceSeq(t, order, fields) == Flatten(Subst(Parse(t), ExtractPlaceholders(t), fields))
  {
    forall h | h in order
      ensures IsName(h) && '[' !in Lookup(fields, h) && Lookup(fields, h) != Bracket(h)
    {
      assert Bracket(h)[0] == '[';
    }
    ReplaceSeqOrderFree(t, order, fields);
    assert Effective(order, fields) == ExtractPlaceholders(t);
  }

  /** After rendering under those conditions, no placeholder token is left
      in the filled template. */
  lemma NoPlaceholderLeft(t: string, fields: map<string, string>, n: string)
    requires NoStrayBracket(t) && BracketFreeValues(fields)
    ensures n !in Scan(Flatten(Subst(Parse(t), ExtractPlaceholders(t), fields)))
  {
    ScanAfterSubst(t, ExtractPlaceholders(t), fields, n);
  }

  // ---------------------------------------------------------------------------
  // Input records

  /** The `fields` entry of an input record. */
  datatype FieldsEntry = NoFields | NotADict | Dict(m: map<string, string>)

  /** An input record: its `fields`, `text` and `label` entries. */
  datatype Obj = Obj(fields: FieldsEntry, text: Option<string>, labels: Option<seq<JsonlToFields.Triple>>)

  /** The fields `fields_from_obj` produces, or `None` when it raises: no
      `fields` dict and either the lazy relative import of `line_to_fields`
      fails (`importable` is false: the script run by path, as its usage
      line shows, has no parent package) or there is no `text`. */
  function FieldsOf(obj: Obj, importable: bool): Option<map<string, string>> {
    if obj.fields.Dict? then Some(obj.fields.m)
    else if !importable || obj.text.None? then None
    else Some(JsonlToFields.LineToFieldsSpec(obj.text.value, obj.labels.GetOr([])))
  }

  /** `fields_from_obj`: the record's own field dict, or fields resolved from
      its text and label triples once `line_to_fields` can be imported. */
  method FieldsFromObj(obj: Obj, importable: bool) returns (r: Option<map<string, string>>)
    ensures obj.fields.Dict? ==> r == Some(obj.fields.m)
    ensures !obj.fields.Dict? && (!importable || obj.text.None?) ==> r.None?
    ensures !obj.fields.Dict? && importable && obj.text.Some? ==>
      r == Some(JsonlToFields.LineToFieldsSpec(obj.text.value, obj.labels.GetOr([])))
  {
    if obj.fields.Dict? {
      return Some(obj.fields.m);
    }
    if !importable {
      return None;
    }
    if obj.text.None? {
      return None;
    }
    var f := JsonlToFields.LineToFields(obj.text.value, obj.labels.GetOr([]));
    return Some(f);
  }

  /** A line of the input file: valid JSON or not. */
  datatype Line = BadJson | Json(obj: Obj)

  /** The line is rendered: its fields resolve and none is missing. */
  predicate Renders(schemas: Schemas, style: string, obj: Obj, importable: bool) {
    FieldsOf(obj, importable).Some? && MissingFields(schemas, style, FieldsOf(obj, importable).value) == {}
  }

  /** Run by path, the script renders only records that carry their own
      `fields` dict: every other record is skipped, even one whose text and
      labels would give all required fields. */
  lemma ScriptSkipsTextRecords(schemas: Schemas, style: string, obj: Obj)
    requires !obj.fields.Dict?
    ensures !Renders(schemas, style, obj, false)
    ensures obj.text.Some? && MissingFields(schemas, style,
      JsonlToFields.LineToFieldsSpec(obj.text.value, obj.labels.GetOr([]))) == {} ==>
      Renders(schemas, style, obj, true)
  {
  }

  /** Every line parses as JSON. */
  predicate AllJson(lines: seq<Line>) {
    forall i :: 0 <= i < |lines| ==> lines[i].Json?
  }

  /** The field maps written out, one per rendered line, in order. */
  function RenderedFields(schemas: Schemas, style: string, lines: seq<Line>, importable: bool): seq<map<string, string>>
    requires AllJson(lines)
  {
    if lines == [] then []
    else
      var last := lines[|lines| - 1].obj;
      RenderedFields(schemas, style, lines[..|lines| - 1], importable)
        + (if Renders(schemas, style, last, importable) then [FieldsOf(last, importable).value] else [])
  }

  lemma RenderedFieldsSnoc(schemas: Schemas, style: string, read: seq<Line>, l: Line, importable: bool)
    requires AllJson(read) && l.Json?
    ensures AllJson(read + [l])
    ensures RenderedFields(schemas, style, read + [l], importable) ==
      RenderedFields(schemas, style, read, importable)
        + (if Renders(schemas, style, l.obj, importable) then [FieldsOf(l.obj, importable).value] else [])
  {
    assert (read + [l])[..|read|] == read;
  }

  /** One output record. */
  datatype Record = Record(prompt: string, fields: map<string, string>)

  function FieldsOfRecords(out: seq<Record>): seq<map<string, string>> {
    if out == [] then [] else FieldsOfRecords(out[..|out| - 1]) + [out[|out| - 1].fields]
  }

  lemma FieldsOfRecordsSnoc(out: seq<Record>, rec: Record)
    ensures FieldsOfRecords(out + [rec]) == FieldsOfRecords(out) + [rec.fields]
  {
    assert (out + [rec])[..|out|] == out;
  }

  /** `order` is a walk of the placeholder set of `t`, and `rec`'s prompt is
      what `render` gives for `t` along it, with `rec`'s fields and no
      notes. */
  ghost predicate RenderedAlong(t: string, order: seq<string>, rec: Record) {
    Distinct(order) && (forall h :: h in order <==> h in ExtractPlaceholders(t)) &&
    rec.prompt == Finish(ReplaceSeq(t, order, rec.fields), "")
  }

  /** Each output record was rendered along its own walk order. */
  ghost predicate AllAlong(t: string, orders: seq<seq<string>>, out: seq<Record>) {
    |orders| == |out| && forall j :: 0 <= j < |out| ==> RenderedAlong(t, orders[j], out[j])
  }

  lemma AllAlongSnoc(t: string, orders: seq<seq<string>>, out: seq<Record>, order: seq<string>, rec: Record)
    requires AllAlong(t, orders, out) && RenderedAlong(t, order, rec)
    ensures AllAlong(t, orders + [order], out + [rec])
  {
  }

  /** Every rendered prompt ends with the language line. */
  lemma RenderedEnds(t: string, orders: seq<seq<string>>, out: seq<Record>)
    requires AllAlong(t, orders, out)
    ensures forall j :: 0 <= j < |out| ==> EndsWith(out[j].prompt, LanguageLine)
  {
  }

  /** The body of the `try` in `main`: the record written for one line, or
      `None` when fields cannot be read or rendering raises. The prompt is
      the rendered template with no notes. */
  method RenderLine(templates: map<string, string>, schemas: Schemas, style: string, obj: Obj, importable: bool)
    returns (rec: Option<Record>, ghost order: seq<string>)
    requires style in templates
    ensures rec.Some? <==> Renders(schemas, style, obj, importable)
    ensures rec.Some? ==> rec.value.fields == FieldsOf(obj, importable).value && EndsWith(rec.value.prompt, LanguageLine)
    ensures rec.Some? ==> RenderedAlong(templates[style], order, rec.value)
    ensures rec.Some? && NoStrayBracket(templates[style]) && BracketFreeValues(rec.value.fields) ==>
      rec.value.prompt == Finish(Flatten(Subst(Parse(templates[style]), ExtractPlaceholders(templates[style]), rec.value.fields)), "")
  {
    order := [];
    var flds := FieldsFromObj(obj, importable);
    assert flds == FieldsOf(obj, importable);
    if flds.None? {
      return None, order;
    }
    var f := flds.value;
    var p;
    p, order := Render(templates, schemas, style, f, "");
    assert p.Ok? <==> MissingFields(schemas, style, f) == {};
    if p.Err? {
      return None, order;
    }
    rec := Some(Record(p.value, f));
  }

  /** One round of the `try` in `main` on a parsed line: the record is
      written and counted as kept, or counted as skipped. */
  method RenderNext(templates: map<string, string>, schemas: Schemas, style: string, ghost read: seq<Line>, obj: Obj,
                    importable: bool, kept: nat, skipped: nat, out: seq<Record>, ghost orders: seq<seq<string>>)
    returns (kept': nat, skipped': nat, out': seq<Record>, ghost orders': seq<seq<string>>)
    requires style in templates && AllJson(read) && kept == |out|
    requires AllAlong(templates[style], orders, out)
    requires FieldsOfRecords(out) == RenderedFields(schemas, style, read, importable)
    ensures AllJson(read + [Json(obj)])
    ensures kept' + skipped' == kept + skipped + 1 && kept' == |out'|
    ensures AllAlong(templates[style], orders', out')
    ensures FieldsOfRecords(out') == RenderedFields(schemas, style, read + [Json(obj)], importable)
  {
    RenderedFieldsSnoc(schemas, style, read, Json(obj), importable);
    var rec;
    ghost var order;
    rec, order := RenderLine(templates, schemas, style, obj, importable);
    if rec.Some? {
      FieldsOfRecordsSnoc(out, rec.value);
      AllAlongSnoc(templates[style], orders, out, order, rec.value);
      return kept + 1, skipped, out + [rec.value], orders + [order];
    }
    return kept, skipped + 1, out, orders;
  }

  /** `main`: renders every line. A line that is not JSON aborts the run
      (the parse sits outside the `try`); every other line is either kept
      or skipped. */
  method RenderBatch(templates: map<string, string>, schemas: Schemas, style: string, lines: seq<Line>, importable: bool)
    returns (r: Result<(nat, nat, seq<Record>), nat>, ghost orders: seq<seq<string>>)
    requires style in templates
    ensures r.Err? ==> r.error < |lines| && lines[r.error] == BadJson && AllJson(lines[..r.error])
    ensures r.Ok? ==> AllJson(lines)
    ensures r.Ok? ==> r.value.0 + r.value.1 == |lines| && r.value.0 == |r.value.2|
    ensures r.Ok? ==> forall j :: 0 <= j < |r.value.2| ==> EndsWith(r.value.2[j].prompt, LanguageLine)
    ensures r.Ok? ==> AllAlong(templates[style], orders, r.value.2)
    ensures r.Ok? ==> AllJson(lines) && FieldsOfRecords(r.value.2) == RenderedFields(schemas, style, lines, importable)
  {
    var kept, skipped := 0, 0;
    orders := [];
    var out: seq<Record> := [];
    ghost var read: seq<Line> := [];
    var i := 0;
    while i < |lines|
      invariant 0 <= i <= |lines| && read == lines[..i]
      invariant AllJson(read)
      invariant kept + skipped == i && kept == |out|
      invariant AllAlong(templates[style], orders, out)
      invariant FieldsOfRecords(out) == RenderedFields(schemas, style, read, importable)
    {
      if lines[i].BadJson? {
        return Err(i), orders;
      }
      assert lines[..i + 1] == read + [Json(lines[i].obj)];
      kept, skipped, out, orders := RenderNext(templates, schemas, style, read, lines[i].obj, importable, kept, skipped, out, orders);
      read := read + [lines[i]];
      i := i + 1;
    }
    assert read == lines;
    RenderedEnds(templates[style], orders, out);
    return Ok((kept, skipped, out)), orders;
  }
}
