/** The clean-up the API server applies to the translation model's answer
    before using it as the English image prompt: at most one known preamble
    is cut, one pair of surrounding quotes is removed, heading, bullet and
    leaked-placeholder lines are dropped, the rest is joined into one line,
    too short an answer falls back to the Vietnamese text and too long a one
    is cut to its first three sentences. */
module BackendTranslate {
  import opened Wrappers
  import opened Strings

  /** The preambles, in the order they are tried. */
  const Prefixes: seq<string> := [
    "Here's the translated English text, formatted for AI image generation:",
    "Here's the English translation:",
    "English translation:",
    "Translation:"]

  /** Index of the first preamble, from position `k` of the list on, that
      `text` starts with. */
  function FirstPrefixFrom(text: string, k: nat): (r: Option<nat>)
    requires k <= |Prefixes|
    ensures r.Some? ==> k <= r.value < |Prefixes| && Prefixes[r.value] <= text &&
                        forall j :: k <= j < r.value ==> !(Prefixes[j] <= text)
    ensures r.None? ==> forall j :: k <= j < |Prefixes| ==> !(Prefixes[j] <= text)
    decreases |Prefixes| - k
  {
    if k == |Prefixes| then None
    else if Prefixes[k] <= text then Some(k)
    else FirstPrefixFrom(text, k + 1)
  }

  /** The text after removing the first matching preamble, if any. */
  function AfterPrefix(text: string): string {
    match FirstPrefixFrom(text, 0)
    case None => text
    case Some(i) => Strip(text[|Prefixes[i]|..])
  }

  /** The prefix loop with its `break`. */
  method RemovePrefix(text: string) returns (t: string)
    ensures t == AfterPrefix(text)
  {
    t := text;
    var i := 0;
    while i < |Prefixes|
      invariant 0 <= i <= |Prefixes| && t == text
      invariant FirstPrefixFrom(text, 0) == FirstPrefixFrom(text, i)
    {
      if Prefixes[i] <= t {
        t := Strip(t[|Prefixes[i]|..]);
        return;
      }
      i := i + 1;
    }
  }

  /** One pair of surrounding double quotes removed. A lone `"` counts as
      both. */
  function Unquote(text: string): string {
    if StartsWith(text, "\"") && EndsWith(text, "\"") then Strip(PySlice(text, 1, -1)) else text
  }

  /** The placeholder tags that mark a line as leaked form residue. */
  predicate HasTag(line: string) {
    Contains(line, "[title]") || Contains(line, "[organization]") ||
    Contains(line, "[flora_fauna]") || Contains(line, "[concept]")
  }

  /** A stripped line survives when it has no tag, is not a `**` heading,
      is not empty and is not a `*` bullet. */
  predicate KeepLine(line: string) {
    !HasTag(line) &&
    !(StartsWith(line, "**") && EndsWith(line, "**")) &&
    line != "" && !StartsWith(line, "*")
  }

  /** The lines, already stripped, that survive, in order. */
  function Kept(stripped: seq<string>): seq<string> {
    if stripped == [] then []
    else
      var line := stripped[|stripped| - 1];
      Kept(stripped[..|stripped| - 1]) + (if KeepLine(line) then [line] else [])
  }

  /** The surviving lines, stripped, in order. */
  function KeptLines(lines: seq<string>): seq<string> {
    Kept(StripAll(lines))
  }

  /** The line-filter loop. */
  method CleanLines(lines: seq<string>) returns (cleaned: seq<string>)
    ensures cleaned == KeptLines(lines)
  {
    ghost var stripped := StripAll(lines);
    cleaned := [];
    var i := 0;
    while i < |lines|
      invariant 0 <= i <= |lines|
      invariant cleaned == Kept(stripped[..i])
    {
      var line := Strip(lines[i]);
      KeptSnoc(stripped, i);
      if HasTag(line) {
        i := i + 1;
        continue;
      }
      if StartsWith(line, "**") && EndsWith(line, "**") {
        i := i + 1;
        continue;
      }
      if line != "" && !StartsWith(line, "*") {
        cleaned := cleaned + [line];
      }
      i := i + 1;
    }
    assert stripped[..i] == stripped;
  }

  lemma KeptSnoc(stripped: seq<string>, i: nat)
    requires i < |stripped|
    ensures Kept(stripped[..i + 1]) == Kept(stripped[..i]) + (if KeepLine(stripped[i]) then [stripped[i]] else [])
  {
    assert stripped[..i + 1][..i] == stripped[..i];
  }

  /** Each surviving line passes the filter and is one of the stripped
      lines. */
  lemma {:induction false} KeptFrom(stripped: seq<string>, line: string)
    requires line in Kept(stripped)
    ensures KeepLine(line) && line in stripped
    decreases |stripped|
  {
    var p := stripped[..|stripped| - 1];
    if line in Kept(p) {
      KeptFrom(p, line);
    }
  }

  /** Every surviving line is the stripped form of an input line, is
      non-empty, has no whitespace at either end, has none of the tags and
      does not start with `*`. */
  lemma KeptLinesShape(lines: seq<string>, line: string)
    requires line in KeptLines(lines)
    ensures exists i :: 0 <= i < |lines| && line == Strip(lines[i])
    ensures line != [] && line[0] != '*' && !HasTag(line) && Strip(line) == line
  {
    KeptFrom(StripAll(lines), line);
    var i :| 0 <= i < |lines| && StripAll(lines)[i] == line;
    StripIdempotent(lines[i], Py);
  }

  /** The `**` test is subsumed by the `*` test: a line survives exactly when
      it is non-empty, has no tag and does not start with `*`. */
  lemma KeepLineSimplified(line: string)
    ensures KeepLine(line) <==> line != "" && !HasTag(line) && line[0] != '*'
  {
  }

  /** An answer longer than 500 characters keeps its first three ". "
      pieces and ends with a full stop. */
  function Shorten(clean: string): string {
    if |clean| > 500 then
      var sentences := Split(clean, ". ");
      var head := Join(sentences[..if |sentences| < 3 then |sentences| else 3], ". ");
      if EndsWith(head, ".") then head else head + "."
    else clean
  }

  /** Shortening a long text keeps its first three ". "-separated pieces:
      the prefix up to the third occurrence of ". ", or the whole text when
      it has at most two, then a full stop unless it already ends in one.
      Short text is unchanged. */
  lemma ShortenShape(clean: string)
    ensures |clean| <= 500 ==> Shorten(clean) == clean
    ensures |clean| > 500 ==> EndsWith(Shorten(clean), ".")
    ensures |clean| > 500 ==>
      exists head :: head <= clean &&
        Shorten(clean) == (if EndsWith(head, ".") then head else head + ".") &&
        ((head == clean && Occurrences(clean, ". ") <= 2) ||
         (Occurrences(head, ". ") == 2 && OccursAt(clean, ". ", |head|)))
  {
    if |clean| > 500 {
      var sentences := Split(clean, ". ");
      var k := if |sentences| < 3 then |sentences| else 3;
      var head := Join(sentences[..k], ". ");
      SplitTakeHead(clean, ". ", 3);
      assert CutAt(clean, ". ", head, k - 1, k < |sentences|);
      if !EndsWith(head, ".") {
        assert (head + ".")[|head + "."| - 1..] == ".";
      }
      assert Shorten(clean) == (if EndsWith(head, ".") then head else head + ".");
    }
  }

  /** The translation model's answer: the text of its first candidate, or a
      failure (an exception, or no candidates). */
  datatype Reply = Failed | Answer(text: string)

  datatype TranslateError = EmptyPrompt   // ValueError("empty_prompt")

  /** The joined surviving lines of a raw answer. */
  function CleanText(raw: string): string {
    Join(KeptLines(Split(Unquote(AfterPrefix(Strip(raw))), "\n")), " ")
  }

  /** What the translation yields for a non-blank prompt and an answer. */
  function Translated(vi: string, raw: string): string {
    var clean := CleanText(raw);
    if clean == "" || |Strip(clean)| < 10 then vi else Shorten(clean)
  }

  /** What `_translate_vi_to_en` returns or raises. */
  function TranslateOutcome(vi: string, reply: Reply): Result<string, TranslateError> {
    if Strip(vi) == "" then Err(EmptyPrompt)
    else if reply.Failed? then Ok(vi)
    else Ok(Translated(vi, reply.text))
  }

  /** `_translate_vi_to_en`. A blank prompt is refused before any call; a
      failed call gives back the prompt unchanged. */
  method TranslateViToEn(vi: string, reply: Reply) returns (r: Result<string, TranslateError>)
    ensures r == TranslateOutcome(vi, reply)
    ensures Strip(vi) == "" ==> r == Err(EmptyPrompt)
    ensures Strip(vi) != "" && reply.Failed? ==> r == Ok(vi)
    ensures Strip(vi) != "" && reply.Answer? ==> r == Ok(Translated(vi, reply.text))
  {
    if vi == "" || Strip(vi) == "" {
      return Err(EmptyPrompt);
    }
    if reply.Failed? {
      return Ok(vi);
    }
    var text := Strip(reply.text);
    text := RemovePrefix(text);
    if StartsWith(text, "\"") && EndsWith(text, "\"") {
      text := Strip(PySlice(text, 1, -1));
    }
    assert text == Unquote(AfterPrefix(Strip(reply.text)));
    var lines := Split(text, "\n");
    var cleaned := CleanLines(lines);
    var clean := Join(cleaned, " ");
    assert clean == CleanText(reply.text);
    if clean == "" || |Strip(clean)| < 10 {
      return Ok(vi);
    }
    return Ok(Shorten(clean));
  }

  /** A translation that is not the prompt itself is a cleaned answer of at
      least ten characters, cut to three sentences and ending in "." when
      it was longer than 500. */
  lemma TranslatedShape(vi: string, raw: string)
    ensures var r := Translated(vi, raw);
      var clean := CleanText(raw);
      r == vi ||
      (|Strip(clean)| >= 10 && (|clean| <= 500 ==> r == clean) && (|clean| > 500 ==> EndsWith(r, ".")))
  {
    ShortenShape(CleanText(raw));
  }
}
