# VNHis2Image in Dafny

VNHis2Image turns Vietnamese historical text into images. A span categoriser
tags entities (persons, dynasties, costumes, architecture, …). The tagged
spans are resolved into a map from prompt field to value, and a style
template (portrait, battle, architecture) is filled with those values. The
prompt is optionally translated to English and then sent to Imagen. Offline
tooling converts and pre-labels the annotated data and audits it for
inconsistent labels.

This project models the logic of that pipeline, one module per source file:

- `BackendNer`, `BackendTranslate` and `BackendImage` model the API server
  (`backend/app/main.py`):
  - the `/ner` route: the threshold filter and the best span per label;
  - the clean-up of the translation model's answer;
  - the aspect-ratio guess and the data URI;
  - the Imagen call with its single minimal retry and its result extraction;
  - the `/generate` route with its count clamp and placeholder fallback.
- `JsonlToFields` models the batch field resolver `line_to_fields`.
- `Placeholders` models the bracket-token scanning shared by the renderers.
- `RenderPrompts` models the batch prompt renderer.
- `PromptToImage` models the helpers of the web page:
  - the templates and required fields;
  - the placeholder scan and the required-field check;
  - the prompt builder and the span fold;
  - the image-answer normalisation and the guard in `handleGenerate`.
- `BatchImages` models the batch image client:
  - data URI parsing (section 3 of RFC 2397);
  - base64 padding repair (section 4 of RFC 4648);
  - the extension choice and the save precedence;
  - the ok/fail counting.
- `ConvertData`, `SpanCat`, `PrelabelJsonl`, `PrelabelTxt` and `CheckLabel`
  model the labelling tools.
- `SpanVariants` puts the three span resolvers side by side. The server
  breaks a length tie by score and drops low-scored spans. The web page keeps
  the earlier span on a tie and applies no threshold. `line_to_fields` keeps
  the earlier slice and matches labels case-sensitively.
- `Strings`, `Sequences` and `Wrappers` hold the Python and JavaScript
  primitives the code relies on (`strip`/`trim`, slicing, `split`/`join`,
  `replace`, `dict.fromkeys`, `max(key=len)`) and `Option`/`Result`.

Code that updates state step by step is modelled by methods with loops. Each
such method is proved against a function that states the result, and the
source's promises are proved about those functions as lemmas. The external
services are inputs of the model:

- the spaCy models and `char_span`;
- Gemini and Imagen;
- HTTP;
- base64, SHA-1 and MIME guessing;
- the files that are read.

Where the description of the system and the code disagree, the model follows
the code:

- **Image count.** The request model declares `number_of_images` with
  `ge=1, le=4` (`backend/app/main.py:85`). A count of 7 is therefore rejected
  with a 422 before the route runs, rather than clamped to 4. Inside the route
  `max(1, min(4, n))` is the identity; see `BackendImage.RouteConfigShape`.
- **Render order.** The batch renderer fills placeholders in the iteration
  order of a set. The output does not depend on that order when the template
  has no stray `[` and no value contains `[` (`RenderPrompts.OrderFree`).
  The weaker condition "no value contains a `[name]` token" is not enough, as
  `Placeholders.OrderMattersWithStrayBracket` shows.

## Model

| member | source | states |
|---|---|---|
| Strings.StripShape | src/main/nlp/check_label.py:50 | Python's `str.strip()` returns a contiguous piece of its input with no whitespace at either end |
| Strings.StripIdempotent | backend/app/main.py:169 | stripping twice is stripping once |
| Strings.StripEmptyIff | src/main/nlp/convert_data.py:40 | `not text.strip()` holds exactly when the text is all whitespace |
| Strings.PySlice | src/main/nlp/check_label.py:50 | Python's `text[start:end]` is never longer than `text` and is the plain sub-sequence when the bounds are in range |
| Strings.JoinSplit | backend/app/main.py:207-208 | joining the pieces of `split(sep)` with `sep` gives back the input |
| Strings.SplitTakeHead | backend/app/main.py:207-208 | `sep.join(s.split(sep)[:k])` is a prefix of `s` holding one separator fewer than the pieces it joins (counted as `str.count` does); either it is all of `s`, or the next separator of `s` starts right after it |
| Strings.ReplaceIsSplitJoin | src/main/prompts/batch_render_prompts.py:27 | `str.replace` substitutes every non-overlapping occurrence, left to right, in one pass |
| Strings.JsReplaceLiteral | frontend/src/pages/prompt_to_image.tsx:152 | JavaScript's `replaceAll` with a string pattern inserts a replacement without `$` as it is, exactly like Python's `replace` |
| Strings.JsReplaceFromLiteral | frontend/src/pages/prompt_to_image.tsx:152 | from any position on, the left-to-right scan of `replaceAll` with a `$`-free replacement is the literal replacement of the rest of the string |
| Strings.ExpandLiteral | frontend/src/pages/prompt_to_image.tsx:152 | a replacement without `$` expands to itself for every match |
| Strings.JsReplaceKeepsMatch | frontend/src/pages/prompt_to_image.tsx:152 | `replaceAll` expands `$&` to the matched text, so replacing "[x]" by "$&" leaves "[x]" where Python's `replace` gives "$&" |
| Strings.RemoveSpaces | src/main/prompts/batch_generate_images.py:60 | `re.sub(r"\s+", "", s)` leaves no whitespace and never lengthens the string |
| Sequences.Dedup | src/main/structured/jsonl_to_fields.py:25 | `dict.fromkeys` keeps each element once and loses none |
| Sequences.DedupFirstOrder | src/main/structured/jsonl_to_fields.py:25 | `dict.fromkeys` keeps the order of first occurrences |
| Sequences.LongestIndex | src/main/structured/jsonl_to_fields.py:25 | `max(vals, key=len)` picks a longest value, the first one among equals |
| BackendImage.ClosestAmong | backend/app/main.py:116-118 | the index returned is among the first `n` ratios, no ratio is closer to `w/h`, and every earlier ratio is strictly farther (so `min` keeps the earliest of equally close entries) |
| BackendImage.GuessAspectRatio | backend/app/main.py:113-118 | a missing or non-positive width or height gives "1:1"; otherwise the result is the closest of 1:1, 3:4, 4:3, 9:16, 16:9 to `w/h` by the listed constants, earliest on ties |
| BackendImage.GuessFullHd | backend/app/main.py:113-118 | 1920×1080 is guessed as "16:9" |
| BackendImage.GuessPortrait | backend/app/main.py:113-118 | 768×1024 is guessed as "3:4" |
| BackendImage.FirstTruthyFrom | backend/app/main.py:283-289 | the attribute found is the first of `image_bytes`, `bytes`, `data`, `_image_bytes` (from position `k` on) that is present and truthy; `None` means none of them is |
| BackendImage.SearchBytes | backend/app/main.py:283-294 | the attribute-search loop with its `break` finds the bytes of the first present, truthy byte attribute, and they are never empty |
| BackendImage.Extract | backend/app/main.py:275-297 | no generated image gives `image_blocked: <reason>` when a RAI reason exists and `no_image_generated` otherwise; a first image with no usable byte attribute gives `image_bytes_missing`; a first image with a usable byte attribute gives exactly those bytes, and every success is such bytes, non-empty |
| BackendImage.GenerateWithImagen | backend/app/main.py:238-297 | the configs sent and the result are those of the call-and-retry specification (see `RetryOnce`) |
| BackendImage.RetryOnce | backend/app/main.py:238-271 | the full config is always sent first; the minimal config (1 image, "1:1", "allow_adult", "image/png") is sent second exactly when the first call raised, and never a third; a successful first call decides the result; when the first call raised and the retry returned, the retry's response is what gets extracted; a raising retry's error propagates |
| BackendImage.ClampCount | backend/app/main.py:393 | `max(1, min(4, n))` lies in [1, 4], is `n` inside that range, 1 below it and 4 above it |
| BackendImage.PromptExcerpt | backend/app/main.py:414 | a prompt of at most 100 characters is drawn whole; a longer one is cut to its first 100 characters followed by "..." |
| BackendImage.GenerateAsWritten | backend/app/main.py:371-431 | the route as written never answers: a count outside [1, 4] is a 422, and every other path ends in an error because the final `return` reads the unbound name `e` |
| BackendImage.Generate | backend/app/main.py:371-431 | (corrected) a count outside [1, 4] is a 422, a blank prompt is `translation_error: empty_prompt`, and every answer carries the Imagen model name |
| BackendImage.GenerateOutcome | backend/app/main.py:386-428 | for a valid non-blank request the route answers exactly when Imagen succeeds or fails with an error containing "billed users" or "INVALID_ARGUMENT"; the image is the data URI of the generated bytes or of the placeholder drawn for the translated-prompt excerpt; any other Imagen error is a 502 `imagen_error: <message>` |
| BackendImage.RouteConfigShape | backend/app/main.py:385-393 | for a validated request the clamp leaves the count unchanged, and the aspect ratio is the requested one or else the guess from width and height |
| BackendImage.AsWrittenNeverAnswers | backend/app/main.py:431 | wherever the corrected route answers, the route as written fails with an internal error; where the corrected route fails, both fail alike |
| BackendNer.PickBest | backend/app/main.py:342-343 | the index found is that of the element a stable descending sort on (length, score or 0.0) puts first: no key is greater and every earlier element's key is smaller |
| BackendNer.Ner | backend/app/main.py:318-347 | an unloaded model is a 500; a blank text gives empty `fields` and `scores`; otherwise `fields` and `scores` have exactly the labels of the accepted spans as keys, and for each label hold the text and score of the first span of greatest (length, score) |
| BackendNer.BucketsStep | backend/app/main.py:332-339 | one step of the bucket loop keeps every bucket equal to the accepted spans of its label, in input order |
| BackendNer.BucketsStepKeys | backend/app/main.py:332-339 | one step of the bucket loop keeps the bucket keys equal to the labels of the accepted spans |
| BackendNer.BucketsStepValue | backend/app/main.py:332-339 | after one step each bucket is the accepted spans of its label |
| BackendNer.BuildBuckets | backend/app/main.py:331-339 | the buckets are exactly the accepted spans grouped by normalised label in input order, and none is empty |
| BackendNer.BucketNonEmptyAll | backend/app/main.py:331-339 | every label of an accepted span has a non-empty bucket |
| BackendNer.PickPerLabel | backend/app/main.py:341-345 | `fields` and `scores` have the bucket labels as keys, each holding the text and score (`None` when absent) of the first span of greatest key |
| BackendNer.LabelsSnoc | backend/app/main.py:332-339 | the labels of accepted spans grow by the new span's label exactly when it is accepted |
| BackendNer.BucketNonEmpty | backend/app/main.py:331-339 | a label's bucket is non-empty exactly when some accepted span carries it |
| BackendNer.BucketMembers | backend/app/main.py:332-339 | a span is in label `l`'s bucket exactly when it is one of the model's spans, its stripped lowercased label is `l`, the label is non-blank, and it has no score or a score at least the threshold |
| BackendTranslate.FirstPrefixFrom | backend/app/main.py:171-181 | the preamble found is the first in list order (from position `k`) that the text starts with; `None` means the text starts with none of them |
| BackendTranslate.RemovePrefix | backend/app/main.py:178-181 | the prefix loop removes at most one preamble, the first that matches, and strips what remains |
| BackendTranslate.CleanLines | backend/app/main.py:186-196 | the line-filter loop keeps exactly the stripped lines that pass the filter, in order |
| BackendTranslate.KeptSnoc | backend/app/main.py:189-196 | one more line extends the kept lines by that line exactly when it passes the filter |
| BackendTranslate.KeptFrom | backend/app/main.py:189-196 | every kept line passes the filter and is one of the stripped lines |
| BackendTranslate.KeptLinesShape | backend/app/main.py:186-196 | every kept line is the stripped form of an input line, is non-empty, has no surrounding whitespace, contains none of `[title]`, `[organization]`, `[flora_fauna]`, `[concept]`, and does not start with `*` |
| BackendTranslate.KeepLineSimplified | backend/app/main.py:191-195 | a line survives exactly when it is non-empty, carries no tag and does not start with `*` (the `**…**` test adds nothing) |
| BackendTranslate.ShortenShape | backend/app/main.py:206-210 | text of at most 500 characters is unchanged; longer text is cut to the prefix before the third occurrence of ". " (or kept whole when it has at most two), with "." added when that prefix does not already end in one, so it always ends with "." |
| BackendTranslate.TranslateViToEn | backend/app/main.py:124-218 | a blank prompt raises `empty_prompt` before any call; a failed call (an exception or no candidates) gives back the prompt unchanged; otherwise the result is the cleaned answer |
| BackendTranslate.TranslatedShape | backend/app/main.py:169-213 | a result other than the prompt itself is a cleaned answer of at least ten characters after stripping; it is that cleaned text when at most 500 characters long and ends with "." otherwise |
| ConvertData.TrimSpan | src/main/nlp/convert_data.py:55-58 | the two trimming loops, run step by step, give the trimming function's result: `IndexError` or the new offsets |
| ConvertData.SkipLeadingShape | src/main/nlp/convert_data.py:55-56 | the first loop raises exactly when `start < end` and `start` lies before the beginning of the text even for a negative index; otherwise it moves `start` forward, not past `end`, over whitespace only, and stops before `end` only at a non-whitespace character |
| ConvertData.SkipTrailingShape | src/main/nlp/convert_data.py:57-58 | once `start` is a valid index the second loop never raises; it moves `end` back, not past `start`, over whitespace only |
| ConvertData.TrimShape | src/main/nlp/convert_data.py:55-58 | the loops terminate, raise exactly when `start < end` and `start < -len(text)`, never make `start > end`, and step over whitespace only |
| ConvertData.Clamp | src/main/nlp/convert_data.py:60-61 | `max(0, min(x, n))` lies in [0, n] and is `x` when `x` already does |
| ConvertData.TrimmedEndsInText | src/main/nlp/convert_data.py:55-64 | for offsets inside the text, a span that survives the loops and the clamp satisfies `0 <= start < end <= len(text)` and its first and last characters are not whitespace |
| ConvertData.TrailingSpaceKept | src/main/nlp/convert_data.py:55-64 | (as written) for text "ab " and offsets 0..5 the loops leave the span untouched and the clamp to 3 then keeps the trailing space |
| ConvertData.TrimClamped | src/main/nlp/convert_data.py:55-64 | (corrected: clamp, then trim) the offsets lie in [0, len(text)], and a non-empty result starts and ends with a non-whitespace character whatever the input offsets |
| ConvertData.SpanOf | src/main/nlp/convert_data.py:47-71 | (as written: trim, then clamp) one entry raises `IndexError` exactly when it is a triplet with `start < end` and `start < -len(text)`; a kept span carries the entry's label |
| ConvertData.FixedSpanOf | src/main/nlp/convert_data.py:47-71 | (corrected: clamp, then trim) a kept span carries the entry's label and is what `char_span` returned for a range inside the text whose first and last characters are not whitespace |
| ConvertData.SpanOfAgrees | src/main/nlp/convert_data.py:53-64 | for offsets inside the text the as-written entry step never raises and equals the corrected one |
| ConvertData.SpanOfKeepsSpace | src/main/nlp/convert_data.py:55-69 | (as written) on "ab " with offsets 0..5 `char_span` receives 0..3 with the trailing space; clamping first gives 0..2 |
| ConvertData.SpanOfRaises | src/main/nlp/convert_data.py:55 | (as written) on "ab" with offsets -5..1 the first loop raises `IndexError`; clamping first keeps "a" |
| ConvertData.DocSpans | src/main/nlp/convert_data.py:47-71 | (as written) the triplet loop raises exactly when some entry raises; otherwise every entry is either kept as a span or counted as skipped, so kept plus skipped equals the number of entries |
| ConvertData.FixedDocSpans | src/main/nlp/convert_data.py:47-71 | (corrected) every entry is kept or skipped, so kept plus skipped equals the number of entries |
| ConvertData.DocSpansAgree | src/main/nlp/convert_data.py:47-71 | when every entry's offsets lie inside the text the as-written loop does not raise and keeps the same spans as the corrected one |
| ConvertData.DocSpansStep | src/main/nlp/convert_data.py:47-71 | one more entry raises, adds its span, or adds one to the skipped count |
| ConvertData.DocSpansAbort | src/main/nlp/convert_data.py:55-58 | an `IndexError` in an earlier entry ends the whole document loop with `IndexError` |
| ConvertData.ConvertEntry | src/main/nlp/convert_data.py:47-71 | one pass of the triplet loop as written: a malformed entry is skipped; the trimming loops on the raw offsets may raise; after the clamp an empty span or one `char_span` cannot align is skipped; otherwise the aligned span with the entry's label is kept |
| ConvertData.ConvertDoc | src/main/nlp/convert_data.py:45-71 | the triplet loop stops at the first entry that raises; otherwise it keeps exactly the document's spans in entry order and counts the rest as skipped |
| ConvertData.BadLineStep | src/main/nlp/convert_data.py:30-35 | a bad JSON line adds one to `bad_json_lines` and changes nothing else |
| ConvertData.BlankLineStep | src/main/nlp/convert_data.py:40-42 | a record whose text is blank changes no counter |
| ConvertData.DocLineStep | src/main/nlp/convert_data.py:44-83 | a kept document adds one to `total_docs`, its span count to `total_entities`, its labels to `label_counter`, its skipped entries to `skipped_spans`, and one to `empty_docs` when it has no span |
| ConvertData.LineStep | src/main/nlp/convert_data.py:37-83 | a non-blank record adds one document and its entries, and leaves the bad-line and blank-line counts unchanged |
| ConvertData.DocStep | src/main/nlp/convert_data.py:73-80 | one more document adds its labels to the counter and one empty document when it has no span |
| ConvertData.LabelsOfSize | src/main/nlp/convert_data.py:74-76 | a document's label multiset has one entry per span |
| ConvertData.CountLabels | src/main/nlp/convert_data.py:74-75 | counting a document's spans adds exactly their labels to the counter, one per span |
| ConvertData.ConvertLine | src/main/nlp/convert_data.py:29-83 | one round of the line loop stops with `IndexError` exactly when the line is a non-blank record with an entry that raises; otherwise the counters stay those of the lines read so far, the new line included |
| ConvertData.Convert | src/main/nlp/convert_data.py:28-83 | the script stops with `IndexError` exactly when some non-blank record has an entry that raises; otherwise every line is a bad JSON line, a blank record or a kept document; `total_docs` is the number of kept documents; `label_counter` holds their span labels and `total_entities` equals its total; entities plus `skipped_spans` equal all entries of kept documents; `empty_docs` counts the documents without spans |
| JsonlToFields.SpansForMembers | src/main/structured/jsonl_to_fields.py:18-22 | a field's bucket holds exactly the slices `text[s:e]` of the triples whose label maps to that field |
| JsonlToFields.SpansForNonEmpty | src/main/structured/jsonl_to_fields.py:17-22 | a field's bucket is non-empty exactly when some triple's label maps to it |
| JsonlToFields.BucketsSnoc | src/main/structured/jsonl_to_fields.py:18-22 | one more triple appends its slice to its field's bucket, or changes nothing when its label is not in `LABEL2FIELD` |
| JsonlToFields.LineToFields | src/main/structured/jsonl_to_fields.py:16-26 | the bucket loop followed by the per-field resolution computes the field map: per observed field, the dedup-join for `artifact` and `flora_fauna`, the longest slice otherwise |
| JsonlToFields.UnknownLabelIgnored | src/main/structured/jsonl_to_fields.py:8-20 | a triple whose label is not one of the thirteen upper-case labels (lower-case spellings included) leaves the output unchanged |
| JsonlToFields.KeysAreObservedFields | src/main/structured/jsonl_to_fields.py:17-26 | the output has a key exactly for each field that some triple's label maps to; unobserved fields are absent |
| JsonlToFields.SingleFieldIsLongestSlice | src/main/structured/jsonl_to_fields.py:21-25 | a single-valued field holds a raw slice no shorter than any other slice for it, the earliest of the longest ones, and it is `text[s:e]` of one of the triples feeding it |
| JsonlToFields.MultiFieldIsDedupJoin | src/main/structured/jsonl_to_fields.py:14-25 | `artifact` and `flora_fauna` hold the ", "-join of the stripped slices deduplicated in first-occurrence order; the list has no repeat and contains exactly the stripped slices |
| PromptToImage.AssembleAppend | frontend/src/pages/prompt_to_image.tsx:18-25 | a template written as segments assembles piecewise: the text of `a + b` is the text of `a` followed by that of `b` |
| PromptToImage.AssembleSplit | frontend/src/pages/prompt_to_image.tsx:18-25 | an assembled template is the segments before `k`, the text of segment `k`, and the segments after it |
| PromptToImage.HoleOccurs | frontend/src/pages/prompt_to_image.tsx:18-25 | each placeholder segment's `[name]` token occurs in the assembled template right after the segments before it |
| PromptToImage.HoleScanned | frontend/src/pages/prompt_to_image.tsx:18-33 | a placeholder segment whose name matches `[a-zA-Z0-9_]+` is found by the placeholder scan of the assembled template |
| PromptToImage.RequiredIsPlaceholder | frontend/src/pages/prompt_to_image.tsx:18-31 | every entry of `REQUIRED_FIELDS[style]` is a placeholder found in `PROMPT_TEMPLATES[style]`, for all three styles |
| PromptToImage.RequiredIsName | frontend/src/pages/prompt_to_image.tsx:27-33 | every required field name matches `[a-zA-Z0-9_]+` |
| PromptToImage.RequiredIsHole | frontend/src/pages/prompt_to_image.tsx:18-31 | every required field of a style is a placeholder segment of that style's template |
| PromptToImage.PortraitHoles | frontend/src/pages/prompt_to_image.tsx:20-28 | the four portrait required fields are placeholder segments of the portrait template |
| PromptToImage.BattleHoles | frontend/src/pages/prompt_to_image.tsx:22-29 | the eight battle required fields are placeholder segments of the battle template |
| PromptToImage.ArchitectureHoles | frontend/src/pages/prompt_to_image.tsx:24-30 | the four architecture required fields are placeholder segments of the architecture template |
| PromptToImage.ExtractPlaceholders | frontend/src/pages/prompt_to_image.tsx:33-39 | the `exec` loop adding to a `Set` returns the scanned placeholder names deduplicated in order of first occurrence |
| PromptToImage.ExtractStart | frontend/src/pages/prompt_to_image.tsx:35-37 | before the first match the set is empty and the whole template remains to be scanned |
| PromptToImage.ExtractStep | frontend/src/pages/prompt_to_image.tsx:37 | one match added to the set, or one character skipped, keeps the final result unchanged and moves forward within the template |
| PromptToImage.AddNewCons | frontend/src/pages/prompt_to_image.tsx:37-38 | adding a name to the set appends it only when it is new |
| PromptToImage.AddNewIsDedup | frontend/src/pages/prompt_to_image.tsx:37-38 | adding the rest of the matches to the distinct earlier ones gives the distinct names of all matches in first-occurrence order |
| PromptToImage.PlaceholdersShape | frontend/src/pages/prompt_to_image.tsx:33-39 | the placeholders are distinct, are exactly the names `n` matching `[a-zA-Z0-9_]+` for which `[n]` occurs in the template, and come in order of first occurrence |
| PromptToImage.MissingRequired | frontend/src/pages/prompt_to_image.tsx:160-161 | a field is reported exactly when it is required and its value is absent, empty or whitespace-only |
| PromptToImage.MissingInOrder | frontend/src/pages/prompt_to_image.tsx:160-161 | the missing fields keep the declared order of `REQUIRED_FIELDS[style]` |
| PromptToImage.JsReplaceSeqSnoc | frontend/src/pages/prompt_to_image.tsx:150-153 | one more round of the page's loop applies `replaceAll` of `[h]` by the value of `h`, with its replacement patterns |
| PromptToImage.JsReplaceSeqLiteral | frontend/src/pages/prompt_to_image.tsx:150-153 | when no value has a `$`, the page's loop gives the same text as the literal loop |
| PromptToImage.DollarValueKeepsToken | frontend/src/pages/prompt_to_image.tsx:150-153 | a value "$&" for `[person]` leaves "[person]" in the page's prompt, where a literal replacement would insert "$&" |
| PromptToImage.BuildPromptFromValues | frontend/src/pages/prompt_to_image.tsx:148-158 | the loop applies `replaceAll` placeholder by placeholder, replacing every `[f]` with the trimmed value or with `[f]` itself when the value is blank, with `$` patterns in the value expanded as JavaScript does; then it adds the notes line only for non-blank notes and the language line, and trims |
| PromptToImage.ReplaceNext | frontend/src/pages/prompt_to_image.tsx:150-153 | one round of the loop applies `replaceAll` (with its replacement patterns) for the next placeholder |
| PromptToImage.LookupReplacement | frontend/src/pages/prompt_to_image.tsx:151-152 | the replacement used for a placeholder is its trimmed value, or its own token when blank |
| PromptToImage.PromptEndsWithLanguage | frontend/src/pages/prompt_to_image.tsx:154-157 | the built prompt always ends with "Language: Vietnamese." or "Language: English." as the flag says |
| PromptToImage.BuildIsSubstitution | frontend/src/pages/prompt_to_image.tsx:148-153 | for a template whose every `[` opens a placeholder and values without `[` or `$`, the loop equals the simultaneous substitution of the filled placeholders in any order, and a placeholder token survives exactly when its value is blank |
| PromptToImage.FoldIsChosen | frontend/src/pages/prompt_to_image.tsx:79-91 | (corrected) the fold reports, per label, the text of the span it kept and that same span's score, or no score when that span has none |
| PromptToImage.ChooseUpdates | frontend/src/pages/prompt_to_image.tsx:86-88 | keeping a new span for a label sets its text and sets or removes its score |
| PromptToImage.FoldIsLongest | frontend/src/pages/prompt_to_image.tsx:79-91 | every lowercased label seen gets an entry, and its text is the first longest text among that label's spans (a later span must be strictly longer to replace it) |
| PromptToImage.LongestSnoc | frontend/src/pages/prompt_to_image.tsx:86 | one more span's text replaces the current one when it is strictly longer or the current one is empty |
| PromptToImage.StaleScore | frontend/src/pages/prompt_to_image.tsx:85-88 | (as written) spans "a" scored 0.9 and "ab" without a score leave text "ab" with the stale score 0.9; the corrected fold leaves no score |
| PromptToImage.FoldSpans | frontend/src/pages/prompt_to_image.tsx:80-91 | (as written) the span loop computes the fold in which a replacing span without a score leaves the previous score |
| PromptToImage.FoldAsWrittenAgrees | frontend/src/pages/prompt_to_image.tsx:80-91 | the as-written fold has the same texts as the corrected one and every score the corrected one reports; with a score on every span the two are equal |
| PromptToImage.CallNer | frontend/src/pages/prompt_to_image.tsx:76-94 | a `fields` reply is returned with its scores or `{}`; a `spans` reply is folded as written; any other reply gives empty maps |
| PromptToImage.ImageSourceCases | frontend/src/pages/prompt_to_image.tsx:106-110 | `image_base64` wins over `images[0]`, both over `image_url`/`url`; a `data:image` value is kept as is, any other base64 is prefixed with `data:image/png;base64,`; the call fails exactly when there is neither a picture nor a URL |
| PromptToImage.WrappedParses | frontend/src/pages/prompt_to_image.tsx:108 | a bare base64 payload without commas is wrapped into a data URI that the batch script's parser reads back as a base64 `image/png` with that payload |
| PromptToImage.FieldValues | frontend/src/pages/prompt_to_image.tsx:192-202 | form mode uses the form's values; manual mode uses the extracted fields, or the `/ner` fields when none are extracted yet, and a failing `/ner` call is an error |
| PromptToImage.BuildPrompt | frontend/src/pages/prompt_to_image.tsx:148-158 | the prompt is built from the template's own placeholders with JavaScript's `replaceAll` and ends with the language line |
| PromptToImage.CallImage | frontend/src/pages/prompt_to_image.tsx:97-111 | a failing request is an error; otherwise the result is the image source of the answer, or a "no image" error |
| PromptToImage.HandleGenerate | frontend/src/pages/prompt_to_image.tsx:182-226 | the fields are the form values, the fields extracted earlier, or in manual mode with nothing extracted the fields `/ner` gives for the manual prompt; a failed `/ner` call fails with `NerFailed` and a blank required field fails with the missing fields, in both cases sending nothing; otherwise exactly the prompt built from those fields is sent, and the result is `RequestFailed` when the image call fails, else the image source of the answer or `NoPicture`; a sent prompt ends with the language line |
| SpanVariants.TieBuckets | backend/app/main.py:331-339 | two PERSON spans scored above the threshold both land, in order, in the bucket "person" |
| SpanVariants.ServerTie | backend/app/main.py:341-347 | of two equally long PERSON spans the server answers the higher-scored later one, with its score |
| SpanVariants.PageTie | frontend/src/pages/prompt_to_image.tsx:79-91 | on the same two spans the web page keeps the earlier one and its score, since only a strictly longer text replaces it |
| SpanVariants.BatchTie | src/main/structured/jsonl_to_fields.py:16-26 | on the same two spans `line_to_fields` keeps the earlier slice, the first of the longest |
| SpanVariants.ServerLowScore | backend/app/main.py:332-339 | a span scored below the threshold is dropped by the server, leaving empty `fields` and `scores` |
| SpanVariants.PageLowScore | frontend/src/pages/prompt_to_image.tsx:79-91 | the web page applies no threshold: the same span is kept with its score |
| SpanVariants.BatchLowerCaseLabel | src/main/structured/jsonl_to_fields.py:8-20 | `line_to_fields` matches labels case-sensitively, so the label "person" (lower case) contributes nothing, while the server and the page lower-case it |
| BatchImages.TranslateVi2En | src/main/prompts/batch_generate_images.py:24-38 | an empty input or a missing model gives back the input, and so does a raising call; any other result is a non-blank stripped model answer |
| BatchImages.TranslateBlankAnswer | src/main/prompts/batch_generate_images.py:35-36 | a blank model answer gives back the input |
| BatchImages.ParseDataUriErrors | src/main/prompts/batch_generate_images.py:41-43 | a URI without the `data:` prefix fails the assertion, one without a comma fails the two-way unpacking, and every other URI parses |
| BatchImages.CommaAfterPrefix | src/main/prompts/batch_generate_images.py:42-44 | the first comma of a `data:` URI lies after the prefix |
| BatchImages.ParseDataUriShape | src/main/prompts/batch_generate_images.py:41-48 | a parsed URI is `data:` + a comma-free header + `,` + the payload (which may hold commas); the MIME type is the header up to its first `;`; the base64 flag holds exactly when a later `;` parameter lowercases to "base64" |
| BatchImages.ParseOfParts | src/main/prompts/batch_generate_images.py:41-48 | conversely, parsing `data:` + a comma-free header + `,` + any payload gives back that payload, the header's MIME type and its base64 flag |
| BatchImages.ParseAt | src/main/prompts/batch_generate_images.py:43-48 | with its first comma at `c`, a URI parses to the header parts between the prefix and `c` and the payload after `c` |
| BatchImages.ParseToDataUri | src/main/prompts/batch_generate_images.py:41-48 | for a MIME type without `,` or `;`, parsing the server's `_to_data_uri(b, m)` yields `(m, True, base64(b))` |
| BatchImages.ParseBase64Uri | src/main/prompts/batch_generate_images.py:41-48 | `data:<m>;base64,<payload>` parses to `m`, base64, and the payload, for `m` without `,` or `;` |
| BatchImages.PadCount | src/main/prompts/batch_generate_images.py:61 | `-n % 4` is below 4, equals Python's value, and makes `n` plus it a multiple of four |
| BatchImages.Pad | src/main/prompts/batch_generate_images.py:61 | padding keeps the text as a prefix, adds only `=` characters, fewer than four, and makes the length a multiple of four |
| BatchImages.FixB64 | src/main/prompts/batch_generate_images.py:56-62 | the result has no whitespace, its length is a multiple of four, and it is the whitespace-free payload (the part after the first comma when the stripped input starts with `data:`) followed by 0 to 3 `=` |
| BatchImages.FixB64Idempotent | src/main/prompts/batch_generate_images.py:56-62 | repairing a repaired string changes nothing, whenever the repaired string does not itself start with `data:` |
| BatchImages.StripNoSpace | src/main/prompts/batch_generate_images.py:57-60 | a string without whitespace is its own strip |
| BatchImages.PickExt | src/main/prompts/batch_generate_images.py:50-54 | "image/jpeg" gives ".jpg", any "image/svg…" gives ".svg", and every other type gives the guessed extension or, when there is none, the default |
| BatchImages.SavePrecedence | src/main/prompts/batch_generate_images.py:64-112 | a non-empty `image_base64` without a `data:` prefix is saved, after repair and decoding, with ".png", and the save raises when `b64decode` rejects the repaired text; with neither key (or both empty) nothing is saved; a saved file carries the line number and the prompt hash |
| BatchImages.Base64First | src/main/prompts/batch_generate_images.py:70-90 | with a non-empty `image_base64` the save does not depend on `image_url` |
| BatchImages.SaveBackendAnswer | src/main/prompts/batch_generate_images.py:70-80 | the server's data URI saved from `image_base64` is written with the decoded repaired payload and the extension of its MIME type, or the save raises when `b64decode` rejects the payload |
| BatchImages.FailingLines | src/main/prompts/batch_generate_images.py:138-172 | a blank or missing prompt, a failed post (HTTP 503, another HTTP error or any exception), an answer without an image, or a plain `image_base64` that `b64decode` rejects yields no file and counts as `fail` |
| BatchImages.LineFileIdx | src/main/prompts/batch_generate_images.py:157 | a file written for a line is named after that line's number |
| BatchImages.ProcessLine | src/main/prompts/batch_generate_images.py:137-172 | one line counts as `ok` exactly when a file is written, and the file is named after the line number |
| BatchImages.SomesSnoc | src/main/prompts/batch_generate_images.py:157-162 | one more outcome adds its file to the saved files when there is one |
| BatchImages.OutcomesSnoc | src/main/prompts/batch_generate_images.py:136-172 | one more processed line extends the outcomes by that line's outcome |
| BatchImages.FilesInLineOrder | src/main/prompts/batch_generate_images.py:136-172 | the saved files are numbered between 1 and the line count, in strictly increasing line order, so no two share a number |
| BatchImages.OutcomeIdx | src/main/prompts/batch_generate_images.py:157 | the file saved for line `j` is numbered `j + 1` |
| BatchImages.SomesIdx | src/main/prompts/batch_generate_images.py:157 | outcomes numbered by position give files with strictly increasing numbers between 1 and the count |
| BatchImages.RunBatch | src/main/prompts/batch_generate_images.py:134-177 | a line that is not JSON stops the run at the first such line; otherwise every line adds one to exactly one of `ok` and `fail`, `ok` equals the number of saved files, and the files are the lines' outcomes in line order |
| Placeholders.WordRun | src/main/prompts/batch_render_prompts.py:11 | the run measured is the longest prefix of word characters `[a-zA-Z0-9_]` |
| Placeholders.TokenAt | src/main/prompts/batch_render_prompts.py:11 | a match at the front of the text is a well-formed name whose bracketed token fits in the text |
| Placeholders.TokenAtIff | src/main/prompts/batch_render_prompts.py:11 | the pattern `\[([a-zA-Z0-9_]+)\]` matches name `n` at the front of the text exactly when `n` is a name and the text starts with `[n]` |
| Placeholders.NoBracketInsideToken | src/main/prompts/batch_render_prompts.py:11 | a matched token holds no `[` after its opening one |
| Placeholders.FlattenParse | src/main/prompts/batch_render_prompts.py:11-14 | cutting a template into literal characters and matched tokens loses nothing: the pieces spell the template |
| Placeholders.ParseFlatten | src/main/prompts/batch_render_prompts.py:11-14 | conversely, pieces in which no literal `[` could start a token are recovered from their text |
| Placeholders.ScanStep | src/main/prompts/batch_render_prompts.py:14 | one step of the left-to-right scan reports the token at the front, or skips one character |
| Placeholders.ScanSound | src/main/prompts/batch_render_prompts.py:11-14 | every name the scan reports is a name whose `[n]` occurs in the template |
| Placeholders.ScanComplete | src/main/prompts/batch_render_prompts.py:11-14 | every occurrence of a bracketed name is reported: no occurrence is hidden inside another match |
| Placeholders.ScanIff | src/main/prompts/batch_render_prompts.py:11-14 | the scan reports `n` exactly when `n` matches `[a-zA-Z0-9_]+` and `[n]` occurs in the template |
| Placeholders.ReplaceSeqSnoc | src/main/prompts/batch_render_prompts.py:25-27 | one more round of the substitution loop applies `str.replace` of `[h]` by the value of `h` (or "") |
| Placeholders.SubstStep | src/main/prompts/batch_render_prompts.py:25-27 | substituting `h` after the names in `D` is substituting `D` plus `h` at once |
| Placeholders.ReplaceOne | src/main/prompts/batch_render_prompts.py:27 | on a template without stray `[`, one `replace` of `[h]` by a `[`-free value substitutes exactly the tokens of `h` |
| Placeholders.ReplaceSeqIsSubst | src/main/prompts/batch_render_prompts.py:25-27 | on such a template with `[`-free values, the sequential loop equals the simultaneous substitution of the names it replaces |
| Placeholders.ReplaceSeqOrderFree | src/main/prompts/batch_render_prompts.py:25-27 | on such a template with `[`-free values, the loop's result depends only on the set of names, not their order |
| Placeholders.NamesAfterSubst | src/main/prompts/batch_render_prompts.py:25-27 | after substituting the names in `H`, the tokens left are exactly the tokens of names outside `H` |
| Placeholders.ScanAfterSubst | src/main/prompts/batch_render_prompts.py:25-27 | on a template without stray `[`, substituting `[`-free values for `H` leaves a scannable token exactly for the template's names outside `H` |
| Placeholders.OrderMattersWithStrayBracket | src/main/prompts/batch_render_prompts.py:25-27 | on the template "[[a]b]" with `a` → "" and `b` → "c", replacing `a` then `b` gives "c" while `b` then `a` gives "[b]": values without `[name]` tokens do not make the order irrelevant |
| RenderPrompts.ExtractPlaceholders | src/main/prompts/batch_render_prompts.py:13-14 | the result holds exactly the distinct names `n` matching `[a-zA-Z0-9_]+` for which `[n]` occurs in the template |
| RenderPrompts.Finish | src/main/prompts/batch_render_prompts.py:29-32 | the stripped result always ends with "Language: Vietnamese." |
| RenderPrompts.Render | src/main/prompts/batch_render_prompts.py:16-32 | an unknown style raises `KeyError`; missing required fields (absent or empty, whitespace counts as present) raise `ValueError` listing them and nothing is rendered; a style without a schema has none; otherwise every placeholder is replaced in the set's order by its value or "", the notes line is added only for non-blank notes, and the stripped result ends with the language line; with no stray `[` and `[`-free values it is the simultaneous substitution |
| RenderPrompts.OrderFree | src/main/prompts/batch_render_prompts.py:18-27 | with no stray `[` and `[`-free values, every enumeration of the placeholder set gives the same filled template |
| RenderPrompts.NoPlaceholderLeft | src/main/prompts/batch_render_prompts.py:25-27 | under the same conditions no placeholder token is left in the filled template |
| RenderPrompts.FieldsFromObj | src/main/prompts/batch_render_prompts.py:34-38 | a `fields` dict is used as is; otherwise, when the relative import of `line_to_fields` succeeds, the fields are `line_to_fields(text, label or [])`; a record without text, or any record without a dict when the import fails, raises (the `None` result) |
| RenderPrompts.ScriptSkipsTextRecords | src/main/prompts/batch_render_prompts.py:37 | when the import fails, a record without a `fields` dict is never rendered, even one whose text and labels would give every required field and which renders once the import succeeds |
| RenderPrompts.RenderLine | src/main/prompts/batch_render_prompts.py:53-59 | a record is written exactly when its fields resolve and none is missing; it carries those fields, and its prompt is what `render` gives for the style's template along a walk of its placeholder set (every placeholder once) with no notes, so it ends with the language line; with no stray `[` and `[`-free values the prompt is the simultaneous substitution |
| RenderPrompts.RenderNext | src/main/prompts/batch_render_prompts.py:52-58 | one round of the `try` on a parsed line adds one to `kept` or `skipped`, writes a record exactly when the line renders, and keeps every written record rendered along a walk of the placeholder set |
| RenderPrompts.RenderBatch | src/main/prompts/batch_render_prompts.py:49-61 | a line that is not JSON aborts the run at the first such line; otherwise `kept + skipped` equals the line count, one record is written per kept line, in order, holding the fields of exactly the lines that render, and each record's prompt is `render`'s result along a walk of the placeholder set and ends with the language line |
| SpanCat.Scores | src/main/nlp/prelabel4jsonl.py:46 | without a `scores` attribute every span is scored 1.0 |
| SpanCat.Zip | src/main/nlp/prelabel4jsonl.py:52 | spans and scores are paired by position, stopping at the shorter sequence |
| SpanCat.DefaultPairs | src/main/nlp/prelabel4jsonl.py:46-52 | without a `scores` attribute there is one pair per span, each scored 1.0 |
| PrelabelJsonl.Merge | src/main/nlp/prelabel4jsonl.py:52-57 | the existing labels are kept unchanged and in order, as a prefix of the result |
| PrelabelJsonl.MergeStep | src/main/nlp/prelabel4jsonl.py:52-57 | one more pair appends its triple exactly when its score is at least 0.5 and the triple is not yet among the labels, including those added earlier in the loop |
| PrelabelJsonl.MergePredictions | src/main/nlp/prelabel4jsonl.py:41-59 | the merge loop computes the merged labels, and after it `existing` equals the set of all labels |
| PrelabelJsonl.MergeMembers | src/main/nlp/prelabel4jsonl.py:52-57 | a triple ends up among the labels exactly when it was there before or some pair carries it with a score of at least 0.5 |
| PrelabelJsonl.MergeNoDuplicates | src/main/nlp/prelabel4jsonl.py:43-57 | the merge appends only triples not already present, and never the same triple twice |
| PrelabelJsonl.DefaultScoresAcceptAll | src/main/nlp/prelabel4jsonl.py:46-55 | without a `scores` attribute every predicted triple ends up among the labels |
| PrelabelJsonl.PrelabelObj | src/main/nlp/prelabel4jsonl.py:34-60 | an object keeps its text and other keys; its existing labels are a prefix of its new labels; an object with blank text gets its labels (default []) unchanged |
| PrelabelJsonl.ObjectsStep | src/main/nlp/prelabel4jsonl.py:27-32 | one more line adds its object, or nothing when it is not valid JSON |
| PrelabelJsonl.Prelabel | src/main/nlp/prelabel4jsonl.py:26-60 | the output has one object per valid JSON line, in input order, each prelabelled; invalid lines are dropped |
| PrelabelTxt.OutNameOfTxt | src/main/nlp/prelabel4txt.py:36 | for a plain base name, `final_<base>.txt` and `<base>.txt` both become `<base>.jsonl` |
| PrelabelTxt.TxtFiles | src/main/nlp/prelabel4txt.py:28 | exactly the names whose lowercased form ends in ".txt" are processed |
| PrelabelTxt.Confident | src/main/nlp/prelabel4txt.py:67-69 | no more triples are kept than there are pairs |
| PrelabelTxt.ConfidentMembers | src/main/nlp/prelabel4txt.py:67-69 | a triple is kept exactly when some pair carries it with a score of at least 0.5 |
| PrelabelTxt.ConfidentAll | src/main/nlp/prelabel4txt.py:67-69 | when every score reaches 0.5, all triples are kept in span order |
| PrelabelTxt.DefaultKeepsAll | src/main/nlp/prelabel4txt.py:61-69 | without a `scores` attribute every span is kept, in span order |
| PrelabelTxt.KeepConfident | src/main/nlp/prelabel4txt.py:58-69 | the inner loop keeps exactly the triples scoring at least 0.5, in span order |
| PrelabelTxt.Records | src/main/nlp/prelabel4txt.py:52-71 | every record's text is the non-empty stripped line |
| PrelabelTxt.RecordsCount | src/main/nlp/prelabel4txt.py:52-71 | there is exactly one record per non-blank line |
| PrelabelTxt.PrelabelFile | src/main/nlp/prelabel4txt.py:48-71 | the line loop writes one `{text: stripped line, label: kept triples}` record per non-blank line, in line order |
| CheckLabel.LineMentions | src/main/nlp/check_label.py:49-66 | a line contributes one span record per label triple |
| CheckLabel.Lbls | src/main/nlp/check_label.py:49-54 | one label is read per span |
| CheckLabel.CountSnoc | src/main/nlp/check_label.py:54 | one more item adds one to its own count and leaves every other count unchanged |
| CheckLabel.CountAbsent | src/main/nlp/check_label.py:54 | an item never seen has count 0 (the `defaultdict(int)` default) |
| CheckLabel.BumpStep | src/main/nlp/check_label.py:54 | bumping a counter keeps it exact: its keys are the distinct items in first-insertion order and each count is the number of occurrences |
| CheckLabel.MentionSnoc | src/main/nlp/check_label.py:49-66 | one more span extends the labels, the keys, the labels of its key and the records of its key and label, and nothing else |
| CheckLabel.RecordStep | src/main/nlp/check_label.py:49-66 | recording one span keeps the whole state exact: `total_entities`, `label_counts` and `entity_labels` agree with the spans read |
| CheckLabel.RecordLabels | src/main/nlp/check_label.py:54-55 | recording one span keeps `total_entities` equal to the spans read and `label_counts` equal to the number of spans per label |
| CheckLabel.RecordEntities | src/main/nlp/check_label.py:65 | recording one span keeps the keys of `entity_labels` and each key's labels, in first-use order, exact |
| CheckLabel.RecordOccs | src/main/nlp/check_label.py:58-65 | recording one span keeps every record list equal to the records of the spans with that key and label, in reading order |
| CheckLabel.LblsOfAbsent | src/main/nlp/check_label.py:65 | a key not yet seen has no labels |
| CheckLabel.OccsAbsent | src/main/nlp/check_label.py:65 | a key and label pair not yet seen has no records |
| CheckLabel.TallyOfTallied | src/main/nlp/check_label.py:40-66 | the state after reading any spans has `total_entities` equal to their number, `label_counts` equal to the count per label, `entity_labels` keyed by exactly the stripped lowercased `text[start:end]` keys, and one record per span under its key and label |
| CheckLabel.TallyOfAppend | src/main/nlp/check_label.py:49-66 | reading the spans of one more triple is one more recording step |
| CheckLabel.TallyLine | src/main/nlp/check_label.py:49-66 | the triple loop of one line records every span of the line in order |
| CheckLabel.FirstBad | src/main/nlp/check_label.py:42-44 | the line found is not JSON and every earlier line is; `None` means every line is JSON |
| CheckLabel.MentionsStep | src/main/nlp/check_label.py:42-66 | a valid line at index `i` adds its spans numbered with line number `i + 1` |
| CheckLabel.BadLineNumber | src/main/nlp/check_label.py:42-44 | (corrected) the 1-based number of the first invalid line: that line is invalid and every line before it is valid |
| CheckLabel.ReportedLineOffByOne | src/main/nlp/check_label.py:43-73 | (as written) for a file whose first line is invalid the invalid line is line 1, yet the message names line 2 because `total_lines` was already incremented |
| CheckLabel.ReadLines | src/main/nlp/check_label.py:40-75 | a missing file is reported as not found; the first invalid JSON line stops the read, and the message names the line after it (one more than its 1-based number); otherwise the state is that of all spans read and `total_lines` is the number of lines |
| CheckLabel.NoBad | src/main/nlp/check_label.py:42-44 | when every line is JSON no line is reported invalid |
| CheckLabel.FirstBadIs | src/main/nlp/check_label.py:42-44 | the invalid line reported is the first one |
| CheckLabel.SumCountsSnoc | src/main/nlp/check_label.py:54-55 | one more item adds one to the summed counts exactly when its key is counted |
| CheckLabel.SumCountsAppendAbsent | src/main/nlp/check_label.py:54-55 | one more key adds its own count to the sum |
| CheckLabel.SumOfCounts | src/main/nlp/check_label.py:54-55 | the counts of the distinct items sum to the number of items |
| CheckLabel.TotalIsSumOfCounts | src/main/nlp/check_label.py:54-55 | `total_entities` equals the sum of `label_counts` |
| CheckLabel.WithKeySnoc | src/main/nlp/check_label.py:104 | the items with a given key grow by one more item exactly when it has that key |
| CheckLabel.InsertAtLeast | src/main/nlp/check_label.py:104 | inserting an item whose key is at least `b` into items whose keys are at least `b` keeps them so |
| CheckLabel.InsertSorted | src/main/nlp/check_label.py:104 | inserting into a descending list keeps it descending |
| CheckLabel.InsertPerm | src/main/nlp/check_label.py:104 | insertion adds exactly the inserted item |
| CheckLabel.InsertStable | src/main/nlp/check_label.py:104 | insertion puts the item after the earlier items with its key |
| CheckLabel.SortDescSpec | src/main/nlp/check_label.py:104 | `sorted(..., reverse=True)` on counts gives a descending list that is a permutation of its input and keeps the input order among equal counts (Python's sort is stable also with `reverse`) |
| CheckLabel.ItemsOfCounts | src/main/nlp/check_label.py:82 | the items of an exact counter are each distinct item with its count, in first-insertion order |
| CheckLabel.CounterItemsMembers | src/main/nlp/check_label.py:82 | a counter has one item per distinct key, and `(x, n)` is an item exactly when `x` occurs and `n` is its count |
| CheckLabel.DistributionSpec | src/main/nlp/check_label.py:81-87 | section 1 lists each distinct label once with its count, by count descending, with ties in first-seen order |
| CheckLabel.InconsistentItemsMembers | src/main/nlp/check_label.py:92-95 | an entity is listed with `n` exactly when it is a key with `n` distinct labels and `n > 1` |
| CheckLabel.CollectInconsistent | src/main/nlp/check_label.py:92-95 | the loop over `entity_labels` collects exactly the entities with more than one label, in first-seen order |
| CheckLabel.InconsistentSpec | src/main/nlp/check_label.py:92-104 | the inconsistent list is sorted by number of distinct labels, descending, and `(k, n)` is in it exactly when `k` is an entity key with `n > 1` distinct labels |
| CheckLabel.MaxCount | src/main/nlp/check_label.py:118-119 | the maximum bounds every label's count and, for a non-empty entity, is some label's count |
| CheckLabel.PartitionSpec | src/main/nlp/check_label.py:118-155 | minority and main labels partition an entity's labels; the minority are exactly those below the maximum; there is no minority exactly when all counts are equal |
| CheckLabel.MainLabelsSpec | src/main/nlp/check_label.py:154-155 | a label is a main label exactly when its count equals the maximum |
| CheckLabel.FlattenSize | src/main/nlp/check_label.py:131 | the examples of the minority labels are as many as their records |
| CheckLabel.FlattenStep | src/main/nlp/check_label.py:129-151 | one more minority label adds its examples in record order |
| CheckLabel.FlattenPrefix | src/main/nlp/check_label.py:129-151 | the examples of the first `g` minority labels are a prefix of all their examples |
| CheckLabel.MoreCountsRest | src/main/nlp/check_label.py:127-151 | at most `max_examples` examples are shown; a "more" note appears exactly when some are left out, and the shown examples plus the note's number equal all minority records |
| CheckLabel.RemainderNotReported | src/main/nlp/check_label.py:127-134 | (as written) one minority label with 6 records and a cap of 5 shows 5 examples and no note for the sixth; the corrected count reports 1 more |
| CheckLabel.OuterAsWrittenIs | src/main/nlp/check_label.py:127-134 | from any label group reached with as many examples shown as the cap allows, the outer loop writes the note exactly when the groups before the last one reach the cap and some record is left over |
| CheckLabel.MoreAsWrittenClosed | src/main/nlp/check_label.py:127-134 | (as written) the note appears exactly when the records of all minority labels but the last reach the cap and some record is not shown, and it then counts the records beyond the cap |
| CheckLabel.MoreAsWrittenSpec | src/main/nlp/check_label.py:127-134 | (as written) the note appears exactly when the records of all minority labels but the last reach the cap and some record is not shown; it then equals the corrected count; when the cap falls inside the last label, records go unshown without a note |
| CheckLabel.ShowGroup | src/main/nlp/check_label.py:136-151 | the inner loop adds the label's highlighted examples in record order until `example_count` reaches the cap |
| CheckLabel.ShowStep | src/main/nlp/check_label.py:129-151 | after each minority label the examples shown are the first `min(cap, seen)` of all examples |
| CheckLabel.ReviewExamples | src/main/nlp/check_label.py:127-151 | (as written) the examples shown are the first `max_examples` of all minority records, in order, and the note is the one the outer loop writes at the head of a label group once the cap is reached |
| CheckLabel.ReviewSpec | src/main/nlp/check_label.py:116-158 | without `show_examples` there is no review; the "all equal" message appears exactly when all counts are equal; otherwise at most `max_examples` minority records are shown, the note appears exactly when the minority labels but the last reach the cap and records are left over and then counts them, and the main labels are exactly those with the maximum count, never none |
| CheckLabel.ReviewNote | src/main/nlp/check_label.py:124-134 | the note of an unusual review as written: present exactly when the minority labels but the last reach the cap and records are left over, and then it counts the records not shown |
| CheckLabel.ReviewEntity | src/main/nlp/check_label.py:108-158 | one entity's report is its label counts in insertion order and its review, with the note as written |
| CheckLabel.ReportEntities | src/main/nlp/check_label.py:108-160 | one report per inconsistent entity, in sorted order, each with its review and the note as written |
| CheckLabel.SortedPair | src/main/nlp/check_label.py:173 | `tuple(sorted(...))` of two labels is the same two labels in ascending order |
| CheckLabel.CountConflicts | src/main/nlp/check_label.py:168-174 | `label_conflicts` counts each sorted pair exactly as often as it occurs among the entities with two labels |
| CheckLabel.ConflictSpec | src/main/nlp/check_label.py:168-174 | there are no more pairs than inconsistent entities, the pair counts sum to the number of pairs, every pair is sorted, and every pair is the two labels of some entity with exactly two labels |
| CheckLabel.ConflictPairsOrigin | src/main/nlp/check_label.py:170-174 | every pair comes from an entity with exactly two labels, at most one per entity |
| CheckLabel.Analyze | src/main/nlp/check_label.py:30-181 | a missing file or an invalid JSON line ends the analysis with that failure and no report, the invalid line being named as the line after it; otherwise the report holds the line and span totals, the label distribution, one review per inconsistent entity, and, when some entity is inconsistent, the conflict pairs by count descending |

## Left out

- FastAPI routing, CORS, dotenv loading, the start-up key guard, the spaCy model loading and the `print` logging of `backend/app/main.py` are framework glue and I/O. Model loading is reduced to the `loaded` flag of `BackendNer.Ner`.
- The `/progress` and `/interrupt` routes return constants and are not modelled.
- The `provider` hint that the batch client sends is not a field of the request model, so the server ignores it; it is not modelled.
- The PIL drawing of the placeholder image is a parameter. Only its prompt excerpt (`BackendImage.PromptExcerpt`) and the condition for drawing it are modelled.
- The "(fallback)" model label of `backend/app/main.py:431` is not modelled, because that line always raises. The corrected route reports the plain model name (see Findings).
- `ACCEPTANCE_THRESHOLD` and the defaults of the request model are parameters. `IMAGEN_MODEL` is not: the model fixes it at its default, `BackendImage.ImagenModel`, so a deployment that sets the variable to another model name is not modelled.
- `open(out_path, "wb")` runs before `b64decode`, so a payload the decoder rejects leaves an empty file behind while the line counts as `fail`. The model records no file for such a line.
- spaCy, Gemini, Imagen, HTTP, base64 encoding and decoding (the decoder may reject its input), percent decoding, SHA-1, `mimetypes.guess_extension` and all file reads and writes are inputs or function parameters with no behaviour of their own.
- BackendImage.GuessAspectRatio: the ratios and the distance are exact reals, not floating point, so the model can differ from the code only where two distances tie under float rounding.
- Scores are exact reals, and `real` comparisons stand for the float comparisons of the code.
- Strings.Lower: lower-cases A–Z only, where Python and JavaScript lower-case all of Unicode.
- String lengths are counted in code points. JavaScript's `.length` counts UTF-16 code units, so the web page's strictly-longer test can differ from the model on text outside the Basic Multilingual Plane.
- JSON values that are not strings where the code reads strings, objects that are not dicts, and offsets that are not integers are not modelled. The `int()` casts of the code are the identity on the model's integers.
- The offsets that the pre-labelling scripts write are relative to the stripped text, exactly as the code produces them. The model keeps that behaviour and does not relate them to the unstripped input.
- PromptToImage.BuildIsSubstitution: proved for templates without a stray `[` and values without `[` or `$`; that the three built-in templates have no stray `[` is not proved. A value with `$&`, `$$`, `` $` `` or `$'` is expanded by `replaceAll` (`PromptToImage.BuildPromptFromValues` models that), so the substitution picture does not hold for it (`PromptToImage.DollarValueKeepsToken`).
- RenderPrompts.OrderFree: proved under the same two conditions, which are stronger than "no value contains a `[name]` token". The weaker condition does not suffice (`Placeholders.OrderMattersWithStrayBracket`).
- PrelabelTxt.OutNameOfTxt: stated for base names without `_` or `.`. For any other name, `OutName` applies the two `replace` calls as written, and `Strings.ReplaceIsSplitJoin` states what each does.
- The UI state of the web page is not modelled. This covers React hooks, JSX, the `fetch` plumbing, `AbortController`, the progress polling timer and the manual-analysis button. `PromptToImage.HandleGenerate` takes the `/ner` and image answers as inputs.
- The percentages and output formatting of `check_label.py` are not modelled. Its report is modelled as data: counts, reviews and pairs.
- Also left out of `check_label.py`:
  - the `entity_positions` and `sentences` collections, which are never read;
  - the text of the messages;
  - a failure to write the report file.
- `find_similar_entities` in `check_label.py` relies on `difflib`'s similarity ratio and is not part of this model.
- A record without `text`, or a label entry that does not unpack into three values, raises in `check_label.py`. Such input is not modelled: every line of the model has a text and triples.
- `src/main/extract/cleantext.py`, `refine_data.py` and `pdf2text.py` are not part of this model: regular-expression rewriting, external tokenizers and OCR.
- `src/main/nlp/splitjson.py`, `mergejson.py`, `evaluate_model.py` and `frontend/src/App.tsx` are not part of this model: file shuffling, concatenation, a demo and static routing.

## Findings

| source | as written | input that shows it | evidently intended | confidence | as-written member | corrected member |
|---|---|---|---|---|---|---|
| backend/app/main.py:431 | the final `return` reads `e`, which Python unbinds when the `except` block ends (and which is never bound when Imagen succeeds), so every path that reaches it raises | any valid request with a non-blank prompt, successful or falling back to the placeholder | answer with the data URI of the image and the model name | high (not executed) | BackendImage.AsWrittenNeverAnswers | BackendImage.GenerateOutcome |
| frontend/src/pages/prompt_to_image.tsx:85-88 | a replacing span without a numeric score keeps the previous span's score | spans ("PERSON", "a", 0.9) then ("PERSON", "ab", no score) | the score reported is the kept span's own, or none | high (not executed) | PromptToImage.StaleScore | PromptToImage.FoldIsChosen |
| src/main/nlp/convert_data.py:55-64 | the trimming loops run before the offsets are clamped. Whitespace past the end of the text survives, and a start below `-len(text)` raises `IndexError` | text "ab " with offsets 0..5 hands `char_span` the range 0..3 with the trailing space; text "ab" with offsets -5..1 stops the script | clamp first, then trim, so a kept span never starts or ends with whitespace and no entry raises | medium (not executed) | ConvertData.SpanOfKeepsSpace | ConvertData.FixedSpanOf |
| src/main/nlp/check_label.py:73 | the invalid-JSON message reports `total_lines + 1`, but `total_lines` already counts the bad line | an invalid first line is reported as line 2 | report the bad line's own 1-based number | high (not executed) | CheckLabel.ReportedLineOffByOne | CheckLabel.BadLineNumber |
| src/main/nlp/check_label.py:129-134 | the note about unshown examples is written only when the cap is hit before the last minority label, so examples cut from the last label go unreported | one minority label with 6 records and `max_examples` 5: five shown and no note; likewise an entity whose two labels have 7 and 6 records | report the number of examples not shown | medium (not executed) | CheckLabel.RemainderNotReported | CheckLabel.MoreCountsRest |
| src/main/prompts/batch_render_prompts.py:37 | `fields_from_obj` imports `line_to_fields` with a relative import, which raises `ImportError` when the script is run by its path as its usage line shows; the `except` counts the record as skipped | any record with `text` and `label` but no `fields` dict, under the documented command: skipped, even when `line_to_fields` would resolve every required field | resolve the fields from text and labels | medium (not executed) | RenderPrompts.ScriptSkipsTextRecords | RenderPrompts.FieldsFromObj |
