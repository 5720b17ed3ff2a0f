/** The batch image client: it optionally translates each prompt, posts it to
    the API server and saves the image the answer carries, decoding data URIs
    (section 3 of RFC 2397) and repairing base64 padding (section 4 of RFC
    4648). The translation model, the HTTP calls, base64 and percent
    decoding, MIME extension guessing and hashing are parameters. */
module BatchImages {
  import opened Wrappers
  import opened Strings
  import BackendImage

  type Byte = bv8

  // ---------------------------------------------------------------------------
  // `_translate_vi2en`

  /** What the translation model gives: an exception, or a response whose
      `text` attribute may be missing or `None`. */
  datatype ModelReply = ModelFailed | ModelText(text: Option<string>)

  /** `_translate_vi2en`; `model` is `None` when no model was set up. */
  function TranslateVi2En(text: string, model: Option<string -> ModelReply>): (r: string)
    ensures text == "" || model.None? ==> r == text
    ensures model.Some? && model.value(text).ModelFailed? ==> r == text
    ensures r != text ==> Strip(r) == r && r != ""
  {
    if text == "" || model.None? then text
    else match model.value(text)
      case ModelFailed => text
      case ModelText(t) =>
        var out := Strip(t.GetOr(""));
        StripIdempotent(t.GetOr(""), Py);
        if out != "" then out else text
  }

  /** A blank model answer gives back the input. */
  lemma TranslateBlankAnswer(text: string, model: string -> ModelReply)
    requires model(text).ModelText? && Strip(model(text).text.GetOr("")) == ""
    ensures TranslateVi2En(text, Some(model)) == text
  {
  }

  // ---------------------------------------------------------------------------
  // `_parse_data_uri`

  datatype DataUri = DataUri(mime: string, isBase64: bool, payload: string)

  datatype ParseError =
    | NotDataUri   // the `assert` on the `data:` prefix
    | NoComma      // unpacking a one-element `split` result

  /** Some `;`-parameter after the media type is "base64", ignoring case. */
  predicate HasBase64Param(params: seq<string>) {
    exists i :: 0 <= i < |params| && Lower(params[i]) == "base64"
  }

  /** `_parse_data_uri`: the header runs to the first comma, the payload is
      everything after it. */
  function ParseDataUri(uri: string): Result<DataUri, ParseError> {
    if !StartsWith(uri, "data:") then Err(NotDataUri)
    else match IndexOf(uri, ',')
      case None => Err(NoComma)
      case Some(c) =>
        if c < 5 then Err(NoComma)   // cannot happen: "data:" has no comma
        else
          var parts := Split(uri[5..c], ";");
          Ok(DataUri(parts[0], HasBase64Param(parts[1..]), uri[c + 1..]))
  }

  /** A URI without the prefix or without a comma is refused, and every
      other one parses. */
  lemma ParseDataUriErrors(uri: string)
    ensures !StartsWith(uri, "data:") ==> ParseDataUri(uri) == Err(NotDataUri)
    ensures StartsWith(uri, "data:") && ',' !in uri ==> ParseDataUri(uri) == Err(NoComma)
    ensures StartsWith(uri, "data:") && ',' in uri ==> ParseDataUri(uri).Ok?
  {
    if StartsWith(uri, "data:") && ',' in uri {
      CommaAfterPrefix(uri);
    }
  }

  /** The first comma of a `data:` URI lies after the prefix. */
  lemma CommaAfterPrefix(uri: string)
    requires StartsWith(uri, "data:") && IndexOf(uri, ',').Some?
    ensures IndexOf(uri, ',').value >= 5
  {
    var c := IndexOf(uri, ',').value;
    assert uri[..5] == "data:";
    assert forall j :: 0 <= j < 5 ==> uri[j] != ',';
  }

  /** A parsed URI is `data:` + a comma-free header + `,` + the payload; the
      media type is the header up to its first `;`, and the base64 flag says
      whether a later parameter reads "base64" in any case. */
  lemma ParseDataUriShape(uri: string)
    ensures var r := ParseDataUri(uri);
      r.Ok? ==> exists header ::
        ',' !in header && uri == "data:" + header + "," + r.value.payload &&
        r.value.mime == Split(header, ";")[0] &&
        (r.value.isBase64 <==> HasBase64Param(Split(header, ";")[1..]))
  {
    if StartsWith(uri, "data:") && IndexOf(uri, ',').Some? {
      CommaAfterPrefix(uri);
      var c := IndexOf(uri, ',').value;
      ParseAt(uri, c);
      var header := uri[5..c];
      assert uri == "data:" + header + "," + uri[c + 1..] by {
        assert uri[..5] == "data:";
        assert uri == uri[..5] + uri[5..c] + [uri[c]] + uri[c + 1..];
      }
      assert ',' !in header by {
        assert forall j :: 0 <= j < |header| ==> header[j] == uri[..c][5 + j];
      }
    }
  }

  /** Assembling a URI from a comma-free header and any payload and parsing
      it gives back the payload, the header's media type and its base64
      flag: the converse of `ParseDataUriShape`. */
  lemma ParseOfParts(header: string, payload: string)
    requires ',' !in header
    ensures ParseDataUri("data:" + header + "," + payload) ==
      Ok(DataUri(Split(header, ";")[0], HasBase64Param(Split(header, ";")[1..]), payload))
  {
    var pre := "data:" + header;
    var uri := pre + "," + payload;
    assert ',' !in pre by {
      assert forall j :: 0 <= j < |pre| ==> pre[j] == if j < 5 then "data:"[j] else header[j - 5];
    }
    FirstCommaAt(pre, payload);
    assert uri[..5] == "data:";
    ParseAt(uri, |pre|);
    assert uri[5..|pre|] == header;
    assert uri[|pre| + 1..] == payload;
    assert "data:" + header + "," + payload == uri;
  }

  lemma ParseAt(uri: string, c: nat)
    requires StartsWith(uri, "data:") && IndexOf(uri, ',') == Some(c) && 5 <= c
    ensures ParseDataUri(uri) ==
      Ok(DataUri(Split(uri[5..c], ";")[0], HasBase64Param(Split(uri[5..c], ";")[1..]), uri[c + 1..]))
  {
  }

  /** The data URI the API server builds parses back into its parts, for a
      MIME type without `,` or `;`, whatever the payload holds. */
  lemma ParseToDataUri(bytes: seq<Byte>, mime: string, b64: seq<Byte> -> string)
    requires ',' !in mime && ';' !in mime
    ensures ParseDataUri(BackendImage.ToDataUri(bytes, mime, b64)) == Ok(DataUri(mime, true, b64(bytes)))
  {
    ParseBase64Uri(mime, b64(bytes));
  }

  /** A base64 data URI whose media type has no `,` or `;` parses back to
      that media type and payload. */
  lemma ParseBase64Uri(mime: string, payload: string)
    requires ',' !in mime && ';' !in mime
    ensures ParseDataUri("data:" + mime + ";base64," + payload) == Ok(DataUri(mime, true, payload))
  {
    var header := mime + ";base64";
    assert "data:" + mime + ";base64," + payload == "data:" + header + "," + payload;
    ParseOfParts(header, payload);
    SplitBase64Param(mime);
    LowerBase64();
    assert Split(header, ";")[1..][0] == "base64";
  }

  lemma LowerBase64()
    ensures Lower("base64") == "base64"
  {
  }

  /** In `a + "," + b` with no comma in `a`, the first comma follows `a`. */
  lemma FirstCommaAt(a: string, b: string)
    requires ',' !in a
    ensures IndexOf(a + "," + b, ',') == Some(|a|)
  {
    var s := a + "," + b;
    assert s[|a|] == ',';
    assert forall j :: 0 <= j < |a| ==> s[j] == a[j];
    var r := IndexOf(s, ',');
    assert r.Some?;
    assert forall j :: 0 <= j < r.value ==> s[..r.value][j] == s[j];
  }

  /** Splitting `x;base64` on `;` when `x` has no `;`. */
  lemma {:induction false} SplitBase64Param(x: string)
    requires ';' !in x
    ensures Split(x + ";base64", ";") == [x, "base64"]
    decreases |x|
  {
    var s := x + ";base64";
    if x == [] {
      assert s[1..] == "base64";
      SplitNoSepChar("base64", ';');
    } else {
      assert s[0] == x[0] != ';';
      assert s[1..] == x[1..] + ";base64";
      SplitBase64Param(x[1..]);
      assert [x[0]] + x[1..] == x;
    }
  }

  // ---------------------------------------------------------------------------
  // `_fix_b64`

  /** The number of `=` that completes a length to a multiple of four:
      Python's `-n % 4`. */
  function PadCount(n: nat): (k: nat)
    ensures k < 4 && (n + k) % 4 == 0
    ensures k == (-(n as int)) % 4
  {
    if n % 4 == 0 then 0 else 4 - n % 4
  }

  /** The text after the first comma, or all of it without one:
      `s.split(",", 1)[-1]`. */
  function AfterFirstComma(s: string): string {
    match IndexOf(s, ',')
    case None => s
    case Some(c) => s[c + 1..]
  }

  /** The stripped input without its `data:...,` header. */
  function Payload(s: string): string {
    var t := Strip(s);
    if StartsWith(t, "data:") then AfterFirstComma(t) else t
  }

  /** `s += "=" * (-len(s) % 4)`. */
  function Pad(v: string): (r: string)
    ensures |r| % 4 == 0 && |v| <= |r| < |v| + 4
    ensures r[..|v|] == v && r[|v|..] == Repeat('=', |r| - |v|)
  {
    var r := v + Repeat('=', PadCount(|v|));
    assert r[..|v|] == v && r[|v|..] == Repeat('=', PadCount(|v|));
    r
  }

  /** `_fix_b64`: strip, drop a `data:...,` header, remove all whitespace,
      pad with `=` to a multiple of four. */
  function FixB64(s: string): (r: string)
    ensures forall i :: 0 <= i < |r| ==> !IsPySpace(r[i])
    ensures |r| % 4 == 0
    ensures exists k :: 0 <= k < 4 && r == RemoveSpaces(Payload(s)) + Repeat('=', k)
  {
    var v := RemoveSpaces(Payload(s));
    var r := Pad(v);
    assert r == r[..|v|] + r[|v|..];
    assert forall i :: |v| <= i < |r| ==> r[i] == r[|v|..][i - |v|] == '=';
    r
  }

  /** Repairing repaired base64 changes nothing, unless the repaired text
      itself starts with `data:`. */
  lemma FixB64Idempotent(s: string)
    requires !StartsWith(FixB64(s), "data:")
    ensures FixB64(FixB64(s)) == FixB64(s)
  {
    var r := FixB64(s);
    StripNoSpace(r);
    assert Payload(r) == r;
    RemoveSpacesNoop(r);
    assert PadCount(|r|) == 0;
    assert Pad(r) == r;
  }

  /** A string with no whitespace is its own strip. */
  lemma StripNoSpace(s: string)
    requires forall i :: 0 <= i < |s| ==> !IsPySpace(s[i])
    ensures Strip(s) == s
  {
    if s != [] {
      assert !IsSpace(s[0], Py) && !IsSpace(s[|s| - 1], Py);
      StripNoop(s, Py);
    }
  }

  // ---------------------------------------------------------------------------
  // `_pick_ext_from_mime`

  /** `_pick_ext_from_mime`; `guess` is `mimetypes.guess_extension`, whose
      `None` or "" falls back to the default. */
  function PickExt(mime: string, default: string, guess: string -> Option<string>): (ext: string)
    ensures mime == "image/jpeg" ==> ext == ".jpg"
    ensures StartsWith(mime, "image/svg") ==> ext == ".svg"
    ensures !StartsWith(mime, "image/svg") && mime != "image/jpeg" ==>
      ext == (if guess(mime).Some? && guess(mime).value != "" then guess(mime).value else default)
  {
    assert StartsWith(mime, "image/svg") ==> mime[6] == 's' && mime != "image/jpeg";
    var ext := guess(mime).GetOr("");
    var ext := if ext == "" then default else ext;
    var ext := if StartsWith(mime, "image/svg") then ".svg" else ext;
    if mime == "image/jpeg" then ".jpg" else ext
  }

  // ---------------------------------------------------------------------------
  // `save_image_from_response`

  /** The file written: `{idx:05d}_{hash}{ext}` in the output directory,
      and its bytes. */
  datatype Saved = Saved(idx: nat, hash: string, ext: string, bytes: seq<Byte>)

  /** The external operations a save uses. */
  datatype Codecs = Codecs(
    b64decode: string -> Option<seq<Byte>>,    // `base64.b64decode(..., validate=False)`; None when it raises

    unquote: string -> seq<Byte>,              // `urllib.parse.unquote_to_bytes`
    guess: string -> Option<string>,           // `mimetypes.guess_extension`
    download: string -> Result<(Option<string>, seq<Byte>), string>)  // `requests.get` + `raise_for_status`

  /** Why a save raises: a malformed data URI, a payload `b64decode`
      rejects (`binascii.Error`, for instance the repaired "A===" of a
      one-character payload), or a failed download. */
  datatype SaveError = BadDataUri(e: ParseError) | BadBase64 | DownloadFailed(msg: string)

  /** `base64.b64decode(_fix_b64(s), validate=False)`, or its error. */
  function DecodeB64(s: string, c: Codecs): Result<seq<Byte>, SaveError> {
    match c.b64decode(FixB64(s))
    case None => Err(BadBase64)
    case Some(bytes) => Ok(bytes)
  }

  /** The file a data URI is saved to. */
  function SaveDataUri(uri: string, idx: nat, hash: string, c: Codecs): Result<Saved, SaveError> {
    match ParseDataUri(uri)
    case Err(e) => Err(BadDataUri(e))
    case Ok(d) =>
      var ext := PickExt(d.mime, ".png", c.guess);
      if !d.isBase64 then Ok(Saved(idx, hash, ext, c.unquote(d.payload)))
      else match DecodeB64(d.payload, c)
        case Err(e) => Err(e)
        case Ok(bytes) => Ok(Saved(idx, hash, ext, bytes))
  }

  /** `save_image_from_response`: `None` when the answer carries neither a
      non-empty `image_base64` nor a non-empty `image_url`. */
  function SaveImage(imageUrl: Option<string>, imageB64: Option<string>, idx: nat, hash: string, c: Codecs)
    : Result<Option<Saved>, SaveError>
  {
    if imageB64.Some? && imageB64.value != "" then
      if StartsWith(imageB64.value, "data:") then
        match SaveDataUri(imageB64.value, idx, hash, c)
        case Err(e) => Err(e)
        case Ok(s) => Ok(Some(s))
      else
        match DecodeB64(imageB64.value, c)
        case Err(e) => Err(e)
        case Ok(bytes) => Ok(Some(Saved(idx, hash, ".png", bytes)))
    else if imageUrl.Some? && imageUrl.value != "" then
      if StartsWith(imageUrl.value, "data:") then
        match SaveDataUri(imageUrl.value, idx, hash, c)
        case Err(e) => Err(e)
        case Ok(s) => Ok(Some(s))
      else
        match c.download(imageUrl.value)
        case Err(msg) => Err(DownloadFailed(msg))
        case Ok((ctype, content)) => Ok(Some(Saved(idx, hash, PickExt(ctype.GetOr("image/png"), ".png", c.guess), content)))
    else Ok(None)
  }

  /** The precedence of the save: a non-empty `image_base64` without a
      `data:` prefix is decoded after repair and saved as ".png", or the
      save raises when the decoder rejects it; without either key nothing is
      saved; whatever is saved carries the line number and the prompt
      hash. */
  lemma SavePrecedence(imageUrl: Option<string>, imageB64: Option<string>, idx: nat, hash: string, c: Codecs)
    ensures var r := SaveImage(imageUrl, imageB64, idx, hash, c);
      (imageB64.Some? && imageB64.value != "" && !StartsWith(imageB64.value, "data:") ==>
        r == if c.b64decode(FixB64(imageB64.value)).None? then Err(BadBase64)
             else Ok(Some(Saved(idx, hash, ".png", c.b64decode(FixB64(imageB64.value)).value)))) &&
      ((imageB64.None? || imageB64.value == "") && (imageUrl.None? || imageUrl.value == "") ==> r == Ok(None)) &&
      (r.Ok? && r.value.Some? ==> r.value.value.idx == idx && r.value.value.hash == hash)
  {
  }

  /** A non-empty `image_base64` decides the save: the URL is then never
      looked at. */
  lemma Base64First(url1: Option<string>, url2: Option<string>, b64: string, idx: nat, hash: string, c: Codecs)
    requires b64 != ""
    ensures SaveImage(url1, Some(b64), idx, hash, c) == SaveImage(url2, Some(b64), idx, hash, c)
  {
  }

  /** The backend's answer, saved from `image_base64`, is written with the
      decoded bytes of its payload and the extension of its MIME type, or
      the save raises when the decoder rejects the payload. */
  lemma SaveBackendAnswer(bytes: seq<Byte>, mime: string, b64: seq<Byte> -> string, url: Option<string>,
                          idx: nat, hash: string, c: Codecs)
    requires ',' !in mime && ';' !in mime
    ensures SaveImage(url, Some(BackendImage.ToDataUri(bytes, mime, b64)), idx, hash, c)
         == if c.b64decode(FixB64(b64(bytes))).None? then Err(BadBase64)
            else Ok(Some(Saved(idx, hash, PickExt(mime, ".png", c.guess), c.b64decode(FixB64(b64(bytes))).value)))
  {
    ParseToDataUri(bytes, mime, b64);
  }

  // ---------------------------------------------------------------------------
  // `main`

  /** The server's answer to one post. */
  datatype PostResult =
    | Unavailable                          // HTTP 503
    | HttpFailed(status: int)              // `raise_for_status` raised
    | PostRaised                           // any other exception of the post
    | Answer(imageUrl: Option<string>, imageB64: Option<string>)

  /** One line of the prompts file: not JSON, or its `prompt` (absent or
      `null` as `None`) and what the server answers when it is posted. */
  datatype PromptLine = BadJson | PromptJson(prompt: Option<string>, server: PostResult)

  /** The hash of a prompt, `sha1(...).hexdigest()[:10]`. */
  type Hasher = string -> string

  /** The prompt actually posted for a non-blank line. */
  function FinalPrompt(vi: string, model: Option<string -> ModelReply>): string {
    if model.Some? then TranslateVi2En(vi, model) else vi
  }

  /** The file a line of the prompts file ends up in, if any. A line that is
      not JSON has none (and stops the run before this matters). */
  function LineFile(line: PromptLine, idx: nat, hash: Hasher, c: Codecs, model: Option<string -> ModelReply>): Option<Saved> {
    match line
    case BadJson => None
    case PromptJson(prompt, server) =>
      var vi := Strip(prompt.GetOr(""));
      if vi == "" || !server.Answer? then None
      else
        match SaveImage(server.imageUrl, server.imageB64, idx, hash(FinalPrompt(vi, model)), c)
        case Ok(Some(f)) => Some(f)
        case _ => None
  }

  /** A line with a blank or missing prompt, one the server does not answer
      with an image, or one whose plain `image_base64` the decoder rejects,
      is a failure. */
  lemma FailingLines(line: PromptLine, idx: nat, hash: Hasher, c: Codecs, model: Option<string -> ModelReply>)
    requires line.PromptJson?
    ensures Strip(line.prompt.GetOr("")) == "" ==> LineFile(line, idx, hash, c, model).None?
    ensures !line.server.Answer? ==> LineFile(line, idx, hash, c, model).None?
    ensures line.server.Answer? && line.server.imageUrl.GetOr("") == "" && line.server.imageB64.GetOr("") == "" ==>
      LineFile(line, idx, hash, c, model).None?
    ensures line.server.Answer? && line.server.imageB64.GetOr("") != "" &&
            !StartsWith(line.server.imageB64.value, "data:") &&
            c.b64decode(FixB64(line.server.imageB64.value)).None? ==>
      LineFile(line, idx, hash, c, model).None?
  {
    if line.server.Answer? {
      var vi := Strip(line.prompt.GetOr(""));
      SavePrecedence(line.server.imageUrl, line.server.imageB64, idx, hash(FinalPrompt(vi, model)), c);
    }
  }

  /** A file written for a line is named after that line's number. */
  lemma LineFileIdx(line: PromptLine, idx: nat, hash: Hasher, c: Codecs, model: Option<string -> ModelReply>)
    ensures LineFile(line, idx, hash, c, model).Some? ==> LineFile(line, idx, hash, c, model).value.idx == idx
  {
    if line.PromptJson? && line.server.Answer? {
      var vi := Strip(line.prompt.GetOr(""));
      SavePrecedence(line.server.imageUrl, line.server.imageB64, idx, hash(FinalPrompt(vi, model)), c);
    }
  }

  /** What `main` does with one line: `true` for `ok`, `false` for `fail`,
      and the file it writes. */
  method ProcessLine(line: PromptLine, idx: nat, hash: Hasher, c: Codecs, model: Option<string -> ModelReply>)
    returns (saved: bool, file: Option<Saved>)
    requires line.PromptJson?
    ensures file == LineFile(line, idx, hash, c, model)
    ensures saved <==> file.Some?
    ensures file.Some? ==> file.value.idx == idx
  {
    var vi := Strip(line.prompt.GetOr(""));
    if vi == "" {
      return false, None;
    }
    var prompt := if model.Some? then TranslateVi2En(vi, model) else vi;
    match line.server {
      case Unavailable => return false, None;
      case HttpFailed(_) => return false, None;
      case PostRaised => return false, None;
      case Answer(url, b64) =>
        var s := SaveImage(url, b64, idx, hash(prompt), c);
        SavePrecedence(url, b64, idx, hash(prompt), c);
        if s.Err? || s.value.None? {
          return false, None;
        }
        return true, s.value;
    }
  }

  /** The outcome of line `j` (0-based), whose file is named after `j + 1`. */
  function Outcome(lines: seq<PromptLine>, j: nat, hash: Hasher, c: Codecs, model: Option<string -> ModelReply>): Option<Saved>
    requires j < |lines|
  {
    LineFile(lines[j], j + 1, hash, c, model)
  }

  /** The files among the per-line outcomes, in order. */
  function Somes(outs: seq<Option<Saved>>): seq<Saved> {
    if outs == [] then []
    else Somes(outs[..|outs| - 1]) + (if outs[|outs| - 1].Some? then [outs[|outs| - 1].value] else [])
  }

  lemma SomesSnoc(outs: seq<Option<Saved>>, o: Option<Saved>)
    ensures Somes(outs + [o]) == Somes(outs) + (if o.Some? then [o.value] else [])
  {
    assert (outs + [o])[..|outs|] == outs;
  }

  lemma OutcomesSnoc(lines: seq<PromptLine>, outs: seq<Option<Saved>>, file: Option<Saved>, hash: Hasher, c: Codecs, model: Option<string -> ModelReply>)
    requires |outs| < |lines| && forall j :: 0 <= j < |outs| ==> outs[j] == Outcome(lines, j, hash, c, model)
    requires file == LineFile(lines[|outs|], |outs| + 1, hash, c, model)
    ensures forall j :: 0 <= j < |outs| + 1 ==> (outs + [file])[j] == Outcome(lines, j, hash, c, model)
  {
  }

  /** The files are named after their lines: in range and in strictly
      increasing line order, so no two share an index. */
  lemma FilesInLineOrder(lines: seq<PromptLine>, outs: seq<Option<Saved>>, hash: Hasher, c: Codecs, model: Option<string -> ModelReply>)
    requires |outs| == |lines| && forall j :: 0 <= j < |lines| ==> outs[j] == Outcome(lines, j, hash, c, model)
    ensures forall k :: 0 <= k < |Somes(outs)| ==> 1 <= Somes(outs)[k].idx <= |lines|
    ensures forall k, l :: 0 <= k < l < |Somes(outs)| ==> Somes(outs)[k].idx < Somes(outs)[l].idx
  {
    forall j | 0 <= j < |outs|
      ensures outs[j].Some? ==> outs[j].value.idx == j + 1
    {
      OutcomeIdx(lines, j, hash, c, model);
    }
    SomesIdx(outs);
  }

  lemma OutcomeIdx(lines: seq<PromptLine>, j: nat, hash: Hasher, c: Codecs, model: Option<string -> ModelReply>)
    requires j < |lines|
    ensures Outcome(lines, j, hash, c, model).Some? ==> Outcome(lines, j, hash, c, model).value.idx == j + 1
  {
    LineFileIdx(lines[j], j + 1, hash, c, model);
  }

  /** When each present outcome carries its 1-based position, the files come
      out with strictly increasing indices between 1 and `|outs|`. */
  lemma {:induction false} SomesIdx(outs: seq<Option<Saved>>)
    requires forall j :: 0 <= j < |outs| ==> outs[j].Some? ==> outs[j].value.idx == j + 1
    ensures forall k :: 0 <= k < |Somes(outs)| ==> 1 <= Somes(outs)[k].idx <= |outs|
    ensures forall k, l :: 0 <= k < l < |Somes(outs)| ==> Somes(outs)[k].idx < Somes(outs)[l].idx
  {
    if outs != [] {
      var p := outs[..|outs| - 1];
      assert forall j :: 0 <= j < |p| ==> p[j] == outs[j];
      SomesIdx(p);
    }
  }

  /** `main`: a line that is not JSON stops the run (the parse is outside
      the `try`); every other line adds one to exactly one of `ok` and
      `fail`, and `ok` counts the lines whose image was saved. `outs[j]` is
      the outcome of line `j`, and the saved files are the present outcomes
      in line order. */
  method RunBatch(lines: seq<PromptLine>, hash: Hasher, c: Codecs, model: Option<string -> ModelReply>)
    returns (r: Result<(nat, nat), nat>, files: seq<Saved>, ghost outs: seq<Option<Saved>>)
    ensures r.Err? ==> (r.error < |lines| && lines[r.error].BadJson? &&
      forall j :: 0 <= j < r.error ==> lines[j].PromptJson?)
    ensures r.Ok? ==> forall j :: 0 <= j < |lines| ==> lines[j].PromptJson?
    ensures r.Ok? ==> |outs| == |lines| && forall j :: 0 <= j < |lines| ==> outs[j] == Outcome(lines, j, hash, c, model)
    ensures r.Ok? ==> files == Somes(outs)
    ensures r.Ok? ==> r.value.0 + r.value.1 == |lines| && r.value.0 == |files|
  {
    var ok, fail := 0, 0;
    files, outs := [], [];
    var i := 0;
    while i < |lines|
      invariant 0 <= i <= |lines| && |outs| == i
      invariant forall j :: 0 <= j < i ==> lines[j].PromptJson?
      invariant forall j :: 0 <= j < i ==> outs[j] == Outcome(lines, j, hash, c, model)
      invariant files == Somes(outs)
      invariant ok + fail == i && ok == |files|
    {
      if lines[i].BadJson? {
        return Err(i), files, outs;
      }
      var saved, file := ProcessLine(lines[i], i + 1, hash, c, model);
      OutcomesSnoc(lines, outs, file, hash, c, model);
      SomesSnoc(outs, file);
      outs := outs + [file];
      if saved {
        ok := ok + 1;
        files := files + [file.value];
      } else {
        fail := fail + 1;
      }
      i := i + 1;
    }
    return Ok((ok, fail)), files, outs;
  }
}
