/** The image side of the API server: the aspect-ratio guess, the data URI,
    the Imagen call with its single minimal retry and its result extraction,
    and the `/generate` route that ties translation and generation together.
    The Imagen service, the base64 encoder and the placeholder drawing are
    parameters. */
module BackendImage {
  import opened Wrappers
  import opened Strings
  import BackendTranslate

  type Byte = bv8

  // ---------------------------------------------------------------------------
  // Aspect ratio

  /** `AspectRatioT`. */
  datatype AspectRatio = R1x1 | R3x4 | R4x3 | R9x16 | R16x9

  function AspectName(a: AspectRatio): string {
    match a
    case R1x1 => "1:1"
    case R3x4 => "3:4"
    case R4x3 => "4:3"
    case R9x16 => "9:16"
    case R16x9 => "16:9"
  }

  /** The entries of the `ratios` dict, in insertion order, and their
      constants. */
  const Aspects: seq<AspectRatio> := [R1x1, R3x4, R4x3, R9x16, R16x9]

  function RatioOf(a: AspectRatio): real {
    match a
    case R1x1 => 1.0
    case R3x4 => 0.75
    case R4x3 => 1.3333
    case R9x16 => 0.5625
    case R16x9 => 1.7777
  }

  function Dist(x: real, y: real): real {
    if x >= y then x - y else y - x
  }

  /** `Aspects[i]` is what `min(..., key=abs(v - r))` picks: no entry is
      closer to `r`, and every earlier entry is strictly farther. */
  ghost predicate FirstClosest(r: real, i: int) {
    0 <= i < |Aspects| &&
    (forall j :: 0 <= j < |Aspects| ==> Dist(RatioOf(Aspects[i]), r) <= Dist(RatioOf(Aspects[j]), r)) &&
    (forall j :: 0 <= j < i ==> Dist(RatioOf(Aspects[i]), r) < Dist(RatioOf(Aspects[j]), r))
  }

  /** The first closest entry among the first `n`. */
  function ClosestAmong(r: real, n: nat): (i: nat)
    requires 1 <= n <= |Aspects|
    ensures i < n
    ensures forall j :: 0 <= j < n ==> Dist(RatioOf(Aspects[i]), r) <= Dist(RatioOf(Aspects[j]), r)
    ensures forall j :: 0 <= j < i ==> Dist(RatioOf(Aspects[i]), r) < Dist(RatioOf(Aspects[j]), r)
  {
    if n == 1 then 0
    else
      var m := ClosestAmong(r, n - 1);
      if Dist(RatioOf(Aspects[n - 1]), r) < Dist(RatioOf(Aspects[m]), r) then n - 1 else m
  }

  /** `_guess_aspect_ratio`: "1:1" without two positive sides, otherwise the
      entry closest to width / height, the earlier one on a tie. */
  function GuessAspectRatio(width: Option<int>, height: Option<int>): (a: AspectRatio)
    ensures (width.None? || height.None? || width.value <= 0 || height.value <= 0) ==> a == R1x1
    ensures width.Some? && height.Some? && width.value > 0 && height.value > 0 ==>
      exists i :: FirstClosest(width.value as real / height.value as real, i) && a == Aspects[i]
  {
    if width.None? || height.None? || width.value <= 0 || height.value <= 0 then R1x1
    else
      var r := width.value as real / height.value as real;
      var i := ClosestAmong(r, |Aspects|);
      assert FirstClosest(r, i);
      Aspects[i]
  }

  lemma GuessFullHd()
    ensures GuessAspectRatio(Some(1920), Some(1080)) == R16x9
  {
    var r := 1920 as real / 1080 as real;
    assert r == 16.0 / 9.0;
    assert ClosestAmong(r, 1) == 0;
    assert ClosestAmong(r, 2) == 0;
    assert ClosestAmong(r, 3) == 2;
    assert ClosestAmong(r, 4) == 2;
    assert ClosestAmong(r, 5) == 4;
  }

  lemma GuessPortrait()
    ensures GuessAspectRatio(Some(768), Some(1024)) == R3x4
  {
    var r := 768 as real / 1024 as real;
    assert r == 0.75;
    assert ClosestAmong(r, 2) == 1;
    assert ClosestAmong(r, 5) == 1;
  }

  // ---------------------------------------------------------------------------
  // Data URI

  /** `_to_data_uri`; `b64` is the standard base64 encoder. */
  function ToDataUri(bytes: seq<Byte>, mime: string, b64: seq<Byte> -> string): string {
    "data:" + mime + ";base64," + b64(bytes)
  }

  // ---------------------------------------------------------------------------
  // The Imagen call

  /** `PeopleT`. */
  datatype People = DontAllow | AllowAdult | AllowAll

  /** The accepted `mime_type` values. */
  datatype Mime = Png | Jpeg

  function MimeName(m: Mime): string {
    if m == Png then "image/png" else "image/jpeg"
  }

  /** A `GenerateImagesConfig`; `includeRai` is set only by the full one. */
  datatype Config = Config(count: int, aspect: AspectRatio, people: People, includeRai: bool, mime: Mime)

  const MinimalConfig: Config := Config(1, R1x1, AllowAdult, false, Png)

  /** The value of an attribute of the returned image object: bytes, or
      anything else, truthy or not. */
  datatype AttrValue = Bytes(data: seq<Byte>) | Other(truthy: bool)

  predicate Truthy(v: AttrValue) {
    if v.Bytes? then v.data != [] else v.truthy
  }

  /** What one call of the service gives: the exception text, or the
      generated image objects (by their attributes) and the RAI reason (""
      when absent). */
  datatype Attempt = Raised(msg: string) | Returned(images: seq<map<string, AttrValue>>, raiReason: string)

  datatype ImagenError =
    | CallFailed(msg: string)    // the retry's exception, re-raised
    | Blocked(reason: string)    // `image_blocked: <reason>`
    | NoImage                    // `no_image_generated`
    | BytesMissing               // `image_bytes_missing`

  /** `str(e)` of each error. */
  function Message(e: ImagenError): string {
    match e
    case CallFailed(m) => m
    case Blocked(reason) => "image_blocked: " + reason
    case NoImage => "no_image_generated"
    case BytesMissing => "image_bytes_missing"
  }

  /** The attribute names searched, in order. */
  const AttrNames: seq<string> := ["image_bytes", "bytes", "data", "_image_bytes"]

  /** Index of the first attribute from position `k` on that is present and
      truthy. */
  function FirstTruthyFrom(obj: map<string, AttrValue>, k: nat): (r: Option<nat>)
    requires k <= |AttrNames|
    ensures r.Some? ==> k <= r.value < |AttrNames| && AttrNames[r.value] in obj && Truthy(obj[AttrNames[r.value]]) &&
                        forall j :: k <= j < r.value ==> !(AttrNames[j] in obj && Truthy(obj[AttrNames[j]]))
    ensures r.None? ==> forall j :: k <= j < |AttrNames| ==> !(AttrNames[j] in obj && Truthy(obj[AttrNames[j]]))
    decreases |AttrNames| - k
  {
    if k == |AttrNames| then None
    else if AttrNames[k] in obj && Truthy(obj[AttrNames[k]]) then Some(k)
    else FirstTruthyFrom(obj, k + 1)
  }

  /** The bytes the search finds: the first present truthy attribute, when
      it holds bytes. */
  function FoundBytes(obj: map<string, AttrValue>): Option<seq<Byte>> {
    match FirstTruthyFrom(obj, 0)
    case None => None
    case Some(i) => if obj[AttrNames[i]].Bytes? then Some(obj[AttrNames[i]].data) else None
  }

  /** The attribute-search loop with its `break`, and the check after it. */
  method SearchBytes(obj: map<string, AttrValue>) returns (r: Option<seq<Byte>>)
    ensures r == FoundBytes(obj)
    ensures r.Some? ==> r.value != []
  {
    var found: Option<AttrValue> := None;
    var i := 0;
    while i < |AttrNames|
      invariant 0 <= i <= |AttrNames|
      invariant FirstTruthyFrom(obj, 0) == FirstTruthyFrom(obj, i)
      invariant found.Some? ==> !Truthy(found.value)
    {
      var name := AttrNames[i];
      if name in obj {
        found := Some(obj[name]);
        if Truthy(obj[name]) {
          break;
        }
      }
      i := i + 1;
    }
    if found.None? || !Truthy(found.value) || !found.value.Bytes? {
      return None;
    }
    return Some(found.value.data);
  }

  /** The checks on a returned response. */
  function Extract(images: seq<map<string, AttrValue>>, raiReason: string): (r: Result<seq<Byte>, ImagenError>)
    ensures r.Ok? ==> images != [] && r.value != [] && FoundBytes(images[0]) == Some(r.value)
    ensures images == [] ==> r == (if raiReason != "" then Err(Blocked(raiReason)) else Err(NoImage))
    ensures images != [] && FoundBytes(images[0]).None? ==> r == Err(BytesMissing)
    ensures images != [] && FoundBytes(images[0]).Some? ==> r == Ok(FoundBytes(images[0]).value)
  {
    if images == [] then
      if raiReason != "" then Err(Blocked(raiReason)) else Err(NoImage)
    else
      match FoundBytes(images[0])
      case None => Err(BytesMissing)
      case Some(b) => Ok(b)
  }

  /** The configs that are sent: the full one, then the minimal one only if
      the full one raised. */
  function CallsMade(prompt: string, cfg: Config, imagen: (string, Config) -> Attempt): seq<Config> {
    if imagen(prompt, cfg).Raised? then [cfg, MinimalConfig] else [cfg]
  }

  /** What `_generate_with_imagen` returns or raises. */
  function ImagenOutcome(prompt: string, cfg: Config, imagen: (string, Config) -> Attempt): Result<seq<Byte>, ImagenError> {
    var last := imagen(prompt, CallsMade(prompt, cfg, imagen)[|CallsMade(prompt, cfg, imagen)| - 1]);
    if last.Raised? then Err(CallFailed(last.msg)) else Extract(last.images, last.raiReason)
  }

  /** `_generate_with_imagen`: `imagen` is the service, called with the
      prompt and a config; `calls` records the configs sent. */
  method GenerateWithImagen(prompt: string, cfg: Config, imagen: (string, Config) -> Attempt)
    returns (r: Result<seq<Byte>, ImagenError>, ghost calls: seq<Config>)
    ensures calls == CallsMade(prompt, cfg, imagen)
    ensures r == ImagenOutcome(prompt, cfg, imagen)
  {
    calls := [cfg];
    var resp := imagen(prompt, cfg);
    if resp.Raised? {
      calls := calls + [MinimalConfig];
      resp := imagen(prompt, MinimalConfig);
      if resp.Raised? {
        return Err(CallFailed(resp.msg)), calls;
      }
    }
    if resp.images == [] {
      if resp.raiReason != "" {
        return Err(Blocked(resp.raiReason)), calls;
      }
      return Err(NoImage), calls;
    }
    var b := SearchBytes(resp.images[0]);
    if b.None? {
      return Err(BytesMissing), calls;
    }
    return Ok(b.value), calls;
  }

  /** The full config is always sent first and there is at most one retry,
      with the minimal config; when the full config succeeds its response
      decides, when it raised the retry's response decides, and when the
      retry raises too its exception is the error. */
  lemma RetryOnce(prompt: string, cfg: Config, imagen: (string, Config) -> Attempt)
    ensures var calls := CallsMade(prompt, cfg, imagen);
      1 <= |calls| <= 2 && calls[0] == cfg &&
      (|calls| == 2 <==> imagen(prompt, cfg).Raised?) &&
      (|calls| == 2 ==> calls[1] == MinimalConfig)
    ensures imagen(prompt, cfg).Returned? ==>
      ImagenOutcome(prompt, cfg, imagen) == Extract(imagen(prompt, cfg).images, imagen(prompt, cfg).raiReason)
    ensures imagen(prompt, cfg).Raised? && imagen(prompt, MinimalConfig).Raised? ==>
      ImagenOutcome(prompt, cfg, imagen) == Err(CallFailed(imagen(prompt, MinimalConfig).msg))
    ensures imagen(prompt, cfg).Raised? && imagen(prompt, MinimalConfig).Returned? ==>
      ImagenOutcome(prompt, cfg, imagen) ==
        Extract(imagen(prompt, MinimalConfig).images, imagen(prompt, MinimalConfig).raiReason)
  {
  }

  // ---------------------------------------------------------------------------
  // The `/generate` route

  /** The default `IMAGEN_MODEL`. */
  const ImagenModel: string := "imagen-3.0-generate-002"

  /** A `GenReq` after type validation: `count` is still to be range-checked. */
  datatype GenReq = GenReq(prompt: string, aspect: Option<AspectRatio>, count: int, mime: Mime,
                           people: People, width: Option<int>, height: Option<int>)

  datatype GenOut = GenOut(imageUri: string, model: string)

  datatype HttpError =
    | Unprocessable              // 422: `number_of_images` outside [1, 4]
    | TranslationError(detail: string)   // 502 `translation_error: ...`
    | ImagenFailure(detail: string)      // 502 `imagen_error: ...`
    | Internal                   // 500: an uncaught exception

  /** `max(1, min(4, n))`. */
  function ClampCount(n: int): (r: int)
    ensures 1 <= r <= 4
    ensures 1 <= n <= 4 ==> r == n
    ensures n < 1 ==> r == 1
    ensures n > 4 ==> r == 4
  {
    if n < 1 then 1 else if n > 4 then 4 else n
  }

  /** The error texts that switch to the placeholder image. */
  predicate IsFallback(msg: string) {
    Contains(msg, "billed users") || Contains(msg, "INVALID_ARGUMENT")
  }

  /** The prompt line drawn on the placeholder: at most 100 characters, and
      "..." after them when cut. */
  function PromptExcerpt(p: string): (r: string)
    ensures |p| <= 100 ==> r == p
    ensures |p| > 100 ==> |r| == 103 && p[..100] <= r && EndsWith(r, "...")
  {
    if |p| > 100 then p[..100] + "..." else p
  }

  /** The config the route sends. */
  function RouteConfig(req: GenReq): Config {
    var aspect := if req.aspect.Some? then req.aspect.value else GuessAspectRatio(req.width, req.height);
    Config(ClampCount(req.count), aspect, req.people, true, req.mime)
  }

  /** `generate` as written: every path either raises an HTTP error on the
      way or reaches the final `return`, whose model label reads the
      exception name `e` that Python unbinds at the end of each `except`
      clause (and that the success path never binds), so it fails with an
      internal error. */
  function GenerateAsWritten(req: GenReq, reply: BackendTranslate.Reply, imagen: (string, Config) -> Attempt): (r: Result<GenOut, HttpError>)
    ensures r.Err?
    ensures !(1 <= req.count <= 4) ==> r == Err(Unprocessable)
  {
    if !(1 <= req.count <= 4) then Err(Unprocessable)
    else match BackendTranslate.TranslateOutcome(req.prompt, reply)
      case Err(_) => Err(TranslationError("translation_error: empty_prompt"))
      case Ok(en) =>
        match ImagenOutcome(en, RouteConfig(req), imagen)
        case Ok(_) => Err(Internal)
        case Err(e) => if IsFallback(Message(e)) then Err(Internal) else Err(ImagenFailure("imagen_error: " + Message(e)))
  }

  /** `generate` with the final `return` doing what it evidently means: the
      data URI of the generated bytes, or of the placeholder drawn for the
      prompt excerpt when the error is a billing or argument error.
      `draw` renders the placeholder, `b64` encodes. */
  function Generate(req: GenReq, reply: BackendTranslate.Reply, imagen: (string, Config) -> Attempt,
                    draw: string -> seq<Byte>, b64: seq<Byte> -> string): (r: Result<GenOut, HttpError>)
    ensures !(1 <= req.count <= 4) ==> r == Err(Unprocessable)
    ensures 1 <= req.count <= 4 && Strip(req.prompt) == "" ==> r == Err(TranslationError("translation_error: empty_prompt"))
    ensures r.Ok? ==> r.value.model == ImagenModel
  {
    if !(1 <= req.count <= 4) then Err(Unprocessable)
    else match BackendTranslate.TranslateOutcome(req.prompt, reply)
      case Err(_) => Err(TranslationError("translation_error: empty_prompt"))
      case Ok(en) =>
        match ImagenOutcome(en, RouteConfig(req), imagen)
        case Ok(bytes) => Ok(GenOut(ToDataUri(bytes, MimeName(req.mime), b64), ImagenModel))
        case Err(e) =>
          if IsFallback(Message(e)) then Ok(GenOut(ToDataUri(draw(PromptExcerpt(en)), MimeName(req.mime), b64), ImagenModel))
          else Err(ImagenFailure("imagen_error: " + Message(e)))
  }

  /** The route's outcome for a valid, non-blank request: it succeeds exactly
      when the Imagen call succeeds or fails with a fallback error; then the
      image is the generated bytes or the placeholder for the translated
      prompt, in the requested MIME type. Any other Imagen error is a 502
      carrying its text. */
  lemma GenerateOutcome(req: GenReq, reply: BackendTranslate.Reply, imagen: (string, Config) -> Attempt,
                        draw: string -> seq<Byte>, b64: seq<Byte> -> string)
    requires 1 <= req.count <= 4 && Strip(req.prompt) != ""
    ensures var en := BackendTranslate.TranslateOutcome(req.prompt, reply).value;
      var out := ImagenOutcome(en, RouteConfig(req), imagen);
      var r := Generate(req, reply, imagen, draw, b64);
      (r.Ok? <==> out.Ok? || IsFallback(Message(out.error))) &&
      (out.Ok? ==> r.value.imageUri == ToDataUri(out.value, MimeName(req.mime), b64)) &&
      (out.Err? && IsFallback(Message(out.error)) ==> r.value.imageUri == ToDataUri(draw(PromptExcerpt(en)), MimeName(req.mime), b64)) &&
      (r.Err? ==> r.error == ImagenFailure("imagen_error: " + Message(out.error)))
  {
  }

  /** The image count sent to the service is the requested one: validation
      already limits it to [1, 4], so the clamp never changes it; and the
      aspect ratio is the requested one or the guess from the size. */
  lemma RouteConfigShape(req: GenReq)
    requires 1 <= req.count <= 4
    ensures RouteConfig(req).count == req.count
    ensures req.aspect.Some? ==> RouteConfig(req).aspect == req.aspect.value
    ensures req.aspect.None? ==> RouteConfig(req).aspect == GuessAspectRatio(req.width, req.height)
  {
  }

  /** Wherever the intended route answers, the route as written fails with
      an internal error instead. */
  lemma AsWrittenNeverAnswers(req: GenReq, reply: BackendTranslate.Reply, imagen: (string, Config) -> Attempt,
                              draw: string -> seq<Byte>, b64: seq<Byte> -> string)
    ensures Generate(req, reply, imagen, draw, b64).Ok? ==> GenerateAsWritten(req, reply, imagen) == Err(Internal)
    ensures Generate(req, reply, imagen, draw, b64).Err? ==>
      GenerateAsWritten(req, reply, imagen) == Generate(req, reply, imagen, draw, b64)
  {
  }
}
