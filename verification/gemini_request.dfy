/** The request side of the native endpoints: the parsed `GeminiRequest`
    becomes the SDK's snake_case configuration map (`build_generation_config`)
    and its list of backend contents (`build_contents`). Pydantic parsing of
    the body happens before this and is not modelled; each field here is the
    value parsing produced. */
module GeminiRequest {
  import opened Wrappers
  import opened Json
  import Strings
  import Seqs

  datatype GenerationConfig = GenerationConfig(
    temperature: Option<real>,
    topP: Option<real>,
    topK: Option<int>,
    maxOutputTokens: Option<int>,
    stopSequences: Option<seq<string>>,
    candidateCount: Option<int>,
    seed: Option<int>,
    responseMimeType: Option<string>,
    responseSchema: Option<Dict>,
    presencePenalty: Option<real>,
    frequencyPenalty: Option<real>)

  datatype SafetySetting = SafetySetting(category: string, threshold: string)

  /** One turn: an optional role and its parts, each a raw dict. */
  datatype Content = Content(role: Option<string>, parts: seq<Dict>)

  datatype ToolConfig = ToolConfig(functionCallingConfig: Option<Dict>)

  datatype GeminiRequest = GeminiRequest(
    contents: seq<Content>,
    systemInstruction: Option<Content>,
    generationConfig: Option<GenerationConfig>,
    safetySettings: Option<seq<SafetySetting>>,
    tools: Option<seq<Dict>>,
    toolConfig: Option<ToolConfig>,
    cachedContent: Option<string>)

  /** A value of the configuration dict handed to the SDK. */
  datatype ConfigValue =
    | Number(r: real)
    | Integer(n: int)
    | TextList(items: seq<string>)
    | Text(s: string)
    | Object(d: Dict)
    | SafetyList(settings: seq<SafetySetting>)
    | ToolList(tools: seq<Dict>)

  type Config = map<string, ConfigValue>

  /** The translator's own failures before the backend is reached:
      `"\n".join` over a system-instruction "text" value that is not a string
      (a `TypeError`), and `.get` on a truthy part payload that is not a dict
      (an `AttributeError`). The SDK part constructors validate their
      arguments too; that validation is not part of this model. */
  datatype TranslationError = NonStringSystemText | NonDictPayload(key: string) {
    function Message(): string {
      match this
      case NonStringSystemText => "sequence item: expected str instance"
      case NonDictPayload(key) => "'" + key + "' payload has no attribute 'get'"
    }
  }

  /** The sampling keys, copied from `generationConfig`. */
  const SamplingKeys: set<string> := {
    "temperature", "top_p", "top_k", "max_output_tokens", "stop_sequences",
    "candidate_count", "seed", "response_mime_type", "response_schema"}

  /** Every key the configuration can hold. */
  const ConfigKeys: set<string> := SamplingKeys + ExtraKeys

  const BlockNone: string := "BLOCK_NONE"

  const HarmCategories: seq<string> := [
    "HARM_CATEGORY_HATE_SPEECH",
    "HARM_CATEGORY_DANGEROUS_CONTENT",
    "HARM_CATEGORY_SEXUALLY_EXPLICIT",
    "HARM_CATEGORY_HARASSMENT",
    "HARM_CATEGORY_CIVIC_INTEGRITY"]

  /** The permissive policy used when the caller sends none. */
  const DefaultSafety: seq<SafetySetting> := [
    SafetySetting(HarmCategories[0], BlockNone),
    SafetySetting(HarmCategories[1], BlockNone),
    SafetySetting(HarmCategories[2], BlockNone),
    SafetySetting(HarmCategories[3], BlockNone),
    SafetySetting(HarmCategories[4], BlockNone)]

  function NumberIf(v: Option<real>): Option<ConfigValue> {
    if v.Some? then Some(Number(v.value)) else None
  }

  function IntegerIf(v: Option<int>): Option<ConfigValue> {
    if v.Some? then Some(Integer(v.value)) else None
  }

  /** The value copied under one sampling key, if any. */
  function SamplingEntry(g: GenerationConfig, key: string): Option<ConfigValue> {
    if key == "temperature" then NumberIf(g.temperature)
    else if key == "top_p" then NumberIf(g.topP)
    else if key == "top_k" then IntegerIf(g.topK)
    else if key == "max_output_tokens" then IntegerIf(g.maxOutputTokens)
    else if key == "stop_sequences" then
      (if g.stopSequences.Some? && |g.stopSequences.value| > 0 then Some(TextList(g.stopSequences.value)) else None)
    else if key == "candidate_count" then IntegerIf(g.candidateCount)
    else if key == "seed" then IntegerIf(g.seed)
    else if key == "response_mime_type" then
      (if g.responseMimeType.Some? && |g.responseMimeType.value| > 0 then Some(Text(g.responseMimeType.value)) else None)
    else if key == "response_schema" then
      (if g.responseSchema.Some? && |g.responseSchema.value| > 0 then Some(Object(g.responseSchema.value)) else None)
    else None
  }

  /** The sampling part of `build_generation_config`. A numeric field is
      copied when it is not None; the stop sequences, the mime type and the
      schema only when they are non-empty. The penalties are never copied. */
  function SamplingConfig(gc: Option<GenerationConfig>): (r: Config)
    ensures r.Keys <= SamplingKeys
    ensures "temperature" in r <==> gc.Some? && gc.value.temperature.Some?
    ensures "temperature" in r ==> r["temperature"] == Number(gc.value.temperature.value)
    ensures "top_p" in r <==> gc.Some? && gc.value.topP.Some?
    ensures "top_p" in r ==> r["top_p"] == Number(gc.value.topP.value)
    ensures "top_k" in r <==> gc.Some? && gc.value.topK.Some?
    ensures "top_k" in r ==> r["top_k"] == Integer(gc.value.topK.value)
    ensures "max_output_tokens" in r <==> gc.Some? && gc.value.maxOutputTokens.Some?
    ensures "max_output_tokens" in r ==> r["max_output_tokens"] == Integer(gc.value.maxOutputTokens.value)
    ensures "stop_sequences" in r <==> gc.Some? && gc.value.stopSequences.Some? && |gc.value.stopSequences.value| > 0
    ensures "stop_sequences" in r ==> r["stop_sequences"] == TextList(gc.value.stopSequences.value)
    ensures "candidate_count" in r <==> gc.Some? && gc.value.candidateCount.Some?
    ensures "candidate_count" in r ==> r["candidate_count"] == Integer(gc.value.candidateCount.value)
    ensures "seed" in r <==> gc.Some? && gc.value.seed.Some?
    ensures "seed" in r ==> r["seed"] == Integer(gc.value.seed.value)
    ensures "response_mime_type" in r <==> gc.Some? && gc.value.responseMimeType.Some? && |gc.value.responseMimeType.value| > 0
    ensures "response_mime_type" in r ==> r["response_mime_type"] == Text(gc.value.responseMimeType.value)
    ensures "response_schema" in r <==> gc.Some? && gc.value.responseSchema.Some? && |gc.value.responseSchema.value| > 0
    ensures "response_schema" in r ==> r["response_schema"] == Object(gc.value.responseSchema.value)
  {
    match gc
    case None => map[]
    case Some(g) => map k | k in SamplingKeys && SamplingEntry(g, k).Some? :: SamplingEntry(g, k).value
  }

  /** The safety policy sent: the caller's settings one for one and in order
      when there are any, otherwise all five harm categories at BLOCK_NONE. */
  function SafetySettings(given: Option<seq<SafetySetting>>): (r: seq<SafetySetting>)
    ensures given.Some? && |given.value| > 0 ==> r == given.value
    ensures given.None? || |given.value| == 0 ==>
      && |r| == |HarmCategories|
      && (forall i :: 0 <= i < |r| ==> r[i].category == HarmCategories[i] && r[i].threshold == BlockNone)
  {
    if given.Some? && |given.value| > 0 then given.value else DefaultSafety
  }

  /** The five default categories are five different ones. */
  lemma HarmCategoriesDistinct()
    ensures Seqs.NoDuplicates(HarmCategories)
  {
  }

  /** The value under "text" of a part that has that key. */
  function TextOf(part: Dict): Option<Json> {
    Get(part, "text")
  }

  /** `[part["text"] for part in parts if "text" in part]` */
  function SystemTexts(parts: seq<Dict>): (r: seq<Json>)
    ensures |r| <= |parts|
    // one text per part that has a "text" key, in the parts' order
    ensures var idx := Seqs.KeptIndices(parts, TextOf);
      && |r| == |idx|
      && (forall i :: 0 <= i < |parts| ==> (HasKey(parts[i], "text") <==> i in idx))
      && (forall k :: 0 <= k < |r| ==> Get(parts[idx[k]], "text") == Some(r[k]))
  {
    Seqs.FilterMapKeepsExactly(parts, TextOf);
    Seqs.KeptIndicesAll(parts, TextOf);
    Seqs.FilterMap(parts, TextOf)
  }

  function AsString(j: Json): Option<string> {
    if j.JStr? then Some(j.s) else None
  }

  /** The system instruction: the newline-join of the text parts of the
      system turn, in order, or nothing when that turn has no text part. */
  function SystemInstruction(si: Option<Content>): (r: Result<Option<string>, TranslationError>)
    ensures si.None? ==> r == Success(None)
    ensures si.Some? ==>
      var texts := SystemTexts(si.value.parts);
      && (r.Failure? <==> exists i :: 0 <= i < |texts| && !texts[i].JStr?)
      && (r.Success? ==> (r.value.Some? <==> |texts| > 0))
      && (r.Success? && r.value.Some? ==>
            r.value.value == Strings.Join(Seqs.FilterMap(texts, AsString), '\n'))
  {
    match si
    case None => Success(None)
    case Some(c) =>
      var texts := SystemTexts(c.parts);
      if |texts| == 0 then Success(None)
      else if exists i :: 0 <= i < |texts| && !texts[i].JStr? then Failure(NonStringSystemText)
      else Success(Some(Strings.Join(Seqs.FilterMap(texts, AsString), '\n')))
  }

  /** Splitting the system instruction at newlines gives back the text parts
      of the system turn, in order, when none of them contains a newline:
      parts are neither lost, merged nor reordered. */
  lemma {:induction false} SystemInstructionKeepsTexts(c: Content)
    requires SystemInstruction(Some(c)).Success?
    requires SystemInstruction(Some(c)).value.Some?
    ensures var texts := SystemTexts(c.parts);
      forall i :: 0 <= i < |texts| ==> texts[i].JStr?
    ensures var texts := SystemTexts(c.parts);
      (forall i :: 0 <= i < |texts| ==> '\n' !in texts[i].s) ==>
        && |Strings.Split(SystemInstruction(Some(c)).value.value, '\n')| == |texts|
        && forall i :: 0 <= i < |texts| ==> Strings.Split(SystemInstruction(Some(c)).value.value, '\n')[i] == texts[i].s
  {
    var texts := SystemTexts(c.parts);
    Seqs.FilterMapAll(texts, AsString);
    var strs := Seqs.FilterMap(texts, AsString);
    if forall i :: 0 <= i < |texts| ==> '\n' !in texts[i].s {
      assert forall i :: 0 <= i < |strs| ==> strs[i] == texts[i].s;
      Strings.SplitJoin(strs, '\n');
    }
  }

  /** The keys set after the sampling ones. */
  const ExtraKeys: set<string> := {"safety_settings", "system_instruction", "tools", "tool_config"}

  /** No key is both a sampling key and a later one. */
  lemma KeyGroupsDisjoint()
    ensures forall k :: k in SamplingKeys ==> k !in ExtraKeys
  {
  }

  function FunctionCallingConfig(req: GeminiRequest): Option<Dict> {
    if req.toolConfig.Some? then req.toolConfig.value.functionCallingConfig else None
  }

  /** The value set under one of the later keys, if any. */
  function ExtraEntry(req: GeminiRequest, instruction: Option<string>, key: string): Option<ConfigValue> {
    if key == "safety_settings" then Some(SafetyList(SafetySettings(req.safetySettings)))
    else if key == "system_instruction" then
      (if instruction.Some? then Some(Text(instruction.value)) else None)
    else if key == "tools" then
      (if req.tools.Some? && |req.tools.value| > 0 then Some(ToolList(req.tools.value)) else None)
    else if key == "tool_config" then
      var fcc := FunctionCallingConfig(req);
      (if fcc.Some? && |fcc.value| > 0 then Some(Object([("function_calling_config", JObj(fcc.value))])) else None)
    else None
  }

  /** The keys set after the sampling ones: the safety policy always, the
      rest only when the request carries something for them. */
  function ExtraConfig(req: GeminiRequest, instruction: Option<string>): (r: Config)
    ensures r.Keys <= ExtraKeys
    ensures "safety_settings" in r && r["safety_settings"] == SafetyList(SafetySettings(req.safetySettings))
    ensures "system_instruction" in r <==> instruction.Some?
    ensures "system_instruction" in r ==> r["system_instruction"] == Text(instruction.value)
    ensures "tools" in r <==> req.tools.Some? && |req.tools.value| > 0
    ensures "tools" in r ==> r["tools"] == ToolList(req.tools.value)
    ensures var fcc := FunctionCallingConfig(req);
      && ("tool_config" in r <==> fcc.Some? && |fcc.value| > 0)
      && ("tool_config" in r ==> r["tool_config"] == Object([("function_calling_config", JObj(fcc.value))]))
  {
    map k | k in ExtraKeys && ExtraEntry(req, instruction, k).Some? :: ExtraEntry(req, instruction, k).value
  }

  /** The later keys read only the safety settings, the tools and the
      tool config of the request. */
  lemma ExtraConfigReadsThreeFields(req: GeminiRequest, req': GeminiRequest, instruction: Option<string>)
    requires req'.safetySettings == req.safetySettings && req'.tools == req.tools && req'.toolConfig == req.toolConfig
    ensures ExtraConfig(req', instruction) == ExtraConfig(req, instruction)
  {
    forall k
      ensures ExtraEntry(req', instruction, k) == ExtraEntry(req, instruction, k)
    {
      assert FunctionCallingConfig(req') == FunctionCallingConfig(req);
    }
  }

  /** `build_generation_config`: the sampling keys first, then the rest;
      the two groups never share a key, so neither overrides the other. */
  function BuildGenerationConfig(req: GeminiRequest): (r: Result<Config, TranslationError>)
    ensures r.Failure? <==> SystemInstruction(req.systemInstruction).Failure?
    ensures r.Failure? ==> r.error == SystemInstruction(req.systemInstruction).error
    ensures r.Success? ==> r.value.Keys <= ConfigKeys
    ensures r.Success? ==>
      var sampling := SamplingConfig(req.generationConfig);
      var extras := ExtraConfig(req, SystemInstruction(req.systemInstruction).value);
      && (forall k :: k in r.value <==> k in sampling || k in extras)
      && (forall k :: k in sampling ==> k !in extras && r.value[k] == sampling[k])
      && (forall k :: k in extras ==> r.value[k] == extras[k])
  {
    match SystemInstruction(req.systemInstruction)
    case Failure(e) => Failure(e)
    case Success(instruction) =>
      var sampling, extras := SamplingConfig(req.generationConfig), ExtraConfig(req, instruction);
      KeyGroupsDisjoint();
      Success(sampling + extras)
  }

  /** What the built configuration holds, key by key. */
  lemma GenerationConfigKeys(req: GeminiRequest)
    // the sampling keys are exactly those of SamplingConfig
    ensures BuildGenerationConfig(req).Success? ==> var r := BuildGenerationConfig(req).value;
      forall k :: k in SamplingKeys ==>
        (k in r <==> k in SamplingConfig(req.generationConfig))
        && (k in r ==> r[k] == SamplingConfig(req.generationConfig)[k])
    // a safety policy is always sent
    ensures BuildGenerationConfig(req).Success? ==> var r := BuildGenerationConfig(req).value;
      && "safety_settings" in r
      && r["safety_settings"] == SafetyList(SafetySettings(req.safetySettings))
    ensures BuildGenerationConfig(req).Success? ==> var r := BuildGenerationConfig(req).value;
      && ("system_instruction" in r <==> SystemInstruction(req.systemInstruction).value.Some?)
      && ("system_instruction" in r ==>
            r["system_instruction"] == Text(SystemInstruction(req.systemInstruction).value.value))
    // tools go through verbatim, when there are any
    ensures BuildGenerationConfig(req).Success? ==> var r := BuildGenerationConfig(req).value;
      && ("tools" in r <==> req.tools.Some? && |req.tools.value| > 0)
      && ("tools" in r ==> r["tools"] == ToolList(req.tools.value))
    ensures BuildGenerationConfig(req).Success? ==> var r, fcc := BuildGenerationConfig(req).value, FunctionCallingConfig(req);
      && ("tool_config" in r <==> fcc.Some? && |fcc.value| > 0)
      && ("tool_config" in r ==>
            r["tool_config"] == Object([("function_calling_config", JObj(fcc.value))]))
  {
    KeyGroupsDisjoint();
  }

  /** The penalties are never copied into the sampling keys. */
  lemma SamplingIgnoresPenalties(g: GenerationConfig, presence: Option<real>, frequency: Option<real>)
    ensures SamplingConfig(Some(g.(presencePenalty := presence, frequencyPenalty := frequency))) == SamplingConfig(Some(g))
  {
    var g' := g.(presencePenalty := presence, frequencyPenalty := frequency);
    forall k
      ensures SamplingEntry(g', k) == SamplingEntry(g, k)
    {
    }
    var m := map k | k in SamplingKeys && SamplingEntry(g, k).Some? :: SamplingEntry(g, k).value;
    var m' := map k | k in SamplingKeys && SamplingEntry(g', k).Some? :: SamplingEntry(g', k).value;
    assert m == m';
    assert SamplingConfig(Some(g)) == m;
    assert SamplingConfig(Some(g')) == m';
  }

  /** The penalties and the cached-content reference have no effect on the
      configuration. */
  lemma IgnoredRequestFields(req: GeminiRequest, presence: Option<real>, frequency: Option<real>, cached: Option<string>)
    ensures var gc := match req.generationConfig
        case Some(g) => Some(g.(presencePenalty := presence, frequencyPenalty := frequency))
        case None => None;
      BuildGenerationConfig(req.(generationConfig := gc, cachedContent := cached)) == BuildGenerationConfig(req)
  {
    var gc := match req.generationConfig
      case Some(g) => Some(g.(presencePenalty := presence, frequencyPenalty := frequency))
      case None => None;
    var req' := req.(generationConfig := gc, cachedContent := cached);
    if req.generationConfig.Some? {
      SamplingIgnoresPenalties(req.generationConfig.value, presence, frequency);
    }
    assert SamplingConfig(gc) == SamplingConfig(req.generationConfig);
    if SystemInstruction(req.systemInstruction).Success? {
      ExtraConfigReadsThreeFields(req, req', SystemInstruction(req.systemInstruction).value);
    }
  }

  // ---- build_contents ----

  const OctetStream: string := "application/octet-stream"

  /** A backend part, holding the values the SDK constructor was given. */
  datatype BackendPart =
    | TextPart(text: Json)
    | BlobPart(data: Json, mimeType: Json)
    | CallPart(name: Json, args: Json)
    | ResponsePart(name: Json, response: Json)

  datatype BackendContent = BackendContent(role: string, parts: seq<BackendPart>)

  /** `part.get(camel) or part.get(snake)`: the camelCase payload when it is
      truthy, the snake_case one otherwise. */
  function Payload(part: Dict, camel: string, snake: string): Json {
    Or(GetOrNull(part, camel), GetOrNull(part, snake))
  }

  predicate HasEither(part: Dict, camel: string, snake: string) {
    HasKey(part, camel) || HasKey(part, snake)
  }

  /** One part of a turn. The first matching key decides: text, then inline
      data, then a function call, then a function response. A part that
      matches none, or whose payload is empty, is dropped (None). */
  function MapPart(part: Dict): (r: Result<Option<BackendPart>, TranslationError>)
    ensures HasKey(part, "text") ==> r == Success(Some(TextPart(Get(part, "text").value)))
    ensures r.Success? && r.value.Some? && r.value.value.BlobPart? ==>
      !HasKey(part, "text") && HasEither(part, "inlineData", "inline_data")
      && Truthy(Payload(part, "inlineData", "inline_data"))
    ensures r.Success? && r.value.Some? && r.value.value.CallPart? ==>
      !HasKey(part, "text") && !HasEither(part, "inlineData", "inline_data")
      && HasEither(part, "functionCall", "function_call")
    ensures r.Success? && r.value.Some? && r.value.value.ResponsePart? ==>
      !HasKey(part, "text") && !HasEither(part, "inlineData", "inline_data")
      && !HasEither(part, "functionCall", "function_call")
      && HasEither(part, "functionResponse", "function_response")
    ensures (!HasKey(part, "text") && !HasEither(part, "inlineData", "inline_data")
             && !HasEither(part, "functionCall", "function_call")
             && !HasEither(part, "functionResponse", "function_response")) ==> r == Success(None)
    // the mime type: camelCase key, then snake_case key, then the octet-stream default
    ensures r.Success? && r.value.Some? && r.value.value.BlobPart? ==>
      Payload(part, "inlineData", "inline_data").JObj? &&
      var data := Payload(part, "inlineData", "inline_data").fields;
      && r.value.value.data == GetOr(data, "data", JStr(""))
      && (HasKey(data, "mimeType") ==> r.value.value.mimeType == Get(data, "mimeType").value)
      && (!HasKey(data, "mimeType") && HasKey(data, "mime_type") ==> r.value.value.mimeType == Get(data, "mime_type").value)
      && (!HasKey(data, "mimeType") && !HasKey(data, "mime_type") ==> r.value.value.mimeType == JStr(OctetStream))
    // a truthy payload that is not a dict makes `.get` raise
    ensures r.Failure? ==> !HasKey(part, "text")
    // the branch that matches decides: an empty payload drops the part, a
    // payload that is not a dict raises, a dict gives the part
    ensures !HasKey(part, "text") && HasEither(part, "inlineData", "inline_data") ==>
      var data := Payload(part, "inlineData", "inline_data");
      && (!Truthy(data) ==> r == Success(None))
      && (Truthy(data) && !data.JObj? ==> r == Failure(NonDictPayload("inlineData")))
      && (Truthy(data) && data.JObj? ==> r.Success? && r.value.Some? && r.value.value.BlobPart?)
    ensures !HasKey(part, "text") && !HasEither(part, "inlineData", "inline_data")
            && HasEither(part, "functionCall", "function_call") ==>
      var fc := Payload(part, "functionCall", "function_call");
      && (!Truthy(fc) ==> r == Success(None))
      && (Truthy(fc) && !fc.JObj? ==> r == Failure(NonDictPayload("functionCall")))
      && (Truthy(fc) && fc.JObj? ==>
            r == Success(Some(CallPart(GetOr(fc.fields, "name", JStr("")), GetOr(fc.fields, "args", JObj([]))))))
    ensures !HasKey(part, "text") && !HasEither(part, "inlineData", "inline_data")
            && !HasEither(part, "functionCall", "function_call")
            && HasEither(part, "functionResponse", "function_response") ==>
      var fr := Payload(part, "functionResponse", "function_response");
      && (!Truthy(fr) ==> r == Success(None))
      && (Truthy(fr) && !fr.JObj? ==> r == Failure(NonDictPayload("functionResponse")))
      && (Truthy(fr) && fr.JObj? ==>
            r == Success(Some(ResponsePart(GetOr(fr.fields, "name", JStr("")), GetOr(fr.fields, "response", JObj([]))))))
  {
    if HasKey(part, "text") then Success(Some(TextPart(Get(part, "text").value)))
    else if HasEither(part, "inlineData", "inline_data") then
      var data := Payload(part, "inlineData", "inline_data");
      if !Truthy(data) then Success(None)
      else if !data.JObj? then Failure(NonDictPayload("inlineData"))
      else
        var d := data.fields;
        Success(Some(BlobPart(GetOr(d, "data", JStr("")), GetOr(d, "mimeType", GetOr(d, "mime_type", JStr(OctetStream))))))
    else if HasEither(part, "functionCall", "function_call") then
      var fc := Payload(part, "functionCall", "function_call");
      if !Truthy(fc) then Success(None)
      else if !fc.JObj? then Failure(NonDictPayload("functionCall"))
      else Success(Some(CallPart(GetOr(fc.fields, "name", JStr("")), GetOr(fc.fields, "args", JObj([])))))
    else if HasEither(part, "functionResponse", "function_response") then
      var fr := Payload(part, "functionResponse", "function_response");
      if !Truthy(fr) then Success(None)
      else if !fr.JObj? then Failure(NonDictPayload("functionResponse"))
      else Success(Some(ResponsePart(GetOr(fr.fields, "name", JStr("")), GetOr(fr.fields, "response", JObj([])))))
    else Success(None)
  }

  /** The part as kept or dropped, once `MapPart` has not raised. */
  function Kept(part: Dict): Option<BackendPart> {
    match MapPart(part)
    case Success(p) => p
    case Failure(_) => None
  }

  /** The parts of one turn. The first part that raises aborts the whole
      translation; otherwise the kept parts are exactly those `MapPart`
      keeps, in order. */
  function MapParts(parts: seq<Dict>): (r: Result<seq<BackendPart>, TranslationError>)
    ensures r.Success? <==> forall i :: 0 <= i < |parts| ==> MapPart(parts[i]).Success?
    ensures r.Success? ==> r.value == Seqs.FilterMap(parts, Kept)
    ensures r.Failure? ==> exists i :: 0 <= i < |parts| && MapPart(parts[i]) == Failure(r.error)
    decreases |parts|
  {
    if |parts| == 0 then Success([])
    else
      assert forall i :: 1 <= i < |parts| ==> parts[i] == parts[1..][i - 1];
      match MapPart(parts[0])
      case Failure(e) => Failure(e)
      case Success(p) =>
        match MapParts(parts[1..])
        case Failure(e) => Failure(e)
        case Success(rest) => Success((if p.Some? then [p.value] else []) + rest)
  }

  /** The translated parts are an order-preserving subsequence of the input
      parts: the k-th output part is the translation of the k-th input part
      that is kept, and every input part not kept is one `MapPart` drops. */
  lemma MapPartsIsSubsequence(parts: seq<Dict>)
    requires MapParts(parts).Success?
    ensures var out, idx := MapParts(parts).value, Seqs.KeptIndices(parts, Kept);
      && |out| == |idx|
      && (forall k :: 0 <= k < |idx| ==> MapPart(parts[idx[k]]) == Success(Some(out[k])))
  {
    Seqs.FilterMapKeepsExactly(parts, Kept);
  }

  /** `content.role or "user"` */
  function Role(role: Option<string>): (r: string)
    ensures |r| > 0
    ensures role.Some? && |role.value| > 0 ==> r == role.value
    ensures role.None? || |role.value| == 0 ==> r == "user"
  {
    if role.Some? && |role.value| > 0 then role.value else "user"
  }

  /** `build_contents`: one backend turn per request turn, in order, each
      with its role defaulted and its parts translated. */
  function BuildContents(contents: seq<Content>): (r: Result<seq<BackendContent>, TranslationError>)
    ensures r.Success? <==> forall i :: 0 <= i < |contents| ==> MapParts(contents[i].parts).Success?
    ensures r.Success? ==> |r.value| == |contents|
    ensures r.Success? ==> forall i :: 0 <= i < |contents| ==>
      && r.value[i].role == Role(contents[i].role)
      && MapParts(contents[i].parts) == Success(r.value[i].parts)
    decreases |contents|
  {
    if |contents| == 0 then Success([])
    else
      assert forall i :: 1 <= i < |contents| ==> contents[i] == contents[1..][i - 1];
      match MapParts(contents[0].parts)
      case Failure(e) => Failure(e)
      case Success(parts) =>
        match BuildContents(contents[1..])
        case Failure(e) => Failure(e)
        case Success(rest) => Success([BackendContent(Role(contents[0].role), parts)] + rest)
  }
}
