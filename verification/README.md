# Gemini native gateway core, in Dafny

This project models the part of the gateway that serves Google's native
Gemini API over Vertex AI, and the model catalogue behind it:

- **Caller-key check** (`get_gemini_api_key`). A key comes from `?key=`,
  `x-goog-api-key` or `Authorization: Bearer …`. A missing key is a 401,
  and so is a key the validator rejects.
- **Router** (`get_gemini_client`). A model name with the `[EXPRESS] `
  prefix, or a deployment with express keys but no service accounts, uses
  the express-key pool; otherwise the service-account pool is used. The
  prefix is stripped exactly once. On the express path, project-id
  discovery runs when the model name contains `gemini-2.5-pro`,
  `gemini-2.5-flash` or `gemini-3`.
- **Request translator** (`build_generation_config`, `build_contents`).
  Sampling fields are passed through, the default safety settings
  (`BLOCK_NONE` for five harm categories) are applied, and the system
  instruction becomes one newline-joined text. Tools and the
  function-calling configuration are passed through, and parts map to
  text, blob, function-call or function-response parts.
- **Response converter** (`convert_bytes_to_base64`,
  `convert_response_to_gemini_format`). It turns the SDK object into the
  native JSON shape. The SDK dump is base64-encoded byte by byte; the
  manual fallback is not, so it can keep raw bytes (see Findings).
- **Two generation endpoints.** `generateContent` gives a single reply
  with error envelopes 400/500; a reply that still holds bytes cannot be
  serialised and is answered with a 500. `streamGenerateContent` relays
  SSE frames; a chunk that still holds bytes, or a failing stream, ends it
  with one error frame. The handlers are modelled as written, and beside
  them with the corrected conversion.
- **Model catalogue** (`model_loader.py`). It holds 14 built-in defaults
  and two thinking-level aliases. It caches the remote `models.json`
  descriptor and the list of native model names discovered from the
  service account, falling back to the defaults.
- **Listing** `GET /v1/models`. It serves the distinct native names in
  ascending order, refreshing the native cache once when it is empty.

The modules follow the source. Shared helpers:

- `Wrappers` holds Option and Result.
- `Strings` covers `startswith`, `in`, `lower`, `replace`, `split`,
  `join`, `split(".")[-1]` and code-point order.
- `Json` holds the JSON value with ordered dicts, `dict.get`,
  truthiness, `or` and "json.dumps accepts it".
- `Base64` is the alphabet of section 4 of RFC 4648, with padding.
- `Seqs` covers filtered maps and first-occurrence de-duplication.

Modules for the core:

- `GeminiAuth` is the caller-key check.
- `Credentials` and `GeminiRouting` are the router.
- `GeminiRequest` is the request translator.
- `GeminiResponse` is the response converter.
- `GeminiEndpoints` covers the two handlers.
- `ModelLoader` is the catalogue.
- `ModelsApi` is the listing.

Everything the handlers reach outside these files enters as a parameter:

- the key validator;
- the credential and express-key pools, as counts plus the grant or key
  they hand out;
- project-id discovery;
- the parsed request body;
- the SDK call, including what `model_dump` gave;
- the outcome of the SDK stream;
- the HTTP fetch of the descriptor;
- the model listing;
- the clock.

The two caches are an explicit state value that each operation takes and
returns.

## Model

| member | source | states |
|---|---|---|
| GeminiAuth.Authenticate | app/routes/gemini_api.py:29-47 | the first non-empty source decides, query key before header key before bearer token; that key is accepted exactly when the validator approves it, and no key at all is the missing-key error |
| GeminiAuth.BearerToken | app/routes/gemini_api.py:35-36 | as written: a bearer key is read only from a header that starts with `Bearer `; the leading prefix is cut and every later `Bearer ` inside the token is removed too; when the token holds no further `Bearer `, the key is the header minus its prefix |
| GeminiAuth.BearerTokenCorrected | app/routes/gemini_api.py:35-36 | a bearer key is read only from a `Bearer ` header, and the prefix followed by the key is exactly the header |
| GeminiAuth.CallerKey | app/routes/gemini_api.py:20-47 | a given query key decides, else a given header key, each accepted or rejected as invalid by the validator alone; else a `Bearer ` header with every `Bearer ` removed; an empty or missing result is the missing-key error |
| GeminiAuth.CallerKeyCorrected | app/routes/gemini_api.py:20-47 | the same precedence and errors, with the bearer key being the header minus exactly one leading prefix |
| GeminiAuth.BearerCutsAgree | app/routes/gemini_api.py:36 | when the token itself does not contain `Bearer `, removing all occurrences and cutting the prefix give the same key |
| GeminiAuth.BearerReplaceCutsInsideToken | app/routes/gemini_api.py:36 | `Bearer aBearer b` yields `ab` as written, but `aBearer b` when cut once |
| GeminiRouting.ActualModel | app/routes/gemini_api.py:330-336 | the prefix followed by the result is the requested name when it carries the prefix; otherwise the name is unchanged |
| GeminiRouting.Route | app/routes/gemini_api.py:322-388 | the express pool is chosen exactly when the name is prefixed or there are express keys but no service accounts; on that path no keys is "not configured" and no key handed out is "not available"; otherwise no accounts is "no authentication" and unusable credentials is "no SA credentials"; the credentials are the ones the pool handed out; discovery is flagged exactly for the families that need it |
| GeminiRouting.RouteSucceedsExactly | app/routes/gemini_api.py:344-384 | routing succeeds exactly when the chosen pool holds credentials and hands out usable ones |
| GeminiRouting.ServiceAccountsWinWithoutPrefix | app/routes/gemini_api.py:344 | with service accounts and no prefix, the express pool has no influence on the route |
| GeminiRouting.ExplicitExpressNeverFallsBack | app/routes/gemini_api.py:346-354 | a prefixed name never reaches the service-account path, and fails without an express key |
| GeminiRequest.SamplingConfig | app/routes/gemini_api.py:103-122 | each sampling key is present exactly when the caller set the field (non-empty for stop sequences, MIME type and schema), and then carries the caller's value |
| GeminiRequest.SafetySettings | app/routes/gemini_api.py:125-139 | non-empty caller settings pass through unchanged; otherwise the five harm categories at `BLOCK_NONE`, in order |
| GeminiRequest.HarmCategoriesDistinct | app/routes/gemini_api.py:129-135 | the five default categories are distinct |
| GeminiRequest.SystemTexts | app/routes/gemini_api.py:143-146 | one text per part that has a `text` key, taken from that part, in the parts' order |
| GeminiRequest.SystemInstruction | app/routes/gemini_api.py:142-148 | it fails exactly when a gathered text is not a string; otherwise it is absent exactly when there are no texts, and is their newline join |
| GeminiRequest.SystemInstructionKeepsTexts | app/routes/gemini_api.py:146-148 | splitting the instruction at newlines gives back the texts, when none contains a newline |
| GeminiRequest.ExtraConfig | app/routes/gemini_api.py:125-158 | safety settings are always present; system instruction, tools and tool config are present exactly when given (non-empty), with the given values |
| GeminiRequest.KeyGroupsDisjoint | app/routes/gemini_api.py:99-158 | no sampling key is also one of the later keys, so neither group overrides the other |
| GeminiRequest.BuildGenerationConfig | app/routes/gemini_api.py:99-160 | it fails exactly when the system instruction does, with its error; otherwise it holds exactly the sampling keys and the later keys, each with its group's value, and only the documented keys appear |
| GeminiRequest.GenerationConfigKeys | app/routes/gemini_api.py:99-160 | the built configuration holds each sampling key exactly when the caller set it, always the safety policy, and the system instruction, tools and tool config exactly when given |
| GeminiRequest.SamplingIgnoresPenalties | app/routes/gemini_api.py:63-74 | the presence and frequency penalties never influence the sampling configuration |
| GeminiRequest.IgnoredRequestFields | app/routes/gemini_api.py:86-96 | neither the penalties nor `cachedContent` influence the built configuration, with or without a generation config |
| GeminiRequest.MapPart | app/routes/gemini_api.py:166-191 | text wins over inline data, inline data over function call, function call over function response; in the matching branch an empty payload drops the part, a payload that is not a dict fails, and a dict gives the part with `""` name, `{}` arguments or response, `""` data and the camelCase, snake_case, octet-stream MIME type chain as defaults; a part with none of the keys is dropped |
| GeminiRequest.MapParts | app/routes/gemini_api.py:166-191 | the parts succeed exactly when every part does; the result keeps the mapped parts in order; a failure is some part's failure |
| GeminiRequest.MapPartsIsSubsequence | app/routes/gemini_api.py:166-191 | each output part is the mapping of the input part at a strictly increasing index |
| GeminiRequest.Role | app/routes/gemini_api.py:193 | the role is the caller's when non-empty and `user` otherwise |
| GeminiRequest.BuildContents | app/routes/gemini_api.py:163-196 | one content per input content, in order, with its role and mapped parts; it fails exactly when some content's parts fail |
| Base64.Encode | app/routes/gemini_api.py:202 | the output has four characters for every started group of three bytes |
| Base64.DecodeEncode | app/routes/gemini_api.py:202 | decoding the encoding gives back the bytes |
| Base64.EncodeDecode | app/routes/gemini_api.py:202 | a string that decodes is the encoding of what it decodes to |
| Base64.DecodeIffEncode | app/routes/gemini_api.py:202 | a string decodes to some bytes exactly when it is their encoding |
| GeminiResponse.ConvertBytes | app/routes/gemini_api.py:199-207 | the result is serialisable, and equals the input except that every byte string is replaced by a string that decodes back to it; keys and list lengths are unchanged |
| GeminiResponse.EncodedIsUnique | app/routes/gemini_api.py:199-207 | that description determines the conversion: any value meeting it is the conversion |
| GeminiResponse.ConvertBytesKeepsSerializable | app/routes/gemini_api.py:207 | a value without byte strings is returned unchanged |
| GeminiResponse.ConvertBytesIdempotent | app/routes/gemini_api.py:199-207 | converting twice is converting once |
| GeminiResponse.SignatureJson | app/routes/gemini_api.py:272-279 | a byte signature becomes base64 that decodes back to it; a text signature is kept |
| GeminiResponse.ManualPart | app/routes/gemini_api.py:256-290 | the manual part is empty exactly when it has no text, thought, signature, call or inline data; the text comes first |
| GeminiResponse.ManualPartValues | app/routes/gemini_api.py:268-288 | a thought is `true`, a call is its name and arguments, inline data is its MIME type and raw data |
| GeminiResponse.ManualPartKeyOrder | app/routes/gemini_api.py:256-290 | the manual part's keys are text, thought, thoughtSignature, functionCall, inlineData, each present only when its field is |
| GeminiResponse.ManualPartKeys | app/routes/gemini_api.py:256-290 | each of the five keys is present exactly when its field is set |
| GeminiResponse.PartDict | app/routes/gemini_api.py:257-291 | a non-empty dump is used as is; a failed or empty dump falls back to the manual fields; a part is dropped exactly when both the dump and the manual fields are empty |
| GeminiResponse.PartJson | app/routes/gemini_api.py:257-291 | a part is emitted exactly when its dict is non-empty, as that dict |
| GeminiResponse.Role | app/routes/gemini_api.py:250-252 | the candidate's role when it has content with a non-empty role, `model` otherwise |
| GeminiResponse.Parts | app/routes/gemini_api.py:254-291 | one non-empty dict per part that yields one, in the parts' order; none without content |
| GeminiResponse.FinishReason | app/routes/gemini_api.py:243-247 | with no reason it is `STOP`; otherwise it is the text after the last `.` of the reason's name, or the whole name when it has no `.` |
| GeminiResponse.RatingJson | app/routes/gemini_api.py:294-301 | category and probability by short name; a probability without a dot reads `NEGLIGIBLE` |
| GeminiResponse.CandidateJson | app/routes/gemini_api.py:241-303 | content with role and parts, then the finish reason, then the ratings exactly when there are any, one per rating |
| GeminiResponse.UsageJson | app/routes/gemini_api.py:306-314 | no usage gives an empty dict; otherwise the three counts, plus thought tokens exactly when present and non-zero |
| GeminiResponse.ManualConversion | app/routes/gemini_api.py:229-319 | candidates one per candidate, usage metadata always, model version exactly when present and non-empty |
| GeminiResponse.ConvertResponse | app/routes/gemini_api.py:210-319 | the dump path is converted and serialisable; the manual path is returned raw |
| GeminiResponse.ConvertResponseCorrected | app/routes/gemini_api.py:210-319 | both paths are passed through the byte conversion, so the result is always serialisable and faithful to the dump or manual dict |
| GeminiResponse.ConvertResponseAgrees | app/routes/gemini_api.py:210-319 | whenever the code as written gives a serialisable reply, the corrected conversion gives the same one |
| GeminiResponse.InlinePartLeaks | app/routes/gemini_api.py:257-291 | a part with only inline data whose dump failed is emitted holding its raw bytes |
| GeminiResponse.InlineCandidateLeaks | app/routes/gemini_api.py:241-303 | a candidate holding such a part cannot be serialised as written |
| GeminiResponse.ManualConversionLeaksBytes | app/routes/gemini_api.py:229-319 | any response with such a part, whose dump failed, is not serialisable as written, but is when corrected |
| GeminiResponse.InlineResponseLeaks | app/routes/gemini_api.py:284-288 | one concrete response, a single PNG inline-data part with an empty dump, shows it |
| GeminiEndpoints.ErrorEnvelope.ToJson | app/routes/gemini_api.py:418-429 | a serialisable object whose only key `error` holds the code, the message and the status, in that order |
| GeminiEndpoints.Classify | app/routes/gemini_api.py:418-429 | a `ValueError` is 400 `INVALID_ARGUMENT`, anything else 500 `INTERNAL`; the message is kept |
| GeminiEndpoints.Discovery | app/routes/gemini_api.py:356-357 | discovery runs only on the express path for the families that need it; its exception is classified |
| GeminiEndpoints.Prepare | app/routes/gemini_api.py:400-406 | the steps run in order and the first failure answers: a rejected body classified, a routing error as 400, a discovery error classified, a translation error as 500; it succeeds exactly when every step does, and the call carries the routed backend and model, a project id exactly when discovery ran, and the translated config and contents |
| GeminiEndpoints.GenerateContent | app/routes/gemini_api.py:391-429 | 401 exactly when the caller key fails; otherwise the first preparation error, or the backend's error classified, or the converted reply when it serialises and a 500 when it still holds bytes |
| GeminiEndpoints.GenerateContentCorrected | app/routes/gemini_api.py:391-429 | the same answers, with every backend reply sent through the corrected conversion |
| GeminiEndpoints.GenerateContentAgrees | app/routes/gemini_api.py:416-429 | the written and corrected handlers differ only where the written one answers 500 for bytes and the corrected one sends the reply |
| GeminiEndpoints.RelayCorrected | app/routes/gemini_api.py:445-489 | one serialisable data frame per chunk, in order, followed by a single error frame when the stream failed |
| GeminiEndpoints.RelayCorrectedAppend | app/routes/gemini_api.py:445-489 | the corrected relay is incremental: the frames of a longer stream extend those of its prefix |
| GeminiEndpoints.CorrectedErrorFrameIsLast | app/routes/gemini_api.py:484-489 | in the corrected relay an error frame occurs only last, and only when the stream failed |
| GeminiEndpoints.RelayAppend | app/routes/gemini_api.py:445-489 | as written, relaying is incremental up to the first leaking chunk: a prefix without a leak is relayed and the rest follows, while a leak inside the prefix ends the stream there whatever follows |
| GeminiEndpoints.ErrorFrameIsLast | app/routes/gemini_api.py:479-489 | as written, an error frame occurs only last, and only when the stream failed or a chunk's `json.dumps` raised |
| GeminiEndpoints.EndsWithErrorExactly | app/routes/gemini_api.py:479-489 | as written, the stream ends with an error frame exactly when it failed or a chunk leaked bytes |
| GeminiEndpoints.FirstLeak | app/routes/gemini_api.py:478-480 | the position of the first chunk whose conversion still holds bytes, or the number of chunks |
| GeminiEndpoints.Relay | app/routes/gemini_api.py:445-489 | as written: one data frame per chunk up to the first that still holds bytes, which ends the stream with a single internal-error frame; without such a chunk, a failing stream ends with the error frame of its message |
| GeminiEndpoints.RelayAgrees | app/routes/gemini_api.py:445-489 | when every chunk converts to serialisable JSON as written, the written and corrected relays agree |
| GeminiEndpoints.RelayStopsAtBytes | app/routes/gemini_api.py:479-489 | as written, a first chunk whose conversion still holds bytes ends the stream with a single error frame, dropping the rest; corrected, every chunk is relayed |
| GeminiEndpoints.StreamGenerateContent | app/routes/gemini_api.py:432-506 | refusals happen before streaming, as in the unary handler; once streaming, the frames are the written relay of the stream's outcome |
| GeminiEndpoints.StreamGenerateContentCorrected | app/routes/gemini_api.py:432-506 | the same refusals; once streaming, the frames are the corrected relay |
| GeminiEndpoints.EndpointsAgreeBeforeBackend | app/routes/gemini_api.py:496-506 | whenever the streaming handler refuses, it gives the same reply as the unary one |
| ModelLoader.DefaultsDistinct | app/model_loader.py:16-31 | there are fourteen distinct default model names |
| ModelLoader.GetAliasModels | app/model_loader.py:34-50 | two aliases, over default bases, with distinct names outside the defaults, at thinking level high or low |
| ModelLoader.ParseDescriptor | app/model_loader.py:92-128 | a descriptor is accepted exactly when a URL is configured, the fetch gives a JSON object, and both model keys hold lists, which become the configuration |
| ModelLoader.GetModelsConfig | app/model_loader.py:131-145 | a cached configuration is returned as is; otherwise the parsed descriptor or the empty configuration, which becomes the cache |
| ModelLoader.ModelsConfigIsStable | app/model_loader.py:131-145 | once read, the configuration does not change on later reads |
| ModelLoader.GetVertexModels | app/model_loader.py:148-150 | the Vertex list of the configuration read |
| ModelLoader.GetVertexExpressModels | app/model_loader.py:153-155 | the express list of the configuration read |
| ModelLoader.RefreshModelsConfig | app/model_loader.py:184-199 | a refresh succeeds exactly when the descriptor parses, and only then replaces the cache |
| ModelLoader.FailedRefreshKeepsConfig | app/model_loader.py:184-199 | after a failed refresh, reads still give the old configuration |
| ModelLoader.ListedName | app/model_loader.py:71-76 | a listed name is kept exactly when, after removing a leading `models/`, its lower-case form contains `gemini`; it is then that remainder |
| ModelLoader.Unwrap | app/model_loader.py:71-76 | the names of a listing, one per entry |
| ModelLoader.FetchNativeModels | app/model_loader.py:53-89 | with a working listing, exactly the distinct kept names; otherwise the defaults |
| ModelLoader.NativeModelsIgnoreExpressKeys | app/model_loader.py:53-89 | express keys never influence the native list |
| ModelLoader.NativeModelsMentionGemini | app/model_loader.py:71-89 | every native model name mentions `gemini`, in any case |
| ModelLoader.GetNativeModels | app/model_loader.py:158-169 | a cached list is returned as is; otherwise the fetched one, which becomes the cache |
| ModelLoader.RefreshNativeModels | app/model_loader.py:172-181 | the cache is replaced by a fresh fetch, and the refresh reports whether it is non-empty |
| ModelLoader.ReadAfterRefresh | app/model_loader.py:158-181 | a read after a refresh gives the refreshed list |
| ModelsApi.Insert | app/routes/models_api.py:26 | insertion keeps a list strictly ascending and adds exactly the new name |
| ModelsApi.SortedUnique | app/routes/models_api.py:26 | `sorted(set(…))` is strictly ascending with exactly the input's names |
| ModelsApi.SortedListingIsUnique | app/routes/models_api.py:26 | two strictly ascending lists with the same names are equal |
| ModelsApi.ListingIgnoresOrder | app/routes/models_api.py:26 | the listing depends only on which names there are, not on their order or repeats |
| ModelsApi.ModelEntry.ToJson | app/routes/models_api.py:27-35 | the seven fields in order; root equals id; fixed object, owner, permission and parent; the shared timestamp |
| ModelsApi.ModelList.ToJson | app/routes/models_api.py:37 | a serialisable `list` object whose `data` holds each model's entry, in order |
| ModelsApi.NativeForListing | app/routes/models_api.py:16-20 | a non-empty first read is used unchanged; only an empty one causes a refresh and a second read |
| ModelsApi.ListingOf | app/routes/models_api.py:26-35 | the entries are strictly ascending by id, their ids are exactly the given names, and all carry the same timestamp |
| ModelsApi.ListModels | app/routes/models_api.py:9-37 | the ids are strictly ascending and are exactly the native names; every entry carries the same timestamp |
| ModelsApi.ListingFallsBackToDefaults | app/model_loader.py:83-89 | without a working listing, exactly the defaults are listed |

## Left out

- Everything outside these three files:
  - `start.py` and the other routers;
  - the FastAPI, JSONResponse and StreamingResponse plumbing, except that
    serialising a value that holds bytes fails;
  - the credential and express-key managers;
  - the SDK client construction;
  - `discover_project_id` and the key validator.

  The validator, the pools, discovery, the SDK calls and their outcomes
  are parameters.
- Pydantic parsing of the body. It is the `Body` input: either the
  exception reading or validating it raised, or the parsed request.
- The caller-key dependency `get_api_key` of `GET /v1/models`. It is not
  part of this model.
- The Gemini-format `list_models` and `get_model` handlers
  (app/routes/gemini_api.py:509-557). They are not part of this model.
- The `httpx` client, timeouts and the `asyncio` lock. The caches are a
  state value threaded through sequential calls, so interleavings of
  concurrent requests are not modelled.
- Debug printing and logging, including the stream's debug dumps.
- The text of `json.dumps` and the SSE line framing. A frame is modelled by
  its payload. The stream's 400/500 split before streaming is modelled; the
  HTTP status of the open stream is not.
- Floating-point numbers. They are opaque reals.
- Strings.Lower: only ASCII letters are folded, where Python's `lower()`
  folds all of Unicode.
- ModelLoader.FetchNativeModels: `list(set(…))` has an order Python does
  not fix. The model keeps first occurrences, and the contract speaks only
  of membership and distinctness.
- Enum values of the SDK. They appear through their `str()` form, which is
  the input of FinishReason and RatingJson.
- The `str(model)` fallback for listed models without a `name` attribute.
- The messages of `TypeError` and `AttributeError` raised inside the
  translator are approximated by TranslationError.Message().
- GeminiRequest.MapPart: the argument validation of the SDK part
  constructors (`types.Part.from_text`, `from_bytes`, `from_function_call`,
  `from_function_response`, app/routes/gemini_api.py:170-191) is not
  modelled. It raises a `ValueError` on ill-typed values, such as a text
  that is not a string or call arguments that are not a dict, which the
  handlers answer with 400. The SDK is not part of this model, so
  BackendPart holds any JSON value and such a request reaches the backend.

## Findings

| source | as written | input that shows it | evidently intended | confidence | as-written member | corrected member |
|---|---|---|---|---|---|---|
| app/routes/gemini_api.py:36 | `replace("Bearer ", "")` removes every occurrence of the prefix, also inside the token | header `Bearer aBearer b` gives key `ab` | strip the leading prefix once, giving `aBearer b` | not executed | GeminiAuth.BearerReplaceCutsInsideToken | GeminiAuth.BearerTokenCorrected |
| app/routes/gemini_api.py:229-319 | the manual fallback returns the dict without `convert_bytes_to_base64`, so inline data and raw part dumps keep their bytes; `JSONResponse` then raises and the unary call answers 500, and the stream ends at that chunk with an error frame | an SDK response with one inline-data part whose `model_dump` fails | apply the byte conversion on the manual path as on the dump path | not executed | GeminiResponse.ManualConversionLeaksBytes, GeminiEndpoints.GenerateContentAgrees, GeminiEndpoints.RelayStopsAtBytes | GeminiResponse.ConvertResponseCorrected, GeminiEndpoints.GenerateContentCorrected, GeminiEndpoints.StreamGenerateContentCorrected |
