/** The response side of the native endpoints: the SDK's response object
    becomes a Gemini-format JSON value (`convert_response_to_gemini_format`).
    The SDK's own serialisation (`model_dump`) is a foreign call; its result,
    or its absence when it raised, enters as an input. Otherwise the object is
    converted field by field from the records below. */
module GeminiResponse {
  import opened Wrappers
  import opened Json
  import Base64
  import Strings
  import Seqs

  // ---- convert_bytes_to_base64 ----

  /** `r` is `j` with every `bytes` leaf replaced by a string that decodes
      back to those bytes (section 4 of RFC 4648), dict keys and order and
      list lengths kept, and every other leaf left alone. */
  predicate Encoded(j: Json, r: Json)
    decreases j
  {
    match j
    case JBytes(b) => r.JStr? && Base64.Decode(r.s) == Some(b)
    case JList(items) =>
      && r.JList? && |r.items| == |items|
      && forall i :: 0 <= i < |items| ==> Encoded(items[i], r.items[i])
    case JObj(fields) =>
      && r.JObj? && |r.fields| == |fields|
      && forall i :: 0 <= i < |fields| ==> r.fields[i].0 == fields[i].0 && Encoded(fields[i].1, r.fields[i].1)
    case _ => r == j
  }

  /** `convert_bytes_to_base64` */
  function ConvertBytes(j: Json): (r: Json)
    ensures Serializable(r)
    ensures Encoded(j, r)
    decreases j
  {
    match j
    case JBytes(b) =>
      Base64.DecodeEncode(b);
      JStr(Base64.Encode(b))
    case JList(items) => JList(seq(|items|, i requires 0 <= i < |items| => ConvertBytes(items[i])))
    case JObj(fields) => JObj(seq(|fields|, i requires 0 <= i < |fields| => (fields[i].0, ConvertBytes(fields[i].1))))
    case _ => j
  }

  /** `Encoded` leaves no choice: `ConvertBytes` is the only conversion
      that meets it. */
  lemma {:induction false} EncodedIsUnique(j: Json, r: Json)
    requires Encoded(j, r)
    ensures r == ConvertBytes(j)
    decreases j
  {
    match j
    case JBytes(b) =>
      Base64.DecodeIffEncode(r.s, b);
    case JList(items) =>
      forall i | 0 <= i < |items|
        ensures r.items[i] == ConvertBytes(j).items[i]
      {
        EncodedIsUnique(items[i], r.items[i]);
      }
    case JObj(fields) =>
      forall i | 0 <= i < |fields|
        ensures r.fields[i] == ConvertBytes(j).fields[i]
      {
        EncodedIsUnique(fields[i].1, r.fields[i].1);
      }
    case _ =>
  }

  /** A value with no bytes in it passes through unchanged. */
  lemma {:induction false} ConvertBytesKeepsSerializable(j: Json)
    requires Serializable(j)
    ensures ConvertBytes(j) == j
    decreases j
  {
    match j
    case JList(items) =>
      forall i | 0 <= i < |items|
        ensures ConvertBytes(items[i]) == items[i]
      {
        ConvertBytesKeepsSerializable(items[i]);
      }
    case JObj(fields) =>
      forall i | 0 <= i < |fields|
        ensures (fields[i].0, ConvertBytes(fields[i].1)) == fields[i]
      {
        ConvertBytesKeepsSerializable(fields[i].1);
      }
    case _ =>
  }

  /** Converting twice is converting once. */
  lemma ConvertBytesIdempotent(j: Json)
    ensures ConvertBytes(ConvertBytes(j)) == ConvertBytes(j)
  {
    ConvertBytesKeepsSerializable(ConvertBytes(j));
  }

  // ---- the SDK response object, as far as the manual conversion reads it ----

  /** `part.thought_signature`: bytes, or a string already. */
  datatype Signature = SigBytes(bytes: seq<byte>) | SigText(text: string) {
    predicate Truthy() {
      match this
      case SigBytes(b) => |b| > 0
      case SigText(t) => |t| > 0
    }
  }

  /** `part.function_call`: its name, and `dict(fc.args)` (empty when the
      args are missing or empty). */
  datatype FunctionCall = FunctionCall(name: Option<string>, args: Dict)

  /** `part.inline_data` */
  datatype Blob = Blob(mimeType: Option<string>, data: Option<seq<byte>>)

  /** One response part: what `part.model_dump(exclude_none=True)` returned
      (None when it raised), and the attributes read when that is empty. */
  datatype Part = Part(
    dump: Option<Dict>,
    text: Option<string>,
    thought: Option<bool>,
    thoughtSignature: Option<Signature>,
    functionCall: Option<FunctionCall>,
    inlineData: Option<Blob>)

  datatype CandidateContent = CandidateContent(role: Option<string>, parts: seq<Part>)

  /** A safety rating, its category and probability given by their `str()`
      forms (an enum prints as "HarmCategory.HARM_CATEGORY_…"). */
  datatype SafetyRating = SafetyRating(category: string, probability: string)

  /** A candidate; `finishReason` is the `str()` form of the finish reason,
      None when it is missing. */
  datatype Candidate = Candidate(
    finishReason: Option<string>,
    content: Option<CandidateContent>,
    safetyRatings: seq<SafetyRating>)

  /** A token count as `getattr(um, name, 0)` reads it: the attribute may be
      missing (read as 0) or None (kept as null). */
  datatype Count = Missing | Null | Count(n: int)

  datatype Usage = Usage(prompt: Count, candidates: Count, total: Count, thoughts: Option<int>)

  datatype Response = Response(
    candidates: seq<Candidate>,
    usageMetadata: Option<Usage>,
    modelVersion: Option<string>)

  // ---- the manual conversion ----

  function OptStr(s: Option<string>): Json {
    if s.Some? then JStr(s.value) else JNull
  }

  /** A one-entry dict when `cond` holds, an empty one otherwise. */
  function EntryIf(cond: bool, key: string, value: Json): (r: Dict)
    ensures cond ==> r == [(key, value)]
    ensures !cond ==> r == []
    ensures Keys(r) == if cond then [key] else []
  {
    if cond then [(key, value)] else []
  }

  predicate HasText(p: Part) { p.text.Some? }
  predicate HasThought(p: Part) { p.thought == Some(true) }
  predicate HasSignature(p: Part) { p.thoughtSignature.Some? && p.thoughtSignature.value.Truthy() }
  predicate HasCall(p: Part) { p.functionCall.Some? }
  predicate HasInline(p: Part) { p.inlineData.Some? }

  function SignatureJson(sig: Signature): (r: Json)
    ensures r.JStr?
    ensures sig.SigBytes? ==> Base64.Decode(r.s) == Some(sig.bytes)
    ensures sig.SigText? ==> r.s == sig.text
  {
    match sig
    case SigBytes(b) =>
      Base64.DecodeEncode(b);
      JStr(Base64.Encode(b))
    case SigText(t) => JStr(t)
  }

  function CallJson(fc: FunctionCall): Json {
    JObj([("name", OptStr(fc.name)), ("args", JObj(fc.args))])
  }

  /** The inline data as the code writes it: the raw bytes under "data". */
  function InlineJson(b: Blob): Json {
    JObj([("mimeType", OptStr(b.mimeType)), ("data", if b.data.Some? then JBytes(b.data.value) else JNull)])
  }

  /** The part dict built from attributes, keys in the order the code sets
      them. */
  function ManualPart(p: Part): (r: Dict)
    ensures |r| == 0 <==> !HasText(p) && !HasThought(p) && !HasSignature(p) && !HasCall(p) && !HasInline(p)
    ensures HasText(p) ==> r[0] == ("text", JStr(p.text.value))
    // a signature given as bytes is carried as its base64 text
    ensures HasSignature(p) ==> Get(r, "thoughtSignature") == Some(SignatureJson(p.thoughtSignature.value))
    ensures HasSignature(p) && p.thoughtSignature.value.SigBytes? ==>
      Base64.Decode(Get(r, "thoughtSignature").value.s) == Some(p.thoughtSignature.value.bytes)
  {
    var a := EntryIf(HasText(p), "text", if HasText(p) then JStr(p.text.value) else JNull);
    var b := EntryIf(HasThought(p), "thought", JBool(true));
    var c := EntryIf(HasSignature(p), "thoughtSignature", if HasSignature(p) then SignatureJson(p.thoughtSignature.value) else JNull);
    var d := EntryIf(HasCall(p), "functionCall", if HasCall(p) then CallJson(p.functionCall.value) else JNull);
    var e := EntryIf(HasInline(p), "inlineData", if HasInline(p) then InlineJson(p.inlineData.value) else JNull);
    var r := a + b + c + d + e;
    assert HasSignature(p) ==> r[|a| + |b|] == c[0];
    assert HasSignature(p) ==> Get(r, "thoughtSignature") == Some(c[0].1) by {
      if HasSignature(p) {
        GetFirst(r, |a| + |b|, "thoughtSignature");
      }
    }
    r
  }

  function KeyIf(cond: bool, key: string): seq<string> {
    if cond then [key] else []
  }

  /** Which keys a dict with the manual part's key layout has. */
  lemma PartKeys(m: Dict, text: bool, thought: bool, signature: bool, call: bool, inline: bool)
    requires Keys(m) == KeyIf(text, "text") + KeyIf(thought, "thought")
      + KeyIf(signature, "thoughtSignature") + KeyIf(call, "functionCall") + KeyIf(inline, "inlineData")
    ensures HasKey(m, "text") <==> text
    ensures HasKey(m, "thought") <==> thought
    ensures HasKey(m, "thoughtSignature") <==> signature
    ensures HasKey(m, "functionCall") <==> call
    ensures HasKey(m, "inlineData") <==> inline
  {
  }

  /** The keys of the manual part dict, in order. */
  lemma ManualPartKeyOrder(p: Part)
    ensures Keys(ManualPart(p)) == KeyIf(HasText(p), "text") + KeyIf(HasThought(p), "thought")
      + KeyIf(HasSignature(p), "thoughtSignature") + KeyIf(HasCall(p), "functionCall") + KeyIf(HasInline(p), "inlineData")
  {
    var a := EntryIf(HasText(p), "text", if HasText(p) then JStr(p.text.value) else JNull);
    var b := EntryIf(HasThought(p), "thought", JBool(true));
    var c := EntryIf(HasSignature(p), "thoughtSignature", if HasSignature(p) then SignatureJson(p.thoughtSignature.value) else JNull);
    var d := EntryIf(HasCall(p), "functionCall", if HasCall(p) then CallJson(p.functionCall.value) else JNull);
    var e := EntryIf(HasInline(p), "inlineData", if HasInline(p) then InlineJson(p.inlineData.value) else JNull);
    assert ManualPart(p) == a + b + c + d + e;
    KeysAppend(a, b);
    KeysAppend(a + b, c);
    KeysAppend(a + b + c, d);
    KeysAppend(a + b + c + d, e);
  }

  /** The manual part dict as its five optional entries, in order. */
  lemma ManualPartPieces(p: Part) returns (a: Dict, b: Dict, c: Dict, d: Dict, e: Dict)
    ensures ManualPart(p) == a + b + c + d + e
    ensures Keys(a) == KeyIf(HasText(p), "text") && Keys(b) == KeyIf(HasThought(p), "thought")
    ensures Keys(c) == KeyIf(HasSignature(p), "thoughtSignature") && Keys(d) == KeyIf(HasCall(p), "functionCall")
    ensures HasThought(p) ==> b == [("thought", JBool(true))]
    ensures HasCall(p) ==> d == [("functionCall", CallJson(p.functionCall.value))]
    ensures HasInline(p) ==> e == [("inlineData", InlineJson(p.inlineData.value))]
  {
    a := EntryIf(HasText(p), "text", if HasText(p) then JStr(p.text.value) else JNull);
    b := EntryIf(HasThought(p), "thought", JBool(true));
    c := EntryIf(HasSignature(p), "thoughtSignature", if HasSignature(p) then SignatureJson(p.thoughtSignature.value) else JNull);
    d := EntryIf(HasCall(p), "functionCall", if HasCall(p) then CallJson(p.functionCall.value) else JNull);
    e := EntryIf(HasInline(p), "inlineData", if HasInline(p) then InlineJson(p.inlineData.value) else JNull);
  }

  lemma ManualPartThought(p: Part)
    requires HasThought(p)
    ensures Get(ManualPart(p), "thought") == Some(JBool(true))
  {
    var a, b, c, d, e := ManualPartPieces(p);
    KeysAppend(a, b);
    GetFirst(b, 0, "thought");
    GetSkips(a, b, "thought", JBool(true));
    GetKeeps(a + b, c, "thought", JBool(true));
    GetKeeps(a + b + c, d, "thought", JBool(true));
    GetKeeps(a + b + c + d, e, "thought", JBool(true));
  }

  lemma ManualPartCall(p: Part)
    requires HasCall(p)
    ensures Get(ManualPart(p), "functionCall") == Some(CallJson(p.functionCall.value))
  {
    var a, b, c, d, e := ManualPartPieces(p);
    KeysAppend(a, b);
    KeysAppend(a + b, c);
    GetFirst(d, 0, "functionCall");
    GetSkips(a + b + c, d, "functionCall", CallJson(p.functionCall.value));
    GetKeeps(a + b + c + d, e, "functionCall", CallJson(p.functionCall.value));
  }

  lemma ManualPartInline(p: Part)
    requires HasInline(p)
    ensures Get(ManualPart(p), "inlineData") == Some(InlineJson(p.inlineData.value))
  {
    var a, b, c, d, e := ManualPartPieces(p);
    KeysAppend(a, b);
    KeysAppend(a + b, c);
    KeysAppend(a + b + c, d);
    GetFirst(e, 0, "inlineData");
    GetSkips(a + b + c + d, e, "inlineData", InlineJson(p.inlineData.value));
  }

  /** The value under each key of the manual part dict: `True` for a
      thought, the call as name and arguments, the inline data as mime type
      and the raw data. */
  lemma ManualPartValues(p: Part)
    ensures HasThought(p) ==> Get(ManualPart(p), "thought") == Some(JBool(true))
    ensures HasCall(p) ==> Get(ManualPart(p), "functionCall") == Some(CallJson(p.functionCall.value))
    ensures HasInline(p) ==> Get(ManualPart(p), "inlineData") == Some(InlineJson(p.inlineData.value))
  {
    if HasThought(p) {
      ManualPartThought(p);
    }
    if HasCall(p) {
      ManualPartCall(p);
    }
    if HasInline(p) {
      ManualPartInline(p);
    }
  }

  /** A key of the manual part dict appears exactly when its attribute is
      present (text), true (thought) or truthy (the rest). */
  lemma ManualPartKeys(p: Part)
    ensures HasKey(ManualPart(p), "text") <==> HasText(p)
    ensures HasKey(ManualPart(p), "thought") <==> HasThought(p)
    ensures HasKey(ManualPart(p), "thoughtSignature") <==> HasSignature(p)
    ensures HasKey(ManualPart(p), "functionCall") <==> HasCall(p)
    ensures HasKey(ManualPart(p), "inlineData") <==> HasInline(p)
  {
    ManualPartKeyOrder(p);
    PartKeys(ManualPart(p), HasText(p), HasThought(p), HasSignature(p), HasCall(p), HasInline(p));
  }

  /** The part dict: the SDK dump when it came back non-empty, the manual
      fields otherwise; None when even that is empty, so the part is not
      emitted. */
  function PartDict(p: Part): (r: Option<Dict>)
    ensures r.None? <==> (p.dump.None? || |p.dump.value| == 0) && |ManualPart(p)| == 0
    ensures p.dump.Some? && |p.dump.value| > 0 ==> r == Some(p.dump.value)
    // a failed or empty dump falls back to the manual fields
    ensures (p.dump.None? || |p.dump.value| == 0) && |ManualPart(p)| > 0 ==> r == Some(ManualPart(p))
    ensures r.Some? ==> |r.value| > 0
  {
    var d := if p.dump.Some? && |p.dump.value| > 0 then p.dump.value else ManualPart(p);
    if |d| > 0 then Some(d) else None
  }

  /** The emitted part: the part dict as a JSON object, when there is one. */
  function PartJson(p: Part): (r: Option<Json>)
    ensures r.Some? <==> PartDict(p).Some?
    ensures r.Some? ==> r.value == JObj(PartDict(p).value) && |r.value.fields| > 0
  {
    match PartDict(p)
    case Some(d) => Some(JObj(d))
    case None => None
  }

  /** The finish reason sent: "STOP" when there is none, otherwise the
      enum member's short name, the text after its last ".". */
  function FinishReason(fr: Option<string>): (r: string)
    ensures fr.None? || |fr.value| == 0 ==> r == "STOP"
    ensures fr.Some? && |fr.value| > 0 ==>
      && |r| <= |fr.value| && fr.value[|fr.value| - |r|..] == r && '.' !in r
      && ('.' !in fr.value ==> r == fr.value)
      && ('.' in fr.value ==> fr.value[|fr.value| - |r| - 1] == '.')
  {
    if fr.Some? && |fr.value| > 0 then Strings.ShortName(fr.value) else "STOP"
  }

  /** One safety rating: the category's short name, and the probability's
      short name when it prints with a "." and "NEGLIGIBLE" otherwise. */
  function RatingJson(sr: SafetyRating): (r: Json)
    ensures r.JObj? && |r.fields| == 2
    ensures r.fields[0].0 == "category" && r.fields[1].0 == "probability"
    ensures r.fields[0].1 == JStr(Strings.ShortName(sr.category))
    ensures '.' !in sr.probability ==> r.fields[1].1 == JStr("NEGLIGIBLE")
    ensures '.' in sr.probability ==> r.fields[1].1 == JStr(Strings.ShortName(sr.probability))
  {
    JObj([
      ("category", JStr(Strings.ShortName(sr.category))),
      ("probability", JStr(if '.' in sr.probability then Strings.ShortName(sr.probability) else "NEGLIGIBLE"))])
  }

  /** `candidate.content.role or "model"`, and "model" without content. */
  function Role(c: Option<CandidateContent>): (r: string)
    ensures |r| > 0
    ensures c.Some? && c.value.role.Some? && |c.value.role.value| > 0 ==> r == c.value.role.value
    ensures c.None? || c.value.role.None? || |c.value.role.value| == 0 ==> r == "model"
  {
    if c.Some? && c.value.role.Some? && |c.value.role.value| > 0 then c.value.role.value else "model"
  }

  /** The emitted parts: one non-empty dict per part that yields one, in
      the parts' order; a part whose dict stays empty is skipped. */
  function Parts(c: Option<CandidateContent>): (r: seq<Json>)
    ensures c.None? ==> r == []
    ensures c.Some? ==>
      var parts, idx := c.value.parts, Seqs.KeptIndices(c.value.parts, PartJson);
      && |r| == |idx|
      && (forall i :: 0 <= i < |parts| ==> (PartJson(parts[i]).Some? <==> i in idx))
      && (forall k :: 0 <= k < |r| ==> PartJson(parts[idx[k]]) == Some(r[k]))
      && (forall k :: 0 <= k < |r| ==> r[k].JObj? && |r[k].fields| > 0)
  {
    if c.Some? then
      Seqs.FilterMapKeepsExactly(c.value.parts, PartJson);
      Seqs.KeptIndicesAll(c.value.parts, PartJson);
      Seqs.FilterMap(c.value.parts, PartJson)
    else []
  }

  /** One candidate: its content (role defaulted to "model", only the
      non-empty part dicts), its finish reason, and its safety ratings when
      it has any. */
  function CandidateJson(c: Candidate): (r: Json)
    ensures r.JObj? && 2 <= |r.fields| <= 3
    ensures r.fields[0] == ("content", JObj([("role", JStr(Role(c.content))), ("parts", JList(Parts(c.content)))]))
    ensures r.fields[1] == ("finishReason", JStr(FinishReason(c.finishReason)))
    ensures |r.fields| == 3 <==> |c.safetyRatings| > 0
    ensures |r.fields| == 3 ==>
      && r.fields[2].0 == "safetyRatings" && r.fields[2].1.JList?
      && |r.fields[2].1.items| == |c.safetyRatings|
      && forall i :: 0 <= i < |c.safetyRatings| ==> r.fields[2].1.items[i] == RatingJson(c.safetyRatings[i])
  {
    var content := JObj([("role", JStr(Role(c.content))), ("parts", JList(Parts(c.content)))]);
    var ratings := seq(|c.safetyRatings|, i requires 0 <= i < |c.safetyRatings| => RatingJson(c.safetyRatings[i]));
    JObj([("content", content), ("finishReason", JStr(FinishReason(c.finishReason)))]
      + (if |c.safetyRatings| > 0 then [("safetyRatings", JList(ratings))] else []))
  }

  function CountJson(c: Count): Json {
    match c
    case Missing => JInt(0)
    case Null => JNull
    case Count(n) => JInt(n)
  }

  /** The usage block: the three counts always, the thinking count only when
      it is non-zero; an empty dict when the response carries no usage. */
  function UsageJson(u: Option<Usage>): (r: Dict)
    ensures u.None? ==> r == []
    ensures u.Some? ==> 3 <= |r| <= 4
    ensures u.Some? ==>
      && r[0] == ("promptTokenCount", CountJson(u.value.prompt))
      && r[1] == ("candidatesTokenCount", CountJson(u.value.candidates))
      && r[2] == ("totalTokenCount", CountJson(u.value.total))
    ensures u.Some? ==> (|r| == 4 <==> u.value.thoughts.Some? && u.value.thoughts.value != 0)
    ensures |r| == 4 ==> r[3] == ("thoughtsTokenCount", JInt(u.value.thoughts.value))
  {
    match u
    case None => []
    case Some(um) =>
      [("promptTokenCount", CountJson(um.prompt)),
       ("candidatesTokenCount", CountJson(um.candidates)),
       ("totalTokenCount", CountJson(um.total))]
      + (if um.thoughts.Some? && um.thoughts.value != 0 then [("thoughtsTokenCount", JInt(um.thoughts.value))] else [])
  }

  /** The manual conversion, as written: one JSON candidate per response
      candidate in order, the usage block, and the model version when it is
      non-empty. */
  function ManualConversion(resp: Response): (r: Json)
    ensures r.JObj? && 2 <= |r.fields| <= 3
    ensures r.fields[0].0 == "candidates" && r.fields[0].1.JList?
    ensures |r.fields[0].1.items| == |resp.candidates|
    ensures forall i :: 0 <= i < |resp.candidates| ==> r.fields[0].1.items[i] == CandidateJson(resp.candidates[i])
    ensures r.fields[1] == ("usageMetadata", JObj(UsageJson(resp.usageMetadata)))
    ensures |r.fields| == 3 <==> resp.modelVersion.Some? && |resp.modelVersion.value| > 0
    ensures |r.fields| == 3 ==> r.fields[2] == ("modelVersion", JStr(resp.modelVersion.value))
  {
    var candidates := seq(|resp.candidates|, i requires 0 <= i < |resp.candidates| => CandidateJson(resp.candidates[i]));
    JObj([("candidates", JList(candidates)), ("usageMetadata", JObj(UsageJson(resp.usageMetadata)))]
      + (if resp.modelVersion.Some? && |resp.modelVersion.value| > 0
         then [("modelVersion", JStr(resp.modelVersion.value))] else []))
  }

  /** `convert_response_to_gemini_format` as written: the SDK dump with its
      bytes converted when the dump succeeded, the manual conversion as is
      when it did not. */
  function ConvertResponse(resp: Response, dump: Option<Json>): (r: Json)
    ensures dump.Some? ==> Serializable(r) && Encoded(dump.value, r)
    ensures dump.None? ==> r == ManualConversion(resp)
  {
    if dump.Some? then ConvertBytes(dump.value) else ManualConversion(resp)
  }

  /** The conversion with the bytes conversion applied on both paths: the
      result can always be serialised, and it is the chosen source with
      exactly its bytes re-encoded. */
  function ConvertResponseCorrected(resp: Response, dump: Option<Json>): (r: Json)
    ensures Serializable(r)
    ensures Encoded(if dump.Some? then dump.value else ManualConversion(resp), r)
  {
    ConvertBytes(if dump.Some? then dump.value else ManualConversion(resp))
  }

  /** The corrected conversion differs from the written one only where the
      written one could not be serialised. */
  lemma ConvertResponseAgrees(resp: Response, dump: Option<Json>)
    requires Serializable(ConvertResponse(resp, dump))
    ensures ConvertResponseCorrected(resp, dump) == ConvertResponse(resp, dump)
  {
    if dump.None? {
      ConvertBytesKeepsSerializable(ManualConversion(resp));
    } else {
      ConvertBytesIdempotent(dump.value);
    }
  }

  /** A part whose dump came back empty or failed and that carries nothing
      but inline data with bytes. */
  predicate InlineOnly(p: Part) {
    && (p.dump.None? || p.dump == Some([]))
    && !HasText(p) && !HasThought(p) && !HasSignature(p) && !HasCall(p)
    && p.inlineData.Some? && p.inlineData.value.data.Some?
  }

  /** Such a part is emitted, and holds its raw bytes. */
  lemma {:induction false} InlinePartLeaks(p: Part)
    requires InlineOnly(p)
    ensures PartJson(p).Some? && !Serializable(PartJson(p).value)
  {
    var inline := InlineJson(p.inlineData.value);
    assert ManualPart(p) == [("inlineData", inline)];
    assert inline.fields[1].1 == JBytes(p.inlineData.value.data.value);
    assert !Serializable(JObj(ManualPart(p)).fields[0].1);
  }

  /** The part list of a content with such a part holds its bytes. */
  lemma {:induction false} InlinePartsLeak(content: CandidateContent, j: nat)
    requires j < |content.parts| && InlineOnly(content.parts[j])
    ensures !Serializable(JList(Parts(Some(content))))
  {
    InlinePartLeaks(content.parts[j]);
    var parts := Parts(Some(content));
    var idx := Seqs.KeptIndices(content.parts, PartJson);
    assert j in idx;
    var k :| 0 <= k < |idx| && idx[k] == j;
    assert PartJson(content.parts[j]) == Some(parts[k]);
  }

  /** A candidate with such a part cannot be serialised as written. */
  lemma {:induction false} InlineCandidateLeaks(c: Candidate, j: nat)
    requires c.content.Some? && j < |c.content.value.parts| && InlineOnly(c.content.value.parts[j])
    ensures !Serializable(CandidateJson(c))
  {
    InlinePartsLeak(c.content.value, j);
    var parts := JList(Parts(c.content));
    var content := JObj([("role", JStr(Role(c.content))), ("parts", parts)]);
    assert !Serializable(content) by {
      assert content.fields[1].1 == parts;
    }
    var cj := CandidateJson(c);
    assert cj.fields[0] == ("content", content);
  }

  /** When the SDK dump fails, a response with a part that carries only
      inline data keeps its raw bytes and `json.dumps` rejects it, while the
      corrected conversion can always be sent. */
  lemma {:induction false} ManualConversionLeaksBytes(resp: Response, i: nat, j: nat)
    requires i < |resp.candidates|
    requires resp.candidates[i].content.Some?
    requires j < |resp.candidates[i].content.value.parts|
    requires InlineOnly(resp.candidates[i].content.value.parts[j])
    ensures !Serializable(ConvertResponse(resp, None))
    ensures Serializable(ConvertResponseCorrected(resp, None))
  {
    InlineCandidateLeaks(resp.candidates[i], j);
    var r := ManualConversion(resp);
    assert r.fields[0].1.items[i] == CandidateJson(resp.candidates[i]);
    assert !Serializable(r.fields[0].1);
  }

  /** A response whose only part carries inline data, with a dump that came
      back empty. */
  const InlineOnlyPart: Part := Part(Some([]), None, None, None, None, Some(Blob(Some("image/png"), Some([137, 80]))))
  const InlineResponse: Response := Response([Candidate(None, Some(CandidateContent(None, [InlineOnlyPart])), [])], None, None)

  /** That response is one the code as written cannot send. */
  lemma InlineResponseLeaks()
    ensures !Serializable(ConvertResponse(InlineResponse, None))
    ensures Serializable(ConvertResponseCorrected(InlineResponse, None))
  {
    ManualConversionLeaksBytes(InlineResponse, 0, 0);
  }
}
