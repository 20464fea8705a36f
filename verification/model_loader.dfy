/** The model catalogue: the built-in model names and aliases, the optional
    remote configuration of model lists, and the native model list fetched
    with service-account credentials. Both lists are cached process-wide;
    the cache is a state value here, and every network or SDK result that a
    step would fetch is an input to that step. */
module ModelLoader {
  import opened Wrappers
  import opened Json
  import opened Credentials
  import Strings
  import Seqs

  /** The names served when no listing is available. */
  const DefaultGeminiModels: seq<string> := [
    "gemini-2.0-flash",
    "gemini-2.0-flash-exp",
    "gemini-2.0-flash-lite",
    "gemini-2.0-flash-lite-001",
    "gemini-2.0-flash-001",
    "gemini-2.5-flash",
    "gemini-2.5-flash-preview-04-17",
    "gemini-2.5-flash-preview-05-20",
    "gemini-2.5-flash-preview-native-audio-dialog",
    "gemini-2.5-pro",
    "gemini-2.5-pro-preview-05-06",
    "gemini-2.5-pro-preview-06-05",
    "gemini-3-pro-preview",
    "gemini-3-pro-image-generation-preview"]

  /** The fourteen defaults are fourteen different names. */
  lemma DefaultsDistinct()
    ensures |DefaultGeminiModels| == 14
    ensures Seqs.NoDuplicates(DefaultGeminiModels)
  {
  }

  /** An alias: a name of its own that stands for a base model run at a
      fixed thinking level. */
  datatype AliasDefinition = AliasDefinition(name: string, baseModel: string, thinkingLevel: string, description: string)

  const AliasModels: seq<AliasDefinition> := [
    AliasDefinition("gemini-3-pro-preview-high", "gemini-3-pro-preview", "high",
      "Gemini 3 Pro with high thinking level (maximum reasoning depth)"),
    AliasDefinition("gemini-3-pro-preview-low", "gemini-3-pro-preview", "low",
      "Gemini 3 Pro with low thinking level (minimal latency)")]

  /** `get_alias_models`: every alias stands for a default model, is not
      itself a default model, and no alias name is repeated. */
  function GetAliasModels(): (r: seq<AliasDefinition>)
    ensures |r| == 2
    ensures forall i :: 0 <= i < |r| ==> r[i].baseModel in DefaultGeminiModels
    ensures forall i :: 0 <= i < |r| ==> r[i].name !in DefaultGeminiModels
    ensures forall i, j :: 0 <= i < j < |r| ==> r[i].name != r[j].name
    ensures forall i :: 0 <= i < |r| ==> r[i].thinkingLevel == "high" || r[i].thinkingLevel == "low"
  {
    AliasModels
  }

  // ---- the remote model configuration ----

  /** The two model lists of the remote configuration, each the raw list
      the document held. */
  datatype ModelsConfig = ModelsConfig(vertexModels: seq<Json>, vertexExpressModels: seq<Json>)

  /** What the cache falls back to when the first fetch fails. */
  const EmptyModelsConfig: ModelsConfig := ModelsConfig([], [])

  /** How fetching the configuration URL ended. */
  datatype DescriptorFetch =
    | RequestFailed
    | HttpStatusError(status: int)
    | BodyNotJson
    | Body(document: Json)

  predicate IsList(j: Option<Json>) {
    j.Some? && j.value.JList?
  }

  /** `fetch_and_parse_models_config`: the two lists when the URL is set,
      the fetch succeeded, and the document is a dict holding both keys with
      list values; None in every other case. */
  function ParseDescriptor(url: string, fetch: DescriptorFetch): (r: Option<ModelsConfig>)
    ensures r.Some? <==>
      && |url| > 0 && fetch.Body? && fetch.document.JObj?
      && IsList(Get(fetch.document.fields, "vertex_models"))
      && IsList(Get(fetch.document.fields, "vertex_express_models"))
    ensures r.Some? ==>
      && r.value.vertexModels == Get(fetch.document.fields, "vertex_models").value.items
      && r.value.vertexExpressModels == Get(fetch.document.fields, "vertex_express_models").value.items
  {
    if |url| == 0 then None
    else match fetch
      case Body(JObj(d)) =>
        var vm, vem := Get(d, "vertex_models"), Get(d, "vertex_express_models");
        if IsList(vm) && IsList(vem) then Some(ModelsConfig(vm.value.items, vem.value.items)) else None
      case _ => None
  }

  /** The process-wide caches. */
  datatype CatalogState = CatalogState(modelCache: Option<ModelsConfig>, nativeCache: Option<seq<string>>)

  const InitialState: CatalogState := CatalogState(None, None)

  /** The state after a step, and what the step returned. */
  datatype Step<T> = Step(state: CatalogState, value: T)

  /** `get_models_config`: a cached configuration is returned without
      fetching; otherwise the fetched one, or the empty one when fetching
      failed, is cached and returned. */
  function GetModelsConfig(st: CatalogState, url: string, fetch: DescriptorFetch): (r: Step<ModelsConfig>)
    ensures st.modelCache.Some? ==> r == Step(st, st.modelCache.value)
    ensures st.modelCache.None? && ParseDescriptor(url, fetch).Some? ==> r.value == ParseDescriptor(url, fetch).value
    ensures st.modelCache.None? && ParseDescriptor(url, fetch).None? ==> r.value == EmptyModelsConfig
    ensures r.state.modelCache == Some(r.value)
    ensures r.state.nativeCache == st.nativeCache
  {
    match st.modelCache
    case Some(config) => Step(st, config)
    case None =>
      var config := ParseDescriptor(url, fetch).GetOr(EmptyModelsConfig);
      Step(st.(modelCache := Some(config)), config)
  }

  /** Once read, the configuration stays: a second read fetches nothing and
      returns the same lists, whatever its own fetch would have given. */
  lemma ModelsConfigIsStable(st: CatalogState, url: string, fetch: DescriptorFetch, url2: string, fetch2: DescriptorFetch)
    ensures var first := GetModelsConfig(st, url, fetch);
      GetModelsConfig(first.state, url2, fetch2) == first
  {
  }

  /** `get_vertex_models` */
  function GetVertexModels(st: CatalogState, url: string, fetch: DescriptorFetch): (r: Step<seq<Json>>)
    ensures r.state == GetModelsConfig(st, url, fetch).state
    ensures r.value == r.state.modelCache.value.vertexModels
  {
    var s := GetModelsConfig(st, url, fetch);
    Step(s.state, s.value.vertexModels)
  }

  /** `get_vertex_express_models` */
  function GetVertexExpressModels(st: CatalogState, url: string, fetch: DescriptorFetch): (r: Step<seq<Json>>)
    ensures r.state == GetModelsConfig(st, url, fetch).state
    ensures r.value == r.state.modelCache.value.vertexExpressModels
  {
    var s := GetModelsConfig(st, url, fetch);
    Step(s.state, s.value.vertexExpressModels)
  }

  /** `refresh_models_config_cache`: a successful fetch replaces the cached
      configuration and answers true; a failed one leaves every cache as it
      was and answers false. */
  function RefreshModelsConfig(st: CatalogState, url: string, fetch: DescriptorFetch): (r: Step<bool>)
    ensures r.value <==> ParseDescriptor(url, fetch).Some?
    ensures r.value ==> r.state == st.(modelCache := ParseDescriptor(url, fetch))
    ensures !r.value ==> r.state == st
  {
    match ParseDescriptor(url, fetch)
    case Some(config) => Step(st.(modelCache := Some(config)), true)
    case None => Step(st, false)
  }

  /** Unlike the first read, a failed refresh keeps the configuration that
      was cached before it. */
  lemma FailedRefreshKeepsConfig(st: CatalogState, url: string, fetch: DescriptorFetch, url2: string, fetch2: DescriptorFetch)
    requires st.modelCache.Some?
    requires ParseDescriptor(url, fetch).None?
    ensures GetModelsConfig(RefreshModelsConfig(st, url, fetch).state, url2, fetch2).value == st.modelCache.value
  {
  }

  // ---- the native model list ----

  const ModelsPrefix: string := "models/"

  /** One listed model name as kept: without a leading "models/", and only
      when it mentions "gemini" in any letter case. */
  function ListedName(name: string): (r: Option<string>)
    ensures r.Some? ==> Strings.Contains(Strings.Lower(r.value), "gemini")
    ensures r.Some? ==> (if Strings.StartsWith(name, ModelsPrefix) then ModelsPrefix + r.value else r.value) == name
    ensures r.None? <==>
      !Strings.Contains(Strings.Lower(if Strings.StartsWith(name, ModelsPrefix) then name[|ModelsPrefix|..] else name), "gemini")
  {
    var stripped := if Strings.StartsWith(name, ModelsPrefix) then name[|ModelsPrefix|..] else name;
    assert Strings.StartsWith(name, ModelsPrefix) ==> name == name[..|ModelsPrefix|] + stripped;
    if Strings.Contains(Strings.Lower(stripped), "gemini") then Some(stripped) else None
  }

  /** Everything `fetch_native_models_with_credentials` looks at: the two
      pool sizes, what acquiring service-account credentials returned, and
      what listing the models returned — the name of each listed model
      (None for a model without one, on which the loop raises), or None
      when the listing call itself raised. */
  datatype NativeSource = NativeSource(
    serviceAccountCount: nat,
    grant: ServiceAccountGrant,
    listing: Option<seq<Option<string>>>,
    expressKeyCount: nat)

  /** The listing is used: service accounts exist, the acquired credentials
      are usable, and the listing went through without raising. */
  predicate ListingSucceeds(src: NativeSource) {
    && src.serviceAccountCount > 0
    && Usable(src.grant)
    && src.listing.Some?
    && forall i :: 0 <= i < |src.listing.value| ==> src.listing.value[i].Some?
  }

  function Unwrap(names: seq<Option<string>>): (r: seq<string>)
    requires forall i :: 0 <= i < |names| ==> names[i].Some?
    ensures |r| == |names|
    ensures forall i :: 0 <= i < |names| ==> names[i] == Some(r[i])
  {
    seq(|names|, i requires 0 <= i < |names| => names[i].value)
  }

  /** `fetch_native_models_with_credentials`: the distinct kept names of a
      successful listing, otherwise the defaults. */
  function FetchNativeModels(src: NativeSource): (r: seq<string>)
    ensures ListingSucceeds(src) ==> Seqs.NoDuplicates(r)
    ensures ListingSucceeds(src) ==> forall m :: m in r <==>
      exists i :: 0 <= i < |src.listing.value| && ListedName(src.listing.value[i].value) == Some(m)
    ensures !ListingSucceeds(src) ==> r == DefaultGeminiModels
  {
    if ListingSucceeds(src) then
      var names := Unwrap(src.listing.value);
      var kept := Seqs.FilterMap(names, ListedName);
      forall m
        ensures m in kept <==> exists i :: 0 <= i < |src.listing.value| && ListedName(src.listing.value[i].value) == Some(m)
      {
        Seqs.FilterMapMembers(names, ListedName, m);
      }
      Seqs.Dedupe(kept)
    else DefaultGeminiModels
  }

  /** The express pool never changes the answer: with or without express
      keys the fallback is the same default list. */
  lemma NativeModelsIgnoreExpressKeys(src: NativeSource, expressKeyCount: nat)
    ensures FetchNativeModels(src.(expressKeyCount := expressKeyCount)) == FetchNativeModels(src)
  {
    assert ListingSucceeds(src.(expressKeyCount := expressKeyCount)) == ListingSucceeds(src);
  }

  /** Every name the fetch answers mentions "gemini": the kept listed names
      by the filter, the defaults by construction. */
  lemma NativeModelsMentionGemini(src: NativeSource, m: string)
    ensures m in FetchNativeModels(src) ==> Strings.Contains(Strings.Lower(m), "gemini")
  {
    if m in FetchNativeModels(src) && !ListingSucceeds(src) {
      var i :| 0 <= i < |DefaultGeminiModels| && DefaultGeminiModels[i] == m;
      assert forall k :: 0 <= k < 6 ==> m[k] == "gemini"[k];
      assert m[..6] == "gemini";
      var lower := Strings.Lower(m);
      assert forall k :: 0 <= k < 6 ==> lower[k] == m[k];
      assert lower[..6] == m[..6];
      assert Strings.StartsWith(lower, "gemini");
    }
  }

  /** `get_native_models`: a cached list is returned without fetching,
      otherwise the fetched list is cached and returned. */
  function GetNativeModels(st: CatalogState, src: NativeSource): (r: Step<seq<string>>)
    ensures st.nativeCache.Some? ==> r == Step(st, st.nativeCache.value)
    ensures st.nativeCache.None? ==> r.value == FetchNativeModels(src)
    ensures r.state.nativeCache == Some(r.value)
    ensures r.state.modelCache == st.modelCache
  {
    match st.nativeCache
    case Some(models) => Step(st, models)
    case None =>
      var models := FetchNativeModels(src);
      Step(st.(nativeCache := Some(models)), models)
  }

  /** `refresh_native_models_cache`: always refetches and replaces the
      cached list, and answers whether the new list is non-empty. */
  function RefreshNativeModels(st: CatalogState, src: NativeSource): (r: Step<bool>)
    ensures r.state.nativeCache == Some(FetchNativeModels(src))
    ensures r.state.modelCache == st.modelCache
    ensures r.value <==> |FetchNativeModels(src)| > 0
  {
    var models := FetchNativeModels(src);
    Step(st.(nativeCache := Some(models)), |models| > 0)
  }

  /** After a refresh, a read returns the refreshed list without fetching
      again. */
  lemma ReadAfterRefresh(st: CatalogState, src: NativeSource, src2: NativeSource)
    ensures var refreshed := RefreshNativeModels(st, src).state;
      GetNativeModels(refreshed, src2) == Step(refreshed, FetchNativeModels(src))
  {
  }
}
