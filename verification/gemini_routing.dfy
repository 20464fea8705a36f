/** The credential-routing decision of the native endpoints: which pool a
    request is served from, under which model name, and whether the express
    path must first discover a project id. Client construction itself is
    left to the SDK and not modelled. */
module GeminiRouting {
  import opened Wrappers
  import opened Credentials
  import Strings

  /** A model name with this prefix must be served from the express pool. */
  const ExpressPrefix: string := "[EXPRESS] "

  /** Model families for which the express path discovers a project id and
      talks to the project-scoped global endpoint. */
  const DiscoveryFamilies: seq<string> := ["gemini-2.5-pro", "gemini-2.5-flash", "gemini-3"]

  predicate NeedsProjectDiscovery(model: string) {
    exists i :: 0 <= i < |DiscoveryFamilies| && Strings.Contains(model, DiscoveryFamilies[i])
  }

  datatype Backend =
    | Express(apiKey: string, discoverProject: bool)
    | ServiceAccount(projectId: string)

  /** A routed request: the chosen credentials and the model name to send. */
  datatype Routed = Routed(backend: Backend, model: string)

  /** The `ValueError`s the router raises; the endpoints answer them with 400. */
  datatype RouteError =
    | ExpressKeyNotConfigured
    | NoExpressKeyAvailable
    | NoAuthentication
    | NoServiceAccountCredentials
  {
    function Message(): string {
      match this
      case ExpressKeyNotConfigured => "Express API key required but not configured"
      case NoExpressKeyAvailable => "No Express API key available"
      case NoAuthentication => "No authentication available (no SA credentials or Express API keys)"
      case NoServiceAccountCredentials => "No SA credentials available"
    }
  }

  /** The name with the express prefix removed once, if it has it. */
  function ActualModel(modelName: string): (r: string)
    ensures Strings.StartsWith(modelName, ExpressPrefix) ==> ExpressPrefix + r == modelName
    ensures !Strings.StartsWith(modelName, ExpressPrefix) ==> r == modelName
  {
    if Strings.StartsWith(modelName, ExpressPrefix) then
      assert modelName == modelName[..|ExpressPrefix|] + modelName[|ExpressPrefix|..];
      modelName[|ExpressPrefix|..]
    else modelName
  }

  /** `get_gemini_client`: the express pool when the name carries the prefix
      or when there are no service accounts but there are express keys;
      the service-account pool otherwise. Neither path falls back to the
      other once chosen. */
  function Route(modelName: string, pools: Pools): (r: Result<Routed, RouteError>)
    // the prefix forces the express pool; its absence prefers service accounts
    ensures var explicit := Strings.StartsWith(modelName, ExpressPrefix);
      var express := explicit || (pools.serviceAccountCount == 0 && pools.expressKeyCount > 0);
      && (r.Success? ==> (r.value.backend.Express? <==> express))
      && (express ==> r.Failure? ==> r.error == ExpressKeyNotConfigured || r.error == NoExpressKeyAvailable)
      && (!express ==> r.Failure? ==> r.error == NoAuthentication || r.error == NoServiceAccountCredentials)
    // the prefix is stripped exactly once, and only on the express path
    ensures r.Success? ==> r.value.model == ActualModel(modelName)
    ensures r.Success? && r.value.backend.Express? ==>
      r.value.backend.discoverProject == NeedsProjectDiscovery(r.value.model)
    // the credentials are the ones the chosen pool handed out
    ensures r.Success? && r.value.backend.Express? ==>
      pools.expressKeyCount > 0 && pools.expressKey == Some(r.value.backend.apiKey)
    ensures r.Success? && r.value.backend.ServiceAccount? ==>
      pools.serviceAccountCount > 0 && Usable(pools.serviceAccountGrant)
      && pools.serviceAccountGrant.projectId == Some(r.value.backend.projectId)
    // the error cases
    ensures Strings.StartsWith(modelName, ExpressPrefix) && pools.expressKeyCount == 0 ==>
      r == Failure(ExpressKeyNotConfigured)
    ensures pools.serviceAccountCount == 0 && pools.expressKeyCount == 0 ==> r.Failure?
    ensures pools.serviceAccountCount > 0 && !Strings.StartsWith(modelName, ExpressPrefix) ==>
      (r.Success? <==> Usable(pools.serviceAccountGrant))
    ensures var explicit := Strings.StartsWith(modelName, ExpressPrefix);
      var express := explicit || (pools.serviceAccountCount == 0 && pools.expressKeyCount > 0);
      && (express && pools.expressKeyCount > 0 ==> (r.Success? <==> pools.expressKey.Some?))
      && (express && pools.expressKeyCount > 0 && pools.expressKey.None? ==> r == Failure(NoExpressKeyAvailable))
      && (!express && pools.serviceAccountCount == 0 ==> r == Failure(NoAuthentication))
      && (!express && pools.serviceAccountCount > 0 && !Usable(pools.serviceAccountGrant) ==>
            r == Failure(NoServiceAccountCredentials))
  {
    var explicit := Strings.StartsWith(modelName, ExpressPrefix);
    var actual := ActualModel(modelName);
    var hasServiceAccounts := pools.serviceAccountCount > 0;
    var hasExpressKey := pools.expressKeyCount > 0;
    if explicit || (!hasServiceAccounts && hasExpressKey) then
      if !hasExpressKey then Failure(ExpressKeyNotConfigured)
      else match pools.expressKey
        case None => Failure(NoExpressKeyAvailable)
        case Some(key) => Success(Routed(Express(key, NeedsProjectDiscovery(actual)), actual))
    else if !hasServiceAccounts then Failure(NoAuthentication)
    else if !Usable(pools.serviceAccountGrant) then Failure(NoServiceAccountCredentials)
    else Success(Routed(ServiceAccount(pools.serviceAccountGrant.projectId.value), actual))
  }

  /** Whether a request can be served at all, stated pool by pool: the
      express pool serves it when that pool is chosen, holds keys and hands
      one out; the service-account pool when it is chosen, holds accounts
      and hands out usable credentials. */
  predicate Servable(modelName: string, pools: Pools) {
    if Strings.StartsWith(modelName, ExpressPrefix) || (pools.serviceAccountCount == 0 && pools.expressKeyCount > 0)
    then pools.expressKeyCount > 0 && pools.expressKey.Some?
    else pools.serviceAccountCount > 0 && Usable(pools.serviceAccountGrant)
  }

  /** The router succeeds exactly on the requests the chosen pool can serve. */
  lemma RouteSucceedsExactly(modelName: string, pools: Pools)
    ensures Route(modelName, pools).Success? <==> Servable(modelName, pools)
  {
  }

  /** With service accounts configured and no prefix, the express pool has
      no say at all: any express count and any express key give the same
      route. */
  lemma ServiceAccountsWinWithoutPrefix(modelName: string, pools: Pools, expressKeyCount: nat, expressKey: Option<string>)
    requires pools.serviceAccountCount > 0
    requires !Strings.StartsWith(modelName, ExpressPrefix)
    ensures Route(modelName, pools) == Route(modelName, pools.(expressKeyCount := expressKeyCount, expressKey := expressKey))
    ensures Route(modelName, pools).Success? ==> Route(modelName, pools).value.backend.ServiceAccount?
  {
  }

  /** The prefix with an empty express pool is an error whatever the
      service-account pool holds: there is no silent fallback. */
  lemma ExplicitExpressNeverFallsBack(modelName: string, pools: Pools)
    requires Strings.StartsWith(modelName, ExpressPrefix)
    ensures Route(modelName, pools).Success? ==> Route(modelName, pools).value.backend.Express?
    ensures pools.expressKeyCount == 0 || pools.expressKey.None? ==> Route(modelName, pools).Failure?
  {
  }
}
