/** The two credential pools, seen only through what the gateway asks of
    them: how many credentials each holds, and what one acquisition call
    hands back. Rotation inside a pool is the pool's business; the model takes
    the acquisition results as inputs. */
module Credentials {
  import opened Wrappers

  /** What `credential_manager.get_credentials()` returned: whether a
      credentials object came back, and the project id beside it. */
  datatype ServiceAccountGrant = ServiceAccountGrant(hasCredentials: bool, projectId: Option<string>)

  /** Both halves are truthy, as `if credentials and project_id` demands. */
  predicate Usable(g: ServiceAccountGrant) {
    g.hasCredentials && g.projectId.Some? && |g.projectId.value| > 0
  }

  /** The pools at the moment of one request: the service-account count,
      the express-key count, and what acquiring from each would return
      (`get_express_api_key()` yields no key when the pool has none free). */
  datatype Pools = Pools(
    serviceAccountCount: nat,
    expressKeyCount: nat,
    serviceAccountGrant: ServiceAccountGrant,
    expressKey: Option<string>)
}
