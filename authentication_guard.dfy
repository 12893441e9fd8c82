/** The route guard for the pages of any logged-in user. */
module AuthenticationGuard {
  import opened ApiService

  /** The guard reads only the service; no route or router state enters its answer. */
  class AuthenticationGuard {
    const api: Api

    constructor (api: Api)
      ensures this.api == api
    {
      this.api := api;
    }

    predicate CanActivate()
      reads api
    {
      api.IsLoggedIn()
    }
  }

  /**
   * The answer depends on the stored token's presence only: any non-empty
   * token passes, whatever its claims or expiry, and nothing else does.
   */
  lemma PresenceOnly(storage: Storage, token: string)
    ensures LoggedIn(storage[AccessTokenKey := token]) <==> token != ""
    ensures AccessTokenKey !in storage ==> !LoggedIn(storage)
  {
  }
}
