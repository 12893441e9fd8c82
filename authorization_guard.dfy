/**
 * The route guard for the administration pages: a user who is logged in
 * and whose token reads as ADMIN.
 */
module AuthorizationGuard {
  import opened Wrappers
  import opened Models
  import opened ApiService

  /** The guard's answer; `None` is the exception raised by an unreadable token. */
  function AdminAccess(storage: Storage, decode: Decoder): (r: Option<bool>)
    ensures r == Some(true) ==> LoggedIn(storage)
    ensures r.None? <==> TokenUserInfo(storage, decode).Unreadable?
  {
    if !LoggedIn(storage) then Some(false)
    else
      match TokenUserInfo(storage, decode)
      case Info(u) => Some(u.userType == ADMIN)
      case NoUser => Some(false)
      case Unreadable => None
  }

  /** The guard reads only the service; no route or router state enters its answer. */
  class AuthorizationGuard {
    const api: Api

    constructor (api: Api)
      ensures this.api == api
    {
      this.api := api;
    }

    function CanActivate(): Option<bool>
      reads api
    {
      AdminAccess(api.storage, api.decode)
    }
  }

  /** Admitted exactly when logged in with a token that reads as an ADMIN; refused when logged out. */
  lemma AdminAccessIff(storage: Storage, decode: Decoder)
    ensures AdminAccess(storage, decode) == Some(true) <==>
              LoggedIn(storage) && TokenUserInfo(storage, decode).Info? && TokenUserInfo(storage, decode).user.userType == ADMIN
    ensures !LoggedIn(storage) ==> AdminAccess(storage, decode) == Some(false)
  {
  }

  /** Any readable token whose type claim is not exactly "USER" (for instance "user") is let through. */
  lemma NonUserTypePasses(storage: Storage, decode: Decoder, m: map<string, string>)
    requires LoggedIn(storage) && decode(storage[AccessTokenKey]) == Some(m)
    requires forall c :: c in ReadClaims ==> c in m
    ensures AdminAccess(storage, decode) == Some(m["userType"] != "USER")
  {
  }
}
