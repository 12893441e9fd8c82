/**
 * The web client's gateway to the server: the token kept in the browser's
 * local storage, the user read back from it, and the request URLs. A user
 * id on the client is the decimal text it contributes to URLs; a token
 * carries it as text.
 */
module ApiService {
  import opened Wrappers
  import opened Models
  import opened Text

  const AccessTokenKey := "access_token"
  const BaseUrl := "https://localhost:7025/api/Library/"

  /** Local storage: key to stored text. */
  type Storage = map<string, string>

  /**
   * The token decoder the client is configured with (it reads the stored
   * token). `None` stands for a token it cannot decode; the decoder itself
   * is a library and is not modelled.
   */
  type Decoder = string -> Option<map<string, string>>

  /** A user as the client holds one. */
  datatype ClientUser = ClientUser(
    id: string,
    firstName: string,
    lastName: string,
    email: string,
    mobile: string,
    password: string,
    blocked: bool,
    active: bool,
    createdOn: string,
    userType: UserType,
    fine: int)

  /** What reading the user from the stored token gives: none, a user, or an exception. */
  datatype TokenInfo = NoUser | Info(user: ClientUser) | Unreadable

  /** The claims the client reads from a token. */
  const ReadClaims: seq<string> := ["id", "firstName", "lastName", "email", "mobile", "blocked", "active", "createdAt", "userType"]

  /** `!!localStorage.getItem('access_token')`: a stored, non-empty token. */
  predicate LoggedIn(storage: Storage) {
    AccessTokenKey in storage && storage[AccessTokenKey] != ""
  }

  /**
   * The user a decoded payload describes. The flags are true when their
   * claim lower-cases to "true"; any type other than "USER" reads as ADMIN;
   * the password is always empty and the fine 0. A payload missing a claim
   * is taken as unreadable.
   */
  function DecodeUser(m: map<string, string>): (r: TokenInfo)
    ensures !r.NoUser?
    ensures r.Info? <==> forall c :: c in ReadClaims ==> c in m
  {
    if forall c :: c in ReadClaims ==> c in m then
      Info(ClientUser(
        m["id"], m["firstName"], m["lastName"], m["email"], m["mobile"], "",
        ToLower(m["blocked"]) == "true",
        ToLower(m["active"]) == "true",
        m["createdAt"],
        if m["userType"] == "USER" then USER else ADMIN,
        0))
    else Unreadable
  }

  /** `getTokenUserInfo()`: nothing when logged out, otherwise the decoded user. */
  function TokenUserInfo(storage: Storage, decode: Decoder): (r: TokenInfo)
    ensures r.NoUser? <==> !LoggedIn(storage)
    ensures LoggedIn(storage) && decode(storage[AccessTokenKey]).None? ==> r.Unreadable?
    ensures LoggedIn(storage) && decode(storage[AccessTokenKey]).Some? ==> r == DecodeUser(decode(storage[AccessTokenKey]).value)
  {
    if !LoggedIn(storage) then NoUser
    else
      match decode(storage[AccessTokenKey])
      case None => Unreadable
      case Some(m) => DecodeUser(m)
  }

  // ----- request URLs -----

  function OrderBookUrl(userId: string, bookId: int): string {
    BaseUrl + "OrderBook/" + userId + "/" + IntText(bookId)
  }

  /** The return URL names the book first and the user second. */
  function ReturnBookUrl(bookId: string, userId: string): string {
    BaseUrl + "ReturnBook/" + bookId + "/" + userId
  }

  function BlockUserUrl(id: string): string {
    BaseUrl + "ChangeBlockStatus/1/" + id
  }

  function UnblockUserUrl(id: string): string {
    BaseUrl + "ChangeBlockStatus/0/" + id
  }

  function EnableUserUrl(id: string): string {
    BaseUrl + "ChangeEnableStatus/1/" + id
  }

  function DisableUserUrl(id: string): string {
    BaseUrl + "ChangeEnableStatus/0/" + id
  }

  // ----- the service -----

  class Api {
    var storage: Storage
    const decode: Decoder

    constructor (storage: Storage, decode: Decoder)
      ensures this.storage == storage && this.decode == decode
    {
      this.storage := storage;
      this.decode := decode;
    }

    method SaveToken(token: string)
      modifies this
      ensures storage == old(storage)[AccessTokenKey := token]
    {
      storage := storage[AccessTokenKey := token];
    }

    /** Removes the token; the page reload that follows is not modelled. */
    method DeleteToken()
      modifies this
      ensures storage == old(storage) - {AccessTokenKey}
    {
      storage := storage - {AccessTokenKey};
    }

    predicate IsLoggedIn()
      reads this
    {
      LoggedIn(storage)
    }

    function GetTokenUserInfo(): TokenInfo
      reads this
    {
      TokenUserInfo(storage, decode)
    }
  }

  // ----- lemmas -----

  /** Saving a non-empty token logs in; saving an empty one does not. */
  lemma SaveTokenLogsIn(storage: Storage, token: string)
    ensures LoggedIn(storage[AccessTokenKey := token]) <==> token != ""
  {
  }

  /** Deleting the token logs out, and nothing is read from storage afterwards. */
  lemma DeleteTokenLogsOut(storage: Storage, decode: Decoder)
    ensures !LoggedIn(storage - {AccessTokenKey})
    ensures TokenUserInfo(storage - {AccessTokenKey}, decode) == NoUser
  {
  }

  /** Logged out means no user, whatever the decoder would say. */
  lemma LoggedOutNoUser(storage: Storage, decode: Decoder)
    requires !LoggedIn(storage)
    ensures TokenUserInfo(storage, decode) == NoUser
  {
  }

  /** The flags written as "True"/"False" on the server read back as the original booleans. */
  lemma FlagTextRoundTrip(b: bool)
    ensures (ToLower(BoolText(b)) == "true") == b
  {
    if !b {
      assert ToLower("False")[0] == 'f';
    }
  }

  /** Exactly "USER" reads as USER; every other text, "user" included, reads as ADMIN. */
  lemma UserTypeReading(m: map<string, string>)
    requires DecodeUser(m).Info?
    ensures DecodeUser(m).user.userType == USER <==> m["userType"] == "USER"
    ensures m["userType"] == "user" ==> DecodeUser(m).user.userType == ADMIN
  {
  }

  /** A decoded user never carries a password or a fine, and takes its creation time from "createdAt". */
  lemma DecodedDefaults(m: map<string, string>)
    requires DecodeUser(m).Info?
    ensures DecodeUser(m).user.password == "" && DecodeUser(m).user.fine == 0
    ensures DecodeUser(m).user.createdOn == m["createdAt"] && DecodeUser(m).user.id == m["id"]
  {
  }
}
