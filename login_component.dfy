/**
 * The login page of the web client: what it does with the server's reply
 * to a login request. An account that is not active is logged out again
 * at once.
 */
module LoginComponent {
  import opened Wrappers
  import opened ApiService

  const LibraryPath := "/books/library"

  /** The page's observable state: local storage, the message shown, and where it navigated. */
  datatype LoginState = LoginState(storage: Storage, responseMsg: string, navigation: Option<string>)

  /** `getTokenUserInfo()?.active ?? false`; an unreadable token raises. */
  function ActiveOf(info: TokenInfo): Option<bool> {
    match info
    case NoUser => Some(false)
    case Info(u) => Some(u.active)
    case Unreadable => None
  }

  /**
   * The state after the reply `res`. "Invalid" only sets the message. Any
   * other reply is stored as the token; an active user is sent to the
   * library, any other user is shown a message and the token is deleted.
   * When reading the stored token raises, the handler stops with the token
   * still stored.
   */
  function AfterLogin(s: LoginState, decode: Decoder, res: string): (r: LoginState)
    ensures r.navigation == s.navigation || r.navigation == Some(LibraryPath)
    ensures r.responseMsg == "Invalid Credentials." <==> res == "Invalid"
    ensures res == "Invalid" ==> r.storage == s.storage
  {
    if res == "Invalid" then s.(responseMsg := "Invalid Credentials.")
    else
      var saved := s.storage[AccessTokenKey := res];
      match ActiveOf(TokenUserInfo(saved, decode))
      case None => LoginState(saved, "", s.navigation)
      case Some(active) =>
        if active then LoginState(saved, "", Some(LibraryPath))
        else LoginState(saved - {AccessTokenKey}, "Your account is not activated.", s.navigation)
  }

  class LoginComponent {
    const api: Api
    var responseMsg: string
    var navigation: Option<string>

    constructor (api: Api)
      ensures this.api == api && responseMsg == "" && navigation == None
    {
      this.api := api;
      responseMsg := "";
      navigation := None;
    }

    method Login(res: string)
      modifies this, api
      ensures LoginState(api.storage, responseMsg, navigation) ==
              AfterLogin(LoginState(old(api.storage), old(responseMsg), old(navigation)), api.decode, res)
    {
      if res == "Invalid" {
        responseMsg := "Invalid Credentials.";
      } else {
        responseMsg := "";
        api.SaveToken(res);
        var isActive := ActiveOf(api.GetTokenUserInfo());
        if isActive.None? {
          return;
        }
        if isActive.value {
          navigation := Some(LibraryPath);
        } else {
          responseMsg := "Your account is not activated.";
          api.DeleteToken();
        }
      }
    }
  }

  // ----- lemmas -----

  /** "Invalid" stores no token and does not navigate. */
  lemma InvalidStoresNothing(s: LoginState, decode: Decoder)
    ensures AfterLogin(s, decode, "Invalid") == LoginState(s.storage, "Invalid Credentials.", s.navigation)
  {
  }

  /** Any other reply is stored as the token, unless the account turns out inactive. */
  lemma ReplyIsStored(s: LoginState, decode: Decoder, res: string)
    requires res != "Invalid"
    requires ActiveOf(TokenUserInfo(s.storage[AccessTokenKey := res], decode)) != Some(false)
    ensures AccessTokenKey in AfterLogin(s, decode, res).storage && AfterLogin(s, decode, res).storage[AccessTokenKey] == res
  {
  }

  /**
   * The page navigates to the library only for an active user, who is then
   * logged in; an inactive or missing user ends logged out with the message.
   */
  lemma {:induction false} OnlyActiveUsersEnter(s: LoginState, decode: Decoder, res: string)
    requires s.navigation.None?
    ensures var t := AfterLogin(s, decode, res);
            t.navigation.Some? ==>
              t.navigation.value == LibraryPath && t.responseMsg == "" && LoggedIn(t.storage) &&
              TokenUserInfo(t.storage, decode).Info? && TokenUserInfo(t.storage, decode).user.active
    ensures res != "Invalid" && ActiveOf(TokenUserInfo(s.storage[AccessTokenKey := res], decode)) == Some(false) ==>
              var t := AfterLogin(s, decode, res);
              !LoggedIn(t.storage) && t.responseMsg == "Your account is not activated." && t.navigation.None?
  {
    var t := AfterLogin(s, decode, res);
    if t.navigation.Some? {
      var saved := s.storage[AccessTokenKey := res];
      assert t.storage == saved;
      var info := TokenUserInfo(saved, decode);
      assert info.Info? && info.user.active;
    }
  }
}
