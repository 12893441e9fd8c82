/**
 * How the server and the client fit together: the user a token issued at
 * login reads back as on the client, the request paths the client builds
 * and the controller routes that bind them, and what a new account can do.
 */
module Wire {
  import opened Wrappers
  import opened Models
  import opened Text
  import opened Jwt
  import opened ApiService
  import opened DataAccess
  import opened Controller
  import opened LoginComponent
  import opened RegisterComponent
  import opened UsersListComponent

  /** The client's view of a stored user: id as decimal text, no password, no fine. */
  function ClientView(u: User): ClientUser {
    ClientUser(IntText(u.id), u.firstName, u.lastName, u.email, u.mobile, "", u.blocked, u.active, u.createdOn, u.userType, 0)
  }

  /** The segments of a request path below the API's base address. */
  function PathSegments(url: string): seq<string>
    requires BaseUrl <= url
  {
    Split(url[|BaseUrl|..], '/')
  }

  /** Every claim the client reads is present in a token issued for `u`, and they read back as `u`. */
  lemma TokenRoundTrip(t: Token, u: User)
    requires t.claims == Claims(u)
    ensures DecodeUser(Payload(t)) == Info(ClientView(u))
  {
    PayloadValues(t, u);
    FlagTextRoundTrip(u.blocked);
    FlagTextRoundTrip(u.active);
    assert forall c :: c in ReadClaims ==> c in Payload(t);
  }

  /** With a token from the server stored, the client reads back the user the token was issued for. */
  lemma SessionUser(storage: Storage, decode: Decoder, text: string, t: Token, u: User)
    requires text != "" && decode(text) == Some(Payload(t)) && t.claims == Claims(u)
    ensures TokenUserInfo(storage[AccessTokenKey := text], decode) == Info(ClientView(u))
  {
    TokenRoundTrip(t, u);
  }

  /** A login reply for user `u` that the client can decode gets in exactly when `u` is active. */
  lemma LoginGate(s: LoginState, decode: Decoder, text: string, t: Token, u: User)
    requires text != "Invalid" && text != "" && decode(text) == Some(Payload(t)) && t.claims == Claims(u)
    ensures AfterLogin(s, decode, text).navigation == (if u.active then Some(LibraryPath) else s.navigation)
    ensures LoggedIn(AfterLogin(s, decode, text).storage) <==> u.active
  {
    SessionUser(s.storage, decode, text, t, u);
  }

  /** Splits a path of the form `a/b/c` whose parts have no slash. */
  lemma SplitThree(a: string, b: string, c: string)
    requires '/' !in a && '/' !in b && '/' !in c
    ensures Split(a + "/" + b + "/" + c, '/') == [a, b, c]
  {
    assert a + "/" + b + "/" + c == a + ['/'] + (b + ['/'] + c);
    SplitAtSeparator(a, '/', b + ['/'] + c);
    SplitAtSeparator(b, '/', c);
    SplitNoSeparator(c, '/');
  }

  /** A three-segment path binds a literal-and-two-parameters route. */
  lemma BindRequest(l: string, p1: string, p2: string, a: string, b: string)
    requires '/' !in l && '/' !in a && '/' !in b
    ensures Bind([Literal(l), Param(p1), Param(p2)], Split(l + "/" + a + "/" + b, '/')) == Some(map[p2 := b][p1 := a])
  {
    SplitThree(l, a, b);
    var t := [Literal(l), Param(p1), Param(p2)];
    var ps := [l, a, b];
    assert Bind(t[2..], ps[2..]) == Some(map[p2 := b]) by {
      assert t[2..][1..] == [] && ps[2..][1..] == [];
    }
    assert t[1..][1..] == t[2..] && ps[1..][1..] == ps[2..];
    assert Bind(t[1..], ps[1..]) == Some(map[p2 := b][p1 := a]);
  }

  lemma NoSlashInIntText(n: int)
    ensures '/' !in IntText(n)
  {
  }

  /** The order request binds the controller's user first and book second. */
  lemma OrderRequestBinds(userId: string, bookId: int)
    requires '/' !in userId
    ensures BaseUrl <= OrderBookUrl(userId, bookId)
    ensures Bind(OrderBookRoute, PathSegments(OrderBookUrl(userId, bookId))) == Some(map["userId" := userId, "bookId" := IntText(bookId)])
  {
    var url := OrderBookUrl(userId, bookId);
    assert url == BaseUrl + ("OrderBook" + "/" + userId + "/" + IntText(bookId));
    assert url[|BaseUrl|..] == "OrderBook" + "/" + userId + "/" + IntText(bookId);
    NoSlashInIntText(bookId);
    BindRequest("OrderBook", "userId", "bookId", userId, IntText(bookId));
    assert map["bookId" := IntText(bookId)]["userId" := userId] == map["userId" := userId, "bookId" := IntText(bookId)];
  }

  /** The return request names the book first; the controller's route reads it in that order. */
  lemma ReturnRequestBinds(bookId: string, userId: string)
    requires '/' !in bookId && '/' !in userId
    ensures BaseUrl <= ReturnBookUrl(bookId, userId)
    ensures Bind(ReturnBookRoute, PathSegments(ReturnBookUrl(bookId, userId))) == Some(map["bookId" := bookId, "userId" := userId])
  {
    var url := ReturnBookUrl(bookId, userId);
    assert url == BaseUrl + ("ReturnBook" + "/" + bookId + "/" + userId);
    assert url[|BaseUrl|..] == "ReturnBook" + "/" + bookId + "/" + userId;
    BindRequest("ReturnBook", "bookId", "userId", bookId, userId);
    assert map["userId" := userId]["bookId" := bookId] == map["bookId" := bookId, "userId" := userId];
  }

  /** The user id the client reads from its token is one the server parses back to the user's id. */
  lemma TokenIdParses(u: User)
    requires IsInt32(u.id)
    ensures ParseInt32(ClientView(u).id) == Some(u.id) && '/' !in ClientView(u).id
  {
    ParseIntText(u.id);
    NoSlashInIntText(u.id);
  }

  lemma StatusTexts()
    ensures ParseInt32("1") == Some(1) && ParseInt32("0") == Some(0)
  {
    ParseIntText(1);
    ParseIntText(0);
    assert IntText(1) == "1" && IntText(0) == "0";
  }

  /** A status request binds the status text and the id of a status-changing route. */
  lemma StatusRequestBinds(action: string, status: string, id: string)
    requires '/' !in action && '/' !in id && (status == "0" || status == "1")
    ensures var b := Bind([Literal(action), Param("status"), Param("id")], Split(action + "/" + status + "/" + id, '/'));
            b.Some? && "status" in b.value && "id" in b.value && b.value["id"] == id && b.value["status"] == status
  {
    BindRequest(action, "status", "id", status, id);
  }

  /**
   * The block toggle of a listed user binds a status the controller reads as
   * "block" exactly when the user was not blocked, so a successful toggle
   * leaves the server and the list agreeing.
   */
  lemma BlockToggleAgrees(u: ClientUser, res: string)
    requires '/' !in u.id
    ensures BaseUrl <= BlockRequest(u)
    ensures var b := Bind(ChangeBlockStatusRoute, PathSegments(BlockRequest(u)));
            b.Some? && "status" in b.value && "id" in b.value && b.value["id"] == u.id &&
            ParseInt32(b.value["status"]).Some? && (ParseInt32(b.value["status"]).value == 1 <==> !u.blocked)
    ensures res == "success" ==> AfterBlockReply(u, res).blocked == !u.blocked
  {
    var status := if u.blocked then "0" else "1";
    assert BlockRequest(u) == BaseUrl + ("ChangeBlockStatus" + "/" + status + "/" + u.id);
    assert PathSegments(BlockRequest(u)) == Split("ChangeBlockStatus" + "/" + status + "/" + u.id, '/');
    StatusRequestBinds("ChangeBlockStatus", status, u.id);
    var b := Bind(ChangeBlockStatusRoute, PathSegments(BlockRequest(u)));
    assert b.Some? && b.value["status"] == status;
    StatusTexts();
  }

  /** The same for the enable toggle and the active flag. */
  lemma EnableToggleAgrees(u: ClientUser, res: string)
    requires '/' !in u.id
    ensures BaseUrl <= EnableRequest(u)
    ensures var b := Bind(ChangeEnableStatusRoute, PathSegments(EnableRequest(u)));
            b.Some? && "status" in b.value && "id" in b.value && b.value["id"] == u.id &&
            ParseInt32(b.value["status"]).Some? && (ParseInt32(b.value["status"]).value == 1 <==> !u.active)
    ensures res == "success" ==> AfterEnableReply(u, res).active == !u.active
  {
    var status := if u.active then "0" else "1";
    assert EnableRequest(u) == BaseUrl + ("ChangeEnableStatus" + "/" + status + "/" + u.id);
    assert PathSegments(EnableRequest(u)) == Split("ChangeEnableStatus" + "/" + status + "/" + u.id, '/');
    StatusRequestBinds("ChangeEnableStatus", status, u.id);
    var b := Bind(ChangeEnableStatusRoute, PathSegments(EnableRequest(u)));
    assert b.Some? && b.value["status"] == status;
    StatusTexts();
  }

  /**
   * An account registered from the client is stored as an unblocked,
   * inactive USER with no fine; a token issued for it does not get past the
   * login page until an administrator activates it.
   */
  lemma NewAccountStartsInactive(t: Tables, first: string, last: string, email: string, password: string, createdOn: string,
                                 s: LoginState, decode: Decoder, text: string, tok: Token)
    requires var row := Apply(t, Call.CreateUser(AccountRow(RegistrationUser(first, last, email, password), createdOn))).users[|t.users|];
             text != "Invalid" && text != "" && decode(text) == Some(Payload(tok)) && tok.claims == Claims(row)
    ensures var row := Apply(t, Call.CreateUser(AccountRow(RegistrationUser(first, last, email, password), createdOn))).users[|t.users|];
            row.userType == USER && !row.blocked && !row.active && row.fine == 0 && row.email == email && row.password == password
    ensures !LoggedIn(AfterLogin(s, decode, text).storage) && AfterLogin(s, decode, text).navigation == s.navigation
  {
    var row := Apply(t, Call.CreateUser(AccountRow(RegistrationUser(first, last, email, password), createdOn))).users[|t.users|];
    LoginGate(s, decode, text, tok, row);
  }
}
