/** The client's route table: each path, its page and the guards that must admit it. */
module Routing {
  import opened Wrappers
  import opened ApiService
  import opened AuthorizationGuard

  datatype Guard = Authentication | Authorization

  datatype Route = Route(path: string, component: string, canActivate: seq<Guard>)

  const Routes: seq<Route> := [
    Route("books/library", "LibraryComponent", [Authentication]),
    Route("login", "LoginComponent", []),
    Route("register", "RegisterComponent", []),
    Route("users/order", "OrderComponent", [Authentication]),
    Route("users/all-orders", "OrdersComponent", [Authorization]),
    Route("books/return", "ReturnBookComponent", [Authorization]),
    Route("users/list", "UsersListComponent", [Authorization]),
    Route("books/maintenance", "ManageBooksComponent", [Authorization]),
    Route("books/categories", "ManageCategoriesComponent", [Authorization]),
    Route("users/profile", "ProfileComponent", [Authentication])
  ]

  /** The guards of the route with that path, if there is one. */
  function GuardsOf(path: string): Option<seq<Guard>> {
    GuardsIn(Routes, path)
  }

  function GuardsIn(rs: seq<Route>, path: string): Option<seq<Guard>>
    decreases |rs|
  {
    if |rs| == 0 then None
    else if rs[0].path == path then Some(rs[0].canActivate)
    else GuardsIn(rs[1..], path)
  }

  /** Whether one guard admits the current session. */
  predicate Admits(g: Guard, storage: Storage, decode: Decoder) {
    match g
    case Authentication => LoggedIn(storage)
    case Authorization => AdminAccess(storage, decode) == Some(true)
  }

  /** A route is entered when every one of its guards admits the session. */
  predicate CanEnter(r: Route, storage: Storage, decode: Decoder) {
    forall i :: 0 <= i < |r.canActivate| ==> Admits(r.canActivate[i], storage, decode)
  }

  // ----- lemmas -----

  /** Paths are pairwise distinct and no route has more than one guard. */
  lemma RouteTableShape()
    ensures forall i, j :: 0 <= i < j < |Routes| ==> Routes[i].path != Routes[j].path
    ensures forall i :: 0 <= i < |Routes| ==> |Routes[i].canActivate| <= 1
  {
  }

  /** Looking up the path of the `i`-th route finds that route when no earlier route has the same path. */
  lemma {:induction false} GuardsInAt(rs: seq<Route>, i: nat)
    requires i < |rs|
    requires forall k :: 0 <= k < i ==> rs[k].path != rs[i].path
    ensures GuardsIn(rs, rs[i].path) == Some(rs[i].canActivate)
    decreases i
  {
    if i > 0 {
      assert rs[0].path != rs[i].path;
      assert forall k :: 0 <= k < i - 1 ==> rs[1..][k].path == rs[k + 1].path;
      GuardsInAt(rs[1..], i - 1);
    }
  }

  /** Looking up the path of any route finds exactly that route's guards: no route shadows another. */
  lemma GuardTable()
    ensures forall i :: 0 <= i < |Routes| ==> GuardsOf(Routes[i].path) == Some(Routes[i].canActivate)
  {
    RouteTableShape();
    forall i | 0 <= i < |Routes|
      ensures GuardsOf(Routes[i].path) == Some(Routes[i].canActivate)
    {
      GuardsInAt(Routes, i);
    }
  }

  /** A path that no route has is not in the table. */
  lemma {:induction false} GuardsInAbsent(rs: seq<Route>, path: string)
    requires forall k :: 0 <= k < |rs| ==> rs[k].path != path
    ensures GuardsIn(rs, path) == None
    decreases |rs|
  {
    if |rs| > 0 {
      assert forall k :: 0 <= k < |rs| - 1 ==> rs[1..][k].path == rs[k + 1].path;
      GuardsInAbsent(rs[1..], path);
    }
  }

  /** Logged out, only the unguarded pages (login and register) can be entered. */
  lemma {:induction false} LoggedOutReachesOnlyOpenPages(storage: Storage, decode: Decoder, i: nat)
    requires !LoggedIn(storage) && i < |Routes|
    ensures CanEnter(Routes[i], storage, decode) <==> Routes[i].path == "login" || Routes[i].path == "register"
  {
    AdminAccessIff(storage, decode);
    var r := Routes[i];
    if |r.canActivate| > 0 {
      assert !Admits(r.canActivate[0], storage, decode);
    }
  }

  /** The administration pages admit exactly the sessions the authorization guard admits. */
  lemma AdminPagesNeedAdmin(storage: Storage, decode: Decoder, i: nat)
    requires i < |Routes| && Routes[i].canActivate == [Authorization]
    ensures CanEnter(Routes[i], storage, decode) <==> AdminAccess(storage, decode) == Some(true)
  {
    assert Routes[i].canActivate[0] == Authorization;
  }
}
