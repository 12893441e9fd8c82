/**
 * The user administration page of the web client: the users received from
 * the server and the block / enable toggles.
 */
module UsersListComponent {
  import opened ApiService

  /** The request `blockUser` sends: unblock a blocked user, block any other. */
  function BlockRequest(u: ClientUser): string {
    if u.blocked then UnblockUserUrl(u.id) else BlockUserUrl(u.id)
  }

  /** The request `enableUser` sends: disable an active user, enable any other. */
  function EnableRequest(u: ClientUser): string {
    if u.active then DisableUserUrl(u.id) else EnableUserUrl(u.id)
  }

  /** The user after the reply `res` to a block toggle: flipped on "success", as it was otherwise. */
  function AfterBlockReply(u: ClientUser, res: string): (r: ClientUser)
    ensures r.(blocked := u.blocked) == u
    ensures r.blocked == (u.blocked != (res == "success"))
  {
    if res == "success" then u.(blocked := !u.blocked) else u
  }

  /** The user after the reply `res` to an enable toggle. */
  function AfterEnableReply(u: ClientUser, res: string): (r: ClientUser)
    ensures r.(active := u.active) == u
    ensures r.active == (u.active != (res == "success"))
  {
    if res == "success" then u.(active := !u.active) else u
  }

  class UsersListComponent {
    var users: seq<ClientUser>

    constructor ()
      ensures users == []
    {
      users := [];
    }

    /** `ngOnInit`: the received list replaces the shown one. */
    method Init(res: seq<ClientUser>)
      modifies this
      ensures users == res
    {
      users := [];
      users := res;
    }

    /** Toggles the blocked flag of the `i`-th user listed; returns the request sent. */
    method BlockUser(i: nat, res: string) returns (url: string)
      requires i < |users|
      modifies this
      ensures url == BlockRequest(old(users[i]))
      ensures users == old(users)[i := AfterBlockReply(old(users[i]), res)]
    {
      var user := users[i];
      if user.blocked {
        url := UnblockUserUrl(user.id);
        if res == "success" {
          users := users[i := user.(blocked := false)];
        }
      } else {
        url := BlockUserUrl(user.id);
        if res == "success" {
          users := users[i := user.(blocked := true)];
        }
      }
    }

    /** Toggles the active flag of the `i`-th user listed; returns the request sent. */
    method EnableUser(i: nat, res: string) returns (url: string)
      requires i < |users|
      modifies this
      ensures url == EnableRequest(old(users[i]))
      ensures users == old(users)[i := AfterEnableReply(old(users[i]), res)]
    {
      var user := users[i];
      if user.active {
        url := DisableUserUrl(user.id);
        if res == "success" {
          users := users[i := user.(active := false)];
        }
      } else {
        url := EnableUserUrl(user.id);
        if res == "success" {
          users := users[i := user.(active := true)];
        }
      }
    }
  }

  // ----- lemmas -----

  /**
   * Only "success" changes the user, and then only the toggled flag, which
   * becomes the negation of its old value; the other flag is never touched.
   */
  lemma ToggleFrames(u: ClientUser, res: string)
    ensures AfterBlockReply(u, res).blocked == (if res == "success" then !u.blocked else u.blocked)
    ensures AfterBlockReply(u, res).(blocked := u.blocked) == u
    ensures AfterEnableReply(u, res).active == (if res == "success" then !u.active else u.active)
    ensures AfterEnableReply(u, res).(active := u.active) == u
    ensures AfterBlockReply(u, res).active == u.active && AfterEnableReply(u, res).blocked == u.blocked
  {
  }

  /** Two successful toggles give the user back; the two toggles commute. */
  lemma ToggleTwice(u: ClientUser, r1: string, r2: string)
    ensures AfterBlockReply(AfterBlockReply(u, "success"), "success") == u
    ensures AfterEnableReply(AfterEnableReply(u, "success"), "success") == u
    ensures AfterBlockReply(AfterEnableReply(u, r1), r2) == AfterEnableReply(AfterBlockReply(u, r2), r1)
  {
  }
}
