/**
 * The registration page of the web client: the account it submits, the
 * reply it shows, and the check that both password fields agree.
 */
module RegisterComponent {
  import opened Wrappers
  import opened Models

  /** The errors the repeated-password check reports: none, or `{rpassword: true}`. */
  type ValidationErrors = Option<map<string, bool>>

  const Mismatch: map<string, bool> := map["rpassword" := true]

  /** The account `register` submits: id 0, a USER, no mobile, neither blocked nor active, no fine. */
  function RegistrationUser(firstName: string, lastName: string, email: string, password: string): (u: User)
    ensures u.id == 0 && u.userType == USER && u.mobile == "" && u.createdOn == "" && u.fine == 0
    ensures !u.blocked && !u.active
    ensures u.firstName == firstName && u.lastName == lastName && u.email == email && u.password == password
  {
    User(0, firstName, lastName, email, "", password, false, false, "", USER, 0)
  }

  /** A form control's error state. */
  class Control {
    var errors: ValidationErrors

    constructor ()
      ensures errors == None
    {
      errors := None;
    }
  }

  /**
   * The form-level check: no errors when the two passwords are the same
   * text, `{rpassword: true}` otherwise; the repeat field's errors are set to
   * the same value.
   */
  method RepeatPasswordValidator(pwd: string, rpwd: string, rpassword: Control) returns (r: ValidationErrors)
    modifies rpassword
    ensures r.None? <==> pwd == rpwd
    ensures r.Some? ==> r.value == Mismatch
    ensures rpassword.errors == r
  {
    if pwd == rpwd {
      rpassword.errors := None;
      return None;
    } else {
      rpassword.errors := Some(Mismatch);
      return Some(Mismatch);
    }
  }

  class RegisterComponent {
    var responseMsg: string

    constructor ()
      ensures responseMsg == ""
    {
      responseMsg := "";
    }

    /** Submits the account built from the form and shows the server's reply `res`. */
    method Register(firstName: string, lastName: string, email: string, password: string, res: string) returns (request: User)
      modifies this
      ensures request == RegistrationUser(firstName, lastName, email, password)
      ensures responseMsg == res
    {
      request := RegistrationUser(firstName, lastName, email, password);
      responseMsg := res;
    }
  }
}
