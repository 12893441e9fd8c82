/**
 * The field checks the login and register forms share: a required field,
 * the password length bounds and the email format, with the message each
 * form shows for the first error found.
 */
module Forms {
  const PasswordMinLength := 8
  const PasswordMaxLength := 15

  /** The errors a password field carries, under the framework's names. */
  function PasswordErrors(p: string): (r: set<string>)
    ensures "required" in r <==> |p| == 0
    ensures "minlength" in r <==> 0 < |p| < PasswordMinLength
    ensures "maxlength" in r <==> |p| > PasswordMaxLength
    ensures r <= {"required", "minlength", "maxlength"}
  {
    (if |p| == 0 then {"required"} else {}) +
    (if 0 < |p| < PasswordMinLength then {"minlength"} else {}) +
    (if |p| > PasswordMaxLength then {"maxlength"} else {})
  }

  /**
   * The errors an email field carries. `isEmail` is the framework's format
   * test, which only runs on a non-empty value.
   */
  function EmailErrors(e: string, isEmail: bool): (r: set<string>)
    ensures "required" in r <==> |e| == 0
    ensures "email" in r <==> |e| > 0 && !isEmail
    ensures r <= {"required", "email"}
  {
    (if |e| == 0 then {"required"} else {}) + (if |e| > 0 && !isEmail then {"email"} else {})
  }

  /** The message shown under the password: required, then minlength, then maxlength. */
  function PasswordMessage(errors: set<string>): string {
    if "required" in errors then "Password is required."
    else if "minlength" in errors then "Minimum 8 characters are required."
    else if "maxlength" in errors then "Maximum 15 characters are required."
    else ""
  }

  /** The message shown under the email: required, then format. */
  function EmailMessage(errors: set<string>): string {
    if "required" in errors then "Email is required."
    else if "email" in errors then "Email is invalid."
    else ""
  }

  /** A password is accepted exactly when it has 8 to 15 characters. */
  lemma PasswordAccepted(p: string)
    ensures PasswordErrors(p) == {} <==> PasswordMinLength <= |p| <= PasswordMaxLength
    ensures PasswordMessage(PasswordErrors(p)) == "" <==> PasswordErrors(p) == {}
  {
    if PasswordMinLength <= |p| <= PasswordMaxLength {
      assert PasswordErrors(p) == {};
    } else if |p| == 0 {
      assert "required" in PasswordErrors(p);
    } else if |p| < PasswordMinLength {
      assert "minlength" in PasswordErrors(p);
    } else {
      assert "maxlength" in PasswordErrors(p);
    }
  }

  /** Which message a password gets, by its length. */
  lemma PasswordMessageByLength(p: string)
    ensures |p| == 0 ==> PasswordMessage(PasswordErrors(p)) == "Password is required."
    ensures 0 < |p| < 8 ==> PasswordMessage(PasswordErrors(p)) == "Minimum 8 characters are required."
    ensures |p| > 15 ==> PasswordMessage(PasswordErrors(p)) == "Maximum 15 characters are required."
  {
  }

  /** The message priority holds for any combination of errors. */
  lemma MessagePriority(errors: set<string>)
    ensures "required" in errors ==> PasswordMessage(errors) == "Password is required." && EmailMessage(errors) == "Email is required."
    ensures "required" !in errors && "minlength" in errors ==> PasswordMessage(errors) == "Minimum 8 characters are required."
    ensures "required" !in errors && "email" in errors ==> EmailMessage(errors) == "Email is invalid."
    ensures PasswordMessage(errors) == "" <==> errors * {"required", "minlength", "maxlength"} == {}
    ensures EmailMessage(errors) == "" <==> errors * {"required", "email"} == {}
  {
    if "minlength" in errors { assert "minlength" in errors * {"required", "minlength", "maxlength"}; }
    if "maxlength" in errors { assert "maxlength" in errors * {"required", "minlength", "maxlength"}; }
    if "required" in errors {
      assert "required" in errors * {"required", "minlength", "maxlength"};
      assert "required" in errors * {"required", "email"};
    }
    if "email" in errors { assert "email" in errors * {"required", "email"}; }
  }

  /** An email is accepted when it is present and well formed. */
  lemma EmailAccepted(e: string, isEmail: bool)
    ensures EmailMessage(EmailErrors(e, isEmail)) == "" <==> |e| > 0 && isEmail
    ensures |e| == 0 ==> EmailMessage(EmailErrors(e, isEmail)) == "Email is required."
  {
    if |e| == 0 { assert "required" in EmailErrors(e, isEmail); }
    else if !isEmail { assert "email" in EmailErrors(e, isEmail); }
    else { assert EmailErrors(e, isEmail) == {}; }
  }
}
